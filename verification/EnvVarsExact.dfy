/**
 * Which values make `${VAR}` resolution idempotent: exactly the inert ones. Every other value, in
 * company of one harmless variable, makes a second resolution change the text again.
 */
module EnvVarsExact {
  import opened Text
  import opened EnvVars

  /** An empty value lets `$` and `{` meet, so the text contains neither and still changes again. */
  lemma {:induction false} EmptyValueBreaksIdempotence()
    ensures var env := map["A" := "", "B" := "b"];
            var s := "$${A}{B}";
            Resolve(s, env) == "${B}" && Resolve("${B}", env) == "b"
  {
    var env := map["A" := "", "B" := "b"];
    FirstResolution("$${A}{B}", env);
    SecondResolution(env);
  }

  lemma FirstResolution(text: string, env: Env)
    requires text == "$${A}{B}" && "A" in env && env["A"] == ""
    ensures Resolve(text, env) == "${B}"
  {
    Sandwich("$", "A", "{B}", env);
    FirstText(text);
  }

  lemma FirstText(text: string)
    requires text == "$${A}{B}"
    ensures "$" + ("${" + "A" + "}" + "{B}") == text
  {
  }

  lemma SecondResolution(env: Env)
    requires "B" in env && env["B"] == "b"
    ensures Resolve("${B}", env) == "b"
  {
    SetReference("B", "", env);
    assert "${" + "B" + "}" + "" == "${B}" && env["B"] + "" == "b";
  }

  // ---------------------------------------------------------------- texts with one reference

  lemma {:induction false} DollarFreeUnchanged(s: string, env: Env)
    requires '$' !in s
    ensures Resolve(s, env) == s
    decreases |s|
  {
    if s != "" {
      DollarFreeUnchanged(s[1..], env);
      assert s == [s[0]] + s[1..];
      PlainHead(s[0], s[1..]);
    }
  }

  lemma SetReference(name: string, suf: string, env: Env)
    requires name != "" && '}' !in name && name in env && '$' !in suf
    ensures Resolve("${" + name + "}" + suf, env) == env[name] + suf
  {
    RefHead(name, suf);
    DollarFreeUnchanged(suf, env);
  }

  lemma DollarBefore(t: string, env: Env)
    requires t != "" && t[0] != '{'
    ensures Resolve("$" + t, env) == "$" + Resolve(t, env)
  {
    PlainHead('$', t);
  }

  /** A lone `$` before a reference and `$`-free text after it are kept. */
  lemma Sandwich(pre: string, name: string, suf: string, env: Env)
    requires pre == "" || pre == "$"
    requires name != "" && '}' !in name && name in env && '$' !in suf
    ensures Resolve(pre + ("${" + name + "}" + suf), env) == pre + (env[name] + suf)
  {
    var t := "${" + name + "}" + suf;
    SetReference(name, suf, env);
    if pre == "$" {
      DollarBefore(t, env);
    } else {
      assert pre + t == t;
      assert pre + (env[name] + suf) == env[name] + suf;
    }
  }

  // ---------------------------------------------------------------- a text that shrinks

  ghost predicate HasRef(s: string, name: string) {
    Ref(name) in Segments(s)
  }

  /** The names that can be referred to: not empty and free of `}`. */
  predicate Referenceable(name: string) {
    name != "" && '}' !in name
  }

  /** References fit into the text that contains them. */
  lemma {:induction false} RefBounds(s: string, name: string)
    requires HasRef(s, name)
    ensures Referenceable(name) && |name| + 3 <= |s|
    decreases |s|
  {
    ResolveHead(s, map[]);
    var seg := Segments(s)[0];
    if seg != Ref(name) {
      RefBounds(s[|Written(seg)|..], name);
    }
  }

  /** If all set references stand for one-character values, resolving shortens the text, strictly if there is one. */
  lemma {:induction false} Shrinks(s: string, env: Env)
    requires forall n :: HasRef(s, n) && n in env ==> |env[n]| == 1
    ensures |Resolve(s, env)| <= |s|
    ensures (exists n :: HasRef(s, n) && n in env) ==> |Resolve(s, env)| < |s|
    decreases |s|
  {
    if s != "" {
      ResolveHead(s, env);
      var seg := Segments(s)[0];
      var tail := s[|Written(seg)|..];
      assert forall n :: HasRef(s, n) <==> seg == Ref(n) || HasRef(tail, n);
      Shrinks(tail, env);
    }
  }

  /** A name that no reference in `t` can have: longer than `t`. */
  function FreshName(t: string): (name: string)
    ensures |name| == |t| + 1 && name != "" && '}' !in name
  {
    if t == "" then "a" else "a" + FreshName(t[1..])
  }

  /**
   * If `pre + v + suf` refers to some `name`, then with a fresh variable holding `v` and `name`
   * holding "b" there is an input whose second resolution differs from its first.
   */
  lemma BreaksVia(pre: string, v: string, suf: string, name: string) returns (env: Env, s: string)
    requires pre == "" || pre == "$"
    requires '$' !in suf && HasRef(pre + (v + suf), name)
    ensures env.Values <= {v, "b"} && Resolve(Resolve(s, env), env) != Resolve(s, env)
  {
    var t := pre + (v + suf);
    var a := FreshName(t);
    RefBounds(t, name);
    env := map[a := v, name := "b"];
    s := pre + ("${" + a + "}" + suf);
    Sandwich(pre, a, suf, env);
    forall n | HasRef(t, n) && n in env
      ensures |env[n]| == 1
    {
      RefBounds(t, n);
    }
    Shrinks(t, env);
  }

  // ---------------------------------------------------------------- the cases of a value that is not inert

  lemma {:induction false} OpenClosed(v: string)
    requires v != "" && Segments(v)[0].Open?
    ensures HasRef(v + "n}", Segments(v)[0].name + "n")
  {
    OpenIsTail(v);
    var name := Segments(v)[0].name;
    RefHead(name + "n", "");
    assert v + "n}" == "${" + (name + "n") + "}" + "";
  }

  lemma RefThenMore(v: string, name: string, w: string, r: string)
    requires v == "${" + name + "}" + w && name != "" && '}' !in name
    ensures Segments(v + r) == [Ref(name)] + Segments(w + r)
  {
    RefHead(name, w + r);
    Append("${" + name + "}", w, r);
  }

  lemma Append(a: string, w: string, r: string)
    ensures (a + w) + r == a + (w + r)
  {
  }

  lemma PlainThenSome(v: string, w: string, r: string)
    requires v != "" && v == [v[0]] + w && !OpensRef(v) && w != ""
    ensures Segments(v + r) == [Plain(v[0])] + Segments(w + r)
  {
    assert w[0] == v[1];
    PlainHead(v[0], w + r);
    Append([v[0]], w, r);
  }

  /** An unclosed reference at the end is closed by what follows. */
  lemma {:induction false} OpenGetsClosed(v: string, name: string)
    requires Open(name) in Segments(v)
    ensures HasRef(v + "n}", name + "n")
    decreases |v|
  {
    ResolveHead(v, map[]);
    var seg := Segments(v)[0];
    var w := v[|Written(seg)|..];
    if seg.Open? {
      OpenIsTail(v);
      OpenClosed(v);
    } else {
      OpenGetsClosed(w, name);
      match seg {
        case Plain(c) =>
          PlainFirst(v);
          PlainThenSome(v, w, "n}");
        case Empty =>
          EmptyThenMore(w, "n}");
        case Ref(n) =>
          RefBounds(v, n);
          RefThenMore(v, n, w, "n}");
      }
    }
  }

  lemma OpenIsTail(v: string)
    requires v != "" && Segments(v)[0].Open?
    ensures v == Written(Segments(v)[0]) && '}' !in Segments(v)[0].name && Segments(v) == [Segments(v)[0]]
  {
  }

  lemma DollarBrace()
    ensures HasRef("$" + "{n}", "n")
  {
    RefHead("n", "");
    assert "$" + "{n}" == "${" + "n" + "}" + "";
  }

  /** A `$` at the end of reference-free text meets the brace that follows. */
  lemma {:induction false} DollarMeetsBrace(v: string)
    requires v != "" && v[|v| - 1] == '$'
    requires forall i :: 0 <= i < |Segments(v)| ==> Segments(v)[i].Plain? || Segments(v)[i].Empty?
    ensures HasRef(v + "{n}", "n")
    decreases |v|
  {
    var r := "{n}";
    ResolveHead(v, map[]);
    var seg := Segments(v)[0];
    var w := v[|Written(seg)|..];
    assert forall i :: 0 <= i < |Segments(w)| ==> Segments(w)[i] == Segments(v)[i + 1];
    if w == "" {
      assert v == "$";
      DollarBrace();
    } else {
      DollarMeetsBrace(w);
      if seg.Empty? {
        EmptyThenMore(w, r);
      } else {
        PlainFirst(v);
        PlainThenSome(v, w, r);
      }
    }
  }

  /** A `$` in front turns a leading brace into a reference. */
  lemma BraceAfterDollar(v: string) returns (name: string)
    requires v != "" && v[0] == '{' && (|v| > 1 ==> v[1] != '}')
    ensures HasRef("$" + (v + "n}"), name)
  {
    var t := "$" + (v + "n}");
    var rest := t[2..];
    assert rest == v[1..] + "n}";
    assert rest[|rest| - 1] == '}';
    var i := Find(rest, '}').value;
    assert rest[0] != '}';
    name := rest[..i];
  }

  lemma EmptyBreaks() returns (env: Env, s: string)
    ensures env.Values <= {"", "b"} && Resolve(Resolve(s, env), env) != Resolve(s, env)
  {
    RefHead("n", "");
    assert "$" + ("" + "{n}") == "${" + "n" + "}" + "";
    env, s := BreaksVia("$", "", "{n}", "n");
  }

  lemma RefBreaks(v: string, name: string) returns (env: Env, s: string)
    requires HasRef(v, name)
    ensures env.Values <= {v, "b"} && Resolve(Resolve(s, env), env) != Resolve(s, env)
  {
    assert "" + (v + "") == v;
    env, s := BreaksVia("", v, "", name);
  }

  /** Appending `suf` to `v` completes a reference. */
  lemma SuffixBreaks(v: string, suf: string, name: string) returns (env: Env, s: string)
    requires '$' !in suf && HasRef(v + suf, name)
    ensures env.Values <= {v, "b"} && Resolve(Resolve(s, env), env) != Resolve(s, env)
  {
    assert "" + (v + suf) == v + suf;
    env, s := BreaksVia("", v, suf, name);
  }

  /** Every value that is not inert breaks idempotence in some environment of that value and "b". */
  lemma NotInertBreaks(v: string) returns (env: Env, s: string)
    requires !Inert(v)
    ensures env.Values <= {v, "b"} && Resolve(Resolve(s, env), env) != Resolve(s, env)
  {
    if v == "" {
      env, s := EmptyBreaks();
    } else if i: nat :| i < |Segments(v)| && Segments(v)[i].Ref? {
      env, s := RefBreaks(v, Segments(v)[i].name);
    } else if i: nat :| i < |Segments(v)| && Segments(v)[i].Open? {
      OpenGetsClosed(v, Segments(v)[i].name);
      env, s := SuffixBreaks(v, "n}", Segments(v)[i].name + "n");
    } else if v[|v| - 1] == '$' {
      DollarMeetsBrace(v);
      env, s := SuffixBreaks(v, "{n}", "n");
    } else {
      var name := BraceAfterDollar(v);
      env, s := BreaksVia("$", v, "n}", name);
    }
  }

  ghost predicate Idempotent(env: Env) {
    forall s :: Resolve(Resolve(s, env), env) == Resolve(s, env)
  }

  /** A value is harmless next to a harmless one, for all inputs, if and only if it is inert. */
  lemma IdempotentIffInert(v: string)
    ensures Inert(v) <==> forall env: Env :: env.Values <= {v, "b"} ==> Idempotent(env)
  {
    if Inert(v) {
      PlainValuesInert("b");
      forall env: Env, s | env.Values <= {v, "b"}
        ensures Resolve(Resolve(s, env), env) == Resolve(s, env)
      {
        assert forall n :: n in env ==> env[n] in env.Values;
        ResolveIdempotent(s, env);
      }
    } else {
      var env, s := NotInertBreaks(v);
      assert !Idempotent(env);
    }
  }

  // ---------------------------------------------------------------- one given environment

  /** No value can form a reference, or part of one, by itself. */
  ghost predicate PlainValues(env: Env) {
    forall n :: n in env ==> '$' !in env[n] && '{' !in env[n]
  }

  /** The variables that can be referred to at all. */
  ghost function Visible(env: Env): Env {
    map n | n in env && Referenceable(n) :: env[n]
  }

  lemma VisibleFirst(s: string, env: Env)
    requires s != ""
    ensures Replaced(Segments(s)[0], Visible(env)) == Replaced(Segments(s)[0], env)
  {
    var seg := Segments(s)[0];
    if seg.Ref? {
      RefBounds(s, seg.name);
    }
  }

  /** Variables that cannot be referred to do not matter. */
  lemma {:induction false} VisibleSuffices(s: string, env: Env)
    ensures Resolve(s, Visible(env)) == Resolve(s, env)
    decreases |s|
  {
    if s != "" {
      ResolveHead(s, env);
      ResolveHead(s, Visible(env));
      VisibleFirst(s, env);
      VisibleSuffices(s[|Written(Segments(s)[0])|..], env);
    }
  }

  lemma PlainIdempotent(s: string, env: Env)
    requires PlainValues(env) && forall n :: n in env && Referenceable(n) ==> env[n] != ""
    ensures Resolve(Resolve(s, env), env) == Resolve(s, env)
  {
    var visible := Visible(env);
    forall n | n in visible
      ensures Inert(visible[n])
    {
      PlainValuesInert(visible[n]);
    }
    ResolveIdempotent(s, visible);
    VisibleSuffices(s, env);
    VisibleSuffices(Resolve(s, env), env);
  }

  function Braced(name: string): string {
    "{" + name + "}"
  }

  /** Next to any variable there is one whose name in braces resolves to itself. */
  lemma {:induction false} SettledName(name: string, env: Env) returns (m: string)
    requires name in env && Referenceable(name)
    ensures m in env && Referenceable(m) && Resolve(Braced(m), env) == Braced(m)
    decreases |name|
  {
    var t := Braced(name);
    if Settled(t, env) {
      SettledUnchanged(t, env);
      m := name;
    } else {
      var i :| 0 <= i < |Segments(t)| && Segments(t)[i].Ref? && Segments(t)[i].name in env;
      RefBounds(t, Segments(t)[i].name);
      m := SettledName(Segments(t)[i].name, env);
    }
  }

  /** An empty value between `$` and text that resolves to itself lets the two meet. */
  lemma EmptyJoins(name: string, suf: string, env: Env)
    requires name in env && Referenceable(name) && env[name] == "" && Resolve(suf, env) == suf
    ensures Resolve("$" + ("${" + name + "}" + suf), env) == "$" + suf
  {
    RefHead(name, suf);
    DollarBefore("${" + name + "}" + suf, env);
    assert "" + suf == suf;
  }

  lemma ReferenceAlone(name: string, env: Env)
    requires name in env && Referenceable(name)
    ensures Resolve("$" + Braced(name), env) == env[name]
  {
    SetReference(name, "", env);
    DollarAndBraces(name);
    assert env[name] + "" == env[name];
  }

  lemma DollarAndBraces(name: string)
    ensures "$" + Braced(name) == "${" + name + "}" + ""
  {
  }

  /** An empty variable that can be referred to makes some text change twice. */
  lemma EmptyVariableBreaks(name: string, env: Env) returns (s: string)
    requires PlainValues(env) && name in env && Referenceable(name) && env[name] == ""
    ensures Resolve(Resolve(s, env), env) != Resolve(s, env)
  {
    var m := SettledName(name, env);
    s := "$" + ("${" + name + "}" + Braced(m));
    EmptyJoins(name, Braced(m), env);
    ReferenceAlone(m, env);
    StartsWithDollar(env[m], Braced(m));
  }

  lemma StartsWithDollar(v: string, t: string)
    requires '$' !in v
    ensures v != "$" + t
  {
    assert ("$" + t)[0] == '$';
  }

  /**
   * An environment whose values have neither `$` nor `{` resolves every text in one pass if and
   * only if no variable that can be referred to is empty.
   */
  lemma PlainIdempotentIff(env: Env)
    requires PlainValues(env)
    ensures Idempotent(env) <==> forall n :: n in env && Referenceable(n) ==> env[n] != ""
  {
    if n :| n in env && Referenceable(n) && env[n] == "" {
      var s := EmptyVariableBreaks(n, env);
      assert !Idempotent(env);
    } else {
      forall s
        ensures Resolve(Resolve(s, env), env) == Resolve(s, env)
      {
        PlainIdempotent(s, env);
      }
    }
  }
}
