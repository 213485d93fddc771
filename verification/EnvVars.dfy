/** `${VAR}` substitution: the scanner, and what it means as splitting into references. */
module EnvVars {
  import opened Text

  type Env = map<string, string>

  /** A piece of configuration text: one ordinary character, `${}`, `${name}`, or an unclosed `${name`. */
  datatype Segment = Plain(c: char) | Empty | Ref(name: string) | Open(name: string)

  predicate OpensRef(s: string) {
    |s| > 1 && s[0] == '$' && s[1] == '{'
  }

  /** Splits text into literals and references, left to right. */
  function Segments(s: string): seq<Segment>
    decreases |s|
  {
    if s == "" then []
    else if OpensRef(s) then
      match Find(s[2..], '}')
      case None => [Open(s[2..])]
      case Some(i) => [if i == 0 then Empty else Ref(s[2..][..i])] + Segments(s[i + 3..])
    else [Plain(s[0])] + Segments(s[1..])
  }

  /** A segment as it was written. */
  function Written(seg: Segment): string {
    match seg
    case Plain(c) => [c]
    case Empty => "${}"
    case Ref(name) => "${" + name + "}"
    case Open(name) => "${" + name
  }

  /** A segment after substitution: only references to set variables change. */
  function Replaced(seg: Segment, env: Env): string {
    if seg.Ref? && seg.name in env then env[seg.name] else Written(seg)
  }

  function WrittenAll(segs: seq<Segment>): string {
    if segs == [] then "" else Written(segs[0]) + WrittenAll(segs[1..])
  }

  function ReplacedAll(segs: seq<Segment>, env: Env): string {
    if segs == [] then "" else Replaced(segs[0], env) + ReplacedAll(segs[1..], env)
  }

  /** Split, then substitute. */
  function Resolve(s: string, env: Env): string {
    ReplacedAll(Segments(s), env)
  }

  /** The first segment of a text and what comes after it. */
  lemma ResolveHead(s: string, env: Env)
    requires s != ""
    ensures Segments(s) != [] && var seg := Segments(s)[0];
            && |Written(seg)| <= |s| && s == Written(seg) + s[|Written(seg)|..]
            && Segments(s)[1..] == Segments(s[|Written(seg)|..])
            && Resolve(s, env) == Replaced(seg, env) + Resolve(s[|Written(seg)|..], env)
  {
    FirstWritten(s);
    var segs := Segments(s);
    assert segs == [segs[0]] + segs[1..];
  }

  /** The first segment of a text. */
  function FirstSegment(s: string): Segment
    requires s != ""
  {
    if !OpensRef(s) then Plain(s[0])
    else
      match Find(s[2..], '}')
      case None => Open(s[2..])
      case Some(i) => if i == 0 then Empty else Ref(s[2..][..i])
  }

  lemma ClosedRef(s: string, i: nat)
    requires OpensRef(s) && i + 2 < |s| && s[i + 2] == '}'
    ensures s[..i + 3] == "${" + s[2..][..i] + "}"
  {
  }

  lemma FirstSegmentWritten(s: string)
    requires s != ""
    ensures Written(FirstSegment(s)) <= s
  {
    if OpensRef(s) {
      match Find(s[2..], '}') {
        case None => assert s == "${" + s[2..];
        case Some(i) => ClosedRef(s, i);
      }
    }
  }

  lemma FirstWritten(s: string)
    requires s != ""
    ensures Segments(s) != [] && var seg := Segments(s)[0];
            && |Written(seg)| <= |s| && s == Written(seg) + s[|Written(seg)|..]
            && Segments(s)[1..] == Segments(s[|Written(seg)|..])
  {
    var seg := FirstSegment(s);
    FirstSegmentWritten(s);
    assert s == Written(seg) + s[|Written(seg)|..];
    assert Segments(s) == [seg] + Segments(s[|Written(seg)|..]);
  }

  /** Splitting loses nothing: the segments as written are the text. */
  lemma {:induction false} SegmentsWritten(s: string)
    ensures WrittenAll(Segments(s)) == s
    decreases |s|
  {
    if s != "" {
      ResolveHead(s, map[]);
      SegmentsWritten(s[|Written(Segments(s)[0])|..]);
    }
  }

  /** The nested-loop scanner computes exactly that. */
  method ResolveEnvVars(input: string, env: Env) returns (result: string)
    ensures result == Resolve(input, env)
  {
    result := "";
    var i := 0;
    while i < |input|
      invariant 0 <= i <= |input|
      invariant result + Resolve(input[i..], env) == Resolve(input, env)
    {
      ghost var before, rest := result, input[i..];
      var text, next := ScanOne(input, i, env);
      result := result + text;
      i := next;
      assert before + (text + Resolve(input[i..], env)) == result + Resolve(input[i..], env);
    }
  }

  /** One turn of the outer loop: a character, or a whole reference. */
  method ScanOne(input: string, i: nat, env: Env) returns (text: string, next: nat)
    requires i < |input|
    ensures i < next <= |input|
    ensures Resolve(input[i..], env) == text + Resolve(input[next..], env)
  {
    ghost var rest := input[i..];
    ResolveHead(rest, env);
    ghost var seg := Segments(rest)[0];
    if input[i] == '$' && i + 1 < |input| && input[i + 1] == '{' {
      text, next := ScanReference(input, i, env);
    } else {
      text, next := [input[i]], i + 1;
    }
    assert input[next..] == rest[|Written(seg)|..];
  }

  /** Reads the reference that starts at `i` and says what to put in its place. */
  method ScanReference(input: string, i: nat, env: Env) returns (text: string, next: nat)
    requires i < |input| && OpensRef(input[i..])
    ensures var seg := Segments(input[i..])[0];
            text == Replaced(seg, env) && next == i + |Written(seg)| <= |input|
  {
    assert input[i..][2..] == input[i + 2..];
    var varName, foundClose;
    varName, foundClose, next := ScanName(input, i + 2);
    if foundClose && varName != "" {
      text := if varName in env then env[varName] else "${" + varName + "}";
    } else {
      text := "${" + varName + (if foundClose then "}" else "");
    }
  }

  /** The inner loop: characters up to the closing brace or the end. */
  method ScanName(input: string, start: nat) returns (name: string, found: bool, next: nat)
    requires start <= |input|
    ensures start <= next <= |input|
    ensures var close := Find(input[start..], '}');
            && found == close.Some?
            && name == (if found then input[start..][..close.value] else input[start..])
            && next == (if found then start + close.value + 1 else |input|)
  {
    name, found, next := "", false, start;
    while next < |input|
      invariant start <= next <= |input|
      invariant name == input[start..next] && '}' !in name
    {
      var c := input[next];
      next := next + 1;
      if c == '}' {
        found := true;
        assert input[start..][..next - 1 - start] == name;
        FindAt(input[start..], '}', next - 1 - start);
        return;
      }
      name := name + [c];
    }
    assert name == input[start..];
  }

  // ---------------------------------------------------------------- what stays unchanged

  /** No reference of the text is to a set variable. */
  ghost predicate Settled(s: string, env: Env) {
    forall i :: 0 <= i < |Segments(s)| ==> !(Segments(s)[i].Ref? && Segments(s)[i].name in env)
  }

  /** Resolution is the identity when no referenced variable is set, malformed references included. */
  lemma {:induction false} SettledUnchanged(s: string, env: Env)
    requires Settled(s, env)
    ensures Resolve(s, env) == s
    decreases |s|
  {
    if s != "" {
      ResolveHead(s, env);
      var tail := s[|Written(Segments(s)[0])|..];
      assert forall i :: 0 <= i < |Segments(tail)| ==> Segments(tail)[i] == Segments(s)[i + 1];
      SettledUnchanged(tail, env);
    }
  }

  // ---------------------------------------------------------------- idempotence

  /** Text without references, closed or not, that cannot start one at its end. */
  ghost predicate Flat(v: string) {
    && (forall i :: 0 <= i < |Segments(v)| ==> Segments(v)[i].Plain? || Segments(v)[i].Empty?)
    && (v != "" ==> v[|v| - 1] != '$')
  }

  /** A value that is safe to substitute: not empty, flat, and not turned into a reference by a `$` before it. */
  ghost predicate Inert(v: string) {
    v != "" && Flat(v) && (v[0] == '{' ==> |v| > 1 && v[1] == '}')
  }

  /** Values without `$` and `{`, other than the empty one, are inert. */
  lemma {:induction false} PlainValuesInert(v: string)
    requires '$' !in v && '{' !in v
    ensures Flat(v) && (v != "" ==> Inert(v))
    decreases |v|
  {
    if v != "" {
      PlainValuesInert(v[1..]);
      assert Segments(v) == [Plain(v[0])] + Segments(v[1..]);
    }
  }

  lemma SettledCons(seg: Segment, s: string, t: string, env: Env)
    requires Segments(s) == [seg] + Segments(t) && Settled(t, env)
    requires !(seg.Ref? && seg.name in env)
    ensures Settled(s, env)
  {
  }

  lemma SettledTail(s: string, t: string, env: Env)
    requires Segments(s) != [] && Segments(s)[1..] == Segments(t) && Settled(s, env)
    ensures Settled(t, env)
  {
    assert forall i :: 0 <= i < |Segments(t)| ==> Segments(t)[i] == Segments(s)[i + 1];
  }

  /** Putting a character in front creates a reference only if `$` meets `{`. */
  lemma SettledAfterChar(c: char, r: string, env: Env)
    requires Settled(r, env)
    requires c == '$' && r != "" && r[0] == '{' ==> |r| > 1 && r[1] == '}'
    ensures Settled([c] + r, env)
  {
    var s := [c] + r;
    assert s[1..] == r;
    if OpensRef(s) {
      assert Segments(r) == [Plain('{')] + Segments(r[1..]);
      assert r[1..][1..] == r[2..];
      assert Segments(r[1..]) == [Plain('}')] + Segments(r[2..]);
      SettledTail(r, r[1..], env);
      SettledTail(r[1..], r[2..], env);
      EmptyRefHead(r[2..]);
      assert s == "${}" + r[2..];
      SettledCons(Empty, s, r[2..], env);
    } else {
      SettledCons(Plain(c), s, r, env);
    }
  }

  lemma EmptyRefHead(r: string)
    ensures Segments("${}" + r) == [Empty] + Segments(r)
  {
    var s := "${}" + r;
    FindAt(s[2..], '}', 0);
    assert s[3..] == r;
  }

  lemma {:induction false} RefHead(name: string, r: string)
    requires name != "" && '}' !in name
    ensures Segments("${" + name + "}" + r) == [Ref(name)] + Segments(r)
  {
    var s := "${" + name + "}" + r;
    var t := s[2..];
    assert t == name + "}" + r;
    assert t[..|name|] == name;
    FindAt(t, '}', |name|);
    assert s[|name| + 3..] == r;
  }

  /** A flat text in front of a settled one leaves it settled. */
  lemma {:induction false} SettledAfterFlat(v: string, r: string, env: Env)
    requires Flat(v) && Settled(r, env)
    ensures Settled(v + r, env)
    decreases |v|
  {
    if v == "" {
      assert v + r == r;
    } else {
      ResolveHead(v, env);
      var seg := Segments(v)[0];
      var w := v[|Written(seg)|..];
      FlatTail(v, w);
      SettledAfterFlat(w, r, env);
      if seg.Empty? {
        EmptyThenMore(w, r);
      } else {
        PlainFirst(v);
        PlainThenMore(v, w, r);
      }
      SettledCons(seg, v + r, w + r, env);
    }
  }

  lemma EmptyThenMore(w: string, r: string)
    ensures Segments("${}" + w + r) == [Empty] + Segments(w + r)
  {
    EmptyRefHead(w + r);
    assert "${}" + w + r == "${}" + (w + r);
  }

  lemma PlainFirst(v: string)
    requires v != "" && Segments(v)[0].Plain?
    ensures !OpensRef(v) && Segments(v)[0] == Plain(v[0])
  {
  }

  lemma {:induction false} PlainThenMore(v: string, w: string, r: string)
    requires v != "" && v == [v[0]] + w && !OpensRef(v) && v[|v| - 1] != '$'
    ensures Segments(v + r) == [Plain(v[0])] + Segments(w + r)
  {
    assert v + r == [v[0]] + (w + r);
    assert w != "" ==> (w + r)[0] == v[1];
    PlainHead(v[0], w + r);
  }

  lemma PlainHead(c: char, t: string)
    requires c == '$' && t != "" ==> t[0] != '{'
    ensures Segments([c] + t) == [Plain(c)] + Segments(t)
  {
    assert ([c] + t)[1..] == t;
  }

  lemma FlatTail(v: string, w: string)
    requires Flat(v) && Segments(v) != [] && Segments(v)[1..] == Segments(w)
    requires |w| < |v| && w == v[|v| - |w|..]
    ensures Flat(w)
  {
    assert forall i :: 0 <= i < |Segments(w)| ==> Segments(w)[i] == Segments(v)[i + 1];
  }

  /** Resolved text starts with `{` only if the text did or an inert value put `{}` there. */
  lemma ResolvedStart(s: string, env: Env)
    requires forall n :: n in env ==> Inert(env[n])
    requires s != "" ==> s[0] != '{'
    ensures var r := Resolve(s, env);
            r != "" && r[0] == '{' ==> |r| > 1 && r[1] == '}'
  {
    if s != "" {
      ResolveHead(s, env);
    }
  }

  lemma {:induction false} ResolvedIsSettled(s: string, env: Env)
    requires forall n :: n in env ==> Inert(env[n])
    ensures Settled(Resolve(s, env), env)
    decreases |s|
  {
    if s != "" {
      ResolveHead(s, env);
      var seg := Segments(s)[0];
      var tail := s[|Written(seg)|..];
      var r := Resolve(tail, env);
      ResolvedIsSettled(tail, env);
      match seg {
        case Plain(c) =>
          if c == '$' {
            ResolvedStart(tail, env);
          }
          SettledAfterChar(c, r, env);
        case Empty =>
          EmptyRefHead(r);
          SettledCons(seg, "${}" + r, r, env);
        case Ref(name) =>
          if name in env {
            SettledAfterFlat(env[name], r, env);
          } else {
            RefHead(name, r);
            SettledCons(seg, "${" + name + "}" + r, r, env);
          }
        case Open(name) =>
          assert tail == "" && Resolve(s, env) == s;
      }
    }
  }

  /** Resolving twice is resolving once whenever every value is inert. */
  lemma ResolveIdempotent(s: string, env: Env)
    requires forall n :: n in env ==> Inert(env[n])
    ensures Resolve(Resolve(s, env), env) == Resolve(s, env)
  {
    ResolvedIsSettled(s, env);
    SettledUnchanged(Resolve(s, env), env);
  }
}
