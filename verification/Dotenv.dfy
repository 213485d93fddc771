/** The `.env` loader, and the file the `start` command generates for it. */
module Dotenv {
  import opened Text
  import opened EnvVars

  /** Key and value of a trimmed line; none for empty lines, comments and lines without `=`. */
  function Pair(t: string): Option<(string, string)> {
    if t == "" || t[0] == '#' then None
    else
      match Find(t, '=')
      case None => None
      case Some(i) => Some((Trim(t[..i]), Trim(t[i + 1..])))
  }

  function Assignment(line: string): Option<(string, string)> {
    Pair(Trim(line))
  }

  /** `t` is `a=b`, split at the first equals sign. */
  ghost predicate SplitsAtEquals(t: string, a: string, b: string) {
    t == a + "=" + b && '=' !in a
  }

  lemma EqualsFound(t: string, a: string, b: string)
    requires SplitsAtEquals(t, a, b)
    ensures Find(t, '=') == Some(|a|) && t[..|a|] == a && t[|a| + 1..] == b
  {
    assert t[..|a|] == a && t[|a| + 1..] == b;
    FindAt(t, '=', |a|);
  }

  ghost predicate SplitsInto(t: string, key: string, value: string) {
    exists a: string, b: string :: SplitsAtEquals(t, a, b) && key == Trim(a) && value == Trim(b)
  }

  /** A trimmed text assigns a value exactly if it is no comment and splits at an equals sign into the two. */
  lemma PairIff(t: string, key: string, value: string)
    ensures Pair(t) == Some((key, value)) <==> t != "" && t[0] != '#' && SplitsInto(t, key, value)
  {
    if Pair(t) == Some((key, value)) {
      EqualsSplits(t, Find(t, '=').value);
    }
    if a: string, b: string :| SplitsAtEquals(t, a, b) && key == Trim(a) && value == Trim(b) {
      EqualsFound(t, a, b);
    }
  }

  lemma EqualsSplits(t: string, i: nat)
    requires i < |t| && t[i] == '=' && '=' !in t[..i]
    ensures SplitsAtEquals(t, t[..i], t[i + 1..])
  {
  }

  /** Exactly such lines, white space around them and around the sign left out, assign. */
  lemma AssignmentIff(line: string, key: string, value: string)
    ensures Assignment(line) == Some((key, value)) <==>
              var t := Trim(line); t != "" && t[0] != '#' && SplitsInto(t, key, value)
  {
    PairIff(Trim(line), key, value);
  }

  /** Whether the environment accepts the pair; `set_var` panics on the others. */
  predicate Settable(key: string, value: string) {
    key != "" && '\0' !in key && '\0' !in value
  }

  /** The pairs a file assigns, in order. */
  function Assignments(content: string): seq<(string, string)>
    decreases |content|
  {
    if content == "" then []
    else
      var line := FirstLine(content, '\n');
      AsSeq(Assignment(line)) + Assignments(content[|line|..])
  }

  function AsSeq<T>(o: Option<T>): seq<T> {
    if o.Some? then [o.value] else []
  }

  /** Line by line: each complete line assigns what it does alone, before the rest. */
  lemma {:induction false} AssignmentsOfLine(line: string, rest: string)
    requires Complete(line, '\n')
    ensures Assignments(line + rest) == AsSeq(Assignment(line)) + Assignments(rest)
  {
    FirstLineOfComplete(line, '\n', rest);
  }

  /** The last line need not be complete. */
  lemma AssignmentsOfLast(line: string)
    requires '\n' !in line && line != ""
    ensures Assignments(line) == AsSeq(Assignment(line))
  {
    assert FirstLine(line, '\n') == line;
    OneLineFile(line);
  }

  /** The environment after setting the pairs one by one; none if one of them panics. */
  function SetAll(pairs: seq<(string, string)>, env: Env): Option<Env> {
    if pairs == [] then Some(env)
    else if !Settable(pairs[0].0, pairs[0].1) then None
    else SetAll(pairs[1..], env[pairs[0].0 := pairs[0].1])
  }

  /** The environment after loading a file; none if the loader panicked. */
  function Load(content: string, env: Env): Option<Env> {
    SetAll(Assignments(content), env)
  }

  predicate AllSettable(pairs: seq<(string, string)>) {
    forall i :: 0 <= i < |pairs| ==> Settable(pairs[i].0, pairs[i].1)
  }

  ghost predicate Assigns(pairs: seq<(string, string)>, key: string) {
    exists i :: 0 <= i < |pairs| && pairs[i].0 == key
  }

  /** The last pair for its key. */
  ghost predicate IsLast(pairs: seq<(string, string)>, i: nat) {
    i < |pairs| && forall j :: i < j < |pairs| ==> pairs[j].0 != pairs[i].0
  }

  /** Every key has its last assignment in the file, or else what it had before. */
  ghost predicate Reflects(pairs: seq<(string, string)>, before: Env, after: Env) {
    && (forall i: nat :: IsLast(pairs, i) ==> pairs[i].0 in after && after[pairs[i].0] == pairs[i].1)
    && (forall key :: !Assigns(pairs, key) ==>
          (key in after <==> key in before) && (key in before ==> after[key] == before[key]))
  }

  /**
   * The loader's loop. It panics exactly if some pair cannot be set; otherwise every key ends with
   * its last assignment, or else its old value.
   */
  method LoadDotenv(content: string, env: Env) returns (r: Option<Env>)
    ensures r == Load(content, env)
    ensures r.Some? <==> forall i :: 0 <= i < |Assignments(content)| ==>
              var (key, value) := Assignments(content)[i]; key != "" && '\0' !in key && '\0' !in value
    ensures r.Some? ==> Reflects(Assignments(content), env, r.value)
  {
    SetAllReflects(Assignments(content), env);
    var rest, current := content, env;
    while rest != ""
      invariant SetAll(Assignments(rest), current) == Load(content, env)
      decreases |rest|
    {
      var line := FirstLine(rest, '\n');
      var pair := Assignment(line);
      rest := rest[|line|..];
      SetAllFirst(pair, Assignments(rest), current);
      if pair.Some? {
        if !Settable(pair.value.0, pair.value.1) {
          return None;
        }
        current := current[pair.value.0 := pair.value.1];
      }
    }
    return Some(current);
  }

  lemma SetAllFirst(first: Option<(string, string)>, more: seq<(string, string)>, env: Env)
    ensures SetAll(AsSeq(first) + more, env)
         == if first.None? then SetAll(more, env)
            else if Settable(first.value.0, first.value.1) then SetAll(more, env[first.value.0 := first.value.1])
            else None
  {
    if first.None? {
      assert AsSeq(first) + more == more;
    } else {
      assert (AsSeq(first) + more)[1..] == more;
    }
  }

  lemma AssignsFirst(pair: (string, string), more: seq<(string, string)>, key: string)
    ensures Assigns([pair] + more, key) <==> pair.0 == key || Assigns(more, key)
  {
    var pairs := [pair] + more;
    assert pairs[0] == pair && forall i :: 0 <= i < |more| ==> pairs[i + 1] == more[i];
  }

  lemma LastOfMore(pair: (string, string), more: seq<(string, string)>, i: nat)
    requires IsLast([pair] + more, i)
    ensures i > 0 ==> IsLast(more, i - 1) && more[i - 1] == ([pair] + more)[i]
    ensures i == 0 ==> !Assigns(more, pair.0)
  {
    var pairs := [pair] + more;
    assert forall j :: 0 <= j < |more| ==> pairs[j + 1] == more[j];
  }

  /** One more assignment in front. */
  lemma {:induction false} ReflectsFirst(pair: (string, string), more: seq<(string, string)>, before: Env, after: Env)
    requires Reflects(more, before[pair.0 := pair.1], after)
    ensures Reflects([pair] + more, before, after)
  {
    var pairs := [pair] + more;
    forall i: nat | IsLast(pairs, i)
      ensures pairs[i].0 in after && after[pairs[i].0] == pairs[i].1
    {
      LastOfMore(pair, more, i);
    }
    forall key | !Assigns(pairs, key)
      ensures (key in after <==> key in before) && (key in before ==> after[key] == before[key])
    {
      AssignsFirst(pair, more, key);
    }
  }

  lemma AllSettableFirst(pair: (string, string), more: seq<(string, string)>)
    ensures AllSettable([pair] + more) <==> Settable(pair.0, pair.1) && AllSettable(more)
  {
    var pairs := [pair] + more;
    assert pairs[0] == pair && forall i :: 0 <= i < |more| ==> pairs[i + 1] == more[i];
  }

  lemma {:induction false} SetAllReflects(pairs: seq<(string, string)>, env: Env)
    ensures SetAll(pairs, env).Some? <==> AllSettable(pairs)
    ensures SetAll(pairs, env).Some? ==> Reflects(pairs, env, SetAll(pairs, env).value)
  {
    if pairs != [] {
      var pair, more := pairs[0], pairs[1..];
      assert pairs == [pair] + more;
      AllSettableFirst(pair, more);
      SetAllReflects(more, env[pair.0 := pair.1]);
      if AllSettable(pairs) {
        ReflectsFirst(pair, more, env, SetAll(pairs, env).value);
      }
    }
  }

  const TOKEN_KEY: string := "NORD_TOKEN"

  function GenerateEnv(token: string): string {
    TOKEN_KEY + "=" + token + "\n"
  }

  // ---------------------------------------------------------------- loaded values

  /** Trimmed, without newline and NUL. */
  predicate Clean(value: string) {
    Trimmed(value) && '\n' !in value && '\0' !in value
  }

  /** No newline except perhaps as the last character. */
  predicate OneLine(line: string) {
    forall i :: 0 <= i < |line| - 1 ==> line[i] != '\n'
  }

  lemma LineIsOneLine(s: string)
    ensures OneLine(FirstLine(s, '\n'))
  {
    var line := FirstLine(s, '\n');
    match Find(s, '\n') {
      case None =>
      case Some(n) => assert forall i :: 0 <= i < n ==> line[i] == s[..n][i];
    }
  }

  /** Trimming a line leaves no newline in it. */
  lemma TrimDropsNewline(s: string)
    requires OneLine(s)
    ensures '\n' !in Trim(s)
  {
    TrimStartOneLine(s);
    TrimEndOneLine(TrimStart(s));
  }

  lemma {:induction false} TrimStartOneLine(s: string)
    requires OneLine(s)
    ensures OneLine(TrimStart(s))
  {
    if s != "" && IsSpace(s[0]) {
      TrimStartOneLine(s[1..]);
    }
  }

  lemma {:induction false} TrimEndOneLine(s: string)
    requires OneLine(s)
    ensures '\n' !in TrimEnd(s)
  {
    if s != "" && IsSpace(s[|s| - 1]) {
      TrimEndOneLine(s[..|s| - 1]);
    }
  }

  ghost predicate CleanIfSet(key: string, value: string) {
    Settable(key, value) ==> Clean(value)
  }

  /** Whatever can be set is clean. */
  ghost predicate AllClean(pairs: seq<(string, string)>) {
    forall i :: 0 <= i < |pairs| ==> CleanIfSet(pairs[i].0, pairs[i].1)
  }

  lemma AllCleanBoth(a: seq<(string, string)>, b: seq<(string, string)>)
    requires AllClean(a) && AllClean(b)
    ensures AllClean(a + b)
  {
  }

  lemma TrimmedIsClean(key: string, s: string)
    requires '\n' !in s
    ensures CleanIfSet(key, Trim(s))
  {
    TrimIsTrimmed(s);
    TrimDropsNewline(s);
  }

  lemma PairParts(t: string) returns (i: nat)
    requires Pair(t).Some?
    ensures i < |t| && Pair(t).value == (Trim(t[..i]), Trim(t[i + 1..]))
  {
    i := Find(t, '=').value;
  }

  lemma PairIsClean(t: string)
    requires '\n' !in t && Pair(t).Some?
    ensures CleanIfSet(Pair(t).value.0, Pair(t).value.1)
  {
    var i := PairParts(t);
    TrimmedIsClean(Trim(t[..i]), t[i + 1..]);
  }

  lemma AssignmentIsClean(line: string)
    requires OneLine(line)
    ensures AllClean(AsSeq(Assignment(line)))
  {
    if Assignment(line).Some? {
      TrimDropsNewline(line);
      PairIsClean(Trim(line));
    }
  }

  /** Every value a file can set is clean. */
  lemma {:induction false} AssignmentsAreClean(content: string)
    ensures AllClean(Assignments(content))
    decreases |content|
  {
    if content != "" {
      var line := FirstLine(content, '\n');
      AssignmentsAreClean(content[|line|..]);
      LineIsOneLine(content);
      AssignmentIsClean(line);
      AllCleanBoth(AsSeq(Assignment(line)), Assignments(content[|line|..]));
    }
  }

  lemma {:induction false} LastExists(pairs: seq<(string, string)>, key: string) returns (i: nat)
    requires Assigns(pairs, key)
    ensures IsLast(pairs, i) && pairs[i].0 == key
  {
    var n := |pairs| - 1;
    if pairs[n].0 == key {
      i := n;
    } else {
      i := LastExists(pairs[..n], key);
      assert forall j :: i < j < n ==> pairs[..n][j] == pairs[j];
    }
  }

  /** Whatever the file and the key: a key the file assigns ends up clean, any other as it was. */
  lemma LoadedKeyIsClean(content: string, env: Env, key: string)
    requires Load(content, env).Some?
    ensures Assigns(Assignments(content), key) ==> key in Load(content, env).value && Clean(Load(content, env).value[key])
    ensures !Assigns(Assignments(content), key) ==>
              (key in Load(content, env).value <==> key in env) && (key in env ==> Load(content, env).value[key] == env[key])
  {
    SetAllReflects(Assignments(content), env);
    AssignmentsAreClean(content);
    if Assigns(Assignments(content), key) {
      var i := LastExists(Assignments(content), key);
      assert Settable(Assignments(content)[i].0, Assignments(content)[i].1);
    }
  }

  // ---------------------------------------------------------------- the generated file

  predicate ProperKey(key: string) {
    key != "" && NoSpace(key) && '=' !in key && '\0' !in key && key[0] != '#'
  }

  /** A line that starts with `key=` assigns that key. */
  lemma {:induction false} KeyLineAssigns(key: string, line: string)
    requires ProperKey(key) && StartsWith(line, key + "=")
    ensures StartsWith(TrimEnd(line), key + "=")
    ensures Assignment(line) == Some((key, Trim(TrimEnd(line)[|key| + 1..])))
  {
    var p, t := key + "=", TrimEnd(line);
    TrimEndDrops(line);
    assert line[|key|] == p[|key|] == '=' && line[0] == p[0] == key[0];
    assert t[..|p|] == line[..|p|] == p;
    assert TrimStart(line) == line && Trim(line) == t;
    KeyPairs(key, t);
  }

  lemma KeyPairs(key: string, t: string)
    requires ProperKey(key) && StartsWith(t, key + "=")
    ensures Pair(t) == Some((key, Trim(t[|key| + 1..])))
  {
    var p := key + "=";
    assert t[|key|] == p[|key|] && t[0] == p[0] == key[0];
    assert t[..|key|] == p[..|key|] == key;
    FindAt(t, '=', |key|);
    TrimKeeps(key);
  }

  lemma TrimEndDropsNewline(text: string)
    requires text != "" && !IsSpace(text[|text| - 1])
    ensures TrimEnd(text + "\n") == text
  {
    assert (text + "\n")[..|text|] == text;
  }

  lemma KeyLineIsLine(key: string, value: string)
    requires '\n' !in key && '\n' !in value
    ensures FirstLine(key + "=" + value + "\n", '\n') == key + "=" + value + "\n"
  {
    var text := key + "=" + value;
    assert (text + "\n")[..|text|] == text;
    FindAt(text + "\n", '\n', |text|);
  }

  lemma CleanValueAssigned(key: string, value: string)
    requires ProperKey(key) && Clean(value)
    ensures Assignment(key + "=" + value + "\n") == Some((key, value))
  {
    var text := key + "=" + value;
    assert text[..|key| + 1] == key + "=" && text[|key| + 1..] == value;
    TrimEndDropsNewline(text);
    KeyLineAssigns(key, text + "\n");
    TrimKeeps(value);
  }

  /** A clean value comes back. */
  lemma {:induction false} CleanValueLoads(key: string, value: string, env: Env)
    requires ProperKey(key) && Clean(value)
    ensures Load(key + "=" + value + "\n", env) == Some(env[key := value])
  {
    var text := key + "=" + value + "\n";
    NoNewline(key);
    KeyLineIsLine(key, value);
    CleanValueAssigned(key, value);
    OneLineFile(text);
    SetAllFirst(Some((key, value)), [], env);
    assert [(key, value)] + [] == [(key, value)];
  }

  lemma OneLineFile(line: string)
    requires line != "" && FirstLine(line, '\n') == line
    ensures Assignments(line) == AsSeq(Assignment(line))
  {
    assert line[|line|..] == "";
  }

  lemma KeyLineStart(key: string, value: string)
    requires '\n' !in key
    ensures StartsWith(FirstLine(key + "=" + value + "\n", '\n'), key + "=")
  {
    var text, p := key + "=" + value + "\n", key + "=";
    assert text[|text| - 1] == '\n' && text[..|p|] == p;
    var i := Find(text, '\n').value;
    assert forall k :: 0 <= k < |p| ==> text[k] == p[k];
  }

  lemma LoadedIsClean(key: string, value: string, env: Env)
    requires ProperKey(key)
    ensures var r := Load(key + "=" + value + "\n", env);
            r.Some? ==> key in r.value && Clean(r.value[key])
  {
    var text := key + "=" + value + "\n";
    NoNewline(key);
    KeyLineStart(key, value);
    KeyLineAssigns(key, FirstLine(text, '\n'));
    if Load(text, env).Some? {
      FirstIsAssigned(text);
      LoadedKeyIsClean(text, env, key);
    }
  }

  lemma FirstIsAssigned(content: string)
    requires content != "" && Assignment(FirstLine(content, '\n')).Some?
    ensures Assigns(Assignments(content), Assignment(FirstLine(content, '\n')).value.0)
  {
    assert Assignments(content)[0] == Assignment(FirstLine(content, '\n')).value;
  }

  /**
   * The generated `.env` round-trips: loading it gives the token back exactly when the token is
   * trimmed and has neither a newline nor a NUL.
   */
  lemma TokenRoundTrip(token: string, env: Env)
    ensures var r := Load(GenerateEnv(token), env);
            (r.Some? && TOKEN_KEY in r.value && r.value[TOKEN_KEY] == token) <==> Clean(token)
  {
    LoadedIsClean(TOKEN_KEY, token, env);
    if Clean(token) {
      CleanValueLoads(TOKEN_KEY, token, env);
    }
  }
}
