/**
 The exporters of internal/targets: Docker env files and GitHub Actions scripts.  Neither loses
 information it does not say it loses.
 */
module Targets {
  import opened Wrappers
  import opened Text
  import opened StringOrder
  import opened Dotenv

  datatype RenderError = InvalidKey | NewlineInValue | DelimiterInValue

  predicate ValidKeys(data: map<string, string>) {
    forall k | k in data :: IsIdentifier(k)
  }

  /** The key loop that both renderers begin with: checks the names and sorts them. */
  method CollectKeys(data: map<string, string>) returns (r: Result<seq<string>, RenderError>)
    ensures r.Ok? <==> ValidKeys(data)
    ensures r.Ok? ==> Enumerates(r.value, data.Keys) && StrictlyAscending(r.value)
    ensures r.Err? ==> r.error == InvalidKey
  {
    var keys: seq<string> := [];
    var todo := data.Keys;
    while todo != {}
      invariant todo <= data.Keys && Enumerates(keys, data.Keys - todo)
      invariant forall k | k in data.Keys - todo :: IsIdentifier(k)
      decreases todo
    {
      var k :| k in todo;
      todo := todo - {k};
      if !IsIdentifier(k) {
        return Err(InvalidKey);
      }
      keys := keys + [k];
    }
    assert data.Keys - todo == data.Keys;
    SortEnumerates(keys, data.Keys);
    return Ok(SortStrings(keys));
  }

  // ---- Docker -----------------------------------------------------------------------------

  predicate HasLineBreak(v: string) {
    '\n' in v || '\r' in v
  }

  method RenderEnvFile(data: map<string, string>) returns (r: Result<string, RenderError>)
    ensures r.Ok? <==> ValidKeys(data) && forall k | k in data :: '\n' !in data[k] && '\r' !in data[k]
    ensures r.Ok? ==>
              exists keys ::
                Enumerates(keys, data.Keys) && StrictlyAscending(keys) && r.value == Printed(keys, "", data)
    ensures r.Err? ==> r.error == if ValidKeys(data) then NewlineInValue else InvalidKey
  {
    var sorted := CollectKeys(data);
    if sorted.Err? {
      return Err(InvalidKey);
    }
    var buf := "";
    for n := 0 to |sorted.value|
      invariant forall i | 0 <= i < n :: !HasLineBreak(data[sorted.value[i]])
      invariant buf == Printed(sorted.value[..n], "", data)
    {
      var k := sorted.value[n];
      assert k in sorted.value && sorted.value[..n + 1][..n] == sorted.value[..n];
      if HasLineBreak(data[k]) {
        return Err(NewlineInValue);
      }
      assert buf + "" == buf;
      buf := buf + k + "=" + data[k] + "\n";
    }
    assert sorted.value[..|sorted.value|] == sorted.value;
    return Ok(buf);
  }

  lemma LiteralReadsBack(v: string)
    ensures Unquote(TrimSpace(v)) == v <==> EdgesNotSpace(v) && Bare(v) == v
  {
    TrimSpaceFacts(v);
    if EdgesNotSpace(v) { AlreadyTrimmed(v); }
  }

  /** Reading a rendered env file as dotenv gives the same map exactly if no value has white space at
      an edge or is wrapped in matching quotes. */
  lemma EnvFileRoundTripIff(data: map<string, string>, keys: seq<string>)
    requires ValidKeys(data) && Enumerates(keys, data.Keys)
    requires forall k | k in data :: '\n' !in data[k] && '\r' !in data[k]
    ensures Parse(Printed(keys, "", data)) == data <==>
            forall k | k in data :: EdgesNotSpace(data[k]) && Bare(data[k]) == data[k]
  {
    PrintedReadsBack(keys, "", data);
    ReadBackIff(data, keys, data);
    forall k | k in data
      ensures Unquote(TrimSpace(data[k])) == data[k] <==> EdgesNotSpace(data[k]) && Bare(data[k]) == data[k]
    {
      LiteralReadsBack(data[k]);
    }
  }

  // ---- GitHub Actions ---------------------------------------------------------------------

  const DELIM := "__FOOSTASH_EOF__"

  predicate OccursAt(s: string, sub: string, i: nat) {
    i + |sub| <= |s| && s[i..i + |sub|] == sub
  }

  /** strings.Contains. */
  predicate Contains(s: string, sub: string) {
    exists i | 0 <= i <= |s| :: OccursAt(s, sub, i)
  }

  predicate Surrounds(s: string, a: string, sub: string, b: string) {
    s == a + sub + b
  }

  lemma ContainsIff(s: string, sub: string)
    ensures Contains(s, sub) <==> exists a, b :: Surrounds(s, a, sub, b)
  {
    if i :| 0 <= i <= |s| && OccursAt(s, sub, i) {
      assert Surrounds(s, s[..i], sub, s[i + |sub|..]);
    }
    if a, b :| Surrounds(s, a, sub, b) {
      assert OccursAt(s, sub, |a|);
    }
  }

  /** strings.TrimRight(v, "\n"). */
  function TrimNewlines(v: string): string {
    if v != [] && v[|v| - 1] == '\n' then TrimNewlines(v[..|v| - 1]) else v
  }

  const MASK := "while IFS= read -r __fs_line || [ -n \"$__fs_line\" ]; do [ -n \"$__fs_line\" ] && echo \"::add-mask::$__fs_line\"; done <<'" + DELIM + "'\n"
  const ECHO := "{ echo \""
  const CAT := "<<" + DELIM + "\"; cat <<'" + DELIM + "'\n"
  const APPEND := "\n } >> \"$GITHUB_ENV\"\n"

  /** A heredoc body up to and including its delimiter, and what follows. */
  function Heredoc(body: string, rest: string): string {
    body + "\n" + DELIM + rest
  }

  function Assignment(k: string, rest: string): string {
    k + CAT + rest
  }

  /** The script text for one key: mask every line, then append the value to $GITHUB_ENV. */
  function Block(k: string, body: string): string {
    MASK + Heredoc(body, "\n" + ECHO + Assignment(k, Heredoc(body, APPEND)))
  }

  /** The script for `keys` in order. */
  function Script(keys: seq<string>, data: map<string, string>): string
    requires forall k | k in keys :: k in data
  {
    if keys == [] then ""
    else Block(keys[0], TrimNewlines(data[keys[0]])) + Script(keys[1..], data)
  }

  lemma {:induction false} ScriptConcat(a: seq<string>, b: seq<string>, data: map<string, string>)
    requires forall k | k in a + b :: k in data
    ensures (forall k | k in a :: k in data) && (forall k | k in b :: k in data)
    ensures Script(a + b, data) == Script(a, data) + Script(b, data)
  {
    KeysOfConcat(a, b, data);
    if a == [] {
      assert a + b == b;
      assert Script(a, data) + Script(b, data) == Script(b, data);
    } else {
      assert (a + b)[1..] == a[1..] + b && (a + b)[0] == a[0];
      ScriptConcat(a[1..], b, data);
      Associative(Block(a[0], TrimNewlines(data[a[0]])), Script(a[1..], data), Script(b, data));
    }
  }

  lemma KeysOfConcat(a: seq<string>, b: seq<string>, data: map<string, string>)
    requires forall k | k in a + b :: k in data
    ensures (forall k | k in a :: k in data) && (forall k | k in b :: k in data)
  {
    forall k | k in a ensures k in data { assert k in a + b; }
    forall k | k in b ensures k in data { assert k in a + b; }
  }

  /** The script grows by one block a key. */
  lemma {:induction false} ScriptNext(keys: seq<string>, n: nat, data: map<string, string>)
    requires n < |keys| && forall k | k in keys :: k in data
    ensures keys[n] in data
    ensures Script(keys[..n + 1], data) == Script(keys[..n], data) + Block(keys[n], TrimNewlines(data[keys[n]]))
  {
    assert keys[n] in keys && keys[..n + 1] == keys[..n] + [keys[n]];
    ScriptConcat(keys[..n], [keys[n]], data);
    var block := Block(keys[n], TrimNewlines(data[keys[n]]));
    assert [keys[n]][1..] == [] && block + "" == block;
  }

  method RenderWorkflowEnv(data: map<string, string>) returns (r: Result<string, RenderError>)
    ensures r.Ok? <==> ValidKeys(data) && forall k | k in data :: !Contains(data[k], DELIM)
    ensures r.Ok? ==>
              exists keys :: Enumerates(keys, data.Keys) && StrictlyAscending(keys) && r.value == Script(keys, data)
    ensures r.Err? ==> r.error == if ValidKeys(data) then DelimiterInValue else InvalidKey
  {
    var sorted := CollectKeys(data);
    if sorted.Err? {
      return Err(InvalidKey);
    }
    var buf := "";
    for n := 0 to |sorted.value|
      invariant forall i | 0 <= i < n :: !Contains(data[sorted.value[i]], DELIM)
      invariant buf == Script(sorted.value[..n], data)
    {
      var k := sorted.value[n];
      ScriptNext(sorted.value, n, data);
      if Contains(data[k], DELIM) {
        assert k in sorted.value;
        return Err(DelimiterInValue);
      }
      buf := buf + Block(k, TrimNewlines(data[k]));
    }
    assert sorted.value[..|sorted.value|] == sorted.value;
    return Ok(buf);
  }

  predicate OnlyNewlines(s: string) {
    forall i | 0 <= i < |s| :: s[i] == '\n'
  }

  predicate EndsInNewline(s: string) {
    s != "" && s[|s| - 1] == '\n'
  }

  lemma {:induction false} TrimNewlinesFacts(v: string)
    ensures |TrimNewlines(v)| <= |v| && TrimNewlines(v) == v[..|TrimNewlines(v)|]
    ensures !EndsInNewline(TrimNewlines(v))
  {
    if EndsInNewline(v) { TrimNewlinesFacts(v[..|v| - 1]); }
  }

  /** TrimNewlines takes away exactly the newlines at the end. */
  lemma {:induction false} TrimNewlinesParts(v: string) returns (newlines: string)
    ensures v == TrimNewlines(v) + newlines && OnlyNewlines(newlines) && !EndsInNewline(TrimNewlines(v))
  {
    newlines := "";
    if EndsInNewline(v) {
      var rest := TrimNewlinesParts(v[..|v| - 1]);
      newlines := rest + "\n";
      assert v == v[..|v| - 1] + "\n";
    }
  }

  lemma TrimmedHasNoDelimiter(v: string)
    requires !Contains(v, DELIM)
    ensures !Contains(TrimNewlines(v), DELIM)
  {
    TrimNewlinesFacts(v);
    var t := TrimNewlines(v);
    if i: nat :| OccursAt(t, DELIM, i) {
      assert OccursAt(v, DELIM, i);
    }
  }

  /** In a heredoc whose body has no delimiter, the delimiter occurs first right after the body's
      newline: before that it would lie in the body or contain the newline. */
  lemma DelimiterPlace(body: string, rest: string, at: nat)
    requires !Contains(body, DELIM) && at <= |body|
    ensures Heredoc(body, rest)[at..at + |DELIM|] != DELIM
  {
    var s := Heredoc(body, rest);
    if at + |DELIM| <= |body| {
      assert !OccursAt(body, DELIM, at);
      assert s[at..at + |DELIM|] == body[at..at + |DELIM|];
    } else {
      assert s[at..at + |DELIM|][|body| - at] == '\n';
      assert DELIM[|body| - at] in DELIM && '\n' !in DELIM;
    }
  }

  lemma HeredocParts(a: string, x: string)
    ensures var s := Heredoc(a, x);
            |s| == |a| + 1 + |DELIM| + |x| && s[..|a|] == a
            && s[|a| + 1..|a| + 1 + |DELIM|] == DELIM && s[|a| + 1 + |DELIM|..] == x
  {
  }

  lemma HeredocUnique(a: string, x: string, b: string, y: string)
    requires !Contains(a, DELIM) && !Contains(b, DELIM)
    requires Heredoc(a, x) == Heredoc(b, y)
    ensures a == b && x == y
  {
    HeredocParts(a, x);
    HeredocParts(b, y);
    if |a| < |b| {
      DelimiterPlace(b, y, |a| + 1);
    } else if |b| < |a| {
      DelimiterPlace(a, x, |b| + 1);
    }
  }

  lemma NotKeyChar(k: string, i: nat)
    requires IsIdentifier(k) && i < |k|
    ensures k[i] != '<'
  {
    assert k[i] in k;
  }

  lemma AssignmentParts(k: string, x: string)
    ensures var s := Assignment(k, x);
            |s| == |k| + |CAT| + |x| && s[..|k|] == k && s[|k|] == '<' && s[|k| + |CAT|..] == x
  {
  }

  lemma KeyUnique(k: string, x: string, l: string, y: string)
    requires IsIdentifier(k) && IsIdentifier(l)
    requires Assignment(k, x) == Assignment(l, y)
    ensures k == l && x == y
  {
    AssignmentParts(k, x);
    AssignmentParts(l, y);
    if |k| < |l| {
      assert Assignment(k, x)[..|l|][|k|] == Assignment(k, x)[|k|];
      NotKeyChar(l, |k|);
    } else if |l| < |k| {
      assert Assignment(l, y)[..|k|][|l|] == Assignment(l, y)[|l|];
      NotKeyChar(k, |l|);
    }
  }

  lemma CutPrefix(p: string, x: string, y: string)
    requires p + x == p + y
    ensures x == y
  {
    assert x == (p + x)[|p|..] && y == (p + y)[|p|..];
  }

  lemma Associative(a: string, b: string, c: string)
    ensures (a + b) + c == a + (b + c)
  {
  }

  lemma BlockParts(k: string, body: string, rest: string)
    ensures Block(k, body) + rest ==
            MASK + Heredoc(body, ("\n" + ECHO) + Assignment(k, Heredoc(body, APPEND + rest)))
  {
  }

  /** One block and what follows it can be told apart. */
  lemma BlockUnique(k: string, a: string, x: string, l: string, b: string, y: string)
    requires IsIdentifier(k) && IsIdentifier(l) && !Contains(a, DELIM) && !Contains(b, DELIM)
    requires Block(k, a) + x == Block(l, b) + y
    ensures k == l && a == b && x == y
  {
    BlockParts(k, a, x);
    BlockParts(l, b, y);
    var k1 := Assignment(k, Heredoc(a, APPEND + x));
    var l1 := Assignment(l, Heredoc(b, APPEND + y));
    CutPrefix(MASK, Heredoc(a, ("\n" + ECHO) + k1), Heredoc(b, ("\n" + ECHO) + l1));
    HeredocUnique(a, ("\n" + ECHO) + k1, b, ("\n" + ECHO) + l1);
    CutPrefix("\n" + ECHO, k1, l1);
    KeyUnique(k, Heredoc(a, APPEND + x), l, Heredoc(b, APPEND + y));
    HeredocUnique(a, APPEND + x, b, APPEND + y);
    CutPrefix(APPEND, x, y);
  }

  ghost predicate Renderable(keys: seq<string>, data: map<string, string>) {
    forall k | k in keys :: k in data && IsIdentifier(k) && !Contains(data[k], DELIM)
  }

  lemma {:induction false} ScriptEmptyIff(ks: seq<string>, m: map<string, string>)
    requires forall k | k in ks :: k in m
    ensures Script(ks, m) == "" <==> ks == []
  {
  }

  lemma {:induction false} FirstBlockUnique(ks: seq<string>, m: map<string, string>, ls: seq<string>, n: map<string, string>)
    requires Renderable(ks, m) && Renderable(ls, n) && ks != [] && ls != []
    requires Script(ks, m) == Script(ls, n)
    ensures ks[0] in ks && ls[0] in ls && ks[0] == ls[0] && TrimNewlines(m[ks[0]]) == TrimNewlines(n[ls[0]])
    ensures Script(ks[1..], m) == Script(ls[1..], n)
  {
    var k, l := ks[0], ls[0];
    assert k in ks && l in ls;
    TrimmedHasNoDelimiter(m[k]);
    TrimmedHasNoDelimiter(n[l]);
    BlockUnique(k, TrimNewlines(m[k]), Script(ks[1..], m), l, TrimNewlines(n[l]), Script(ls[1..], n));
  }

  lemma RenderableRest(ks: seq<string>, m: map<string, string>)
    requires Renderable(ks, m) && ks != []
    ensures Renderable(ks[1..], m)
  {
  }

  ghost predicate AgreeTrimmed(keys: seq<string>, m: map<string, string>, n: map<string, string>) {
    forall k | k in keys :: k in m && k in n && TrimNewlines(m[k]) == TrimNewlines(n[k])
  }

  lemma {:induction false} AgreeFromRest(ks: seq<string>, m: map<string, string>, ls: seq<string>, n: map<string, string>)
    requires ks != [] && ls != [] && ks[0] == ls[0] && ks[1..] == ls[1..] && AgreeTrimmed(ks[1..], m, n)
    requires ks[0] in m && ks[0] in n && TrimNewlines(m[ks[0]]) == TrimNewlines(n[ks[0]])
    ensures ks == ls && AgreeTrimmed(ks, m, n)
  {
    assert ks == [ks[0]] + ks[1..] && ls == [ls[0]] + ls[1..];
  }

  lemma {:induction false} ScriptUnique(ks: seq<string>, m: map<string, string>, ls: seq<string>, n: map<string, string>)
    requires Renderable(ks, m) && Renderable(ls, n)
    requires Script(ks, m) == Script(ls, n)
    ensures ks == ls && AgreeTrimmed(ks, m, n)
  {
    ScriptEmptyIff(ks, m);
    ScriptEmptyIff(ls, n);
    if ks != [] {
      FirstBlockUnique(ks, m, ls, n);
      RenderableRest(ks, m);
      RenderableRest(ls, n);
      ScriptUnique(ks[1..], m, ls[1..], n);
      AgreeFromRest(ks, m, ls, n);
    }
  }

  lemma {:induction false} ScriptDependsOnTrimmed(ks: seq<string>, m: map<string, string>, n: map<string, string>)
    requires AgreeTrimmed(ks, m, n)
    ensures Script(ks, m) == Script(ks, n)
  {
    if ks != [] {
      assert ks[0] in ks;
      ScriptDependsOnTrimmed(ks[1..], m, n);
    }
  }

  /** Two maps give the same workflow script exactly if they have the same keys and the same values
      up to trailing newlines. */
  lemma SameScriptIff(m: map<string, string>, ks: seq<string>, n: map<string, string>, ls: seq<string>)
    requires Enumerates(ks, m.Keys) && StrictlyAscending(ks) && Renderable(ks, m)
    requires Enumerates(ls, n.Keys) && StrictlyAscending(ls) && Renderable(ls, n)
    ensures Script(ks, m) == Script(ls, n) <==>
            m.Keys == n.Keys && forall k | k in m :: TrimNewlines(m[k]) == TrimNewlines(n[k])
  {
    if Script(ks, m) == Script(ls, n) {
      ScriptUnique(ks, m, ls, n);
      assert forall k :: k in m <==> k in ks;
      assert forall k :: k in n <==> k in ls;
    } else if m.Keys == n.Keys && forall k | k in m :: TrimNewlines(m[k]) == TrimNewlines(n[k]) {
      SortedUnique(ks, ls, m.Keys);
      ScriptDependsOnTrimmed(ks, m, n);
    }
  }

  /** Maps whose values do not end in a newline give the same script exactly if they are equal. */
  lemma SameScriptSameMap(m: map<string, string>, ks: seq<string>, n: map<string, string>, ls: seq<string>)
    requires Enumerates(ks, m.Keys) && StrictlyAscending(ks) && Renderable(ks, m)
    requires Enumerates(ls, n.Keys) && StrictlyAscending(ls) && Renderable(ls, n)
    requires forall k | k in m :: !EndsInNewline(m[k])
    requires forall k | k in n :: !EndsInNewline(n[k])
    ensures Script(ks, m) == Script(ls, n) <==> m == n
  {
    SameScriptIff(m, ks, n, ls);
    forall k | k in m ensures TrimNewlines(m[k]) == m[k] {}
    forall k | k in n ensures TrimNewlines(n[k]) == n[k] {}
  }

  lemma Flat(mask: string, body: string, d: string, echo: string, k: string, cat: string, app: string)
    ensures mask + (body + "\n" + d + ("\n" + echo + (k + cat + (body + "\n" + d + app)))) ==
            mask + body + "\n" + d + "\n" + echo + k + cat + body + "\n" + d + app
  {
  }

  /** The script of one secret: a loop that masks every line of the value, and a heredoc that appends
      the value to the job's environment. */
  lemma ScriptText(k: string, body: string)
    requires !EndsInNewline(body)
    ensures Script([k], map[k := body]) ==
            ("while IFS= read -r __fs_line || [ -n \"$__fs_line\" ]; do [ -n \"$__fs_line\" ] && echo \"::add-mask::$__fs_line\"; done <<'"
             + DELIM + "'\n")
            + body + "\n" + DELIM + "\n"
            + "{ echo \"" + k + ("<<" + DELIM + "\"; cat <<'" + DELIM + "'\n")
            + body + "\n" + DELIM + "\n } >> \"$GITHUB_ENV\"\n"
  {
    assert TrimNewlines(body) == body;
    OneBlock(k, body);
    Flat(MASK, body, DELIM, ECHO, k, CAT, APPEND);
  }

  lemma OneBlock(k: string, body: string)
    requires TrimNewlines(body) == body
    ensures Script([k], map[k := body]) == Block(k, body)
  {
    assert [k][1..] == [] && Block(k, body) + "" == Block(k, body);
  }
}
