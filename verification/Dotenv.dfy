/**
 Printing secrets as a dotenv file (cli/pull.go) and parsing such files (cli/import.go,
 internal/mcpserver/sync.go), and exactly which values survive the round trip.
 */
module Dotenv {
  import opened Wrappers
  import opened Text
  import opened StringOrder

  const EXPORT := "export "

  // ---- Parsing ----------------------------------------------------------------------------

  predicate Wrapped(v: string) {
    |v| >= 2 && ((v[0] == '"' && v[|v| - 1] == '"') || (v[0] == '\'' && v[|v| - 1] == '\''))
  }

  /** Strips one pair of matching quotes. */
  function Unquote(v: string): string {
    if Wrapped(v) then v[1..|v| - 1] else v
  }

  datatype Pair = Pair(key: string, value: string)

  /** What a line says once it is trimmed. */
  function ParseTrimmed(line: string): Option<Pair> {
    if line == "" || line[0] == '#' then None
    else
      var rest := TrimPrefix(line, EXPORT);
      var i := IndexOf(rest, '=');
      if i == |rest| then None
      else Some(Pair(TrimSpace(rest[..i]), Unquote(TrimSpace(rest[i + 1..]))))
  }

  function ParseLine(text: string): Option<Pair> {
    ParseTrimmed(TrimSpace(text))
  }

  /** Later lines win. */
  function ParseLines(lines: seq<string>): map<string, string> {
    if lines == [] then map[]
    else
      var m := ParseLines(lines[..|lines| - 1]);
      match ParseLine(lines[|lines| - 1])
      case None => m
      case Some(p) => m[p.key := p.value]
  }

  lemma {:induction false} ParseLinesSnoc(lines: seq<string>, n: nat)
    requires n < |lines|
    ensures ParseLines(lines[..n + 1]) ==
            match ParseLine(lines[n]) case None => ParseLines(lines[..n]) case Some(p) => ParseLines(lines[..n])[p.key := p.value]
  {
    assert lines[..n + 1][..n] == lines[..n];
  }

  function Parse(text: string): map<string, string> {
    ParseLines(Lines(text))
  }

  /** parseDotenvFile of the CLI. */
  method ParseDotenv(text: string) returns (pairs: map<string, string>)
    ensures pairs == Parse(text)
  {
    var lines := Lines(text);
    pairs := map[];
    for n := 0 to |lines|
      invariant pairs == ParseLines(lines[..n])
    {
      ParseLinesSnoc(lines, n);
      var p := ParseLine(lines[n]);
      if p.Some? {
        pairs := pairs[p.value.key := p.value.value];
      }
    }
    assert lines[..|lines|] == lines;
  }

  lemma WithoutEmpty(m: map<string, string>, k: string, v: string)
    ensures m[k := v] - {""} == if k == "" then m - {""} else (m - {""})[k := v]
  {
  }

  /** parseDotenvFile of the MCP server skips empty keys; that is its only difference. */
  method ParseDotenvMcp(text: string) returns (pairs: map<string, string>)
    ensures pairs == Parse(text) - {""}
  {
    var lines := Lines(text);
    pairs := map[];
    for n := 0 to |lines|
      invariant pairs == ParseLines(lines[..n]) - {""}
    {
      ParseLinesSnoc(lines, n);
      var p := ParseLine(lines[n]);
      if p.Some? { WithoutEmpty(ParseLines(lines[..n]), p.value.key, p.value.value); }
      if p.Some? && p.value.key != "" {
        pairs := pairs[p.value.key := p.value.value];
      }
    }
    assert lines[..|lines|] == lines;
  }

  // ---- Which lines count ------------------------------------------------------------------

  lemma PlusUpdate(m: map<string, string>, n: map<string, string>, k: string, v: string)
    ensures m + n[k := v] == (m + n)[k := v]
  {
  }

  lemma {:induction false} ParseLinesConcat(a: seq<string>, b: seq<string>)
    ensures ParseLines(a + b) == ParseLines(a) + ParseLines(b)
  {
    if b == [] {
      assert a + b == a;
    } else {
      var init, last := b[..|b| - 1], b[|b| - 1];
      assert (a + b)[..|a + b| - 1] == a + init && (a + b)[|a + b| - 1] == last;
      ParseLinesConcat(a, init);
      var p := ParseLine(last);
      if p.Some? { PlusUpdate(ParseLines(a), ParseLines(init), p.value.key, p.value.value); }
    }
  }

  lemma ParseConcat(before: string, after: string)
    requires Terminated(before)
    ensures Parse(before + after) == Parse(before) + Parse(after)
  {
    LinesConcat(before, after);
    ParseLinesConcat(Lines(before), Lines(after));
  }

  /** The pair a line stands for, if any. */
  function Pairs(line: string): map<string, string> {
    match ParseLine(line) case None => map[] case Some(p) => map[p.key := p.value]
  }

  lemma ParseLinesOne(line: string)
    ensures ParseLines([line]) == Pairs(line)
  {
    assert [line][..0] == [];
    assert map[] + Pairs(line) == Pairs(line);
  }

  lemma {:induction false} ParseOne(line: string)
    requires '\n' !in line
    ensures Parse(line + "\n") == Pairs(line)
  {
    OneLine(line);
    TrimDropCR(line);
    ParseLinesOne(DropCR(line));
    assert ParseLine(DropCR(line)) == ParseLine(line);
  }

  /** A line counts for what it says by itself, after what precedes it and before what follows. */
  lemma {:induction false} ParseMiddle(before: string, line: string, after: string)
    requires Terminated(before) && '\n' !in line
    ensures Parse(before + (line + "\n") + after) == Parse(before) + Pairs(line) + Parse(after)
  {
    ParseConcat(before + (line + "\n"), after);
    ParseConcat(before, line + "\n");
    ParseOne(line);
  }

  /** Blank, a comment, or without an equals sign. */
  predicate Skipped(line: string) {
    || AllSpace(line)
    || (exists i | 0 <= i < |line| :: AllSpace(line[..i]) && line[i] == '#')
    || '=' !in line
  }

  lemma {:induction false} SkippedParses(line: string)
    requires Skipped(line)
    ensures ParseLine(line) == None
  {
    var a, b := TrimSpaceParts(line);
    var t := TrimSpace(line);
    if AllSpace(line) {
      TrimAllSpace(line);
    } else if i :| 0 <= i < |line| && AllSpace(line[..i]) && line[i] == '#' {
      FirstVisible(line, i);
    } else {
      TrimSpaceFacts(line);
      var rest := TrimPrefix(t, EXPORT);
      if EXPORT <= t { PieceWithin(t, |EXPORT|, |t|); }
    }
  }

  lemma {:induction false} FirstVisible(line: string, i: nat)
    requires i < |line| && AllSpace(line[..i]) && !IsSpace(line[i])
    ensures TrimSpace(line) != [] && TrimSpace(line)[0] == line[i]
  {
    var lead, front, back := line[..i], [line[i]], line[i + 1..];
    assert line == (lead + front) + back;
    TrimRightAfter(lead + front, back);
    Regrouped(lead, front, TrimRight(back));
    TrimLeftAfter(lead, front + TrimRight(back));
  }

  lemma Regrouped(a: string, b: string, c: string)
    ensures (a + b) + c == a + (b + c)
  {
  }

  /** Lines that are blank, comments or without an equals sign add nothing, wherever they are. */
  lemma SkippedLine(before: string, line: string, after: string)
    requires Terminated(before) && '\n' !in line && Skipped(line)
    ensures Parse(before + (line + "\n") + after) == Parse(before + after)
  {
    ParseMiddle(before, line, after);
    SkippedParses(line);
    ParseConcat(before, after);
    assert Parse(before) + map[] == Parse(before);
  }

  /** A last line counts as if it ended in a newline. */
  lemma LastLineCounts(before: string, line: string)
    requires Terminated(before) && '\n' !in line
    ensures Parse(before + line) == Parse(before + (line + "\n"))
  {
    if line == "" {
      SkippedLine(before, line, "");
      assert before + line == before && before + (line + "\n") + "" == before + (line + "\n") && before + "" == before;
    } else {
      ParseConcat(before, line);
      ParseConcat(before, line + "\n");
      LastLine(line);
      OneLine(line);
    }
  }

  /** A setting: an optional `export `, a key, an equals sign and a value, with white space around. */
  datatype Setting = Setting(
    lead: string, exported: bool, s0: string, key: string, s1: string, s2: string, value: string, tail: string)

  function SettingLine(x: Setting): string {
    x.lead + ((if x.exported then "export " + x.s0 else "") + x.key + x.s1 + "=") + (x.s2 + x.value + x.tail)
  }

  predicate IsSetting(x: Setting) {
    && AllSpace(x.lead) && AllSpace(x.s0) && AllSpace(x.s1) && AllSpace(x.s2) && AllSpace(x.tail)
    && IsIdentifier(x.key) && EdgesNotSpace(x.value)
  }

  /** The value without one pair of matching quotes around it. */
  function Bare(v: string): string {
    if |v| >= 2 && v[0] == v[|v| - 1] && (v[0] == '"' || v[0] == '\'') then v[1..|v| - 1] else v
  }

  /** Unless exported, the name `export` followed by a space is taken for the keyword. */
  function KeyOf(x: Setting): string {
    if !x.exported && x.key == "export" && " " <= x.s1 then "" else x.key
  }

  lemma {:induction false} SettingTrimmed(x: Setting)
    requires IsSetting(x)
    ensures TrimSpace(SettingLine(x)) ==
            ((if x.exported then "export " + x.s0 else "") + x.key + x.s1 + "=") + TrimRight(x.s2 + x.value + x.tail)
  {
    var head := (if x.exported then "export " + x.s0 else "") + x.key + x.s1 + "=";
    var rest := x.s2 + x.value + x.tail;
    assert IsKeyChar(x.key[0]);
    assert head[0] == if x.exported then 'e' else x.key[0];
    TrimRightAfter(x.lead + head, rest);
    assert x.lead + head + TrimRight(rest) == x.lead + (head + TrimRight(rest));
    TrimLeftAfter(x.lead, head + TrimRight(rest));
  }

  /** What is left of the trimmed line once a leading `export ` is dropped. */
  lemma {:induction false} SettingPrefix(x: Setting, r: string) returns (left: string)
    requires IsSetting(x)
    ensures TrimPrefix(((if x.exported then "export " + x.s0 else "") + x.key + x.s1 + "=") + r, EXPORT) == left + ['='] + r
    ensures '=' !in left && TrimSpace(left) == KeyOf(x)
  {
    SpacesHaveNoEquals(x.s0);
    SpacesHaveNoEquals(x.s1);
    IdentifierTrimmed(x.key);
    if x.exported {
      left := x.s0 + x.key + x.s1;
      assert (("export " + x.s0) + x.key + x.s1 + "=") + r == EXPORT + (left + ['='] + r);
      KeyAround(x.s0, x.key, x.s1);
    } else if x.key == "export" && " " <= x.s1 {
      left := x.s1[1..];
      NameTaken(x.s1, r);
    } else {
      left := x.key + x.s1;
      NotExported(x.key, x.s1, r);
      assert ("" + x.key + x.s1 + "=") + r == left + ['='] + r;
      KeyAround("", x.key, x.s1);
      assert "" + x.key + x.s1 == left;
    }
  }

  lemma KeyAround(s0: string, k: string, s1: string)
    requires AllSpace(s0) && AllSpace(s1) && IsIdentifier(k)
    ensures TrimSpace(s0 + k + s1) == k
  {
    assert IsKeyChar(k[0]) && IsKeyChar(k[|k| - 1]);
    TrimAround(s0, k, s1);
  }

  /** `export` with a space after it: the name is gone, and white space is left of the equals sign. */
  lemma NameTaken(s1: string, r: string)
    requires AllSpace(s1) && " " <= s1
    ensures TrimPrefix(("" + "export" + s1 + "=") + r, EXPORT) == s1[1..] + ['='] + r
    ensures '=' !in s1[1..] && TrimSpace(s1[1..]) == ""
  {
    var left := s1[1..];
    assert s1 == " " + left && ("" + "export" + s1 + "=") + r == EXPORT + (left + ['='] + r);
    AllSpaceConcat(" ", left);
    TrimAllSpace(left);
    SpacesHaveNoEquals(left);
  }

  lemma SpacesHaveNoEquals(s: string)
    requires AllSpace(s)
    ensures '=' !in s
  {
    assert !IsSpace('=');
  }

  lemma NotExported(k: string, s1: string, r: string)
    requires IsIdentifier(k) && AllSpace(s1) && !(k == "export" && " " <= s1)
    ensures !(EXPORT <= k + s1 + ['='] + r)
  {
    var line := k + s1 + ['='] + r;
    assert line[..|k|] == k && line[|k|] == if s1 == "" then '=' else s1[0];
    if |k| > 6 {
      assert line[6] == k[6] && IsKeyChar(k[6]);
    } else if |k| < 6 {
      assert EXPORT[|k|] in "export" && !IsSpace(EXPORT[|k|]);
    } else if k != "export" {
      assert EXPORT[..6] == "export";
    }
  }

  lemma {:induction false} TrimmedSetting(line: string, left: string, r: string, value: string)
    requires line != "" && line[0] != '#' && TrimPrefix(line, EXPORT) == left + ['='] + r
    requires '=' !in left && TrimSpace(r) == value
    ensures ParseTrimmed(line) == Some(Pair(TrimSpace(left), Unquote(value)))
  {
    IndexOfPrefix(left, '=', r);
    var rest := left + ['='] + r;
    assert rest[..|left|] == left && rest[|left| + 1..] == r;
  }

  lemma {:induction false} SettingParses(x: Setting)
    requires IsSetting(x)
    ensures ParseLine(SettingLine(x)) == Some(Pair(KeyOf(x), Bare(x.value)))
  {
    var r := TrimRight(x.s2 + x.value + x.tail);
    SettingTrimmed(x);
    var left := SettingPrefix(x, r);
    TrimRightTwice(x.s2 + x.value + x.tail);
    TrimAround(x.s2, x.value, x.tail);
    var line := TrimSpace(SettingLine(x));
    assert IsKeyChar(x.key[0]) && line[0] == if x.exported then 'e' else x.key[0];
    TrimmedSetting(line, left, r, x.value);
  }

  lemma {:induction false} SettingPairs(x: Setting)
    requires IsSetting(x)
    ensures Pairs(SettingLine(x)) == map[KeyOf(x) := Bare(x.value)]
  {
    SettingParses(x);
  }

  /** A setting gives its key the bare value, over what precedes it and under what follows. */
  lemma SettingCounts(before: string, x: Setting, after: string)
    requires Terminated(before) && IsSetting(x) && '\n' !in SettingLine(x)
    ensures Parse(before + (SettingLine(x) + "\n") + after) ==
            Parse(before)[KeyOf(x) := Bare(x.value)] + Parse(after)
  {
    ParseMiddle(before, SettingLine(x), after);
    SettingPairs(x);
    PlusOne(Parse(before), KeyOf(x), Bare(x.value));
  }

  lemma PlusOne(m: map<string, string>, k: string, v: string)
    ensures m + map[k := v] == m[k := v]
  {
  }

  // ---- Printing ---------------------------------------------------------------------------

  /** strings.ReplaceAll of a single character. */
  function ReplaceAll(s: string, c: char, with: string): string {
    if s == [] then [] else (if s[0] == c then with else [s[0]]) + ReplaceAll(s[1..], c, with)
  }

  predicate NeedsQuotes(v: string) {
    v == "" || exists c | c in v :: c in " \t\"'$\\"
  }

  function ShellQuote(v: string): string {
    if NeedsQuotes(v) then "\"" + ReplaceAll(ReplaceAll(v, '\\', "\\\\"), '"', "\\\"") + "\"" else v
  }

  /** One line `prefix k = texts[k]` for each key, in order. */
  function Printed(keys: seq<string>, prefix: string, texts: map<string, string>): string
    requires forall k | k in keys :: k in texts
  {
    if keys == [] then ""
    else
      var k := keys[|keys| - 1];
      Printed(keys[..|keys| - 1], prefix, texts) + prefix + k + "=" + texts[k] + "\n"
  }

  function Quoted(m: map<string, string>): map<string, string> {
    map k | k in m :: ShellQuote(m[k])
  }

  /** pull's dotenv and export printers, by their line prefix; keys are sorted. */
  method Pull(secrets: map<string, string>, prefix: string) returns (text: string)
    ensures exists keys ::
              && Enumerates(keys, secrets.Keys) && StrictlyAscending(keys)
              && text == Printed(keys, prefix, Quoted(secrets))
  {
    var sorted := SortedKeys(secrets.Keys);
    text := "";
    for n := 0 to |sorted|
      invariant text == Printed(sorted[..n], prefix, Quoted(secrets))
    {
      assert sorted[n] in sorted && sorted[..n + 1][..n] == sorted[..n];
      text := text + prefix + sorted[n] + "=" + ShellQuote(secrets[sorted[n]]) + "\n";
    }
    assert sorted[..|sorted|] == sorted;
  }

  // ---- Reading back -----------------------------------------------------------------------

  predicate IsKeyChar(c: char) {
    ('A' <= c <= 'Z') || ('a' <= c <= 'z') || ('0' <= c <= '9') || c == '_'
  }

  /** `^[A-Za-z_][A-Za-z0-9_]*$` */
  predicate IsIdentifier(k: string) {
    k != "" && !('0' <= k[0] <= '9') && forall c | c in k :: IsKeyChar(c)
  }

  /** A letter or underscore, then letters, digits and underscores. */
  lemma IdentifierIff(k: string)
    ensures IsIdentifier(k) <==>
            && |k| > 0
            && ('A' <= k[0] <= 'Z' || 'a' <= k[0] <= 'z' || k[0] == '_')
            && forall i | 0 < i < |k| :: 'A' <= k[i] <= 'Z' || 'a' <= k[i] <= 'z' || '0' <= k[i] <= '9' || k[i] == '_'
  {
    if |k| > 0 && IsKeyChar(k[0]) && forall i | 0 < i < |k| :: IsKeyChar(k[i]) {
      assert forall c | c in k :: IsKeyChar(c);
    }
  }

  predicate IsPrefix(prefix: string) {
    prefix == "" || prefix == EXPORT
  }

  lemma IdentifierTrimmed(k: string)
    requires IsIdentifier(k)
    ensures TrimSpace(k) == k && '=' !in k && '\n' !in k
  {
    assert IsKeyChar(k[0]) && IsKeyChar(k[|k| - 1]);
  }

  /** A printed line parses to its key and the value's text, trimmed and unquoted. */
  lemma {:induction false} LineReadsBack(prefix: string, k: string, text: string)
    requires IsPrefix(prefix) && IsIdentifier(k)
    ensures ParseLine(DropCR(prefix + k + "=" + text)) == Some(Pair(k, Unquote(TrimSpace(text))))
  {
    LineTrimmed(prefix, k, text);
    var t := TrimRight(text);
    var trimmed, rest := prefix + k + "=" + t, k + ['='] + t;
    PrefixDropped(prefix, k, t);
    IdentifierTrimmed(k);
    IndexOfPrefix(k, '=', t);
    assert rest[..|k|] == k && rest[|k| + 1..] == t;
    TrimRightTwice(text);
    assert IsKeyChar(k[0]);
    assert trimmed[0] == (if prefix == "" then k[0] else 'e');
  }

  lemma {:induction false} LineTrimmed(prefix: string, k: string, text: string)
    requires IsPrefix(prefix) && IsIdentifier(k)
    ensures TrimSpace(DropCR(prefix + k + "=" + text)) == prefix + k + "=" + TrimRight(text)
  {
    var head, line := prefix + k + "=", prefix + k + "=" + text;
    assert IsKeyChar(k[0]);
    TrimRightAfter(head, text);
    if line[|line| - 1] == '\r' {
      assert TrimRight(line) == TrimRight(DropCR(line));
    }
    assert (head + TrimRight(text))[0] == (if prefix == "" then k[0] else 'e');
  }

  lemma PrefixDropped(prefix: string, k: string, t: string)
    requires IsPrefix(prefix) && IsIdentifier(k)
    ensures TrimPrefix(prefix + k + "=" + t, EXPORT) == k + ['='] + t
  {
    var line, rest := prefix + k + "=" + t, k + ['='] + t;
    if prefix == EXPORT {
      assert line == EXPORT + rest;
    } else {
      assert line == rest;
      assert '=' !in EXPORT && rest[|k|] == '=';
      if |k| < |EXPORT| {
        assert EXPORT[|k|] in EXPORT;
      } else {
        assert rest[6] == k[6] && IsKeyChar(k[6]);
      }
    }
  }

  ghost predicate Printable(keys: seq<string>, texts: map<string, string>) {
    forall k | k in keys :: k in texts && IsIdentifier(k) && '\n' !in texts[k]
  }

  /** Appending a line to terminated text adds what that line parses to. */
  lemma ParseAppend(before: string, line: string)
    requires Terminated(before) && '\n' !in line
    ensures Parse(before + (line + "\n")) ==
            match ParseLine(DropCR(line)) case None => Parse(before) case Some(p) => Parse(before)[p.key := p.value]
  {
    LinesConcat(before, line + "\n");
    OneLine(line);
    var lines := Lines(before) + [DropCR(line)];
    assert lines[..|lines| - 1] == Lines(before);
  }

  /** What the printed texts of `keys` read back as. */
  function ReadBack(keys: seq<string>, texts: map<string, string>): map<string, string>
    requires forall k | k in keys :: k in texts
  {
    map k | k in keys :: Unquote(TrimSpace(texts[k]))
  }

  /** Printed lines of newline-free texts parse to exactly those keys. */
  lemma {:induction false} PrintedReadsBack(keys: seq<string>, prefix: string, texts: map<string, string>)
    requires IsPrefix(prefix) && Printable(keys, texts)
    ensures Terminated(Printed(keys, prefix, texts))
    ensures Parse(Printed(keys, prefix, texts)) == ReadBack(keys, texts)
  {
    if keys != [] {
      var init, k := keys[..|keys| - 1], keys[|keys| - 1];
      assert k in keys;
      PrintedReadsBack(init, prefix, texts);
      PrintedAppend(keys, prefix, texts);
      ParseAppend(Printed(init, prefix, texts), prefix + k + "=" + texts[k]);
      LineReadsBack(prefix, k, texts[k]);
      ReadBackAppend(keys, texts);
    }
  }

  lemma ReadBackAppend(keys: seq<string>, texts: map<string, string>)
    requires keys != [] && forall k | k in keys :: k in texts
    ensures var init, k := keys[..|keys| - 1], keys[|keys| - 1];
            ReadBack(keys, texts) == ReadBack(init, texts)[k := Unquote(TrimSpace(texts[k]))]
  {
  }

  lemma PrintedAppend(keys: seq<string>, prefix: string, texts: map<string, string>)
    requires keys != [] && IsPrefix(prefix) && Printable(keys, texts)
    ensures var k := keys[|keys| - 1];
            var line := prefix + k + "=" + texts[k];
            && k in keys && '\n' !in line
            && Printed(keys, prefix, texts) == Printed(keys[..|keys| - 1], prefix, texts) + (line + "\n")
  {
  }

  lemma LinesAppend(before: string, line: string)
    requires Terminated(before) && '\n' !in line
    ensures Lines(before + (line + "\n")) == Lines(before) + [DropCR(line)]
    ensures Terminated(before + (line + "\n"))
  {
    LinesConcat(before, line + "\n");
    OneLine(line);
  }

  lemma {:induction false} PrintedLast(keys: seq<string>, prefix: string, texts: map<string, string>)
    requires IsPrefix(prefix) && Printable(keys, texts) && keys != []
    requires Terminated(Printed(keys[..|keys| - 1], prefix, texts))
    ensures keys[|keys| - 1] in keys && Terminated(Printed(keys, prefix, texts))
    ensures Lines(Printed(keys, prefix, texts)) ==
            Lines(Printed(keys[..|keys| - 1], prefix, texts)) + [DropCR(prefix + keys[|keys| - 1] + "=" + texts[keys[|keys| - 1]])]
  {
    PrintedAppend(keys, prefix, texts);
    LinesAppend(Printed(keys[..|keys| - 1], prefix, texts), prefix + keys[|keys| - 1] + "=" + texts[keys[|keys| - 1]]);
  }

  function Texts(keys: seq<string>, prefix: string, texts: map<string, string>): seq<string>
    requires forall k | k in keys :: k in texts
  {
    seq(|keys|, i requires 0 <= i < |keys| => assert keys[i] in keys; DropCR(prefix + keys[i] + "=" + texts[keys[i]]))
  }

  lemma {:induction false} TextsLast(keys: seq<string>, prefix: string, texts: map<string, string>)
    requires keys != [] && forall k | k in keys :: k in texts
    ensures keys[|keys| - 1] in keys
    ensures Texts(keys, prefix, texts) ==
            Texts(keys[..|keys| - 1], prefix, texts) + [DropCR(prefix + keys[|keys| - 1] + "=" + texts[keys[|keys| - 1]])]
  {
    assert keys[|keys| - 1] in keys;
  }

  /** The printed text is one line `prefix key = text` a key, in order. */
  lemma {:induction false} PrintedLines(keys: seq<string>, prefix: string, texts: map<string, string>)
    requires IsPrefix(prefix) && Printable(keys, texts)
    ensures Terminated(Printed(keys, prefix, texts))
    ensures Lines(Printed(keys, prefix, texts)) == Texts(keys, prefix, texts)
  {
    if keys != [] {
      PrintedLines(keys[..|keys| - 1], prefix, texts);
      PrintedLast(keys, prefix, texts);
      TextsLast(keys, prefix, texts);
    }
  }

  lemma ParsedValuesHaveNoNewline(text: string)
    ensures forall k | k in Parse(text) :: '\n' !in Parse(text)[k]
  {
    LinesHaveNoNewline(text);
    ParsedLinesHaveNoNewline(Lines(text));
  }

  lemma {:induction false} UnquoteWithin(v: string)
    ensures forall c | c in Unquote(v) :: c in v
  {
    if Wrapped(v) { PieceWithin(v, 1, |v| - 1); }
  }

  lemma {:induction false} ValueWithin(rest: string, i: nat)
    requires i < |rest| && '\n' !in rest
    ensures '\n' !in Unquote(TrimSpace(rest[i + 1..]))
  {
    PieceWithin(rest, i + 1, |rest|);
    TrimSpaceFacts(rest[i + 1..]);
    UnquoteWithin(TrimSpace(rest[i + 1..]));
  }

  lemma {:induction false} ParsedLineHasNoNewline(text: string)
    requires '\n' !in text
    ensures ParseLine(text).Some? ==> '\n' !in ParseLine(text).value.value
  {
    var line := TrimSpace(text);
    TrimSpaceFacts(text);
    var rest := TrimPrefix(line, EXPORT);
    if EXPORT <= line { PieceWithin(line, |EXPORT|, |line|); }
    var i := IndexOf(rest, '=');
    if i < |rest| { ValueWithin(rest, i); }
  }

  lemma {:induction false} ParsedLinesHaveNoNewline(lines: seq<string>)
    requires forall i | 0 <= i < |lines| :: '\n' !in lines[i]
    ensures forall k | k in ParseLines(lines) :: '\n' !in ParseLines(lines)[k]
  {
    if lines != [] {
      ParsedLinesHaveNoNewline(lines[..|lines| - 1]);
      ParsedLineHasNoNewline(lines[|lines| - 1]);
    }
  }

  lemma {:induction false} ReplaceAllFacts(s: string, c: char, with: string)
    requires |with| == 2 && c in with
    ensures |ReplaceAll(s, c, with)| >= |s|
    ensures c in s <==> |ReplaceAll(s, c, with)| > |s|
    ensures c !in s ==> ReplaceAll(s, c, with) == s
    ensures forall x | x !in with :: x in ReplaceAll(s, c, with) <==> x in s
    ensures c in ReplaceAll(s, c, with) <==> c in s
  {
    if s != [] {
      ReplaceAllFacts(s[1..], c, with);
      assert s == [s[0]] + s[1..];
    }
  }

  lemma NeedsQuotesIff(v: string)
    ensures NeedsQuotes(v) <==>
            v == "" || ' ' in v || '\t' in v || '"' in v || '\'' in v || '$' in v || '\\' in v
  {
    var special := " \t\"'$\\";
    assert special[0] == ' ' && special[1] == '\t' && special[2] == '"' && special[3] == '\'' && special[4] == '$'
        && special[5] == '\\';
  }

  /** How a reader of double-quoted text undoes backslashes; None for a quote that is not escaped. */
  function Unescape(s: string): Option<string> {
    if s == [] then Some([])
    else if s[0] == '"' then None
    else if s[0] != '\\' then (match Unescape(s[1..]) case None => None case Some(t) => Some([s[0]] + t))
    else if |s| == 1 then None
    else (match Unescape(s[2..]) case None => None case Some(t) => Some([s[1]] + t))
  }

  function Escaped(v: string): string {
    ReplaceAll(ReplaceAll(v, '\\', "\\\\"), '"', "\\\"")
  }

  lemma {:induction false} ReplaceAllConcat(a: string, b: string, c: char, with: string)
    ensures ReplaceAll(a + b, c, with) == ReplaceAll(a, c, with) + ReplaceAll(b, c, with)
  {
    if a == [] {
      assert a + b == b;
    } else {
      assert (a + b)[1..] == a[1..] + b;
      ReplaceAllConcat(a[1..], b, c, with);
    }
  }

  lemma {:induction false} EscapedCons(v: string)
    requires v != []
    ensures Escaped(v) ==
            (if v[0] == '\\' then "\\\\" else if v[0] == '"' then "\\\"" else [v[0]]) + Escaped(v[1..])
  {
    var first := if v[0] == '\\' then "\\\\" else [v[0]];
    assert ReplaceAll(v, '\\', "\\\\") == first + ReplaceAll(v[1..], '\\', "\\\\");
    ReplaceAllConcat(first, ReplaceAll(v[1..], '\\', "\\\\"), '"', "\\\"");
    assert first[1..] == if v[0] == '\\' then "\\" else [];
    assert ReplaceAll(first, '"', "\\\"") == if v[0] == '"' then "\\\"" else first;
  }

  lemma {:induction false} UnescapeEscaped(v: string)
    ensures Unescape(Escaped(v)) == Some(v)
  {
    if v != [] {
      EscapedCons(v);
      UnescapeEscaped(v[1..]);
      var e := Escaped(v);
      assert v == [v[0]] + v[1..];
      if v[0] == '\\' || v[0] == '"' {
        assert e[2..] == Escaped(v[1..]);
      } else {
        assert e[1..] == Escaped(v[1..]);
      }
    }
  }

  /** shellQuote puts exactly the empty value and values with a special character in double quotes,
      escaped so that undoing the backslashes gives the value back; other values stay as they are. */
  lemma ShellQuoted(v: string)
    ensures if v == "" || ' ' in v || '\t' in v || '"' in v || '\'' in v || '$' in v || '\\' in v
            then |ShellQuote(v)| >= 2 && ShellQuote(v)[0] == '"' && ShellQuote(v)[|ShellQuote(v)| - 1] == '"'
                 && Unescape(ShellQuote(v)[1..|ShellQuote(v)| - 1]) == Some(v)
            else ShellQuote(v) == v
  {
    NeedsQuotesIff(v);
    if NeedsQuotes(v) {
      UnescapeEscaped(v);
      assert ShellQuote(v)[1..|ShellQuote(v)| - 1] == Escaped(v);
    }
  }

  /** The values that survive printing and parsing: no newline, backslash or double quote, and either
      quoted in print or without white space at an edge. */
  predicate Survives(v: string) {
    && '\n' !in v && '\\' !in v && '"' !in v
    && (v == "" || ' ' in v || '\t' in v || '\'' in v || '$' in v || TrimSpace(v) == v)
  }

  lemma {:induction false} QuotedReadsBack(v: string)
    requires NeedsQuotes(v)
    ensures '\n' in ShellQuote(v) <==> '\n' in v
    ensures Unquote(TrimSpace(ShellQuote(v))) == v <==> '\\' !in v && '"' !in v
  {
    var inner := ReplaceAll(v, '\\', "\\\\");
    var esc := ReplaceAll(inner, '"', "\\\"");
    ReplaceAllFacts(v, '\\', "\\\\");
    ReplaceAllFacts(inner, '"', "\\\"");
    var q := ShellQuote(v);
    assert q == ['"'] + esc + ['"'];
    AlreadyTrimmed(q);
    assert q[1..|q| - 1] == esc;
  }

  lemma {:induction false} PlainReadsBack(v: string)
    requires !NeedsQuotes(v)
    ensures '\\' !in v && '"' !in v
    ensures Unquote(TrimSpace(v)) == v <==> TrimSpace(v) == v
  {
    TrimSpaceFacts(v);
    assert '\\' in " \t\"'$\\" && '"' in " \t\"'$\\" && '\'' in " \t\"'$\\";
    var t := TrimSpace(v);
    if |t| >= 2 { assert t[0] in t; }
  }

  lemma {:induction false} ValueReadsBack(v: string)
    ensures '\n' in ShellQuote(v) <==> '\n' in v
    ensures '\n' !in v ==> (Unquote(TrimSpace(ShellQuote(v))) == v <==> Survives(v))
  {
    NeedsQuotesIff(v);
    if NeedsQuotes(v) { QuotedReadsBack(v); } else { PlainReadsBack(v); }
  }

  /** Exact round trip: importing what pull printed, in either form and any key order, gives the same
      map back exactly if every value survives. */
  lemma RoundTripIff(m: map<string, string>, keys: seq<string>, prefix: string)
    requires IsPrefix(prefix) && Enumerates(keys, m.Keys) && forall k | k in m :: IsIdentifier(k)
    ensures Parse(Printed(keys, prefix, Quoted(m))) == m <==> forall k | k in m :: Survives(m[k])
  {
    if k :| k in m && '\n' in m[k] {
      ParsedValuesHaveNoNewline(Printed(keys, prefix, Quoted(m)));
      assert Parse(Printed(keys, prefix, Quoted(m))) != m;
    } else {
      RoundTripWithoutNewlines(m, keys, prefix);
    }
  }

  lemma RoundTripWithoutNewlines(m: map<string, string>, keys: seq<string>, prefix: string)
    requires IsPrefix(prefix) && Enumerates(keys, m.Keys)
    requires forall k | k in m :: IsIdentifier(k) && '\n' !in m[k]
    ensures Parse(Printed(keys, prefix, Quoted(m))) == m <==> forall k | k in m :: Survives(m[k])
  {
    forall k | k in m
      ensures '\n' !in Quoted(m)[k] && (Unquote(TrimSpace(Quoted(m)[k])) == m[k] <==> Survives(m[k]))
    {
      ValueReadsBack(m[k]);
    }
    PrintedReadsBack(keys, prefix, Quoted(m));
    ReadBackIff(m, keys, Quoted(m));
  }

  lemma ReadBackIff(m: map<string, string>, keys: seq<string>, texts: map<string, string>)
    requires Enumerates(keys, m.Keys) && texts.Keys == m.Keys
    ensures ReadBack(keys, texts) == m <==> forall k | k in m :: Unquote(TrimSpace(texts[k])) == m[k]
  {
  }
}
