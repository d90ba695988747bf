/** The string functions of Go's standard library that the parsers and printers use, on code points. */
module Text {
  /** unicode.IsSpace. */
  predicate IsSpace(c: char) {
    var n := c as int;
    (9 <= n <= 13) || n == 32 || n == 0x85 || n == 0xA0 || n == 0x1680 || (0x2000 <= n <= 0x200A)
    || n == 0x2028 || n == 0x2029 || n == 0x202F || n == 0x205F || n == 0x3000
  }

  /** On ASCII: blank, tab, newline, vertical tab, form feed, carriage return. */
  lemma AsciiSpaces(c: char)
    requires (c as int) < 128
    ensures IsSpace(c) <==> c == ' ' || c == '\t' || c == '\n' || c as int == 11 || c as int == 12 || c == '\r'
  {
  }

  function TrimLeft(s: string): string {
    if s != [] && IsSpace(s[0]) then TrimLeft(s[1..]) else s
  }

  function TrimRight(s: string): string {
    if s != [] && IsSpace(s[|s| - 1]) then TrimRight(s[..|s| - 1]) else s
  }

  /** strings.TrimSpace. */
  function TrimSpace(s: string): string {
    TrimLeft(TrimRight(s))
  }

  function TrimPrefix(s: string, prefix: string): string {
    if prefix <= s then s[|prefix|..] else s
  }

  /** The index of the first `c` in `s`, or the length of `s`. */
  function IndexOf(s: string, c: char): (i: nat)
    ensures i <= |s| && c !in s[..i]
    ensures i < |s| ==> s[i] == c
    ensures i < |s| <==> c in s
  {
    if s == [] || s[0] == c then 0
    else
      var i := IndexOf(s[1..], c) + 1;
      assert s[..i] == [s[0]] + s[1..][..i - 1];
      i
  }

  predicate AllSpace(s: string) {
    forall i | 0 <= i < |s| :: IsSpace(s[i])
  }

  lemma AllSpaceConcat(a: string, b: string)
    ensures AllSpace(a + b) <==> AllSpace(a) && AllSpace(b)
  {
    if AllSpace(a + b) {
      forall i | 0 <= i < |a| ensures IsSpace(a[i]) { assert a[i] == (a + b)[i]; }
      forall i | 0 <= i < |b| ensures IsSpace(b[i]) { assert b[i] == (a + b)[|a| + i]; }
    }
  }

  predicate EdgesNotSpace(s: string) {
    s == [] || !(IsSpace(s[0]) || IsSpace(s[|s| - 1]))
  }

  lemma {:induction false} TrimLeftFacts(s: string)
    ensures |TrimLeft(s)| <= |s| && TrimLeft(s) == s[|s| - |TrimLeft(s)|..]
    ensures TrimLeft(s) == [] || !IsSpace(TrimLeft(s)[0])
  {
    if s != [] && IsSpace(s[0]) { TrimLeftFacts(s[1..]); }
  }

  lemma {:induction false} TrimRightFacts(s: string)
    ensures |TrimRight(s)| <= |s| && TrimRight(s) == s[..|TrimRight(s)|]
    ensures TrimRight(s) == [] || !IsSpace(TrimRight(s)[|TrimRight(s)| - 1])
  {
    if s != [] && IsSpace(s[|s| - 1]) { TrimRightFacts(s[..|s| - 1]); }
  }

  /** Text whose first and last characters are not white space is already trimmed. */
  lemma {:induction false} AlreadyTrimmed(s: string)
    requires s == [] || !(IsSpace(s[0]) || IsSpace(s[|s| - 1]))
    ensures TrimSpace(s) == s
  {
  }

  /** Trimming takes a piece of the string that neither begins nor ends with white space. */
  lemma {:induction false} TrimSpaceFacts(s: string)
    ensures |TrimSpace(s)| <= |s|
    ensures forall c | c in TrimSpace(s) :: c in s
    ensures TrimSpace(s) == [] || !(IsSpace(TrimSpace(s)[0]) || IsSpace(TrimSpace(s)[|TrimSpace(s)| - 1]))
    ensures TrimSpace(TrimSpace(s)) == TrimSpace(s)
  {
    var r, t := TrimRight(s), TrimSpace(s);
    TrimRightFacts(s);
    TrimLeftFacts(r);
    if t != [] { assert t[|t| - 1] == r[|r| - 1]; }
    AlreadyTrimmed(t);
    PieceWithin(s, 0, |r|);
    PieceWithin(r, |r| - |t|, |r|);
    assert s[0..|r|] == r && r[|r| - |t|..|r|] == t;
  }

  /** TrimSpace takes away exactly the white space at both ends. */
  lemma {:induction false} TrimSpaceParts(s: string) returns (a: string, b: string)
    ensures s == a + TrimSpace(s) + b && AllSpace(a) && AllSpace(b) && EdgesNotSpace(TrimSpace(s))
  {
    b := TrimRightParts(s);
    a := TrimLeftParts(TrimRight(s));
    TrimSpaceFacts(s);
  }

  lemma {:induction false} TrimRightParts(s: string) returns (b: string)
    ensures s == TrimRight(s) + b && AllSpace(b)
  {
    b := "";
    if s != [] && IsSpace(s[|s| - 1]) {
      var b' := TrimRightParts(s[..|s| - 1]);
      b := b' + [s[|s| - 1]];
      assert s == s[..|s| - 1] + [s[|s| - 1]];
    }
  }

  lemma {:induction false} TrimLeftParts(s: string) returns (a: string)
    ensures s == a + TrimLeft(s) && AllSpace(a)
  {
    a := "";
    if s != [] && IsSpace(s[0]) {
      var a' := TrimLeftParts(s[1..]);
      a := [s[0]] + a';
      assert s == [s[0]] + s[1..];
    }
  }

  lemma {:induction false} TrimAllSpace(s: string)
    requires AllSpace(s)
    ensures TrimRight(s) == [] && TrimSpace(s) == []
  {
    if s != [] { TrimAllSpace(s[..|s| - 1]); }
  }

  lemma {:induction false} TrimLeftAfter(a: string, s: string)
    requires AllSpace(a)
    ensures TrimLeft(a + s) == TrimLeft(s)
  {
    if a == [] {
      assert a + s == s;
    } else {
      assert (a + s)[1..] == a[1..] + s;
      TrimLeftAfter(a[1..], s);
    }
  }

  /** Trimming finds what white space surrounds. */
  lemma {:induction false} TrimAround(a: string, s: string, b: string)
    requires AllSpace(a) && AllSpace(b) && EdgesNotSpace(s)
    ensures TrimSpace(a + s + b) == s
  {
    if s == [] {
      AllSpaceConcat(a, b);
      assert a + s + b == a + b;
      TrimAllSpace(a + b);
    } else {
      TrimRightAfter(a + s, b);
      TrimAllSpace(b);
      assert a + s + [] == a + s;
      TrimLeftAfter(a, s);
    }
  }

  lemma PieceWithin(s: string, lo: nat, hi: nat)
    requires lo <= hi <= |s|
    ensures forall c | c in s[lo..hi] :: c in s
  {
  }

  lemma {:induction false} TrimRightTwice(s: string)
    ensures TrimRight(TrimRight(s)) == TrimRight(s)
    ensures TrimSpace(TrimRight(s)) == TrimSpace(s)
  {
    TrimRightFacts(s);
  }

  /** White space at the end of `s` is all that is trimmed behind a character that is none. */
  lemma {:induction false} TrimRightAfter(a: string, s: string)
    requires a != [] && !IsSpace(a[|a| - 1])
    ensures TrimRight(a + s) == a + TrimRight(s)
  {
    if s == [] {
      assert a + s == a;
    } else {
      assert (a + s)[..|a + s| - 1] == a + s[..|s| - 1];
      if IsSpace(s[|s| - 1]) { TrimRightAfter(a, s[..|s| - 1]); }
    }
  }

  // ---- Lines ------------------------------------------------------------------------------

  function DropCR(line: string): string {
    if line != [] && line[|line| - 1] == '\r' then line[..|line| - 1] else line
  }

  /** bufio.ScanLines. */
  function Lines(s: string): seq<string>
    decreases |s|
  {
    if s == [] then []
    else
      var i := IndexOf(s, '\n');
      if i == |s| then [DropCR(s)] else [DropCR(s[..i])] + Lines(s[i + 1..])
  }

  lemma {:induction false} LinesHaveNoNewline(s: string)
    ensures forall i | 0 <= i < |Lines(s)| :: '\n' !in Lines(s)[i]
    decreases |s|
  {
    if s != [] {
      var i := IndexOf(s, '\n');
      if i < |s| { LinesHaveNoNewline(s[i + 1..]); }
    }
  }

  predicate Terminated(s: string) {
    s == [] || s[|s| - 1] == '\n'
  }

  lemma {:induction false} IndexOfPrefix(a: string, c: char, b: string)
    requires c !in a
    ensures IndexOf(a + [c] + b, c) == |a|
  {
    if a != [] {
      IndexOfPrefix(a[1..], c, b);
      assert (a + [c] + b)[1..] == a[1..] + [c] + b;
    }
  }

  lemma {:induction false} FirstLine(line: string, rest: string)
    requires '\n' !in line
    ensures Lines(line + ['\n'] + rest) == [DropCR(line)] + Lines(rest)
  {
    var s := line + ['\n'] + rest;
    IndexOfPrefix(line, '\n', rest);
    assert s[..|line|] == line && s[|line| + 1..] == rest;
  }

  lemma {:induction false} SplitFirst(a: string, b: string, i: nat)
    requires a != [] && Terminated(a) && i == IndexOf(a, '\n')
    ensures i < |a| && Terminated(a[i + 1..])
    ensures Lines(a + b) == [DropCR(a[..i])] + Lines(a[i + 1..] + b)
  {
    RestTerminated(a, i);
    Rejoin(a, b, i);
    FirstLine(a[..i], a[i + 1..] + b);
  }

  lemma RestTerminated(a: string, i: nat)
    requires a != [] && Terminated(a) && i == IndexOf(a, '\n')
    ensures i < |a| && Terminated(a[i + 1..])
  {
  }

  lemma Rejoin(a: string, b: string, i: nat)
    requires i < |a|
    ensures a + b == a[..i] + [a[i]] + (a[i + 1..] + b)
  {
  }

  lemma {:induction false} LinesOf(a: string, i: nat)
    requires a != [] && i == IndexOf(a, '\n') < |a|
    ensures Lines(a) == [DropCR(a[..i])] + Lines(a[i + 1..])
  {
  }

  lemma Regroup(x: seq<string>, y: seq<string>, z: seq<string>)
    ensures x + (y + z) == (x + y) + z
  {
  }

  /** Text that ends in a newline is split independently of what follows. */
  lemma {:induction false} LinesConcat(a: string, b: string)
    requires Terminated(a)
    ensures Lines(a + b) == Lines(a) + Lines(b)
    decreases |a|
  {
    if a == [] {
      assert a + b == b;
    } else {
      var i := IndexOf(a, '\n');
      SplitFirst(a, b, i);
      LinesOf(a, i);
      LinesConcat(a[i + 1..], b);
      Regroup([DropCR(a[..i])], Lines(a[i + 1..]), Lines(b));
    }
  }

  lemma OneLine(line: string)
    requires '\n' !in line
    ensures Lines(line + "\n") == [DropCR(line)]
  {
  }

  /** A last line counts without its newline, unless it is empty. */
  lemma LastLine(line: string)
    requires '\n' !in line && line != ""
    ensures Lines(line) == [DropCR(line)]
  {
  }

  /** A line may end in a carriage return and a newline; without a carriage return it is left as it is. */
  lemma CrLf(line: string, rest: string)
    requires '\n' !in line
    ensures Lines((line + "\r") + ['\n'] + rest) == [line] + Lines(rest)
    ensures '\r' !in line ==> Lines(line + ['\n'] + rest) == [line] + Lines(rest)
  {
    FirstLine(line + "\r", rest);
    FirstLine(line, rest);
    assert (line + "\r")[..|line|] == line;
  }

  /** White space includes a carriage return, so dropping one changes nothing that is trimmed. */
  lemma {:induction false} TrimDropCR(line: string)
    ensures TrimSpace(DropCR(line)) == TrimSpace(line)
  {
    if line != [] && line[|line| - 1] == '\r' {
      assert TrimRight(line) == TrimRight(line[..|line| - 1]);
    }
  }
}
