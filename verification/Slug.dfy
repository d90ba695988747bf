/** Slugs (internal/service/auth.go) and environment lists (internal/mcpserver/tools.go). */
module Slug {
  import opened Text

  /** unicode.ToLower, left abstract but for what it does on slug characters. */
  type Lower = char -> char

  predicate IsSlugChar(c: char) {
    ('a' <= c <= 'z') || ('0' <= c <= '9')
  }

  ghost predicate FixesSlugs(lower: Lower) {
    forall c | IsSlugChar(c) || c == '-' :: lower(c) == c
  }

  function ToLower(s: string, lower: Lower): string {
    seq(|s|, i requires 0 <= i < |s| => lower(s[i]))
  }

  /** How many characters at the front of `s` are slug characters, or are not. */
  function Span(s: string, slug: bool): (n: nat)
    ensures n <= |s|
    ensures s != [] && IsSlugChar(s[0]) == slug ==> n > 0
    ensures n < |s| ==> IsSlugChar(s[n]) != slug
    ensures forall i | 0 <= i < n :: IsSlugChar(s[i]) == slug
  {
    if s != [] && IsSlugChar(s[0]) == slug then Span(s[1..], slug) + 1 else 0
  }

  /** `[^a-z0-9]+` replaced by a dash throughout. */
  function ReplaceRuns(s: string): string
    decreases |s|
  {
    if s == [] then []
    else if IsSlugChar(s[0]) then s[..Span(s, true)] + ReplaceRuns(s[Span(s, true)..])
    else "-" + ReplaceRuns(s[Span(s, false)..])
  }

  function TrimDashesLeft(s: string): string {
    if s != [] && s[0] == '-' then TrimDashesLeft(s[1..]) else s
  }

  /** strings.Trim(s, "-"). */
  function TrimDashes(s: string): string
    decreases |s|
  {
    if s != [] && s[|s| - 1] == '-' then TrimDashes(s[..|s| - 1]) else TrimDashesLeft(s)
  }

  function Slugify(s: string, lower: Lower): string {
    TrimDashes(ReplaceRuns(ToLower(TrimSpace(s), lower)))
  }

  // ---- What a slug is ---------------------------------------------------------------------

  /** The maximal runs of slug characters. */
  function Words(s: string): seq<string>
    decreases |s|
  {
    if s == [] then []
    else if IsSlugChar(s[0]) then [s[..Span(s, true)]] + Words(s[Span(s, true)..])
    else Words(s[1..])
  }

  function Join(words: seq<string>): string {
    if words == [] then ""
    else if |words| == 1 then words[0]
    else words[0] + "-" + Join(words[1..])
  }

  predicate AreWords(words: seq<string>) {
    forall i | 0 <= i < |words| :: words[i] != "" && forall c | c in words[i] :: IsSlugChar(c)
  }

  lemma {:induction false} WordsAreWords(s: string)
    ensures AreWords(Words(s))
    decreases |s|
  {
    if s != [] {
      if IsSlugChar(s[0]) {
        WordsAreWords(s[Span(s, true)..]);
        assert forall c | c in s[..Span(s, true)] :: IsSlugChar(c);
      } else {
        WordsAreWords(s[1..]);
      }
    }
  }

  lemma {:induction false} WordsSkipGap(s: string)
    ensures Words(s) == Words(s[Span(s, false)..])
  {
    if s != [] && !IsSlugChar(s[0]) {
      WordsSkipGap(s[1..]);
      assert s[1..][Span(s[1..], false)..] == s[Span(s, false)..];
    } else {
      assert s[0..] == s;
    }
  }

  lemma FirstRun(s: string)
    requires s != [] && IsSlugChar(s[0])
    ensures var word, rest := s[..Span(s, true)], s[Span(s, true)..];
            && word != "" && |rest| < |s|
            && Words(s) == [word] + Words(rest) && ReplaceRuns(s) == word + ReplaceRuns(rest)
            && (rest == [] ==> word == s)
            && (rest != [] ==> !IsSlugChar(rest[0]) && rest[|rest| - 1] == s[|s| - 1])
  {
  }

  lemma FirstGap(s: string)
    requires s != [] && !IsSlugChar(s[0])
    ensures var next := s[Span(s, false)..];
            && |next| < |s|
            && Words(s) == Words(next) && ReplaceRuns(s) == "-" + ReplaceRuns(next)
            && (next == [] ==> !IsSlugChar(s[|s| - 1]))
            && (next != [] ==> IsSlugChar(next[0]) && next[|next| - 1] == s[|s| - 1])
  {
  }

  /** Replacing runs in text that begins with a word joins its words, with a dash at the end if the
      text ends in something else. */
  lemma {:induction false} RunsJoin(s: string)
    requires s != [] && IsSlugChar(s[0])
    ensures Words(s) != []
    ensures ReplaceRuns(s) == Join(Words(s)) + (if IsSlugChar(s[|s| - 1]) then "" else "-")
    decreases |s|
  {
    FirstRun(s);
    var word, rest := s[..Span(s, true)], s[Span(s, true)..];
    if rest == [] {
      assert Words(s) == [word] && word[|word| - 1] == s[|s| - 1];
      assert ReplaceRuns(s) == word + "";
    } else {
      FirstGap(rest);
      var next := rest[Span(rest, false)..];
      if next != [] { RunsJoin(next); }
      RunsJoinStep(s, word, next);
    }
  }

  lemma {:induction false} RunsJoinStep(s: string, word: string, next: string)
    requires s != [] && Words(s) == [word] + Words(next) && ReplaceRuns(s) == word + ("-" + ReplaceRuns(next))
    requires next == [] ==> !IsSlugChar(s[|s| - 1])
    requires next != [] ==> Words(next) != [] && next[|next| - 1] == s[|s| - 1]
    requires next != [] ==> ReplaceRuns(next) == Join(Words(next)) + (if IsSlugChar(s[|s| - 1]) then "" else "-")
    ensures ReplaceRuns(s) == Join(Words(s)) + (if IsSlugChar(s[|s| - 1]) then "" else "-")
  {
  }

  lemma {:induction false} JoinEdges(words: seq<string>)
    requires AreWords(words) && words != []
    ensures Join(words) != [] && IsSlugChar(Join(words)[0]) && IsSlugChar(Join(words)[|Join(words)| - 1])
    ensures forall c | c in Join(words) :: IsSlugChar(c) || c == '-'
  {
    assert words[0][0] in words[0] && words[0][|words[0]| - 1] in words[0];
    if |words| > 1 {
      JoinEdges(words[1..]);
    }
  }

  lemma TrimDashesAround(x: string, before: string, after: string)
    requires x != [] && x[0] != '-' && x[|x| - 1] != '-'
    requires before == "" || before == "-"
    requires after == "" || after == "-"
    ensures TrimDashes(before + x + after) == x
  {
    var y := before + x;
    assert y[|y| - 1] == x[|x| - 1];
    assert TrimDashesLeft(y) == x by {
      if before == "-" { assert y[1..] == x; } else { assert y == x; }
    }
    var s := y + after;
    if after == "-" { assert s[..|s| - 1] == y; } else { assert s == y; }
  }

  /** Replacing runs leaves the joined words, perhaps with a dash on either side. */
  lemma {:induction false} RunsShape(t: string) returns (before: string, after: string)
    ensures before == "" || before == "-"
    ensures after == "" || after == "-"
    ensures ReplaceRuns(t) == before + Join(Words(t)) + after
    ensures Words(t) == [] ==> after == ""
  {
    var g := Span(t, false);
    WordsSkipGap(t);
    var next := t[g..];
    before := if g > 0 then "-" else "";
    assert g == 0 ==> next == t;
    if next == [] {
      after := "";
    } else {
      RunsJoin(next);
      after := if IsSlugChar(next[|next| - 1]) then "" else "-";
      Reassociate(before, Join(Words(t)), after);
    }
  }

  lemma Reassociate(a: string, b: string, c: string)
    ensures a + (b + c) == a + b + c
  {
  }

  /** Slugify is: lower-case, and join the words with dashes. */
  lemma SlugifyJoinsWords(s: string, lower: Lower)
    ensures var t := TrimSpace(s);
            Slugify(s, lower) == Join(Words(seq(|t|, i requires 0 <= i < |t| => lower(t[i]))))
  {
    assert ToLower(TrimSpace(s), lower) == seq(|TrimSpace(s)|, i requires 0 <= i < |TrimSpace(s)| => lower(TrimSpace(s)[i]));
    TrimRunsJoinsWords(ToLower(TrimSpace(s), lower));
  }

  lemma TrimRunsJoinsWords(t: string)
    ensures TrimDashes(ReplaceRuns(t)) == Join(Words(t))
  {
    var before, after := RunsShape(t);
    WordsAreWords(t);
    if Words(t) == [] {
      assert before + "" + "" == before && "-"[..0] == [];
    } else {
      JoinEdges(Words(t));
      TrimDashesAround(Join(Words(t)), before, after);
    }
  }

  lemma {:induction false} WordsOfJoin(words: seq<string>)
    requires AreWords(words)
    ensures Words(Join(words)) == words
  {
    if |words| > 1 {
      WordsOfJoin(words[1..]);
      WordsThenDash(words[0], Join(words[1..]));
      assert words == [words[0]] + words[1..];
    } else if |words| == 1 {
      SpanOfWord(words[0], "");
      assert words[0] + "" == words[0] && words[0][0] in words[0];
    }
  }

  lemma {:induction false} WordsThenDash(w: string, rest: string)
    requires w != [] && forall c | c in w :: IsSlugChar(c)
    ensures Words(w + "-" + rest) == [w] + Words(rest)
  {
    var s := w + "-" + rest;
    assert s == w + ("-" + rest) && s[|w|..] == "-" + rest && s[|w|..][1..] == rest && w[0] in w;
    SpanOfWord(w, "-" + rest);
  }

  lemma {:induction false} SpanOfWord(w: string, rest: string)
    requires forall c | c in w :: IsSlugChar(c)
    requires rest == [] || !IsSlugChar(rest[0])
    ensures Span(w + rest, true) == |w|
  {
    if w != [] {
      SpanOfWord(w[1..], rest);
      assert (w + rest)[1..] == w[1..] + rest;
      assert w[0] in w;
    } else {
      assert w + rest == rest;
    }
  }

  /** The words of a text: a character outside [a-z0-9] separates, and text without any is one word. */
  lemma {:induction false} WordsSplit(a: string, c: char, b: string)
    requires !IsSlugChar(c)
    ensures Words(a + [c] + b) == Words(a) + Words(b)
    decreases |a|
  {
    var s := a + [c] + b;
    if a == [] {
      assert s[1..] == b;
    } else if !IsSlugChar(a[0]) {
      assert s[1..] == a[1..] + [c] + b;
      WordsSplit(a[1..], c, b);
    } else {
      var n := Span(a, true);
      SpanBefore(a, c, b);
      assert s[..n] == a[..n] && s[n..] == a[n..] + [c] + b;
      WordsSplit(a[n..], c, b);
      FirstWord(s);
      FirstWord(a);
      Regroup([a[..n]], Words(a[n..]), Words(b));
    }
  }

  lemma FirstWord(s: string)
    requires s != [] && IsSlugChar(s[0])
    ensures Words(s) == [s[..Span(s, true)]] + Words(s[Span(s, true)..])
  {
  }

  lemma {:induction false} SpanBefore(a: string, c: char, b: string)
    requires !IsSlugChar(c)
    ensures Span(a + [c] + b, true) == Span(a, true)
  {
    if a != [] {
      assert (a + [c] + b)[1..] == a[1..] + [c] + b;
      SpanBefore(a[1..], c, b);
    }
  }

  lemma OneWord(w: string)
    requires w != "" && forall i | 0 <= i < |w| :: 'a' <= w[i] <= 'z' || '0' <= w[i] <= '9'
    ensures Words(w) == [w]
  {
    assert forall c | c in w :: IsSlugChar(c);
    assert AreWords([w]);
    WordsOfJoin([w]);
  }

  lemma SlugIsTrimmed(words: seq<string>)
    requires AreWords(words)
    ensures TrimSpace(Join(words)) == Join(words)
  {
    if words != [] {
      JoinEdges(words);
    }
  }

  /** Slugs are canonical: dash-joined nonempty words, left alone by slugifying again, and the same
      whether or not the input was trimmed first. */
  lemma SlugCanonical(s: string, lower: Lower)
    requires FixesSlugs(lower)
    ensures exists words :: AreWords(words) && Slugify(s, lower) == Join(words)
    ensures Slugify(Slugify(s, lower), lower) == Slugify(s, lower)
    ensures Slugify(TrimSpace(s), lower) == Slugify(s, lower)
  {
    var words := Words(ToLower(TrimSpace(s), lower));
    WordsAreWords(ToLower(TrimSpace(s), lower));
    SlugifyJoinsWords(s, lower);
    SlugFixed(words, lower);
    TrimSpaceFacts(s);
  }

  lemma SlugFixed(words: seq<string>, lower: Lower)
    requires FixesSlugs(lower) && AreWords(words)
    ensures Slugify(Join(words), lower) == Join(words)
  {
    var slug := Join(words);
    SlugIsTrimmed(words);
    if words != [] { JoinEdges(words); }
    assert ToLower(slug, lower) == slug by {
      assert forall i | 0 <= i < |slug| :: slug[i] in slug;
    }
    SlugifyJoinsWords(slug, lower);
    WordsOfJoin(words);
  }

  // ---- Environment lists ------------------------------------------------------------------

  const DEV := "dev"

  function Slugs(input: seq<string>, lower: Lower): seq<string> {
    seq(|input|, i requires 0 <= i < |input| => Slugify(input[i], lower))
  }

  /** `dev`, then every other nonempty slug where it first appears. */
  function Dedup(slugs: seq<string>): seq<string> {
    if slugs == [] then [DEV]
    else
      var out, slug := Dedup(slugs[..|slugs| - 1]), slugs[|slugs| - 1];
      if slug == "" || slug in out then out else out + [slug]
  }

  method NormalizeEnvs(input: seq<string>, lower: Lower) returns (out: seq<string>)
    ensures out == Dedup(Slugs(input, lower))
    ensures out != [] && out[0] == "dev" && Distinct(out)
    ensures forall x :: x in out <==> x == "dev" || (x != "" && IsSlugOf(x, input, lower))
  {
    ghost var slugs := Slugs(input, lower);
    var seen := {DEV};
    out := [DEV];
    for n := 0 to |input|
      invariant out == Dedup(slugs[..n])
      invariant forall x :: x in seen <==> x in out
    {
      assert slugs[..n + 1][..n] == slugs[..n];
      var slug := Slugify(input[n], lower);
      if slug == "" {
        continue;
      }
      if slug in seen {
        continue;
      }
      seen := seen + {slug};
      out := out + [slug];
    }
    assert slugs[..|input|] == slugs;
    NormalizedContents(input, lower);
  }

  predicate Distinct(xs: seq<string>) {
    forall i, j | 0 <= i < j < |xs| :: xs[i] != xs[j]
  }

  /** The list starts with `dev`, has no duplicates, and holds `dev` and exactly the nonempty slugs. */
  lemma {:induction false} DedupContents(slugs: seq<string>)
    ensures var out := Dedup(slugs);
            && out != [] && out[0] == DEV && Distinct(out)
            && forall x :: x in out <==> x == DEV || (x != "" && x in slugs)
  {
    if slugs != [] {
      var init, last := slugs[..|slugs| - 1], slugs[|slugs| - 1];
      DedupContents(init);
      assert slugs == init + [last];
    }
  }

  /** `x` is the slug of one of the names. */
  predicate IsSlugOf(x: string, input: seq<string>, lower: Lower) {
    exists i | 0 <= i < |input| :: x == Slugify(input[i], lower)
  }

  lemma SlugsMembers(input: seq<string>, lower: Lower, x: string)
    ensures x in Slugs(input, lower) <==> IsSlugOf(x, input, lower)
  {
    if i :| 0 <= i < |input| && x == Slugify(input[i], lower) { assert Slugs(input, lower)[i] == x; }
  }

  lemma NormalizedContents(input: seq<string>, lower: Lower)
    ensures var out := Dedup(Slugs(input, lower));
            && out != [] && out[0] == "dev" && Distinct(out)
            && forall x :: x in out <==> x == "dev" || (x != "" && IsSlugOf(x, input, lower))
  {
    DedupContents(Slugs(input, lower));
    forall x ensures x in Slugs(input, lower) <==> IsSlugOf(x, input, lower) { SlugsMembers(input, lower, x); }
  }

  /** Environments keep the order in which they first appear: more input only appends. */
  lemma {:induction false} DedupKeepsOrder(slugs: seq<string>, n: nat)
    requires n <= |slugs|
    ensures Dedup(slugs[..n]) <= Dedup(slugs)
  {
    if n == |slugs| {
      assert slugs[..n] == slugs;
    } else {
      DedupKeepsOrder(slugs[..|slugs| - 1], n);
      assert slugs[..|slugs| - 1][..n] == slugs[..n];
    }
  }

  lemma {:induction false} DedupFixed(xs: seq<string>, n: nat)
    requires 0 < n <= |xs| && xs[0] == DEV && Distinct(xs) && "" !in xs
    ensures Dedup(xs[..n]) == xs[..n]
  {
    assert xs[..n][..n - 1] == xs[..n - 1];
    if n > 1 {
      DedupFixed(xs, n - 1);
      assert xs[n - 1] in xs && xs[n - 1] !in xs[..n - 1];
      assert xs[..n] == xs[..n - 1] + [xs[n - 1]];
    }
  }

  /** Normalizing a normalized list changes nothing. */
  lemma NormalizedIdempotent(input: seq<string>, lower: Lower)
    requires FixesSlugs(lower)
    ensures var out := Dedup(Slugs(input, lower)); Dedup(Slugs(out, lower)) == out
  {
    var slugs := Slugs(input, lower);
    var out := Dedup(slugs);
    DedupContents(slugs);
    forall i | 0 <= i < |out| ensures Slugify(out[i], lower) == out[i] {
      assert out[i] in out;
      if out[i] == DEV {
        assert AreWords([DEV]);
        SlugFixed([DEV], lower);
      } else {
        var j :| 0 <= j < |slugs| && slugs[j] == out[i];
        SlugCanonical(input[j], lower);
      }
    }
    assert Slugs(out, lower) == out;
    DedupFixed(out, |out|);
    assert out[..|out|] == out;
  }
}
