/** The signed payload of internal/sshauth: what a signature pins down about a request. */
module Payload {
  import opened Wrappers
  import Text

  /** hex(sha256(body)), left abstract: 64 characters. */
  type Sha256Hex = Bytes -> string

  ghost predicate IsSha256Hex(hash: Sha256Hex) {
    forall body :: |hash(body)| == 64
  }

  function CanonicalPayload(meth: string, path: string, timestamp: string, hash: string): string {
    meth + "\n" + path + "\n" + timestamp + "\n" + hash
  }

  /** Equal strings cut at the first occurrence of `c` have equal parts. */
  lemma CutAtFirst(a: string, x: string, b: string, y: string, c: char)
    requires c !in a && c !in b && a + [c] + x == b + [c] + y
    ensures a == b && x == y
  {
    var s := a + [c] + x;
    FirstIsNotInside(a, x, b, y, c);
    FirstIsNotInside(b, y, a, x, c);
    assert a == s[..|a|] && b == s[..|b|] && x == s[|a| + 1..] && y == s[|b| + 1..];
  }

  lemma Before(b: string, c: char, y: string, i: int)
    requires 0 <= i < |b| && c !in b
    ensures (b + [c] + y)[i] != c
  {
  }

  lemma After(y: string, c: char, b: string, i: int)
    requires |y| < i < |y| + 1 + |b| && c !in b
    ensures (y + [c] + b)[i] != c
  {
  }

  lemma FirstIsNotInside(a: string, x: string, b: string, y: string, c: char)
    requires c !in b && a + [c] + x == b + [c] + y
    ensures |a| >= |b|
  {
    assert (a + [c] + x)[|a|] == c;
    if |a| < |b| { Before(b, c, y, |a|); }
  }

  /** Likewise for the last occurrence. */
  lemma CutAtLast(x: string, a: string, y: string, b: string, c: char)
    requires c !in a && c !in b && x + [c] + a == y + [c] + b
    ensures a == b && x == y
  {
    var s := x + [c] + a;
    LastIsNotInside(x, a, y, b, c);
    LastIsNotInside(y, b, x, a, c);
    assert x == s[..|x|] && y == s[..|y|] && a == s[|x| + 1..] && b == s[|y| + 1..];
  }

  lemma LastIsNotInside(x: string, a: string, y: string, b: string, c: char)
    requires c !in b && x + [c] + a == y + [c] + b
    ensures |x| <= |y|
  {
    assert (x + [c] + a)[|x|] == c;
    assert |x + [c] + a| == |y + [c] + b|;
    if |x| > |y| { After(y, c, b, |x|); }
  }

  /** The payload determines method, path, timestamp and body hash, even if paths contain newlines. */
  lemma PayloadInjective(
    m1: string, p1: string, t1: string, h1: string,
    m2: string, p2: string, t2: string, h2: string)
    requires '\n' !in m1 && '\n' !in m2 && '\n' !in t1 && '\n' !in t2 && |h1| == |h2|
    ensures CanonicalPayload(m1, p1, t1, h1) == CanonicalPayload(m2, p2, t2, h2) <==>
            m1 == m2 && p1 == p2 && t1 == t2 && h1 == h2
  {
    if CanonicalPayload(m1, p1, t1, h1) == CanonicalPayload(m2, p2, t2, h2) {
      var front1, front2 := m1 + "\n" + p1, m2 + "\n" + p2;
      Split(front1 + "\n" + t1 + "\n", h1, front2 + "\n" + t2 + "\n", h2);
      Split(front1 + "\n" + t1, "\n", front2 + "\n" + t2, "\n");
      CutAtLast(front1, t1, front2, t2, '\n');
      CutAtFirst(m1, p1, m2, p2, '\n');
    }
  }

  lemma Split(x: string, a: string, y: string, b: string)
    requires x + a == y + b && |a| == |b|
    ensures x == y && a == b
  {
    assert x == (x + a)[..|x|] && y == (y + b)[..|y|];
    assert a == (x + a)[|x|..] && b == (y + b)[|y|..];
  }

  // ---- Verifying a request ----------------------------------------------------------------

  const MAX_SKEW_NS: int := 5 * 60 * 1_000_000_000

  datatype VerifyError = BadTimestamp | ExpiredRequest | MalformedSignature | BadSignature

  /** time.Parse(time.RFC3339, ...) to nanoseconds, left abstract; timestamps contain no newline. */
  type ParseTime = string -> Option<int>

  ghost predicate IsParseTime(parse: ParseTime) {
    forall t | parse(t).Some? :: '\n' !in t
  }

  /** A public key, as the predicate that tells which signatures it accepts for which payloads. */
  type PublicKey<!Sig> = (string, Sig) -> bool

  /** Verify at time `now`; an undecodable signature is None. */
  function Verify<Sig>(key: PublicKey<Sig>, hash: Sha256Hex, parse: ParseTime, now: int,
                       meth: string, path: string, timestamp: string, sig: Option<Sig>, body: Bytes): Option<VerifyError>
  {
    match parse(timestamp)
    case None => Some(BadTimestamp)
    case Some(ts) =>
      if now - ts > MAX_SKEW_NS || now - ts < -MAX_SKEW_NS then Some(ExpiredRequest)
      else if sig.None? then Some(MalformedSignature)
      else if !key(CanonicalPayload(meth, path, timestamp, hash(body)), sig.value) then Some(BadSignature)
      else None
  }

  /** Which check fails first; five minutes are 300 seconds, either way. */
  lemma VerifyCases<Sig>(key: PublicKey<Sig>, hash: Sha256Hex, parse: ParseTime, now: int,
                         meth: string, path: string, timestamp: string, sig: Option<Sig>, body: Bytes)
    ensures var r, ts := Verify(key, hash, parse, now, meth, path, timestamp, sig, body), parse(timestamp);
            && (r == Some(BadTimestamp) <==> ts.None?)
            && (r == Some(ExpiredRequest) <==> ts.Some? && !(-300_000_000_000 <= now - ts.value <= 300_000_000_000))
            && (r == Some(MalformedSignature) <==>
                  ts.Some? && -300_000_000_000 <= now - ts.value <= 300_000_000_000 && sig.None?)
            && (r.None? <==>
                  && ts.Some? && -300_000_000_000 <= now - ts.value <= 300_000_000_000
                  && sig.Some? && key(CanonicalPayload(meth, path, timestamp, hash(body)), sig.value))
  {
  }

  predicate PlainLine(x: string) {
    '\n' !in x && '\r' !in x
  }

  lemma FirstPlainLine(x: string, rest: string)
    requires PlainLine(x)
    ensures Text.Lines(x + ['\n'] + rest) == [x] + Text.Lines(rest)
  {
    Text.FirstLine(x, rest);
    NothingToDrop(x);
  }

  lemma NothingToDrop(x: string)
    requires PlainLine(x)
    ensures Text.DropCR(x) == x
  {
  }

  /** The payload is four lines: method, path, timestamp and body hash. */
  lemma {:induction false} PayloadLines(meth: string, path: string, timestamp: string, hash: string)
    requires PlainLine(meth) && PlainLine(path) && PlainLine(timestamp) && PlainLine(hash) && hash != ""
    ensures Text.Lines(CanonicalPayload(meth, path, timestamp, hash)) == [meth, path, timestamp, hash]
  {
    Nested(meth, path, timestamp, hash);
    FourLines(meth, path, timestamp, hash);
  }

  lemma Nested(meth: string, path: string, timestamp: string, hash: string)
    ensures CanonicalPayload(meth, path, timestamp, hash) ==
            meth + ['\n'] + (path + ['\n'] + (timestamp + ['\n'] + hash))
  {
  }

  lemma {:induction false} LastPlainLine(d: string)
    requires PlainLine(d) && d != ""
    ensures Text.Lines(d) == [d]
  {
    Text.LastLine(d);
    NothingToDrop(d);
  }

  lemma {:induction false} MoreLines(x: string, rest: string, lines: seq<string>)
    requires PlainLine(x) && Text.Lines(rest) == lines
    ensures Text.Lines(x + ['\n'] + rest) == [x] + lines
  {
    FirstPlainLine(x, rest);
  }

  lemma {:induction false} FourLines(a: string, b: string, c: string, d: string)
    requires PlainLine(a) && PlainLine(b) && PlainLine(c) && PlainLine(d) && d != ""
    ensures Text.Lines(a + ['\n'] + (b + ['\n'] + (c + ['\n'] + d))) == [a] + ([b] + ([c] + [d]))
  {
    LastPlainLine(d);
    MoreLines(c, d, [d]);
    MoreLines(b, c + ['\n'] + d, [c] + [d]);
    MoreLines(a, b + ['\n'] + (c + ['\n'] + d), [b] + ([c] + [d]));
  }

  /** If a signature is good for one request's payload only, Verify accepts it for a request exactly
      if that has the same method, path, timestamp and body hash and comes within five minutes. */
  lemma AcceptedIffSame<Sig>(key: PublicKey<Sig>, hash: Sha256Hex, parse: ParseTime, now: int, sig: Sig,
                             m0: string, p0: string, t0: string, b0: Bytes,
                             meth: string, path: string, timestamp: string, body: Bytes)
    requires IsSha256Hex(hash) && IsParseTime(parse) && '\n' !in m0 && '\n' !in meth && parse(t0).Some?
    requires forall p :: key(p, sig) <==> p == CanonicalPayload(m0, p0, t0, hash(b0))
    ensures Verify(key, hash, parse, now, meth, path, timestamp, Some(sig), body).None? <==>
            meth == m0 && path == p0 && timestamp == t0 && hash(body) == hash(b0)
            && -MAX_SKEW_NS <= now - parse(t0).value <= MAX_SKEW_NS
  {
    if parse(timestamp).Some? {
      PayloadInjective(meth, path, timestamp, hash(body), m0, p0, t0, hash(b0));
    }
  }
}
