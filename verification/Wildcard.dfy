/** The greedy wildcard matcher and the declarative meaning of its patterns. */
module Wildcard {
  import opened Prelude

  type byte = x: int | 0 <= x < 256

  const STAR: byte := 42
  const QUESTION: byte := 63

  /** `?` matches one byte, `*` any string, every other byte itself. */
  ghost predicate Glob(pattern: seq<byte>, value: seq<byte>) {
    if pattern == [] then value == []
    else if pattern[0] == STAR then exists k :: 0 <= k <= |value| && Glob(pattern[1..], value[k..])
    else value != [] && (pattern[0] == QUESTION || pattern[0] == value[0]) && Glob(pattern[1..], value[1..])
  }

  predicate OnlyStars(pattern: seq<byte>) {
    forall i :: 0 <= i < |pattern| ==> pattern[i] == STAR
  }

  predicate Fits(pattern: seq<byte>, p: nat, value: seq<byte>, v: nat) {
    p < |pattern| && v < |value| && (pattern[p] == QUESTION || pattern[p] == value[v])
  }

  /** The scan from any point: `star` is the last star passed, `retry` where its text began. */
  predicate Scan(pattern: seq<byte>, value: seq<byte>, p: nat, v: nat, star: Option<nat>, retry: nat)
    requires p <= |pattern| && v <= |value| && retry <= v && (star.Some? ==> star.value < p)
    decreases |value| - retry, |pattern| - p
  {
    if v == |value| then OnlyStars(pattern[p..])
    else if Fits(pattern, p, value, v) then Scan(pattern, value, p + 1, v + 1, star, retry)
    else if p < |pattern| && pattern[p] == STAR then Scan(pattern, value, p + 1, v, Some(p), v)
    else if star.Some? then Scan(pattern, value, star.value + 1, retry + 1, star, retry + 1)
    else false
  }

  method WildcardMatches(pattern: seq<byte>, value: seq<byte>) returns (r: bool)
    ensures r <==> Scan(pattern, value, 0, 0, None, 0)
    ensures STAR !in value ==> (r <==> Glob(pattern, value))
  {
    if STAR !in value {
      GreedyIsGlob(pattern, value);
    }
    var p, v, star, retry := 0, 0, None, 0;
    while v < |value|
      invariant 0 <= p <= |pattern| && 0 <= retry <= v <= |value| && (star.Some? ==> 0 <= star.value < p)
      invariant Scan(pattern, value, 0, 0, None, 0) <==> Scan(pattern, value, p, v, star, retry)
      decreases |value| - retry, |pattern| - p
    {
      if p < |pattern| && (pattern[p] == QUESTION || pattern[p] == value[v]) {
        p, v := p + 1, v + 1;
      } else if p < |pattern| && pattern[p] == STAR {
        star := Some(p);
        p := p + 1;
        retry := v;
      } else if star.Some? {
        p := star.value + 1;
        retry := retry + 1;
        v := retry;
      } else {
        return false;
      }
    }
    ghost var rest := p;
    while p < |pattern| && pattern[p] == STAR
      invariant rest <= p <= |pattern| && forall i :: rest <= i < p ==> pattern[i] == STAR
    {
      p := p + 1;
    }
    r := p == |pattern|;
    if !r {
      assert pattern[rest..][p - rest] != STAR;
    }
  }

  // ------------------------------------------------------------------

  lemma StarStep(q: seq<byte>, w: seq<byte>)
    requires q != [] && q[0] == STAR
    ensures Glob(q, w) <==> Glob(q[1..], w) || (w != [] && Glob(q, w[1..]))
  {
    if Glob(q, w) {
      var k :| 0 <= k <= |w| && Glob(q[1..], w[k..]);
      if k == 0 {
        assert w[0..] == w;
      } else {
        assert w[1..][k - 1..] == w[k..];
      }
    }
    if Glob(q[1..], w) {
      assert w[0..] == w;
    }
    if w != [] && Glob(q, w[1..]) {
      var k :| 0 <= k <= |w[1..]| && Glob(q[1..], w[1..][k..]);
      assert w[1..][k..] == w[k + 1..];
    }
  }

  lemma {:induction false} StarAbsorbs(q: seq<byte>, w: seq<byte>, k: nat)
    requires q != [] && q[0] == STAR && k <= |w| && Glob(q, w[k..])
    ensures Glob(q, w)
  {
    if k == 0 {
      assert w[0..] == w;
    } else {
      assert w[k - 1..][1..] == w[k..];
      StarStep(q, w[k - 1..]);
      StarAbsorbs(q, w, k - 1);
    }
  }

  lemma {:induction false} EmptyValue(q: seq<byte>)
    ensures Glob(q, []) <==> OnlyStars(q)
  {
    if q != [] {
      EmptyValue(q[1..]);
      if q[0] == STAR {
        StarStep(q, []);
        assert q == [q[0]] + q[1..];
      }
    }
  }

  /** A star-free stretch of the pattern, matched byte by byte. */
  ghost predicate Stretch(pattern: seq<byte>, s: nat, p: nat, value: seq<byte>, r: nat, v: nat) {
    && s <= p <= |pattern| && r <= v <= |value| && v - r == p - s
    && forall i :: s <= i < p ==> pattern[i] != STAR && (pattern[i] == QUESTION || pattern[i] == value[i - s + r])
  }

  lemma {:induction false} StretchMatches(pattern: seq<byte>, s: nat, p: nat, value: seq<byte>, r: nat, v: nat)
    requires Stretch(pattern, s, p, value, r, v)
    ensures Glob(pattern[s..], value[r..]) <==> Glob(pattern[p..], value[v..])
    decreases p - s
  {
    if s < p {
      assert pattern[s..][0] == pattern[s] && value[r..][0] == value[r];
      assert pattern[s..][1..] == pattern[s + 1..] && value[r..][1..] == value[r + 1..];
      StretchMatches(pattern, s + 1, p, value, r + 1, v);
    }
  }

  /** Wherever the stretch matches, what follows it matches behind it. */
  lemma {:induction false} StretchShifts(pattern: seq<byte>, s: nat, p: nat, value: seq<byte>, k: nat)
    requires s <= p <= |pattern| && k <= |value| && (forall i :: s <= i < p ==> pattern[i] != STAR)
    requires Glob(pattern[s..], value[k..])
    ensures k + (p - s) <= |value| && Glob(pattern[p..], value[k + (p - s)..])
    decreases p - s
  {
    if s < p {
      assert pattern[s..][0] == pattern[s];
      assert pattern[s..][1..] == pattern[s + 1..] && value[k..][1..] == value[k + 1..];
      StretchShifts(pattern, s + 1, p, value, k + 1);
    }
  }

  /** What the scan still has to decide. */
  ghost predicate Residue(pattern: seq<byte>, value: seq<byte>, p: nat, v: nat, star: Option<nat>, retry: nat)
    requires p <= |pattern| && v <= |value| && retry <= v && (star.Some? ==> star.value < p)
  {
    match star
    case None => Glob(pattern[p..], value[v..])
    case Some(s) => Glob(pattern[s..], value[retry..])
  }

  /** With a star behind, only its latest position matters once a new star or the end is reached. */
  lemma StarCommits(pattern: seq<byte>, value: seq<byte>, s: nat, p: nat, retry: nat, v: nat)
    requires s < p <= |pattern| && pattern[s] == STAR && Stretch(pattern, s + 1, p, value, retry, v)
    requires v == |value| || (p < |pattern| && pattern[p] == STAR)
    ensures Glob(pattern[s..], value[retry..]) <==> Glob(pattern[p..], value[v..])
  {
    assert pattern[s..][1..] == pattern[s + 1..];
    StretchMatches(pattern, s + 1, p, value, retry, v);
    StarStep(pattern[s..], value[retry..]);
    if Glob(pattern[s..], value[retry..]) {
      var k :| 0 <= k <= |value[retry..]| && Glob(pattern[s + 1..], value[retry..][k..]);
      assert value[retry..][k..] == value[retry + k..];
      StretchShifts(pattern, s + 1, p, value, retry + k);
      if v < |value| {
        assert value[v..][k..] == value[v + k..];
        StarAbsorbs(pattern[p..], value[v..], k);
      }
    }
  }

  lemma FitsStep(pattern: seq<byte>, value: seq<byte>, p: nat, v: nat)
    requires Fits(pattern, p, value, v) && value[v] != STAR
    ensures Glob(pattern[p..], value[v..]) <==> Glob(pattern[p + 1..], value[v + 1..])
  {
    assert pattern[p..][1..] == pattern[p + 1..] && value[v..][1..] == value[v + 1..];
  }

  /** Where nothing fits, the star has to take one more byte. */
  lemma StarRetries(pattern: seq<byte>, value: seq<byte>, s: nat, p: nat, retry: nat, v: nat)
    requires s < p <= |pattern| && pattern[s] == STAR && Stretch(pattern, s + 1, p, value, retry, v) && v < |value|
    requires !Fits(pattern, p, value, v) && !(p < |pattern| && pattern[p] == STAR)
    ensures Glob(pattern[s..], value[retry..]) <==> Glob(pattern[s..], value[retry + 1..])
  {
    StretchMatches(pattern, s + 1, p, value, retry, v);
    StarStep(pattern[s..], value[retry..]);
    assert pattern[s..][1..] == pattern[s + 1..] && value[retry..][1..] == value[retry + 1..];
  }

  lemma {:induction false} ScanDecidesResidue(pattern: seq<byte>, value: seq<byte>, p: nat, v: nat, star: Option<nat>, retry: nat)
    requires p <= |pattern| && v <= |value| && retry <= v && STAR !in value
    requires star.Some? ==> star.value < p && pattern[star.value] == STAR && Stretch(pattern, star.value + 1, p, value, retry, v)
    ensures Scan(pattern, value, p, v, star, retry) <==> Residue(pattern, value, p, v, star, retry)
    decreases |value| - retry, |pattern| - p
  {
    hide Glob;
    if v == |value| {
      EmptyValue(pattern[p..]);
      assert value[v..] == [];
      if star.Some? {
        StarCommits(pattern, value, star.value, p, retry, v);
      }
    } else if Fits(pattern, p, value, v) {
      assert value[v] in value;
      FitsStep(pattern, value, p, v);
      ScanDecidesResidue(pattern, value, p + 1, v + 1, star, retry);
    } else if p < |pattern| && pattern[p] == STAR {
      ScanDecidesResidue(pattern, value, p + 1, v, Some(p), v);
      if star.Some? {
        StarCommits(pattern, value, star.value, p, retry, v);
      }
    } else if star.Some? {
      var s := star.value;
      StarRetries(pattern, value, s, p, retry, v);
      ScanDecidesResidue(pattern, value, s + 1, retry + 1, star, retry + 1);
    } else {
      NothingFits(pattern, value, p, v);
    }
  }

  lemma NothingFits(pattern: seq<byte>, value: seq<byte>, p: nat, v: nat)
    requires p <= |pattern| && v < |value| && !Fits(pattern, p, value, v) && !(p < |pattern| && pattern[p] == STAR)
    ensures !Glob(pattern[p..], value[v..])
  {
  }

  /** For values without a literal star the greedy matcher decides the declarative relation. */
  lemma GreedyIsGlob(pattern: seq<byte>, value: seq<byte>)
    requires STAR !in value
    ensures Scan(pattern, value, 0, 0, None, 0) <==> Glob(pattern, value)
  {
    ScanDecidesResidue(pattern, value, 0, 0, None, 0);
    assert pattern[0..] == pattern && value[0..] == value;
  }

  // ------------------------------------------------------------------
  // The condition is exact

  lemma {:induction false} StraightScan(pattern: seq<byte>, value: seq<byte>, k: nat)
    requires k <= |value| < |pattern| && forall i :: 0 <= i < |value| ==> Fits(pattern, i, value, i)
    ensures Scan(pattern, value, k, k, None, 0) <==> OnlyStars(pattern[|value|..])
    decreases |value| - k
  {
    if k < |value| {
      StraightScan(pattern, value, k + 1);
    }
  }

  function Questions(n: nat): seq<byte> {
    seq(n, _ => QUESTION)
  }

  lemma {:induction false} QuestionsMatch(value: seq<byte>)
    ensures Glob(Questions(|value|), value)
  {
    if value != [] {
      QuestionsMatch(value[1..]);
      assert Questions(|value|)[1..] == Questions(|value| - 1);
    }
  }

  lemma {:induction false} PrefixMatches(prefix: seq<byte>, pattern: seq<byte>, value: seq<byte>)
    requires STAR !in prefix && Glob(pattern, value)
    ensures Glob(prefix + pattern, prefix + value)
  {
    if prefix == [] {
      assert prefix + pattern == pattern && prefix + value == value;
    } else {
      PrefixMatches(prefix[1..], pattern, value);
      assert (prefix + pattern)[1..] == prefix[1..] + pattern && (prefix + value)[1..] == prefix[1..] + value;
      assert prefix[0] in prefix;
    }
  }

  /** `*` and then a question mark for every byte from the literal star on: the pattern the matcher gets wrong. */
  function Misread(value: seq<byte>, i: nat): seq<byte>
    requires i <= |value|
  {
    value[..i] + ([STAR] + Questions(|value| - i))
  }

  lemma MisreadMatches(value: seq<byte>, i: nat)
    requires i < |value| && value[i] == STAR && STAR !in value[..i]
    ensures Glob(Misread(value, i), value)
  {
    hide Glob;
    var rest := value[i..];
    var tail := [STAR] + Questions(|rest|);
    QuestionsMatch(rest);
    assert tail[1..] == Questions(|rest|) && rest[0..] == rest;
    StarStep(tail, rest);
    PrefixMatches(value[..i], tail, rest);
    assert value[..i] + rest == value;
  }

  lemma MisreadScan(value: seq<byte>, i: nat)
    requires i < |value| && value[i] == STAR && STAR !in value[..i]
    ensures !Scan(Misread(value, i), value, 0, 0, None, 0)
  {
    hide Scan;
    var pattern := Misread(value, i);
    StraightScan(pattern, value, 0);
    assert pattern[|value|..][0] == QUESTION;
  }

  /** The matcher is right for every pattern if and only if the value has no literal star. */
  lemma GreedyIsGlobExactly(value: seq<byte>)
    ensures (forall pattern :: Scan(pattern, value, 0, 0, None, 0) <==> Glob(pattern, value)) <==> STAR !in value
  {
    hide Scan, Glob;
    if STAR in value {
      var i := FirstStar(value);
      MisreadMatches(value, i);
      MisreadScan(value, i);
      var pattern := Misread(value, i);
      assert Glob(pattern, value) && !Scan(pattern, value, 0, 0, None, 0);
    } else {
      forall pattern ensures Scan(pattern, value, 0, 0, None, 0) <==> Glob(pattern, value) {
        GreedyIsGlob(pattern, value);
      }
    }
  }

  function FirstStar(value: seq<byte>): (i: nat)
    requires STAR in value
    ensures i < |value| && value[i] == STAR && STAR !in value[..i]
  {
    if value[0] == STAR then 0
    else
      assert value == [value[0]] + value[1..];
      var i := FirstStar(value[1..]) + 1;
      assert value[..i] == [value[0]] + value[1..][..i - 1];
      i
  }
}
