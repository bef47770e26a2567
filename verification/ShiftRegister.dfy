/** A register that takes a string of bits one at a time.  Nothing here depends on what
    the register is: the lemmas hold for every step function with the property they
    require.
  */
module ShiftRegister {

  /** The register after it has taken all the bits, first bit first. */
  function Feed<R>(step: (R, bool) -> R, c: R, bits: seq<bool>): R
    decreases |bits|
  {
    if bits == [] then c else Feed(step, step(c, bits[0]), bits[1..])
  }

  /** The places where two equally long bit strings differ. */
  function Difference(m: seq<bool>, n: seq<bool>): (r: seq<bool>)
    requires |m| == |n|
    ensures |r| == |m|
    ensures forall i :: 0 <= i < |m| ==> r[i] == (m[i] != n[i])
  {
    seq(|m|, i requires 0 <= i < |m| => m[i] != n[i])
  }

  predicate AllZero(e: seq<bool>) {
    forall i :: 0 <= i < |e| ==> !e[i]
  }

  /** Is the number of one bits odd? */
  function Odd(e: seq<bool>): bool
    decreases |e|
  {
    e != [] && e[0] != Odd(e[1..])
  }

  lemma {:induction false} FeedAppend<R>(step: (R, bool) -> R, c: R, m: seq<bool>, n: seq<bool>)
    ensures Feed(step, c, m + n) == Feed(step, Feed(step, c, m), n)
    decreases |m|
  {
    if m == [] {
      assert m + n == n;
    } else {
      assert (m + n)[1..] == m[1..] + n;
      FeedAppend(step, step(c, m[0]), m[1..], n);
    }
  }

  lemma {:induction false} FeedIsLinear<R(!new)>(
    step: (R, bool) -> R, xor: (R, R) -> R, c: R, d: R, m: seq<bool>, n: seq<bool>)
    requires |m| == |n|
    requires forall c, d, x, y :: step(xor(c, d), x != y) == xor(step(c, x), step(d, y))
    ensures Feed(step, xor(c, d), Difference(m, n)) == xor(Feed(step, c, m), Feed(step, d, n))
    decreases |m|
  {
    if m == [] {
    } else {
      assert Difference(m, n)[1..] == Difference(m[1..], n[1..]);
      FeedIsLinear(step, xor, step(c, m[0]), step(d, n[0]), m[1..], n[1..]);
    }
  }

  lemma {:induction false} FeedKeepsZero<R>(step: (R, bool) -> R, zero: R, e: seq<bool>)
    requires AllZero(e)
    requires step(zero, false) == zero
    ensures Feed(step, zero, e) == zero
    decreases |e|
  {
    if e != [] {
      FeedKeepsZero(step, zero, e[1..]);
    }
  }

  lemma {:induction false} FeedKeepsNonzero<R(!new)>(step: (R, bool) -> R, zero: R, c: R, e: seq<bool>)
    requires AllZero(e)
    requires forall d :: step(d, false) == zero ==> d == zero
    requires c != zero
    ensures Feed(step, c, e) != zero
    decreases |e|
  {
    if e != [] {
      FeedKeepsNonzero(step, zero, step(c, false), e[1..]);
    }
  }

  lemma {:induction false} FeedFlipsParity<R(!new)>(
    step: (R, bool) -> R, parity: R -> bool, c: R, m: seq<bool>)
    requires forall d, x :: parity(step(d, x)) == (parity(d) != x)
    ensures parity(Feed(step, c, m)) == (parity(c) != Odd(m))
    decreases |m|
  {
    if m != [] {
      FeedFlipsParity(step, parity, step(c, m[0]), m[1..]);
    }
  }

  /** A property indexed by the number of bits taken, kept by every step. */
  lemma {:induction false} FeedAdvances<R(!new)>(
    step: (R, bool) -> R, holds: (int, R) -> bool, limit: nat, k: nat, c: R, w: seq<bool>)
    requires forall j, d, x {:trigger holds(j, d), step(d, x)} :: 0 <= j < limit && holds(j, d) ==> holds(j + 1, step(d, x))
    requires k + |w| <= limit && holds(k, c)
    ensures holds(k + |w|, Feed(step, c, w))
    decreases |w|
  {
    if w != [] {
      assert holds(k, c) && step(c, w[0]) == step(c, w[0]);
      FeedAdvances(step, holds, limit, k + 1, step(c, w[0]), w[1..]);
    }
  }

  lemma {:induction false} OddOfDifference(m: seq<bool>, n: seq<bool>)
    requires |m| == |n|
    ensures Odd(Difference(m, n)) == (Odd(m) != Odd(n))
    decreases |m|
  {
    if m != [] {
      assert Difference(m, n)[1..] == Difference(m[1..], n[1..]);
      OddOfDifference(m[1..], n[1..]);
    }
  }

  lemma FeedEight<R>(step: (R, bool) -> R, c: R, e: seq<bool>)
    requires |e| == 8
    ensures Feed(step, c, e) ==
      step(step(step(step(step(step(step(step(c, e[0]), e[1]), e[2]), e[3]), e[4]), e[5]), e[6]), e[7])
  {
    assert e == [e[0], e[1], e[2], e[3]] + [e[4], e[5], e[6], e[7]];
    FeedAppend(step, c, [e[0], e[1], e[2], e[3]], [e[4], e[5], e[6], e[7]]);
    FeedFour(step, c, e[0], e[1], e[2], e[3]);
    FeedFour(step, Feed(step, c, [e[0], e[1], e[2], e[3]]), e[4], e[5], e[6], e[7]);
  }

  lemma FeedFour<R>(step: (R, bool) -> R, c: R, p: bool, q: bool, r: bool, s: bool)
    ensures Feed(step, c, [p, q, r, s]) == step(step(step(step(c, p), q), r), s)
  {
    FeedAppend(step, c, [p, q], [r, s]);
    assert [p, q] + [r, s] == [p, q, r, s];
    FeedTwo(step, c, p, q);
    FeedTwo(step, step(step(c, p), q), r, s);
  }

  lemma FeedTwo<R>(step: (R, bool) -> R, c: R, p: bool, q: bool)
    ensures Feed(step, c, [p, q]) == step(step(c, p), q)
  {
    assert [p, q][1..] == [q];
    assert Feed(step, step(c, p), [q]) == step(step(c, p), q);
  }

  /** The strings whose one bits exist and all lie in the n places from i on. */
  predicate Burst(e: seq<bool>, i: nat, n: nat) {
    && i + n <= |e|
    && !AllZero(e)
    && forall j :: 0 <= j < |e| && e[j] ==> i <= j < i + n
  }

  /** The cleared register ends nonzero after a burst if it does after every short
      string that starts with a one. */
  lemma FeedOfBurst<R(!new)>(step: (R, bool) -> R, zero: R, e: seq<bool>, i: nat, n: nat)
    requires Burst(e, i, n)
    requires step(zero, false) == zero
    requires forall d :: step(d, false) == zero ==> d == zero
    requires forall w :: 0 < |w| <= n && w[0] ==> Feed(step, zero, w) != zero
    ensures Feed(step, zero, e) != zero
  {
    var j := FirstOne(e);
    var w := e[j..i + n];
    FeedKeepsZero(step, zero, e[..j]);
    FeedAppend(step, zero, e[..j], w);
    FeedAppend(step, zero, e[..i + n], e[i + n..]);
    assert e[..j] + w == e[..i + n] && e[..i + n] + e[i + n..] == e;
    FeedKeepsNonzero(step, zero, Feed(step, zero, w), e[i + n..]);
  }

  lemma FirstOne(e: seq<bool>) returns (j: nat)
    requires !AllZero(e)
    ensures j < |e| && e[j] && AllZero(e[..j])
  {
    j := 0;
    while !e[j]
      invariant j < |e| && AllZero(e[..j])
      invariant exists k :: j <= k < |e| && e[k]
      decreases |e| - j
    {
      j := j + 1;
    }
  }

  lemma {:induction false} OddAppend(m: seq<bool>, n: seq<bool>)
    ensures Odd(m + n) == (Odd(m) != Odd(n))
    decreases |m|
  {
    if m == [] {
      assert m + n == n;
    } else {
      assert (m + n)[1..] == m[1..] + n;
      OddAppend(m[1..], n);
    }
  }

  lemma OddFrom(e: seq<bool>, i: nat)
    requires i < |e|
    ensures Odd(e[i..]) == (e[i] != Odd(e[i + 1..]))
  {
    assert e[i..][1..] == e[i + 1..];
  }

  lemma OddOfEight(e: seq<bool>)
    requires |e| == 8
    ensures Odd(e) == (((e[0] != e[1]) != (e[2] != e[3])) != ((e[4] != e[5]) != (e[6] != e[7])))
  {
    assert e[0..] == e && !Odd(e[8..]);
    OddFrom(e, 0);
    OddFrom(e, 1);
    OddFrom(e, 2);
    OddFrom(e, 3);
    OddFrom(e, 4);
    OddFrom(e, 5);
    OddFrom(e, 6);
    OddFrom(e, 7);
  }

  /** Two strings that differ only in the middle differ by a burst there. */
  lemma DifferenceIsBurst(e: seq<bool>, f: seq<bool>)
    requires |e| == |f| && e != f
    ensures Burst(Difference(e, f), 0, |e|)
  {
    var j :| 0 <= j < |e| && e[j] != f[j];
    assert Difference(e, f)[j];
  }

  lemma MiddleBurst(p: seq<bool>, e: seq<bool>, f: seq<bool>, q: seq<bool>)
    requires |e| == |f| && e != f
    ensures Burst(Difference(p + e + q, p + f + q), |p|, |e|)
  {
    var d := Difference(p + e + q, p + f + q);
    var j :| 0 <= j < |e| && e[j] != f[j];
    assert d[|p| + j];
  }
}
