/** Strings of bits, most significant first, and the numbers they write. */
module BitStrings {

  function Power2(n: nat): (r: nat)
    ensures r > 0
  {
    if n == 0 then 1 else 2 * Power2(n - 1)
  }

  lemma PowersOfTwo()
    ensures Power2(8) == 0x100
  {
    assert Power2(4) == 0x10;
    assert Power2(6) == 0x40;
  }

  /** The n low bits of a number. */
  function BitsOf(x: nat, n: nat): (r: seq<bool>)
    ensures |r| == n
    decreases n
  {
    if n == 0 then [] else BitsOf(x / 2, n - 1) + [x % 2 == 1]
  }

  function Value(e: seq<bool>): (r: nat)
    ensures r < Power2(|e|)
  {
    if e == [] then 0 else 2 * Value(e[..|e| - 1]) + if e[|e| - 1] then 1 else 0
  }

  lemma {:induction false} ValueOfBitsOf(x: nat, n: nat)
    requires x < Power2(n)
    ensures Value(BitsOf(x, n)) == x
    decreases n
  {
    if n > 0 {
      ValueOfBitsOf(x / 2, n - 1);
      assert BitsOf(x, n)[..n - 1] == BitsOf(x / 2, n - 1);
    }
  }

  lemma {:induction false} BitsOfValue(e: seq<bool>)
    ensures BitsOf(Value(e), |e|) == e
  {
    if e != [] {
      BitsOfValue(e[..|e| - 1]);
      assert e == e[..|e| - 1] + [e[|e| - 1]];
    }
  }

  lemma ValueInjective(e: seq<bool>, f: seq<bool>)
    requires |e| == |f| && Value(e) == Value(f)
    ensures e == f
  {
    BitsOfValue(e);
    BitsOfValue(f);
  }

  lemma BitsOfInjective(x: nat, y: nat, n: nat)
    requires x < Power2(n) && y < Power2(n) && BitsOf(x, n) == BitsOf(y, n)
    ensures x == y
  {
    ValueOfBitsOf(x, n);
    ValueOfBitsOf(y, n);
  }
}
