/** Integers as little-endian bytes.

    A byte is its unsigned reading; Java's short, int and long are mathematical integers
    within their ranges, and their bytes are the base-256 digits of the two's complement.
  */
module BitConverter {
  type byte = x: int | 0 <= x < 256

  datatype Result<+T> = Ok(value: T) | TooShort

  function Power256(n: nat): (r: nat)
    ensures r > 0
  {
    if n == 0 then 1 else 256 * Power256(n - 1)
  }

  /** The low byte of an integer: Java's narrowing to `byte`. */
  function LowByte(x: int): byte {
    x % 256
  }

  /** The n low bytes of an integer, least significant first. */
  function LittleEndian(x: int, n: nat): (r: seq<byte>)
    ensures |r| == n
    decreases n
  {
    if n == 0 then [] else [LowByte(x)] + LittleEndian(x / 256, n - 1)
  }

  function Unsigned(bytes: seq<byte>): (r: nat)
    ensures r < Power256(|bytes|)
  {
    if bytes == [] then 0 else (bytes[0] as int) + 256 * Unsigned(bytes[1..])
  }

  /** The two's complement reading. */
  function Signed(bytes: seq<byte>): int {
    var u := Unsigned(bytes);
    if 2 * u < Power256(|bytes|) then u else u - Power256(|bytes|)
  }

  predicate Fits(x: int, n: nat) {
    0 <= 2 * x + Power256(n) < 2 * Power256(n)
  }

  lemma {:induction false} UnsignedOfLittleEndian(x: int, n: nat)
    ensures Unsigned(LittleEndian(x, n)) == x % Power256(n)
    decreases n
  {
    if n > 0 {
      UnsignedOfLittleEndian(x / 256, n - 1);
      assert LittleEndian(x, n)[1..] == LittleEndian(x / 256, n - 1);
      DigitSplit(x, Power256(n - 1));
    }
  }

  lemma DigitSplit(x: int, p: nat)
    requires p > 0
    ensures x % (256 * p) == x % 256 + 256 * ((x / 256) % p)
  {
    var q, d := x / 256, x % 256;
    var r := q % p;
    assert q == p * (q / p) + r;
    assert x == (256 * p) * (q / p) + (256 * r + d) by {
      assert 256 * (p * (q / p)) == (256 * p) * (q / p);
    }
    RemainderIs(x, 256 * p, q / p, 256 * r + d);
  }

  lemma RemainderIs(x: int, m: nat, k: int, r: nat)
    requires r < m && x == m * k + r
    ensures x % m == r
  {
    var k', r' := x / m, x % m;
    MultipleIsFar(m, k - k');
  }

  lemma MultipleIsFar(m: int, k: int)
    ensures k == 0 || m <= 0 || m * k >= m || m * k <= -m
  {
    if k > 0 && m > 0 {
      assert m * (k - 1) >= 0;
    } else if k < 0 && m > 0 {
      assert m * (-k - 1) >= 0;
    }
  }

  /** Writing an integer as bytes and reading them back gives the integer, for every
      width and every integer of that width. */
  lemma RoundTrip(x: int, n: nat)
    requires Fits(x, n)
    ensures Signed(LittleEndian(x, n)) == x
  {
    UnsignedOfLittleEndian(x, n);
    var p := Power256(n);
    if x >= 0 {
      RemainderIs(x, p, 0, x);
    } else {
      RemainderIs(x, p, -1, x + p);
    }
  }

  /** And reading bytes as an integer loses nothing. */
  lemma {:induction false} LittleEndianOfUnsigned(bytes: seq<byte>)
    ensures LittleEndian(Unsigned(bytes), |bytes|) == bytes
  {
    if bytes != [] {
      var u := Unsigned(bytes);
      assert u % 256 == bytes[0] && u / 256 == Unsigned(bytes[1..]);
      LittleEndianOfUnsigned(bytes[1..]);
    }
  }

  // ---------- the program's conversions ----------

  function Reversed(s: seq<byte>): (r: seq<byte>)
    ensures |r| == |s|
    ensures forall i :: 0 <= i < |s| ==> r[i] == s[|s| - 1 - i]
  {
    seq(|s|, i requires 0 <= i < |s| => s[|s| - 1 - i])
  }

  /** Swaps the ends of the array inwards. */
  method Reverse(data: array<byte>)
    modifies data
    ensures data[..] == Reversed(old(data[..]))
  {
    var l := data.Length;
    var hl := l / 2;
    var idx, ridx := 0, l - 1;
    while idx < hl
      invariant 0 <= idx <= hl && ridx == l - 1 - idx
      invariant forall k :: 0 <= k < idx || ridx < k < l ==> data[k] == old(data[l - 1 - k])
      invariant forall k :: idx <= k <= ridx ==> data[k] == old(data[k])
    {
      var b := data[idx];
      data[idx] := data[ridx];
      data[ridx] := b;
      idx := idx + 1;
      ridx := ridx - 1;
    }
  }

  method GetBytesShort(x: int) returns (r: array<byte>)
    ensures fresh(r) && r[..] == LittleEndian(x, 2)
  {
    r := new byte[2];
    r[0], r[1] := LowByte(x / 256), LowByte(x);
    Reverse(r);
    assert r[..] == [LowByte(x)] + ([LowByte(x / 256)] + LittleEndian(x / 256 / 256, 0));
  }

  method GetBytesInt(x: int) returns (r: array<byte>)
    ensures fresh(r) && r[..] == LittleEndian(x, 4)
  {
    r := new byte[4];
    r[0], r[1], r[2], r[3] := LowByte(x / 0x100_0000), LowByte(x / 0x1_0000), LowByte(x / 0x100), LowByte(x);
    Reverse(r);
    FourDigits(x);
    assert r[..] == [LowByte(x), LowByte(x / 0x100), LowByte(x / 0x1_0000), LowByte(x / 0x100_0000)];
  }

  lemma FourDigits(x: int)
    ensures LittleEndian(x, 4) == [LowByte(x), LowByte(x / 0x100), LowByte(x / 0x1_0000), LowByte(x / 0x100_0000)]
  {
    assert LittleEndian(x, 4) == [LowByte(x)] + LittleEndian(x / 256, 3);
    assert LittleEndian(x / 256, 3) == [LowByte(x / 256)] + LittleEndian(x / 256 / 256, 2);
    assert LittleEndian(x / 0x1_0000, 2) == [LowByte(x / 0x1_0000)] + LittleEndian(x / 0x1_0000 / 256, 1);
    assert x / 256 / 256 == x / 0x1_0000 && x / 0x1_0000 / 256 == x / 0x100_0000;
    assert LittleEndian(x / 0x100_0000, 1) == [LowByte(x / 0x100_0000)] + LittleEndian(x / 0x100_0000 / 256, 0);
  }

  lemma {:induction false} LittleEndianSplits(x: int, n: nat, k: nat)
    ensures LittleEndian(x, n + k) == LittleEndian(x, n) + LittleEndian(x / Power256(n), k)
    decreases n
  {
    if n > 0 {
      LittleEndianSplits(x / 256, n - 1, k);
      DivideTwice(x, Power256(n - 1));
    } else {
      assert LittleEndian(x, 0) == [];
    }
  }

  lemma DivideTwice(x: int, p: nat)
    requires p > 0
    ensures x / 256 / p == x / (256 * p)
  {
    var q := x / 256 / p;
    var r := x / 256 % p;
    assert x / 256 == p * q + r;
    assert 256 * (p * q) == (256 * p) * q;
    QuotientIs(x, 256 * p, q, 256 * r + x % 256);
  }

  lemma QuotientIs(x: int, m: nat, k: int, r: nat)
    requires r < m && x == m * k + r
    ensures x / m == k
  {
    RemainderIs(x, m, k, r);
    MultipleIsFar(m, k - x / m);
  }

  method GetBytesLong(x: int) returns (r: array<byte>)
    ensures fresh(r) && r[..] == LittleEndian(x, 8)
  {
    var high := x / 0x1_0000_0000;
    r := new byte[8];
    r[0], r[1], r[2], r[3] := LowByte(high / 0x100_0000), LowByte(high / 0x1_0000), LowByte(high / 0x100), LowByte(high);
    r[4], r[5], r[6], r[7] := LowByte(x / 0x100_0000), LowByte(x / 0x1_0000), LowByte(x / 0x100), LowByte(x);
    ghost var was := r[..];
    Reverse(r);
    EightDigits(x, high);
    assert Reversed(was) == [LowByte(x), LowByte(x / 0x100), LowByte(x / 0x1_0000), LowByte(x / 0x100_0000),
                     LowByte(high), LowByte(high / 0x100), LowByte(high / 0x1_0000), LowByte(high / 0x100_0000)];
  }

  lemma EightDigits(x: int, high: int)
    requires high == x / 0x1_0000_0000
    ensures LittleEndian(x, 8) ==
      [LowByte(x), LowByte(x / 0x100), LowByte(x / 0x1_0000), LowByte(x / 0x100_0000),
       LowByte(high), LowByte(high / 0x100), LowByte(high / 0x1_0000), LowByte(high / 0x100_0000)]
  {
    LittleEndianSplits(x, 4, 4);
    FourDigits(x);
    FourDigits(high);
    PowersOf256();
  }

  lemma PowersOf256()
    ensures Power256(2) == 0x1_0000
    ensures Power256(4) == 0x1_0000_0000
    ensures Power256(8) == 0x1_0000_0000_0000_0000
  {
    assert Power256(1) == 0x100;
    assert Power256(3) == 0x100_0000;
    assert Power256(5) == 0x100_0000_0000;
    assert Power256(6) == 0x1_0000_0000_0000;
    assert Power256(7) == 0x100_0000_0000_0000;
  }

  lemma UnsignedOfTwo(s: seq<byte>)
    requires |s| == 2
    ensures Unsigned(s) == s[0] as int + 0x100 * (s[1] as int)
  {
    assert s[1..] == [s[1]];
    assert Unsigned(s[1..]) == s[1] as int;
  }

  lemma UnsignedOfFour(s: seq<byte>)
    requires |s| == 4
    ensures Unsigned(s) == s[0] as int + 0x100 * (s[1] as int) + 0x1_0000 * (s[2] as int) + 0x100_0000 * (s[3] as int)
  {
    assert s[1..][1..] == s[2..];
    assert Unsigned(s[1..]) == s[1] as int + 0x100 * Unsigned(s[2..]);
    UnsignedOfTwo(s[2..]);
  }

  /** Two bytes from `index` on as a signed integer; too few bytes is an error. */
  method ToInt16(bytes: array<byte>, index: nat) returns (r: Result<int>)
    ensures r == if bytes.Length < index + 2 then TooShort else Ok(Signed(bytes[index..index + 2]))
  {
    if bytes.Length < index + 2 {
      return TooShort;
    }
    UnsignedOfTwo(bytes[index..index + 2]);
    PowersOf256();
    var u := bytes[index] as int + 0x100 * (bytes[index + 1] as int);
    return Ok(if u < 0x8000 then u else u - 0x1_0000);
  }

  method ToInt32(bytes: array<byte>, index: nat) returns (r: Result<int>)
    ensures r == if bytes.Length < index + 4 then TooShort else Ok(Signed(bytes[index..index + 4]))
  {
    if bytes.Length < index + 4 {
      return TooShort;
    }
    UnsignedOfFour(bytes[index..index + 4]);
    PowersOf256();
    var u := bytes[index] as int + 0x100 * (bytes[index + 1] as int) +
             0x1_0000 * (bytes[index + 2] as int) + 0x100_0000 * (bytes[index + 3] as int);
    return Ok(if u < 0x8000_0000 then u else u - 0x1_0000_0000);
  }

  lemma UnsignedOfEight(s: seq<byte>)
    requires |s| == 8
    ensures Unsigned(s) == Unsigned(s[..4]) + 0x1_0000_0000 * Unsigned(s[4..])
  {
    assert s[1..][1..] == s[2..] && s[2..][1..] == s[3..] && s[3..][1..] == s[4..];
    assert Unsigned(s[1..]) == s[1] as int + 0x100 * Unsigned(s[2..]);
    assert Unsigned(s[2..]) == s[2] as int + 0x100 * Unsigned(s[3..]);
    assert Unsigned(s[3..]) == s[3] as int + 0x100 * Unsigned(s[4..]);
    UnsignedOfFour(s[..4]);
  }

  /** Eight bytes: the program joins the bytes by shifting and or-ing, which adds here as
      no two of them share a place. */
  method ToInt64(bytes: array<byte>, index: nat) returns (r: Result<int>)
    ensures r == if bytes.Length < index + 8 then TooShort else Ok(Signed(bytes[index..index + 8]))
  {
    if bytes.Length < index + 8 {
      return TooShort;
    }
    ghost var s := bytes[index..index + 8];
    UnsignedOfEight(s);
    UnsignedOfFour(s[..4]);
    UnsignedOfFour(s[4..]);
    PowersOf256();
    var low := bytes[index] as int + 0x100 * (bytes[index + 1] as int) +
               0x1_0000 * (bytes[index + 2] as int) + 0x100_0000 * (bytes[index + 3] as int);
    var high := bytes[index + 4] as int + 0x100 * (bytes[index + 5] as int) +
                0x1_0000 * (bytes[index + 6] as int) + 0x100_0000 * (bytes[index + 7] as int);
    var u := low + 0x1_0000_0000 * high;
    return Ok(if u < 0x8000_0000_0000_0000 then u else u - 0x1_0000_0000_0000_0000);
  }
}
