/**
 The filler key material of seeded nodes (nns/seed.go, uniqueBytes): a fixed prefix and a salt
 in eight little-endian bytes. Two salts give the same bytes only when they agree modulo 2^64.
 */
module UniqueBytes {
  import Registry

  function Pow256(n: nat): (p: nat)
    ensures p > 0
  {
    if n == 0 then 1 else 256 * Pow256(n - 1)
  }

  /** The low n bytes of x, least significant first. */
  function LittleEndian(x: int, n: nat): (b: Registry.Bytes)
    ensures |b| == n
    decreases n, x
  {
    if n == 0 then [] else [x % 256] + LittleEndian(x / 256, n - 1)
  }

  lemma DivideTwice(x: int, p: nat)
    requires p > 0
    ensures (x / 256) / p == x / (256 * p)
  {
    var d := 256 * p;
    var q, r := x / d, x % d;
    assert x == d * q + r;
    assert d * q == 256 * (p * q);
    assert x / 256 == p * q + r / 256;
    assert 0 <= r / 256 < p;
    QuotientUnique(p * q + r / 256, p, q, r / 256);
  }

  /** A positive multiple of p is at least p. */
  lemma PositiveMultiple(p: int, m: nat)
    requires p > 0 && m >= 1
    ensures p * m >= p
  {
  }

  lemma QuotientUnique(x: int, p: nat, q: int, r: int)
    requires p > 0 && x == p * q + r && 0 <= r < p
    ensures x / p == q && x % p == r
  {
    var q', r' := x / p, x % p;
    assert x == p * q' + r';
    assert p * (q - q') == p * q - p * q' == -(p * (q' - q));
    if q > q' {
      PositiveMultiple(p, q - q');
    } else if q < q' {
      PositiveMultiple(p, q' - q);
    }
  }

  /** Byte i is the salt shifted right by 8 * i bits and truncated. */
  lemma {:induction false} LittleEndianAt(x: int, n: nat, i: nat)
    requires i < n
    ensures LittleEndian(x, n)[i] == x / Pow256(i) % 256
    decreases n
  {
    if i > 0 {
      LittleEndianAt(x / 256, n - 1, i - 1);
      DivideTwice(x, Pow256(i - 1));
    }
  }

  lemma {:induction false} SameLittleEndian(a: int, b: int, n: nat)
    ensures LittleEndian(a, n) == LittleEndian(b, n) <==> (a - b) % Pow256(n) == 0
    decreases n
  {
    if n > 0 {
      var p := Pow256(n - 1);
      SameLittleEndian(a / 256, b / 256, n - 1);
      assert LittleEndian(a, n)[1..] == LittleEndian(a / 256, n - 1);
      assert LittleEndian(b, n)[1..] == LittleEndian(b / 256, n - 1);
      assert LittleEndian(a, n) == LittleEndian(b, n)
        <==> a % 256 == b % 256 && LittleEndian(a / 256, n - 1) == LittleEndian(b / 256, n - 1) by {
        assert LittleEndian(a, n)[0] == a % 256 && LittleEndian(b, n)[0] == b % 256;
      }
      SplitMultiple(a, b, p);
    }
  }

  /** A difference is a multiple of 256 p iff the low bytes agree and the quotients differ by one of p. */
  lemma SplitMultiple(a: int, b: int, p: nat)
    requires p > 0
    ensures (a - b) % (256 * p) == 0 <==> a % 256 == b % 256 && (a / 256 - b / 256) % p == 0
  {
    var d := a / 256 - b / 256;
    if a % 256 == b % 256 && d % p == 0 {
      var k := d / p;
      assert d == p * k;
      assert a - b == 256 * d == (256 * p) * k by { assert 256 * (p * k) == (256 * p) * k; }
      MultipleRemainder(256 * p, k);
    }
    if (a - b) % (256 * p) == 0 {
      var k := (a - b) / (256 * p);
      assert a - b == (256 * p) * k == 256 * (p * k);
      assert d == p * k;
      MultipleRemainder(p, k);
    }
  }

  lemma MultipleRemainder(p: nat, k: int)
    requires p > 0
    ensures (p * k) % p == 0
  {
    QuotientUnique(p * k, p, k, 0);
  }

  /** The bytes of an ASCII text. */
  function Ascii(s: string): (b: Registry.Bytes)
    ensures |b| == |s|
  {
    seq(|s|, i requires 0 <= i < |s| => s[i] as int % 256)
  }

  const PREFIX := "seed-unique-"

  predicate IsInt64(x: int) {
    -0x8000_0000_0000_0000 <= x < 0x8000_0000_0000_0000
  }

  function UniqueKey(salt: int): Registry.Bytes {
    Ascii(PREFIX) + LittleEndian(salt, 8)
  }

  /** Twelve fixed bytes, then the salt's low eight, least significant first. */
  lemma UniqueKeyAt(salt: int, i: nat)
    requires i < 20
    ensures |UniqueKey(salt)| == 20
    ensures UniqueKey(salt)[i] == if i < 12 then "seed-unique-"[i] as int else salt / Pow256(i - 12) % 256
  {
    if i >= 12 {
      LittleEndianAt(salt, 8, i - 12);
    }
  }

  lemma EightBytes()
    ensures Pow256(8) == 0x1_0000_0000_0000_0000
  {
  }

  lemma UniqueKeyInjective(a: int, b: int)
    ensures UniqueKey(a) == UniqueKey(b) <==> (a - b) % 0x1_0000_0000_0000_0000 == 0
  {
    EightBytes();
    SameLittleEndian(a, b, 8);
    var p := |PREFIX|;
    assert UniqueKey(a)[p..] == LittleEndian(a, 8);
    assert UniqueKey(b)[p..] == LittleEndian(b, 8);
  }

  /** Within the 64 bits keySalt counts in, distinct salts always give distinct bytes. */
  lemma DistinctSaltsDistinctKeys(a: int, b: int)
    requires IsInt64(a) && IsInt64(b)
    ensures UniqueKey(a) == UniqueKey(b) <==> a == b
  {
    UniqueKeyInjective(a, b);
  }

  /** The salt shared by every node the seeds fabricate. */
  class Salt {
    var value: int

    constructor ()
      ensures value == 0
    {
      value := 0;
    }

    method Next() returns (b: Registry.Bytes)
      modifies this
      ensures value == old(value) + 1
      ensures b == UniqueKey(value)
    {
      value := value + 1;
      var salt := value;
      var low := new Registry.Byte[8](_ => 0);
      var shift := 1;
      for i := 0 to 8
        invariant shift == Pow256(i) && value == salt
        invariant forall j :: 0 <= j < i ==> low[j] == LittleEndian(salt, 8)[j]
      {
        LittleEndianAt(salt, 8, i);
        low[i] := salt / shift % 256;
        shift := shift * 256;
      }
      assert low[..] == LittleEndian(salt, 8);
      return Ascii(PREFIX) + low[..];
    }
  }
}
