/** The keys of log entries: an index as eight bytes, most significant first, so that the
    store's byte order is the order of the indices.
 */
module BitString {
  import opened Ordering

  newtype byte = x: int | 0 <= x < 256

  type Key = seq<byte>

  type uint64 = x: int | 0 <= x < 0x1_0000_0000_0000_0000

  function Pow256(k: nat): (p: nat)
    ensures p >= 1
  {
    if k == 0 then 1 else 256 * Pow256(k - 1)
  }

  /** The k low-order bytes of n, most significant first. */
  function BigEndian(n: nat, k: nat): (s: Key)
    ensures |s| == k
  {
    if k == 0 then [] else BigEndian(n / 256, k - 1) + [(n % 256) as byte]
  }

  function Value(s: Key): nat {
    if s == [] then 0 else 256 * Value(s[..|s| - 1]) + s[|s| - 1] as nat
  }

  function UintToBitStr(num: uint64): (s: Key)
    ensures |s| == 8
  {
    BigEndian(num, 8)
  }

  /** Decoding reads the first eight bytes of whatever it is given. */
  function BitStrToUint(s: Key): nat
    requires |s| >= 8
  {
    Value(s[..8])
  }

  /** The store's key order: bytewise, a proper prefix first. */
  predicate Less(a: Key, b: Key) {
    if b == [] then false
    else if a == [] then true
    else a[0] < b[0] || (a[0] == b[0] && Less(a[1..], b[1..]))
  }

  lemma {:induction false} LessIrreflexive(a: Key)
    ensures !Less(a, a)
  {
    if a != [] { LessIrreflexive(a[1..]); }
  }

  lemma {:induction false} LessTransitive(a: Key, b: Key, c: Key)
    requires Less(a, b) && Less(b, c)
    ensures Less(a, c)
  {
    if a != [] && a[0] == b[0] == c[0] { LessTransitive(a[1..], b[1..], c[1..]); }
  }

  lemma {:induction false} LessTotal(a: Key, b: Key)
    requires a != b
    ensures Less(a, b) || Less(b, a)
  {
    if a != [] && b != [] && a[0] == b[0] {
      assert a == [a[0]] + a[1..] && b == [b[0]] + b[1..];
      LessTotal(a[1..], b[1..]);
    }
  }

  lemma LessIsOrder()
    ensures StrictOrder(Less)
  {
    forall a ensures !Less(a, a) { LessIrreflexive(a); }
    forall a, b, c | Less(a, b) && Less(b, c) ensures Less(a, c) { LessTransitive(a, b, c); }
    forall a: Key, b | a != b ensures Less(a, b) || Less(b, a) { LessTotal(a, b); }
  }

  /** Comparing equally long keys by all bytes but the last, then by the last. */
  lemma {:induction false} LessByLast(a: Key, x: byte, b: Key, y: byte)
    requires |a| == |b|
    ensures Less(a + [x], b + [y]) <==> Less(a, b) || (a == b && x < y)
  {
    if a == [] {
      assert Less([x], [y]) <==> x < y;
    } else {
      assert (a + [x])[1..] == a[1..] + [x] && (b + [y])[1..] == b[1..] + [y];
      assert a == [a[0]] + a[1..] && b == [b[0]] + b[1..];
      LessByLast(a[1..], x, b[1..], y);
    }
  }

  /** Decoding undoes encoding. */
  lemma {:induction false} ValueOfBigEndian(n: nat, k: nat)
    requires n < Pow256(k)
    ensures Value(BigEndian(n, k)) == n
  {
    if k > 0 {
      ValueOfBigEndian(n / 256, k - 1);
      var s := BigEndian(n, k);
      assert s[..|s| - 1] == BigEndian(n / 256, k - 1);
    }
  }

  /** The key order of encodings is the numeric order. */
  lemma {:induction false} OrderOfBigEndian(m: nat, n: nat, k: nat)
    requires m < Pow256(k) && n < Pow256(k)
    ensures Less(BigEndian(m, k), BigEndian(n, k)) <==> m < n
  {
    if k > 0 {
      OrderOfBigEndian(m / 256, n / 256, k - 1);
      ValueOfBigEndian(m / 256, k - 1);
      ValueOfBigEndian(n / 256, k - 1);
      LessByLast(BigEndian(m / 256, k - 1), (m % 256) as byte, BigEndian(n / 256, k - 1), (n % 256) as byte);
      assert m < n <==> m / 256 < n / 256 || (m / 256 == n / 256 && m % 256 < n % 256);
    }
  }

  lemma Pow8()
    ensures Pow256(8) == 0x1_0000_0000_0000_0000
  {
    assert Pow256(4) == 0x1_0000_0000;
  }

  lemma RoundTrip(n: uint64)
    ensures BitStrToUint(UintToBitStr(n)) == n
  {
    Pow8();
    ValueOfBigEndian(n, 8);
    assert UintToBitStr(n)[..8] == UintToBitStr(n);
  }

  lemma OrderIsNumeric(m: uint64, n: uint64)
    ensures Less(UintToBitStr(m), UintToBitStr(n)) <==> m < n
    ensures UintToBitStr(m) == UintToBitStr(n) <==> m == n
  {
    Pow8();
    OrderOfBigEndian(m, n, 8);
    RoundTrip(m);
    RoundTrip(n);
  }

  /** The leading byte of an encoding. */
  lemma {:induction false} LeadingByte(n: nat, k: nat)
    requires k >= 1 && n < Pow256(k)
    ensures BigEndian(n, k)[0] as nat == n / Pow256(k - 1)
  {
    if k > 1 {
      LeadingByte(n / 256, k - 1);
      assert BigEndian(n, k)[0] == BigEndian(n / 256, k - 1)[0];
      DivideTwice(n, Pow256(k - 2));
    }
  }

  lemma DivideTwice(n: nat, p: nat)
    requires p >= 1
    ensures n / 256 / p == n / (256 * p)
  {
    var q := n / (256 * p);
    var r := n % (256 * p);
    assert n == 256 * (p * q) + r;
    assert n / 256 == p * q + r / 256;
    assert 0 <= r / 256 < p;
    QuotientUnique(n / 256, p, q, r / 256);
  }

  lemma QuotientUnique(n: nat, p: nat, q: nat, r: nat)
    requires p >= 1 && n == p * q + r && r < p
    ensures n / p == q
  {
    var d := n / p - q;
    assert p * d == r - n % p;
    TimesAtLeast(p, d);
  }

  lemma TimesAtLeast(p: int, d: int)
    requires p >= 1
    ensures d >= 1 ==> p * d >= p
    ensures d <= -1 ==> p * d <= -p
  {
  }

  /** An index below 0x41 * 2^56 has a leading byte below 'A', where the names of the
      metadata start. */
  lemma SmallLeadingByte(n: uint64)
    ensures UintToBitStr(n)[0] < 0x41 <==> n < 0x4100_0000_0000_0000
  {
    Pow8();
    LeadingByte(n, 8);
    assert Pow256(3) == 0x100_0000;
    assert Pow256(7) == 0x100_0000_0000_0000;
  }

  lemma {:induction false} ValueBelow(s: Key)
    ensures Value(s) < Pow256(|s|)
  {
    if s != [] { ValueBelow(s[..|s| - 1]); }
  }

  /** Every eight-byte string is the encoding of some index. */
  lemma {:induction false} BigEndianOfValue(s: Key)
    ensures BigEndian(Value(s), |s|) == s
  {
    if s != [] {
      BigEndianOfValue(s[..|s| - 1]);
      assert s == s[..|s| - 1] + [s[|s| - 1]];
      var high, low := Value(s[..|s| - 1]), s[|s| - 1] as nat;
      assert (256 * high + low) / 256 == high && (256 * high + low) % 256 == low;
    }
  }

  lemma EncodesValue(s: Key)
    requires |s| == 8
    ensures Value(s) < 0x1_0000_0000_0000_0000 && UintToBitStr(Value(s)) == s
  {
    Pow8();
    ValueBelow(s);
    BigEndianOfValue(s);
  }
}
