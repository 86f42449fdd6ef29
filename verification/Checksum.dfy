/** Byte order and the Internet checksum of util.c, on a little-endian host. */
module Checksum {
  import opened Base

  // ---- Byte order ----

  /** byteswap16, which is hton16 and ntoh16 here. */
  function Swap16(v: u16): u16 { v % 256 * 256 + v / 256 }

  /** byteswap32, which is hton32 and ntoh32 here: the halves change places and each is swapped. */
  function Swap32(v: u32): u32 { Swap16(v % TWO16) * TWO16 + Swap16(v / TWO16) }

  /** How the host stores an integer. */
  function Store16(v: u16): (b: seq<byte>)
    ensures |b| == 2
  {
    [v % 256, v / 256]
  }

  function Load16(b: seq<byte>): u16
    requires |b| == 2
  {
    var lo: int, hi: int := b[0], b[1];
    lo + 256 * hi
  }

  function Store32(v: u32): (b: seq<byte>)
    ensures |b| == 4
  {
    Store16(v % TWO16) + Store16(v / TWO16)
  }

  function Load32(b: seq<byte>): u32
    requires |b| == 4
  {
    Load16(b[..2]) + TWO16 * Load16(b[2..])
  }

  /** Storing a swapped integer puts its most significant octet first; swapping and loading undo each other. */
  lemma Order16(v: u16)
    ensures Store16(Swap16(v)) == [v / 256, v % 256]
    ensures Swap16(Swap16(v)) == v && Load16(Store16(v)) == v
  {
    var hi, lo := v / 256, v % 256;
    assert Swap16(v) / 256 == lo && Swap16(v) % 256 == hi;
  }

  lemma Order32(v: u32)
    ensures Store32(Swap32(v)) ==
            [v / TWO16 / 256, v / TWO16 % 256, v % TWO16 / 256, v % TWO16 % 256]
    ensures Swap32(Swap32(v)) == v && Load32(Store32(v)) == v
  {
    var hi, lo := v / TWO16, v % TWO16;
    Order16(hi);
    Order16(lo);
    assert Swap32(v) / TWO16 == Swap16(lo) && Swap32(v) % TWO16 == Swap16(hi);
    assert Store32(v)[..2] == Store16(lo) && Store32(v)[2..] == Store16(hi);
  }

  // ---- Sums of 16-bit words ----

  /** The sum of the words as the host loads them; a last odd octet counts as the low half of a word. */
  function Words(d: seq<byte>): nat {
    if d == [] then 0 else if |d| == 1 then d[0] else d[0] + 256 * d[1] + Words(d[2..])
  }

  /** The sum of the words in network order, an odd length padded with a zero octet: section 1 of RFC 1071. */
  function NetworkWords(d: seq<byte>): nat {
    if d == [] then 0 else if |d| == 1 then 256 * d[0] else 256 * d[0] + d[1] + NetworkWords(d[2..])
  }

  /** One's complement addition folds a sum to the member of its class modulo 65535 that is zero only for zero. */
  function Fold(n: nat): u16 { if n == 0 then 0 else (n - 1) % 65535 + 1 }

  /** What cksum16 returns. */
  function Cksum(d: seq<byte>, init: u32): u16 { 65535 - Fold(U32(init + Words(d))) }

  lemma {:induction false} WordsSplit(a: seq<byte>, b: seq<byte>)
    requires |a| % 2 == 0
    ensures Words(a + b) == Words(a) + Words(b)
  {
    if a == [] {
      assert a + b == b;
    } else {
      assert (a + b)[2..] == a[2..] + b;
      WordsSplit(a[2..], b);
    }
  }

  lemma {:induction false} WordsBound(d: seq<byte>)
    ensures Words(d) <= (|d| + 1) / 2 * 65535
  {
    if |d| < 2 {
    } else {
      WordsBound(d[2..]);
    }
  }

  /** A 16-bit count and a 16-bit initial value never overflow the 32-bit sum. */
  lemma NoOverflow(d: seq<byte>, init: u16)
    requires |d| < TWO16
    ensures U32(init + Words(d)) == init + Words(d)
  {
    WordsBound(d);
  }

  lemma WordsAt(d: seq<byte>, i: nat)
    requires i + 2 <= |d|
    ensures Words(d[i..]) == Load16(d[i..i + 2]) + Words(d[i + 2..])
  {
    assert d[i..][2..] == d[i + 2..];
  }

  /** cksum16: the sum of the words, then the loop that folds the carries. */
  method Cksum16(addr: seq<byte>, init: u32) returns (r: u16)
    requires |addr| < TWO16
    ensures r == Cksum(addr, init)
  {
    hide Fold, Words, U32;
    var sum: u32 := init;
    var count, i := |addr|, 0;
    assert addr[0..] == addr;
    while count > 1
      invariant 0 <= count && 0 <= i && i + count == |addr|
      invariant U32(sum + Words(addr[i..])) == U32(init + Words(addr))
    {
      WordsAt(addr, i);
      WrapAdds(sum + Load16(addr[i..i + 2]), Words(addr[i + 2..]));
      sum := U32(sum + Load16(addr[i..i + 2]));
      i := i + 2;
      count := count - 2;
    }
    LastWord(addr, i, sum);
    if count > 0 {
      sum := U32(sum + addr[i]);
    }
    assert sum == U32(init + Words(addr));
    while sum / TWO16 != 0
      invariant Fold(sum) == Fold(U32(init + Words(addr)))
      decreases sum
    {
      FoldCarry(sum);
      sum := sum % TWO16 + sum / TWO16;
    }
    FoldSmall(sum);
    return 65535 - sum;
  }

  lemma LastWord(d: seq<byte>, i: nat, sum: u32)
    requires i <= |d| <= i + 1
    ensures U32(sum + Words(d[i..])) == if i < |d| then U32(sum + d[i]) else sum
  {
  }

  lemma FoldSmall(n: u16)
    ensures Fold(n) == n
  {
  }

  lemma FoldCarry(n: nat)
    ensures Fold(n % TWO16 + n / TWO16) == Fold(n)
  {
    var q, r := n / TWO16, n % TWO16;
    assert n == 65535 * q + (q + r);
    if n > 0 { FoldMultiple(q, q + r); }
  }

  lemma FoldMultiple(q: nat, n: nat)
    requires n > 0
    ensures Fold(65535 * q + n) == Fold(n)
  {
    assert (65535 * q + (n - 1)) % 65535 == (n - 1) % 65535;
  }

  // ---- What the checksum promises ----

  /** Fold respects addition. */
  lemma FoldAdd(m: nat, n: nat)
    ensures Fold(Fold(m) + n) == Fold(m + n)
  {
    if m > 0 {
      var q := (m - 1) / 65535;
      assert m == 65535 * q + Fold(m);
      FoldMultiple(q, Fold(m) + n);
    }
  }

  /** 256 times a word, folded, is the word swapped. */
  lemma SwapIsShift(v: u16)
    ensures Swap16(v) == Fold(256 * v)
  {
    var hi, lo := v / 256, v % 256;
    assert 256 * v == 65535 * hi + (256 * lo + hi);
    if v > 0 { FoldMultiple(hi, 256 * lo + hi); }
  }

  lemma {:induction false} NetworkIsShifted(d: seq<byte>) returns (q: nat)
    ensures 256 * Words(d) == 65535 * q + NetworkWords(d)
    ensures NetworkWords(d) == 0 ==> Words(d) == 0
  {
    if |d| < 2 {
      q := 0;
    } else {
      var q0 := NetworkIsShifted(d[2..]);
      q := q0 + d[1];
    }
  }

  lemma FoldShift(n: nat)
    ensures Fold(256 * Fold(n)) == Fold(256 * n)
  {
    if n > 0 {
      var q := (n - 1) / 65535;
      assert n == 65535 * q + Fold(n);
      assert 256 * n == 65535 * (256 * q) + 256 * Fold(n);
      FoldMultiple(256 * q, 256 * Fold(n));
    }
  }

  lemma SwapTwice(v: u16)
    ensures Swap16(Swap16(v)) == v
  {
    Order16(v);
  }

  lemma SwapComplement(v: u16)
    ensures Swap16(65535 - v) == 65535 - Swap16(v)
  {
    var hi, lo := v / 256, v % 256;
    assert 65535 - v == (255 - hi) * 256 + (255 - lo);
    assert (65535 - v) / 256 == 255 - hi && (65535 - v) % 256 == 255 - lo;
  }

  lemma SwappedSum(d: seq<byte>)
    ensures Swap16(Fold(Words(d))) == Fold(NetworkWords(d))
  {
    hide Swap16, Words, NetworkWords;
    var q := NetworkIsShifted(d);
    SwapIsShift(Fold(Words(d)));
    FoldShift(Words(d));
    if NetworkWords(d) > 0 { FoldMultiple(q, NetworkWords(d)); }
  }

  /**
   * Stored by the host, the checksum of loaded words is the complement of the one's complement sum of the words in
   * network order: the RFC 1071 checksum, whatever the byte order.
   */
  lemma ByteOrderIndependent(d: seq<byte>)
    requires |d| < TWO16
    ensures Store16(Cksum(d, 0)) == Store16(Swap16(65535 - Fold(NetworkWords(d))))
  {
    hide Swap16, Store16, Fold, Words, NetworkWords;
    NoOverflow(d, 0);
    SwappedSum(d);
    SwapComplement(Fold(NetworkWords(d)));
    SwapTwice(Fold(Words(d)));
  }

  /** The complement of one call's result as the next call's initial value continues the sum, after an even length. */
  lemma Chained(a: seq<byte>, b: seq<byte>)
    requires |a| % 2 == 0 && |a| + |b| < TWO16
    ensures Cksum(b, 65535 - Cksum(a, 0)) == Cksum(a + b, 0)
  {
    hide Fold, Words;
    NoOverflow(a, 0);
    NoOverflow(a + b, 0);
    WordsSplit(a, b);
    NoOverflow(b, Fold(Words(a)));
    FoldAdd(Words(a), Words(b));
  }

  /** The sum with a 16-bit field at an even offset. */
  lemma FieldWords(a: seq<byte>, v: u16, b: seq<byte>)
    requires |a| % 2 == 0
    ensures Words(a + Store16(v) + b) == Words(a) + v + Words(b)
  {
    WordsSplit(a + Store16(v), b);
    WordsSplit(a, Store16(v));
    assert Store16(v)[2..] == [];
  }

  lemma FoldFull(n: nat, v: u16)
    ensures Fold(n + v) == 65535 <==> (v == 65535 - Fold(n) || (v == 65535 && Fold(n) == 65535))
  {
    FoldAdd(n, v);
  }

  /**
   * A message verifies exactly when its checksum field is the checksum of the message with a zero field, or when both
   * are forms of zero and the field is all ones.
   */
  lemma VerifiesIff(a: seq<byte>, v: u16, b: seq<byte>, init: u16)
    requires |a| % 2 == 0 && |a| + 2 + |b| < TWO16
    ensures var c := Cksum(a + Store16(0) + b, init);
            Cksum(a + Store16(v) + b, init) == 0 <==> (v == c || (v == 65535 && c == 0))
  {
    hide Fold, Words;
    FieldWords(a, v, b);
    FieldWords(a, 0, b);
    NoOverflow(a + Store16(v) + b, init);
    NoOverflow(a + Store16(0) + b, init);
    FoldFull(init + Words(a) + Words(b), v);
  }

  /** Sums in either byte order are full together. */
  lemma FullInEitherOrder(d: seq<byte>)
    ensures Fold(Words(d)) == 65535 <==> Fold(NetworkWords(d)) == 65535
  {
    hide Swap16, Fold, Words, NetworkWords;
    SwappedSum(d);
    SwapTwice(Fold(Words(d)));
    AllOnes();
  }

  lemma AllOnes()
    ensures Swap16(65535) == 65535
  {
  }

  /**
   * A message with an initial value from an even prefix verifies exactly when the words of both, in network order, have
   * the one's complement sum 65535, as section 1 of RFC 1071 says.
   */
  lemma VerifiesInNetworkOrder(a: seq<byte>, b: seq<byte>)
    requires |a| % 2 == 0 && |a| < TWO16 && |b| < TWO16
    ensures Cksum(b, 65535 - Cksum(a, 0)) == 0 <==> Fold(NetworkWords(a + b)) == 65535
  {
    hide Fold, Words, NetworkWords;
    NoOverflow(a, 0);
    NoOverflow(b, Fold(Words(a)));
    FoldAdd(Words(a), Words(b));
    WordsSplit(a, b);
    FullInEitherOrder(a + b);
  }

  lemma WholeVerifies(d: seq<byte>)
    requires |d| < TWO16
    ensures Cksum(d, 0) == 0 <==> Fold(NetworkWords(d)) == 65535
  {
    hide Fold, Words, NetworkWords;
    NoOverflow(d, 0);
    FullInEitherOrder(d);
  }
}
