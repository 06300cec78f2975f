/** Addresses and networks bit by bit: what a mask keeps, and which addresses a network
    contains. A bit is read off the value of its octet, independently of any masking. */
module Bits {
  import opened Base
  import opened Addr

  function Power(n: nat): (p: nat)
    ensures p > 0
  {
    if n == 0 then 1 else 2 * Power(n - 1)
  }

  function Quotient(x: nat, d: nat): nat
    requires d > 0
  {
    x / d
  }

  /** The first k bits of an octet as a number. */
  function Top(v: byte, k: nat): nat
    requires k <= 8
  {
    Quotient(v as int, Power(8 - k))
  }

  function OctetBit(v: byte, j: nat): nat
    requires j < 8
  {
    Quotient(v as int, Power(7 - j)) % 2
  }

  /** Bit i of a byte string, most significant bits first. */
  function BitAt(b: Bytes, i: nat): nat
    requires i < 8 * |b|
  {
    OctetBit(b[i / 8], i % 8)
  }

  /** The first k bits are the same. */
  ghost predicate SameBits(a: Bytes, b: Bytes, k: nat) {
    |a| == |b| && forall i :: 0 <= i < k && i < 8 * |a| ==> BitAt(a, i) == BitAt(b, i)
  }

  // ---- One octet ----

  lemma Powers()
    ensures Power(0) == 1 && Power(1) == 2 && Power(2) == 4 && Power(3) == 8 && Power(4) == 16
    ensures Power(5) == 32 && Power(6) == 64 && Power(7) == 128 && Power(8) == 256
  {
    assert Power(4) == 16 && Power(8) == 16 * Power(4);
  }

  lemma SizeIsPower(keep: nat)
    requires keep <= 8
    ensures OctetSize(keep) == Power(8 - keep)
  {
    Powers();
  }

  lemma NextBit(v: byte, k: nat)
    requires k < 8
    ensures Top(v, 0) == 0 && Top(v, k + 1) == 2 * Top(v, k) + OctetBit(v, k)
  {
    Powers();
    HalfAgain(v as int, Power(7 - k));
  }

  lemma HalfAgain(x: nat, p: nat)
    requires p > 0
    ensures Quotient(x, 2 * p) == Quotient(x, p) / 2
  {
    var q := x / p;
    assert x == q * p + x % p && q == 2 * (q / 2) + q % 2;
    QuotientIs(x, 2 * p, q / 2, (q % 2) * p + x % p);
  }

  lemma QuotientIs(x: nat, d: nat, q: nat, r: nat)
    requires r < d && x == q * d + r
    ensures Quotient(x, d) == q
  {
    var (q', r') := (x / d, x % d);
    assert x == q' * d + r';
    assert (q - q') * d == r' - r;
    if q != q' {
      FarApart(q - q', d);
    }
  }

  lemma FarApart(k: int, d: nat)
    requires k != 0
    ensures k * d >= d || k * d + d <= 0
  {
  }

  lemma {:induction false} TopAgrees(v: byte, w: byte, k: nat)
    requires k <= 8
    ensures Top(v, k) == Top(w, k) <==> forall j :: 0 <= j < k ==> OctetBit(v, j) == OctetBit(w, j)
  {
    if k == 0 {
      NextBit(v, 0);
      NextBit(w, 0);
    } else {
      TopAgrees(v, w, k - 1);
      NextBit(v, k - 1);
      NextBit(w, k - 1);
    }
  }

  lemma MaskIsTop(v: byte, k: nat)
    requires k <= 8
    ensures MaskOctet(v, k) as int == Top(v, k) * Power(8 - k)
  {
    SizeIsPower(k);
  }

  lemma OctetsAgree(v: byte, w: byte, k: nat)
    requires k <= 8
    ensures MaskOctet(v, k) == MaskOctet(w, k) <==> forall j :: 0 <= j < k ==> OctetBit(v, j) == OctetBit(w, j)
  {
    TopAgrees(v, w, k);
    MaskIsTop(v, k);
    MaskIsTop(w, k);
    SameProduct(Top(v, k), Top(w, k), Power(8 - k));
  }

  lemma SameProduct(x: nat, y: nat, p: nat)
    requires p > 0
    ensures x * p == y * p <==> x == y
  {
  }

  lemma {:induction false} PowerSum(a: nat, b: nat)
    ensures Power(a + b) == Power(a) * Power(b)
  {
    if a > 0 {
      PowerSum(a - 1, b);
    }
  }

  lemma EvenQuotient(t: nat, a: nat, p: nat)
    requires p > 0
    ensures Quotient(t * (2 * a * p), p) % 2 == 0
  {
    assert t * (2 * a * p) == (2 * (t * a)) * p;
    QuotientIs(t * (2 * a * p), p, 2 * (t * a), 0);
  }

  lemma KeptBits(v: byte, k: nat)
    requires k <= 8
    ensures forall j :: 0 <= j < k ==> OctetBit(MaskOctet(v, k), j) == OctetBit(v, j)
  {
    MaskTwice(v, k);
    OctetsAgree(MaskOctet(v, k), v, k);
  }

  lemma MaskTwice(v: byte, k: nat)
    requires k <= 8
    ensures MaskOctet(MaskOctet(v, k), k) == MaskOctet(v, k)
  {
  }

  lemma ClearedBit(v: byte, k: nat, j: nat)
    requires k <= j < 8
    ensures OctetBit(MaskOctet(v, k), j) == 0
  {
    MaskIsTop(v, k);
    PowerSum(j - k + 1, 7 - j);
    assert j - k + 1 + (7 - j) == 8 - k;
    EvenQuotient(Top(v, k), Power(j - k), Power(7 - j));
  }

  // ---- Addresses ----

  /** Bit i lies in octet i / 8, and the mask keeps it if it keeps that many of its octet. */
  lemma BitPlace(k: nat, o: nat, j: nat)
    requires j < 8
    ensures (8 * o + j) / 8 == o && (8 * o + j) % 8 == j
    ensures j < OnesInOctet(k, o) <==> 8 * o + j < k
  {
  }

  lemma OctetAgreement(a: Bytes, b: Bytes, k: nat, o: nat)
    requires |a| == |b| && o < |a|
    ensures MaskOctet(a[o], OnesInOctet(k, o)) == MaskOctet(b[o], OnesInOctet(k, o))
            <==> forall i :: 8 * o <= i < 8 * o + 8 && i < k ==> BitAt(a, i) == BitAt(b, i)
  {
    var m := OnesInOctet(k, o);
    OctetsAgree(a[o], b[o], m);
    forall i | 8 * o <= i < 8 * o + 8
      ensures BitAt(a, i) == OctetBit(a[o], i - 8 * o) && BitAt(b, i) == OctetBit(b[o], i - 8 * o)
      ensures i < k <==> i - 8 * o < m
    {
      BitPlace(k, o, i - 8 * o);
    }
    if forall i :: 8 * o <= i < 8 * o + 8 && i < k ==> BitAt(a, i) == BitAt(b, i) {
      forall j | 0 <= j < m ensures OctetBit(a[o], j) == OctetBit(b[o], j) {
        assert BitAt(a, 8 * o + j) == BitAt(b, 8 * o + j);
      }
    }
  }

  /** Two addresses agree under a mask exactly when they agree in the bits it covers. */
  lemma MasksAgree(a: Bytes, b: Bytes, k: nat)
    requires |a| == |b|
    ensures MaskOctets(a, k) == MaskOctets(b, k) <==> SameBits(a, b, k)
  {
    forall o | 0 <= o < |a|
      ensures MaskOctet(a[o], OnesInOctet(k, o)) == MaskOctet(b[o], OnesInOctet(k, o))
              <==> forall i :: 8 * o <= i < 8 * o + 8 && i < k ==> BitAt(a, i) == BitAt(b, i)
    {
      OctetAgreement(a, b, k, o);
    }
    if SameBits(a, b, k) {
      assert forall o :: 0 <= o < |a| ==> MaskOctets(a, k)[o] == MaskOctets(b, k)[o];
    } else {
      var i :| 0 <= i < k && i < 8 * |a| && BitAt(a, i) != BitAt(b, i);
      assert MaskOctets(a, k)[i / 8] != MaskOctets(b, k)[i / 8];
    }
  }

  /** What the mask covers stays, and the rest is zero. */
  lemma MaskedBits(b: Bytes, k: nat, i: nat)
    requires i < 8 * |b|
    ensures BitAt(MaskOctets(b, k), i) == if i < k then BitAt(b, i) else 0
  {
    var m := OnesInOctet(k, i / 8);
    BitPlace(k, i / 8, i % 8);
    if i < k {
      KeptBits(b[i / 8], m);
    } else {
      ClearedBit(b[i / 8], m, i % 8);
    }
  }

  /** The network of length k around an address: its first k bits, zeros, the same family. */
  lemma NetworkBits(x: IP, k: nat, i: nat)
    requires i < Width(x)
    ensures NetworkOf(x, k).V4? == x.V4? && |NetworkOf(x, k).Octets()| == |x.Octets()|
    ensures BitAt(NetworkOf(x, k).Octets(), i) == if i < k then BitAt(x.Octets(), i) else 0
  {
    MaskedBits(x.Octets(), k, i);
    if x.V6? {
      MaskedNotMapped(x.b6, k);
    }
  }

  /** The 16-byte form of an address. */
  function To16(x: IP): Raw16 {
    match x
    case V4(b) => seq(10, _ => 0) + [0xff, 0xff] + b
    case V6(b) => b
  }

  /** The two forms correspond one to one. */
  lemma SixteenBytes(x: IP, b: Raw16)
    ensures IPFrom16(To16(x)) == x && To16(IPFrom16(b)) == b
  {
    if x.V4? {
      assert To16(x)[12..] == x.b4;
    }
    if Mapped(b) {
      assert b == b[..10] + b[10..12] + b[12..];
      assert b[..10] == seq(10, _ => 0);
    }
  }

  lemma MappedBits(a: IP, b: IP, k: nat)
    requires a.V4? && b.V4? && k <= 128
    ensures SameBits(To16(a), To16(b), k) <==> SameBits(a.b4, b.b4, if k <= 96 then 0 else k - 96)
  {
    forall i | 0 <= i < 32
      ensures BitAt(a.b4, i) == BitAt(To16(a), i + 96) && BitAt(b.b4, i) == BitAt(To16(b), i + 96)
    {
      assert (i + 96) / 8 == i / 8 + 12 && (i + 96) % 8 == i % 8;
    }
    forall i | 0 <= i < 96 ensures BitAt(To16(a), i) == BitAt(To16(b), i) {
      assert i / 8 < 12;
    }
    if SameBits(To16(a), To16(b), k) {
      forall i | 0 <= i < k - 96 && i < 32 ensures BitAt(a.b4, i) == BitAt(b.b4, i) {
        assert BitAt(To16(a), i + 96) == BitAt(To16(b), i + 96);
      }
    } else {
      var i :| 0 <= i < k && BitAt(To16(a), i) != BitAt(To16(b), i);
      assert BitAt(a.b4, i - 96) != BitAt(b.b4, i - 96);
    }
  }

  /** Which addresses a network contains: those of its own family with the same first bits,
      as many as its mask has. A mask in IPv6 width counts the bits of the 16-byte form, for
      an IPv4 network too; an IPv6 network with a mask in IPv4 width contains nothing. */
  lemma ContainsIff(n: IPNet, x: IP)
    ensures Contains(n, x) <==>
              n.mask.Mask? && n.ip.V4? == x.V4?
              && if n.mask.bits == 32 then n.ip.V4? && SameBits(n.ip.b4, x.b4, n.mask.ones)
                 else SameBits(To16(n.ip), To16(x), n.mask.ones)
  {
    if n.mask.Mask? && n.ip.V4? == x.V4? {
      var k := EffectiveLen(n);
      if k.Some? {
        MasksAgree(n.ip.Octets(), x.Octets(), k.value);
      }
      if n.ip.V4? && n.mask.bits == 128 {
        MappedBits(n.ip, x, n.mask.ones);
      }
    }
  }

  /** Networks of one table key contain the same addresses, and a network whose mask fits
      its family can be read off its key. */
  lemma KeysIdentify(a: IPNet, b: IPNet, x: IP)
    ensures KeyOf(a) == KeyOf(b) ==> (Contains(a, x) <==> Contains(b, x))
    ensures Encodable(a) && Encodable(b) ==> (KeyOf(a) == KeyOf(b) <==> a == b)
  {
  }
}
