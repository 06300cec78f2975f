/** IP addresses, masks and networks, with the few behaviours of Go's net package that
    the routing code leans on: To4, IPNet.Contains, IPNet.String used as a map key,
    IPMask.Size and CIDRMask. */
module Addr {
  import opened Base

  type Raw4 = b: Bytes | |b| == 4 witness seq(4, _ => 0)

  /** ::ffff:a.b.c.d, the 16-byte form that To4 turns back into four bytes. */
  predicate Mapped(b: Bytes)
    requires |b| == 16
  {
    (forall i :: 0 <= i < 10 ==> b[i] == 0) && b[10] == 0xff && b[11] == 0xff
  }

  type Raw6 = b: Bytes | |b| == 16 && !Mapped(b) witness seq(16, _ => 0)

  /** An address up to the equivalence under which Go compares, prints and encodes it:
      V4 stands for the 4-byte form and for the v4-mapped 16-byte form. */
  datatype IP = V4(b4: Raw4) | V6(b6: Raw6) {
    function Octets(): Bytes {
      match this
      case V4(b) => b
      case V6(b) => b
    }
  }

  function IPFrom16(b: Raw16): IP {
    if Mapped(b) then V4(b[12..]) else V6(b)
  }

  /** net.IPMask restricted to the simple masks that CIDRMask and ParseCIDR build.
      CIDRMask of a length beyond the width is the nil mask. */
  datatype Mask = NilMask | Mask(ones: nat, bits: nat)

  predicate WfMask(m: Mask) {
    m.Mask? ==> (m.bits == 32 || m.bits == 128) && m.ones <= m.bits
  }

  function CIDRMask(ones: nat, bits: nat): Mask {
    if ones <= bits then Mask(ones, bits) else NilMask
  }

  type WMask = m: Mask | WfMask(m) witness NilMask

  datatype IPNet = IPNet(ip: IP, mask: WMask)

  /** The first result of IPMask.Size: 0 for the nil mask. */
  function MaskSize(n: IPNet): nat {
    match n.mask
    case NilMask => 0
    case Mask(ones, _) => ones
  }

  /** The mask length that applies to the normalised address, or None when address and
      mask do not fit together. A 16-byte mask on a v4 address loses its first 12 bytes. */
  function EffectiveLen(n: IPNet): Option<nat> {
    match n.mask
    case NilMask => None
    case Mask(ones, bits) =>
      if n.ip.V4? then Some(if bits == 32 then ones else if ones <= 96 then 0 else ones - 96)
      else if bits == 128 then Some(ones) else None
  }

  /** The string form of a network, which is the key of the routing table. All networks
      without a usable mask print the same text. */
  datatype Key = NoCidr | Cidr(ip: IP, len: nat)

  function KeyOf(n: IPNet): Key {
    match EffectiveLen(n)
    case None => NoCidr
    case Some(k) => Cidr(n.ip, k)
  }

  // ---- Masking, octet by octet ----

  function OctetSize(keep: nat): int
    requires keep <= 8
  {
    match keep
    case 0 => 256 case 1 => 128 case 2 => 64 case 3 => 32 case 4 => 16
    case 5 => 8 case 6 => 4 case 7 => 2 case _ => 1
  }

  /** v with all but its first keep bits cleared. */
  function MaskOctet(v: byte, keep: nat): byte
    requires keep <= 8
  {
    var x := v as int;
    (x - x % OctetSize(keep)) as byte
  }

  /** How many leading ones octet i of a mask of length k has. */
  function OnesInOctet(k: nat, i: nat): nat
    ensures OnesInOctet(k, i) <= 8
  {
    if k <= 8 * i then 0 else if k >= 8 * i + 8 then 8 else k - 8 * i
  }

  function MaskOctets(b: Bytes, k: nat): (r: Bytes)
    ensures |r| == |b|
  {
    seq(|b|, i requires 0 <= i < |b| => MaskOctet(b[i], OnesInOctet(k, i)))
  }

  /** IPNet.Contains. */
  predicate Contains(n: IPNet, x: IP) {
    match EffectiveLen(n)
    case None => false
    case Some(k) =>
      n.ip.V4? == x.V4? && MaskOctets(n.ip.Octets(), k) == MaskOctets(x.Octets(), k)
  }

  /** A network as ParseCIDR returns it: the mask fits the family, no host bit is set. */
  predicate Canonical(n: IPNet) {
    Encodable(n) && MaskOctets(n.ip.Octets(), n.mask.ones) == n.ip.Octets()
  }

  /** The networks that survive the wire format: mask width and family agree. */
  predicate Encodable(n: IPNet) {
    n.mask.Mask? && n.mask.bits == if n.ip.V4? then 32 else 128
  }

  lemma MaskIdempotent(b: Bytes, k: nat)
    ensures MaskOctets(MaskOctets(b, k), k) == MaskOctets(b, k)
  {
  }

  /** Masking a proper IPv6 address never produces a v4-mapped one. */
  lemma MaskedNotMapped(b: Raw6, k: nat)
    ensures !Mapped(MaskOctets(b, k))
  {
    var m := MaskOctets(b, k);
    if m[11] == 0xff {
      assert OnesInOctet(k, 11) == 8;
      assert forall i :: 0 <= i < 12 ==> m[i] == b[i];
    }
  }

  /** The network of length k that an address belongs to. */
  function NetworkOf(x: IP, k: nat): IP {
    match x
    case V4(b) => V4(MaskOctets(b, k))
    case V6(b) => MaskedNotMapped(b, k); V6(MaskOctets(b, k))
  }

  function Width(x: IP): nat {
    if x.V4? then 32 else 128
  }

  /** A canonical network contains an address exactly when it is the network of its own
      length around that address, so its table key is determined by address and length. */
  lemma OneKeyPerLength(n: IPNet, x: IP)
    requires Canonical(n)
    ensures Contains(n, x) <==>
              n.mask.ones <= Width(x) && KeyOf(n) == Cidr(NetworkOf(x, n.mask.ones), n.mask.ones)
  {
    MaskIdempotent(x.Octets(), n.mask.ones);
  }
}
