/** The header that opens a relayed TCP stream. */
module WireTCP {
  import opened Base
  import opened Addr

  /** A nil net.IP, as ParseIP returns for a host name, has no address. */
  datatype Target = NoAddr | To(ip: IP)

  datatype Header = Header(flags: byte, id: u32, target: Target, port: u16)

  const MSG_TCP_FORWARD: byte := 0x08

  function TargetOctets(t: Target): Bytes {
    match t
    case NoAddr => seq(16, _ => 0)
    case To(ip) => ip.Octets()
  }

  function EncodeHeader(h: Header): Bytes {
    var a := TargetOctets(h.target);
    [MSG_TCP_FORWARD, h.flags] + PutU32(h.id) + [|a| as byte] + a + PutU16(h.port)
  }

  /** The header and the number of bytes it takes, or None for an error. */
  function DecodeHeader(d: Bytes): Option<(Header, nat)> {
    if |d| < 13 || d[0] != MSG_TCP_FORWARD then None
    else
      var n := d[6] as int;
      if (n != 4 && n != 16) || 7 + n + 2 > |d| then None
      else
        var ip := if n == 4 then V4(d[7..11]) else IPFrom16(d[7..23]);
        Some((Header(d[1], GetU32(d[2..]), To(ip), GetU16(d[7 + n..])), 9 + n))
  }

  method EncodeTCPForwardHeader(h: Header) returns (buf: array<byte>)
    ensures fresh(buf) && buf[..] == EncodeHeader(h)
  {
    var addrLen := 4;
    if !(h.target.To? && h.target.ip.V4?) {
      addrLen := 16;
    }
    ghost var a := TargetOctets(h.target);
    var size := 1 + 1 + 4 + 1 + addrLen + 2;
    buf := new byte[size];
    var off := 0;
    CopyAt(buf, off, [MSG_TCP_FORWARD, h.flags]);
    off := off + 2;
    CopyAt(buf, off, PutU32(h.id));
    off := off + 4;
    CopyAt(buf, off, [addrLen as byte]);
    off := off + 1;
    CopyAt(buf, off, TargetOctets(h.target));
    off := off + addrLen;
    CopyAt(buf, off, PutU16(h.port));
    assert buf[..off + 2] == buf[..];
  }

  method DecodeTCPForwardHeader(data: Bytes) returns (r: Option<(Header, nat)>)
    ensures r == DecodeHeader(data)
  {
    if |data| < 1 + 1 + 4 + 1 + 4 + 2 {
      return None;
    }
    var off := 0;
    if data[off] != MSG_TCP_FORWARD {
      return None;
    }
    off := off + 1;
    var flags := data[off];
    off := off + 1;
    var id := GetU32(data[off..]);
    off := off + 4;
    var addrLen := data[off] as int;
    off := off + 1;
    if addrLen != 4 && addrLen != 16 {
      return None;
    }
    if off + addrLen + 2 > |data| {
      return None;
    }
    var ip := if addrLen == 4 then V4(data[off..off + addrLen]) else IPFrom16(data[off..off + addrLen]);
    off := off + addrLen;
    var port := GetU16(data[off..]);
    off := off + 2;
    r := Some((Header(flags, id, To(ip), port), off));
  }

  lemma HeaderFields(k: byte, f: byte, i: Bytes, n: byte, a: Bytes, p: Bytes, rest: Bytes)
    requires |i| == 4 && |p| == 2 && n as int == |a|
    ensures var d := [k, f] + i + [n] + a + p + rest;
            && d[0] == k && d[1] == f && d[2..][..4] == i && d[6] == n
            && d[7..7 + |a|] == a && d[7 + |a|..][..2] == p
  {
    var d := [k, f] + i + [n] + a + p + rest;
    assert d == [k, f] + (i + ([n] + (a + (p + rest))));
    assert d[2..] == i + ([n] + (a + (p + rest)));
    assert d[6..] == [n] + (a + (p + rest));
    assert d[7..] == a + (p + rest);
    assert d[7..7 + |a|] == d[7..][..|a|];
    assert d[7 + |a|..] == d[7..][|a|..] == p + rest;
  }

  /** A header followed by any bytes, such as the first data of the stream, decodes to
      itself and consumes exactly its own length, if and only if it names an address. */
  lemma HeaderRoundTrip(h: Header, suffix: Bytes)
    ensures DecodeHeader(EncodeHeader(h) + suffix) == Some((h, |EncodeHeader(h)|)) <==> h.target.To?
  {
    var a := TargetOctets(h.target);
    var i, p := PutU32(h.id), PutU16(h.port);
    var d := EncodeHeader(h) + suffix;
    assert d == [MSG_TCP_FORWARD, h.flags] + i + [|a| as byte] + a + p + suffix;
    HeaderFields(MSG_TCP_FORWARD, h.flags, i, |a| as byte, a, p, suffix);
    U32RoundTrip(h.id, []);
    U16RoundTrip(h.port, []);
    assert i + [] == i && p + [] == p;
    GetU32Front(d[2..]);
    GetU16Front(d[7 + |a|..]);
  }

  /** What decodes as a header is the encoding of that header, except that a v4-mapped
      address in 16 bytes is read as the IPv4 address it stands for. */
  lemma HeaderParsed(d: Bytes)
    requires DecodeHeader(d).Some?
    ensures var (h, n) := DecodeHeader(d).value;
            n <= |d| && (d[..n] == EncodeHeader(h) <==> !(d[6] == 16 && Mapped(d[7..23])))
  {
    var (h, n) := DecodeHeader(d).value;
    U32Parsed(d[2..]);
    U16Parsed(d[n - 2..]);
    assert d[2..][..4] == d[2..6] && d[n - 2..][..2] == d[n - 2..n];
    assert d[..n] == [d[0], d[1]] + d[2..6] + [d[6]] + d[7..n - 2] + d[n - 2..n];
    if d[6] == 16 && Mapped(d[7..23]) {
      assert |EncodeHeader(h)| == 13 && |d[..n]| == 25;
    }
  }
}
