/** The route message: one encoding serves updates and withdrawals. */
module WireRoute {
  import opened Base
  import opened Addr

  datatype RouteMessage = RouteMessage(flags: byte, prefix: IPNet, cost: u32, origin: NodeID,
                                       localPref: u32, path: seq<NodeID>)

  const MSG_ROUTE_UPDATE: byte := 0x01
  const FLAG_UPDATE: byte := 0x00
  const FLAG_WITHDRAW: byte := 0x01
  const MAX_HOPS := 32

  predicate IsWithdrawal(m: RouteMessage) {
    m.flags % 2 == 1
  }

  // ---- The format ----

  function EncodeHops(path: seq<NodeID>): (b: Bytes)
    ensures |b| == 16 * |path|
  {
    if path == [] then [] else path[0].raw + EncodeHops(path[1..])
  }

  function Head(m: RouteMessage): Bytes {
    [MSG_ROUTE_UPDATE, m.flags, MaskSize(m.prefix) as byte, if m.prefix.ip.V4? then 4 else 6]
  }

  function Tail(m: RouteMessage): Bytes {
    PutU32(m.cost) + m.origin.raw + PutU32(m.localPref) + PutU16(|m.path| % 0x1_0000) + EncodeHops(m.path)
  }

  function EncodeRoute(m: RouteMessage): Bytes {
    Head(m) + m.prefix.ip.Octets() + Tail(m)
  }

  function DecodeHops(t: Bytes, n: nat): Option<seq<NodeID>> {
    if n == 0 then Some([])
    else if |t| < 16 then None
    else match DecodeHops(t[16..], n - 1)
         case None => None
         case Some(rest) => Some([NodeID(t[..16])] + rest)
  }

  function DecodeTail(flags: byte, prefix: IPNet, t: Bytes): Decoded<RouteMessage>
    requires |t| >= 26
  {
    var n := GetU16(t[24..]);
    if n > MAX_HOPS then Err
    else match DecodeHops(t[26..], n)
         case None => Err
         case Some(path) =>
           Ok(RouteMessage(flags, prefix, GetU32(t), NodeID(t[4..20]), GetU32(t[20..]), path))
  }

  /** The length check at the start covers the IPv4 layout only. */
  function DecodeRoute(d: Bytes): Decoded<RouteMessage> {
    if |d| < 34 then Err
    else if d[0] != MSG_ROUTE_UPDATE then Err
    else if d[3] == 4 then
      DecodeTail(d[1], IPNet(V4(d[4..8]), CIDRMask(d[2] as int, 32)), d[8..])
    else if d[3] == 6 then
      if |d| < 46 then Crash
      else DecodeTail(d[1], IPNet(IPFrom16(d[4..20]), CIDRMask(d[2] as int, 128)), d[20..])
    else Err
  }

  // ---- The buffer code ----

  method EncodeRouteMessage(m: RouteMessage) returns (buf: array<byte>)
    ensures fresh(buf) && buf[..] == EncodeRoute(m)
  {
    var ones := MaskSize(m.prefix);
    var isV4 := m.prefix.ip.V4?;
    var addrLen := if isV4 then 4 else 16;
    var size := 1 + 1 + 1 + 1 + addrLen + 4 + 16 + 4 + 2 + |m.path| * 16;
    buf := new byte[size];
    var off := 0;
    CopyAt(buf, off, [MSG_ROUTE_UPDATE, m.flags, ones as byte, if isV4 then 4 else 6]);
    off := off + 4;
    CopyAt(buf, off, m.prefix.ip.Octets());
    off := off + addrLen;
    PutTail(buf, off, m);
    assert buf[..off + 26 + 16 * |m.path|] == buf[..];
  }

  /** The part of the message behind the prefix. */
  method PutTail(buf: array<byte>, at: nat, m: RouteMessage)
    requires at + 26 + 16 * |m.path| <= buf.Length
    modifies buf
    ensures buf[..at + 26 + 16 * |m.path|] == old(buf[..at]) + Tail(m)
  {
    var off := at;
    ghost var head := buf[..at];
    ghost var c, l, n := PutU32(m.cost), PutU32(m.localPref), PutU16(|m.path| % 0x1_0000);
    CopyAt(buf, off, PutU32(m.cost));
    off := off + 4;
    CopyAt(buf, off, m.origin.raw);
    off := off + 16;
    CopyAt(buf, off, PutU32(m.localPref));
    off := off + 4;
    CopyAt(buf, off, PutU16(|m.path| % 0x1_0000));
    off := off + 2;
    assert buf[..off] == head + (c + m.origin.raw + l + n);
    PutHops(buf, off, m.path);
    assert head + (c + m.origin.raw + l + n) + EncodeHops(m.path) == head + Tail(m);
  }

  method PutHops(buf: array<byte>, at: nat, path: seq<NodeID>)
    requires at + 16 * |path| <= buf.Length
    modifies buf
    ensures buf[..at + 16 * |path|] == old(buf[..at]) + EncodeHops(path)
  {
    var off := at;
    for i := 0 to |path|
      invariant off == at + 16 * i
      invariant buf[..off] == old(buf[..at]) + EncodeHops(path[..i])
    {
      CopyAt(buf, off, path[i].raw);
      off := off + 16;
      EncodeHopsAppend(path[..i], path[i]);
      assert path[..i + 1] == path[..i] + [path[i]];
    }
    assert path[..|path|] == path;
  }

  lemma {:induction false} EncodeHopsAppend(path: seq<NodeID>, hop: NodeID)
    ensures EncodeHops(path + [hop]) == EncodeHops(path) + hop.raw
  {
    if path == [] {
      assert path + [hop] == [hop];
    } else {
      assert (path + [hop])[1..] == path[1..] + [hop];
      EncodeHopsAppend(path[1..], hop);
    }
  }

  method DecodeRouteMessage(data: Bytes) returns (r: Decoded<RouteMessage>)
    ensures r == DecodeRoute(data)
  {
    if |data| < 1 + 1 + 1 + 1 + 4 + 4 + 16 + 4 + 2 {
      return Err;
    }
    var off := 0;
    if data[off] != MSG_ROUTE_UPDATE {
      return Err;
    }
    off := off + 1;
    var flags := data[off];
    off := off + 1;
    var ones := data[off] as int;
    off := off + 1;
    var addrFamily := data[off];
    off := off + 1;
    var addrLen, prefix;
    if addrFamily == 4 {
      addrLen := 4;
      prefix := IPNet(V4(data[off..off + 4]), CIDRMask(ones, 32));
    } else if addrFamily == 6 {
      addrLen := 16;
      prefix := IPNet(IPFrom16(data[off..off + 16]), CIDRMask(ones, 128));
    } else {
      return Err;
    }
    off := off + addrLen;
    if off + 26 > |data| {
      return Crash;
    }
    r := ReadTail(data, off, flags, prefix);
  }

  method ReadTail(data: Bytes, at: nat, flags: byte, prefix: IPNet) returns (r: Decoded<RouteMessage>)
    requires at + 26 <= |data|
    ensures r == DecodeTail(flags, prefix, data[at..])
  {
    var off := at;
    ghost var t := data[at..];
    var cost := GetU32(data[off..]);
    off := off + 4;
    var origin := NodeID(data[off..off + 16]);
    assert t[4..20] == data[off..off + 16];
    off := off + 16;
    var localPref := GetU32(data[off..]);
    assert t[20..] == data[off..];
    off := off + 4;
    var n := GetU16(data[off..]);
    assert t[24..] == data[off..];
    off := off + 2;
    if n > MAX_HOPS {
      return Err;
    }
    assert t[26..] == data[off..];
    var path := ReadHops(data, off, n);
    r := if path.None? then Err else Ok(RouteMessage(flags, prefix, cost, origin, localPref, path.value));
  }

  method ReadHops(data: Bytes, at: nat, n: nat) returns (r: Option<seq<NodeID>>)
    requires at <= |data|
    ensures r == DecodeHops(data[at..], n)
  {
    var off := at;
    var path: seq<NodeID> := [];
    assert forall q: seq<NodeID> :: [] + q == q;
    for i := 0 to n
      invariant at <= off <= |data|
      invariant Joined(path, DecodeHops(data[off..], n - i)) == DecodeHops(data[at..], n)
    {
      if off + 16 > |data| {
        assert DecodeHops(data[off..], n - i).None?;
        return None;
      }
      ghost var rest := data[off..];
      assert rest[..16] == data[off..off + 16] && rest[16..] == data[off + 16..];
      JoinedStep(path, rest, n - i);
      path := path + [NodeID(data[off..off + 16])];
      off := off + 16;
    }
    assert path + [] == path;
    r := Some(path);
  }

  lemma JoinedStep(done: seq<NodeID>, t: Bytes, n: nat)
    requires n > 0 && |t| >= 16
    ensures Joined(done, DecodeHops(t, n)) == Joined(done + [NodeID(t[..16])], DecodeHops(t[16..], n - 1))
  {
    var rest := DecodeHops(t[16..], n - 1);
    if rest.Some? {
      assert done + ([NodeID(t[..16])] + rest.value) == done + [NodeID(t[..16])] + rest.value;
    }
  }

  ghost function Joined(done: seq<NodeID>, rest: Option<seq<NodeID>>): Option<seq<NodeID>> {
    if rest.None? then None else Some(done + rest.value)
  }

  // ---- Parser and printer are inverse ----

  lemma {:induction false} HopsRoundTrip(path: seq<NodeID>, suffix: Bytes)
    ensures DecodeHops(EncodeHops(path) + suffix, |path|) == Some(path)
  {
    if path != [] {
      var d := EncodeHops(path) + suffix;
      assert d == path[0].raw + (EncodeHops(path[1..]) + suffix);
      assert d[..16] == path[0].raw && d[16..] == EncodeHops(path[1..]) + suffix;
      HopsRoundTrip(path[1..], suffix);
      assert path == [path[0]] + path[1..];
    }
  }

  lemma {:induction false} HopsParsed(t: Bytes, n: nat)
    requires DecodeHops(t, n).Some?
    ensures |DecodeHops(t, n).value| == n && 16 * n <= |t|
    ensures EncodeHops(DecodeHops(t, n).value) == t[..16 * n]
  {
    if n > 0 {
      HopsParsed(t[16..], n - 1);
      var rest := DecodeHops(t[16..], n - 1).value;
      assert ([NodeID(t[..16])] + rest)[1..] == rest;
      assert t[..16 * n] == t[..16] + t[16..][..16 * (n - 1)];
    }
  }

  lemma FieldsApart(c: Bytes, o: Bytes, l: Bytes, n: Bytes, rest: Bytes)
    requires |c| == 4 && |o| == 16 && |l| == 4 && |n| == 2
    ensures var t := c + o + l + n + rest;
            && t[..4] == c && t[4..20] == o && t[20..][..4] == l && t[24..][..2] == n && t[26..] == rest
  {
    var t := c + o + l + n + rest;
    assert t == c + (o + (l + (n + rest)));
    assert t[4..] == o + (l + (n + rest));
    assert t[4..20] == t[4..][..16];
    assert t[20..] == l + (n + rest);
    assert t[24..] == n + rest;
    assert t[26..] == rest;
  }

  lemma FieldsDecoded(flags: byte, prefix: IPNet, c: Bytes, o: Raw16, l: Bytes, n: Bytes, rest: Bytes,
                      path: seq<NodeID>)
    requires |c| == 4 && |l| == 4 && |n| == 2 && GetU16(n) == |path| <= MAX_HOPS
    requires DecodeHops(rest, |path|) == Some(path)
    ensures DecodeTail(flags, prefix, c + o + l + n + rest)
            == Ok(RouteMessage(flags, prefix, GetU32(c), NodeID(o), GetU32(l), path))
  {
    var t := c + o + l + n + rest;
    FieldsApart(c, o, l, n, rest);
    GetU32Front(t);
    GetU32Front(t[20..]);
    GetU16Front(t[24..]);
  }

  lemma TailRoundTrip(m: RouteMessage, prefix: IPNet, suffix: Bytes)
    requires |m.path| <= MAX_HOPS
    ensures DecodeTail(m.flags, prefix, Tail(m) + suffix) == Ok(m.(prefix := prefix))
  {
    var c, l, n := PutU32(m.cost), PutU32(m.localPref), PutU16(|m.path| % 0x1_0000);
    var rest := EncodeHops(m.path) + suffix;
    U32RoundTrip(m.cost, []);
    U32RoundTrip(m.localPref, []);
    U16RoundTrip(|m.path| % 0x1_0000, []);
    assert c + [] == c && l + [] == l && n + [] == n;
    HopsRoundTrip(m.path, suffix);
    FieldsDecoded(m.flags, prefix, c, m.origin.raw, l, n, rest, m.path);
    assert Tail(m) + suffix == c + m.origin.raw + l + n + rest;
  }

  /** The mask that the decoder rebuilds from a length byte. */
  function Rebuilt(n: IPNet): IPNet {
    IPNet(n.ip, CIDRMask(MaskSize(n), if n.ip.V4? then 32 else 128))
  }

  lemma HeadRoundTrip(m: RouteMessage, t: Bytes)
    requires |t| >= 26
    ensures DecodeRoute(Head(m) + m.prefix.ip.Octets() + t) == DecodeTail(m.flags, Rebuilt(m.prefix), t)
  {
    var octets := m.prefix.ip.Octets();
    var d := Head(m) + octets + t;
    assert d[..4] == Head(m) && d[0] == d[..4][0] && d[1] == d[..4][1] && d[2] == d[..4][2] && d[3] == d[..4][3];
    assert d[4..4 + |octets|] == octets;
    assert d[4 + |octets|..] == t;
  }

  /** Decoding an encoded message followed by any bytes, such as a signature that was not
      stripped, returns the message exactly when its prefix has the mask of its address
      family and its path fits the hop limit. */
  lemma RouteRoundTrip(m: RouteMessage, suffix: Bytes)
    ensures DecodeRoute(EncodeRoute(m) + suffix) == Ok(m) <==> Encodable(m.prefix) && |m.path| <= MAX_HOPS
  {
    var t := Tail(m) + suffix;
    assert EncodeRoute(m) + suffix == Head(m) + m.prefix.ip.Octets() + t;
    HeadRoundTrip(m, t);
    assert Rebuilt(m.prefix) == m.prefix <==> Encodable(m.prefix);
    if |m.path| <= MAX_HOPS {
      TailRoundTrip(m, Rebuilt(m.prefix), suffix);
    } else {
      TailHops(m.flags, Rebuilt(m.prefix), t);
    }
  }

  lemma TailHops(flags: byte, prefix: IPNet, t: Bytes)
    requires |t| >= 26
    ensures DecodeTail(flags, prefix, t).Ok? ==> |DecodeTail(flags, prefix, t).value.path| <= MAX_HOPS
  {
    var n := GetU16(t[24..]);
    if DecodeHops(t[26..], n).Some? {
      HopsParsed(t[26..], n);
    }
  }

  lemma TailParsed(flags: byte, prefix: IPNet, t: Bytes)
    requires |t| >= 26 && DecodeTail(flags, prefix, t).Ok?
    ensures Tail(DecodeTail(flags, prefix, t).value) <= t
  {
    var m := DecodeTail(flags, prefix, t).value;
    var n := GetU16(t[24..]);
    HopsParsed(t[26..], n);
    assert m.path == DecodeHops(t[26..], n).value && |m.path| == n;
    assert EncodeHops(m.path) == t[26..26 + 16 * n];
    FixedParsed(t);
    TailIs(m, t[..26], t[26..26 + 16 * n]);
    assert t[..26] + t[26..26 + 16 * n] == t[..26 + 16 * n];
  }

  lemma TailIs(m: RouteMessage, fixed: Bytes, hops: Bytes)
    requires |m.path| <= MAX_HOPS && EncodeHops(m.path) == hops
    requires PutU32(m.cost) + m.origin.raw + PutU32(m.localPref) + PutU16(|m.path|) == fixed
    ensures Tail(m) == fixed + hops
  {
  }

  lemma FixedParsed(t: Bytes)
    requires |t| >= 26
    ensures PutU32(GetU32(t)) + t[4..20] + PutU32(GetU32(t[20..])) + PutU16(GetU16(t[24..])) == t[..26]
  {
    U32Parsed(t);
    U32Parsed(t[20..]);
    U16Parsed(t[24..]);
    assert t[20..][..4] == t[20..24] && t[24..][..2] == t[24..26];
  }

  lemma ProperParsed(d: Bytes)
    requires DecodeRoute(d).Ok? && Encodable(DecodeRoute(d).value.prefix)
    ensures EncodeRoute(DecodeRoute(d).value) <= d
  {
    var m := DecodeRoute(d).value;
    var w := if d[3] == 4 then 4 else 16;
    var t := d[4 + w..];
    TailParsed(m.flags, m.prefix, t);
    assert Head(m) == d[..4];
    assert m.prefix.ip.Octets() == d[4..4 + w];
    assert Tail(m) == t[..|Tail(m)|];
    assert d == d[..4] + d[4..4 + w] + t;
  }

  /** A length byte beyond the address width is read as no mask at all, and a v4-mapped
      address of family 6 as an IPv4 address; neither is written back as it was read. */
  lemma ImproperParsed(d: Bytes)
    requires DecodeRoute(d).Ok? && !Encodable(DecodeRoute(d).value.prefix)
    ensures Head(DecodeRoute(d).value) != d[..4]
  {
    assert d[..4][2] == d[2] && d[..4][3] == d[3];
  }

  /** Conversely, whatever decodes begins with the encoding of what it decodes to, exactly
      when the decoded prefix has the mask of its address family. */
  lemma RouteParsed(d: Bytes)
    requires DecodeRoute(d).Ok?
    ensures var m := DecodeRoute(d).value;
            |m.path| <= MAX_HOPS && (EncodeRoute(m) <= d <==> Encodable(m.prefix))
  {
    var m := DecodeRoute(d).value;
    TailHops(m.flags, m.prefix, d[if d[3] == 4 then 8 else 20..]);
    if Encodable(m.prefix) {
      ProperParsed(d);
    } else {
      ImproperParsed(d);
      assert EncodeRoute(m)[..4] == Head(m);
    }
  }

  /** The decoder runs past its input exactly on IPv6 messages of 34 to 45 bytes. */
  lemma CrashIff(d: Bytes)
    ensures DecodeRoute(d).Crash? <==> 34 <= |d| < 46 && d[0] == MSG_ROUTE_UPDATE && d[3] == 6
  {
  }
}
