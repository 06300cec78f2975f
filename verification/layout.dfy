/** Where each field of each wire format stands, in plain offsets, sizes and numbers. */
module Layout {
  import opened Base
  import opened Addr
  import opened Bits
  import R = WireRoute
  import G = WireGossip
  import T = WireTCP
  import F = Framing

  // ---- Route messages ----

  lemma TailLayout(m: R.RouteMessage)
    ensures var t := R.Tail(m);
            && |t| == 26 + 16 * |m.path| && Number(t[..4]) == m.cost && t[4..20] == m.origin.raw
            && Number(t[20..24]) == m.localPref && Number(t[24..26]) == |m.path| % 0x1_0000
            && t[26..] == R.EncodeHops(m.path)
  {
    var (c, o, l, n) := (PutU32(m.cost), m.origin.raw, PutU32(m.localPref), PutU16(|m.path| % 0x1_0000));
    R.FieldsApart(c, o, l, n, R.EncodeHops(m.path));
    Written32(m.cost);
    Written32(m.localPref);
    BigEndian16(|m.path| % 0x1_0000, n);
    assert R.Tail(m)[20..24] == R.Tail(m)[20..][..4] && R.Tail(m)[24..26] == R.Tail(m)[24..][..2];
  }

  lemma {:induction false} HopLayout(path: seq<NodeID>, i: nat)
    requires i < |path|
    ensures R.EncodeHops(path)[16 * i..16 * i + 16] == path[i].raw
  {
    if i > 0 {
      HopLayout(path[1..], i - 1);
      var rest := R.EncodeHops(path[1..]);
      assert R.EncodeHops(path)[16 * i..16 * i + 16] == rest[16 * (i - 1)..16 * (i - 1) + 16];
    }
  }

  /** A slice of what stands behind offset k. */
  lemma Behind(e: Bytes, k: nat, t: Bytes, a: nat, b: nat)
    requires k <= |e| && e[k..] == t && a <= b <= |t|
    ensures e[k + a..k + b] == t[a..b]
  {
    forall j | 0 <= j < b - a ensures e[k + a..k + b][j] == t[a..b][j] {
      assert e[k..][a + j] == t[a + j];
    }
  }

  /** The address width of a message. */
  function AddrWidth(m: R.RouteMessage): nat {
    if m.prefix.ip.V4? then 4 else 16
  }

  lemma RouteParts(m: R.RouteMessage)
    ensures var (e, w) := (R.EncodeRoute(m), AddrWidth(m));
            && |e| == 30 + w + 16 * |m.path| && e[4 + w..] == R.Tail(m)
            && e[0] == 1 && e[1] == m.flags && e[2] as int == MaskSize(m.prefix) && e[3] == (if w == 4 then 4 else 6)
            && e[4..4 + w] == m.prefix.ip.Octets()
  {
    TailLayout(m);
    ThreeParts(R.Head(m), m.prefix.ip.Octets(), R.Tail(m));
  }

  lemma ThreeParts(a: Bytes, b: Bytes, c: Bytes)
    requires |a| == 4
    ensures var e := a + b + c;
            && e[0] == a[0] && e[1] == a[1] && e[2] == a[2] && e[3] == a[3]
            && e[4..4 + |b|] == b && e[4 + |b|..] == c
  {
  }

  /** Type 1, flags, mask length, family 4 or 6, address, cost, origin, preference, number of
      hops; numbers big-endian. */
  lemma RouteLayout(m: R.RouteMessage)
    ensures var (e, w) := (R.EncodeRoute(m), AddrWidth(m));
            && |e| == 30 + w + 16 * |m.path|
            && e[0] == 1 && e[1] == m.flags && e[2] as int == MaskSize(m.prefix) && e[3] == (if w == 4 then 4 else 6)
            && e[4..4 + w] == m.prefix.ip.Octets()
            && Number(e[4 + w..8 + w]) == m.cost && e[8 + w..24 + w] == m.origin.raw
            && Number(e[24 + w..28 + w]) == m.localPref && Number(e[28 + w..30 + w]) == |m.path| % 0x1_0000
  {
    var (e, w, t) := (R.EncodeRoute(m), AddrWidth(m), R.Tail(m));
    RouteParts(m);
    TailLayout(m);
    Behind(e, 4 + w, t, 0, 4);
    Behind(e, 4 + w, t, 4, 20);
    Behind(e, 4 + w, t, 20, 24);
    Behind(e, 4 + w, t, 24, 26);
  }

  /** Then the hops, nearest first, 16 bytes each. */
  lemma RouteHops(m: R.RouteMessage, i: nat)
    requires i < |m.path|
    ensures var (e, w) := (R.EncodeRoute(m), AddrWidth(m));
            46 + w + 16 * i <= |e| && e[30 + w + 16 * i..46 + w + 16 * i] == m.path[i].raw
  {
    var (e, w, t) := (R.EncodeRoute(m), AddrWidth(m), R.Tail(m));
    RouteParts(m);
    TailLayout(m);
    HopLayout(m.path, i);
    Behind(t, 26, R.EncodeHops(m.path), 16 * i, 16 * i + 16);
    Behind(e, 4 + w, t, 26 + 16 * i, 42 + 16 * i);
  }

  lemma {:induction false} HopsFit(t: Bytes, n: nat)
    ensures R.DecodeHops(t, n).Some? <==> |t| >= 16 * n
  {
    if n > 0 && |t| >= 16 {
      HopsFit(t[16..], n - 1);
    }
  }

  /** Where the number of hops stands in a message with an address of w bytes. */
  predicate HopsThere(d: Bytes, w: nat) {
    |d| >= 30 + w && Number(d[28 + w..30 + w]) <= 32 && |d| >= 30 + w + 16 * Number(d[28 + w..30 + w])
  }

  /** Which messages decode: those of type 1 and of a known family that say at most 32 hops
      and hold them all. */
  lemma RouteReads(d: Bytes)
    ensures R.DecodeRoute(d).Ok? <==>
              |d| >= 34 && d[0] == 1 && ((d[3] == 4 && HopsThere(d, 4)) || (d[3] == 6 && HopsThere(d, 16)))
  {
    if |d| >= 34 && (d[3] == 4 || (d[3] == 6 && |d| >= 46)) {
      var w := if d[3] == 4 then 4 else 16;
      var t := d[4 + w..];
      Behind(d, 4 + w, t, 24, 26);
      assert t[24..][..2] == t[24..26];
      BigEndian16(0, t[24..]);
      HopsFit(t[26..], GetU16(t[24..]));
    }
  }

  /** The network that is read from a message contains the addresses of its family that
      share as many first bits with the address in it as the length byte says. A length
      beyond the width of the address gives a network that contains nothing, and a v4-mapped
      address in 16 bytes gives an IPv4 network. */
  lemma NetworkRead(d: Bytes, x: IP)
    requires R.DecodeRoute(d).Ok?
    ensures var n := R.DecodeRoute(d).value.prefix;
            && |d| >= 34 && (d[3] == 4 || (d[3] == 6 && |d| >= 46))
            && (d[3] == 4 ==>
                  (Contains(n, x) <==> x.V4? && d[2] <= 32 && SameBits(d[4..8], x.b4, d[2] as int)))
            && (d[3] == 6 ==>
                  (Contains(n, x) <==> x.V4? == Mapped(d[4..20]) && d[2] <= 128
                                       && SameBits(d[4..20], To16(x), d[2] as int)))
  {
    var m := R.DecodeRoute(d).value;
    ContainsIff(m.prefix, x);
    if d[3] == 6 {
      SixteenBytes(x, d[4..20]);
    }
  }

  /** The lowest flag bit tells a withdrawal. */
  lemma WithdrawalBit(d: Bytes)
    requires R.DecodeRoute(d).Ok?
    ensures |d| > 1 && (R.IsWithdrawal(R.DecodeRoute(d).value) <==> BitAt(d, 15) == 1)
  {
  }

  // ---- Gossip pushes ----

  /** Identity, key, state, version, length of the address, address. */
  lemma EntryLayout(p: G.PeerEntry)
    ensures var e := G.EncodeEntry(p);
            && |e| == 58 + |p.addr| && e[..16] == p.id.raw && e[16..48] == p.pubKey && e[48] == p.state
            && Number(e[49..57]) == p.version && e[57] as int == |p.addr| % 0x100 && e[58..] == p.addr
  {
    var e := G.EncodeEntry(p);
    var l := [(|p.addr| % 0x100) as byte];
    Written64(p.version);
    assert e[0..|e|] == e;
    G.EntryStands(p, l, e, 0);
    assert e[48] == e[48..49][0] && e[57] == e[57..58][0];
  }

  /** How many bytes some entries take. */
  function Size(ps: seq<G.PeerEntry>): nat {
    if ps == [] then 0 else 58 + |ps[0].addr| + Size(ps[1..])
  }

  lemma {:induction false} SizeIs(ps: seq<G.PeerEntry>)
    ensures |G.EncodeEntries(ps)| == Size(ps)
  {
    if ps != [] {
      SizeIs(ps[1..]);
    }
  }

  lemma Nested(b: Bytes, c: Bytes, at: nat, d: Bytes, k: nat)
    requires G.StandsAt(b, c, at) && G.StandsAt(c, d, k)
    ensures G.StandsAt(b, d, k + at)
  {
    var inner := d[k..k + |c|];
    forall j | 0 <= j < |b| ensures d[k + at..k + at + |b|][j] == b[j] {
      assert inner[at + j] == c[at + j] && c[at..at + |b|][j] == b[j];
    }
  }

  lemma {:induction false} EntriesLayout(ps: seq<G.PeerEntry>, i: nat)
    requires i < |ps|
    ensures G.StandsAt(G.EncodeEntry(ps[i]), G.EncodeEntries(ps), Size(ps[..i]))
  {
    var (e, first, rest) := (G.EncodeEntries(ps), G.EncodeEntry(ps[0]), G.EncodeEntries(ps[1..]));
    assert e[0..|e|] == e;
    G.StandsSplit(first, rest, e, 0);
    if i > 0 {
      EntriesLayout(ps[1..], i - 1);
      Nested(G.EncodeEntry(ps[i]), rest, Size(ps[1..][..i - 1]), e, |first|);
      assert ps[..i][1..] == ps[1..][..i - 1];
    }
  }

  /** Type 3, the number of entries, and the entries one behind the other. */
  lemma PushLayout(ps: seq<G.PeerEntry>, i: nat)
    ensures var e := G.EncodePush(ps);
            && |e| == 3 + Size(ps) && e[0] == 3 && Number(e[1..3]) == |ps| % 0x1_0000
            && (i < |ps| ==> G.StandsAt(G.EncodeEntry(ps[i]), e, 3 + Size(ps[..i])))
  {
    var (e, n, body) := (G.EncodePush(ps), PutU16(|ps| % 0x1_0000), G.EncodeEntries(ps));
    BigEndian16(|ps| % 0x1_0000, n);
    SizeIs(ps);
    assert e[1..3] == n && e[3..3 + |body|] == body;
    if i < |ps| {
      EntriesLayout(ps, i);
      Nested(G.EncodeEntry(ps[i]), body, Size(ps[..i]), e, 3);
    }
  }

  // ---- TCP headers ----

  /** Type 8, flags, identifier, address length 4 or 16, address, port. No address is written
      as 16 zeros. */
  lemma HeaderLayout(h: T.Header)
    ensures var (e, w) := (T.EncodeHeader(h), if h.target.To? && h.target.ip.V4? then 4 else 16);
            && |e| == 9 + w && e[0] == 8 && e[1] == h.flags && Number(e[2..6]) == h.id && e[6] as int == w
            && e[7..7 + w] == (if h.target.To? then h.target.ip.Octets() else seq(16, _ => 0))
            && Number(e[7 + w..9 + w]) == h.port
  {
    var (e, a) := (T.EncodeHeader(h), T.TargetOctets(h.target));
    var (i, p) := (PutU32(h.id), PutU16(h.port));
    assert e == [8, h.flags] + i + [|a| as byte] + a + p + [];
    T.HeaderFields(8, h.flags, i, |a| as byte, a, p, []);
    Written32(h.id);
    BigEndian16(h.port, p);
    assert e[2..6] == e[2..][..4] && e[7 + |a|..9 + |a|] == e[7 + |a|..][..2];
  }

  /** Which headers decode, how much of the data they take, and the address they name: four
      bytes are an IPv4 address, sixteen bytes any address in its 16-byte form. */
  lemma HeaderReads(d: Bytes)
    ensures T.DecodeHeader(d).Some? <==>
              |d| >= 13 && d[0] == 8 && (d[6] == 4 || d[6] == 16) && |d| >= 9 + d[6] as int
    ensures T.DecodeHeader(d).Some? ==>
              var (h, n) := T.DecodeHeader(d).value;
              && n == 9 + d[6] as int && h.target.To?
              && if d[6] == 4 then h.target.ip == V4(d[7..11]) else To16(h.target.ip) == d[7..23]
  {
    if |d| >= 25 && d[6] == 16 {
      SixteenBytes(IPFrom16(d[7..23]), d[7..23]);
    }
  }

  // ---- Frames ----

  /** Kind, stream, payload length, payload. */
  lemma FrameLayout(f: F.Frame)
    requires F.Fits(f)
    ensures var e := F.EncodeFrame(f);
            && |e| == 9 + |f.payload| && e[0] == f.kind && Number(e[1..5]) == f.id
            && Number(e[5..9]) == |f.payload| <= 0x10_0000 && e[9..] == f.payload
  {
    var (e, i, l) := (F.EncodeFrame(f), PutU32(f.id), PutU32(|f.payload|));
    Written32(f.id);
    Written32(|f.payload|);
    assert e == [f.kind] + (i + (l + f.payload));
    assert e[1..] == i + (l + f.payload) && e[5..] == l + f.payload;
    Behind(e, 1, i + (l + f.payload), 0, 4);
    Behind(e, 5, l + f.payload, 0, 4);
  }

  /** How reading a frame fails: with a plain EOF on an empty pipe and behind a header whose
      payload has not begun, for its size when the header asks for more than 1 MiB, and with
      an unexpected EOF everywhere else inside a frame. */
  lemma ReadFails(d: Bytes)
    ensures F.Parse(d) == F.Fail(F.TooLarge) <==> |d| >= 9 && Number(d[5..9]) > 0x10_0000
    ensures F.Parse(d) == F.Fail(F.EOF) <==> |d| == 0 || (|d| == 9 && 0 < Number(d[5..9]) <= 0x10_0000)
    ensures F.Parse(d).Got? <==> |d| >= 9 && Number(d[5..9]) <= 0x10_0000 && |d| >= 9 + Number(d[5..9])
  {
    if |d| >= 9 {
      BigEndian32(0, d[5..]);
      assert d[5..][..4] == d[5..9];
    }
  }
}
