/** The gossip push: a counted list of records of varying length. */
module WireGossip {
  import opened Base
  import Gossip

  type Raw32 = b: Bytes | |b| == 32 witness seq(32, _ => 0)

  datatype PeerEntry = PeerEntry(id: NodeID, pubKey: Raw32, state: byte, version: u64, addr: Bytes)

  const MSG_GOSSIP_PUSH: byte := 0x03
  const ENTRY_FIXED := 58

  // ---- The format ----

  function EncodeEntry(p: PeerEntry): (b: Bytes)
    ensures |b| == ENTRY_FIXED + |p.addr|
  {
    p.id.raw + p.pubKey + [p.state] + PutU64(p.version) + [(|p.addr| % 0x100) as byte] + p.addr
  }

  function EncodeEntries(ps: seq<PeerEntry>): Bytes {
    if ps == [] then [] else EncodeEntry(ps[0]) + EncodeEntries(ps[1..])
  }

  function EncodePush(ps: seq<PeerEntry>): Bytes {
    [MSG_GOSSIP_PUSH] + PutU16(|ps| % 0x1_0000) + EncodeEntries(ps)
  }

  function DecodeEntry(d: Bytes, at: nat): (p: Option<PeerEntry>)
    ensures p.Some? ==> at + ENTRY_FIXED + |p.value.addr| <= |d|
  {
    if |d| < at + ENTRY_FIXED || |d| < at + ENTRY_FIXED + d[at + 57] as int then None
    else Some(PeerEntry(NodeID(d[at..at + 16]), d[at + 16..at + 48], d[at + 48], GetU64(d[at + 49..at + 57]),
                        d[at + 58..at + 58 + d[at + 57] as int]))
  }

  function DecodeEntries(d: Bytes, at: nat, n: nat): Option<seq<PeerEntry>>
    decreases n
  {
    if n == 0 then Some([])
    else match DecodeEntry(d, at)
         case None => None
         case Some(p) =>
           match DecodeEntries(d, at + ENTRY_FIXED + |p.addr|, n - 1)
           case None => None
           case Some(rest) => Some([p] + rest)
  }

  function DecodePush(d: Bytes): Option<seq<PeerEntry>> {
    if |d| < 3 || d[0] != MSG_GOSSIP_PUSH then None else DecodeEntries(d, 3, GetU16(d[1..]))
  }

  // ---- The buffer code ----

  lemma {:induction false} EntriesAppend(ps: seq<PeerEntry>, p: PeerEntry)
    ensures EncodeEntries(ps + [p]) == EncodeEntries(ps) + EncodeEntry(p)
  {
    if ps == [] {
      assert ps + [p] == [p];
    } else {
      assert (ps + [p])[1..] == ps[1..] + [p];
      EntriesAppend(ps[1..], p);
    }
  }

  method PutEntry(buf: array<byte>, at: nat, p: PeerEntry)
    requires at + ENTRY_FIXED + |p.addr| <= buf.Length
    modifies buf
    ensures buf[..at + ENTRY_FIXED + |p.addr|] == old(buf[..at]) + EncodeEntry(p)
  {
    var off := at;
    ghost var head := buf[..at];
    CopyAt(buf, off, p.id.raw);
    off := off + 16;
    CopyAt(buf, off, p.pubKey);
    off := off + 32;
    CopyAt(buf, off, [p.state]);
    off := off + 1;
    CopyAt(buf, off, PutU64(p.version));
    off := off + 8;
    CopyAt(buf, off, [(|p.addr| % 0x100) as byte]);
    off := off + 1;
    CopyAt(buf, off, p.addr);
    EntryIs(head, p.id.raw, p.pubKey, [p.state], PutU64(p.version), [(|p.addr| % 0x100) as byte], p.addr);
  }

  lemma EntryIs(h: Bytes, a: Bytes, b: Bytes, c: Bytes, d: Bytes, e: Bytes, f: Bytes)
    ensures h + a + b + c + d + e + f == h + (a + b + c + d + e + f)
  {
  }

  method EncodeGossipPush(ps: seq<PeerEntry>) returns (buf: array<byte>)
    ensures fresh(buf) && buf[..] == EncodePush(ps)
  {
    var size := 1 + 2;
    for i := 0 to |ps|
      invariant size == 3 + |EncodeEntries(ps[..i])|
    {
      EntriesAppend(ps[..i], ps[i]);
      assert ps[..i + 1] == ps[..i] + [ps[i]];
      size := size + 16 + 32 + 1 + 8 + 1 + |ps[i].addr|;
    }
    assert ps[..|ps|] == ps;
    buf := new byte[size];
    var off := 0;
    CopyAt(buf, off, [MSG_GOSSIP_PUSH]);
    off := off + 1;
    CopyAt(buf, off, PutU16(|ps| % 0x1_0000));
    off := off + 2;
    PutEntries(buf, off, ps);
    assert buf[..3 + |EncodeEntries(ps)|] == buf[..];
  }

  method PutEntries(buf: array<byte>, at: nat, ps: seq<PeerEntry>)
    requires at + |EncodeEntries(ps)| == buf.Length
    modifies buf
    ensures buf[..at + |EncodeEntries(ps)|] == old(buf[..at]) + EncodeEntries(ps)
  {
    var off := at;
    for i := 0 to |ps|
      invariant off == at + |EncodeEntries(ps[..i])| && off + |EncodeEntries(ps[i..])| == buf.Length
      invariant buf[..off] == old(buf[..at]) + EncodeEntries(ps[..i])
    {
      EntriesSplit(ps, i);
      ghost var done := EncodeEntries(ps[..i]);
      PutEntry(buf, off, ps[i]);
      off := off + ENTRY_FIXED + |ps[i].addr|;
      Regroup(old(buf[..at]), done, EncodeEntry(ps[i]));
    }
    assert ps[..|ps|] == ps;
  }

  lemma Regroup(a: Bytes, b: Bytes, c: Bytes)
    ensures a + b + c == a + (b + c)
  {
  }

  lemma EntriesSplit(ps: seq<PeerEntry>, i: nat)
    requires i < |ps|
    ensures EncodeEntries(ps[..i + 1]) == EncodeEntries(ps[..i]) + EncodeEntry(ps[i])
    ensures |EncodeEntries(ps[i..])| == ENTRY_FIXED + |ps[i].addr| + |EncodeEntries(ps[i + 1..])|
  {
    assert ps[i..][0] == ps[i] && ps[i..][1..] == ps[i + 1..];
    EntriesAppend(ps[..i], ps[i]);
    assert ps[..i + 1] == ps[..i] + [ps[i]];
  }

  method DecodeGossipPush(data: Bytes) returns (r: Option<seq<PeerEntry>>)
    ensures r == DecodePush(data)
  {
    if |data| < 3 {
      return None;
    }
    var off := 0;
    if data[off] != MSG_GOSSIP_PUSH {
      return None;
    }
    off := off + 1;
    var count := GetU16(data[off..]);
    off := off + 2;
    r := ReadEntries(data, off, count);
  }

  method ReadEntries(data: Bytes, at: nat, count: nat) returns (r: Option<seq<PeerEntry>>)
    requires at <= |data|
    ensures r == DecodeEntries(data, at, count)
  {
    var off: nat := at;
    var peers: seq<PeerEntry> := [];
    ghost var whole := DecodeEntries(data, at, count);
    Prepended([], whole);
    for i := 0 to count
      invariant Awaits(data, off, count - i, peers, whole)
    {
      var p := ReadNext(data, off, peers, count - i, whole);
      if p.None? {
        return None;
      }
      peers := peers + [p.value];
      off := off + ENTRY_FIXED + |p.value.addr|;
    }
    AllRead(data, off, peers, whole);
    r := Some(peers);
  }

  method ReadNext(data: Bytes, at: nat, ghost done: seq<PeerEntry>, ghost n: nat, ghost whole: Option<seq<PeerEntry>>)
      returns (p: Option<PeerEntry>)
    requires n > 0 && Awaits(data, at, n, done, whole)
    ensures p.None? ==> whole.None?
    ensures p.Some? ==> Awaits(data, at + ENTRY_FIXED + |p.value.addr|, n - 1, done + [p.value], whole)
  {
    p := ReadEntry(data, at);
    EntriesStep(done, data, at, n);
  }

  method ReadEntry(data: Bytes, at: nat) returns (p: Option<PeerEntry>)
    requires at <= |data|
    ensures p == DecodeEntry(data, at)
  {
    var off := at;
    if off + 16 + 32 + 1 + 8 + 1 > |data| {
      return None;
    }
    var id := NodeID(data[off..off + 16]);
    off := off + 16;
    var pubKey := data[off..off + 32];
    off := off + 32;
    var state := data[off];
    off := off + 1;
    var version := GetU64(data[off..]);
    GetU64Front(data[off..]);
    assert data[off..][..8] == data[off..off + 8];
    off := off + 8;
    var addrLen := data[off] as int;
    off := off + 1;
    if off + addrLen > |data| {
      return None;
    }
    p := Some(PeerEntry(id, pubKey, state, version, data[off..off + addrLen]));
  }

  lemma GetU64Front(b: Bytes)
    requires |b| >= 8
    ensures GetU64(b) == GetU64(b[..8])
  {
    assert b[..8][..4] == b[..4] && b[..8][4..] == b[4..][..4];
    GetU32Front(b);
    GetU32Front(b[..8]);
    GetU32Front(b[4..]);
  }

  /** The records that were read and the n that stand at the offset make up the whole. */
  ghost predicate Awaits(data: Bytes, off: nat, n: nat, done: seq<PeerEntry>, whole: Option<seq<PeerEntry>>) {
    off <= |data| && Joined(done, DecodeEntries(data, off, n)) == whole
  }

  lemma AllRead(data: Bytes, off: nat, done: seq<PeerEntry>, whole: Option<seq<PeerEntry>>)
    requires Awaits(data, off, 0, done, whole)
    ensures whole == Some(done)
  {
    Prepended(done, None);
  }

  ghost function Joined(done: seq<PeerEntry>, rest: Option<seq<PeerEntry>>): Option<seq<PeerEntry>> {
    if rest.None? then None else Some(done + rest.value)
  }

  lemma Prepended(done: seq<PeerEntry>, rest: Option<seq<PeerEntry>>)
    ensures done == [] ==> Joined(done, rest) == rest
    ensures Joined(done, Some([])) == Some(done)
  {
    if rest.Some? && done == [] {
      assert done + rest.value == rest.value;
    }
    assert done + [] == done;
  }

  lemma EntriesStep(done: seq<PeerEntry>, data: Bytes, at: nat, n: nat)
    requires n > 0
    ensures match DecodeEntry(data, at)
            case None => DecodeEntries(data, at, n) == None
            case Some(p) => Joined(done, DecodeEntries(data, at, n))
                            == Joined(done + [p], DecodeEntries(data, at + ENTRY_FIXED + |p.addr|, n - 1))
  {
    var p := DecodeEntry(data, at);
    if p.Some? {
      var rest := DecodeEntries(data, at + ENTRY_FIXED + |p.value.addr|, n - 1);
      if rest.Some? {
        assert done + ([p.value] + rest.value) == done + [p.value] + rest.value;
      }
    }
  }

  // ---- Parser and printer are inverse ----

  predicate Fits(ps: seq<PeerEntry>) {
    |ps| < 0x1_0000 && ShortAddrs(ps)
  }

  predicate ShortAddrs(ps: seq<PeerEntry>) {
    forall p :: p in ps ==> |p.addr| < 0x100
  }

  /** The bytes b stand in d at the offset. */
  predicate StandsAt(b: Bytes, d: Bytes, at: nat) {
    at + |b| <= |d| && d[at..at + |b|] == b
  }

  lemma StandsSplit(a: Bytes, b: Bytes, d: Bytes, at: nat)
    ensures StandsAt(a + b, d, at) <==> StandsAt(a, d, at) && StandsAt(b, d, at + |a|)
  {
    if at + |a| + |b| <= |d| {
      assert d[at..at + |a + b|] == d[at..at + |a|] + d[at + |a|..at + |a| + |b|];
      assert (a + b)[..|a|] == a && (a + b)[|a|..] == b;
    }
  }

  lemma EntryStands(p: PeerEntry, l: Bytes, d: Bytes, at: nat)
    requires |l| == 1
    ensures StandsAt(p.id.raw + p.pubKey + [p.state] + PutU64(p.version) + l + p.addr, d, at)
            <==> && StandsAt(p.id.raw, d, at) && StandsAt(p.pubKey, d, at + 16) && StandsAt([p.state], d, at + 48)
                 && StandsAt(PutU64(p.version), d, at + 49) && StandsAt(l, d, at + 57) && StandsAt(p.addr, d, at + 58)
  {
    var a, b, c, v := p.id.raw, p.pubKey, [p.state], PutU64(p.version);
    StandsSplit(a + b + c + v + l, p.addr, d, at);
    StandsSplit(a + b + c + v, l, d, at);
    StandsSplit(a + b + c, v, d, at);
    StandsSplit(a + b, c, d, at);
    StandsSplit(a, b, d, at);
  }

  lemma VersionRoundTrip(v: u64, b: Bytes)
    requires |b| == 8
    ensures GetU64(b) == v <==> b == PutU64(v)
  {
    U64RoundTrip(v, []);
    assert PutU64(v) + [] == PutU64(v);
    U64Parsed(b);
    assert b[..8] == b;
  }

  /** A record is read at an offset exactly when its encoding stands there. */
  lemma EntryRoundTrip(p: PeerEntry, d: Bytes, at: nat)
    ensures DecodeEntry(d, at) == Some(p) <==> |p.addr| < 0x100 && StandsAt(EncodeEntry(p), d, at)
  {
    EntryStands(p, [(|p.addr| % 0x100) as byte], d, at);
    if at + ENTRY_FIXED <= |d| {
      VersionRoundTrip(p.version, d[at + 49..at + 57]);
    }
  }

  lemma {:induction false} EntriesRoundTrip(ps: seq<PeerEntry>, d: Bytes, at: nat)
    requires ShortAddrs(ps) && StandsAt(EncodeEntries(ps), d, at)
    ensures DecodeEntries(d, at, |ps|) == Some(ps)
  {
    if ps != [] {
      var e := EncodeEntry(ps[0]);
      StandsSplit(e, EncodeEntries(ps[1..]), d, at);
      EntryRoundTrip(ps[0], d, at);
      EntriesRoundTrip(ps[1..], d, at + |e|);
      assert ps == [ps[0]] + ps[1..];
    }
  }

  lemma {:induction false} EntriesParsed(d: Bytes, at: nat, n: nat)
    requires at <= |d| && DecodeEntries(d, at, n).Some?
    ensures var ps := DecodeEntries(d, at, n).value;
            |ps| == n && ShortAddrs(ps) && StandsAt(EncodeEntries(ps), d, at)
    decreases n
  {
    if n > 0 {
      var p, rest := FirstRead(d, at, n);
      EntriesParsed(d, at + ENTRY_FIXED + |p.addr|, n - 1);
      FirstParsed(d, at, p, rest);
    }
  }

  lemma FirstRead(d: Bytes, at: nat, n: nat) returns (p: PeerEntry, rest: seq<PeerEntry>)
    requires n > 0 && DecodeEntries(d, at, n).Some?
    ensures DecodeEntry(d, at) == Some(p) && DecodeEntries(d, at + ENTRY_FIXED + |p.addr|, n - 1) == Some(rest)
    ensures DecodeEntries(d, at, n) == Some([p] + rest)
  {
    p := DecodeEntry(d, at).value;
    rest := DecodeEntries(d, at + ENTRY_FIXED + |p.addr|, n - 1).value;
  }

  lemma FirstParsed(d: Bytes, at: nat, p: PeerEntry, rest: seq<PeerEntry>)
    requires DecodeEntry(d, at) == Some(p) && ShortAddrs(rest)
    requires StandsAt(EncodeEntries(rest), d, at + ENTRY_FIXED + |p.addr|)
    ensures ShortAddrs([p] + rest) && StandsAt(EncodeEntries([p] + rest), d, at)
  {
    EntryRoundTrip(p, d, at);
    assert ([p] + rest)[1..] == rest;
    StandsSplit(EncodeEntry(p), EncodeEntries(rest), d, at);
  }

  lemma PushStands(n: u16, body: Bytes, d: Bytes)
    ensures StandsAt([MSG_GOSSIP_PUSH] + PutU16(n) + body, d, 0)
            <==> |d| >= 3 && d[0] == MSG_GOSSIP_PUSH && GetU16(d[1..]) == n && StandsAt(body, d, 3)
  {
    var c := PutU16(n);
    StandsSplit([MSG_GOSSIP_PUSH] + c, body, d, 0);
    StandsSplit([MSG_GOSSIP_PUSH], c, d, 0);
    if |d| >= 3 {
      U16Parsed(d[1..]);
      assert d[1..][..2] == d[1..3];
      U16RoundTrip(n, d[3..]);
      if StandsAt(c, d, 1) {
        assert d[1..] == c + d[3..];
      }
    }
  }

  lemma EntriesReadIff(d: Bytes, ps: seq<PeerEntry>, n: nat)
    requires 3 <= |d|
    ensures DecodeEntries(d, 3, n) == Some(ps) <==> |ps| == n && ShortAddrs(ps) && StandsAt(EncodeEntries(ps), d, 3)
  {
    if |ps| == n && ShortAddrs(ps) && StandsAt(EncodeEntries(ps), d, 3) {
      EntriesRoundTrip(ps, d, 3);
    } else if DecodeEntries(d, 3, n) == Some(ps) {
      EntriesParsed(d, 3, n);
    }
  }

  lemma HeadThenBody(d: Bytes, ps: seq<PeerEntry>, body: Bytes, read: Option<seq<PeerEntry>>)
    requires |d| >= 3 ==>
      (read == Some(ps) <==> |ps| == GetU16(d[1..]) && ShortAddrs(ps) && StandsAt(body, d, 3))
    ensures (if |d| < 3 || d[0] != MSG_GOSSIP_PUSH then None else read) == Some(ps)
            <==> Fits(ps) && StandsAt([MSG_GOSSIP_PUSH] + PutU16(|ps| % 0x1_0000) + body, d, 0)
  {
    PushStands(|ps| % 0x1_0000, body, d);
  }

  /** Data decodes to a list of records exactly when the list fits the format and the data
      begins with the list's encoding. */
  lemma PushDecodesIff(d: Bytes, ps: seq<PeerEntry>)
    ensures DecodePush(d) == Some(ps) <==> Fits(ps) && StandsAt(EncodePush(ps), d, 0)
  {
    if |d| >= 3 {
      EntriesReadIff(d, ps, GetU16(d[1..]));
      HeadThenBody(d, ps, EncodeEntries(ps), DecodeEntries(d, 3, GetU16(d[1..])));
    }
  }

  /** A push followed by any bytes decodes to what was encoded exactly when it has at most
      65535 records with addresses of at most 255 bytes. */
  lemma PushRoundTrip(ps: seq<PeerEntry>, suffix: Bytes)
    ensures DecodePush(EncodePush(ps) + suffix) == Some(ps) <==> Fits(ps)
  {
    var e := EncodePush(ps);
    assert (e + suffix)[0..|e|] == e;
    PushDecodesIff(e + suffix, ps);
  }

  // ---- From the wire into the peer table ----

  /** The record that handlePush builds from an entry; a key of zeros means no key. */
  function ToPeer(e: PeerEntry): Gossip.Peer {
    Gossip.Peer(e.id, if e.pubKey == seq(32, _ => 0) then [] else e.pubKey, e.addr, e.state, e.version, 0, [])
  }

  function ToPeers(es: seq<PeerEntry>): seq<Gossip.Peer> {
    seq(|es|, i requires 0 <= i < |es| => ToPeer(es[i]))
  }

  /** The record says what the entry says: who, where, in which state, at which version, and
      with which key, unless all bytes of the key are zero. */
  lemma EntrySays(e: PeerEntry)
    ensures var p := ToPeer(e);
            && p.id == e.id && p.addr == e.addr && p.state == e.state && p.version == e.version && p.nets == []
            && (p.pubKey == [] <==> forall i :: 0 <= i < 32 ==> e.pubKey[i] == 0)
            && (p.pubKey != [] ==> p.pubKey == e.pubKey)
  {
    assert e.pubKey == seq(32, _ => 0) <==> forall i :: 0 <= i < 32 ==> e.pubKey[i] == 0;
  }

  /** The newest version that the entries about a peer bring, and whether one of that version
      calls it alive. State 0 is alive. */
  function Newest(r: Gossip.Rank, id: NodeID, es: seq<PeerEntry>): Gossip.Rank {
    if es == [] then r
    else
      var (before, e) := (Newest(r, id, es[..|es| - 1]), es[|es| - 1]);
      if e.id != id || e.version < before.version then before
      else if e.version > before.version then Gossip.Rank(e.version, e.state == 0)
      else Gossip.Rank(e.version, before.alive || e.state == 0)
  }

  lemma {:induction false} JoinIsNewest(r: Gossip.Rank, id: NodeID, es: seq<PeerEntry>)
    ensures Gossip.JoinAll(r, id, ToPeers(es)) == Newest(r, id, es)
  {
    if es != [] {
      JoinIsNewest(r, id, es[..|es| - 1]);
      assert ToPeers(es)[..|es| - 1] == ToPeers(es[..|es| - 1]);
    }
  }

  /** A push that travels as bytes leaves a known peer with the newest version among what was
      stored and what its entries say, alive if one of that version says so. That does not
      depend on the order and number of the copies. */
  lemma PushedBytesJoin(self: NodeID, ps: Gossip.Peers, es: seq<PeerEntry>, suffix: Bytes, now: int, id: NodeID)
    requires Fits(es) && Gossip.WfPeers(self, ps) && id in ps
    ensures DecodePush(EncodePush(es) + suffix) == Some(es)
    ensures var after := Gossip.Pushed(self, ps, ToPeers(DecodePush(EncodePush(es) + suffix).value), now);
            id in after && Gossip.RankOf(after[id]) == Newest(Gossip.RankOf(ps[id]), id, es)
  {
    PushRoundTrip(es, suffix);
    Gossip.PushIsJoin(self, ps, ToPeers(es), now, id);
    JoinIsNewest(Gossip.RankOf(ps[id]), id, es);
  }
}
