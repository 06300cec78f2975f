/** Streams multiplexed over one connection: the Conn and Stream objects. */
module Mux {
  import opened Base
  import opened Framing

  const CONTROL_STREAM: u32 := 0
  const CONTROL_CAP := 64
  const STREAM_CAP := 16
  const ACCEPT_CAP := 64
  const MAX_ATTEMPTS := 1000

  /** queue is the readCh channel of capacity cap; an empty element is a nil slice. */
  datatype StreamState = StreamState(queue: seq<Bytes>, buf: Bytes, closed: bool, cap: nat)

  function NewStream(): StreamState {
    StreamState([], [], false, STREAM_CAP)
  }

  predicate Ready(st: StreamState) {
    st.buf != [] || st.queue != []
  }

  function Min(a: nat, b: nat): nat {
    if a < b then a else b
  }

  /** Stream.Read with a buffer of the given size: the bytes read, or None for an error.
      A nil element reads as a closed stream whether or not the stream was closed. */
  function TakeFrom(st: StreamState, size: nat): (StreamState, Option<Bytes>)
    requires Ready(st)
  {
    if st.buf != [] then
      var n := Min(size, |st.buf|);
      (st.(buf := st.buf[n..]), Some(st.buf[..n]))
    else if st.queue[0] == [] then (st.(queue := st.queue[1..]), None)
    else
      var n := Min(size, |st.queue[0]|);
      (st.(queue := st.queue[1..], buf := st.queue[0][n..]), Some(st.queue[0][..n]))
  }

  /** A read gets as many bytes as there are in front and fit the buffer: of what is left
      over if something is, else of the front of the queue. What does not fit is left over. */
  lemma TakesWhatFits(st: StreamState, size: nat)
    requires Ready(st)
    ensures var (r, front) := (TakeFrom(st, size), if st.buf != [] then st.buf else st.queue[0]);
            && (r.1.Some? <==> front != [])
            && (r.1.Some? ==> r.1.value == front[..Min(size, |front|)] && r.0.buf == front[Min(size, |front|)..])
            && r.0.queue == (if st.buf != [] then st.queue else st.queue[1..])
            && r.0.closed == st.closed && r.0.cap == st.cap
  {
  }

  type Streams = map<u32, StreamState>

  /** The end of a stream as its reader sees it; the nil is lost when the queue is full. */
  function Notified(st: StreamState): StreamState {
    st.(closed := true, queue := if |st.queue| < st.cap then st.queue + [[]] else st.queue)
  }

  function Told(st: StreamState): StreamState {
    if st.closed then st else Notified(st)
  }

  /** A stream that is told is closed, and a nil is behind all it holds if there was room. */
  lemma EndAnnounced(st: StreamState)
    ensures Notified(st) == StreamState(if |st.queue| < st.cap then st.queue + [[]] else st.queue, st.buf, true, st.cap)
  {
  }

  /** All streams but some have been told. */
  function ToldBut(ss: Streams, todo: set<u32>): Streams {
    map id | id in ss :: if id in todo then ss[id] else Told(ss[id])
  }

  lemma OneMoreTold(ss: Streams, todo: set<u32>, id: u32)
    requires id in todo && id in ss
    ensures ToldBut(ss, todo)[id] == ss[id]
    ensures ToldBut(ss, todo - {id}) == ToldBut(ss, todo)[id := Told(ss[id])]
  {
  }

  /** When all have been told every stream is closed; those that were open have the nil behind
      all they hold, if there was room, and those that were closed are as they were. */
  lemma EndsAnnounced(ss: Streams, id: u32)
    requires id in ss
    ensures ToldBut(ss, {}).Keys == ss.Keys
    ensures var (st, told) := (ss[id], ToldBut(ss, {})[id]);
            && told.closed && told.buf == st.buf && told.cap == st.cap
            && told.queue == st.queue + if !st.closed && |st.queue| < st.cap then [[]] else []
  {
    assert ss[id].queue + [] == ss[id].queue;
  }

  predicate HasRoom(ss: Streams, f: Frame) {
    f.kind != FRAME_CLOSE && f.id in ss ==> |ss[f.id].queue| < ss[f.id].cap
  }

  /** One round of readLoop on a frame: unknown streams are created, a close frame removes
      its stream, anything else queues its payload. */
  function Demuxed(ss: Streams, f: Frame): Streams {
    var st := if f.id in ss then ss[f.id] else NewStream();
    if f.kind == FRAME_CLOSE then ss - {f.id}
    else ss[f.id := st.(queue := st.queue + [f.payload])]
  }

  /** The streams once one of them exists. */
  function Met(ss: Streams, id: u32): Streams {
    if id in ss then ss else ss[id := NewStream()]
  }

  /** A full queue belongs to a stream that has been there before. */
  lemma MetAlready(ss: Streams, f: Frame)
    requires !HasRoom(Met(ss, f.id), f)
    ensures Met(ss, f.id) == ss
  {
  }

  lemma MetFirst(ss: Streams, f: Frame)
    ensures Demuxed(Met(ss, f.id), f) == Demuxed(ss, f) && (HasRoom(Met(ss, f.id), f) <==> HasRoom(ss, f))
  {
  }

  /** The identifier that OpenStream tries after this one. */
  function NextID(id: u32): u32 {
    var n := AddU32(id, 2);
    if n < 2 then 1 else n
  }

  /** The identifier of the given attempt. */
  function Attempt(id: u32, k: nat): u32 {
    if k == 0 then id else NextID(Attempt(id, k - 1))
  }

  lemma AddTwo(a: nat)
    ensures (a % TWO_32 + 2) % TWO_32 == (a + 2) % TWO_32
  {
    var q, r := a / TWO_32, a % TWO_32;
    assert a + 2 == q * TWO_32 + (r + 2);
    if r + 2 < TWO_32 {
      assert (a + 2) / TWO_32 == q;
    } else {
      assert (a + 2) / TWO_32 == q + 1;
    }
  }

  lemma NextIsOdd(id: u32)
    requires id % 2 == 1
    ensures NextID(id) == (id + 2) % TWO_32 && NextID(id) % 2 == 1
  {
    assert id + 2 >= TWO_32 ==> id + 2 == TWO_32 + 1;
  }

  lemma {:induction false} AttemptIsOdd(id: u32, k: nat)
    requires id % 2 == 1
    ensures Attempt(id, k) % 2 == 1 && Attempt(id, k) == (id + 2 * k) % TWO_32
  {
    if k > 0 {
      AttemptIsOdd(id, k - 1);
      NextIsOdd(Attempt(id, k - 1));
      AddTwo(id + 2 * (k - 1));
    }
  }

  lemma ModDiffers(a: nat, b: nat)
    requires 0 < b - a < TWO_32
    ensures a % TWO_32 != b % TWO_32
  {
    var (x, y) := (a / TWO_32, b / TWO_32);
    assert a == x * TWO_32 + a % TWO_32 && b == y * TWO_32 + b % TWO_32;
    if x < y {
      assert y * TWO_32 >= (x + 1) * TWO_32;
    }
  }

  /** No identifier is tried twice within a round of the odd numbers, wrap included. */
  lemma AttemptsDiffer(id: u32, j: nat, k: nat)
    requires id % 2 == 1 && j < k < j + 0x8000_0000
    ensures Attempt(id, j) != Attempt(id, k)
  {
    AttemptIsOdd(id, j);
    AttemptIsOdd(id, k);
    ModDiffers(id + 2 * j, id + 2 * k);
  }

  class Stream {
    const id: u32
    const cap: nat
    var queue: seq<Bytes>
    var buf: Bytes
    var closed: bool

    constructor (id: u32, cap: nat)
      ensures this.id == id && State() == StreamState([], [], false, cap)
    {
      this.id, this.cap := id, cap;
      queue, buf, closed := [], [], false;
    }

    function State(): StreamState
      reads this
    {
      StreamState(queue, buf, closed, cap)
    }

    /** Stream.Read; without buffered or queued data the call would block. */
    method Read(size: nat) returns (data: Option<Bytes>)
      requires Ready(State())
      modifies this
      ensures (State(), data) == TakeFrom(old(State()), size)
    {
      if |buf| > 0 {
        var n := Min(size, |buf|);
        data := Some(buf[..n]);
        buf := buf[n..];
        return;
      }
      var front := queue[0];
      queue := queue[1..];
      if |front| == 0 {
        return None;
      }
      var n := Min(size, |front|);
      if n < |front| {
        buf := front[n..];
      }
      data := Some(front[..n]);
    }

    /** Stream.Write on the connection's writer. */
    method Write(raw: Writer, b: Bytes) returns (ok: bool)
      modifies raw
      ensures closed || |b| > MAX_FRAME ==> !ok && raw.out == old(raw.out)
      ensures |b| <= MAX_FRAME ==> old(raw.out) <= raw.out <= old(raw.out) + EncodeFrame(Frame(FRAME_DATA, id, b))
      ensures ok ==> raw.out == old(raw.out) + EncodeFrame(Frame(FRAME_DATA, id, b))
      ensures raw.faulty <==> old(raw.faulty) || (!closed && |b| <= MAX_FRAME && !ok)
    {
      if closed {
        return false;
      }
      ok := WriteFrame(raw, Frame(FRAME_DATA, id, b));
    }

    /** Stream.Close: the close frame is sent by the first call and by no other. */
    method Close(raw: Writer) returns (ok: bool)
      modifies this, raw
      ensures State() == old(State()).(closed := true)
      ensures old(closed) ==> ok && raw.out == old(raw.out)
      ensures old(raw.out) <= raw.out <= old(raw.out) + EncodeFrame(Frame(FRAME_CLOSE, id, []))
      ensures ok && !old(closed) ==> raw.out == old(raw.out) + EncodeFrame(Frame(FRAME_CLOSE, id, []))
      ensures raw.faulty <==> old(raw.faulty) || !ok
    {
      if closed {
        return true;
      }
      closed := true;
      ok := WriteFrame(raw, Frame(FRAME_CLOSE, id, []));
    }

    /** The non-blocking send of nil that announces the end. */
    method NotifyClosed()
      modifies this
      ensures State() == Notified(old(State()))
      ensures closed && buf == old(buf) && queue == old(queue) + if |old(queue)| < cap then [[]] else []
    {
      closed := true;
      if |queue| < cap {
        queue := queue + [[]];
      }
    }
  }

  class Conn {
    var streams: map<u32, Stream>
    var nextID: u32
    var closed: bool
    /** The accept channel. */
    var backlog: seq<Stream>
    /** The new stream with which readLoop waits for room in the channel. */
    var offering: Stream?

    ghost function Objects(): set<Stream>
      reads this
    {
      set id | id in streams :: streams[id]
    }

    ghost predicate Valid()
      reads this, Objects()
    {
      && nextID % 2 == 1 && (forall id :: id in streams ==> streams[id].id == id)
      && |backlog| <= ACCEPT_CAP
      && (offering != null ==> offering.id in streams && streams[offering.id] == offering)
    }

    ghost function View(): Streams
      reads this, Objects()
    {
      map id | id in streams :: streams[id].State()
    }

    constructor ()
      ensures Valid() && !closed && backlog == [] && offering == null
      ensures View() == map[CONTROL_STREAM := StreamState([], [], false, CONTROL_CAP)]
    {
      var control := new Stream(CONTROL_STREAM, CONTROL_CAP);
      streams, nextID, closed, backlog, offering := map[CONTROL_STREAM := control], 1, false, [], null;
    }

    /** A new stream gets the first free identifier among the next thousand odd ones; the
        call fails only when all of these are in use or the connection is closed. */
    method OpenStream() returns (s: Stream?)
      requires Valid()
      modifies this`streams, this`nextID
      ensures Valid()
      ensures old(closed) ==> s == null && streams == old(streams) && nextID == old(nextID)
      ensures s == null && !old(closed) ==>
                streams == old(streams) && forall j :: 0 <= j < MAX_ATTEMPTS ==> Attempt(old(nextID), j) in streams
      ensures s != null ==>
                && !old(closed) && fresh(s) && s.State() == NewStream()
                && s.id !in old(streams) && s.id % 2 == 1 && s.id != CONTROL_STREAM
                && streams == old(streams)[s.id := s] && nextID == NextID(s.id)
                && exists j: nat :: j < MAX_ATTEMPTS && s.id == Attempt(old(nextID), j)
                                    && forall i :: 0 <= i < j ==> Attempt(old(nextID), i) in old(streams)
    {
      if closed {
        return null;
      }
      for attempts := 0 to MAX_ATTEMPTS
        invariant streams == old(streams) && nextID == Attempt(old(nextID), attempts) && nextID % 2 == 1
        invariant forall i :: 0 <= i < attempts ==> Attempt(old(nextID), i) in streams
      {
        var id := nextID;
        NextIsOdd(id);
        nextID := AddU32(nextID, 2);
        if nextID < 2 {
          nextID := 1;
        }
        if id !in streams {
          s := new Stream(id, STREAM_CAP);
          streams := streams[id := s];
          return;
        }
      }
      return null;
    }

    /** A stream that is still open is told. */
    method TellEnd(s: Stream)
      requires Valid() && s.id in streams && streams[s.id] == s
      modifies s
      ensures Valid() && View() == old(View())[s.id := Told(old(s.State()))]
    {
      assert forall id :: id in streams && id != s.id ==> streams[id] != s;
      if !s.closed {
        s.NotifyClosed();
      }
    }

    method TellNext(id: u32, ghost before: Streams, ghost todo: set<u32>)
      requires Valid() && id in streams && id in todo && View() == ToldBut(before, todo)
      modifies Objects()
      ensures Valid() && View() == ToldBut(before, todo - {id})
    {
      assert id in View();
      OneMoreTold(before, todo, id);
      TellEnd(streams[id]);
    }

    /** closeAll, with the streams in an arbitrary order: every stream still open is told
        once, and a second call changes nothing. */
    method CloseAll()
      requires Valid()
      modifies this`closed, Objects()
      ensures Valid() && closed && streams == old(streams) && nextID == old(nextID)
      ensures View() == if old(closed) then old(View()) else ToldBut(old(View()), {})
    {
      if closed {
        return;
      }
      closed := true;
      ghost var before := View();
      var todo := streams.Keys;
      while todo != {}
        invariant closed && todo <= streams.Keys && Valid()
        invariant View() == ToldBut(before, todo)
        decreases |todo|
      {
        var id :| id in todo;
        TellNext(id, before, todo);
        todo := todo - {id};
      }
    }

    /** Close: only the connection is closed. Its streams are not, and nobody is told; nor
        does closeAll do it afterwards. */
    method Close()
      requires Valid()
      modifies this`closed
      ensures Valid() && closed && streams == old(streams) && View() == old(View())
    {
      if closed {
        return;
      }
      closed := true;
    }

    /** Whether the round meets a stream that the acceptor has not been offered. */
    ghost predicate MeetsNew(f: Frame)
      reads this
    {
      f.id !in streams || offering != null
    }

    /** One round of readLoop after ReadFrame. It blocks on a new stream while the accept
        channel is full, the stream being in the map already, and on a full queue. A blocked
        round goes on with the same frame once there is room. */
    method Demux(f: Frame) returns (blocked: bool)
      requires Valid() && (offering != null ==> offering.id == f.id)
      modifies this`streams, this`backlog, this`offering, Objects()
      ensures Valid() && (offering != null ==> offering.id == f.id)
      ensures var waits := old(MeetsNew(f)) && |old(backlog)| >= ACCEPT_CAP;
              && (offering != null <==> waits)
              && (blocked <==> waits || !HasRoom(old(View()), f))
              && (waits ==> View() == Met(old(View()), f.id) && backlog == old(backlog))
      ensures offering == null ==> View() == if blocked then old(View()) else Demuxed(old(View()), f)
      ensures offering == null ==>
                if old(MeetsNew(f))
                then exists s :: backlog == old(backlog) + [s] && s.id == f.id
                                 && (f.kind == FRAME_CLOSE ==> s.State() == Notified(Met(old(View()), f.id)[f.id]))
                else backlog == old(backlog)
      ensures !blocked && f.kind == FRAME_CLOSE && f.id in old(streams) ==>
                old(streams[f.id]).State() == Notified(old(streams[f.id].State()))
    {
      MetFirst(View(), f);
      var s, waiting := Meet(f.id);
      if waiting {
        return true;
      }
      blocked := f.kind != FRAME_CLOSE && |s.queue| >= s.cap;
      if !blocked {
        Dispatch(s, f);
      } else {
        MetAlready(old(View()), f);
      }
    }

    /** The stream of an identifier, offered to the acceptor if it is new. */
    method Meet(id: u32) returns (s: Stream, waiting: bool)
      requires Valid() && (offering != null ==> offering.id == id)
      modifies this`streams, this`backlog, this`offering
      ensures Valid() && id in streams && streams[id] == s && View() == Met(old(View()), id)
      ensures waiting <==> (id !in old(streams) || old(offering) != null) && |old(backlog)| >= ACCEPT_CAP
      ensures if id in old(streams) then s == old(streams)[id] else fresh(s)
      ensures if waiting then offering == s && backlog == old(backlog)
              else offering == null && backlog == old(backlog) +
                     if id !in old(streams) || old(offering) != null then [s] else []
    {
      s := StreamFor(id);
      waiting := offering != null && |backlog| >= ACCEPT_CAP;
      if offering != null && !waiting {
        backlog, offering := backlog + [s], null;
      }
    }

    /** What the frame does to its stream when the queue has room. */
    method Dispatch(s: Stream, f: Frame)
      requires Valid() && f.id in streams && streams[f.id] == s && offering == null && HasRoom(View(), f)
      modifies this`streams, s
      ensures Valid() && View() == Demuxed(old(View()), f)
      ensures f.kind == FRAME_CLOSE ==> s.State() == Notified(old(s.State()))
    {
      if f.kind == FRAME_CLOSE {
        EndStream(s);
      } else {
        Enqueue(s, f.payload);
      }
    }

    /** AcceptStream: the stream offered first, or the news that the connection is closed. */
    method AcceptStream() returns (s: Stream?)
      requires Valid() && (backlog != [] || closed)
      modifies this`backlog
      ensures Valid()
      ensures s != null ==> old(backlog) != [] && s == old(backlog)[0] && backlog == old(backlog)[1..]
      ensures s == null ==> closed && backlog == old(backlog)
    {
      var tellClosed: bool := *;
      if backlog == [] || (closed && tellClosed) {
        return null;
      }
      s, backlog := backlog[0], backlog[1..];
    }

    method EndStream(s: Stream)
      requires Valid() && s.id in streams && streams[s.id] == s && offering == null
      modifies this`streams, s
      ensures Valid() && View() == old(View()) - {s.id}
      ensures s.State() == Notified(old(s.State()))
    {
      assert forall id :: id in streams && id != s.id ==> streams[id] != s;
      s.NotifyClosed();
      streams := streams - {s.id};
    }

    method Enqueue(s: Stream, data: Bytes)
      requires Valid() && s.id in streams && streams[s.id] == s
      modifies s
      ensures Valid() && View() == old(View())[s.id := old(s.State()).(queue := old(s.queue) + [data])]
    {
      assert forall id :: id in streams && id != s.id ==> streams[id] != s;
      s.queue := s.queue + [data];
    }

    /** The stream of an identifier; a new one is to be offered to the acceptor. */
    method StreamFor(id: u32) returns (s: Stream)
      requires Valid() && (offering != null ==> offering.id == id)
      modifies this`streams, this`offering
      ensures Valid() && id in streams && streams[id] == s && View() == Met(old(View()), id)
      ensures id in old(streams) ==> streams == old(streams) && offering == old(offering)
      ensures id !in old(streams) ==> fresh(s) && streams == old(streams)[id := s] && offering == s
    {
      if id in streams {
        s := streams[id];
      } else {
        s := new Stream(id, STREAM_CAP);
        streams, offering := streams[id := s], s;
      }
    }
  }

  /** The first stream that a connection opens. */
  method OpenFirst(c: Conn) returns (s: Stream?)
    requires c.Valid() && !c.closed && c.nextID == 1 && 1 !in c.streams
    modifies c`streams, c`nextID
    ensures c.Valid() && s != null && fresh(s) && s.id == 1 && s.State() == NewStream()
    ensures c.streams == old(c.streams)[1 := s] && c.View() == old(c.View())[1 := NewStream()]
  {
    ghost var used := c.streams;
    s := c.OpenStream();
    assert Attempt(1, 0) == 1 && Attempt(1, 0) !in used;
  }

  /** A frame of the other end's first stream, when this end has just opened its own. */
  method ReceiveFirst(c: Conn, s: Stream, data: Bytes)
    requires c.Valid() && 1 in c.streams && c.streams[1] == s && s.State() == NewStream() && c.offering == null
    modifies c`streams, c`backlog, c`offering, c.Objects()
    ensures c.Valid() && c.View() == old(c.View())[1 := NewStream().(queue := [data])]
    ensures c.backlog == old(c.backlog)
  {
    assert c.View()[1] == NewStream();
    var blocked := c.Demux(Frame(FRAME_DATA, 1, data));
    assert NewStream().queue + [data] == [data];
  }

  /** Both ends count from 1. When each opens its first stream, the identifiers collide: the
      first frame of the one goes into the queue of the other's own stream, and the
      acceptor is offered nothing. */
  method OpenAtBothEnds(here: Conn, there: Conn, data: Bytes) returns (mine: Stream?, theirs: Stream?)
    requires here.Valid() && there.Valid() && here != there
    requires !here.closed && !there.closed && here.nextID == there.nextID == 1
    requires 1 !in here.streams && 1 !in there.streams && there.offering == null
    modifies here`streams, here`nextID
    modifies there`streams, there`nextID, there`backlog, there`offering, there.Objects()
    ensures mine != null && theirs != null && mine.id == theirs.id == 1
    ensures there.Valid() && there.View() == old(there.View())[1 := NewStream().(queue := [data])]
    ensures there.backlog == old(there.backlog)
  {
    mine := OpenFirst(here);
    theirs := OpenAndReceive(there, data);
  }

  method OpenAndReceive(c: Conn, data: Bytes) returns (s: Stream?)
    requires c.Valid() && !c.closed && c.nextID == 1 && 1 !in c.streams && c.offering == null
    modifies c`streams, c`nextID, c`backlog, c`offering, c.Objects()
    ensures c.Valid() && s != null && s.id == 1
    ensures c.View() == old(c.View())[1 := NewStream().(queue := [data])] && c.backlog == old(c.backlog)
  {
    s := OpenFirst(c);
    ReceiveFirst(c, s, data);
  }
}
