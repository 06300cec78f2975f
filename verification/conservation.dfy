/** One direction of a connection as a state machine, and conservation of the bytes of every
    stream under any interleaving of writes, closes, arrivals and reads. */
module Conservation {
  import opened Base
  import opened Framing
  import opened Mux

  function Concat(cs: seq<Bytes>): Bytes {
    if cs == [] then [] else cs[0] + Concat(cs[1..])
  }

  lemma {:induction false} ConcatSum(a: seq<Bytes>, b: seq<Bytes>)
    ensures Concat(a + b) == Concat(a) + Concat(b)
  {
    if a == [] {
      assert a + b == b;
    } else {
      assert (a + b)[1..] == a[1..] + b;
      ConcatSum(a[1..], b);
    }
  }

  /** The frames of one stream, in order. */
  function FramesOf(fs: seq<Frame>, id: u32): seq<Frame> {
    Filter(fs, (f: Frame) => f.id == id)
  }

  lemma FramesAppend(fs: seq<Frame>, f: Frame, id: u32)
    ensures FramesOf(fs + [f], id) == FramesOf(fs, id) + if f.id == id then [f] else []
  {
    FilterAppend(fs, f, (g: Frame) => g.id == id);
  }

  lemma FramesFront(f: Frame, rest: seq<Frame>, id: u32)
    ensures FramesOf([f] + rest, id) == (if f.id == id then [f] else []) + FramesOf(rest, id)
  {
    assert ([f] + rest)[1..] == rest;
  }

  function Payloads(fs: seq<Frame>): (r: seq<Bytes>)
    ensures |r| == |fs|
  {
    seq(|fs|, i requires 0 <= i < |fs| => fs[i].payload)
  }

  lemma PayloadsAppend(fs: seq<Frame>, f: Frame)
    ensures Payloads(fs + [f]) == Payloads(fs) + [f.payload]
  {
  }

  lemma PayloadsFront(fs: seq<Frame>)
    requires fs != []
    ensures Payloads(fs) == [fs[0].payload] + Payloads(fs[1..])
  {
  }

  /** The bytes that were read, are buffered, queued and in flight, in this order. */
  function Total(got: seq<Bytes>, buf: Bytes, queue: seq<Bytes>, flight: seq<Bytes>): Bytes {
    Concat(got) + buf + Concat(queue) + Concat(flight)
  }

  lemma ConcatOne(c: Bytes)
    ensures Concat([c]) == c
  {
  }

  lemma TotalSent(got: seq<Bytes>, buf: Bytes, queue: seq<Bytes>, flight: seq<Bytes>, c: Bytes)
    ensures Total(got, buf, queue, flight + [c]) == Total(got, buf, queue, flight) + c
  {
    ConcatSum(flight, [c]);
    ConcatOne(c);
  }

  lemma TotalArrived(got: seq<Bytes>, buf: Bytes, queue: seq<Bytes>, flight: seq<Bytes>, c: Bytes)
    ensures Total(got, buf, queue + [c], flight) == Total(got, buf, queue, [c] + flight)
  {
    ConcatSum(queue, [c]);
    ConcatOne(c);
    ConcatSum([c], flight);
  }

  lemma TotalTaken(got: seq<Bytes>, buf: Bytes, queue: seq<Bytes>, flight: seq<Bytes>,
                   c: Bytes, buf': Bytes, queue': seq<Bytes>)
    requires c + buf' + Concat(queue') == buf + Concat(queue)
    ensures Total(got + [c], buf', queue', flight) == Total(got, buf, queue, flight)
    ensures c == [] ==> Total(got, buf', queue', flight) == Total(got, buf, queue, flight)
  {
    ConcatSum(got, [c]);
    ConcatOne(c);
    var g := Concat(got);
    assert (g + c) + buf' + Concat(queue') == g + (c + buf' + Concat(queue'));
    assert g + buf + Concat(queue) == g + (buf + Concat(queue));
    if c == [] {
      assert g + c == g;
    }
  }

  // ---- The state machine ----

  /** The sender's writes, the pipe, the receiver's streams. shut are the streams that the
      sender has closed; ended are those that a close frame took out of the receiver's map
      while their readers still hold them; over, that the receiver's connection is closed.
      wrote and got record the chunks that the two applications handled per stream. */
  datatype Half = Half(pipe: Bytes, streams: Streams, ended: Streams, shut: set<u32>, over: bool,
                       wrote: map<u32, seq<Bytes>>, got: map<u32, seq<Bytes>>)

  /** Break is closeAll after the connection failed, HangUp is the receiver's Conn.Close. */
  datatype Action =
    | Write(id: u32, data: Bytes)
    | Close(id: u32)
    | Arrive
    | Take(id: u32, size: nat)
    | Break
    | HangUp

  function Chunks(m: map<u32, seq<Bytes>>, id: u32): seq<Bytes> {
    if id in m then m[id] else []
  }

  /** The stream object that a reader of this identifier has. */
  function StreamOf(h: Half, id: u32): StreamState {
    if id in h.streams then h.streams[id] else if id in h.ended then h.ended[id] else NewStream()
  }

  predicate Enabled(h: Half, a: Action) {
    match a
    case Write(_, _) => true
    case Close(_) => true
    case Arrive => !h.over && Parse(h.pipe).Got? && HasRoom(h.streams, Parse(h.pipe).frame)
    case Take(id, _) => Ready(StreamOf(h, id))
    case Break => true
    case HangUp => true
  }

  /** The streams that have ended after a frame: a close frame ends the one in the map. */
  function Ended(ss: Streams, ended: Streams, f: Frame): Streams {
    if f.kind == FRAME_CLOSE then ended[f.id := Notified(if f.id in ss then ss[f.id] else NewStream())]
    else ended
  }

  /** A write beyond the frame limit, or to a stream that was closed, fails and leaves no
      trace on the pipe; nor does a second close. */
  function Apply(h: Half, a: Action): Half
    requires Enabled(h, a)
  {
    match a
    case Write(id, data) =>
      if |data| > MAX_FRAME || id in h.shut then h
      else h.(pipe := h.pipe + EncodeFrame(Frame(FRAME_DATA, id, data)),
              wrote := h.wrote[id := Chunks(h.wrote, id) + [data]])
    case Close(id) =>
      if id in h.shut then h
      else h.(pipe := h.pipe + EncodeFrame(Frame(FRAME_CLOSE, id, [])), shut := h.shut + {id})
    case Arrive =>
      var f := Parse(h.pipe).frame;
      h.(pipe := Parse(h.pipe).rest, streams := Demuxed(h.streams, f), ended := Ended(h.streams, h.ended, f))
    case Take(id, size) =>
      var (st, data) := TakeFrom(StreamOf(h, id), size);
      h.(streams := if id in h.streams then h.streams[id := st] else h.streams,
         ended := if id in h.streams then h.ended else h.ended[id := st],
         got := if data.None? then h.got else h.got[id := Chunks(h.got, id) + [data.value]])
    case Break => if h.over then h else h.(over := true, streams := ToldBut(h.streams, {}))
    case HangUp => h.(over := true)
  }

  ghost predicate ValidRun(h: Half, acts: seq<Action>)
    decreases |acts|
  {
    acts == [] || (Enabled(h, acts[0]) && ValidRun(Apply(h, acts[0]), acts[1..]))
  }

  ghost function Exec(h: Half, acts: seq<Action>): Half
    requires ValidRun(h, acts)
    decreases |acts|
  {
    if acts == [] then h else Exec(Apply(h, acts[0]), acts[1..])
  }

  ghost predicate Fresh(h: Half) {
    h.pipe == [] && h.wrote == map[] && h.got == map[] && h.shut == {} && h.ended == map[] && !h.over
    && forall id :: id in h.streams ==> h.streams[id].queue == [] && h.streams[id].buf == []
  }

  function Flight(h: Half): seq<Frame> {
    ParseAll(h.pipe).0
  }

  ghost predicate WholeFrames(pipe: Bytes) {
    AllFit(ParseAll(pipe).0) && pipe == EncodeAll(ParseAll(pipe).0)
  }

  /** All that concerns one stream. */
  datatype StreamView = StreamView(got: seq<Bytes>, buf: Bytes, queue: seq<Bytes>, flight: seq<Frame>,
                                   wrote: seq<Bytes>)

  function ViewOf(h: Half, id: u32): StreamView {
    StreamView(Chunks(h.got, id), StreamOf(h, id).buf, StreamOf(h, id).queue, FramesOf(Flight(h), id),
               Chunks(h.wrote, id))
  }

  /** What was read, is buffered, is queued and is in flight is what was written. */
  ghost predicate Conserved(v: StreamView) {
    Total(v.got, v.buf, v.queue, Payloads(v.flight)) == Concat(v.wrote)
  }

  /** The close frame comes last: in flight while the sender has closed and the receiver has
      not heard of it, and nothing after that. */
  ghost predicate ClosesLast(fl: seq<Frame>, shut: bool, over: bool) {
    && (over ==> shut && fl == [])
    && (shut && !over ==> fl != [])
    && forall i :: 0 <= i < |fl| ==>
         (fl[i].kind == FRAME_CLOSE <==> shut && i == |fl| - 1) && (fl[i].kind == FRAME_CLOSE ==> fl[i].payload == [])
  }

  ghost predicate Whole(h: Half, id: u32) {
    && WholeFrames(h.pipe) && (id in h.ended ==> id !in h.streams)
    && ClosesLast(FramesOf(Flight(h), id), id in h.shut, id in h.ended)
  }

  lemma SendExtendsFlight(pipe: Bytes, f: Frame)
    requires WholeFrames(pipe) && Fits(f)
    ensures ParseAll(pipe + EncodeFrame(f)).0 == ParseAll(pipe).0 + [f] && WholeFrames(pipe + EncodeFrame(f))
  {
    EncodeAllAppend(ParseAll(pipe).0, f);
    SequenceInverse(ParseAll(pipe).0 + [f]);
  }

  lemma ArrivalShortensFlight(pipe: Bytes)
    requires WholeFrames(pipe) && Parse(pipe).Got?
    ensures ParseAll(pipe).0 == [Parse(pipe).frame] + ParseAll(Parse(pipe).rest).0
    ensures WholeFrames(Parse(pipe).rest)
  {
    var fs := ParseAll(pipe).0;
    assert fs[1..] == ParseAll(Parse(pipe).rest).0;
    FrameInverse(fs[0], EncodeAll(fs[1..]));
  }

  // ---- How each step shows in the view of one stream ----

  function Sent(v: StreamView, f: Frame): StreamView {
    v.(flight := v.flight + [f], wrote := if f.kind == FRAME_CLOSE then v.wrote else v.wrote + [f.payload])
  }

  /** The first frame in flight moves into the queue; a close frame may get lost there. */
  function Moved(v: StreamView, queued: bool): StreamView
    requires v.flight != []
  {
    v.(queue := if queued then v.queue + [v.flight[0].payload] else v.queue, flight := v.flight[1..])
  }

  function Taken(v: StreamView, r: (StreamState, Option<Bytes>)): StreamView {
    v.(buf := r.0.buf, queue := r.0.queue, got := if r.1.None? then v.got else v.got + [r.1.value])
  }

  ghost predicate ViewStep(v: StreamView, v': StreamView, a: Action, id: u32) {
    || v' == v
    || (a.Write? && a.id == id && v' == Sent(v, Frame(FRAME_DATA, id, a.data)))
    || (a.Close? && a.id == id && v' == Sent(v, Frame(FRAME_CLOSE, id, [])))
    || (a.Arrive? && v.flight != [] && (v' == Moved(v, true) || (v.flight[0].payload == [] && v' == Moved(v, false))))
    || (a.Take? && a.id == id && exists st :: Ready(st) && st.buf == v.buf && st.queue == v.queue
                                              && v' == Taken(v, TakeFrom(st, a.size)))
    || (a.Break? && v' == v.(queue := v.queue + [[]]))
  }

  /** h' is h with one more frame on the pipe. */
  ghost predicate Sends(h: Half, f: Frame, h': Half) {
    && Fits(f) && f.id !in h.shut && (f.kind == FRAME_CLOSE ==> f.payload == [])
    && h'.pipe == h.pipe + EncodeFrame(f) && h'.streams == h.streams && h'.ended == h.ended && h'.got == h.got
    && h'.shut == if f.kind == FRAME_CLOSE then h.shut + {f.id} else h.shut
  }

  lemma SendKeepsWhole(h: Half, f: Frame, h': Half, id: u32)
    requires Whole(h, id) && Sends(h, f, h')
    ensures Whole(h', id)
  {
    FlightMore(h, f, h', id);
    var fl := FramesOf(Flight(h), id);
    if f.id == id {
      CloseOrderMore(fl, f, id in h.ended);
    } else {
      assert fl + [] == fl;
    }
  }

  lemma SendView(h: Half, f: Frame, h': Half, id: u32)
    requires Whole(h, id) && Sends(h, f, h')
    requires Chunks(h'.wrote, id) ==
             Chunks(h.wrote, id) + if f.id == id && f.kind != FRAME_CLOSE then [f.payload] else []
    ensures Whole(h', id)
    ensures ViewOf(h', id) == if f.id == id then Sent(ViewOf(h, id), f) else ViewOf(h, id)
  {
    SendKeepsWhole(h, f, h', id);
    FlightMore(h, f, h', id);
  }

  lemma FlightMore(h: Half, f: Frame, h': Half, id: u32)
    requires WholeFrames(h.pipe) && Fits(f) && h'.pipe == h.pipe + EncodeFrame(f)
    ensures WholeFrames(h'.pipe)
    ensures FramesOf(Flight(h'), id) == FramesOf(Flight(h), id) + if f.id == id then [f] else []
  {
    SendExtendsFlight(h.pipe, f);
    FramesAppend(Flight(h), f, id);
  }

  lemma CloseOrderMore(fl: seq<Frame>, f: Frame, over: bool)
    requires ClosesLast(fl, false, over) && (f.kind == FRAME_CLOSE ==> f.payload == [])
    ensures ClosesLast(fl + [f], f.kind == FRAME_CLOSE, over)
  {
  }

  lemma WriteView(h: Half, w: u32, data: Bytes, id: u32)
    requires Whole(h, id)
    ensures var (h', a) := (Apply(h, Write(w, data)), Write(w, data));
            Whole(h', id) && ViewStep(ViewOf(h, id), ViewOf(h', id), a, id)
  {
    if |data| <= MAX_FRAME && w !in h.shut {
      SendView(h, Frame(FRAME_DATA, w, data), Apply(h, Write(w, data)), id);
    }
  }

  lemma CloseView(h: Half, w: u32, id: u32)
    requires Whole(h, id)
    ensures Whole(Apply(h, Close(w)), id) && ViewStep(ViewOf(h, id), ViewOf(Apply(h, Close(w)), id), Close(w), id)
  {
    if w !in h.shut {
      SendView(h, Frame(FRAME_CLOSE, w, []), Apply(h, Close(w)), id);
    }
  }

  /** A frame touches its own stream only. */
  lemma ArrivedStream(h: Half, h': Half, f: Frame, id: u32)
    requires h'.streams == Demuxed(h.streams, f) && h'.ended == Ended(h.streams, h.ended, f)
    requires id in h.ended ==> id !in h.streams && f.id != id
    ensures id in h'.ended ==> id !in h'.streams
    ensures id in h'.ended <==> id in h.ended || (f.id == id && f.kind == FRAME_CLOSE)
    ensures var (before, after) := (StreamOf(h, id), StreamOf(h', id));
            && after.buf == before.buf
            && (f.id != id ==> after.queue == before.queue)
            && (f.id == id ==> after.queue == before.queue + [f.payload]
                               || (f.kind == FRAME_CLOSE && after.queue == before.queue)
                               || (f.kind == FRAME_CLOSE && after.queue == before.queue + [[]]))
  {
  }

  lemma CloseOrderTail(fl: seq<Frame>, shut: bool, over: bool)
    requires ClosesLast(fl, shut, over) && fl != []
    ensures ClosesLast(fl[1..], shut, over || fl[0].kind == FRAME_CLOSE)
    ensures fl[0].kind == FRAME_CLOSE ==> fl[0].payload == []
  {
  }

  lemma ArriveView(h: Half, id: u32)
    requires Whole(h, id) && Enabled(h, Arrive)
    ensures Whole(Apply(h, Arrive), id)
    ensures ViewStep(ViewOf(h, id), ViewOf(Apply(h, Arrive), id), Arrive, id)
  {
    var (f, rest, h') := (Parse(h.pipe).frame, ParseAll(Parse(h.pipe).rest).0, Apply(h, Arrive));
    ArrivalShortensFlight(h.pipe);
    FramesFront(f, rest, id);
    var fl := FramesOf(Flight(h), id);
    if f.id == id {
      assert fl[0] == f && fl[1..] == FramesOf(rest, id);
      CloseOrderTail(fl, id in h.shut, id in h.ended);
    }
    ArrivedStream(h, h', f, id);
  }

  lemma TakeView(h: Half, r: u32, size: nat, id: u32)
    requires Whole(h, id) && Enabled(h, Take(r, size))
    ensures Whole(Apply(h, Take(r, size)), id)
    ensures ViewStep(ViewOf(h, id), ViewOf(Apply(h, Take(r, size)), id), Take(r, size), id)
  {
    var (h', st) := (Apply(h, Take(r, size)), StreamOf(h, r));
    if r == id {
      assert ViewOf(h', id) == Taken(ViewOf(h, id), TakeFrom(st, size));
    } else {
      assert ViewOf(h', id) == ViewOf(h, id);
    }
  }

  lemma BreakView(h: Half, id: u32)
    requires Whole(h, id)
    ensures Whole(Apply(h, Break), id) && ViewStep(ViewOf(h, id), ViewOf(Apply(h, Break), id), Break, id)
  {
    if id in h.streams {
      EndsAnnounced(h.streams, id);
      assert h.streams[id].queue + [] == h.streams[id].queue;
    }
  }

  lemma StepIsViewStep(h: Half, a: Action, id: u32)
    requires Whole(h, id) && Enabled(h, a)
    ensures Whole(Apply(h, a), id) && ViewStep(ViewOf(h, id), ViewOf(Apply(h, a), id), a, id)
  {
    match a {
      case Write(w, data) => WriteView(h, w, data, id);
      case Close(w) => CloseView(h, w, id);
      case Arrive => ArriveView(h, id);
      case Take(r, size) => TakeView(h, r, size, id);
      case Break => BreakView(h, id);
      case HangUp =>
    }
  }

  // ---- Conservation ----

  /** Reading splits what the stream holds into the bytes read and what remains. */
  lemma TakeSplits(st: StreamState, size: nat)
    requires Ready(st)
    ensures var r := TakeFrom(st, size);
            (if r.1.Some? then r.1.value else []) + r.0.buf + Concat(r.0.queue) == st.buf + Concat(st.queue)
  {
    if st.buf != [] {
      var n := Min(size, |st.buf|);
      assert st.buf[..n] + st.buf[n..] == st.buf;
    } else {
      var n := Min(size, |st.queue[0]|);
      assert st.queue[0][..n] + st.queue[0][n..] == st.queue[0];
    }
  }

  lemma ConservedSent(v: StreamView, f: Frame)
    requires Conserved(v) && (f.kind == FRAME_CLOSE ==> f.payload == [])
    ensures Conserved(Sent(v, f))
  {
    PayloadsAppend(v.flight, f);
    TotalSent(v.got, v.buf, v.queue, Payloads(v.flight), f.payload);
    ConcatSum(v.wrote, [f.payload]);
    ConcatOne(f.payload);
  }

  lemma ConservedMoved(v: StreamView, queued: bool)
    requires Conserved(v) && v.flight != [] && (queued || v.flight[0].payload == [])
    ensures Conserved(Moved(v, queued))
  {
    PayloadsFront(v.flight);
    TotalArrived(v.got, v.buf, v.queue, Payloads(v.flight[1..]), v.flight[0].payload);
    if !queued {
      ConcatSum(v.queue, [[]]);
      ConcatOne([]);
    }
  }

  lemma ConservedTold(v: StreamView)
    requires Conserved(v)
    ensures Conserved(v.(queue := v.queue + [[]]))
  {
    ConcatSum(v.queue, [[]]);
    ConcatOne([]);
    assert Concat(v.queue) + [] == Concat(v.queue);
  }

  lemma ConservedTaken(v: StreamView, st: StreamState, size: nat)
    requires Conserved(v) && Ready(st) && st.buf == v.buf && st.queue == v.queue
    ensures Conserved(Taken(v, TakeFrom(st, size)))
  {
    var t := TakeFrom(st, size);
    TakeSplits(st, size);
    TotalTaken(v.got, v.buf, v.queue, Payloads(v.flight), if t.1.Some? then t.1.value else [], t.0.buf, t.0.queue);
  }

  lemma ConservedStep(v: StreamView, v': StreamView, a: Action, id: u32)
    requires Conserved(v) && ViewStep(v, v', a, id)
    ensures Conserved(v')
  {
    if v' != v {
      match a {
        case Write(_, data) => ConservedSent(v, Frame(FRAME_DATA, id, data));
        case Close(_) => ConservedSent(v, Frame(FRAME_CLOSE, id, []));
        case Arrive => ConservedMoved(v, v' == Moved(v, true));
        case Take(_, size) =>
          var st :| Ready(st) && st.buf == v.buf && st.queue == v.queue && v' == Taken(v, TakeFrom(st, size));
          ConservedTaken(v, st, size);
        case Break => ConservedTold(v);
      }
    }
  }

  lemma StepConserves(h: Half, a: Action, id: u32)
    requires Whole(h, id) && Conserved(ViewOf(h, id)) && Enabled(h, a)
    ensures Whole(Apply(h, a), id) && Conserved(ViewOf(Apply(h, a), id))
  {
    StepIsViewStep(h, a, id);
    ConservedStep(ViewOf(h, id), ViewOf(Apply(h, a), id), a, id);
  }

  /** Stream conservation: under any interleaving of writes, closes, arrivals and reads with
      buffers of any size, on any number of streams, every stream delivers its bytes in
      order, none lost, duplicated or moved between streams. */
  lemma {:induction false} BytesAreConserved(h: Half, acts: seq<Action>, id: u32)
    requires Whole(h, id) && Conserved(ViewOf(h, id)) && ValidRun(h, acts)
    ensures Whole(Exec(h, acts), id) && Conserved(ViewOf(Exec(h, acts), id))
    decreases |acts|
  {
    if acts != [] {
      StepConserves(h, acts[0], id);
      BytesAreConserved(Apply(h, acts[0]), acts[1..], id);
    }
  }

  lemma FreshView(h: Half, id: u32)
    requires Fresh(h)
    ensures Whole(h, id) && ViewOf(h, id) == StreamView([], [], [], [], [])
  {
    assert ParseAll([]).0 == [];
  }

  lemma ConservedPrefix(v: StreamView)
    requires Conserved(v)
    ensures Concat(v.got) <= Concat(v.wrote)
  {
    var rest := v.buf + Concat(v.queue) + Concat(Payloads(v.flight));
    assert Total(v.got, v.buf, v.queue, Payloads(v.flight)) == Concat(v.got) + rest;
  }

  /** In particular what the reader has is always a prefix of what the writer sent. */
  lemma ReaderSeesPrefix(h: Half, acts: seq<Action>, id: u32)
    requires Fresh(h) && ValidRun(h, acts)
    ensures Conserved(ViewOf(Exec(h, acts), id))
    ensures Concat(Chunks(Exec(h, acts).got, id)) <= Concat(Chunks(Exec(h, acts).wrote, id))
  {
    FreshView(h, id);
    BytesAreConserved(h, acts, id);
    ConservedPrefix(ViewOf(Exec(h, acts), id));
  }

  /** A close loses nothing: once the close frame has arrived, a reader that has read its
      stream to the end has everything that was ever written to it. */
  lemma EndedStreamIsComplete(h: Half, acts: seq<Action>, id: u32)
    requires Fresh(h) && ValidRun(h, acts)
    requires id in Exec(h, acts).ended && !Ready(StreamOf(Exec(h, acts), id))
    ensures Concat(Chunks(Exec(h, acts).got, id)) == Concat(Chunks(Exec(h, acts).wrote, id))
  {
    FreshView(h, id);
    BytesAreConserved(h, acts, id);
    var v := ViewOf(Exec(h, acts), id);
    assert Payloads(v.flight) == [];
    assert Total(v.got, [], [], []) == Concat(v.got);
  }

  // ---- Message boundaries ----

  /** Writes to the stream are never empty and fit the reader's buffer. */
  predicate Sized(a: Action, id: u32, limit: nat) {
    && (a.Write? && a.id == id ==> 0 < |a.data| <= limit)
    && (a.Take? && a.id == id ==> a.size >= limit)
  }

  /** The elements that carry data; the others announce the end. */
  function Full(cs: seq<Bytes>): seq<Bytes> {
    Filter(cs, (c: Bytes) => c != [])
  }

  lemma FullAppend(cs: seq<Bytes>, c: Bytes)
    ensures Full(cs + [c]) == Full(cs) + if c != [] then [c] else []
  {
    FilterAppend(cs, c, (d: Bytes) => d != []);
  }

  /** Chunk by chunk: one read is one frame's payload. */
  ghost predicate Aligned(v: StreamView, limit: nat) {
    && v.buf == [] && v.got + Full(v.queue) + Full(Payloads(v.flight)) == v.wrote
    && forall c :: c in v.wrote ==> 0 < |c| <= limit
  }

  /** With nothing left over a read returns the payload of the frame at the front, whole,
      exactly when that payload is not empty and fits the buffer. */
  lemma ReadsWholeIff(st: StreamState, size: nat)
    requires st.buf == [] && st.queue != []
    ensures TakeFrom(st, size).1 == Some(st.queue[0]) <==> 0 < |st.queue[0]| <= size
    ensures TakeFrom(st, size).1 == None <==> st.queue[0] == []
  {
    var front := st.queue[0];
    if front != [] {
      assert |front[..Min(size, |front|)]| == Min(size, |front|);
      assert front[..|front|] == front;
    }
  }

  /** A read returns the payload of exactly one frame, or learns of the end. */
  lemma AlignedTake(v: StreamView, st: StreamState, size: nat, limit: nat)
    requires Aligned(v, limit) && size >= limit && Ready(st) && st.buf == v.buf && st.queue == v.queue
    ensures TakeFrom(st, size).1 == if st.queue[0] == [] then None else Some(st.queue[0])
    ensures Aligned(Taken(v, TakeFrom(st, size)), limit)
  {
    var q := st.queue;
    if q[0] != [] {
      assert Full(q) == [q[0]] + Full(q[1..]);
      assert q[0] == v.wrote[|v.got|] && q[0] in v.wrote;
      assert q[0][..|q[0]|] == q[0] && q[0][|q[0]|..] == [];
      assert v.got + [q[0]] + Full(q[1..]) == v.got + Full(q);
    }
  }

  lemma AlignedMoved(v: StreamView, queued: bool, limit: nat)
    requires Aligned(v, limit) && v.flight != [] && (queued || v.flight[0].payload == [])
    ensures Aligned(Moved(v, queued), limit)
  {
    PayloadsFront(v.flight);
    FullMoved(v.got, v.queue, v.flight[0].payload, Payloads(v.flight[1..]));
  }

  lemma FullMoved(got: seq<Bytes>, queue: seq<Bytes>, c: Bytes, rest: seq<Bytes>)
    ensures got + Full(queue) + Full([c] + rest) == got + Full(queue + [c]) + Full(rest)
    ensures c == [] ==> Full([c] + rest) == Full(rest)
  {
    FullAppend(queue, c);
    assert ([c] + rest)[1..] == rest;
    if c != [] {
      assert got + Full(queue) + ([c] + Full(rest)) == got + (Full(queue) + [c]) + Full(rest);
    }
  }

  lemma AlignedSent(v: StreamView, f: Frame, limit: nat)
    requires Aligned(v, limit) && (f.kind == FRAME_CLOSE <==> f.payload == []) && |f.payload| <= limit
    ensures Aligned(Sent(v, f), limit)
  {
    PayloadsAppend(v.flight, f);
    FullAppend(Payloads(v.flight), f.payload);
  }

  lemma AlignedStep(v: StreamView, v': StreamView, a: Action, id: u32, limit: nat)
    requires Aligned(v, limit) && ViewStep(v, v', a, id) && Sized(a, id, limit)
    ensures Aligned(v', limit)
  {
    if v' != v {
      match a {
        case Write(_, data) => AlignedSent(v, Frame(FRAME_DATA, id, data), limit);
        case Close(_) => AlignedSent(v, Frame(FRAME_CLOSE, id, []), limit);
        case Arrive => AlignedMoved(v, v' == Moved(v, true), limit);
        case Take(_, size) =>
          var st :| Ready(st) && st.buf == v.buf && st.queue == v.queue && v' == Taken(v, TakeFrom(st, size));
          AlignedTake(v, st, size, limit);
        case Break => FullAppend(v.queue, []);
      }
    }
  }

  lemma AlignedPrefix(v: StreamView, limit: nat)
    requires Aligned(v, limit)
    ensures v.got <= v.wrote
  {
  }

  /** The control stream as the node uses it, with non-empty messages no longer than the
      read buffer: the sequence of successful reads is the sequence of writes so far, each
      read returning one whole message, with the remainder queued or in flight. */
  lemma {:induction false} MessagesStayWhole(h: Half, acts: seq<Action>, id: u32, limit: nat)
    requires Whole(h, id) && Aligned(ViewOf(h, id), limit)
    requires ValidRun(h, acts) && forall a :: a in acts ==> Sized(a, id, limit)
    ensures Aligned(ViewOf(Exec(h, acts), id), limit)
    ensures Chunks(Exec(h, acts).got, id) <= Chunks(Exec(h, acts).wrote, id)
    decreases |acts|
  {
    if acts == [] {
      AlignedPrefix(ViewOf(h, id), limit);
    } else {
      var a := acts[0];
      assert a in acts;
      StepIsViewStep(h, a, id);
      AlignedStep(ViewOf(h, id), ViewOf(Apply(h, a), id), a, id, limit);
      MessagesStayWhole(Apply(h, a), acts[1..], id, limit);
    }
  }

  // ---- Empty writes ----

  lemma EmptyFrameArrives(h: Half, id: u32)
    requires h.pipe == [] && id !in h.shut && id !in h.ended && !h.over
    requires id in h.streams ==> h.streams[id].queue == [] && h.streams[id].cap > 0
    ensures var sent := Apply(h, Write(id, []));
            && Enabled(sent, Arrive)
            && Apply(sent, Arrive).streams == h.streams[id := StreamOf(h, id).(queue := [[]])]
            && Apply(sent, Arrive).got == h.got
  {
    var f := Frame(FRAME_DATA, id, []);
    FrameInverse(f, []);
    assert h.pipe + EncodeFrame(f) == EncodeFrame(f) + [];
    assert StreamOf(h, id).queue + [[]] == [[]];
  }

  /** An empty write to an open stream: once the frame has arrived, the reader is told that
      the stream is closed, while it is open and nothing was lost. */
  lemma EmptyWriteReadsClosed(h: Half, id: u32, size: nat)
    requires Fresh(h) && (id in h.streams ==> h.streams[id].cap > 0 && !h.streams[id].closed)
    ensures var sent := Apply(h, Write(id, []));
            Enabled(sent, Arrive) &&
            (var arrived := Apply(sent, Arrive);
             && Enabled(arrived, Take(id, size)) && !arrived.streams[id].closed
             && TakeFrom(arrived.streams[id], size).1 == None
             && Conserved(ViewOf(Apply(arrived, Take(id, size)), id)))
  {
    EmptyFrameArrives(h, id);
    FreshView(h, id);
    var sent := Apply(h, Write(id, []));
    var arrived := Apply(sent, Arrive);
    StepConserves(h, Write(id, []), id);
    StepConserves(sent, Arrive, id);
    StepConserves(arrived, Take(id, size), id);
  }
}
