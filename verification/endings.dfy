/** How streams end: what a reader still gets and whether it is told, when its stream is
    closed, when the connection breaks and when it is hung up; and that everything that is
    sent can be received. */
module Endings {
  import opened Base
  import opened Framing
  import opened Mux
  import opened Conservation

  /** The elements that read as the end. */
  function Blanks(q: seq<Bytes>): nat {
    if q == [] then 0 else Blanks(q[..|q| - 1]) + if q[|q| - 1] == [] then 1 else 0
  }

  lemma {:induction false} BlanksFront(q: seq<Bytes>)
    requires q != []
    ensures Blanks(q) == (if q[0] == [] then 1 else 0) + Blanks(q[1..])
  {
    var last := |q| - 1;
    if last == 0 {
      assert q[..0] == q[1..] == [];
    } else {
      BlanksFront(q[..last]);
      assert q[..last][1..] == q[1..][..last - 1];
    }
  }

  lemma BlanksMore(q: seq<Bytes>, c: Bytes)
    ensures Blanks(q + [c]) == Blanks(q) + if c == [] then 1 else 0
  {
    assert (q + [c])[..|q|] == q;
  }

  /** How often in a run a read of the stream reports its end. */
  ghost function Ends(h: Half, acts: seq<Action>, id: u32): nat
    requires ValidRun(h, acts)
    decreases |acts|
  {
    if acts == [] then 0
    else
      var a := acts[0];
      (if a.Take? && a.id == id && TakeFrom(StreamOf(h, id), a.size).1.None? then 1 else 0)
      + Ends(Apply(h, a), acts[1..], id)
  }

  /** The bytes that a reader has not read yet. */
  function Held(st: StreamState): Bytes {
    st.buf + Concat(st.queue)
  }

  /** The last thing a reader will find is the announcement of the end. */
  predicate EndsBlank(st: StreamState) {
    if st.queue == [] then st.buf == [] else st.queue[|st.queue| - 1] == []
  }

  lemma TakeCounts(st: StreamState, size: nat)
    requires Ready(st)
    ensures var (after, data) := TakeFrom(st, size);
            && Blanks(after.queue) + (if data.None? then 1 else 0) == Blanks(st.queue)
            && (EndsBlank(st) ==> EndsBlank(after)) && after.closed == st.closed
  {
    if st.buf == [] {
      BlanksFront(st.queue);
    }
  }

  lemma ReadyIffBlank(st: StreamState)
    requires EndsBlank(st)
    ensures Ready(st) <==> Blanks(st.queue) > 0
  {
  }

  // ---- No more input ----

  /** Nothing will be added to the stream: its close frame has arrived, or the receiver's
      connection is closed. */
  predicate Over(h: Half, id: u32) {
    h.over || id in h.ended
  }

  lemma NotInFlight(h: Half, id: u32)
    requires Whole(h, id) && id in h.ended && Parse(h.pipe).Got?
    ensures Parse(h.pipe).frame.id != id
  {
    ArrivalShortensFlight(h.pipe);
    FramesFront(Parse(h.pipe).frame, ParseAll(Parse(h.pipe).rest).0, id);
  }

  /** What the reader gets from one read. */
  function Read(data: Option<Bytes>): seq<Bytes> {
    if data.None? then [] else [data.value]
  }

  lemma ReadsOwn(h: Half, size: nat, id: u32)
    requires Ready(StreamOf(h, id))
    ensures var (h', r) := (Apply(h, Take(id, size)), TakeFrom(StreamOf(h, id), size));
            && StreamOf(h', id) == r.0 && Chunks(h'.got, id) == Chunks(h.got, id) + Read(r.1)
            && h'.over == h.over && (id in h.ended ==> id in h'.ended)
  {
    assert Chunks(h.got, id) + [] == Chunks(h.got, id);
  }

  /** A frame of another stream. */
  lemma FrameElsewhere(h: Half, id: u32)
    requires Enabled(h, Arrive) && Parse(h.pipe).frame.id != id
    ensures StreamOf(Apply(h, Arrive), id) == StreamOf(h, id) && (id in h.ended ==> id in Apply(h, Arrive).ended)
  {
  }

  lemma BreakElsewhere(h: Half, id: u32)
    requires Over(h, id) && (id in h.ended ==> id !in h.streams)
    ensures StreamOf(Apply(h, Break), id) == StreamOf(h, id) && Over(Apply(h, Break), id)
  {
  }

  lemma ReadElsewhere(h: Half, r: u32, size: nat, id: u32)
    requires Over(h, id) && r != id && Ready(StreamOf(h, r))
    ensures StreamOf(Apply(h, Take(r, size)), id) == StreamOf(h, id) && Over(Apply(h, Take(r, size)), id)
    ensures Chunks(Apply(h, Take(r, size)).got, id) == Chunks(h.got, id)
  {
  }

  lemma LeavesAlone(h: Half, a: Action, id: u32)
    requires Whole(h, id) && Over(h, id) && Enabled(h, a) && !(a.Take? && a.id == id)
    ensures var h' := Apply(h, a);
            StreamOf(h', id) == StreamOf(h, id) && Chunks(h'.got, id) == Chunks(h.got, id) && Over(h', id)
  {
    match a {
      case Write(_, _) =>
      case Close(_) =>
      case Arrive =>
        NotInFlight(h, id);
        FrameElsewhere(h, id);
      case Take(r, size) => ReadElsewhere(h, r, size, id);
      case Break => BreakElsewhere(h, id);
      case HangUp =>
    }
  }

  /** From then on only its reader changes the stream. */
  lemma OnlyReads(h: Half, a: Action, id: u32)
    requires Whole(h, id) && Over(h, id) && Enabled(h, a)
    ensures Over(Apply(h, a), id)
    ensures var (h', st) := (Apply(h, a), StreamOf(h, id));
            if a.Take? && a.id == id then
              && StreamOf(h', id) == TakeFrom(st, a.size).0
              && Chunks(h'.got, id) == Chunks(h.got, id) + Read(TakeFrom(st, a.size).1)
            else StreamOf(h', id) == st && Chunks(h'.got, id) == Chunks(h.got, id)
  {
    if a.Take? && a.id == id {
      ReadsOwn(h, a.size, id);
    } else {
      LeavesAlone(h, a, id);
    }
  }

  lemma ReadKeepsTotal(got: seq<Bytes>, st: StreamState, size: nat)
    requires Ready(st)
    ensures var r := TakeFrom(st, size);
            Concat(got + Read(r.1)) + Held(r.0) == Concat(got) + Held(st)
  {
    var r := TakeFrom(st, size);
    TakeSplits(st, size);
    Shift(got, r.1, Held(r.0));
    assert (if r.1.Some? then r.1.value else []) + r.0.buf + Concat(r.0.queue)
           == (if r.1.Some? then r.1.value else []) + Held(r.0);
  }

  lemma Shift(got: seq<Bytes>, data: Option<Bytes>, rest: Bytes)
    ensures Concat(got + Read(data)) + rest == Concat(got) + ((if data.Some? then data.value else []) + rest)
  {
    if data.Some? {
      ConcatSum(got, [data.value]);
      ConcatOne(data.value);
    } else {
      assert got + [] == got && [] + rest == rest;
    }
  }

  /** Reading on, whatever else happens on the connection: the reader gets what is held, in
      order, and hears of an end once for each blank element. */
  lemma {:induction false} ReadingOn(h: Half, acts: seq<Action>, id: u32)
    requires Whole(h, id) && Over(h, id) && ValidRun(h, acts)
    ensures var (h', st) := (Exec(h, acts), StreamOf(h, id));
            var st' := StreamOf(h', id);
            && Concat(Chunks(h'.got, id)) + Held(st') == Concat(Chunks(h.got, id)) + Held(st)
            && Ends(h, acts, id) + Blanks(st'.queue) == Blanks(st.queue)
            && (EndsBlank(st) ==> EndsBlank(st')) && st'.closed == st.closed
    decreases |acts|
  {
    if acts != [] {
      var a := acts[0];
      OnlyReads(h, a, id);
      StepIsViewStep(h, a, id);
      if a.Take? && a.id == id {
        ReadKeepsTotal(Chunks(h.got, id), StreamOf(h, id), a.size);
        TakeCounts(StreamOf(h, id), a.size);
      }
      ReadingOn(Apply(h, a), acts[1..], id);
    }
  }

  // ---- The announcement of the end ----

  /** All that a reader can see of an end. st is the stream before the end was announced, acts
      are what happens afterwards, from h to h'. */
  ghost predicate Heard(st: StreamState, h: Half, acts: seq<Action>, id: u32)
    requires ValidRun(h, acts)
  {
    var (h', st') := (Exec(h, acts), StreamOf(Exec(h, acts), id));
    && st'.closed
    && (!Ready(st') ==> Concat(Chunks(h'.got, id)) == Concat(Chunks(h.got, id)) + Held(st))
    && if |st.queue| < st.cap then
         && Ends(h, acts, id) <= Blanks(st.queue) + 1
         && (Ready(st') <==> Ends(h, acts, id) < Blanks(st.queue) + 1)
       else
         Ends(h, acts, id) <= Blanks(st.queue) && (!Ready(st') ==> Ends(h, acts, id) == Blanks(st.queue))
  }

  /** The stream with the announcement of its end, if there was room. */
  predicate Announced(st: StreamState, told: StreamState) {
    && told.closed && told.buf == st.buf
    && told.queue == st.queue + if |st.queue| < st.cap then [[]] else []
  }

  lemma AnnouncedHolds(st: StreamState, told: StreamState)
    requires Announced(st, told)
    ensures Held(told) == Held(st)
    ensures Blanks(told.queue) == Blanks(st.queue) + if |st.queue| < st.cap then 1 else 0
  {
    assert st.queue + [] == st.queue;
    BlanksMore(st.queue, []);
    ConcatSum(st.queue, [[]]);
    ConcatOne([]);
    assert Concat(st.queue) + [] == Concat(st.queue);
  }

  lemma AnnouncedIsHeard(st: StreamState, h: Half, acts: seq<Action>, id: u32)
    requires Whole(h, id) && Over(h, id) && ValidRun(h, acts) && Announced(st, StreamOf(h, id))
    ensures Heard(st, h, acts, id)
  {
    var st' := StreamOf(Exec(h, acts), id);
    ReadingOn(h, acts, id);
    AnnouncedHolds(st, StreamOf(h, id));
    if |st.queue| < st.cap {
      ReadyIffBlank(st');
    }
    if !Ready(st') {
      NothingHeld(st', Concat(Chunks(Exec(h, acts).got, id)));
    }
  }

  lemma NothingHeld(st: StreamState, got: Bytes)
    requires !Ready(st)
    ensures got + Held(st) == got && Blanks(st.queue) == 0
  {
  }

  /** A close frame arrives. The stream is closed, and if its queue had room its reader hears
      of it: reading on yields exactly the bytes that were held, and these are all that was
      ever written; until the end is reported the reader never blocks, and it is reported
      once, besides the blanks that empty writes had left. With a full queue it is not
      reported at all. */
  lemma CloseIsHeard(h: Half, id: u32, acts: seq<Action>)
    requires Whole(h, id) && Conserved(ViewOf(h, id)) && Enabled(h, Arrive)
    requires Parse(h.pipe).frame.id == id && Parse(h.pipe).frame.kind == FRAME_CLOSE
    requires ValidRun(Apply(h, Arrive), acts)
    ensures Heard(StreamOf(h, id), Apply(h, Arrive), acts, id)
    ensures var h' := Exec(Apply(h, Arrive), acts);
            !Ready(StreamOf(h', id)) ==> Concat(Chunks(h'.got, id)) == Concat(Chunks(h'.wrote, id))
  {
    var (h1, st) := (Apply(h, Arrive), StreamOf(h, id));
    StepConserves(h, Arrive, id);
    EndAnnounced(st);
    assert st.queue + [] == st.queue;
    EndedAt(h, id);
    AnnouncedIsHeard(st, h1, acts, id);
    BytesAreConserved(h1, acts, id);
    ReadingEnded(h1, acts, id);
    AllRead(Exec(h1, acts), id);
  }

  lemma EndedAt(h: Half, id: u32)
    requires Whole(h, id) && Enabled(h, Arrive)
    requires Parse(h.pipe).frame.id == id && Parse(h.pipe).frame.kind == FRAME_CLOSE
    ensures var h1 := Apply(h, Arrive);
            id in h1.ended && id !in h1.streams && StreamOf(h1, id) == Notified(StreamOf(h, id))
  {
    if id in h.ended {
      NotInFlight(h, id);
    }
  }

  lemma {:induction false} ReadingEnded(h: Half, acts: seq<Action>, id: u32)
    requires id in h.ended && ValidRun(h, acts)
    ensures id in Exec(h, acts).ended
    decreases |acts|
  {
    if acts != [] {
      ReadingEnded(Apply(h, acts[0]), acts[1..], id);
    }
  }

  lemma AllRead(h: Half, id: u32)
    requires Whole(h, id) && Conserved(ViewOf(h, id)) && id in h.ended
    ensures !Ready(StreamOf(h, id)) ==> Concat(Chunks(h.got, id)) == Concat(Chunks(h.wrote, id))
  {
    var v := ViewOf(h, id);
    if !Ready(StreamOf(h, id)) {
      assert Payloads(v.flight) == [];
      assert Total(v.got, [], [], []) == Concat(v.got);
    }
  }

  /** The connection breaks. The same holds for every stream that was open: it is closed, what
      it held can still be read, and its reader hears of the end if there was room. */
  lemma BreakIsHeard(h: Half, id: u32, acts: seq<Action>)
    requires Whole(h, id) && !h.over && id in h.streams && !h.streams[id].closed
    requires ValidRun(Apply(h, Break), acts)
    ensures Heard(h.streams[id], Apply(h, Break), acts, id)
  {
    StepIsViewStep(h, Break, id);
    EndsAnnounced(h.streams, id);
    AnnouncedIsHeard(h.streams[id], Apply(h, Break), acts, id);
  }

  /** Hanging up tells nobody, nor does a break after it: a reader gets what its stream held,
      hears of no end but those that empty writes had left, and then waits for good; the
      stream is not closed. */
  lemma HangUpIsUnheard(h: Half, id: u32, acts: seq<Action>)
    requires Whole(h, id) && ValidRun(Apply(h, HangUp), acts)
    ensures var (h1, h', st) := (Apply(h, HangUp), Exec(Apply(h, HangUp), acts), StreamOf(h, id));
            var st' := StreamOf(h', id);
            && st'.closed == st.closed && Ends(h1, acts, id) <= Blanks(st.queue)
            && (!Ready(st') ==> Ends(h1, acts, id) == Blanks(st.queue)
                                && Concat(Chunks(h'.got, id)) == Concat(Chunks(h.got, id)) + Held(st))
  {
    var h1 := Apply(h, HangUp);
    StepIsViewStep(h, HangUp, id);
    ReadingOn(h1, acts, id);
    if !Ready(StreamOf(Exec(h1, acts), id)) {
      NothingHeld(StreamOf(Exec(h1, acts), id), Concat(Chunks(Exec(h1, acts).got, id)));
    }
  }

  // ---- Queues ----

  predicate Within(st: StreamState) {
    |st.queue| <= st.cap && (st.cap == 16 || st.cap == 64)
  }

  ghost predicate Bounded(h: Half) {
    (forall id :: id in h.streams ==> Within(h.streams[id])) && (forall id :: id in h.ended ==> Within(h.ended[id]))
  }

  lemma StepKeepsBounds(h: Half, a: Action)
    requires Bounded(h) && Enabled(h, a)
    ensures Bounded(Apply(h, a))
  {
    if a.Take? {
      TakesWhatFits(StreamOf(h, a.id), a.size);
    }
  }

  /** No queue ever outgrows its channel, 64 elements for the control stream and 16 for any
      other, whatever the other end sends. */
  lemma {:induction false} QueuesStayBounded(h: Half, acts: seq<Action>)
    requires Bounded(h) && ValidRun(h, acts)
    ensures Bounded(Exec(h, acts))
    decreases |acts|
  {
    if acts != [] {
      StepKeepsBounds(h, acts[0]);
      QueuesStayBounded(Apply(h, acts[0]), acts[1..]);
    }
  }

  // ---- Everything can be received ----

  /** What a reader has in front of it, counted so that every read of all that is in front
      makes it less. */
  function Load(st: StreamState): nat {
    2 * |st.queue| + if st.buf != [] then 1 else 0
  }

  /** The size of a read that takes all that is in front. */
  function Ample(st: StreamState): nat
    requires Ready(st)
  {
    if st.buf != [] then |st.buf| else |st.queue[0]|
  }

  lemma AmpleRead(st: StreamState)
    requires Ready(st)
    ensures Load(TakeFrom(st, Ample(st)).0) < Load(st)
  {
    TakesWhatFits(st, Ample(st));
  }

  /** The stream to be read next: that of the frame that arrives next, or the given one. */
  function Next(h: Half, id: u32): u32 {
    match Parse(h.pipe)
    case Got(f, _) => f.id
    case Fail(_) => id
  }

  predicate Receives(a: Action) {
    a.Arrive? || a.Take?
  }

  /** What the receiver's end does next to get on. */
  function Turn(h: Half, id: u32): Action
    requires (Parse(h.pipe).Got? && HasRoom(h.streams, Parse(h.pipe).frame)) || Ready(StreamOf(h, Next(h, id)))
  {
    if Parse(h.pipe).Got? && HasRoom(h.streams, Parse(h.pipe).frame) then Arrive
    else Take(Next(h, id), Ample(StreamOf(h, Next(h, id))))
  }

  lemma TurnGetsOn(h: Half, id: u32)
    requires Bounded(h) && !h.over && (Parse(h.pipe).Got? || Ready(StreamOf(h, id)))
    ensures (Parse(h.pipe).Got? && HasRoom(h.streams, Parse(h.pipe).frame)) || Ready(StreamOf(h, Next(h, id)))
    ensures var a := Turn(h, id);
            && Enabled(h, a) && !Apply(h, a).over && Apply(h, a).wrote == h.wrote
            && (|Apply(h, a).pipe| < |h.pipe|
                || (Apply(h, a).pipe == h.pipe
                    && Load(StreamOf(Apply(h, a), Next(h, id))) < Load(StreamOf(h, Next(h, id)))))
  {
    if Ready(StreamOf(h, Next(h, id))) {
      AmpleRead(StreamOf(h, Next(h, id)));
    }
  }

  /** The connection never gets stuck: whatever is in flight and queued, the receiving end
      can take in all frames and its reader read its stream to the end, and then it has every
      byte that was written. A frame that blocks on a full queue waits only for the reader
      of its own stream. */
  lemma {:induction false} EverythingArrives(h: Half, id: u32) returns (acts: seq<Action>)
    requires Whole(h, id) && Conserved(ViewOf(h, id)) && Bounded(h) && !h.over
    ensures ValidRun(h, acts) && forall a :: a in acts ==> Receives(a)
    ensures var h' := Exec(h, acts);
            && h'.pipe == [] && !Ready(StreamOf(h', id))
            && h'.wrote == h.wrote && Concat(Chunks(h'.got, id)) == Concat(Chunks(h.wrote, id))
    decreases |h.pipe|, Load(StreamOf(h, Next(h, id)))
  {
    if Parse(h.pipe).Got? || Ready(StreamOf(h, id)) {
      TurnGetsOn(h, id);
      var a := Turn(h, id);
      StepConserves(h, a, id);
      StepKeepsBounds(h, a);
      var rest := EverythingArrives(Apply(h, a), id);
      acts := [a] + rest;
      assert acts[1..] == rest;
    } else {
      acts := [];
      NothingLeft(h, id);
    }
  }

  lemma NothingLeft(h: Half, id: u32)
    requires Whole(h, id) && Conserved(ViewOf(h, id)) && !Parse(h.pipe).Got? && !Ready(StreamOf(h, id))
    ensures h.pipe == [] && Concat(Chunks(h.got, id)) == Concat(Chunks(h.wrote, id))
  {
    var v := ViewOf(h, id);
    assert ParseAll(h.pipe).0 == [];
    assert Payloads(v.flight) == [];
    assert Total(v.got, [], [], []) == Concat(v.got);
  }
}
