/** Frames on the byte pipe between two nodes. */
module Framing {
  import opened Base

  const FRAME_DATA: byte := 0x00
  const FRAME_CLOSE: byte := 0x01
  const HEADER_SIZE := 9
  const MAX_FRAME := 0x10_0000

  datatype Frame = Frame(kind: byte, id: u32, payload: Bytes)

  /** What io.ReadFull reports when the pipe ends: EOF before the first byte it wanted,
      UnexpectedEOF after. */
  datatype ReadError = EOF | UnexpectedEOF | TooLarge

  datatype Parsed = Got(frame: Frame, rest: Bytes) | Fail(error: ReadError)

  predicate Fits(f: Frame) {
    |f.payload| <= MAX_FRAME
  }

  function EncodeFrame(f: Frame): (b: Bytes)
    requires Fits(f)
    ensures |b| == HEADER_SIZE + |f.payload|
  {
    [f.kind] + PutU32(f.id) + PutU32(|f.payload|) + f.payload
  }

  /** ReadFrame on a pipe that delivers these bytes and then ends. */
  function Parse(d: Bytes): (r: Parsed)
    ensures r.Got? ==> |r.rest| < |d|
  {
    if |d| == 0 then Fail(EOF)
    else if |d| < HEADER_SIZE then Fail(UnexpectedEOF)
    else
      var n := GetU32(d[5..]);
      if n > MAX_FRAME then Fail(TooLarge)
      else if n > 0 && |d| == HEADER_SIZE then Fail(EOF)
      else if |d| < HEADER_SIZE + n then Fail(UnexpectedEOF)
      else Got(Frame(d[0], GetU32(d[1..]), d[HEADER_SIZE..HEADER_SIZE + n]), d[HEADER_SIZE + n..])
  }

  /** Reading frames until an error. */
  function ParseAll(d: Bytes): (seq<Frame>, ReadError)
    decreases |d|
  {
    match Parse(d)
    case Fail(e) => ([], e)
    case Got(f, rest) => ([f] + ParseAll(rest).0, ParseAll(rest).1)
  }

  ghost predicate AllFit(fs: seq<Frame>) {
    forall f :: f in fs ==> Fits(f)
  }

  function EncodeAll(fs: seq<Frame>): Bytes
    requires AllFit(fs)
  {
    if fs == [] then [] else EncodeFrame(fs[0]) + EncodeAll(fs[1..])
  }

  // ---- The code ----

  /** A net.Conn to write to: it may take any part of what it is given, or fail. */
  class Writer {
    var out: Bytes
    /** Some write failed, or took nothing of what it was given. */
    ghost var faulty: bool

    method Write(b: Bytes) returns (n: nat, ok: bool)
      modifies this
      ensures n <= |b| && out == old(out) + b[..n]
      ensures faulty <==> old(faulty) || !ok || (n == 0 && b != [])
    {
      n :| 0 <= n <= |b|;
      ok := *;
      out := out + b[..n];
      faulty := faulty || !ok || (n == 0 && b != []);
    }
  }

  class Reader {
    var pending: Bytes

    /** io.ReadFull on the connection. */
    method ReadFull(n: nat) returns (b: Bytes, err: Option<ReadError>)
      modifies this
      ensures err.None? <==> n <= |old(pending)|
      ensures err.None? ==> b == old(pending)[..n] && pending == old(pending)[n..]
      ensures err.Some? ==> err.value == if old(pending) == [] then EOF else UnexpectedEOF
    {
      if n <= |pending| {
        b, err := pending[..n], None;
        pending := pending[n..];
      } else {
        b, err := pending, Some(if pending == [] then EOF else UnexpectedEOF);
        pending := [];
      }
    }
  }

  /** As long as no write fails or makes no progress, exactly the input reaches the pipe,
      however short the individual writes are. In any case a prefix of it does. */
  method WriteFull(w: Writer, b: Bytes) returns (ok: bool)
    modifies w
    ensures old(w.out) <= w.out <= old(w.out) + b
    ensures ok ==> w.out == old(w.out) + b
    ensures w.faulty <==> old(w.faulty) || !ok
  {
    var rest := b;
    ghost var (before, sent: Bytes) := (w.out, []);
    while |rest| > 0
      invariant w.faulty == old(w.faulty)
      invariant Progress(before, b, sent, rest, w.out)
      decreases |rest|
    {
      var n, good := w.Write(rest);
      MoreProgress(before, b, sent, rest, n);
      sent, rest := sent + rest[..n], rest[n..];
      if !good {
        return false;
      }
      if n == 0 {
        return false;
      }
    }
    return true;
  }

  /** The input is what has been sent and what is left. */
  ghost predicate Progress(before: Bytes, b: Bytes, sent: Bytes, rest: Bytes, out: Bytes) {
    && b == sent + rest && out == before + sent
    && before <= out <= before + b && (rest == [] ==> out == before + b)
  }

  lemma MoreProgress(before: Bytes, b: Bytes, sent: Bytes, rest: Bytes, n: nat)
    requires b == sent + rest && n <= |rest|
    ensures Progress(before, b, sent + rest[..n], rest[n..], before + sent + rest[..n])
  {
    var (more, left) := (sent + rest[..n], rest[n..]);
    assert rest == rest[..n] + left;
    assert b == more + left && before + sent + rest[..n] == before + more;
    assert before + b == before + more + left;
  }

  method WriteFrame(w: Writer, f: Frame) returns (ok: bool)
    modifies w
    ensures !Fits(f) ==> !ok && w.out == old(w.out)
    ensures Fits(f) ==> old(w.out) <= w.out <= old(w.out) + EncodeFrame(f)
    ensures ok ==> w.out == old(w.out) + EncodeFrame(f)
    ensures w.faulty <==> old(w.faulty) || (Fits(f) && !ok)
  {
    if |f.payload| > MAX_FRAME {
      return false;
    }
    var header := [f.kind] + PutU32(f.id) + PutU32(|f.payload|);
    assert old(w.out) + EncodeFrame(f) == old(w.out) + header + f.payload;
    ok := WriteFull(w, header);
    if !ok {
      return false;
    }
    ok := WriteFull(w, f.payload);
  }

  method ReadFrame(r: Reader) returns (frame: Option<Frame>, err: Option<ReadError>)
    modifies r
    ensures match Parse(old(r.pending))
            case Got(f, rest) => frame == Some(f) && err == None && r.pending == rest
            case Fail(e) => frame == None && err == Some(e)
  {
    ghost var d := r.pending;
    var header, e := r.ReadFull(HEADER_SIZE);
    if e.Some? {
      return None, e;
    }
    assert header[5..] == d[5..9] && header[1..] == d[1..9];
    GetU32Front(d[5..]);
    GetU32Front(d[1..]);
    GetU32Front(header[1..]);
    assert d[5..][..4] == header[5..] && d[1..][..4] == header[1..][..4];
    var length := GetU32(header[5..]);
    if length > MAX_FRAME {
      return None, Some(TooLarge);
    }
    var payload: Bytes := [];
    if length > 0 {
      payload, e := r.ReadFull(length);
      if e.Some? {
        return None, e;
      }
    }
    assert d[9..][..length] == d[9..9 + length] && d[9..][length..] == d[9 + length..];
    frame, err := Some(Frame(header[0], GetU32(header[1..]), payload)), None;
  }

  // ---- Inverse ----

  lemma FrameInverse(f: Frame, rest: Bytes)
    requires Fits(f)
    ensures Parse(EncodeFrame(f) + rest) == Got(f, rest)
  {
    var d := EncodeFrame(f) + rest;
    var i, l := PutU32(f.id), PutU32(|f.payload|);
    assert d == [f.kind] + (i + (l + (f.payload + rest)));
    assert d[1..] == i + (l + (f.payload + rest));
    assert d[5..] == l + (f.payload + rest);
    assert d[9..] == f.payload + rest;
    U32RoundTrip(f.id, l + (f.payload + rest));
    U32RoundTrip(|f.payload|, f.payload + rest);
    assert d[9..9 + |f.payload|] == d[9..][..|f.payload|] == f.payload;
    assert d[9 + |f.payload|..] == d[9..][|f.payload|..] == rest;
  }

  /** Only an encoded frame parses as a frame. */
  lemma FrameParsed(d: Bytes)
    requires Parse(d).Got?
    ensures Fits(Parse(d).frame) && d == EncodeFrame(Parse(d).frame) + Parse(d).rest
  {
    var Got(f, rest) := Parse(d);
    U32Parsed(d[1..]);
    U32Parsed(d[5..]);
    assert d[1..][..4] == d[1..5] && d[5..][..4] == d[5..9];
    assert d == [d[0]] + d[1..5] + d[5..9] + f.payload + rest;
  }

  lemma {:induction false} EncodeAllAppend(fs: seq<Frame>, f: Frame)
    requires AllFit(fs) && Fits(f)
    ensures AllFit(fs + [f]) && EncodeAll(fs + [f]) == EncodeAll(fs) + EncodeFrame(f)
  {
    if fs == [] {
      assert fs + [f] == [f];
    } else {
      assert (fs + [f])[1..] == fs[1..] + [f];
      EncodeAllAppend(fs[1..], f);
    }
  }

  /** How many of the frames lie completely within the first n bytes. */
  function Complete(fs: seq<Frame>, n: nat): (k: nat)
    requires AllFit(fs)
    ensures k <= |fs|
  {
    if fs == [] || n < HEADER_SIZE + |fs[0].payload| then 0
    else 1 + Complete(fs[1..], n - (HEADER_SIZE + |fs[0].payload|))
  }

  /** How far the cut reaches into the first incomplete frame. */
  function Overhang(fs: seq<Frame>, n: nat): nat
    requires AllFit(fs)
  {
    if fs == [] || n < HEADER_SIZE + |fs[0].payload| then n
    else Overhang(fs[1..], n - (HEADER_SIZE + |fs[0].payload|))
  }

  lemma TruncatedFrame(f: Frame, d: Bytes)
    requires Fits(f) && |d| < |EncodeFrame(f)| && d <= EncodeFrame(f)
    ensures Parse(d) == Fail(if |d| == 0 || |d| == HEADER_SIZE then EOF else UnexpectedEOF)
  {
    if |d| >= HEADER_SIZE {
      var e := EncodeFrame(f);
      FrameInverse(f, []);
      assert e + [] == e;
      GetU32Front(d[5..]);
      GetU32Front(e[5..]);
      assert d[5..][..4] == e[5..][..4];
    }
  }

  lemma ParseAllStep(f: Frame, rest: Bytes)
    requires Fits(f)
    ensures ParseAll(EncodeFrame(f) + rest) == ([f] + ParseAll(rest).0, ParseAll(rest).1)
  {
    FrameInverse(f, rest);
  }

  lemma CutInside(f: Frame, more: Bytes, n: nat)
    requires Fits(f) && n < HEADER_SIZE + |f.payload|
    ensures ParseAll((EncodeFrame(f) + more)[..n])
            == ([], if n == 0 || n == HEADER_SIZE then EOF else UnexpectedEOF)
  {
    var d := (EncodeFrame(f) + more)[..n];
    assert d == EncodeFrame(f)[..n];
    TruncatedFrame(f, d);
  }

  /** A plain EOF both at a frame boundary and right behind a header whose payload is missing. */
  function CutError(overhang: nat): ReadError {
    if overhang == 0 || overhang == HEADER_SIZE then EOF else UnexpectedEOF
  }

  /** The first n bytes of the stream of some frames parse to exactly the frames that arrived
      completely and then an error. */
  ghost predicate CutsClean(fs: seq<Frame>, n: nat)
    requires AllFit(fs) && n <= |EncodeAll(fs)|
  {
    ParseAll(EncodeAll(fs)[..n]) == (fs[..Complete(fs, n)], CutError(Overhang(fs, n)))
  }

  /** Cutting the byte stream of any list of frames anywhere. */
  lemma {:induction false} TruncationInverse(fs: seq<Frame>, n: nat)
    requires AllFit(fs) && n <= |EncodeAll(fs)|
    ensures CutsClean(fs, n)
  {
    if fs == [] {
      assert EncodeAll(fs)[..n] == EncodeAll(fs);
    } else {
      FirstEncoded(fs);
      if n < HEADER_SIZE + |fs[0].payload| {
        CutFirst(fs, n);
      } else {
        var m := n - HEADER_SIZE - |fs[0].payload|;
        TruncationInverse(fs[1..], m);
        CutLater(fs, n, m);
      }
    }
  }

  lemma FirstEncoded(fs: seq<Frame>)
    requires AllFit(fs) && fs != []
    ensures EncodeAll(fs) == EncodeFrame(fs[0]) + EncodeAll(fs[1..])
    ensures |EncodeAll(fs)| == HEADER_SIZE + |fs[0].payload| + |EncodeAll(fs[1..])|
  {
  }

  lemma CutFirst(fs: seq<Frame>, n: nat)
    requires AllFit(fs) && fs != [] && n < HEADER_SIZE + |fs[0].payload| && n <= |EncodeAll(fs)|
    ensures CutsClean(fs, n)
  {
    CutInside(fs[0], EncodeAll(fs[1..]), n);
  }

  lemma CutLater(fs: seq<Frame>, n: nat, m: nat)
    requires AllFit(fs) && fs != [] && n == HEADER_SIZE + |fs[0].payload| + m
    requires m <= |EncodeAll(fs[1..])| && n <= |EncodeAll(fs)| && CutsClean(fs[1..], m)
    ensures CutsClean(fs, n)
  {
    CutBehind(fs[0], EncodeAll(fs[1..]), n, m);
    OneMoreComplete(fs, n, m);
  }

  lemma OneMoreComplete(fs: seq<Frame>, n: nat, m: nat)
    requires AllFit(fs) && fs != [] && n == HEADER_SIZE + |fs[0].payload| + m
    ensures Overhang(fs, n) == Overhang(fs[1..], m)
    ensures fs[..Complete(fs, n)] == [fs[0]] + fs[1..][..Complete(fs[1..], m)]
  {
    TakeMore(fs, Complete(fs[1..], m));
  }

  lemma {:induction false} NothingCut(fs: seq<Frame>)
    requires AllFit(fs)
    ensures Complete(fs, |EncodeAll(fs)|) == |fs| && Overhang(fs, |EncodeAll(fs)|) == 0
  {
    if fs != [] {
      NothingCut(fs[1..]);
    }
  }

  lemma CutBehind(f: Frame, more: Bytes, n: nat, m: nat)
    requires Fits(f) && n == HEADER_SIZE + |f.payload| + m && m <= |more|
    ensures ParseAll((EncodeFrame(f) + more)[..n]) == ([f] + ParseAll(more[..m]).0, ParseAll(more[..m]).1)
  {
    CutBytes(EncodeFrame(f), more, n, m);
    ParseAllStep(f, more[..m]);
  }

  lemma TakeMore(fs: seq<Frame>, k: nat)
    requires fs != [] && k < |fs|
    ensures fs[..1 + k] == [fs[0]] + fs[1..][..k]
  {
  }

  lemma CutBytes(a: Bytes, b: Bytes, n: nat, m: nat)
    requires n == |a| + m && m <= |b|
    ensures (a + b)[..n] == a + b[..m]
  {
  }

  /** Reading back everything that was written gives the list of frames, then EOF. */
  lemma SequenceInverse(fs: seq<Frame>)
    requires AllFit(fs)
    ensures ParseAll(EncodeAll(fs)) == (fs, EOF)
  {
    TruncationInverse(fs, |EncodeAll(fs)|);
    NothingCut(fs);
    assert EncodeAll(fs)[..|EncodeAll(fs)|] == EncodeAll(fs);
    assert fs[..|fs|] == fs;
  }
}
