/** The frame codec, and the client's writers that share one connection under a lock
    (internal/protocol/frame.go; internal/client/client.go: `sendData`, `recvLoop`, `pingLoop`). */
module Frames {
  import opened Bytes

  /** The guard is 16 MiB although the length field has 16 bits. */
  const MAX_PAYLOAD: nat := 16 * 1024 * 1024

  const DATA: byte := 0x10

  datatype Frame = Frame(kind: byte, payload: seq<byte>)

  function Head(f: Frame): (h: seq<byte>)
    ensures |h| == 3
  {
    [f.kind] + Put16(|f.payload|)
  }

  function Encode(f: Frame): seq<byte> { Head(f) + f.payload }

  datatype Read = Got(frame: Frame, rest: seq<byte>) | Short

  /** One read from a stream that ends after `s`. */
  function ReadOne(s: seq<byte>): Read {
    if |s| < 3 then Short else
      var n := Word(s[1], s[2]);
      if |s| < 3 + n then Short else Got(Frame(s[0], s[3..3 + n]), s[3 + n..])
  }

  function FramesIn(s: seq<byte>): seq<Frame> {
    match ReadOne(s)
    case Short => []
    case Got(f, rest) => [f] + FramesIn(rest)
  }

  /** What is left when no further frame can be read. */
  function LeftOver(s: seq<byte>): seq<byte> {
    match ReadOne(s)
    case Short => s
    case Got(_, rest) => LeftOver(rest)
  }

  function Stream(fs: seq<Frame>): seq<byte> {
    if fs == [] then [] else Stream(fs[..|fs| - 1]) + Encode(fs[|fs| - 1])
  }

  predicate Fits(f: Frame) { |f.payload| <= 0xffff }

  lemma LengthField(f: Frame)
    ensures Word(Head(f)[1], Head(f)[2]) == |f.payload| % 0x1_0000
  {
    WordOfPut16(|f.payload|);
  }

  /** Reading a written frame gives the frame and the rest of the stream, exactly when the payload fits
      the length field. */
  lemma FrameRoundTrip(f: Frame, rest: seq<byte>)
    ensures ReadOne(Encode(f) + rest) == Got(f, rest) <==> Fits(f)
  {
    var s := Encode(f) + rest;
    LengthField(f);
    assert s[0] == f.kind && s[1] == Head(f)[1] && s[2] == Head(f)[2];
    if Fits(f) {
      assert s[3..3 + |f.payload|] == f.payload && s[3 + |f.payload|..] == rest;
    } else {
      assert |f.payload| % 0x1_0000 < |f.payload|;
    }
  }

  lemma {:induction false} ReadStream(fs: seq<Frame>, rest: seq<byte>)
    requires forall f <- fs :: Fits(f)
    ensures FramesIn(Stream(fs) + rest) == fs + FramesIn(rest)
    ensures LeftOver(Stream(fs) + rest) == LeftOver(rest)
  {
    if fs == [] {
      assert Stream(fs) + rest == rest;
    } else {
      var n := |fs| - 1;
      var tail := Encode(fs[n]) + rest;
      ReadStream(fs[..n], tail);
      LastFrame(fs, rest);
      assert fs[n] in fs;
      ReadOneMore(fs[n], rest);
      LastOfFront(fs, FramesIn(rest));
    }
  }

  lemma LastOfFront(fs: seq<Frame>, more: seq<Frame>)
    requires fs != []
    ensures fs[..|fs| - 1] + ([fs[|fs| - 1]] + more) == fs + more
  {
  }

  lemma Regroup(fs: seq<Frame>, f: Frame, more: seq<Frame>)
    ensures fs + ([f] + more) == (fs + [f]) + more
  {
  }

  lemma LastFrame(fs: seq<Frame>, rest: seq<byte>)
    requires fs != []
    ensures Stream(fs) + rest == Stream(fs[..|fs| - 1]) + (Encode(fs[|fs| - 1]) + rest)
  {
  }

  /** How reading goes on. */
  lemma ReadOn(s: seq<byte>)
    ensures ReadOne(s).Short? ==> FramesIn(s) == []
    ensures ReadOne(s).Got? ==> FramesIn(s) == [ReadOne(s).frame] + FramesIn(ReadOne(s).rest)
    ensures ReadOne(s).Got? ==> |ReadOne(s).rest| < |s|
  {
  }

  lemma ReadOneMore(f: Frame, rest: seq<byte>)
    requires Fits(f)
    ensures FramesIn(Encode(f) + rest) == [f] + FramesIn(rest)
    ensures LeftOver(Encode(f) + rest) == LeftOver(rest)
  {
    FrameRoundTrip(f, rest);
  }

  /** Reading everything that was written gives exactly the list of frames, with nothing left over. */
  lemma StreamRoundTrip(fs: seq<Frame>)
    requires forall f <- fs :: Fits(f)
    ensures FramesIn(Stream(fs)) == fs && LeftOver(Stream(fs)) == []
  {
    ReadStream(fs, []);
    assert Stream(fs) + [] == Stream(fs);
  }

  /** What was read was written: one frame ... */
  lemma ReadWasWritten(s: seq<byte>)
    requires ReadOne(s).Got?
    ensures Fits(ReadOne(s).frame) && s == Encode(ReadOne(s).frame) + ReadOne(s).rest
  {
    var f, n := ReadOne(s).frame, Word(s[1], s[2]);
    Put16OfWord(s[1], s[2]);
    assert |f.payload| == n;
    assert s[..3] == [s[0], s[1], s[2]] == Head(f);
    assert s == s[..3] + s[3..3 + n] + s[3 + n..];
  }

  lemma {:induction false} StreamFirst(f: Frame, fs: seq<Frame>)
    ensures Stream([f] + fs) == Encode(f) + Stream(fs)
  {
    if fs == [] {
      assert [f] + fs == [f] && [f][..0] == [];
      assert Stream([f]) == [] + Encode(f);
    } else {
      var n := |fs| - 1;
      StreamFirst(f, fs[..n]);
      assert ([f] + fs)[..|fs|] == [f] + fs[..n];
      RegroupBytes(Encode(f), Stream(fs[..n]), Encode(fs[n]));
    }
  }

  lemma RegroupBytes(a: seq<byte>, b: seq<byte>, c: seq<byte>)
    ensures (a + b) + c == a + (b + c)
  {
  }

  /** ... and any stream is the frames read from it, written again, and what is left over. */
  lemma {:induction false} StreamIsFrames(s: seq<byte>)
    ensures s == Stream(FramesIn(s)) + LeftOver(s)
    ensures forall f <- FramesIn(s) :: Fits(f)
    decreases |s|
  {
    ReadOn(s);
    if ReadOne(s).Got? {
      var f, rest := ReadOne(s).frame, ReadOne(s).rest;
      ReadWasWritten(s);
      StreamIsFrames(rest);
      StreamFirst(f, FramesIn(rest));
      RegroupBytes(Encode(f), Stream(FramesIn(rest)), LeftOver(rest));
    }
  }

  /** A stream reads as a list of frames with nothing left over exactly when it is that list as written,
      and every payload fits. */
  lemma ReadsExactly(s: seq<byte>, fs: seq<Frame>)
    ensures FramesIn(s) == fs && LeftOver(s) == [] <==> s == Stream(fs) && forall f <- fs :: Fits(f)
  {
    if FramesIn(s) == fs && LeftOver(s) == [] {
      StreamIsFrames(s);
      assert Stream(fs) + [] == Stream(fs);
    }
    if s == Stream(fs) && forall f <- fs :: Fits(f) {
      StreamRoundTrip(fs);
    }
  }

  // ---- the connection ----

  /** How many of `n` bytes get out before the connection fails. */
  function Taken(n: nat, room: nat): nat { if n <= room then n else room }

  /** `data` is what is under way on the connection, `room` how much more it takes before it fails. */
  class Conn {
    var data: seq<byte>
    var room: nat

    constructor (room: nat)
      ensures data == [] && this.room == room
    {
      data, this.room := [], room;
    }

    /** A write that fails may still get some of its bytes out. */
    method Write(p: seq<byte>) returns (ok: bool)
      modifies this
      ensures ok <==> |p| <= old(room)
      ensures data == old(data) + p[..Taken(|p|, old(room))] && room == old(room) - Taken(|p|, old(room))
    {
      var n := Taken(|p|, room);
      ok := |p| <= room;
      data, room := data + p[..n], room - n;
    }

    /** Reads exactly into the first `n` cells; a stream that ends too early fails. */
    method ReadFull(buf: array<byte>, n: nat) returns (ok: bool)
      requires n <= buf.Length
      modifies this, buf
      ensures ok <==> n <= |old(data)|
      ensures ok ==> buf[..n] == old(data)[..n] && data == old(data)[n..]
    {
      if n > |data| {
        data := [];
        return false;
      }
      for i := 0 to n
        invariant data == old(data)
        invariant buf[..i] == data[..i]
      {
        buf[i] := data[i];
      }
      data := data[n..];
      return true;
    }
  }

  /** A frame goes out in two writes: head, then payload. A connection that fails in either has got out the
      front of the frame, and nothing after it. */
  method WriteFrame(w: Conn, kind: byte, payload: seq<byte>) returns (ok: bool)
    modifies w
    ensures ok <==> |payload| <= MAX_PAYLOAD && 3 + |payload| <= old(w.room)
    ensures var e := if |payload| <= MAX_PAYLOAD then Encode(Frame(kind, payload)) else [];
            w.data == old(w.data) + e[..Taken(|e|, old(w.room))]
  {
    if |payload| > MAX_PAYLOAD {
      return false;
    }
    ghost var e := Encode(Frame(kind, payload));
    ok := w.Write([kind] + Put16(|payload|));
    if !ok {
      assert w.data == old(w.data) + e[..old(w.room)];
      return false;
    }
    ok := w.Write(payload);
    assert e[..Taken(|e|, old(w.room))] == e[..3] + payload[..Taken(|payload|, old(w.room) - 3)];
  }

  /** Reads one frame into `buf`, or into a larger buffer when `buf` is too small. */
  method ReadFrame(r: Conn, buf: array<byte>) returns (ok: bool, kind: byte, p: array<byte>, n: nat)
    modifies r, buf
    ensures p == buf || fresh(p)
    ensures ok <==> ReadOne(old(r.data)).Got?
    ensures ok ==> n <= p.Length && ReadOne(old(r.data)) == Got(Frame(kind, p[..n]), r.data)
  {
    var head := new byte[3];
    ok := r.ReadFull(head, 3);
    if !ok {
      return false, 0, buf, 0;
    }
    ghost var s := old(r.data);
    assert head[0] == head[..3][0] && head[1] == head[..3][1] && head[2] == head[..3][2];
    kind, n, p := head[0], Word(head[1], head[2]), buf;
    if buf.Length < n {
      p := new byte[n];
    }
    ok := r.ReadFull(p, n);
    assert |s| >= 3 + n ==> s[3..][..n] == s[3..3 + n];
  }

  /** The receive loop: reads until the stream ends, one buffer passed from frame to frame. */
  method ReadAll(r: Conn, buf: array<byte>) returns (fs: seq<Frame>)
    modifies r, buf
    ensures fs == FramesIn(old(r.data))
  {
    fs := [];
    var b := buf;
    var going := true;
    while going
      invariant b == buf || fresh(b)
      invariant going ==> fs + FramesIn(r.data) == FramesIn(old(r.data))
      invariant !going ==> fs == FramesIn(old(r.data))
      decreases going, |r.data|
    {
      ReadOn(r.data);
      var ok, kind, p, n := ReadFrame(r, b);
      if ok {
        Regroup(fs, Frame(kind, p[..n]), FramesIn(r.data));
        fs := fs + [Frame(kind, p[..n])];
        b := p;
      }
      going := ok;
    }
  }
}
