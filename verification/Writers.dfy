/** Several writers on one connection (internal/client/client.go: `sendData`, the pong in `recvLoop`,
    `pingLoop`, all under `writeMu`; internal/server/server.go: `sysRW`, which locks single writes). */
module Writers {
  import opened Bytes
  import opened Frames

  /** Who holds the lock, with which frame, and how many of its two writes are done. */
  datatype Lock = Free | Held(writer: nat, frame: Frame, writes: nat)

  /** Each writer has frames still to send; `sent` are the finished ones, with their writers. */
  datatype State = State(stream: seq<byte>, lock: Lock, sent: seq<(nat, Frame)>, todo: map<nat, seq<Frame>>)

  datatype Event = Acquire(writer: nat) | Write | Release

  predicate Enabled(s: State, e: Event) {
    match e
    case Acquire(w) => s.lock.Free? && w in s.todo && s.todo[w] != []
    case Write => s.lock.Held? && s.lock.writes < 2
    case Release => s.lock.Held? && s.lock.writes == 2
  }

  function Step(s: State, e: Event): State
    requires Enabled(s, e)
  {
    match e
    case Acquire(w) => s.(lock := Held(w, s.todo[w][0], 0), todo := s.todo[w := s.todo[w][1..]])
    case Write =>
      s.(stream := s.stream + (if s.lock.writes == 0 then Head(s.lock.frame) else s.lock.frame.payload),
         lock := s.lock.(writes := s.lock.writes + 1))
    case Release => s.(lock := Free, sent := s.sent + [(s.lock.writer, s.lock.frame)])
  }

  function Run(s: State, es: seq<Event>): State {
    if es == [] then s else
      var s' := Run(s, es[..|es| - 1]);
      if Enabled(s', es[|es| - 1]) then Step(s', es[|es| - 1]) else s'
  }

  function Start(todo: map<nat, seq<Frame>>): State { State([], Free, [], todo) }

  function SentFrames(sent: seq<(nat, Frame)>): seq<Frame> {
    seq(|sent|, i requires 0 <= i < |sent| => sent[i].1)
  }

  function SentBy(sent: seq<(nat, Frame)>, w: nat): seq<Frame> {
    if sent == [] then [] else
      var last := sent[|sent| - 1];
      SentBy(sent[..|sent| - 1], w) + if last.0 == w then [last.1] else []
  }

  /** The bytes of the frame under way. */
  function UnderWay(l: Lock): seq<byte> {
    if l.Free? || l.writes == 0 then [] else if l.writes == 1 then Head(l.frame) else Encode(l.frame)
  }

  function InHand(l: Lock, w: nat): seq<Frame> {
    if l.Held? && l.writer == w then [l.frame] else []
  }

  /** The stream is the finished frames plus what the holder has written. */
  predicate StreamOk(s: State) {
    s.stream == Stream(SentFrames(s.sent)) + UnderWay(s.lock)
  }

  /** Every writer's frames keep their order and none is lost or doubled. */
  predicate InOrder(s: State, todo: map<nat, seq<Frame>>, w: nat)
    requires w in todo && w in s.todo
  {
    SentBy(s.sent, w) + InHand(s.lock, w) + s.todo[w] == todo[w]
  }

  ghost predicate OrderOk(s: State, todo: map<nat, seq<Frame>>) {
    && s.todo.Keys == todo.Keys
    && (s.lock.Held? ==> s.lock.writes <= 2 && s.lock.writer in todo)
    && (forall w <- todo :: InOrder(s, todo, w))
    && (forall p <- s.sent :: p.0 in todo)
  }

  ghost predicate WriterInv(s: State, todo: map<nat, seq<Frame>>) {
    StreamOk(s) && OrderOk(s, todo)
  }

  lemma SentOneMore(sent: seq<(nat, Frame)>, p: (nat, Frame))
    ensures SentFrames(sent + [p]) == SentFrames(sent) + [p.1]
  {
  }

  lemma StreamOneMore(fs: seq<Frame>, f: Frame)
    ensures Stream(fs + [f]) == Stream(fs) + Encode(f)
  {
    assert (fs + [f])[..|fs|] == fs;
  }

  lemma SentByOneMore(sent: seq<(nat, Frame)>, p: (nat, Frame), w: nat)
    ensures SentBy(sent + [p], w) == SentBy(sent, w) + if p.0 == w then [p.1] else []
  {
    assert (sent + [p])[..|sent|] == sent;
  }

  lemma FirstToSend(todo: seq<Frame>)
    requires todo != []
    ensures [todo[0]] + todo[1..] == todo
  {
  }

  lemma RegroupFrames(a: seq<Frame>, b: seq<Frame>, c: seq<Frame>)
    ensures a + (b + c) == (a + b) + c
    ensures b == [] ==> a + b == a
  {
  }

  lemma AcquireKeeps(s: State, w: nat, todo: map<nat, seq<Frame>>)
    requires WriterInv(s, todo) && Enabled(s, Acquire(w))
    ensures WriterInv(Step(s, Acquire(w)), todo)
  {
    var s' := Step(s, Acquire(w));
    forall v | v in todo
      ensures InOrder(s', todo, v)
    {
      assert InOrder(s, todo, v);
      if v == w {
        FirstToSend(s.todo[w]);
        RegroupFrames(SentBy(s.sent, w), [s.todo[w][0]], s.todo[w][1..]);
        RegroupFrames(SentBy(s.sent, w), [], s.todo[w]);
      }
    }
  }

  lemma Regroup(a: seq<byte>, b: seq<byte>, c: seq<byte>)
    ensures (a + b) + c == a + (b + c)
    ensures a + [] == a
  {
  }

  lemma WriteKeepsStream(s: State)
    requires StreamOk(s) && Enabled(s, Write)
    ensures StreamOk(Step(s, Write))
  {
    var w := if s.lock.writes == 0 then Head(s.lock.frame) else s.lock.frame.payload;
    assert UnderWay(Step(s, Write).lock) == UnderWay(s.lock) + w;
    Regroup(Stream(SentFrames(s.sent)), UnderWay(s.lock), w);
  }

  lemma WriteKeepsOrder(s: State, todo: map<nat, seq<Frame>>)
    requires OrderOk(s, todo) && Enabled(s, Write)
    ensures OrderOk(Step(s, Write), todo)
  {
    forall v | v in todo
      ensures InOrder(Step(s, Write), todo, v)
    {
      assert InOrder(s, todo, v);
    }
  }

  lemma ReleaseKeepsStream(s: State)
    requires StreamOk(s) && Enabled(s, Release)
    ensures StreamOk(Step(s, Release))
  {
    SentOneMore(s.sent, (s.lock.writer, s.lock.frame));
    StreamOneMore(SentFrames(s.sent), s.lock.frame);
    Regroup(Stream(SentFrames(s.sent)) + Encode(s.lock.frame), [], []);
  }

  lemma ReleaseKeepsOrder(s: State, todo: map<nat, seq<Frame>>)
    requires OrderOk(s, todo) && Enabled(s, Release)
    ensures OrderOk(Step(s, Release), todo)
  {
    forall v | v in todo
      ensures InOrder(Step(s, Release), todo, v)
    {
      assert InOrder(s, todo, v);
      SentByOneMore(s.sent, (s.lock.writer, s.lock.frame), v);
      RegroupFrames(SentBy(Step(s, Release).sent, v), [], s.todo[v]);
    }
  }

  lemma {:induction false} RunKeeps(todo: map<nat, seq<Frame>>, es: seq<Event>)
    ensures WriterInv(Run(Start(todo), es), todo)
  {
    if es != [] {
      RunKeeps(todo, es[..|es| - 1]);
      var s, e := Run(Start(todo), es[..|es| - 1]), es[|es| - 1];
      if Enabled(s, e) {
        match e
        case Acquire(w) => AcquireKeeps(s, w, todo);
        case Write =>
          WriteKeepsStream(s);
          WriteKeepsOrder(s, todo);
        case Release =>
          ReleaseKeepsStream(s);
          ReleaseKeepsOrder(s, todo);
      }
    }
  }

  predicate AllFit(todo: map<nat, seq<Frame>>) {
    forall w <- todo :: forall f <- todo[w] :: Fits(f)
  }

  lemma {:induction false} SentFromTodo(sent: seq<(nat, Frame)>, i: nat)
    requires i < |sent|
    ensures sent[i].1 in SentBy(sent, sent[i].0)
  {
    if i < |sent| - 1 {
      SentFromTodo(sent[..|sent| - 1], i);
    }
  }

  lemma SentFit(s: State, todo: map<nat, seq<Frame>>)
    requires OrderOk(s, todo) && AllFit(todo)
    ensures forall f <- SentFrames(s.sent) :: Fits(f)
  {
    forall f | f in SentFrames(s.sent)
      ensures Fits(f)
    {
      var i :| 0 <= i < |s.sent| && s.sent[i].1 == f;
      assert s.sent[i] in s.sent;
      SentFromTodo(s.sent, i);
      assert InOrder(s, todo, s.sent[i].0);
      assert f in todo[s.sent[i].0];
    }
  }

  lemma UnlockedStream(s: State, todo: map<nat, seq<Frame>>)
    requires WriterInv(s, todo) && AllFit(todo) && s.lock.Free?
    ensures FramesIn(s.stream) == SentFrames(s.sent) && LeftOver(s.stream) == []
  {
    SentFit(s, todo);
    StreamRoundTrip(SentFrames(s.sent));
    Regroup(Stream(SentFrames(s.sent)), [], []);
  }

  lemma UnlockedOrder(s: State, todo: map<nat, seq<Frame>>, w: nat)
    requires OrderOk(s, todo) && s.lock.Free? && w in todo
    ensures SentBy(s.sent, w) + s.todo[w] == todo[w]
  {
    assert InOrder(s, todo, w);
    RegroupFrames(SentBy(s.sent, w), [], s.todo[w]);
  }

  /** Under the lock, in any interleaving of any writers: whenever the lock is free the peer reads exactly
      the finished frames in the order they took the lock, with nothing left over, and each writer's own
      frames come in its own order. */
  lemma LockedWritersAreSequential(todo: map<nat, seq<Frame>>, es: seq<Event>)
    requires AllFit(todo) && Run(Start(todo), es).lock.Free?
    ensures var s := Run(Start(todo), es);
            && FramesIn(s.stream) == SentFrames(s.sent) && LeftOver(s.stream) == []
            && s.todo.Keys == todo.Keys
            && forall w <- todo :: SentBy(s.sent, w) + s.todo[w] == todo[w]
  {
    RunKeeps(todo, es);
    var s := Run(Start(todo), es);
    UnlockedStream(s, todo);
    forall w | w in todo
      ensures SentBy(s.sent, w) + s.todo[w] == todo[w]
    {
      UnlockedOrder(s, todo, w);
    }
  }

  // ---- one lock per write ----

  /** Writers that lock each write alone, as the server's connections do; `mid` are the frames whose head
      is out and whose payload is not. */
  datatype Loose = Loose(stream: seq<byte>, mid: map<nat, Frame>, sent: seq<(nat, Frame)>, todo: map<nat, seq<Frame>>)

  predicate Ready(s: Loose, w: nat) {
    w in s.mid || (w in s.todo && s.todo[w] != [])
  }

  /** One write of writer `w`: the payload of its frame, or the head of its next one. */
  function Put(s: Loose, w: nat): Loose
    requires Ready(s, w)
  {
    if w in s.mid then
      Loose(s.stream + s.mid[w].payload, s.mid - {w}, s.sent + [(w, s.mid[w])], s.todo)
    else
      Loose(s.stream + Head(s.todo[w][0]), s.mid[w := s.todo[w][0]], s.sent, s.todo[w := s.todo[w][1..]])
  }

  function RunLoose(s: Loose, ws: seq<nat>): Loose {
    if ws == [] then s else
      var s' := RunLoose(s, ws[..|ws| - 1]);
      if Ready(s', ws[|ws| - 1]) then Put(s', ws[|ws| - 1]) else s'
  }

  function LooseStart(todo: map<nat, seq<Frame>>): Loose { Loose([], map[], [], todo) }

  /** No writer writes between the two writes of another. */
  predicate Undivided(s: Loose, ws: seq<nat>) {
    ws != [] ==>
      var init, w := ws[..|ws| - 1], ws[|ws| - 1];
      Undivided(s, init) && (Ready(RunLoose(s, init), w) ==> RunLoose(s, init).mid.Keys <= {w})
  }

  /** The same bytes and frames, and the lock with whoever is between its writes. */
  predicate Same(t: State, s: Loose) {
    && t.stream == s.stream && t.sent == s.sent && t.todo == s.todo
    && (if t.lock.Free? then s.mid == map[] else t.lock.writes == 1 && s.mid == map[t.lock.writer := t.lock.frame])
  }

  lemma RunTwoMore(s: State, es: seq<Event>, e1: Event, e2: Event)
    requires Enabled(Run(s, es), e1) && Enabled(Step(Run(s, es), e1), e2)
    ensures Run(s, es + [e1, e2]) == Step(Step(Run(s, es), e1), e2)
  {
    assert (es + [e1])[..|es|] == es;
    assert (es + [e1, e2])[..|es| + 1] == es + [e1];
  }

  lemma HolderIsMid(t: State, s: Loose)
    requires Same(t, s)
    ensures t.lock.Free? <==> s.mid.Keys == {}
  {
    assert t.lock.Free? || t.lock.writer in s.mid.Keys;
  }

  lemma SameAfterPut(t: State, s: Loose, w: nat) returns (e1: Event, e2: Event)
    requires Same(t, s) && Ready(s, w) && s.mid.Keys <= {w}
    ensures Enabled(t, e1) && Enabled(Step(t, e1), e2) && Same(Step(Step(t, e1), e2), Put(s, w))
  {
    if w in s.mid {
      e1, e2 := Write, Release;
      assert t.lock.Held? && t.lock.writer in s.mid.Keys;
      assert s.mid - {w} == map[];
    } else {
      HolderIsMid(t, s);
      assert w !in s.mid.Keys && s.mid.Keys == {};
      e1, e2 := Acquire(w), Write;
    }
  }

  /** A run without divided frames is a run of the writers that lock whole frames. */
  lemma {:induction false} UndividedIsLocked(todo: map<nat, seq<Frame>>, ws: seq<nat>) returns (es: seq<Event>)
    requires Undivided(LooseStart(todo), ws)
    ensures Same(Run(Start(todo), es), RunLoose(LooseStart(todo), ws))
  {
    if ws == [] {
      es := [];
    } else {
      var init, w := ws[..|ws| - 1], ws[|ws| - 1];
      es := UndividedIsLocked(todo, init);
      var s := RunLoose(LooseStart(todo), init);
      if Ready(s, w) {
        var e1, e2 := SameAfterPut(Run(Start(todo), es), s, w);
        RunTwoMore(Start(todo), es, e1, e2);
        es := es + [e1, e2];
      }
    }
  }

  /** With a lock per write, any run in which no writer starts between another's two writes reads back
      frame by frame, each writer's frames in its own order. */
  lemma UndividedWritersAreSequential(todo: map<nat, seq<Frame>>, ws: seq<nat>)
    requires AllFit(todo) && Undivided(LooseStart(todo), ws) && RunLoose(LooseStart(todo), ws).mid == map[]
    ensures var s := RunLoose(LooseStart(todo), ws);
            && FramesIn(s.stream) == SentFrames(s.sent) && LeftOver(s.stream) == []
            && s.todo.Keys == todo.Keys
            && forall w <- todo :: SentBy(s.sent, w) + s.todo[w] == todo[w]
  {
    var es := UndividedIsLocked(todo, ws);
    HolderIsMid(Run(Start(todo), es), RunLoose(LooseStart(todo), ws));
    LockedWritersAreSequential(todo, es);
  }

  // ---- and a run with divided frames ----

  function Interleaved(a: Frame, b: Frame): seq<byte> {
    Head(a) + Head(b) + a.payload + b.payload
  }

  /** Two writers of one frame each: both heads, then both payloads. */
  lemma HeadsFirst(a: Frame, b: Frame)
    ensures var s := RunLoose(LooseStart(map[0 := [a], 1 := [b]]), [0, 1, 0, 1]);
            s.stream == Interleaved(a, b) && s.mid == map[] && s.sent == [(0, a), (1, b)]
  {
    var s0 := LooseStart(map[0 := [a], 1 := [b]]);
    var s1 := Put(s0, 0);
    var s2 := Put(s1, 1);
    var s3 := Put(s2, 0);
    var ws: seq<nat> := [0, 1, 0, 1];
    assert ws[..3] == [0, 1, 0] && ws[..3][..2] == [0, 1] && ws[..3][..2][..1] == [0] && ws[..3][..2][..1][..0] == [];
    assert RunLoose(s0, [0]) == s1;
    assert RunLoose(s0, [0, 1]) == s2;
    assert RunLoose(s0, [0, 1, 0]) == s3;
    assert s1.stream == Head(a);
  }

  lemma MiddleDecides(x: seq<byte>, u: seq<byte>, v: seq<byte>, z: seq<byte>)
    requires |u| == |v|
    ensures x + u + z == x + v + z <==> u == v
  {
    if x + u + z == x + v + z {
      assert (x + u + z)[|x|..|x| + |u|] == u && (x + v + z)[|x|..|x| + |u|] == v;
    }
  }

  lemma StreamOfTwo(a: Frame, b: Frame)
    ensures Stream([a, b]) == Head(a) + (a.payload + Head(b)) + b.payload
    ensures Interleaved(a, b) == Head(a) + (Head(b) + a.payload) + b.payload
  {
    assert [a, b][..1] == [a] && [a][..0] == [];
    assert Stream([a]) == [] + Encode(a) == Encode(a);
  }

  /** For any two frames: the peer reads them exactly when the second head and the first payload commute. */
  lemma HeadsFirstReadsRight(a: Frame, b: Frame)
    requires Fits(a) && Fits(b)
    ensures FramesIn(Interleaved(a, b)) == [a, b] <==> Head(b) + a.payload == a.payload + Head(b)
  {
    var s := Interleaved(a, b);
    StreamOfTwo(a, b);
    MiddleDecides(Head(a), Head(b) + a.payload, a.payload + Head(b), b.payload);
    if FramesIn(s) == [a, b] {
      StreamIsFrames(s);
      assert |LeftOver(s)| == 0;
      assert Stream([a, b]) + [] == Stream([a, b]);
    }
    if s == Stream([a, b]) {
      ReadsExactly(s, [a, b]);
    }
  }

  /** So locking each write alone is not enough: a run of two relays to one peer, with nothing left
      unwritten, gives the peer a frame neither of them sent. */
  lemma SingleWriteLocksInterleave()
    ensures var a, b := Frame(DATA, [0xaa]), Frame(DATA, [0xbb]);
            var s := RunLoose(LooseStart(map[0 := [a], 1 := [b]]), [0, 1, 0, 1]);
            && s.mid == map[] && s.sent == [(0, a), (1, b)]
            && FramesIn(s.stream) == [Frame(DATA, [DATA])]
  {
    var a, b := Frame(DATA, [0xaa]), Frame(DATA, [0xbb]);
    HeadsFirst(a, b);
    assert Interleaved(a, b) == [DATA, 0, 1, DATA, 0, 1, 0xaa, 0xbb];
    WrongFrame();
  }

  lemma WrongFrame()
    ensures FramesIn([DATA, 0, 1, DATA, 0, 1, 0xaa, 0xbb]) == [Frame(DATA, [DATA])]
  {
    var s: seq<byte> := [DATA, 0, 1, DATA, 0, 1, 0xaa, 0xbb];
    assert s[3..4] == [DATA] && s[4..] == [0, 1, 0xaa, 0xbb];
    assert ReadOne(s[4..]) == Short;
    assert ReadOne(s) == Got(Frame(DATA, [DATA]), s[4..]);
    assert FramesIn(s[4..]) == [];
  }
}
