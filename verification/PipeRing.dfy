/** lib/pipe.c: one reader and one writer share a ring of PIPEBUFSIZ bytes without a lock.  A
    step is one access to memory the other side writes, or one store. */
module PipeRing {
  const PIPEBUFSIZ: nat := 32
  const POSMAX: nat := 0x8000_0000

  type Byte = b: int | 0 <= b < 256

  datatype RPc = RIdle | RLoad | RTest(wpos: nat) | RTake | RBump
  datatype WPc = WIdle | WLoad | WTest(rpos: nat) | WStore | WBump

  /** A read call: it has asked for n bytes and stored those in got; start is how many bytes had
      been delivered when it began. */
  datatype Read = Read(pc: RPc, n: nat, got: seq<Byte>, start: nat)

  /** A write call: it is to send data and has sent the first i bytes. */
  datatype Write = Write(pc: WPc, data: seq<Byte>, i: nat, start: nat)

  /** accepted and delivered are all bytes ever counted in by p_wpos and out by p_rpos. */
  datatype State = State(
    rpos: nat, wpos: nat, buf: seq<Byte>, reader: Read, writer: Write,
    accepted: seq<Byte>, delivered: seq<Byte>)

  datatype Action =
    | BeginRead(n: nat) | ReadWpos | TestEmpty(closed: bool) | TakeByte | BumpRpos
    | BeginWrite(data: seq<Byte>) | ReadRpos | TestFull(closed: bool) | StoreByte | BumpWpos

  predicate Enabled(s: State, a: Action) {
    match a
    case BeginRead(_) => s.reader.pc == RIdle
    case ReadWpos => s.reader.pc == RLoad
    case TestEmpty(_) => s.reader.pc.RTest?
    case TakeByte => s.reader.pc == RTake
    case BumpRpos => s.reader.pc == RBump && s.rpos + 1 < POSMAX
    case BeginWrite(_) => s.writer.pc == WIdle
    case ReadRpos => s.writer.pc == WLoad
    case TestFull(_) => s.writer.pc.WTest?
    case StoreByte => s.writer.pc == WStore && s.writer.i < |s.writer.data|
    case BumpWpos => s.writer.pc == WBump && s.wpos + 1 < POSMAX
  }

  function Do(s: State, a: Action): State
    requires |s.buf| == PIPEBUFSIZ && Enabled(s, a)
  {
    var r := s.reader;
    var w := s.writer;
    match a
    case BeginRead(n) => s.(reader := Read(if n == 0 then RIdle else RLoad, n, [], s.rpos))
    case ReadWpos => s.(reader := r.(pc := RTest(s.wpos)))
    case TestEmpty(closed) =>
      // empty: return what there is, or end of file, or yield and look again
      s.(reader := r.(pc := if s.rpos == r.pc.wpos then (if |r.got| > 0 || closed then RIdle else RLoad) else RTake))
    case TakeByte => s.(reader := r.(pc := RBump, got := r.got + [s.buf[s.rpos % PIPEBUFSIZ]]))
    case BumpRpos =>
      s.(rpos := s.rpos + 1, delivered := s.delivered + (if r.got == [] then [] else [r.got[|r.got| - 1]]),
         reader := r.(pc := if |r.got| < r.n then RLoad else RIdle))
    case BeginWrite(data) => s.(writer := Write(if data == [] then WIdle else WLoad, data, 0, s.wpos))
    case ReadRpos => s.(writer := w.(pc := WTest(s.rpos)))
    case TestFull(closed) =>
      s.(writer := w.(pc := if s.wpos >= w.pc.rpos + PIPEBUFSIZ then (if closed then WIdle else WLoad) else WStore))
    case StoreByte => s.(buf := s.buf[s.wpos % PIPEBUFSIZ := w.data[w.i]], writer := w.(pc := WBump))
    case BumpWpos =>
      s.(wpos := s.wpos + 1, accepted := s.accepted + (if w.i < |w.data| then [w.data[w.i]] else []),
         writer := w.(i := w.i + 1, pc := if w.i + 1 < |w.data| then WLoad else WIdle))
  }

  ghost predicate Init(s: State) {
    && s.rpos == s.wpos == 0 && |s.buf| == PIPEBUFSIZ && s.accepted == s.delivered == []
    && s.reader == Read(RIdle, 0, [], 0) && s.writer == Write(WIdle, [], 0, 0)
  }

  /** At most PIPEBUFSIZ bytes are in flight, they are in the ring, and what has come out is a
      prefix of what went in. */
  ghost predicate RingOk(s: State) {
    && |s.buf| == PIPEBUFSIZ && s.rpos <= s.wpos <= s.rpos + PIPEBUFSIZ && s.wpos < POSMAX
    && |s.accepted| == s.wpos && s.delivered == s.accepted[..s.rpos]
    && (forall k :: s.rpos <= k < s.wpos ==> s.buf[k % PIPEBUFSIZ] == s.accepted[k])
  }

  /** A read call holds exactly the bytes delivered since it began, and one more before p_rpos
      moves on. */
  ghost predicate ReaderOk(s: State) {
    var r := s.reader;
    && r.start <= s.rpos && |s.delivered| == s.rpos
    && (r.pc == RBump ==> s.rpos < s.wpos && |r.got| > 0 && s.wpos <= |s.accepted| && r.got == s.delivered[r.start..] + [s.accepted[s.rpos]])
    && (r.pc != RBump ==> r.got == s.delivered[r.start..])
    && (r.pc.RTest? ==> s.rpos <= r.pc.wpos <= s.wpos)
    && (r.pc == RTake ==> s.rpos < s.wpos)
    && (r.pc != RIdle ==> |r.got| <= r.n && (r.pc != RBump ==> |r.got| < r.n))
  }

  /** A write call has sent exactly the bytes accepted since it began. */
  ghost predicate WriterOk(s: State) {
    var w := s.writer;
    && w.start <= |s.accepted| && w.i <= |w.data| && s.accepted[w.start..] == w.data[..w.i]
    && (w.pc != WIdle ==> w.i < |w.data|)
    && (w.pc.WTest? ==> w.pc.rpos <= s.rpos)
    && (w.pc == WStore || w.pc == WBump ==> s.wpos < s.rpos + PIPEBUFSIZ)
    && (w.pc == WBump ==> |s.buf| == PIPEBUFSIZ && s.buf[s.wpos % PIPEBUFSIZ] == w.data[w.i])
  }

  ghost predicate Inv(s: State) { RingOk(s) && ReaderOk(s) && WriterOk(s) }

  lemma InitInv(s: State)
    requires Init(s)
    ensures Inv(s)
  {
  }

  /** Positions less than PIPEBUFSIZ apart use different slots. */
  lemma SlotsDiffer(j: nat, k: nat)
    requires j < k < j + PIPEBUFSIZ
    ensures j % PIPEBUFSIZ != k % PIPEBUFSIZ
  {
  }

  /** The slot about to be written holds no byte that is still to be read. */
  lemma StoreHitsFreeSlot(s: State, k: nat)
    requires Inv(s) && s.writer.pc == WStore && s.rpos <= k < s.wpos
    ensures k % PIPEBUFSIZ != s.wpos % PIPEBUFSIZ
  {
    SlotsDiffer(k, s.wpos);
  }

  lemma StoreInv(s: State)
    requires Inv(s) && Enabled(s, StoreByte)
    ensures Inv(Do(s, StoreByte))
  {
    forall k: nat | s.rpos <= k < s.wpos ensures k % PIPEBUFSIZ != s.wpos % PIPEBUFSIZ {
      StoreHitsFreeSlot(s, k);
    }
  }

  lemma BumpWposInv(s: State)
    requires Inv(s) && Enabled(s, BumpWpos)
    ensures Inv(Do(s, BumpWpos))
  {
    var s' := Do(s, BumpWpos);
    assert s'.accepted[..s.rpos] == s.accepted[..s.rpos];
    assert s'.accepted[s.writer.start..] == s.accepted[s.writer.start..] + [s.writer.data[s.writer.i]];
  }

  lemma BumpRposInv(s: State)
    requires Inv(s) && Enabled(s, BumpRpos)
    ensures Inv(Do(s, BumpRpos))
  {
    var s' := Do(s, BumpRpos);
    assert s.accepted[..s.rpos + 1] == s.accepted[..s.rpos] + [s.accepted[s.rpos]];
    assert s'.delivered[s.reader.start..] == s.delivered[s.reader.start..] + [s.accepted[s.rpos]];
  }

  lemma StepInv(s: State, a: Action)
    requires Inv(s) && Enabled(s, a)
    ensures Inv(Do(s, a))
  {
    match a
    case StoreByte => StoreInv(s);
    case BumpWpos => BumpWposInv(s);
    case BumpRpos => BumpRposInv(s);
    case _ =>
  }

  ghost predicate IsRun(run: seq<State>, acts: seq<Action>) {
    && |run| == |acts| + 1 && Init(run[0])
    && forall i :: 0 <= i < |acts| ==> |run[i].buf| == PIPEBUFSIZ && Enabled(run[i], acts[i]) && run[i + 1] == Do(run[i], acts[i])
  }

  /** In every interleaving the delivered bytes are a prefix of the accepted bytes and at most
      PIPEBUFSIZ bytes are in flight. */
  lemma {:induction false} PrefixDelivered(run: seq<State>, acts: seq<Action>, i: nat)
    requires IsRun(run, acts) && i < |run|
    ensures Inv(run[i])
    ensures run[i].delivered <= run[i].accepted && |run[i].accepted| <= |run[i].delivered| + PIPEBUFSIZ
  {
    hide Do, Enabled, Init;
    if i == 0 {
      InitInv(run[0]);
    } else {
      PrefixDelivered(run, acts, i - 1);
      StepInv(run[i - 1], acts[i - 1]);
    }
  }

  // ---------------------------------------------------------------- what a call has done when it returns

  ghost predicate ReadReturns(run: seq<State>, acts: seq<Action>, i: nat)
    requires i < |acts| && |run| == |acts| + 1
  {
    run[i].reader.pc != RIdle && run[i + 1].reader.pc == RIdle
  }

  ghost predicate WriteReturns(run: seq<State>, acts: seq<Action>, i: nat)
    requires i < |acts| && |run| == |acts| + 1
  {
    run[i].writer.pc != WIdle && run[i + 1].writer.pc == WIdle
  }

  /** The position a test compares with was read earlier in the call, with the reader's own where it is now. */
  lemma {:induction false} LoadedWpos(run: seq<State>, acts: seq<Action>, i: nat) returns (j: nat)
    requires IsRun(run, acts) && i < |run| && run[i].reader.pc.RTest?
    ensures j < i && acts[j] == ReadWpos && run[j].wpos == run[i].reader.pc.wpos && run[j].rpos == run[i].rpos
  {
    if acts[i - 1] == ReadWpos { j := i - 1; } else { j := LoadedWpos(run, acts, i - 1); }
  }

  lemma {:induction false} LoadedRpos(run: seq<State>, acts: seq<Action>, i: nat) returns (j: nat)
    requires IsRun(run, acts) && i < |run| && run[i].writer.pc.WTest?
    ensures j < i && acts[j] == ReadRpos && run[j].rpos == run[i].writer.pc.rpos && run[j].wpos == run[i].wpos
  {
    if acts[i - 1] == ReadRpos { j := i - 1; } else { j := LoadedRpos(run, acts, i - 1); }
  }

  /** The ring was empty, or full, when the position that the i-th step compares with was read. */
  ghost predicate FoundEmpty(run: seq<State>, acts: seq<Action>, i: nat)
    requires i < |acts| && |run| == |acts| + 1
  {
    exists j :: 0 <= j < i && acts[j] == ReadWpos && run[j].wpos == run[j].rpos == run[i + 1].rpos
  }

  ghost predicate FoundFull(run: seq<State>, acts: seq<Action>, i: nat)
    requires i < |acts| && |run| == |acts| + 1
  {
    exists j :: 0 <= j < i && acts[j] == ReadRpos && run[j].wpos == run[j].rpos + PIPEBUFSIZ == run[i + 1].wpos
  }

  /** In every run a read that returns has all the bytes it asked for, or it found the ring empty and either
      has some bytes or was told that the pipe is closed.  So it returns nothing only from an empty pipe
      that is closed. */
  lemma ReadResult(run: seq<State>, acts: seq<Action>, i: nat)
    requires IsRun(run, acts) && i < |acts| && ReadReturns(run, acts, i)
    ensures var r := run[i + 1].reader;
            && 0 < r.n == run[i].reader.n && r.start <= |run[i + 1].delivered| && r.got == run[i + 1].delivered[r.start..]
            && |r.got| <= r.n
            && (|r.got| < r.n ==> acts[i].TestEmpty? && (|r.got| > 0 || acts[i].closed) && FoundEmpty(run, acts, i))
  {
    hide RingOk, WriterOk;
    PrefixDelivered(run, acts, i);
    PrefixDelivered(run, acts, i + 1);
    if acts[i].TestEmpty? {
      var j := LoadedWpos(run, acts, i);
      assert acts[j] == ReadWpos;
    }
  }

  /** A write that returns has sent all its bytes, or it found the ring full and was told that the pipe is
      closed. */
  lemma WriteResult(run: seq<State>, acts: seq<Action>, i: nat)
    requires IsRun(run, acts) && i < |acts| && WriteReturns(run, acts, i)
    ensures var w := run[i + 1].writer;
            && w.data == run[i].writer.data && w.data != [] && w.i <= |w.data|
            && w.start <= |run[i + 1].accepted| && run[i + 1].accepted[w.start..] == w.data[..w.i]
            && (w.i < |w.data| ==> acts[i] == TestFull(true) && FoundFull(run, acts, i))
  {
    hide ReaderOk;
    PrefixDelivered(run, acts, i);
    PrefixDelivered(run, acts, i + 1);
    if acts[i].TestFull? {
      var j := LoadedRpos(run, acts, i);
      PrefixDelivered(run, acts, j);
      assert acts[j] == ReadRpos;
    }
  }

  // ---------------------------------------------------------------- progress

  function Acts(s: State, acts: seq<Action>): State
    decreases |acts|
  {
    if acts == [] || |s.buf| != PIPEBUFSIZ || !Enabled(s, acts[0]) then s else Acts(Do(s, acts[0]), acts[1..])
  }

  lemma ActsStep(s: State, a: Action, rest: seq<Action>)
    requires |s.buf| == PIPEBUFSIZ && Enabled(s, a)
    ensures Acts(s, [a] + rest) == Acts(Do(s, a), rest)
  {
    hide Do, Enabled;
    assert ([a] + rest)[1..] == rest;
  }

  /** A byte that is in the ring comes out in four steps of a reader that waits for one, whatever the test of
      the other end would say. */
  lemma ReaderTakes(s: State, closed: bool)
    requires Inv(s) && s.reader.pc == RLoad && s.rpos < s.wpos
    ensures var s' := Acts(s, [ReadWpos, TestEmpty(closed), TakeByte, BumpRpos]);
            && Inv(s') && s'.rpos == s.rpos + 1 && s'.delivered == s.delivered + [s.accepted[s.rpos]]
            && s'.reader.got == s.reader.got + [s.accepted[s.rpos]]
            && s'.reader.pc == (if |s'.reader.got| < s.reader.n then RLoad else RIdle)
            && s' == s.(rpos := s'.rpos, delivered := s'.delivered, reader := s'.reader)
  {
    hide Acts, RingOk, WriterOk;
    RingInside(s);
    var s1 := Do(s, ReadWpos);
    StepInv(s, ReadWpos);
    var s2 := Do(s1, TestEmpty(closed));
    StepInv(s1, TestEmpty(closed));
    var s3 := Do(s2, TakeByte);
    StepInv(s2, TakeByte);
    StepInv(s3, BumpRpos);
    ActsStep(s, ReadWpos, [TestEmpty(closed), TakeByte, BumpRpos]);
    ActsStep(s1, TestEmpty(closed), [TakeByte, BumpRpos]);
    ActsStep(s2, TakeByte, [BumpRpos]);
    ActsStep(s3, BumpRpos, []);
    FourActs(ReadWpos, TestEmpty(closed), TakeByte, BumpRpos);
    ActsDone(Do(s3, BumpRpos));
  }

  lemma FourActs(a: Action, b: Action, c: Action, d: Action)
    ensures [a] + [b, c, d] == [a, b, c, d] && [b] + [c, d] == [b, c, d] && [c] + [d] == [c, d] && [d] + [] == [d]
  {
  }

  lemma ActsDone(s: State)
    ensures Acts(s, []) == s
  {
  }

  lemma RingInside(s: State)
    requires RingOk(s)
    ensures |s.buf| == PIPEBUFSIZ && s.rpos <= s.wpos < POSMAX && |s.accepted| == s.wpos
    ensures s.rpos < s.wpos ==> s.buf[s.rpos % PIPEBUFSIZ] == s.accepted[s.rpos]
  {
  }

  /** And a byte goes in, in four steps of a writer that waits for room when there is some. */
  lemma WriterPuts(s: State, closed: bool)
    requires Inv(s) && s.writer.pc == WLoad && s.wpos < s.rpos + PIPEBUFSIZ && s.wpos + 1 < POSMAX
    ensures var s', w := Acts(s, [ReadRpos, TestFull(closed), StoreByte, BumpWpos]), s.writer;
            && Inv(s') && w.i < |w.data| && s'.wpos == s.wpos + 1 && s'.accepted == s.accepted + [w.data[w.i]]
            && s'.writer == w.(i := w.i + 1, pc := if w.i + 1 < |w.data| then WLoad else WIdle)
            && s' == s.(wpos := s'.wpos, accepted := s'.accepted, writer := s'.writer, buf := s'.buf)
  {
    hide Acts, ReaderOk;
    var s1 := Do(s, ReadRpos);
    StepInv(s, ReadRpos);
    var s2 := Do(s1, TestFull(closed));
    StepInv(s1, TestFull(closed));
    var s3 := Do(s2, StoreByte);
    StepInv(s2, StoreByte);
    StepInv(s3, BumpWpos);
    ActsStep(s, ReadRpos, [TestFull(closed), StoreByte, BumpWpos]);
    ActsStep(s1, TestFull(closed), [StoreByte, BumpWpos]);
    ActsStep(s2, StoreByte, [BumpWpos]);
    ActsStep(s3, BumpWpos, []);
    FourActs(ReadRpos, TestFull(closed), StoreByte, BumpWpos);
    ActsDone(Do(s3, BumpWpos));
  }

  /** An empty pipe that is open keeps a reader with nothing waiting, and a full one a writer. */
  lemma Waits(s: State)
    requires |s.buf| == PIPEBUFSIZ
    ensures s.reader.pc == RLoad && s.rpos == s.wpos && s.reader.got == [] ==>
              Acts(s, [ReadWpos, TestEmpty(false)]) == s
    ensures s.writer.pc == WLoad && s.wpos >= s.rpos + PIPEBUFSIZ ==> Acts(s, [ReadRpos, TestFull(false)]) == s
  {
    hide Acts;
    if s.reader.pc == RLoad && s.rpos == s.wpos && s.reader.got == [] {
      var s1 := Do(s, ReadWpos);
      ActsStep(s, ReadWpos, [TestEmpty(false)]);
      ActsStep(s1, TestEmpty(false), []);
      assert [ReadWpos] + [TestEmpty(false)] == [ReadWpos, TestEmpty(false)] && [TestEmpty(false)] + [] == [TestEmpty(false)];
      ActsDone(Do(s1, TestEmpty(false)));
    }
    if s.writer.pc == WLoad && s.wpos >= s.rpos + PIPEBUFSIZ {
      var s1 := Do(s, ReadRpos);
      ActsStep(s, ReadRpos, [TestFull(false)]);
      ActsStep(s1, TestFull(false), []);
      assert [ReadRpos] + [TestFull(false)] == [ReadRpos, TestFull(false)] && [TestFull(false)] + [] == [TestFull(false)];
      ActsDone(Do(s1, TestFull(false)));
    }
  }

  /** A reader that finds nothing more returns what it has at once, or nothing if the pipe is closed, and so
      does a writer without room once the pipe is closed. */
  lemma GivesUp(s: State, closed: bool)
    requires |s.buf| == PIPEBUFSIZ
    ensures s.reader.pc == RLoad && s.rpos == s.wpos && (s.reader.got != [] || closed) ==>
              Acts(s, [ReadWpos, TestEmpty(closed)]) == s.(reader := s.reader.(pc := RIdle))
    ensures s.writer.pc == WLoad && s.wpos >= s.rpos + PIPEBUFSIZ && closed ==>
              Acts(s, [ReadRpos, TestFull(closed)]) == s.(writer := s.writer.(pc := WIdle))
  {
    hide Acts;
    if s.reader.pc == RLoad && s.rpos == s.wpos && (s.reader.got != [] || closed) {
      var s1 := Do(s, ReadWpos);
      ActsStep(s, ReadWpos, [TestEmpty(closed)]);
      ActsStep(s1, TestEmpty(closed), []);
      assert [ReadWpos] + [TestEmpty(closed)] == [ReadWpos, TestEmpty(closed)] && [TestEmpty(closed)] + [] == [TestEmpty(closed)];
      ActsDone(Do(s1, TestEmpty(closed)));
    }
    if s.writer.pc == WLoad && s.wpos >= s.rpos + PIPEBUFSIZ && closed {
      var s1 := Do(s, ReadRpos);
      ActsStep(s, ReadRpos, [TestFull(closed)]);
      ActsStep(s1, TestFull(closed), []);
      assert [ReadRpos] + [TestFull(closed)] == [ReadRpos, TestFull(closed)] && [TestFull(closed)] + [] == [TestFull(closed)];
      ActsDone(Do(s1, TestFull(closed)));
    }
  }

  /** A byte written into an idle pipe with nothing in it is what the next read returns. */
  lemma ByteDelivered(s: State, b: Byte)
    requires Inv(s) && s.reader.pc == RIdle && s.writer.pc == WIdle && s.rpos == s.wpos && s.wpos + 1 < POSMAX
    ensures var s1 := Acts(Do(s, BeginWrite([b])), [ReadRpos, TestFull(false), StoreByte, BumpWpos]);
            && Inv(s1) && s1.writer.pc == WIdle && Enabled(s1, BeginRead(1))
            && var s2 := Acts(Do(s1, BeginRead(1)), [ReadWpos, TestEmpty(false), TakeByte, BumpRpos]);
               Inv(s2) && s2.reader.pc == RIdle && s2.reader.got == [b] && s2.delivered == s.delivered + [b]
  {
    hide Acts, RingOk, WriterOk, ReaderOk;
    RingInside(s);
    StepInv(s, BeginWrite([b]));
    var s0 := Do(s, BeginWrite([b]));
    WriterPuts(s0, false);
    var s1 := Acts(s0, [ReadRpos, TestFull(false), StoreByte, BumpWpos]);
    RingInside(s1);
    StepInv(s1, BeginRead(1));
    ReaderTakes(Do(s1, BeginRead(1)), false);
  }
}
