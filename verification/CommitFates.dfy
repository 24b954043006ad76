/** How the workers of a parallel copy end: the barrier's decision binds all of them, but a commit can still fail. */
module CommitFates {
  import opened CopyQueue
  import opened ParallelCopy

  // ----- The fate of one worker -----

  /** Worker `i` failed at its own commit, in one of the first `n` moves. */
  ghost predicate CommitFailed(states: seq<State>, moves: seq<Move>, i: nat, n: nat)
    requires n <= |moves| && n <= |states|
  {
    exists k :: 0 <= k < n && FailsCommit(states[k], moves[k], i)
  }

  predicate FailsCommit(s: State, m: Move, i: nat) {
    m == WorkerMove(i, true) && i < |s.workers| && s.workers[i].pc == Committing
  }

  /** A worker that has reported throws only where its own commit failed. */
  predicate FateOk(w: Worker, failed: bool) {
    failed <==> w.published && w.pc in {Throwing, Recorded, Failed}
  }

  lemma {:induction false} OwnMove(s: State, w: Worker, fails: bool, failed: bool)
    requires WorkerOk(s, w) && !WorkerEnded(w) && FateOk(w, failed)
    requires fails ==> w.pc in {Connecting, Loading, Flushing, Committing}
    ensures FateOk(NextWorker(s, w, fails), failed || (fails && w.pc == Committing))
  {
  }

  lemma {:induction false} WorkerMoves(s: State, k: nat, fails: bool, i: nat)
    requires Enabled(s, WorkerMove(k, fails)) && i < |s.workers|
    ensures var v := MoveWorker(s, k, fails).workers[i];
            if i == k then v == NextWorker(s, s.workers[i], fails) else v in {s.workers[i], WakeWorker(s.workers[i])}
  {
    var w := s.workers[k];
    assert Wake(Share(s, w)).workers == Wake(s).workers;
  }

  lemma {:induction false} FateStep(s: State, m: Move, t: State, i: nat, failed: bool)
    requires IsStep(s, m, t) && i < |s.workers| && WorkerOk(s, s.workers[i]) && FateOk(s.workers[i], failed)
    ensures FateOk(t.workers[i], failed || FailsCommit(s, m, i))
  {
    match m
    case ReaderMove(fails) =>
      ReaderMoves(s, fails);
    case WorkerMove(k, fails) =>
      WorkerMoves(s, k, fails, i);
      if k == i {
        OwnMove(s, s.workers[i], fails, failed);
      }
  }

  lemma {:induction false} FateOfWorker(states: seq<State>, moves: seq<Move>, i: nat, n: nat)
    requires IsRun(states, moves) && n <= |moves| && i < |states[0].workers|
    ensures |states[n].workers| == |states[0].workers|
    ensures FateOk(states[n].workers[i], CommitFailed(states, moves, i, n))
  {
    RunKeepsInv(states, moves, n);
    if n > 0 {
      FateOfWorker(states, moves, i, n - 1);
      RunKeepsInv(states, moves, n - 1);
      assert IsStep(states[n - 1], moves[n - 1], states[n]);
      FateStep(states[n - 1], moves[n - 1], states[n], i, CommitFailed(states, moves, i, n - 1));
      OneMoreMove(states, moves, i, n);
    }
  }

  lemma {:induction false} OneMoreMove(states: seq<State>, moves: seq<Move>, i: nat, n: nat)
    requires 0 < n <= |moves| && n <= |states|
    ensures CommitFailed(states, moves, i, n)
            <==> CommitFailed(states, moves, i, n - 1) || FailsCommit(states[n - 1], moves[n - 1], i)
  {
    if CommitFailed(states, moves, i, n - 1) {
      var k :| 0 <= k < n - 1 && FailsCommit(states[k], moves[k], i);
      assert k < n && FailsCommit(states[k], moves[k], i);
    }
  }

  lemma {:induction false} EndedFate(s: State, i: nat)
    requires Inv(s) && s.commitOk && i < |s.workers| && WorkerEnded(s.workers[i])
    ensures s.workers[i].published && s.workers[i].pc in {Committed, Failed}
  {
    AllPublished(s);
    assert WorkerOk(s, s.workers[i]);
  }

  lemma {:induction false} UndecidedFate(s: State, i: nat)
    requires Inv(s) && !s.commitOk && i < |s.workers| && WorkerEnded(s.workers[i])
    ensures s.workers[i].pc in {Abandoned, Failed}
  {
    assert WorkerOk(s, s.workers[i]);
  }

  // ----- All of them -----

  /** In a finished run whose barrier decided to commit, a worker has committed precisely unless its own commit failed,
      and has failed otherwise; where the barrier decided against it, no worker has committed. */
  lemma {:induction false} FinishedFates(states: seq<State>, moves: seq<Move>, i: nat)
    requires IsRun(states, moves) && Finished(states[|moves|]) && i < |states[|moves|].workers|
    ensures var s := states[|moves|];
            && (s.commitOk ==>
                  s.workers[i].pc == if CommitFailed(states, moves, i, |moves|) then Failed else Committed)
            && (!s.commitOk ==> s.workers[i].pc in {Abandoned, Failed})
  {
    var s := states[|moves|];
    RunKeepsInv(states, moves, |moves|);
    FateOfWorker(states, moves, i, |moves|);
    if s.commitOk {
      EndedFate(s, i);
    } else {
      UndecidedFate(s, i);
    }
  }

  // ----- Return or throw -----

  /** After the decision to commit, only a failed commit can record an error. */
  ghost predicate ErrorHasCause(s: State) {
    s.error && s.commitOk ==> exists i :: 0 <= i < |s.workers| && Culprit(s.workers[i])
  }

  predicate Culprit(w: Worker) {
    w.pc == Recorded || w.pc == Failed
  }

  lemma {:induction false} CauseStep(s: State, m: Move, t: State)
    requires Flags(s) && IsStep(s, m, t) && ErrorHasCause(s)
    ensures ErrorHasCause(t)
  {
    match m
    case ReaderMove(fails) => ReaderKeepsCause(s, fails);
    case WorkerMove(i, fails) => WorkerKeepsCause(s, i, fails);
  }

  lemma {:induction false} ReaderKeepsCause(s: State, fails: bool)
    requires Flags(s) && Enabled(s, ReaderMove(fails)) && ErrorHasCause(s)
    ensures ErrorHasCause(MoveReader(s, fails))
  {
    var t := MoveReader(s, fails);
    ReaderMoves(s, fails);
    if t.error && t.commitOk {
      ReaderDecisionClean(s, fails);
      var i :| 0 <= i < |s.workers| && Culprit(s.workers[i]);
      assert Culprit(t.workers[i]);
    }
  }

  lemma {:induction false} ReaderDecisionClean(s: State, fails: bool)
    requires Flags(s) && Enabled(s, ReaderMove(fails))
    requires MoveReader(s, fails).error && MoveReader(s, fails).commitOk
    ensures s.error && s.commitOk
  {
  }

  lemma {:induction false} WorkerKeepsCause(s: State, i: nat, fails: bool)
    requires Enabled(s, WorkerMove(i, fails)) && ErrorHasCause(s)
    ensures ErrorHasCause(MoveWorker(s, i, fails))
  {
    var t := MoveWorker(s, i, fails);
    WorkerMoves(s, i, fails, i);
    if t.error && t.commitOk {
      WorkerErrs(s, i, fails);
      if !fails && s.workers[i].pc in {Throwing, Recorded} {
        assert Culprit(t.workers[i]);
      } else {
        var k :| 0 <= k < |s.workers| && Culprit(s.workers[k]);
        WorkerMoves(s, i, fails, k);
        assert Culprit(t.workers[k]);
      }
    }
  }

  lemma {:induction false} WorkerErrs(s: State, i: nat, fails: bool)
    requires Enabled(s, WorkerMove(i, fails))
    ensures var t := MoveWorker(s, i, fails);
            t.commitOk == s.commitOk && t.error == (s.error || (!fails && s.workers[i].pc == Throwing))
  {
    var t := Share(s, s.workers[i]);
    assert t.commitOk == s.commitOk && t.error == (s.error || s.workers[i].pc == Throwing);
  }

  lemma {:induction false} CauseAfter(states: seq<State>, moves: seq<Move>, n: nat)
    requires IsRun(states, moves) && 0 < n < |states| && ErrorHasCause(states[n - 1])
    ensures ErrorHasCause(states[n])
  {
    RunKeepsFlags(states, moves, n - 1);
    assert IsStep(states[n - 1], moves[n - 1], states[n]);
    CauseStep(states[n - 1], moves[n - 1], states[n]);
  }

  lemma {:induction false} RunKeepsFlags(states: seq<State>, moves: seq<Move>, n: nat)
    requires IsRun(states, moves) && n < |states|
    ensures Flags(states[n])
  {
    RunKeepsInv(states, moves, n);
  }

  lemma {:induction false} RunHasCause(states: seq<State>, moves: seq<Move>, n: nat)
    requires IsRun(states, moves) && n < |states|
    ensures ErrorHasCause(states[n])
  {
    if n > 0 {
      RunHasCause(states, moves, n - 1);
      CauseAfter(states, moves, n);
    }
  }

  /** A finished run returns normally precisely when the barrier decided to commit and no worker's own commit failed. */
  lemma {:induction false} ReturnsPrecisely(states: seq<State>, moves: seq<Move>)
    requires IsRun(states, moves) && Finished(states[|moves|])
    ensures var s := states[|moves|];
            s.reader == Returned <==>
              s.commitOk && forall i :: 0 <= i < |s.workers| ==> !CommitFailed(states, moves, i, |moves|)
  {
    var s := states[|moves|];
    RunKeepsInv(states, moves, |moves|);
    forall i | 0 <= i < |s.workers|
      ensures s.commitOk ==> (s.workers[i].pc == Committed <==> !CommitFailed(states, moves, i, |moves|))
      ensures s.commitOk ==> s.workers[i].pc in {Committed, Failed}
    {
      FinishedFates(states, moves, i);
    }
    RunHasCause(states, moves, |moves|);
    if s.reader == Returned {
      ReturnMeansCommitted(s);
      ReturnedHasDecided(s);
    } else if s.commitOk {
      ThrewHasError(s);
      var i :| 0 <= i < |s.workers| && Culprit(s.workers[i]);
      assert CommitFailed(states, moves, i, |moves|);
    }
  }

  lemma {:induction false} ReturnedHasDecided(s: State)
    requires Inv(s) && s.reader == Returned
    ensures s.commitOk
  {
  }

  lemma {:induction false} ThrewHasError(s: State)
    requires Inv(s) && s.reader == Threw
    ensures s.error
  {
  }

  // ----- A copy that commits in part -----

  /** A sequence of states that a relation links, move by move. */
  ghost predicate Linked(states: seq<State>, moves: seq<Move>, step: (State, Move, State) -> bool) {
    |states| == |moves| + 1 && forall k :: 0 <= k < |moves| ==> step(states[k], moves[k], states[k + 1])
  }

  ghost predicate Path(s: State, moves: seq<Move>, t: State, step: (State, Move, State) -> bool) {
    exists states :: Linked(states, moves, step) && states[0] == s && states[|moves|] == t
  }

  lemma {:induction false} PathJoin(s: State, some: seq<Move>, t: State, more: seq<Move>, u: State,
                                    step: (State, Move, State) -> bool)
    requires Path(s, some, t, step) && Path(t, more, u, step)
    ensures Path(s, some + more, u, step)
  {
    var a :| Linked(a, some, step) && a[0] == s && a[|some|] == t;
    var b :| Linked(b, more, step) && b[0] == t && b[|more|] == u;
    var states, moves := a + b[1..], some + more;
    forall k | 0 <= k < |moves| ensures step(states[k], moves[k], states[k + 1]) {
      if k >= |some| {
        assert step(b[k - |some|], more[k - |some|], b[k - |some| + 1]);
      }
    }
    assert Linked(states, moves, step);
  }

  lemma {:induction false} Three(s: State, m: Move, a: State, n: Move, b: State, o: Move, c: State,
                                 step: (State, Move, State) -> bool)
    requires step(s, m, a) && step(a, n, b) && step(b, o, c)
    ensures Path(s, [m, n, o], c, step)
  {
    assert Linked([s, a, b, c], [m, n, o], step);
  }

  lemma {:induction false} Two(s: State, m: Move, a: State, n: Move, b: State, step: (State, Move, State) -> bool)
    requires step(s, m, a) && step(a, n, b)
    ensures Path(s, [m, n], b, step)
  {
    assert Linked([s, a, b], [m, n], step);
  }

  ghost function Step(): (State, Move, State) -> bool {
    (s, m, t) => IsStep(s, m, t)
  }

  /** Nobody sleeps, so notifying changes nothing. */
  predicate Quiet(s: State) {
    s.reader !in {OfferAsleep, DecideAsleep} && forall i :: 0 <= i < |s.workers| ==> !WorkerAsleep(s.workers[i])
  }

  lemma {:induction false} WakeNobody(s: State)
    requires Quiet(s)
    ensures Wake(s) == s
  {
    assert Wake(s).workers == s.workers;
  }

  const R := ReaderMove(false)

  function W(i: nat): Move {
    WorkerMove(i, false)
  }

  lemma {:induction false} QuietReader(s: State, t: State)
    requires Quiet(s) && Enabled(s, R) && s.taken <= |s.input|
    requires t == ReaderShare(s, false).(reader := NextReader(s, false))
    ensures Step()(s, R, t)
  {
    var shared := ReaderShare(s, false);
    assert shared.reader == s.reader;
    WakeNobody(shared);
  }

  lemma {:induction false} QuietWorker(s: State, i: nat, fails: bool, t: State)
    requires Quiet(s) && Enabled(s, WorkerMove(i, fails)) && s.taken <= |s.input|
    requires var w := s.workers[i];
             t == SetWorker(if fails then s else Share(s, w), i, NextWorker(s, w, fails))
    ensures Step()(s, WorkerMove(i, fails), t)
  {
    var shared := Share(s, s.workers[i]);
    assert shared.reader == s.reader;
    WakeNobody(shared);
  }

  /** The reader queues the next chunk. */
  lemma {:induction false} ReadOne(s: State)
    requires Quiet(s) && s.reader == Reading && s.readerHand == [] && s.queue == [] && !s.cancel
    requires s.taken < |s.input| && s.workers != []
    ensures Path(s, [R, R, R], s.(taken := s.taken + 1, queue := [s.input[s.taken]]), Step())
  {
    var a := s.(reader := Offering, readerHand := [s.input[s.taken]], taken := s.taken + 1);
    var b := a.(reader := Pushed, readerHand := [], queue := [s.input[s.taken]]);
    var c := b.(reader := Reading);
    QuietReader(s, a);
    QuietReader(a, b);
    QuietReader(b, c);
    Three(s, R, a, R, b, R, c, Step());
  }

  predicate MayFetch(s: State, i: nat) {
    && Quiet(s) && !s.cancel && s.taken <= |s.input|
    && i < |s.workers| && s.workers[i].pc == Fetching && s.workers[i].hand == []
  }

  lemma {:induction false} PopOne(s: State, i: nat, a: State)
    requires MayFetch(s, i) && |s.queue| == 1
    requires a == SetWorker(s, i, s.workers[i].(pc := Popped, hand := s.queue)).(queue := [])
    ensures Step()(s, W(i), a) && Quiet(a)
  {
    assert [s.queue[0]] == s.queue;
    QuietWorker(s, i, false, a);
  }

  lemma {:induction false} HoldOne(a: State, i: nat, b: State)
    requires Quiet(a) && a.taken <= |a.input| && i < |a.workers| && a.workers[i].pc == Popped
    requires b == SetWorker(a, i, a.workers[i].(pc := Loading))
    ensures Step()(a, W(i), b) && Quiet(b)
  {
    QuietWorker(a, i, false, b);
  }

  lemma {:induction false} KeepOne(b: State, i: nat, t: State)
    requires Quiet(b) && b.taken <= |b.input| && i < |b.workers| && b.workers[i].pc == Loading
    requires var w := b.workers[i]; t == SetWorker(b, i, w.(pc := Fetching, loaded := w.loaded + w.hand, hand := []))
    ensures Step()(b, W(i), t)
  {
    QuietWorker(b, i, false, t);
  }

  /** A worker loads the one chunk in the queue. */
  lemma {:induction false} LoadOne(s: State, i: nat, t: State)
    requires MayFetch(s, i) && |s.queue| == 1
    requires t == SetWorker(s, i, s.workers[i].(loaded := s.workers[i].loaded + s.queue)).(queue := [])
    ensures Path(s, [W(i), W(i), W(i)], t, Step())
  {
    var w := s.workers[i];
    var a := SetWorker(s, i, w.(pc := Popped, hand := s.queue)).(queue := []);
    var b := SetWorker(a, i, w.(pc := Loading, hand := s.queue));
    PopOne(s, i, a);
    HoldOne(a, i, b);
    KeepOne(b, i, t);
    Three(s, W(i), a, W(i), b, W(i), t, Step());
  }

  lemma {:induction false} PublishOne(s: State, i: nat, t: State)
    requires Quiet(s) && s.taken <= |s.input| && i < |s.workers| && s.workers[i].pc == Publishing
    requires t == SetWorker(s, i, s.workers[i].(pc := Waiting, published := true))
                    .(ready := s.ready + 1, rowsLoaded := s.rowsLoaded + Rows(s.workers[i].loaded))
    ensures Step()(s, W(i), t)
  {
    QuietWorker(s, i, false, t);
  }

  /** With the input used up, a worker flushes and reports to the barrier. */
  lemma {:induction false} ReportOne(s: State, i: nat, t: State)
    requires MayFetch(s, i) && s.done && s.queue == []
    requires t == SetWorker(s, i, s.workers[i].(pc := Waiting, published := true))
                    .(ready := s.ready + 1, rowsLoaded := s.rowsLoaded + Rows(s.workers[i].loaded))
    ensures Path(s, [W(i), W(i), W(i)], t, Step())
  {
    var w := s.workers[i];
    var a := SetWorker(s, i, w.(pc := Flushing));
    var b := SetWorker(a, i, w.(pc := Publishing));
    QuietWorker(s, i, false, a);
    QuietWorker(a, i, false, b);
    PublishOne(b, i, t);
    Three(s, W(i), a, W(i), b, W(i), t, Step());
  }

  /** Two workers over two chunks. */
  function Pair(c: Chunk, d: Chunk, taken: nat, reader: ReaderPc, v: Worker, w: Worker): State {
    State([c, d], taken, reader, [], [v, w], [], false, false, false, 0, 0, false, false)
  }

  /** After the input has been closed. */
  function Closed(c: Chunk, d: Chunk, reader: ReaderPc, v: Worker, w: Worker, ready: nat, rows: nat): State {
    Pair(c, d, 2, reader, v, w).(done := true, ready := ready, rowsLoaded := rows)
  }

  /** After the decision to commit. */
  function Agreed(c: Chunk, d: Chunk, reader: ReaderPc, v: WorkerPc, w: WorkerPc, error: bool): State {
    Closed(c, d, reader, Worker(v, [], [c], true), Worker(w, [], [d], true), 2, |c| + |d|)
      .(commitDecided := true, commitOk := true, error := error, cancel := error)
  }

  lemma {:induction false} RowsOfOne(c: Chunk)
    ensures Rows([c]) == |c|
  {
    assert [c][..0] == [];
    assert Total([], Size()) == 0 && Size()(c) == |c|;
  }

  function Idle(loaded: seq<Chunk>): Worker {
    Worker(Fetching, [], loaded, false)
  }

  function Starting(c: Chunk, d: Chunk): State {
    Pair(c, d, 0, Reading, Worker(Connecting, [], [], false), Worker(Connecting, [], [], false))
  }

  lemma {:induction false} BothConnect(c: Chunk, d: Chunk)
    ensures Path(Starting(c, d), [W(0), W(1)], Pair(c, d, 0, Reading, Idle([]), Idle([])), Step())
  {
    var t := Pair(c, d, 0, Reading, Idle([]), Worker(Connecting, [], [], false));
    var u := Pair(c, d, 0, Reading, Idle([]), Idle([]));
    QuietWorker(Starting(c, d), 0, false, t);
    QuietWorker(t, 1, false, u);
    Two(Starting(c, d), W(0), t, W(1), u, Step());
  }

  lemma {:induction false} FirstLoads(c: Chunk, d: Chunk)
    ensures Path(Pair(c, d, 0, Reading, Idle([]), Idle([])), [R, R, R] + [W(0), W(0), W(0)],
                 Pair(c, d, 1, Reading, Idle([c]), Idle([])), Step())
  {
    var s, t := Pair(c, d, 0, Reading, Idle([]), Idle([])), Pair(c, d, 1, Reading, Idle([c]), Idle([]));
    var q := s.(taken := 1, queue := [c]);
    assert [] + q.queue == q.queue;
    ReadOne(s);
    LoadOne(q, 0, t);
    PathJoin(s, [R, R, R], q, [W(0), W(0), W(0)], t, Step());
  }

  lemma {:induction false} SecondLoads(c: Chunk, d: Chunk)
    ensures Path(Pair(c, d, 1, Reading, Idle([c]), Idle([])), [R, R, R] + [W(1), W(1), W(1)],
                 Pair(c, d, 2, Reading, Idle([c]), Idle([d])), Step())
  {
    var s, t := Pair(c, d, 1, Reading, Idle([c]), Idle([])), Pair(c, d, 2, Reading, Idle([c]), Idle([d]));
    var q := s.(taken := 2, queue := [d]);
    assert [] + q.queue == q.queue;
    ReadOne(s);
    LoadOne(q, 1, t);
    PathJoin(s, [R, R, R], q, [W(1), W(1), W(1)], t, Step());
  }

  lemma {:induction false} InputCloses(c: Chunk, d: Chunk)
    ensures Path(Pair(c, d, 2, Reading, Idle([c]), Idle([d])), [R, R],
                 Closed(c, d, Deciding, Idle([c]), Idle([d]), 0, 0), Step())
  {
    var s, t := Pair(c, d, 2, Reading, Idle([c]), Idle([d])), Pair(c, d, 2, Closing, Idle([c]), Idle([d]));
    var u := Closed(c, d, Deciding, Idle([c]), Idle([d]), 0, 0);
    QuietReader(s, t);
    QuietReader(t, u);
    Two(s, R, t, R, u, Step());
  }

  function AtWait(pc: WorkerPc, c: Chunk): Worker {
    Worker(pc, [], [c], true)
  }

  lemma {:induction false} BothReport(c: Chunk, d: Chunk)
    ensures Path(Closed(c, d, Deciding, Idle([c]), Idle([d]), 0, 0), [W(0), W(0), W(0)] + [W(1), W(1), W(1)],
                 Closed(c, d, Deciding, AtWait(Waiting, c), AtWait(Waiting, d), 2, |c| + |d|), Step())
  {
    var s := Closed(c, d, Deciding, Idle([c]), Idle([d]), 0, 0);
    var t := Closed(c, d, Deciding, AtWait(Waiting, c), Idle([d]), 1, |c|);
    var u := Closed(c, d, Deciding, AtWait(Waiting, c), AtWait(Waiting, d), 2, |c| + |d|);
    RowsOfOne(c);
    RowsOfOne(d);
    ReportOne(s, 0, t);
    ReportOne(t, 1, u);
    PathJoin(s, [W(0), W(0), W(0)], t, [W(1), W(1), W(1)], u, Step());
  }

  lemma {:induction false} BarrierDecides(c: Chunk, d: Chunk)
    ensures Path(Closed(c, d, Deciding, AtWait(Waiting, c), AtWait(Waiting, d), 2, |c| + |d|), [R, R],
                 Agreed(c, d, Joining, Waiting, Waiting, false), Step())
  {
    var s := Closed(c, d, Deciding, AtWait(Waiting, c), AtWait(Waiting, d), 2, |c| + |d|);
    var t, u := Agreed(c, d, Decided, Waiting, Waiting, false), Agreed(c, d, Joining, Waiting, Waiting, false);
    QuietReader(s, t);
    QuietReader(t, u);
    Two(s, R, t, R, u, Step());
  }

  lemma {:induction false} FirstGoes(c: Chunk, d: Chunk, pc: WorkerPc, next: WorkerPc)
    requires (pc == Waiting && next == Committing) || (pc == Committing && next == Committed)
    ensures Step()(Agreed(c, d, Joining, pc, Waiting, false), W(0), Agreed(c, d, Joining, next, Waiting, false))
  {
    QuietWorker(Agreed(c, d, Joining, pc, Waiting, false), 0, false,
                Agreed(c, d, Joining, next, Waiting, false));
  }

  lemma {:induction false} SecondTries(c: Chunk, d: Chunk, pc: WorkerPc, fails: bool, next: WorkerPc)
    requires (pc == Waiting && !fails && next == Committing) || (pc == Committing && fails && next == Throwing)
    ensures Step()(Agreed(c, d, Joining, Committed, pc, false), WorkerMove(1, fails),
                   Agreed(c, d, Joining, Committed, next, false))
  {
    QuietWorker(Agreed(c, d, Joining, Committed, pc, false), 1, fails,
                Agreed(c, d, Joining, Committed, next, false));
  }

  lemma {:induction false} SecondStops(c: Chunk, d: Chunk, pc: WorkerPc, next: WorkerPc)
    requires (pc == Throwing && next == Recorded) || (pc == Recorded && next == Failed)
    ensures Step()(Agreed(c, d, Joining, Committed, pc, pc == Recorded), W(1),
                   Agreed(c, d, Joining, Committed, next, true))
  {
    QuietWorker(Agreed(c, d, Joining, Committed, pc, pc == Recorded), 1, false,
                Agreed(c, d, Joining, Committed, next, true));
  }

  lemma {:induction false} FirstCommits(c: Chunk, d: Chunk)
    ensures Path(Agreed(c, d, Joining, Waiting, Waiting, false), [W(0), W(0), W(1)],
                 Agreed(c, d, Joining, Committed, Committing, false), Step())
  {
    FirstGoes(c, d, Waiting, Committing);
    FirstGoes(c, d, Committing, Committed);
    SecondTries(c, d, Waiting, false, Committing);
    Three(Agreed(c, d, Joining, Waiting, Waiting, false), W(0),
          Agreed(c, d, Joining, Committing, Waiting, false), W(0),
          Agreed(c, d, Joining, Committed, Waiting, false), W(1),
          Agreed(c, d, Joining, Committed, Committing, false), Step());
  }

  lemma {:induction false} SecondFails(c: Chunk, d: Chunk)
    ensures Path(Agreed(c, d, Joining, Committed, Committing, false), [WorkerMove(1, true), W(1), W(1)],
                 Agreed(c, d, Joining, Committed, Failed, true), Step())
  {
    SecondTries(c, d, Committing, true, Throwing);
    SecondStops(c, d, Throwing, Recorded);
    SecondStops(c, d, Recorded, Failed);
    Three(Agreed(c, d, Joining, Committed, Committing, false), WorkerMove(1, true),
          Agreed(c, d, Joining, Committed, Throwing, false), W(1),
          Agreed(c, d, Joining, Committed, Recorded, true), W(1),
          Agreed(c, d, Joining, Committed, Failed, true), Step());
  }

  lemma {:induction false} ReaderThrows(c: Chunk, d: Chunk)
    ensures Path(Agreed(c, d, Joining, Committed, Failed, true), [R],
                 Agreed(c, d, Threw, Committed, Failed, true), Step())
  {
    var s, t := Agreed(c, d, Joining, Committed, Failed, true), Agreed(c, d, Threw, Committed, Failed, true);
    QuietReader(s, t);
    assert Linked([s, t], [R], Step());
  }

  /** Two paths joined, whatever their moves are. */
  lemma {:induction false} Onward(s: State, some: seq<Move>, t: State, more: seq<Move>, u: State)
      returns (all: seq<Move>)
    requires Path(s, some, t, Step()) && Path(t, more, u, Step())
    ensures Path(s, all, u, Step())
  {
    all := some + more;
    PathJoin(s, some, t, more, u, Step());
  }

  lemma {:induction false} BothLoad(c: Chunk, d: Chunk) returns (moves: seq<Move>)
    ensures Path(Starting(c, d), moves, Pair(c, d, 2, Reading, Idle([c]), Idle([d])), Step())
  {
    var s, t := Pair(c, d, 0, Reading, Idle([]), Idle([])), Pair(c, d, 1, Reading, Idle([c]), Idle([]));
    BothConnect(c, d);
    FirstLoads(c, d);
    SecondLoads(c, d);
    moves := Onward(Starting(c, d), [W(0), W(1)], s, [R, R, R] + [W(0), W(0), W(0)], t);
    moves := Onward(Starting(c, d), moves, t, [R, R, R] + [W(1), W(1), W(1)],
                    Pair(c, d, 2, Reading, Idle([c]), Idle([d])));
  }

  lemma {:induction false} LoadedDecides(c: Chunk, d: Chunk) returns (moves: seq<Move>)
    ensures Path(Pair(c, d, 2, Reading, Idle([c]), Idle([d])), moves,
                 Agreed(c, d, Joining, Waiting, Waiting, false), Step())
  {
    var s := Pair(c, d, 2, Reading, Idle([c]), Idle([d]));
    var t := Closed(c, d, Deciding, Idle([c]), Idle([d]), 0, 0);
    var u := Closed(c, d, Deciding, AtWait(Waiting, c), AtWait(Waiting, d), 2, |c| + |d|);
    InputCloses(c, d);
    BothReport(c, d);
    BarrierDecides(c, d);
    moves := Onward(s, [R, R], t, [W(0), W(0), W(0)] + [W(1), W(1), W(1)], u);
    moves := Onward(s, moves, u, [R, R], Agreed(c, d, Joining, Waiting, Waiting, false));
  }

  lemma {:induction false} DecidedThrows(c: Chunk, d: Chunk) returns (moves: seq<Move>)
    ensures Path(Agreed(c, d, Joining, Waiting, Waiting, false), moves,
                 Agreed(c, d, Threw, Committed, Failed, true), Step())
  {
    var s := Agreed(c, d, Joining, Waiting, Waiting, false);
    var t := Agreed(c, d, Joining, Committed, Committing, false);
    var u := Agreed(c, d, Joining, Committed, Failed, true);
    FirstCommits(c, d);
    SecondFails(c, d);
    ReaderThrows(c, d);
    moves := Onward(s, [W(0), W(0), W(1)], t, [WorkerMove(1, true), W(1), W(1)], u);
    moves := Onward(s, moves, u, [R], Agreed(c, d, Threw, Committed, Failed, true));
  }

  lemma {:induction false} HalfCommits(c: Chunk, d: Chunk) returns (moves: seq<Move>)
    ensures Path(Starting(c, d), moves, Agreed(c, d, Threw, Committed, Failed, true), Step())
  {
    var s, t := Pair(c, d, 2, Reading, Idle([c]), Idle([d])), Agreed(c, d, Joining, Waiting, Waiting, false);
    var load := BothLoad(c, d);
    var decide := LoadedDecides(c, d);
    var end := DecidedThrows(c, d);
    moves := Onward(Starting(c, d), load, s, decide, t);
    moves := Onward(Starting(c, d), moves, t, end, Agreed(c, d, Threw, Committed, Failed, true));
  }

  /** Whatever the two chunks of an input, a copy with two workers can decide to commit and yet keep just one of them:
      the second worker's own commit fails, and the reader throws with half of the chunks in the table. */
  lemma {:induction false} HalfCommitted(c: Chunk, d: Chunk) returns (states: seq<State>, moves: seq<Move>)
    ensures IsRun(states, moves) && states[|moves|].input == [c, d]
    ensures var s := states[|moves|];
            && s.commitOk && s.reader == Threw
            && s.workers == [Worker(Committed, [], [c], true), Worker(Failed, [], [d], true)]
  {
    moves := HalfCommits(c, d);
    states :| Linked(states, moves, Step()) && states[0] == Starting(c, d)
              && states[|moves|] == Agreed(c, d, Threw, Committed, Failed, true);
    PathRuns(states, moves);
  }

  lemma {:induction false} PathRuns(states: seq<State>, moves: seq<Move>)
    requires Linked(states, moves, Step()) && Init(states[0])
    ensures IsRun(states, moves)
  {
    forall k | 0 <= k < |moves| ensures IsStep(states[k], moves[k], states[k + 1]) {
      assert Step()(states[k], moves[k], states[k + 1]);
    }
  }
}
