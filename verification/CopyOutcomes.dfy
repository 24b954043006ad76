/** How a parallel copy ends: it returns normally precisely when nothing failed in it. */
module CopyOutcomes {
  import opened ParallelCopy
  import opened CommitFates

  /** Some move before the `n`th failed: a read, a connection, a load, a flush or a commit. */
  predicate SomeFailed(moves: seq<Move>, n: nat)
    requires n <= |moves|
  {
    exists k :: 0 <= k < n && moves[k].fails
  }

  predicate WorkerTroubled(w: Worker) {
    w.pc == Throwing || w.pc == Recorded || w.pc == Failed
  }

  /** A failure has happened, recorded or not. */
  ghost predicate Troubled(s: State) {
    s.error || s.reader == ReadFailed || exists i :: 0 <= i < |s.workers| && WorkerTroubled(s.workers[i])
  }

  lemma {:induction false} NextTroubled(s: State, w: Worker, fails: bool)
    ensures WorkerTroubled(NextWorker(s, w, fails)) <==> WorkerTroubled(w) || fails
  {
  }

  lemma {:induction false} ShareError(s: State, w: Worker)
    ensures Share(s, w).reader == s.reader
    ensures Share(s, w).error <==> s.error || w.pc == Throwing
  {
  }

  lemma {:induction false} WorkerErrors(s: State, i: nat, fails: bool)
    requires Enabled(s, WorkerMove(i, fails))
    ensures var t := MoveWorker(s, i, fails);
            && (t.error ==> s.error || WorkerTroubled(s.workers[i])) && (s.error ==> t.error)
            && (t.reader == ReadFailed <==> s.reader == ReadFailed)
  {
    ShareError(s, s.workers[i]);
  }

  lemma {:induction false} WorkerTrouble(s: State, i: nat, fails: bool)
    requires Enabled(s, WorkerMove(i, fails))
    ensures Troubled(MoveWorker(s, i, fails)) <==> Troubled(s) || fails
  {
    var t := MoveWorker(s, i, fails);
    WorkerErrors(s, i, fails);
    NextTroubled(s, s.workers[i], fails);
    forall k | 0 <= k < |s.workers|
      ensures WorkerTroubled(t.workers[k]) <==> WorkerTroubled(s.workers[k]) || (k == i && fails)
    {
      WorkerMoves(s, i, fails, k);
    }
    SomeTroubled(s.workers, t.workers, i, fails);
  }

  lemma {:induction false} SomeTroubled(ws: seq<Worker>, vs: seq<Worker>, i: nat, fails: bool)
    requires |ws| == |vs| && i < |ws|
    requires forall k :: 0 <= k < |ws| ==> (WorkerTroubled(vs[k]) <==> WorkerTroubled(ws[k]) || (k == i && fails))
    ensures (exists k :: 0 <= k < |vs| && WorkerTroubled(vs[k]))
            <==> fails || exists k :: 0 <= k < |ws| && WorkerTroubled(ws[k])
  {
    if fails { assert WorkerTroubled(vs[i]); }
  }

  lemma {:induction false} ReaderErrors(s: State, fails: bool)
    requires s.taken <= |s.input| && Enabled(s, ReaderMove(fails))
    ensures var t := MoveReader(s, fails);
            t.error || t.reader == ReadFailed <==> s.error || s.reader == ReadFailed || fails
  {
    var u := ReaderShare(s, fails);
    assert u.error == (s.error || s.reader == ReadFailed);
    assert MoveReader(s, fails).error == u.error;
  }

  lemma {:induction false} ReaderTrouble(s: State, fails: bool)
    requires s.taken <= |s.input| && Enabled(s, ReaderMove(fails))
    ensures Troubled(MoveReader(s, fails)) <==> Troubled(s) || fails
  {
    var t := MoveReader(s, fails);
    ReaderErrors(s, fails);
    ReaderMoves(s, fails);
    SameTrouble(s, t.workers);
  }

  lemma {:induction false} SameTrouble(s: State, ws: seq<Worker>)
    requires ws == s.workers || ws == Wake(s).workers
    ensures (exists i :: 0 <= i < |ws| && WorkerTroubled(ws[i]))
            <==> exists i :: 0 <= i < |s.workers| && WorkerTroubled(s.workers[i])
  {
    assert forall i :: 0 <= i < |s.workers| ==> (WorkerTroubled(ws[i]) <==> WorkerTroubled(s.workers[i]));
  }

  lemma {:induction false} StepTrouble(s: State, m: Move, t: State)
    requires IsStep(s, m, t)
    ensures Troubled(t) <==> Troubled(s) || m.fails
  {
    match m
    case ReaderMove(fails) => ReaderTrouble(s, fails);
    case WorkerMove(i, fails) => WorkerTrouble(s, i, fails);
  }

  lemma {:induction false} TroubleHasCause(states: seq<State>, moves: seq<Move>, n: nat)
    requires IsRun(states, moves) && n <= |moves|
    ensures Troubled(states[n]) <==> SomeFailed(moves, n)
  {
    if n > 0 {
      TroubleHasCause(states, moves, n - 1);
      assert IsStep(states[n - 1], moves[n - 1], states[n]);
      StepTrouble(states[n - 1], moves[n - 1], states[n]);
      FailedOneMore(moves, n);
    }
  }

  lemma {:induction false} FailedOneMore(moves: seq<Move>, n: nat)
    requires 0 < n <= |moves|
    ensures SomeFailed(moves, n) <==> SomeFailed(moves, n - 1) || moves[n - 1].fails
  {
    if SomeFailed(moves, n - 1) {
      var k :| 0 <= k < n - 1 && moves[k].fails;
      assert k < n && moves[k].fails;
    }
  }

  /** No error is recorded but for a failing move before it. */
  lemma {:induction false} ErrorHasFailure(states: seq<State>, moves: seq<Move>, n: nat)
    requires IsRun(states, moves) && n <= |moves|
    ensures states[n].error ==> SomeFailed(moves, n)
    ensures states[n].cancel ==> SomeFailed(moves, n)
  {
    TroubleHasCause(states, moves, n);
    RunKeepsFlags(states, moves, n);
  }

  lemma {:induction false} EndedError(s: State)
    requires Inv(s) && Finished(s)
    ensures Troubled(s) <==> s.error
    ensures s.reader == Returned <==> !s.error
  {
    forall i | 0 <= i < |s.workers| && WorkerTroubled(s.workers[i]) ensures s.error {
      assert WorkerOk(s, s.workers[i]) && WorkerEnded(s.workers[i]);
    }
  }

  lemma {:induction false} ReturnedAll(s: State)
    requires Inv(s) && s.reader == Returned
    ensures forall i :: 0 <= i < |s.workers| ==> s.workers[i].pc == Committed
    ensures Loaded(s.workers) == multiset(s.input) && s.rowsLoaded == Rows(s.input)
  {
    ReturnMeansCommitted(s);
  }

  /** A finished copy has returned normally precisely when no move of the run failed; every worker has then committed,
      and the table holds each chunk of the input once. */
  lemma {:induction false} ReturnsUnlessFailed(states: seq<State>, moves: seq<Move>)
    requires IsRun(states, moves) && Finished(states[|moves|])
    ensures var s := states[|moves|];
            && (s.reader == Returned <==> !SomeFailed(moves, |moves|))
            && (!SomeFailed(moves, |moves|) ==>
                  && (forall i :: 0 <= i < |s.workers| ==> s.workers[i].pc == Committed)
                  && Loaded(s.workers) == multiset(states[0].input) && s.rowsLoaded == Rows(states[0].input))
  {
    var s := states[|moves|];
    RunKeepsInv(states, moves, |moves|);
    TroubleHasCause(states, moves, |moves|);
    EndedError(s);
    if s.reader == Returned { ReturnedAll(s); }
  }

  // ----- Waiting -----

  /** The reader waits precisely while the queue holds three chunks for each worker and nothing has failed, and for the
      decision while some worker has not reported and nothing has failed. */
  lemma {:induction false} ReaderWaits(s: State)
    requires Flags(s)
    ensures s.reader == Offering ==>
              (MoveReader(s, false).reader == OfferAsleep <==> !s.error && |s.queue| == 3 * |s.workers|)
    ensures s.reader == Deciding ==>
              (MoveReader(s, false).reader == DecideAsleep <==> !s.error && s.ready != |s.workers|)
  {
  }

  /** A worker waits precisely while there is nothing to load and the input may go on, and at the barrier until the
      decision. */
  lemma {:induction false} WorkerWaits(s: State, i: nat)
    requires Flags(s) && i < |s.workers|
    ensures s.workers[i].pc == Fetching ==>
              (MoveWorker(s, i, false).workers[i].pc == FetchAsleep <==> !s.error && !s.done && s.queue == [])
    ensures s.workers[i].pc == Waiting ==>
              (MoveWorker(s, i, false).workers[i].pc == WaitAsleep <==> !s.commitDecided)
  {
  }

  /** Once a failure is recorded no chunk is queued any more and none is taken. */
  lemma {:induction false} QueueStops(states: seq<State>, moves: seq<Move>, i: nat, j: nat)
    requires IsRun(states, moves) && i <= j < |states| && states[i].error
    ensures states[j].error && states[j].queue == states[i].queue
  {
    RunKeepsInv(states, moves, i);
    if i < j {
      QueueStops(states, moves, i, j - 1);
      RunKeepsInv(states, moves, j - 1);
      assert IsStep(states[j - 1], moves[j - 1], states[j]);
      StepAfterError(states[j - 1], moves[j - 1], states[j]);
    }
  }

  lemma {:induction false} WorkerAfterError(s: State, i: nat, fails: bool)
    requires Enabled(s, WorkerMove(i, fails)) && s.cancel && s.error
    ensures MoveWorker(s, i, fails).error && MoveWorker(s, i, fails).queue == s.queue
  {
    WorkerErrors(s, i, fails);
    assert Share(s, s.workers[i]).queue == s.queue;
  }

  lemma {:induction false} StepAfterError(s: State, m: Move, t: State)
    requires IsStep(s, m, t) && s.cancel && s.error
    ensures t.error && t.queue == s.queue
  {
    match m
    case ReaderMove(fails) =>
      assert ReaderShare(s, fails).queue == s.queue && ReaderShare(s, fails).error;
    case WorkerMove(i, fails) => WorkerAfterError(s, i, fails);
  }
}
