/** COPY with parallel workers: a reader fills a bounded queue, each worker loads chunks in its own transaction,
    and a barrier decides once whether all of them commit. Every critical section under the mutex, and every
    `notify_all` after one, is an atomic step; a thread whose wait predicate is false falls asleep and stays
    asleep until some thread notifies. Reading, connecting, loading, flushing and committing may fail. */
module ParallelCopy {
  import opened CopyQueue

  datatype WorkerPc =
    | Connecting | Fetching | FetchAsleep | Popped | Loading | Flushing | Publishing | Waiting | WaitAsleep
    | Committing | Committed | Abandoned | Throwing | Recorded | Failed

  /** `hand` is the chunk being loaded, `loaded` what is in the transaction, `published` whether the worker has
      reported to the barrier. */
  datatype Worker = Worker(pc: WorkerPc, hand: seq<Chunk>, loaded: seq<Chunk>, published: bool)

  datatype ReaderPc =
    | Reading | Offering | OfferAsleep | Pushed | ReadFailed | Closing | Deciding | DecideAsleep | Decided | Joining
    | Returned | Threw

  /** The shared state, with the first `taken` chunks of `input` read. */
  datatype State = State(
    input: seq<Chunk>, taken: nat, reader: ReaderPc, readerHand: seq<Chunk>, workers: seq<Worker>,
    queue: seq<Chunk>, done: bool, cancel: bool, error: bool,
    rowsLoaded: nat, ready: nat, commitDecided: bool, commitOk: bool)

  datatype Move = ReaderMove(fails: bool) | WorkerMove(i: nat, fails: bool)

  /** The total of a measure of chunks; `Size` counts rows and `Is(c)` counts the occurrences of one chunk. */
  function Total(chunks: seq<Chunk>, g: Chunk -> nat): nat {
    if chunks == [] then 0 else Total(chunks[..|chunks| - 1], g) + g(chunks[|chunks| - 1])
  }

  function Size(): Chunk -> nat {
    (c: Chunk) => |c|
  }

  function Is(c: Chunk): Chunk -> nat {
    (d: Chunk) => if d == c then 1 else 0
  }

  function Rows(chunks: seq<Chunk>): nat {
    Total(chunks, Size())
  }

  lemma {:induction false} TotalConcat(a: seq<Chunk>, b: seq<Chunk>, g: Chunk -> nat)
    ensures Total(a + b, g) == Total(a, g) + Total(b, g)
  {
    if b == [] {
      assert a + b == a;
    } else {
      assert (a + b)[..|a + b| - 1] == a + b[..|b| - 1];
      TotalConcat(a, b[..|b| - 1], g);
    }
  }

  lemma {:induction false} TotalIs(chunks: seq<Chunk>, c: Chunk)
    ensures Total(chunks, Is(c)) == multiset(chunks)[c]
  {
    if chunks != [] {
      TotalIs(chunks[..|chunks| - 1], c);
      assert chunks == chunks[..|chunks| - 1] + [chunks[|chunks| - 1]];
    }
  }

  ghost predicate Init(s: State) {
    && s.taken == 0 && s.reader == Reading && s.readerHand == [] && s.queue == []
    && s.workers != []
    && (forall i :: 0 <= i < |s.workers| ==> s.workers[i] == Worker(Connecting, [], [], false))
    && !s.done && !s.cancel && !s.error && s.rowsLoaded == 0 && s.ready == 0 && !s.commitDecided && !s.commitOk
  }

  predicate WorkerEnded(w: Worker) {
    w.pc == Committed || w.pc == Abandoned || w.pc == Failed
  }

  predicate WorkerAsleep(w: Worker) {
    w.pc == FetchAsleep || w.pc == WaitAsleep
  }

  predicate AllEnded(s: State) {
    forall i :: 0 <= i < |s.workers| ==> WorkerEnded(s.workers[i])
  }

  predicate ReaderEnded(s: State) {
    s.reader == Returned || s.reader == Threw
  }

  predicate Finished(s: State) {
    ReaderEnded(s) && AllEnded(s)
  }

  predicate Enabled(s: State, m: Move) {
    match m
    case ReaderMove(fails) =>
      && (fails ==> s.reader == Reading)
      && s.reader !in {OfferAsleep, DecideAsleep, Returned, Threw}
      && (s.reader == Joining ==> AllEnded(s))
    case WorkerMove(i, fails) =>
      && i < |s.workers| && !WorkerEnded(s.workers[i]) && !WorkerAsleep(s.workers[i])
      && (fails ==> s.workers[i].pc in {Connecting, Loading, Flushing, Committing})
  }

  function WakeWorker(w: Worker): Worker {
    if w.pc == FetchAsleep then w.(pc := Fetching)
    else if w.pc == WaitAsleep then w.(pc := Waiting)
    else w
  }

  /** `notify_all` */
  function Wake(s: State): (t: State)
    ensures |t.workers| == |s.workers| && t == s.(reader := t.reader, workers := t.workers)
  {
    s.(reader := if s.reader == OfferAsleep then Offering else if s.reader == DecideAsleep then Deciding else s.reader,
       workers := seq(|s.workers|, i requires 0 <= i < |s.workers| => WakeWorker(s.workers[i])))
  }

  /** The step of the reader, as it sees the shared state. */
  function NextReader(s: State, fails: bool): ReaderPc {
    match s.reader
    case Reading => if fails then ReadFailed else if s.taken < |s.input| then Offering else Closing
    case Offering =>
      if s.cancel then Closing else if |s.queue| < QUEUE_DEPTH * |s.workers| then Pushed else OfferAsleep
    case Pushed => Reading
    case ReadFailed => Closing
    case Closing => Deciding
    case Deciding => if s.error || s.ready == |s.workers| then Decided else DecideAsleep
    case Decided => Joining
    case Joining => if s.error then Threw else Returned
    case _ => s.reader
  }

  predicate ReaderNotifies(s: State) {
    s.reader == Pushed || s.reader == Closing || s.reader == Decided
  }

  /** What the step of the reader does to the state all threads share. */
  function ReaderShare(s: State, fails: bool): (t: State)
    requires s.taken <= |s.input|
    ensures t.input == s.input && t.workers == s.workers && t.ready == s.ready && t.rowsLoaded == s.rowsLoaded
  {
    match s.reader
    case Reading =>
      if !fails && s.taken < |s.input| then s.(readerHand := [s.input[s.taken]], taken := s.taken + 1) else s
    case Offering =>
      if !s.cancel && |s.queue| < QUEUE_DEPTH * |s.workers| then s.(queue := s.queue + s.readerHand, readerHand := [])
      else s
    case ReadFailed => s.(error := true, cancel := true)
    case Closing => s.(done := true)
    case Deciding =>
      if s.error || s.ready == |s.workers| then s.(commitDecided := true, commitOk := !s.error) else s
    case _ => s
  }

  function MoveReader(s: State, fails: bool): (t: State)
    requires Enabled(s, ReaderMove(fails)) && s.taken <= |s.input|
    ensures t.input == s.input && |t.workers| == |s.workers|
    ensures var u := ReaderShare(s, fails); t.taken == u.taken && t.queue == u.queue && t.readerHand == u.readerHand
  {
    var t := ReaderShare(s, fails);
    (if ReaderNotifies(s) then Wake(t) else t).(reader := NextReader(s, fails))
  }

  function SetWorker(s: State, i: nat, w: Worker): (t: State)
    requires i < |s.workers|
    ensures t.input == s.input && |t.workers| == |s.workers|
  {
    s.(workers := s.workers[i := w])
  }

  /** The step of one worker, as it sees the shared state. */
  function NextWorker(s: State, w: Worker, fails: bool): Worker {
    if fails then w.(pc := Throwing)
    else
      match w.pc
      case Connecting => w.(pc := Fetching)
      case Fetching =>
        if s.cancel then w.(pc := Flushing)
        else if s.queue != [] then w.(pc := Popped, hand := [s.queue[0]])
        else if s.done then w.(pc := Flushing)
        else w.(pc := FetchAsleep)
      case Popped => w.(pc := Loading)
      case Loading => w.(pc := Fetching, loaded := w.loaded + w.hand, hand := [])
      case Flushing => w.(pc := Publishing)
      case Publishing => w.(pc := Waiting, published := true)
      case Waiting => w.(pc := if !s.commitDecided then WaitAsleep else if s.commitOk then Committing else Abandoned)
      case Committing => w.(pc := Committed)
      case Throwing => w.(pc := Recorded)
      case Recorded => w.(pc := Failed)
      case _ => w
  }

  predicate Notifies(w: Worker) {
    w.pc == Popped || w.pc == Publishing || w.pc == Recorded
  }

  /** What the step of worker `w` does to the state all threads share. */
  function Share(s: State, w: Worker): (t: State)
    ensures t.input == s.input && t.workers == s.workers
  {
    match w.pc
    case Fetching => if !s.cancel && s.queue != [] then s.(queue := s.queue[1..]) else s
    case Publishing => s.(rowsLoaded := s.rowsLoaded + Rows(w.loaded), ready := s.ready + 1)
    case Throwing => s.(error := true, cancel := true)
    case _ => s
  }

  function MoveWorker(s: State, i: nat, fails: bool): (t: State)
    requires Enabled(s, WorkerMove(i, fails))
    ensures t.input == s.input && |t.workers| == |s.workers|
  {
    var w := s.workers[i];
    if fails then SetWorker(s, i, NextWorker(s, w, true))
    else SetWorker(if Notifies(w) then Wake(Share(s, w)) else Share(s, w), i, NextWorker(s, w, false))
  }

  function Apply(s: State, m: Move): (t: State)
    requires Enabled(s, m) && s.taken <= |s.input|
    ensures t.input == s.input && |t.workers| == |s.workers|
  {
    match m
    case ReaderMove(fails) => MoveReader(s, fails)
    case WorkerMove(i, fails) => MoveWorker(s, i, fails)
  }

  // ----- Sums over the workers -----

  function Sum(ws: seq<Worker>, f: Worker -> nat): nat {
    if ws == [] then 0 else Sum(ws[..|ws| - 1], f) + f(ws[|ws| - 1])
  }

  lemma {:induction false} SumUpdate(ws: seq<Worker>, f: Worker -> nat, i: nat, w: Worker)
    requires i < |ws|
    ensures Sum(ws[i := w], f) + f(ws[i]) == Sum(ws, f) + f(w)
  {
    var last := |ws| - 1;
    if i == last {
      assert ws[i := w][..last] == ws[..last];
    } else {
      assert ws[i := w][..last] == ws[..last][i := w];
      SumUpdate(ws[..last], f, i, w);
    }
  }

  lemma {:induction false} SumSame(ws: seq<Worker>, vs: seq<Worker>, f: Worker -> nat)
    requires |ws| == |vs| && forall i :: 0 <= i < |ws| ==> f(ws[i]) == f(vs[i])
    ensures Sum(ws, f) == Sum(vs, f)
  {
    if ws != [] {
      SumSame(ws[..|ws| - 1], vs[..|vs| - 1], f);
    }
  }

  lemma {:induction false} SumBound(ws: seq<Worker>, f: Worker -> nat, bound: nat)
    requires forall i :: 0 <= i < |ws| ==> f(ws[i]) <= bound
    ensures Sum(ws, f) <= bound * |ws|
  {
    if ws != [] {
      SumBound(ws[..|ws| - 1], f, bound);
    }
  }

  /** The chunks in the transactions of all workers. */
  function Loaded(ws: seq<Worker>): multiset<Chunk> {
    if ws == [] then multiset{} else Loaded(ws[..|ws| - 1]) + multiset(ws[|ws| - 1].loaded)
  }

  lemma {:induction false} LoadedCount(ws: seq<Worker>, c: Chunk)
    requires forall i :: 0 <= i < |ws| ==> ws[i].hand == []
    ensures Loaded(ws)[c] == Sum(ws, HeldBy(Is(c)))
  {
    if ws != [] {
      LoadedCount(ws[..|ws| - 1], c);
      TotalIs(ws[|ws| - 1].loaded, c);
    }
  }

  function PublishedCount(): Worker -> nat {
    (w: Worker) => if w.published then 1 else 0
  }

  function PublishedRows(): Worker -> nat {
    (w: Worker) => if w.published then Rows(w.loaded) else 0
  }

  function HeldBy(g: Chunk -> nat): Worker -> nat {
    (w: Worker) => Total(w.hand, g) + Total(w.loaded, g)
  }

  // ----- The invariant -----

  /** Past the fetching loop, or at the barrier. */
  predicate LeftLoop(w: Worker) {
    w.pc in {Flushing, Publishing} || AtBarrier(w)
  }

  predicate AtBarrier(w: Worker) {
    w.pc in {Waiting, WaitAsleep, Committing, Committed, Abandoned}
  }

  ghost predicate WorkerOk(s: State, w: Worker) {
    && (AtBarrier(w) ==> w.published)
    && (w.published ==> w.hand == [] && (AtBarrier(w) || w.pc in {Throwing, Recorded, Failed}))
    && (LeftLoop(w) ==> w.hand == [] && (s.error || (s.done && s.queue == [])))
    && (w.pc in {Connecting, Fetching, FetchAsleep} ==> w.hand == [])
    && (w.pc in {Recorded, Failed} ==> s.error)
    && (w.pc in {Committing, Committed} ==> s.commitOk)
    && (w.published && !AtBarrier(w) ==> s.commitOk)
    && (w.pc == Abandoned ==> s.commitDecided && !s.commitOk)
  }

  ghost predicate Flags(s: State) {
    && s.taken <= |s.input| && s.workers != [] && |s.queue| <= QUEUE_DEPTH * |s.workers|
    && (s.cancel <==> s.error)
    && (s.done <==> s.reader in {Deciding, DecideAsleep, Decided, Joining, Returned, Threw})
    && (s.commitDecided <==> s.reader in {Decided, Joining, Returned, Threw})
    && (s.commitOk ==> s.commitDecided && s.ready == |s.workers| && s.queue == [])
    && (s.commitDecided && !s.error ==> s.commitOk)
    && (s.reader in {Reading, Pushed, ReadFailed} ==> s.readerHand == [])
    && (s.reader in {Offering, OfferAsleep} ==> |s.readerHand| == 1)
    && (s.reader == Closing && !s.error ==> s.taken == |s.input| && s.readerHand == [])
    && (s.done && (!s.error || s.commitOk) ==> s.taken == |s.input| && s.readerHand == [])
    && (s.reader == Returned ==> !s.error && AllEnded(s))
    && (s.reader == Threw ==> s.error && AllEnded(s))
  }

  /** Nothing is lost and nothing is loaded twice: by any measure, what was read is in the reader's hand, in the
      queue, or with the workers. */
  ghost predicate Conserved(s: State, g: Chunk -> nat)
    requires s.taken <= |s.input|
  {
    Total(s.input[..s.taken], g)
    == Total(s.readerHand, g) + Total(s.queue, g) + Sum(s.workers, HeldBy(g))
  }

  ghost predicate Counted(s: State) {
    && s.ready == Sum(s.workers, PublishedCount())
    && s.rowsLoaded == Sum(s.workers, PublishedRows())
  }

  /** Some thread is about to notify. */
  ghost predicate NotifyPending(s: State) {
    || s.reader in {Pushed, Closing, Decided}
    || exists i :: 0 <= i < |s.workers| && s.workers[i].pc in {Popped, Recorded}
  }

  /** No wake-up is lost: a thread sleeps over a true predicate only while a notification is on its way. */
  ghost predicate NoLostWakeup(s: State) {
    && (s.cancel || s.done || s.queue != [] ==>
          forall i :: 0 <= i < |s.workers| && s.workers[i].pc == FetchAsleep ==> NotifyPending(s))
    && (forall i :: 0 <= i < |s.workers| && s.workers[i].pc == WaitAsleep && s.commitDecided ==> NotifyPending(s))
    && (s.reader == OfferAsleep && (s.cancel || |s.queue| < QUEUE_DEPTH * |s.workers|) ==> NotifyPending(s))
    && (s.reader == DecideAsleep && (s.error || s.ready == |s.workers|) ==> NotifyPending(s))
  }

  ghost predicate WorkersOk(s: State) {
    forall i :: 0 <= i < |s.workers| ==> WorkerOk(s, s.workers[i])
  }

  ghost predicate Inv(s: State) {
    && Flags(s) && WorkersOk(s) && Counted(s) && NoLostWakeup(s)
    && forall g: Chunk -> nat :: Conserved(s, g)
  }

  // ----- Every step keeps the invariant -----

  lemma {:induction false} InvInit(s: State)
    requires Init(s)
    ensures Inv(s)
  {
    SumBound(s.workers, PublishedCount(), 0);
    SumBound(s.workers, PublishedRows(), 0);
    forall g: Chunk -> nat ensures Conserved(s, g) {
      SumBound(s.workers, HeldBy(g), 0);
    }
  }

  lemma {:induction false} WakeFacts(s: State)
    ensures var t := Wake(s);
            && (forall i :: 0 <= i < |s.workers| ==>
                  !WorkerAsleep(t.workers[i]) && AtBarrier(t.workers[i]) == AtBarrier(s.workers[i]))
            && Sum(t.workers, PublishedCount()) == Sum(s.workers, PublishedCount())
            && Sum(t.workers, PublishedRows()) == Sum(s.workers, PublishedRows())
            && forall g: Chunk -> nat :: Sum(t.workers, HeldBy(g)) == Sum(s.workers, HeldBy(g))
  {
    var t := Wake(s);
    SumSame(t.workers, s.workers, PublishedCount());
    SumSame(t.workers, s.workers, PublishedRows());
    forall g: Chunk -> nat ensures Sum(t.workers, HeldBy(g)) == Sum(s.workers, HeldBy(g)) {
      SumSame(t.workers, s.workers, HeldBy(g));
    }
  }

  lemma {:induction false} ReaderKeepsConserved(s: State, fails: bool, g: Chunk -> nat)
    requires Inv(s) && Enabled(s, ReaderMove(fails))
    ensures MoveReader(s, fails).taken <= |s.input| && Conserved(MoveReader(s, fails), g)
  {
    assert Conserved(s, g);
    if s.reader == Reading && !fails && s.taken < |s.input| {
      TakeKeepsTotal(s, g);
    } else if s.reader == Offering && !s.cancel && |s.queue| < QUEUE_DEPTH * |s.workers| {
      OfferKeepsTotal(s, g);
    } else {
      RestKeepsConserved(s, fails, g);
    }
  }

  lemma {:induction false} OfferKeepsTotal(s: State, g: Chunk -> nat)
    requires s.taken <= |s.input| && Conserved(s, g)
    ensures Conserved(s.(reader := Pushed, queue := s.queue + s.readerHand, readerHand := []), g)
  {
    TotalConcat(s.queue, s.readerHand, g);
    assert Total([], g) == 0;
  }

  lemma {:induction false} TakeKeepsTotal(s: State, g: Chunk -> nat)
    requires s.taken < |s.input| && s.readerHand == [] && Conserved(s, g)
    ensures Conserved(s.(reader := Offering, readerHand := [s.input[s.taken]], taken := s.taken + 1), g)
  {
    assert s.input[..s.taken + 1] == s.input[..s.taken] + [s.input[s.taken]];
    TotalConcat(s.input[..s.taken], [s.input[s.taken]], g);
  }

  /** Steps that move no chunk. */
  lemma {:induction false} RestKeepsConserved(s: State, fails: bool, g: Chunk -> nat)
    requires s.taken <= |s.input| && Enabled(s, ReaderMove(fails)) && Conserved(s, g)
    requires !(s.reader == Reading && !fails && s.taken < |s.input|)
    requires !(s.reader == Offering && !s.cancel && |s.queue| < QUEUE_DEPTH * |s.workers|)
    ensures MoveReader(s, fails).taken <= |s.input| && Conserved(MoveReader(s, fails), g)
  {
    WakeFacts(s);
    ReaderMoves(s, fails);
    MovesNoChunk(s, fails);
  }

  lemma {:induction false} MovesNoChunk(s: State, fails: bool)
    requires s.taken <= |s.input|
    requires !(s.reader == Reading && !fails && s.taken < |s.input|)
    requires !(s.reader == Offering && !s.cancel && |s.queue| < QUEUE_DEPTH * |s.workers|)
    ensures var t := ReaderShare(s, fails); t.taken == s.taken && t.queue == s.queue && t.readerHand == s.readerHand
  {
  }

  lemma {:induction false} ReaderKeepsCounted(s: State, fails: bool)
    requires Counted(s) && s.taken <= |s.input| && Enabled(s, ReaderMove(fails))
    ensures Counted(MoveReader(s, fails))
  {
    WakeFacts(s);
    ReaderMoves(s, fails);
    var t := MoveReader(s, fails);
    assert t.ready == s.ready && t.rowsLoaded == s.rowsLoaded;
  }

  /** At the decision, a barrier without errors means that every worker has reported, so that the input is used up. */
  lemma {:induction false} AllPublished(s: State)
    requires Counted(s) && s.ready == |s.workers|
    ensures forall i :: 0 <= i < |s.workers| ==> s.workers[i].published
  {
    CountAll(s.workers);
  }

  lemma {:induction false} CountAll(ws: seq<Worker>)
    ensures Sum(ws, PublishedCount()) <= |ws|
    ensures Sum(ws, PublishedCount()) == |ws| ==> forall i :: 0 <= i < |ws| ==> ws[i].published
  {
    if ws != [] {
      CountAll(ws[..|ws| - 1]);
    }
  }

  lemma {:induction false} ReaderKeepsFlags(s: State, fails: bool)
    requires Inv(s) && Enabled(s, ReaderMove(fails))
    ensures Flags(MoveReader(s, fails))
  {
    if s.reader == Deciding {
      DecidingKeepsFlags(s, fails);
    } else if ReaderNotifies(s) {
      NotifyingKeepsFlags(s, fails);
    } else {
      AloneKeepsFlags(s, fails);
    }
  }

  lemma {:induction false} DecidingKeepsFlags(s: State, fails: bool)
    requires Flags(s) && WorkersOk(s) && Counted(s) && Enabled(s, ReaderMove(fails)) && s.reader == Deciding
    ensures Flags(MoveReader(s, fails))
  {
    if !s.error && s.ready == |s.workers| {
      AllPublished(s);
      assert WorkerOk(s, s.workers[0]);
    }
  }

  lemma {:induction false} NotifyingKeepsFlags(s: State, fails: bool)
    requires Flags(s) && Enabled(s, ReaderMove(fails)) && ReaderNotifies(s)
    ensures Flags(MoveReader(s, fails))
  {
  }

  lemma {:induction false} AloneKeepsFlags(s: State, fails: bool)
    requires Flags(s) && Enabled(s, ReaderMove(fails)) && s.reader != Deciding && !ReaderNotifies(s)
    ensures Flags(MoveReader(s, fails))
  {
  }

  lemma {:induction false} ReaderKeepsWorkers(s: State, fails: bool)
    requires Inv(s) && Enabled(s, ReaderMove(fails))
    ensures WorkersOk(MoveReader(s, fails))
  {
    if s.reader == Deciding {
      DecidingKeepsWorkers(s, fails);
    } else {
      RestKeepsWorkers(s, fails);
    }
  }

  lemma {:induction false} DecidingKeepsWorkers(s: State, fails: bool)
    requires Flags(s) && WorkersOk(s) && Counted(s) && Enabled(s, ReaderMove(fails)) && s.reader == Deciding
    ensures WorkersOk(MoveReader(s, fails))
  {
    var t := MoveReader(s, fails);
    if !s.error && s.ready == |s.workers| {
      AllPublished(s);
    }
    forall i | 0 <= i < |t.workers| ensures WorkerOk(t, t.workers[i]) {
      assert WorkerOk(s, s.workers[i]);
    }
  }

  lemma {:induction false} RestKeepsWorkers(s: State, fails: bool)
    requires Flags(s) && WorkersOk(s) && Enabled(s, ReaderMove(fails)) && s.reader != Deciding
    ensures WorkersOk(MoveReader(s, fails))
  {
    var t := MoveReader(s, fails);
    ReaderMoves(s, fails);
    forall i | 0 <= i < |t.workers| ensures WorkerOk(t, t.workers[i]) {
      assert WorkerOk(s, s.workers[i]);
      RestKeepsWorker(s, fails, s.workers[i]);
    }
  }

  lemma {:induction false} RestKeepsWorker(s: State, fails: bool, w: Worker)
    requires Flags(s) && WorkerOk(s, w) && Enabled(s, ReaderMove(fails)) && s.reader != Deciding
    ensures WorkerOk(MoveReader(s, fails), w) && WorkerOk(MoveReader(s, fails), WakeWorker(w))
  {
  }

  /** The reader changes no worker but by waking it. */
  lemma {:induction false} ReaderMoves(s: State, fails: bool)
    requires s.taken <= |s.input| && Enabled(s, ReaderMove(fails))
    ensures var t := MoveReader(s, fails); t.workers == if ReaderNotifies(s) then Wake(s).workers else s.workers
  {
    var shared := ReaderShare(s, fails);
    assert Wake(shared).workers == Wake(s).workers;
  }

  lemma {:induction false} ReaderKeepsWakeups(s: State, fails: bool)
    requires Inv(s) && Enabled(s, ReaderMove(fails))
    ensures NoLostWakeup(MoveReader(s, fails))
  {
    WakeFacts(s);
    if s.reader !in {Pushed, Closing, Decided} {
      ReaderQuiet(s, fails);
    }
  }

  lemma {:induction false} ReaderQuiet(s: State, fails: bool)
    requires Inv(s) && Enabled(s, ReaderMove(fails)) && s.reader !in {Pushed, Closing, Decided}
    ensures NoLostWakeup(MoveReader(s, fails))
  {
    var t := MoveReader(s, fails);
    if t.reader !in {Pushed, Closing, Decided} && NotifyPending(s) {
      var i :| 0 <= i < |s.workers| && s.workers[i].pc in {Popped, Recorded};
      assert t.workers[i].pc in {Popped, Recorded};
    }
  }

  // A worker's step either changes only the worker, or notifies, or pops a chunk, or records an error.

  /** `w` may take the place of worker `i`. */
  ghost predicate LocalOk(s: State, i: nat, w: Worker)
    requires i < |s.workers|
  {
    var old_w := s.workers[i];
    && WorkerOk(s, w) && !WorkerEnded(old_w)
    && w.published == old_w.published && (w.published ==> w.loaded == old_w.loaded)
    && (forall g: Chunk -> nat :: HeldBy(g)(w) == HeldBy(g)(old_w))
    && old_w.pc !in {Popped, Recorded}
    && (w.pc == FetchAsleep ==> !s.cancel && !s.done && s.queue == [])
    && (w.pc == WaitAsleep ==> !s.commitDecided)
  }

  /** A worker that only moves on leaves all the sums alone. */
  lemma {:induction false} SumsKept(s: State, t: State, i: nat, w: Worker)
    requires Counted(s) && s.taken <= |s.input| && (forall g: Chunk -> nat :: Conserved(s, g)) && i < |s.workers|
    requires t.workers == s.workers[i := w] && t.input == s.input && t.taken == s.taken
    requires t.readerHand == s.readerHand && t.queue == s.queue && t.ready == s.ready && t.rowsLoaded == s.rowsLoaded
    requires w.published == s.workers[i].published && (w.published ==> w.loaded == s.workers[i].loaded)
    requires forall g: Chunk -> nat :: HeldBy(g)(w) == HeldBy(g)(s.workers[i])
    ensures Counted(t) && forall g: Chunk -> nat :: Conserved(t, g)
  {
    SumUpdate(s.workers, PublishedCount(), i, w);
    SumUpdate(s.workers, PublishedRows(), i, w);
    forall g: Chunk -> nat ensures Conserved(t, g) {
      assert Conserved(s, g);
      SumUpdate(s.workers, HeldBy(g), i, w);
    }
  }

  lemma {:induction false} LocalKeeps(s: State, i: nat, w: Worker)
    requires Inv(s) && i < |s.workers| && LocalOk(s, i, w)
    ensures Inv(SetWorker(s, i, w))
  {
    var t := SetWorker(s, i, w);
    SumsKept(s, t, i, w);
    PendingKept(s, t, i);
  }

  lemma {:induction false} PendingKept(s: State, t: State, i: nat)
    requires i < |s.workers| && t.reader == s.reader && |t.workers| == |s.workers|
    requires forall k :: 0 <= k < |s.workers| && k != i ==> t.workers[k] == s.workers[k]
    requires s.workers[i].pc !in {Popped, Recorded}
    ensures NotifyPending(s) ==> NotifyPending(t)
  {
    if NotifyPending(s) && s.reader !in {Pushed, Closing, Decided} {
      var k :| 0 <= k < |s.workers| && s.workers[k].pc in {Popped, Recorded};
      assert t.workers[k].pc in {Popped, Recorded};
    }
  }

  lemma {:induction false} WakeKeeps(s: State)
    requires Inv(s)
    ensures Inv(Wake(s))
    ensures forall i :: 0 <= i < |s.workers| ==> !WorkerAsleep(Wake(s).workers[i])
  {
    var t := Wake(s);
    WakeCounts(s);
    WakeFacts(s);
    forall i | 0 <= i < |t.workers| ensures WorkerOk(t, t.workers[i]) {
      assert WorkerOk(s, s.workers[i]);
    }
    if AllEnded(s) { WakeEnds(s); }
  }

  lemma {:induction false} WakeEnds(s: State)
    requires AllEnded(s)
    ensures AllEnded(Wake(s))
  {
  }

  lemma {:induction false} WakeCounts(s: State)
    requires Inv(s)
    ensures Counted(Wake(s)) && Wake(s).taken <= |Wake(s).input|
    ensures forall g: Chunk -> nat :: Conserved(Wake(s), g)
  {
    WakeFacts(s);
    forall g: Chunk -> nat ensures Conserved(Wake(s), g) {
      assert Conserved(s, g);
    }
  }

  /** With nobody asleep, any worker may move on. */
  lemma {:induction false} AwakeKeeps(s: State, i: nat, w: Worker)
    requires Inv(s) && i < |s.workers| && !WorkerEnded(s.workers[i])
    requires forall k :: 0 <= k < |s.workers| ==> !WorkerAsleep(s.workers[k])
    requires s.reader !in {OfferAsleep, DecideAsleep}
    requires WorkerOk(s, w) && !WorkerAsleep(w)
    requires w.published == s.workers[i].published && w.hand == s.workers[i].hand && w.loaded == s.workers[i].loaded
    ensures Inv(SetWorker(s, i, w))
  {
    SumsKept(s, SetWorker(s, i, w), i, w);
  }

  lemma {:induction false} PublishKeeps(s: State, i: nat)
    requires Inv(s) && i < |s.workers| && s.workers[i].pc == Publishing
    ensures Inv(MoveWorker(s, i, false))
  {
    WakeKeeps(s);
    var base, t := Wake(s), MoveWorker(s, i, false);
    PublishCounts(s, i);
    PublishFlags(s, i);
    forall k | 0 <= k < |t.workers| ensures WorkerOk(t, t.workers[k]) {
      assert WorkerOk(base, base.workers[k]);
    }
  }

  lemma {:induction false} PublishCounts(s: State, i: nat)
    requires Inv(s) && i < |s.workers| && s.workers[i].pc == Publishing
    ensures MoveWorker(s, i, false).taken == s.taken && Counted(MoveWorker(s, i, false))
    ensures MoveWorker(s, i, false).ready <= |s.workers|
    ensures forall g: Chunk -> nat :: Conserved(MoveWorker(s, i, false), g)
  {
    WakeFacts(s);
    var base, t := Wake(s), MoveWorker(s, i, false);
    var w := t.workers[i];
    assert WorkerOk(s, s.workers[i]);
    assert t.workers == base.workers[i := w];
    SumUpdate(base.workers, PublishedCount(), i, w);
    SumUpdate(base.workers, PublishedRows(), i, w);
    CountAll(t.workers);
    forall g: Chunk -> nat ensures Conserved(t, g) {
      assert Conserved(s, g);
      SumUpdate(base.workers, HeldBy(g), i, w);
    }
  }

  lemma {:induction false} PublishFlags(s: State, i: nat)
    requires Inv(s) && i < |s.workers| && s.workers[i].pc == Publishing
    ensures !s.commitOk && Flags(MoveWorker(s, i, false))
  {
    assert WorkerOk(s, s.workers[i]);
    if s.commitOk {
      AllPublished(s);
    }
  }

  /** The state after a worker has popped the first chunk. */
  function Pop(s: State, i: nat): (t: State)
    requires i < |s.workers| && s.queue != []
    ensures t.input == s.input && t.taken == s.taken && |t.workers| == |s.workers|
  {
    SetWorker(s, i, s.workers[i].(pc := Popped, hand := [s.queue[0]])).(queue := s.queue[1..])
  }

  lemma {:induction false} PopKeeps(s: State, i: nat)
    requires Inv(s) && i < |s.workers| && s.workers[i].pc == Fetching && !s.cancel && s.queue != []
    ensures Inv(MoveWorker(s, i, false))
  {
    PopMoves(s, i);
    PopWorkers(s, i);
    PopCounts(s, i);
    PopChunks(s, i);
    PopFlags(s, i);
  }

  lemma {:induction false} PopMoves(s: State, i: nat)
    requires i < |s.workers| && s.workers[i].pc == Fetching && !s.cancel && s.queue != []
    ensures MoveWorker(s, i, false) == Pop(s, i)
  {
  }

  lemma {:induction false} PopCounts(s: State, i: nat)
    requires Counted(s) && i < |s.workers| && WorkerOk(s, s.workers[i]) && s.workers[i].pc == Fetching && s.queue != []
    ensures Counted(Pop(s, i))
  {
    SumUpdate(s.workers, PublishedCount(), i, Pop(s, i).workers[i]);
    SumUpdate(s.workers, PublishedRows(), i, Pop(s, i).workers[i]);
  }

  lemma {:induction false} PopChunks(s: State, i: nat)
    requires i < |s.workers| && s.workers[i].hand == [] && s.queue != [] && s.taken <= |s.input|
    requires forall g: Chunk -> nat :: Conserved(s, g)
    ensures forall g: Chunk -> nat :: Conserved(Pop(s, i), g)
  {
    forall g: Chunk -> nat ensures Conserved(Pop(s, i), g) {
      assert Conserved(s, g);
      SumUpdate(s.workers, HeldBy(g), i, Pop(s, i).workers[i]);
      assert s.queue == [s.queue[0]] + s.queue[1..];
      TotalConcat([s.queue[0]], s.queue[1..], g);
    }
  }

  lemma {:induction false} PopWorkers(s: State, i: nat)
    requires WorkersOk(s) && i < |s.workers| && s.workers[i].pc == Fetching && !s.cancel && s.queue != []
    requires s.error <==> s.cancel
    ensures WorkersOk(Pop(s, i)) && WorkerOk(s, s.workers[i]) && s.workers[i].hand == []
  {
    var t := Pop(s, i);
    assert WorkerOk(s, s.workers[i]);
    forall k | 0 <= k < |t.workers| ensures WorkerOk(t, t.workers[k]) {
      assert WorkerOk(s, s.workers[k]);
    }
  }

  lemma {:induction false} PopFlags(s: State, i: nat)
    requires Flags(s) && i < |s.workers| && s.workers[i].pc == Fetching && !s.cancel && s.queue != []
    ensures Flags(Pop(s, i)) && NoLostWakeup(Pop(s, i))
  {
    assert Pop(s, i).workers[i].pc == Popped;
    assert NotifyPending(Pop(s, i));
  }

  lemma {:induction false} RecordKeeps(s: State, i: nat)
    requires Inv(s) && i < |s.workers| && s.workers[i].pc == Throwing
    ensures Inv(MoveWorker(s, i, false))
  {
    var w, t := s.workers[i], MoveWorker(s, i, false);
    assert WorkerOk(s, w);
    RecordCounts(s, i);
    forall k | 0 <= k < |t.workers| ensures WorkerOk(t, t.workers[k]) {
      assert WorkerOk(s, s.workers[k]);
    }
    assert t.workers[i].pc == Recorded;
    assert NotifyPending(t);
  }

  lemma {:induction false} RecordCounts(s: State, i: nat)
    requires Inv(s) && i < |s.workers| && s.workers[i].pc == Throwing
    ensures MoveWorker(s, i, false).taken == s.taken && Counted(MoveWorker(s, i, false))
    ensures forall g: Chunk -> nat :: Conserved(MoveWorker(s, i, false), g)
  {
    SumsKept(s, MoveWorker(s, i, false), i, s.workers[i].(pc := Recorded));
  }

  lemma {:induction false} WorkerKeeps(s: State, i: nat, fails: bool)
    requires Inv(s) && Enabled(s, WorkerMove(i, fails))
    ensures Inv(MoveWorker(s, i, fails))
  {
    var w := s.workers[i];
    if fails {
      FailKeeps(s, i);
    } else if w.pc == Fetching && !s.cancel && s.queue != [] {
      PopKeeps(s, i);
    } else if w.pc == Publishing {
      PublishKeeps(s, i);
    } else if w.pc == Throwing {
      RecordKeeps(s, i);
    } else if w.pc in {Popped, Recorded} {
      NotifyKeeps(s, i);
    } else {
      QuietKeeps(s, i);
    }
  }

  lemma {:induction false} FailKeeps(s: State, i: nat)
    requires Inv(s) && Enabled(s, WorkerMove(i, true))
    ensures Inv(MoveWorker(s, i, true))
  {
    assert WorkerOk(s, s.workers[i]);
    LocalKeeps(s, i, s.workers[i].(pc := Throwing));
  }

  lemma {:induction false} NotifyKeeps(s: State, i: nat)
    requires Inv(s) && i < |s.workers| && s.workers[i].pc in {Popped, Recorded}
    ensures Inv(MoveWorker(s, i, false))
  {
    var w := s.workers[i];
    assert WorkerOk(s, w);
    var v := NotifiedWorker(s, w);
    NotifyMoves(s, i);
    WakeKeeps(s);
    AwakeKeeps(Wake(s), i, v);
  }

  lemma {:induction false} NotifyMoves(s: State, i: nat)
    requires i < |s.workers| && s.workers[i].pc in {Popped, Recorded}
    ensures MoveWorker(s, i, false) == SetWorker(Wake(s), i, NextWorker(s, s.workers[i], false))
  {
  }

  lemma {:induction false} NotifiedWorker(s: State, w: Worker) returns (v: Worker)
    requires WorkerOk(s, w) && w.pc in {Popped, Recorded}
    ensures v == NextWorker(s, w, false) == w.(pc := v.pc) && WorkerOk(Wake(s), v) && !WorkerAsleep(v)
  {
    v := w.(pc := if w.pc == Popped then Loading else Failed);
  }

  lemma {:induction false} QuietKeeps(s: State, i: nat)
    requires Inv(s) && Enabled(s, WorkerMove(i, false))
    requires s.workers[i].pc in {Connecting, Fetching, Loading, Flushing, Waiting, Committing}
    requires s.workers[i].pc == Fetching ==> s.cancel || s.queue == []
    ensures Inv(MoveWorker(s, i, false))
  {
    var w := s.workers[i];
    assert WorkerOk(s, w);
    LoadedMore(w);
    LocalKeeps(s, i, MoveWorker(s, i, false).workers[i]);
  }

  lemma {:induction false} LoadedMore(w: Worker)
    ensures forall g: Chunk -> nat :: HeldBy(g)(w.(loaded := w.loaded + w.hand, hand := [])) == HeldBy(g)(w)
  {
    forall g: Chunk -> nat ensures HeldBy(g)(w.(loaded := w.loaded + w.hand, hand := [])) == HeldBy(g)(w) {
      TotalConcat(w.loaded, w.hand, g);
    }
  }

  lemma {:induction false} InvStep(s: State, m: Move)
    requires Inv(s) && Enabled(s, m)
    ensures Inv(Apply(s, m))
  {
    match m
    case ReaderMove(fails) =>
      ReaderKeepsFlags(s, fails);
      ReaderKeepsWorkers(s, fails);
      ReaderKeepsCounted(s, fails);
      ReaderKeepsWakeups(s, fails);
      forall g: Chunk -> nat ensures Conserved(Apply(s, m), g) {
        ReaderKeepsConserved(s, fails, g);
      }
    case WorkerMove(i, fails) =>
      WorkerKeeps(s, i, fails);
  }

  // ----- Runs -----

  /** A run: states, and the moves between them. */
  ghost predicate IsRun(states: seq<State>, moves: seq<Move>) {
    && |states| == |moves| + 1 && Init(states[0])
    && forall k :: 0 <= k < |moves| ==> IsStep(states[k], moves[k], states[k + 1])
  }

  ghost predicate IsStep(s: State, m: Move, t: State) {
    s.taken <= |s.input| && Enabled(s, m) && t == Apply(s, m)
  }

  /** The invariant holds all along every run, under any interleaving and any failures. */
  lemma {:induction false} RunKeepsInv(states: seq<State>, moves: seq<Move>, k: nat)
    requires IsRun(states, moves) && k < |states|
    ensures Inv(states[k])
    ensures states[k].input == states[0].input && |states[k].workers| == |states[0].workers|
  {
    if k == 0 {
      InvInit(states[0]);
    } else {
      RunKeepsInv(states, moves, k - 1);
      assert IsStep(states[k - 1], moves[k - 1], states[k]);
      StepKeepsInv(states[k - 1], moves[k - 1], states[k]);
    }
  }

  lemma {:induction false} StepKeepsInv(s: State, m: Move, t: State)
    requires Inv(s) && IsStep(s, m, t)
    ensures Inv(t)
  {
    InvStep(s, m);
  }

  /** The queue never holds more than three chunks for each worker. */
  lemma {:induction false} QueueBounded(states: seq<State>, moves: seq<Move>, k: nat)
    requires IsRun(states, moves) && k < |states|
    ensures |states[k].queue| <= QUEUE_DEPTH * |states[k].workers|
  {
    RunKeepsInv(states, moves, k);
  }

  // ----- Safety of the commit -----

  /** What the barrier has to see before any worker may commit: no error, nothing queued, the input used up, every
      worker flushed and reported, and the chunks in their transactions together exactly the input. */
  ghost predicate AllLoaded(s: State) {
    && s.queue == [] && s.taken == |s.input| && s.readerHand == []
    && (forall i :: 0 <= i < |s.workers| ==> s.workers[i].published && s.workers[i].hand == [])
    && Loaded(s.workers) == multiset(s.input)
    && s.rowsLoaded == Rows(s.input)
  }

  lemma {:induction false} BarrierSeesAll(s: State)
    requires Inv(s) && s.ready == |s.workers| && (!s.error || s.commitOk) && s.done
    ensures AllLoaded(s)
  {
    AllPublished(s);
    forall i | 0 <= i < |s.workers| ensures s.workers[i].hand == [] {
      assert WorkerOk(s, s.workers[i]);
    }
    assert s.queue == [] by {
      assert WorkerOk(s, s.workers[0]);
    }
    assert s.input[..s.taken] == s.input;
    forall c: Chunk ensures Loaded(s.workers)[c] == multiset(s.input)[c] {
      assert Conserved(s, Is(c));
      LoadedCount(s.workers, c);
      TotalIs(s.input, c);
    }
    assert Conserved(s, Size());
    PublishedAll(s.workers);
  }

  lemma {:induction false} PublishedAll(ws: seq<Worker>)
    requires forall i :: 0 <= i < |ws| ==> ws[i].published && ws[i].hand == []
    ensures Sum(ws, PublishedRows()) == Sum(ws, HeldBy(Size()))
  {
    if ws != [] {
      PublishedAll(ws[..|ws| - 1]);
    }
  }

  /** If any worker commits, the workers hold the whole input, each chunk exactly once, and none has abandoned. */
  lemma {:induction false} CommitMeansAll(s: State, i: nat)
    requires Inv(s) && i < |s.workers| && s.workers[i].pc in {Committing, Committed}
    ensures s.commitDecided && s.commitOk && AllLoaded(s)
    ensures forall k :: 0 <= k < |s.workers| ==> s.workers[k].pc != Abandoned
  {
    assert WorkerOk(s, s.workers[i]);
    BarrierSeesAll(s);
    forall k | 0 <= k < |s.workers| ensures s.workers[k].pc != Abandoned {
      assert WorkerOk(s, s.workers[k]);
    }
  }

  predicate Decides(s: State, t: State) {
    !s.commitDecided && t.commitDecided
  }

  /** A decision stands. */
  lemma {:induction false} DecidedStays(states: seq<State>, moves: seq<Move>, i: nat, k: nat)
    requires IsRun(states, moves) && i <= k < |states| && states[i].commitDecided
    ensures states[k].commitDecided
  {
    if i < k {
      DecidedStays(states, moves, i, k - 1);
      assert IsStep(states[k - 1], moves[k - 1], states[k]);
      StepKeepsDecision(states[k - 1], moves[k - 1]);
    }
  }

  lemma {:induction false} StepKeepsDecision(s: State, m: Move)
    requires s.taken <= |s.input| && Enabled(s, m) && s.commitDecided
    ensures Apply(s, m).commitDecided
  {
    if m.WorkerMove? {
      assert Share(s, s.workers[m.i]).commitDecided;
    } else {
      assert ReaderShare(s, m.fails).commitDecided;
    }
  }

  /** There is no more than one step that decides. */
  lemma {:induction false} DecidedOnce(states: seq<State>, moves: seq<Move>, i: nat, j: nat)
    requires IsRun(states, moves) && i < |moves| && j < |moves|
    requires Decides(states[i], states[i + 1]) && Decides(states[j], states[j + 1])
    ensures i == j
  {
    if i < j {
      DecidedStays(states, moves, i + 1, j);
    } else if j < i {
      DecidedStays(states, moves, j + 1, i);
    }
  }

  /** If any worker commits, the one decision of the run was taken earlier, in a state without errors where every
      worker waited at the barrier with everything loaded. */
  lemma {:induction false} CommitAfterDecision(states: seq<State>, moves: seq<Move>, k: nat) returns (j: nat)
    requires IsRun(states, moves) && k < |states| && states[k].commitOk
    ensures j < k && moves[j].ReaderMove? && Decides(states[j], states[j + 1]) && states[j + 1].commitOk
    ensures !states[j].error && !states[j].cancel && AllLoaded(states[j])
    ensures forall i :: 0 <= i < |states[j].workers| ==> states[j].workers[i].pc in {Waiting, WaitAsleep}
    ensures forall i :: 0 <= i < |moves| && Decides(states[i], states[i + 1]) ==> i == j
  {
    j := DecisionBefore(states, moves, k);
    forall i | 0 <= i < |moves| && Decides(states[i], states[i + 1]) ensures i == j {
      DecidedOnce(states, moves, i, j);
    }
  }

  lemma {:induction false} DecisionBefore(states: seq<State>, moves: seq<Move>, k: nat) returns (j: nat)
    requires IsRun(states, moves) && k < |states| && states[k].commitOk
    ensures j < k && moves[j].ReaderMove? && Decides(states[j], states[j + 1]) && states[j + 1].commitOk
    ensures !states[j].error && !states[j].cancel && AllLoaded(states[j])
    ensures forall i :: 0 <= i < |states[j].workers| ==> states[j].workers[i].pc in {Waiting, WaitAsleep}
  {
    if states[k - 1].commitOk {
      j := DecisionBefore(states, moves, k - 1);
    } else {
      j := k - 1;
      RunKeepsInv(states, moves, j);
      DecisionStep(states[j], moves[j], states[k]);
      OkMeansDecided(states, moves, k);
    }
  }

  lemma {:induction false} OkMeansDecided(states: seq<State>, moves: seq<Move>, k: nat)
    requires IsRun(states, moves) && k < |states| && states[k].commitOk
    ensures states[k].commitDecided
  {
    RunKeepsInv(states, moves, k);
  }

  lemma {:induction false} DecisionStep(s: State, m: Move, t: State)
    requires Inv(s) && IsStep(s, m, t) && !s.commitOk && t.commitOk
    ensures m.ReaderMove? && !s.commitDecided && !s.error && !s.cancel && AllLoaded(s)
    ensures forall i :: 0 <= i < |s.workers| ==> s.workers[i].pc in {Waiting, WaitAsleep}
  {
    ReaderDecides(s, m);
    BarrierSeesAll(s);
    forall i | 0 <= i < |s.workers| ensures s.workers[i].pc in {Waiting, WaitAsleep} {
      assert WorkerOk(s, s.workers[i]);
    }
  }

  lemma {:induction false} ReaderDecides(s: State, m: Move)
    requires Flags(s) && Enabled(s, m) && !s.commitOk && Apply(s, m).commitOk
    ensures m.ReaderMove? && s.reader == Deciding && !s.error && s.ready == |s.workers|
  {
    if m.WorkerMove? {
      WorkerDecidesNothing(s, m.i, m.fails);
    }
  }

  lemma {:induction false} WorkerDecidesNothing(s: State, i: nat, fails: bool)
    requires Enabled(s, WorkerMove(i, fails))
    ensures MoveWorker(s, i, fails).commitOk == s.commitOk
  {
  }

  /** When the copy returns normally every worker has committed, and the reported rows are the rows of the input. */
  lemma {:induction false} ReturnMeansCommitted(s: State)
    requires Inv(s) && s.reader == Returned
    ensures forall i :: 0 <= i < |s.workers| ==> s.workers[i].pc == Committed
    ensures s.rowsLoaded == Rows(s.input) && Loaded(s.workers) == multiset(s.input)
  {
    BarrierSeesAll(s);
    forall i | 0 <= i < |s.workers| ensures s.workers[i].pc == Committed {
      assert WorkerOk(s, s.workers[i]) && WorkerEnded(s.workers[i]);
    }
  }

  // ----- Progress -----

  /** Until the copy has finished, some thread can move: there is no deadlock and no lost wake-up. */
  lemma {:induction false} NoDeadlock(s: State) returns (m: Move)
    requires Inv(s) && !Finished(s)
    ensures Enabled(s, m)
  {
    if i :| 0 <= i < |s.workers| && !WorkerEnded(s.workers[i]) && !WorkerAsleep(s.workers[i]) {
      m := WorkerMove(i, false);
    } else {
      NobodyOffers(s);
      NobodyDecides(s);
      if s.commitDecided && s.reader != Decided { NobodyJoins(s); }
      m := ReaderMove(false);
    }
  }

  ghost predicate AllStill(s: State) {
    forall i :: 0 <= i < |s.workers| ==> WorkerEnded(s.workers[i]) || WorkerAsleep(s.workers[i])
  }

  /** With every worker ended or asleep, only the reader could notify. */
  lemma {:induction false} OnlyReaderNotifies(s: State)
    requires AllStill(s)
    ensures NotifyPending(s) <==> s.reader in {Pushed, Closing, Decided}
  {
  }

  lemma {:induction false} NobodyOffers(s: State)
    requires Inv(s) && AllStill(s)
    ensures s.reader != OfferAsleep
  {
    OnlyReaderNotifies(s);
    assert WorkerOk(s, s.workers[0]);
  }

  lemma {:induction false} NobodyDecides(s: State)
    requires Inv(s) && AllStill(s)
    ensures s.reader != DecideAsleep
  {
    OnlyReaderNotifies(s);
    CountPublished(s.workers);
    assert forall i :: 0 <= i < |s.workers| ==> WorkerOk(s, s.workers[i]);
  }

  lemma {:induction false} NobodyJoins(s: State)
    requires Inv(s) && AllStill(s) && s.commitDecided && s.reader != Decided
    ensures AllEnded(s)
  {
    OnlyReaderNotifies(s);
  }

  lemma {:induction false} CountPublished(ws: seq<Worker>)
    ensures (forall i :: 0 <= i < |ws| ==> ws[i].published) ==> Sum(ws, PublishedCount()) == |ws|
  {
    if ws != [] {
      CountPublished(ws[..|ws| - 1]);
    }
  }

  // ----- Termination -----

  /** What a worker still has to do, apart from chunks it has not taken yet. */
  function PcWork(pc: WorkerPc): nat {
    match pc
    case Connecting => 13
    case Popped => 12
    case Loading => 11
    case Fetching => 10
    case FetchAsleep => 10
    case Flushing => 9
    case Publishing => 8
    case Waiting => 7
    case WaitAsleep => 7
    case Committing => 6
    case Throwing => 5
    case Recorded => 4
    case _ => 0
  }

  function WorkerWork(): Worker -> nat {
    (w: Worker) => PcWork(w.pc)
  }

  function ReaderWork(r: ReaderPc): nat {
    match r
    case Offering => 11
    case OfferAsleep => 11
    case Pushed => 7
    case Reading => 6
    case ReadFailed => 5
    case Closing => 4
    case Deciding => 3
    case DecideAsleep => 3
    case Decided => 2
    case Joining => 1
    case _ => 0
  }

  /** Every move but falling asleep leaves less work: a chunk costs six moves, three of them after it is queued. */
  function Work(s: State): nat
    requires s.taken <= |s.input|
  {
    6 * (|s.input| - s.taken) + ReaderWork(s.reader) + 3 * |s.queue| + Sum(s.workers, WorkerWork())
  }

  /** Threads that may fall asleep before anything else happens. */
  function AwakeWorker(): Worker -> nat {
    (w: Worker) => if w.pc == Fetching || w.pc == Waiting then 1 else 0
  }

  function Awake(s: State): nat {
    (if s.reader == Offering || s.reader == Deciding then 1 else 0) + Sum(s.workers, AwakeWorker())
  }

  lemma {:induction false} WorkWake(s: State)
    ensures Sum(Wake(s).workers, WorkerWork()) == Sum(s.workers, WorkerWork())
    ensures ReaderWork(Wake(s).reader) == ReaderWork(s.reader)
  {
    SumSame(Wake(s).workers, s.workers, WorkerWork());
  }

  lemma {:induction false} ReaderWorks(s: State, fails: bool)
    requires Inv(s) && Enabled(s, ReaderMove(fails))
    ensures var t := MoveReader(s, fails);
            t.taken <= |t.input| && (Work(t) < Work(s) || (Work(t) == Work(s) && Awake(t) < Awake(s)))
  {
    if s.reader in {Pushed, Closing, Decided} {
      ReaderWakes(s, fails);
    } else {
      ReaderAlone(s, fails);
    }
  }

  lemma {:induction false} ReaderWakes(s: State, fails: bool)
    requires Inv(s) && Enabled(s, ReaderMove(fails)) && s.reader in {Pushed, Closing, Decided}
    ensures var t := MoveReader(s, fails); t.taken == s.taken && t.taken <= |t.input| && Work(t) < Work(s)
  {
    WorkWake(s);
  }

  lemma {:induction false} ReaderAlone(s: State, fails: bool)
    requires Inv(s) && Enabled(s, ReaderMove(fails)) && s.reader !in {Pushed, Closing, Decided}
    ensures var t := MoveReader(s, fails);
            t.taken <= |t.input| && (Work(t) < Work(s) || (Work(t) == Work(s) && Awake(t) < Awake(s)))
  {
    assert MoveReader(s, fails).workers == s.workers;
  }

  lemma {:induction false} WorkerWorks(s: State, i: nat, fails: bool)
    requires Inv(s) && Enabled(s, WorkerMove(i, fails))
    ensures var t := MoveWorker(s, i, fails);
            t.taken <= |t.input| && (Work(t) < Work(s) || (Work(t) == Work(s) && Awake(t) < Awake(s)))
  {
    var w, t := s.workers[i], MoveWorker(s, i, fails);
    if !fails && w.pc in {Popped, Publishing, Recorded} {
      NotifyWorks(s, i);
    } else {
      QuietWorks(s, i, fails);
    }
  }

  lemma {:induction false} NotifyWorks(s: State, i: nat)
    requires Inv(s) && i < |s.workers| && s.workers[i].pc in {Popped, Publishing, Recorded}
    ensures var t := MoveWorker(s, i, false); t.taken == s.taken && t.taken <= |t.input| && Work(t) < Work(s)
  {
    var t := MoveWorker(s, i, false);
    WorkWake(s);
    SumUpdate(Wake(s).workers, WorkerWork(), i, t.workers[i]);
    assert t.workers == Wake(s).workers[i := t.workers[i]];
    NotifyCheaper(s, i);
  }

  lemma {:induction false} NotifyCheaper(s: State, i: nat)
    requires Inv(s) && i < |s.workers| && s.workers[i].pc in {Popped, Publishing, Recorded}
    ensures var t := MoveWorker(s, i, false);
            && t.taken == s.taken && t.queue == s.queue && ReaderWork(t.reader) == ReaderWork(s.reader)
            && WorkerWork()(t.workers[i]) < WorkerWork()(Wake(s).workers[i])
  {
  }

  lemma {:induction false} QuietWorks(s: State, i: nat, fails: bool)
    requires Inv(s) && Enabled(s, WorkerMove(i, fails))
    requires fails || s.workers[i].pc !in {Popped, Publishing, Recorded}
    ensures var t := MoveWorker(s, i, fails);
            t.taken <= |t.input| && (Work(t) < Work(s) || (Work(t) == Work(s) && Awake(t) < Awake(s)))
  {
    var t := MoveWorker(s, i, fails);
    SumUpdate(s.workers, WorkerWork(), i, t.workers[i]);
    SumUpdate(s.workers, AwakeWorker(), i, t.workers[i]);
    assert t.workers == s.workers[i := t.workers[i]];
    OneWorks(s, i, fails);
  }

  ghost predicate Progress(s: State, t: State, i: nat)
    requires i < |s.workers| && i < |t.workers|
  {
    var v, w := t.workers[i].pc, s.workers[i].pc;
    && t.taken == s.taken && t.reader == s.reader
    && (PcWork(v) + 3 * |t.queue| < PcWork(w) + 3 * |s.queue|
        || (PcWork(v) == PcWork(w) && t.queue == s.queue
            && v in {FetchAsleep, WaitAsleep} && w in {Fetching, Waiting}))
  }

  lemma {:induction false} OneWorks(s: State, i: nat, fails: bool)
    requires Enabled(s, WorkerMove(i, fails))
    requires fails || s.workers[i].pc !in {Popped, Publishing, Recorded}
    ensures Progress(s, MoveWorker(s, i, fails), i)
  {
    if fails {
      assert MoveWorker(s, i, fails).workers[i].pc == Throwing;
    } else if s.workers[i].pc == Fetching {
      FetchWorks(s, i);
    } else {
      StepWorks(s, i);
    }
  }

  lemma {:induction false} FetchWorks(s: State, i: nat)
    requires i < |s.workers| && s.workers[i].pc == Fetching
    ensures Progress(s, MoveWorker(s, i, false), i)
  {
  }

  lemma {:induction false} StepWorks(s: State, i: nat)
    requires i < |s.workers| && s.workers[i].pc in {Connecting, Loading, Flushing, Waiting, Committing, Throwing}
    ensures Progress(s, MoveWorker(s, i, false), i)
  {
  }

  /** A bound on the number of moves that are left. */
  function MovesLeft(s: State): nat
    requires s.taken <= |s.input|
  {
    Work(s) * (|s.workers| + 2) + Awake(s)
  }

  lemma {:induction false} MoveWorks(s: State, m: Move)
    requires Inv(s) && Enabled(s, m)
    ensures var t := Apply(s, m);
            t.taken <= |t.input| && (Work(t) < Work(s) || (Work(t) == Work(s) && Awake(t) < Awake(s)))
  {
    match m
    case ReaderMove(fails) => ReaderWorks(s, fails);
    case WorkerMove(i, fails) => WorkerWorks(s, i, fails);
  }

  lemma {:induction false} MovesLeftDecreases(s: State, m: Move)
    requires Inv(s) && Enabled(s, m)
    ensures Apply(s, m).taken <= |s.input| && MovesLeft(Apply(s, m)) < MovesLeft(s)
  {
    var t := Apply(s, m);
    MoveWorks(s, m);
    SumBound(t.workers, AwakeWorker(), 1);
    Lexicographic(Work(s), Work(t), Awake(s), Awake(t), |s.workers| + 2);
  }

  lemma {:induction false} Lexicographic(a: nat, b: nat, x: nat, y: nat, n: nat)
    requires y < n && (b < a || (b == a && y < x))
    ensures b * n + y < a * n + x
  {
    if b < a {
      assert b * n + n <= a * n by { assert (b + 1) * n <= a * n; }
    }
  }

  /** Every run ends: it makes at most as many moves as the first state allows. */
  lemma {:induction false} RunBounded(states: seq<State>, moves: seq<Move>, k: nat)
    requires IsRun(states, moves) && k < |states|
    ensures states[k].taken <= |states[k].input| && states[0].taken <= |states[0].input|
    ensures k + MovesLeft(states[k]) <= MovesLeft(states[0])
  {
    RunReads(states, moves, 0);
    if k > 0 {
      RunBounded(states, moves, k - 1);
      RunStepLeavesLess(states, moves, k);
    }
  }

  lemma {:induction false} RunReads(states: seq<State>, moves: seq<Move>, k: nat)
    requires IsRun(states, moves) && k < |states|
    ensures states[k].taken <= |states[k].input|
  {
    RunKeepsInv(states, moves, k);
  }

  lemma {:induction false} RunStepLeavesLess(states: seq<State>, moves: seq<Move>, k: nat)
    requires IsRun(states, moves) && 0 < k < |states|
    ensures states[k - 1].taken <= |states[k - 1].input| && states[k].taken <= |states[k].input|
    ensures MovesLeft(states[k]) < MovesLeft(states[k - 1])
  {
    RunKeepsInv(states, moves, k - 1);
    assert IsStep(states[k - 1], moves[k - 1], states[k]);
    StepLeavesLess(states[k - 1], moves[k - 1], states[k]);
  }

  lemma {:induction false} StepLeavesLess(s: State, m: Move, t: State)
    requires Inv(s) && IsStep(s, m, t)
    ensures t.taken <= |t.input| && MovesLeft(t) < MovesLeft(s)
  {
    MovesLeftDecreases(s, m);
  }

  /** A run that cannot go on has finished: the reader has returned or rethrown, and every worker has committed,
      abandoned or failed; `CommitFates` says which. */
  lemma {:induction false} StuckMeansFinished(states: seq<State>, moves: seq<Move>)
    requires IsRun(states, moves)
    requires forall m: Move :: !Enabled(states[|moves|], m)
    ensures Finished(states[|moves|])
    ensures states[|moves|].reader == Returned ==>
      forall i :: 0 <= i < |states[|moves|].workers| ==> states[|moves|].workers[i].pc == Committed
    ensures states[|moves|].reader == Returned <==> !states[|moves|].error
  {
    var s := states[|moves|];
    RunKeepsInv(states, moves, |moves|);
    if !Finished(s) {
      var m := NoDeadlock(s);
    }
    if s.reader == Returned {
      ReturnMeansCommitted(s);
    }
  }
}
