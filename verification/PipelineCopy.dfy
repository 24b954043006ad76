/** COPY through one writer: a producer thread reads chunks into a queue of at most three, and the caller takes
    them and loads them in order. Critical sections and notifications are atomic steps, as in `ParallelCopy`;
    reading and loading may fail. */
module PipelineCopy {
  import opened CopyQueue

  datatype ProducerPc = Reading | Offering | OfferAsleep | Pushed | Raised | Closing | Notifying | Ended

  datatype ConsumerPc =
    | Taking | TakeAsleep | Popped | Loading | Cancelling | CancelNotify | JoiningThrow | Threw
    | Joining | Returned | Rethrew

  datatype State = State(
    input: seq<Chunk>, taken: nat,
    producer: ProducerPc, producerHand: seq<Chunk>,
    consumer: ConsumerPc, consumerHand: seq<Chunk>, loaded: seq<Chunk>,
    queue: seq<Chunk>, done: bool, cancel: bool, producerError: bool)

  datatype Move = ProducerMove(fails: bool) | ConsumerMove(fails: bool)

  ghost predicate Init(s: State) {
    s == State(s.input, 0, Reading, [], Taking, [], [], [], false, false, false)
  }

  predicate ConsumerEnded(s: State) {
    s.consumer in {Threw, Returned, Rethrew}
  }

  predicate Finished(s: State) {
    s.producer == Ended && ConsumerEnded(s)
  }

  predicate Enabled(s: State, m: Move) {
    match m
    case ProducerMove(fails) => s.producer !in {OfferAsleep, Ended} && (fails ==> s.producer == Reading)
    case ConsumerMove(fails) =>
      && s.consumer != TakeAsleep && !ConsumerEnded(s) && (fails ==> s.consumer == Loading)
      && (s.consumer in {Joining, JoiningThrow} ==> s.producer == Ended)
  }

  /** `notify_all` */
  function Wake(s: State): State {
    s.(producer := if s.producer == OfferAsleep then Offering else s.producer,
       consumer := if s.consumer == TakeAsleep then Taking else s.consumer)
  }

  /** The step of the producer, as it sees the shared state. */
  function NextProducer(s: State, fails: bool): ProducerPc {
    match s.producer
    case Reading => if fails then Raised else if s.taken < |s.input| then Offering else Closing
    case Offering => if s.cancel then Closing else if |s.queue| < QUEUE_DEPTH then Pushed else OfferAsleep
    case Pushed => Reading
    case Raised => Closing
    case Closing => Notifying
    case Notifying => Ended
    case _ => s.producer
  }

  /** What it does to the state. */
  function ProducerShare(s: State, fails: bool): State
    requires s.taken <= |s.input|
  {
    match s.producer
    case Reading =>
      if !fails && s.taken < |s.input| then s.(producerHand := [s.input[s.taken]], taken := s.taken + 1) else s
    case Offering =>
      if !s.cancel && |s.queue| < QUEUE_DEPTH then s.(queue := s.queue + s.producerHand, producerHand := []) else s
    case Raised => s.(producerError := true)
    case Closing => s.(done := true)
    case _ => s
  }

  function MoveProducer(s: State, fails: bool): State
    requires Enabled(s, ProducerMove(fails)) && s.taken <= |s.input|
  {
    var t := ProducerShare(s, fails);
    (if s.producer in {Pushed, Notifying} then Wake(t) else t).(producer := NextProducer(s, fails))
  }

  /** The step of the consumer, as it sees the shared state. */
  function NextConsumer(s: State, fails: bool): ConsumerPc {
    match s.consumer
    case Taking => if s.queue != [] then Popped else if s.done then Joining else TakeAsleep
    case Popped => Loading
    case Loading => if fails then Cancelling else Taking
    case Cancelling => CancelNotify
    case CancelNotify => JoiningThrow
    case JoiningThrow => Threw
    case Joining => if s.producerError then Rethrew else Returned
    case _ => s.consumer
  }

  /** What it does to the state. */
  function ConsumerShare(s: State, fails: bool): State {
    match s.consumer
    case Taking => if s.queue != [] then s.(consumerHand := [s.queue[0]], queue := s.queue[1..]) else s
    case Loading => if fails then s else s.(loaded := s.loaded + s.consumerHand, consumerHand := [])
    case Cancelling => s.(cancel := true)
    case _ => s
  }

  function MoveConsumer(s: State, fails: bool): State
    requires Enabled(s, ConsumerMove(fails))
  {
    var t := ConsumerShare(s, fails);
    (if s.consumer in {Popped, CancelNotify} then Wake(t) else t).(consumer := NextConsumer(s, fails))
  }

  function Apply(s: State, m: Move): State
    requires Enabled(s, m) && s.taken <= |s.input|
  {
    match m
    case ProducerMove(fails) => MoveProducer(s, fails)
    case ConsumerMove(fails) => MoveConsumer(s, fails)
  }

  // ----- The invariant -----

  /** What is loaded, in hand, queued and offered is, in this order, what was read. */
  ghost predicate InOrder(s: State) {
    s.taken <= |s.input| && s.loaded + s.consumerHand + s.queue + s.producerHand == s.input[..s.taken]
  }

  ghost predicate Flags(s: State) {
    && |s.queue| <= QUEUE_DEPTH
    && (s.done <==> s.producer in {Notifying, Ended})
    && (s.cancel <==> s.consumer in {CancelNotify, JoiningThrow, Threw})
    && (s.producer in {Offering, OfferAsleep} ==> |s.producerHand| == 1)
    && (s.producer in {Reading, Pushed, Raised} || s.producerError ==> s.producerHand == [])
    && (s.producer in {Closing, Notifying, Ended} && !s.cancel ==> s.producerHand == [])
    && (s.producerError ==> s.producer in {Closing, Notifying, Ended})
    && (s.producer in {Closing, Notifying, Ended} && !s.producerError && !s.cancel ==> s.taken == |s.input|)
    && (s.consumer in {Taking, TakeAsleep, Joining, Returned, Rethrew} ==> s.consumerHand == [])
    && (s.consumer in {Joining, Returned, Rethrew} ==> s.done && s.queue == [])
    && (s.consumer in {Threw, Returned, Rethrew} ==> s.producer == Ended)
    && (s.consumer == Returned ==> !s.producerError)
    && (s.consumer == Rethrew ==> s.producerError)
  }

  ghost predicate NotifyPending(s: State) {
    s.producer in {Pushed, Notifying} || s.consumer in {Popped, CancelNotify}
  }

  /** No wake-up is lost. */
  ghost predicate NoLostWakeup(s: State) {
    && (s.producer == OfferAsleep && (s.cancel || |s.queue| < QUEUE_DEPTH) ==> NotifyPending(s))
    && (s.consumer == TakeAsleep && (s.done || s.queue != []) ==> NotifyPending(s))
  }

  ghost predicate Inv(s: State) {
    InOrder(s) && Flags(s) && NoLostWakeup(s)
  }

  lemma {:induction false} ProducerInOrder(s: State, fails: bool)
    requires Inv(s) && Enabled(s, ProducerMove(fails))
    ensures InOrder(MoveProducer(s, fails))
  {
    if s.producer == Reading && !fails && s.taken < |s.input| {
      assert s.input[..s.taken + 1] == s.input[..s.taken] + [s.input[s.taken]];
      assert s.loaded + s.consumerHand + s.queue + s.producerHand == s.loaded + s.consumerHand + s.queue;
    }
  }

  lemma {:induction false} ConsumerInOrder(s: State, fails: bool)
    requires Inv(s) && Enabled(s, ConsumerMove(fails))
    ensures InOrder(MoveConsumer(s, fails))
  {
    if s.consumer == Taking && s.queue != [] {
      assert s.queue == [s.queue[0]] + s.queue[1..];
      assert s.loaded + s.consumerHand + s.queue == s.loaded + [s.queue[0]] + s.queue[1..];
    }
  }

  lemma {:induction false} ProducerKeeps(s: State, fails: bool)
    requires Inv(s) && Enabled(s, ProducerMove(fails))
    ensures Flags(MoveProducer(s, fails)) && NoLostWakeup(MoveProducer(s, fails))
  {
  }

  lemma {:induction false} ConsumerKeeps(s: State, fails: bool)
    requires Inv(s) && Enabled(s, ConsumerMove(fails))
    ensures Flags(MoveConsumer(s, fails)) && NoLostWakeup(MoveConsumer(s, fails))
  {
  }

  lemma {:induction false} InvStep(s: State, m: Move)
    requires Inv(s) && Enabled(s, m)
    ensures Inv(Apply(s, m)) && Apply(s, m).input == s.input
  {
    match m
    case ProducerMove(fails) =>
      ProducerInOrder(s, fails);
      ProducerKeeps(s, fails);
    case ConsumerMove(fails) =>
      ConsumerInOrder(s, fails);
      ConsumerKeeps(s, fails);
  }

  // ----- Runs -----

  ghost predicate IsRun(states: seq<State>, moves: seq<Move>) {
    && |states| == |moves| + 1 && Init(states[0])
    && forall k :: 0 <= k < |moves| ==> IsStep(states[k], moves[k], states[k + 1])
  }

  ghost predicate IsStep(s: State, m: Move, t: State) {
    s.taken <= |s.input| && Enabled(s, m) && t == Apply(s, m)
  }

  lemma {:induction false} RunKeepsInv(states: seq<State>, moves: seq<Move>, k: nat)
    requires IsRun(states, moves) && k < |states|
    ensures Inv(states[k]) && states[k].input == states[0].input
  {
    if k > 0 {
      RunKeepsInv(states, moves, k - 1);
      assert IsStep(states[k - 1], moves[k - 1], states[k]);
      InvStep(states[k - 1], moves[k - 1]);
    }
  }

  /** At every moment what is loaded, then in hand, then queued is a prefix of the input, and at most three chunks
      are queued. */
  lemma {:induction false} LoadedIsPrefix(states: seq<State>, moves: seq<Move>, k: nat)
    requires IsRun(states, moves) && k < |states|
    ensures states[k].loaded + states[k].consumerHand + states[k].queue <= states[0].input
    ensures |states[k].queue| <= QUEUE_DEPTH
  {
    RunKeepsInv(states, moves, k);
    var s := states[k];
    var front := s.loaded + s.consumerHand + s.queue;
    assert front <= front + s.producerHand <= s.input;
  }

  /** A normal return means that the whole input was loaded, in order; a failure of the reader is rethrown only
      when everything it had read was loaded. */
  lemma {:induction false} OutcomeOfRun(states: seq<State>, moves: seq<Move>, k: nat)
    requires IsRun(states, moves) && k < |states|
    ensures states[k].consumer == Returned ==> states[k].loaded == states[0].input && !states[k].producerError
    ensures states[k].consumer == Rethrew ==>
      states[k].taken <= |states[0].input| && states[k].producerError && states[k].queue == []
      && states[k].loaded == states[0].input[..states[k].taken]
  {
    RunKeepsInv(states, moves, k);
    var s := states[k];
    if s.consumer in {Returned, Rethrew} {
      assert s.loaded + s.consumerHand + s.queue + s.producerHand == s.loaded;
      assert s.input[..|s.input|] == s.input;
    }
  }

  // ----- Progress -----

  lemma {:induction false} NoDeadlock(s: State) returns (m: Move)
    requires Inv(s) && !Finished(s)
    ensures Enabled(s, m)
  {
    m := if s.producer in {OfferAsleep, Ended} then ConsumerMove(false) else ProducerMove(false);
  }

  function ProducerWork(p: ProducerPc): nat {
    match p
    case Offering => 10
    case OfferAsleep => 10
    case Pushed => 6
    case Reading => 5
    case Raised => 4
    case Closing => 3
    case Notifying => 2
    case Ended => 0
  }

  function ConsumerWork(c: ConsumerPc): nat {
    match c
    case Popped => 7
    case Loading => 6
    case Taking => 5
    case TakeAsleep => 5
    case Cancelling => 4
    case CancelNotify => 3
    case JoiningThrow => 2
    case Joining => 1
    case _ => 0
  }

  function Work(s: State): nat
    requires s.taken <= |s.input|
  {
    6 * (|s.input| - s.taken) + ProducerWork(s.producer) + 3 * |s.queue| + ConsumerWork(s.consumer)
  }

  /** A bound on the number of moves that are left; two threads may fall asleep for each unit of work. */
  function MovesLeft(s: State): nat
    requires s.taken <= |s.input|
  {
    3 * Work(s) + (if s.producer == Offering then 1 else 0) + (if s.consumer == Taking then 1 else 0)
  }

  lemma {:induction false} OfferWorks(s: State)
    requires s.taken <= |s.input| && s.producer == Offering && |s.producerHand| == 1
    ensures MoveProducer(s, false).taken == s.taken && MoveProducer(s, false).input == s.input
    ensures MovesLeft(MoveProducer(s, false)) < MovesLeft(s)
  {
  }

  lemma {:induction false} ProducerWorks(s: State, fails: bool)
    requires s.taken <= |s.input| && Enabled(s, ProducerMove(fails))
    requires s.producer == Offering ==> |s.producerHand| == 1
    ensures MoveProducer(s, fails).taken <= |s.input| && MoveProducer(s, fails).input == s.input
    ensures MovesLeft(MoveProducer(s, fails)) < MovesLeft(s)
  {
    if s.producer == Offering { OfferWorks(s); }
  }

  lemma {:induction false} ConsumerWorks(s: State, fails: bool)
    requires s.taken <= |s.input| && Enabled(s, ConsumerMove(fails))
    ensures MoveConsumer(s, fails).taken <= |s.input| && MoveConsumer(s, fails).input == s.input
    ensures MovesLeft(MoveConsumer(s, fails)) < MovesLeft(s)
  {
  }

  lemma {:induction false} MovesLeftDecreases(s: State, m: Move)
    requires Inv(s) && Enabled(s, m)
    ensures Apply(s, m).taken <= |s.input| && Apply(s, m).input == s.input
    ensures MovesLeft(Apply(s, m)) < MovesLeft(s)
  {
    match m
    case ProducerMove(fails) => ProducerWorks(s, fails);
    case ConsumerMove(fails) => ConsumerWorks(s, fails);
  }

  /** Every run ends. */
  lemma {:induction false} RunBounded(states: seq<State>, moves: seq<Move>, k: nat)
    requires IsRun(states, moves) && k < |states|
    ensures states[k].taken <= |states[k].input| && states[0].taken <= |states[0].input|
    ensures k + MovesLeft(states[k]) <= MovesLeft(states[0])
  {
    if k > 0 {
      RunBounded(states, moves, k - 1);
      RunKeepsInv(states, moves, k - 1);
      assert IsStep(states[k - 1], moves[k - 1], states[k]);
      MovesLeftDecreases(states[k - 1], moves[k - 1]);
    }
  }

  /** A run that cannot go on has finished. */
  lemma {:induction false} StuckMeansFinished(states: seq<State>, moves: seq<Move>)
    requires IsRun(states, moves)
    requires forall m: Move :: !Enabled(states[|moves|], m)
    ensures Finished(states[|moves|])
  {
    RunKeepsInv(states, moves, |moves|);
    if !Finished(states[|moves|]) {
      var m := NoDeadlock(states[|moves|]);
    }
  }

  // ----- How the copy ends -----

  /** Some move of the thread failed before the `n`th. */
  predicate ProducerFailed(moves: seq<Move>, n: nat)
    requires n <= |moves|
  {
    exists k :: 0 <= k < n && moves[k] == ProducerMove(true)
  }

  predicate ConsumerFailed(moves: seq<Move>, n: nat)
    requires n <= |moves|
  {
    exists k :: 0 <= k < n && moves[k] == ConsumerMove(true)
  }

  predicate CausesOk(s: State, producerFailed: bool, consumerFailed: bool) {
    && (s.producerError || s.producer == Raised <==> producerFailed)
    && (s.consumer in {Cancelling, CancelNotify, JoiningThrow, Threw} <==> consumerFailed)
  }

  lemma {:induction false} ProducerCauses(s: State, fails: bool, producerFailed: bool, consumerFailed: bool)
    requires s.taken <= |s.input| && Enabled(s, ProducerMove(fails)) && CausesOk(s, producerFailed, consumerFailed)
    ensures CausesOk(MoveProducer(s, fails), producerFailed || fails, consumerFailed)
  {
  }

  lemma {:induction false} ConsumerCauses(s: State, fails: bool, producerFailed: bool, consumerFailed: bool)
    requires Enabled(s, ConsumerMove(fails)) && CausesOk(s, producerFailed, consumerFailed)
    ensures CausesOk(MoveConsumer(s, fails), producerFailed, consumerFailed || fails)
  {
  }

  lemma {:induction false} FailedOneMore(moves: seq<Move>, n: nat)
    requires 0 < n <= |moves|
    ensures ProducerFailed(moves, n) <==> ProducerFailed(moves, n - 1) || moves[n - 1] == ProducerMove(true)
    ensures ConsumerFailed(moves, n) <==> ConsumerFailed(moves, n - 1) || moves[n - 1] == ConsumerMove(true)
  {
    if ProducerFailed(moves, n - 1) {
      var k :| 0 <= k < n - 1 && moves[k] == ProducerMove(true);
      assert k < n && moves[k] == ProducerMove(true);
    }
    if ConsumerFailed(moves, n - 1) {
      var k :| 0 <= k < n - 1 && moves[k] == ConsumerMove(true);
      assert k < n && moves[k] == ConsumerMove(true);
    }
  }

  /** An error of the producer stems from a read that failed, and a cancelled copy from a load that failed. */
  lemma {:induction false} RunHasCauses(states: seq<State>, moves: seq<Move>, n: nat)
    requires IsRun(states, moves) && n <= |moves|
    ensures CausesOk(states[n], ProducerFailed(moves, n), ConsumerFailed(moves, n))
  {
    if n > 0 {
      RunHasCauses(states, moves, n - 1);
      assert IsStep(states[n - 1], moves[n - 1], states[n]);
      FailedOneMore(moves, n);
      match moves[n - 1]
      case ProducerMove(fails) =>
        ProducerCauses(states[n - 1], fails, ProducerFailed(moves, n - 1), ConsumerFailed(moves, n - 1));
      case ConsumerMove(fails) =>
        ConsumerCauses(states[n - 1], fails, ProducerFailed(moves, n - 1), ConsumerFailed(moves, n - 1));
    }
  }

  /** A finished copy has returned precisely when nothing failed, with the whole input loaded in order; it throws what
      the loading threw when that failed, and rethrows what the reading threw when only that did. */
  lemma {:induction false} EndOfRun(states: seq<State>, moves: seq<Move>)
    requires IsRun(states, moves) && Finished(states[|moves|])
    ensures var s, n := states[|moves|], |moves|;
            && (s.consumer == Returned <==> !ProducerFailed(moves, n) && !ConsumerFailed(moves, n))
            && (s.consumer == Threw <==> ConsumerFailed(moves, n))
            && (s.consumer == Rethrew <==> ProducerFailed(moves, n) && !ConsumerFailed(moves, n))
            && (s.consumer == Returned ==> s.loaded == states[0].input)
  {
    RunHasCauses(states, moves, |moves|);
    RunKeepsInv(states, moves, |moves|);
    OutcomeOfRun(states, moves, |moves|);
  }

  /** The producer waits precisely while three chunks are queued and the copy goes on, the consumer while none is and
      the input may go on. */
  lemma {:induction false} WaitsPrecisely(s: State)
    requires Flags(s) && s.taken <= |s.input|
    ensures s.producer == Offering ==> (MoveProducer(s, false).producer == OfferAsleep <==> !s.cancel && |s.queue| == 3)
    ensures s.consumer == Taking ==> (MoveConsumer(s, false).consumer == TakeAsleep <==> !s.done && s.queue == [])
  {
  }
}
