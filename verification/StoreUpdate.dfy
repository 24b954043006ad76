/** Updating a store file in place: the combined file is written to a temporary sibling and then moved over the store.
    Every file-system effect is one step; any step may fail, the run may stop anywhere, and while a store is being
    created another process may put a file in its place. No other run shares the temporary name. */
module StoreUpdate {
  import opened Outcomes
  import opened KeyedMerge

  datatype Pc = Checking | Validating | Opening | Writing | Moving | Removing | Logging | Cleaning | Done(code: nat)

  /** What the run is asked for: whether a missing store may be created, and the combined file for what was there. */
  datatype Job = Job(create: bool, combined: Option<string> -> string)

  /** `before` is what the store held when it was checked, `others` what another process put there since. */
  datatype State = State(
    pc: Pc,
    store: Option<string>,
    temp: Option<string>,
    present: bool,
    before: Option<string>,
    named: bool,
    moved: bool,
    others: Option<string>)

  datatype Action =
    | Check
    | Validate
    | Open
    | Write(count: nat)
    | Close
    | Move
    | Remove(ok: bool)
    | Log
    | Fail
    | Clean(ok: bool)
    | OtherPuts(content: string)

  function Wanted(job: Job, s: State): string {
    job.combined(s.before)
  }

  predicate Initial(s: State) {
    s.pc == Checking && !s.named && !s.moved && s.others == None && !s.present && s.before == None
  }

  predicate Enabled(job: Job, s: State, a: Action) {
    match a
    case Check => s.pc == Checking
    case Validate => s.pc == Validating && (s.present ==> s.store.Some?)
    case Open => s.pc == Opening
    case Write(count) =>
      s.pc == Writing && s.temp.Some? && 0 < count && |s.temp.value| + count <= |Wanted(job, s)|
    case Close => s.pc == Writing && s.temp == Some(Wanted(job, s))
    case Move => s.pc == Moving && (s.present || s.store.None?)
    case Remove(_) => s.pc == Removing
    case Log => s.pc == Logging
    case Fail => s.pc in {Validating, Opening, Writing, Moving, Logging}
    case Clean(_) => s.pc == Cleaning
    case OtherPuts(_) => s.pc != Checking && !s.present && !s.moved
  }

  /** Renaming replaces the store in one effect; linking only succeeds where no file is, and leaves the temporary name
      to be removed. */
  function After(job: Job, s: State, a: Action): State
    requires Enabled(job, s, a)
  {
    match a
    case Check => s.(pc := Validating, present := !(job.create && s.store.None?), before := s.store)
    case Validate => s.(pc := Opening, named := true)
    case Open => s.(pc := Writing, temp := Some(""))
    case Write(count) => s.(temp := Some(Wanted(job, s)[..|s.temp.value| + count]))
    case Close => s.(pc := Moving)
    case Move =>
      if s.present then s.(pc := Logging, store := s.temp, temp := None, moved := true)
      else s.(pc := Removing, store := s.temp, moved := true)
    case Remove(ok) => s.(pc := Logging, temp := if ok then None else s.temp)
    case Log => s.(pc := Done(0))
    case Fail => s.(pc := Cleaning)
    case Clean(ok) => s.(pc := Done(1), temp := if s.named && ok then None else s.temp)
    case OtherPuts(content) => s.(store := Some(content), others := Some(content))
  }

  predicate StoreIs(job: Job, s: State) {
    if s.moved then s.store == Some(Wanted(job, s)) && s.others == None
    else if s.present then s.store == s.before && s.others == None
    else s.store == s.others && s.before == None
  }

  predicate Inv(job: Job, s: State) {
    && (s.pc == Checking ==> Initial(s))
    && (s.pc != Checking ==> StoreIs(job, s))
    && (s.pc in {Validating, Opening, Writing, Moving} ==> !s.moved)
    && (s.pc in {Removing, Logging, Done(0)} ==> s.moved)
    && (s.pc == Writing ==> s.temp.Some? && s.temp.value <= Wanted(job, s))
    && (s.pc == Moving ==> s.temp == Some(Wanted(job, s)))
    && (s.pc in {Opening, Writing, Moving, Removing, Logging} ==> s.named)
    && (s.pc.Done? ==> s.pc.code <= 1)
  }

  lemma {:induction false} InvInit(job: Job, s: State)
    requires Initial(s)
    ensures Inv(job, s)
  {
  }

  lemma {:induction false} InvStep(job: Job, s: State, a: Action)
    requires Inv(job, s) && Enabled(job, s, a)
    ensures Inv(job, After(job, s, a))
  {
  }

  predicate IsRun(job: Job, states: seq<State>, actions: seq<Action>) {
    && |states| == |actions| + 1 && Initial(states[0])
    && forall i :: 0 <= i < |actions| ==>
         Enabled(job, states[i], actions[i]) && states[i + 1] == After(job, states[i], actions[i])
  }

  lemma {:induction false} RunKeepsInv(job: Job, states: seq<State>, actions: seq<Action>, i: nat)
    requires IsRun(job, states, actions) && i < |states|
    ensures Inv(job, states[i])
  {
    if i == 0 {
      InvInit(job, states[0]);
    } else {
      RunKeepsInv(job, states, actions, i - 1);
      InvStep(job, states[i - 1], actions[i - 1]);
    }
  }

  /** At every point of every run an existing store holds its original bytes or the complete combined file. */
  lemma {:induction false} StoreIsWhole(job: Job, states: seq<State>, actions: seq<Action>, i: nat)
    requires IsRun(job, states, actions) && i < |states| && states[i].present
    ensures states[i].store == states[i].before || states[i].store == Some(Wanted(job, states[i]))
  {
    RunKeepsInv(job, states, actions, i);
  }

  /** While a store is created it is missing or complete, or it is what another process put there. */
  lemma {:induction false} CreatedIsWhole(job: Job, states: seq<State>, actions: seq<Action>, i: nat)
    requires IsRun(job, states, actions) && i < |states| && states[i].pc != Checking && !states[i].present
    ensures states[i].others == None ==> states[i].store == None || states[i].store == Some(Wanted(job, states[i]))
    ensures states[i].others != None ==> states[i].store == states[i].others
  {
    RunKeepsInv(job, states, actions, i);
  }

  /** Once another process has put a file there, this run never changes it: only that process can. */
  lemma {:induction false} OthersStay(job: Job, states: seq<State>, actions: seq<Action>, i: nat, j: nat)
    requires IsRun(job, states, actions) && i <= j < |states| && states[i].others.Some?
    requires forall k :: i <= k < j ==> !actions[k].OtherPuts?
    ensures states[j].store == states[i].others && states[j].others == states[i].others
  {
    if i == j {
      RunKeepsInv(job, states, actions, i);
    } else {
      OthersStay(job, states, actions, i, j - 1);
      RunKeepsInv(job, states, actions, j - 1);
      RunKeepsInv(job, states, actions, j);
    }
  }

  /** A run that reports success has put the combined file in place; one that reports failure before moving it has
      changed nothing. */
  lemma {:induction false} OutcomeOfRun(job: Job, states: seq<State>, actions: seq<Action>, i: nat)
    requires IsRun(job, states, actions) && i < |states| && states[i].pc.Done?
    ensures states[i].pc.code == 0 ==> states[i].store == Some(Wanted(job, states[i])) && states[i].others == None
    ensures !states[i].moved ==> states[i].store == if states[i].present then states[i].before else states[i].others
  {
    RunKeepsInv(job, states, actions, i);
  }

  predicate Failed(actions: seq<Action>, i: nat)
    requires i <= |actions|
  {
    exists k :: 0 <= k < i && actions[k] == Fail
  }

  lemma {:induction false} FailedOneMore(actions: seq<Action>, i: nat)
    requires i < |actions|
    ensures Failed(actions, i + 1) <==> Failed(actions, i) || actions[i] == Fail
  {
    if Failed(actions, i) {
      var k :| 0 <= k < i && actions[k] == Fail;
      assert actions[k] == Fail && k < i + 1;
    }
    if actions[i] == Fail {
      assert i < i + 1;
    }
  }

  predicate EndsAs(job: Job, s: State, initial: Option<string>, failed: bool) {
    && (s.pc == Checking ==> s.store == initial && !failed)
    && (s.pc != Checking ==> s.before == initial && s.present == (initial.Some? || !job.create))
    && (failed <==> s.pc == Cleaning || s.pc == Done(1))
    && (s.present && initial.None? ==> !s.moved && s.pc in {Validating, Cleaning, Done(1)})
  }

  lemma {:induction false} RunEndsAs(job: Job, states: seq<State>, actions: seq<Action>, i: nat)
    requires IsRun(job, states, actions) && i < |states|
    ensures EndsAs(job, states[i], states[0].store, Failed(actions, i))
  {
    if i > 0 {
      RunEndsAs(job, states, actions, i - 1);
      RunKeepsInv(job, states, actions, i - 1);
      RunKeepsInv(job, states, actions, i);
      FailedOneMore(actions, i - 1);
      assert Enabled(job, states[i - 1], actions[i - 1]);
    }
  }

  /** A run that is over has succeeded precisely when none of its steps failed, and then the store holds the combined
      file of what it held at first. Without leave to create it, a missing store is never made. */
  lemma {:induction false} UpdateSucceeds(job: Job, states: seq<State>, actions: seq<Action>, i: nat)
    requires IsRun(job, states, actions) && i < |states| && states[i].pc.Done?
    ensures states[i].pc == if Failed(actions, i) then Done(1) else Done(0)
    ensures states[i].pc == Done(0) ==> states[i].store == Some(job.combined(states[0].store))
    ensures states[0].store == None && !job.create ==> Failed(actions, i) && states[i].store == None
  {
    RunEndsAs(job, states, actions, i);
    RunKeepsInv(job, states, actions, i);
  }

  /** A finished run leaves no temporary file it named, unless removing it failed. */
  predicate Tidy(s: State) {
    s.pc.Done? && s.named ==> s.temp == None
  }

  predicate LeftBehind(a: Action) {
    a == Remove(false) || a == Clean(false)
  }

  lemma {:induction false} NothingLeftBehind(job: Job, states: seq<State>, actions: seq<Action>, i: nat)
    requires IsRun(job, states, actions) && i < |states|
    requires forall k :: 0 <= k < i ==> !LeftBehind(actions[k])
    ensures Tidy(states[i])
    ensures states[i].pc == Logging ==> states[i].temp == None
  {
    if i > 0 {
      NothingLeftBehind(job, states, actions, i - 1);
      RunKeepsInv(job, states, actions, i - 1);
      assert !LeftBehind(actions[i - 1]);
    }
  }

  /** The steps left, but for those of other processes. */
  function StepsLeft(job: Job, s: State): nat
    requires Inv(job, s)
  {
    match s.pc
    case Checking => |job.combined(s.store)| + 9
    case Validating => |Wanted(job, s)| + 8
    case Opening => |Wanted(job, s)| + 7
    case Writing => |Wanted(job, s)| - |s.temp.value| + 6
    case Moving => 5
    case Removing => 4
    case Logging => 3
    case Cleaning => 1
    case Done(_) => 0
  }

  lemma {:induction false} StepsLeftDecreases(job: Job, s: State, a: Action)
    requires Inv(job, s) && Enabled(job, s, a)
    ensures Inv(job, After(job, s, a))
    ensures StepsLeft(job, After(job, s, a)) + (if a.OtherPuts? then 0 else 1) <= StepsLeft(job, s)
  {
    InvStep(job, s, a);
  }

  function OwnSteps(actions: seq<Action>): nat {
    if actions == [] then 0
    else OwnSteps(actions[..|actions| - 1]) + if actions[|actions| - 1].OtherPuts? then 0 else 1
  }

  /** Every run ends, whatever other processes do: its own steps are bounded by the length of the combined file. */
  lemma {:induction false} RunEnds(job: Job, states: seq<State>, actions: seq<Action>)
    requires IsRun(job, states, actions)
    ensures Inv(job, states[0]) && Inv(job, states[|actions|])
    ensures OwnSteps(actions) + StepsLeft(job, states[|actions|]) <= |job.combined(states[0].store)| + 9
  {
    RunKeepsInv(job, states, actions, 0);
    if actions != [] {
      var n := |actions| - 1;
      RunEnds(job, states[..n + 1], actions[..n]);
      StepsLeftDecreases(job, states[n], actions[n]);
    }
  }

  /** Something is in the way of the run: the store it should update is missing, or there is a file where it should put
      its own. */
  predicate Blocked(s: State) {
    || (s.pc == Validating && s.present && s.store.None?)
    || (s.pc == Moving && !s.present && s.store.Some?)
  }

  /** A run that has not finished can always stop or clean up, and can go on without failing precisely unless it is
      blocked. */
  lemma {:induction false} NeverStuck(job: Job, s: State)
    requires Inv(job, s) && !s.pc.Done?
    ensures exists a :: Enabled(job, s, a) && !a.OtherPuts?
    ensures !Blocked(s) <==> exists a :: Enabled(job, s, a) && !a.OtherPuts? && !a.Fail?
  {
    var a :=
      match s.pc
      case Checking => Check
      case Validating => Validate
      case Opening => Open
      case Writing => if s.temp == Some(Wanted(job, s)) then Close else Write(1)
      case Moving => Move
      case Removing => Remove(true)
      case Logging => Log
      case Cleaning => Clean(true);
    if s.pc == Writing && a != Close {
      var have, want := s.temp.value, Wanted(job, s);
      assert have <= want && have != want;
      assert want == want[..|want|];
    }
    assert Enabled(job, s, if Blocked(s) then Fail else a);
  }

  // ----- The combined file of a merge and of an append -----

  /** The combined file of a merge: `read` and `written` turn a file into its table and back. */
  ghost predicate Merges(job: Job, incoming: CsvTable, key: string, find: Finder,
                         read: string -> CsvTable, written: CsvTable -> string, before: Option<string>) {
    var existing := match before case Some(text) => Some(read(text)) case None => None;
    && Inputs(existing, incoming, key, find)
    && (MergeOf(existing, incoming, key, find).Ok? ==>
          job.combined(before) == written(MergeOf(existing, incoming, key, find).value.table))
  }

  /** Merging into a store a second time writes the same bytes again, when reading the merged table's file gives that
      table back. */
  lemma {:induction false} MergeTwiceIsOnce(job: Job, incoming: CsvTable, key: string, find: Finder,
                         read: string -> CsvTable, written: CsvTable -> string, before: Option<string>)
    requires Merges(job, incoming, key, find, read, written, before)
    requires Merges(job, incoming, key, find, read, written, Some(job.combined(before)))
    requires var existing := match before case Some(text) => Some(read(text)) case None => None;
             && MergeOf(existing, incoming, key, find).Ok?
             && read(job.combined(before)) == MergeOf(existing, incoming, key, find).value.table
    ensures job.combined(Some(job.combined(before))) == job.combined(before)
  {
    var existing := match before case Some(text) => Some(read(text)) case None => None;
    MergeAgain(existing, incoming, key, find);
  }
}
