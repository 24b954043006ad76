/** Loading rows into a table of an SQLite database. Every statement is one step that may fail; what is not committed
    is lost when it does, or when the run stops. No other connection writes meanwhile. */
module SqlLoad {

  type Row = seq<string>

  datatype Object = Table(rows: seq<Row>) | Other(kind: string)

  type Schema = map<string, Object>

  datatype Mode = CreateDatabase | AddTable | ReplaceTable

  /** `staging` is the name a replacement is loaded under; it is random, so nothing in the database has it. */
  datatype Job = Job(existing: bool, mode: Mode, table: string, staging: string, rows: seq<Row>, original: Schema)

  predicate JobOk(job: Job) {
    job.staging != job.table && job.staging !in job.original && (!job.existing ==> job.original == map[])
  }

  datatype Pc =
    | Opening
    | Looking
    | Starting
    | Creating
    | Inserting
    | Preparing
    | Beginning
    | Dropping
    | Renaming
    | Committing
    | Restoring
    | Counting
    | Failing
    | Done(code: nat)

  /** `work` is what the open transaction sees. */
  datatype State = State(pc: Pc, file: bool, committed: Schema, work: Schema, target: string)

  /** `Go` takes the next statement; `Insert` adds the next row; `Throw` is an exception of the CSV reader, which leaves
      the command without its cleanup. */
  datatype Action = Go | Insert | Fail | Throw | Clean(ok: bool)

  predicate Initial(job: Job, s: State) {
    s == State(Opening, job.existing, job.original, map[], job.table)
  }

  function Loaded(s: State): nat {
    if s.target in s.work && s.work[s.target].Table? then |s.work[s.target].rows| else 0
  }

  predicate Replacing(job: Job, s: State) {
    s.target != job.table
  }

  predicate Enabled(job: Job, s: State, a: Action) {
    match a
    case Go =>
      (match s.pc
       case Creating => s.target !in s.work
       case Inserting => Loaded(s) == |job.rows|
       case Dropping => job.table in s.work
       case Renaming => s.target in s.work && job.table !in s.work
       case Failing => false
       case Done(_) => false
       case _ => true)
    case Insert => s.pc == Inserting && Loaded(s) < |job.rows|
    case Fail => s.pc != Failing && !s.pc.Done?
    case Throw => s.pc in {Starting, Inserting}
    case Clean(_) => s.pc == Failing
  }

  function AfterLook(job: Job, s: State): State {
    if job.table !in s.committed then s.(pc := Starting)
    else if job.mode == AddTable || s.committed[job.table].Other? then s.(pc := Done(1))
    else s.(pc := Starting, target := job.staging)
  }

  function AfterGo(job: Job, s: State): State
    requires Enabled(job, s, Go)
  {
    match s.pc
    case Opening =>
      if job.existing && job.mode == CreateDatabase then s.(pc := Done(1))
      else s.(pc := if job.existing then Looking else Starting, file := true)
    case Looking => AfterLook(job, s)
    case Starting => s.(pc := Creating, work := s.committed)
    case Creating => s.(pc := Inserting, work := s.work[s.target := Table([])])
    case Inserting => s.(pc := if Replacing(job, s) then Preparing else Counting, committed := s.work)
    case Preparing => s.(pc := Beginning)
    case Beginning => s.(pc := Dropping, work := s.committed)
    case Dropping => s.(pc := Renaming, work := s.work - {job.table})
    case Renaming => s.(pc := Committing, work := (s.work - {s.target})[job.table := s.work[s.target]])
    case Committing => s.(pc := Restoring, committed := s.work)
    case Restoring => s.(pc := Counting, target := job.table)
    case Counting => s.(pc := Done(0))
    case _ => s
  }

  function AfterInsert(job: Job, s: State): State
    requires Enabled(job, s, Insert)
  {
    var rows := if s.target in s.work && s.work[s.target].Table? then s.work[s.target].rows else [];
    s.(work := s.work[s.target := Table(rows + [job.rows[|rows|]])])
  }

  /** Cleanup removes a file this run created, or drops the staging table from a database it did not. */
  function AfterClean(job: Job, s: State, ok: bool): State {
    if !ok then s.(pc := Done(1))
    else if !job.existing then s.(pc := Done(1), file := false, committed := map[])
    else if s.target != job.table then s.(pc := Done(1), committed := s.committed - {s.target})
    else s.(pc := Done(1))
  }

  function After(job: Job, s: State, a: Action): State
    requires Enabled(job, s, a)
  {
    match a
    case Go => AfterGo(job, s)
    case Insert => AfterInsert(job, s)
    case Fail => s.(pc := Failing)
    case Throw => s.(pc := Done(2))
    case Clean(ok) => AfterClean(job, s, ok)
  }

  // ----- What every step keeps -----

  function New(job: Job): Object {
    Table(job.rows)
  }

  predicate Untouched(job: Job, s: State) {
    s.committed == job.original
  }

  predicate Staged(job: Job, s: State) {
    s.committed == job.original[job.staging := New(job)]
  }

  predicate Swapped(job: Job, s: State) {
    s.committed == job.original[job.table := New(job)]
  }

  /** A target is the table itself where none was, or the staging table beside one that is. */
  predicate TargetOk(job: Job, s: State) {
    if s.target == job.table then job.table !in job.original
    else s.target == job.staging && job.table in job.original && job.original[job.table].Table?
  }

  predicate WorkOk(job: Job, s: State) {
    match s.pc
    case Creating => s.work == job.original
    case Inserting =>
      Loaded(s) <= |job.rows| && s.work == job.original[s.target := Table(job.rows[..Loaded(s)])]
    case Dropping => s.work == s.committed
    case Renaming => s.work == s.committed - {job.table}
    case Committing => s.work == job.original[job.table := New(job)]
    case _ => true
  }

  predicate CommittedOk(job: Job, s: State) {
    match s.pc
    case Opening => Untouched(job, s) && s.target == job.table
    case Looking => Untouched(job, s) && s.target == job.table
    case Starting => Untouched(job, s) && TargetOk(job, s)
    case Creating => Untouched(job, s) && TargetOk(job, s)
    case Inserting => Untouched(job, s) && TargetOk(job, s)
    case Restoring => Swapped(job, s) && s.target == job.staging
    case Counting => Swapped(job, s) && s.target == job.table
    case Failing => Untouched(job, s) || (Staged(job, s) && s.target == job.staging) || Swapped(job, s)
    case Done(code) =>
      && code <= 2
      && if code == 0 then Swapped(job, s) else Untouched(job, s) || Staged(job, s) || Swapped(job, s)
    case _ => Staged(job, s) && s.target == job.staging && TargetOk(job, s)
  }

  /** The target is one of the two names. */
  predicate Named(job: Job, s: State) {
    s.target == job.table || s.target == job.staging
  }

  /** For a database that was there before. */
  predicate Inv(job: Job, s: State) {
    JobOk(job) && job.existing && s.file && Named(job, s) && WorkOk(job, s) && CommittedOk(job, s)
  }

  lemma {:induction false} InvInit(job: Job, s: State)
    requires JobOk(job) && job.existing && Initial(job, s)
    ensures Inv(job, s)
  {
  }

  /** Dropping the old table and renaming the staging one leaves the rest of the schema as it was. */
  lemma {:induction false} SwapIs(job: Job)
    requires JobOk(job)
    ensures var staged := job.original[job.staging := New(job)];
            (staged - {job.table} - {job.staging})[job.table := New(job)] == job.original[job.table := New(job)]
    ensures job.original[job.staging := New(job)] - {job.staging} == job.original
  {
  }

  lemma {:induction false} InsertKeeps(job: Job, s: State)
    requires Inv(job, s) && Enabled(job, s, Insert)
    ensures Inv(job, AfterInsert(job, s))
  {
    var k := Loaded(s);
    assert s.work[s.target] == Table(job.rows[..k]);
    assert job.rows[..k] + [job.rows[k]] == job.rows[..k + 1];
    var t := AfterInsert(job, s);
    assert t.work == job.original[s.target := Table(job.rows[..k + 1])];
    assert Loaded(t) == k + 1;
  }

  lemma {:induction false} GoKeeps(job: Job, s: State)
    requires Inv(job, s) && Enabled(job, s, Go)
    ensures Inv(job, AfterGo(job, s))
  {
    SwapIs(job);
    match s.pc
    case Creating =>
      assert job.rows[..0] == [];
    case Inserting =>
      assert job.rows[..|job.rows|] == job.rows;
    case _ =>
  }

  lemma {:induction false} CleanKeeps(job: Job, s: State, ok: bool)
    requires Inv(job, s) && Enabled(job, s, Clean(ok))
    ensures Inv(job, AfterClean(job, s, ok))
    ensures ok ==> job.staging !in AfterClean(job, s, ok).committed
  {
    SwapIs(job);
    var swapped := job.original[job.table := New(job)];
    assert swapped - {job.staging} == swapped;
    assert job.original - {job.staging} == job.original;
  }

  lemma {:induction false} InvStep(job: Job, s: State, a: Action)
    requires Inv(job, s) && Enabled(job, s, a)
    ensures Inv(job, After(job, s, a))
  {
    match a
    case Go => GoKeeps(job, s);
    case Insert => InsertKeeps(job, s);
    case Clean(ok) => CleanKeeps(job, s, ok);
    case _ =>
  }

  // ----- Whole runs -----

  predicate IsRun(job: Job, states: seq<State>, actions: seq<Action>) {
    && |states| == |actions| + 1 && Initial(job, states[0])
    && forall i :: 0 <= i < |actions| ==>
         Enabled(job, states[i], actions[i]) && states[i + 1] == After(job, states[i], actions[i])
  }

  lemma {:induction false} RunKeepsInv(job: Job, states: seq<State>, actions: seq<Action>, i: nat)
    requires JobOk(job) && job.existing && IsRun(job, states, actions) && i < |states|
    ensures Inv(job, states[i])
  {
    if i == 0 {
      InvInit(job, states[0]);
    } else {
      RunKeepsInv(job, states, actions, i - 1);
      InvStep(job, states[i - 1], actions[i - 1]);
    }
  }

  /** At every point of every run on an existing database, the named table holds all its old rows or all the new ones;
      everything else in the schema is as it was, and the file is there. */
  lemma {:induction false} TableIsWhole(job: Job, states: seq<State>, actions: seq<Action>, i: nat)
    requires JobOk(job) && job.existing && IsRun(job, states, actions) && i < |states|
    ensures var now := states[i].committed;
            && (job.table in job.original ==> job.table in now)
            && (job.table in now ==>
                  || now[job.table] == New(job)
                  || (job.table in job.original && now[job.table] == job.original[job.table]))
            && (forall name :: name != job.table && name != job.staging ==>
                  (name in now <==> name in job.original) && (name in now ==> now[name] == job.original[name]))
            && states[i].file
  {
    RunKeepsInv(job, states, actions, i);
  }

  /** A run that reports success has put all the new rows in the table. */
  lemma {:induction false} SuccessLoads(job: Job, states: seq<State>, actions: seq<Action>, i: nat)
    requires JobOk(job) && job.existing && IsRun(job, states, actions) && i < |states| && states[i].pc == Done(0)
    ensures states[i].committed == job.original[job.table := New(job)]
  {
    RunKeepsInv(job, states, actions, i);
  }

  /** Without leave to replace it, a table that is there is never touched; an object that is no table never is. */
  lemma {:induction false} RefusedUntouched(job: Job, states: seq<State>, actions: seq<Action>, i: nat)
    requires JobOk(job) && job.existing && IsRun(job, states, actions) && i < |states|
    requires || job.mode == CreateDatabase
             || (job.table in job.original && (job.mode == AddTable || job.original[job.table].Other?))
    ensures states[i].committed == job.original
    ensures states[i].pc in {Opening, Looking, Failing, Done(1)} && states[i].target == job.table
    ensures states[i].pc == Looking ==> job.mode != CreateDatabase
  {
    if i > 0 {
      RefusedUntouched(job, states, actions, i - 1);
      assert Enabled(job, states[i - 1], actions[i - 1]);
    }
  }

  /** The staging table is in the schema only between its load and its renaming. */
  predicate StagingHere(job: Job, s: State) {
    job.staging in s.committed ==>
      s.pc in {Preparing, Beginning, Dropping, Renaming, Committing, Failing}
  }

  /** A finished run leaves no staging table, unless dropping it failed. */
  lemma {:induction false} NoStagingLeft(job: Job, states: seq<State>, actions: seq<Action>, i: nat)
    requires JobOk(job) && job.existing && IsRun(job, states, actions) && i < |states|
    requires forall k :: 0 <= k < i ==> actions[k] != Clean(false)
    ensures StagingHere(job, states[i])
  {
    RunKeepsInv(job, states, actions, i);
    if i > 0 {
      NoStagingLeft(job, states, actions, i - 1);
      RunKeepsInv(job, states, actions, i - 1);
      StagingStep(job, states[i - 1], actions[i - 1]);
    }
  }

  lemma {:induction false} StagingStep(job: Job, s: State, a: Action)
    requires Inv(job, s) && Enabled(job, s, a) && StagingHere(job, s) && a != Clean(false)
    ensures StagingHere(job, After(job, s, a))
  {
    match a
    case Clean(ok) => CleanKeeps(job, s, ok);
    case _ => InvStep(job, s, a);
  }

  // ----- A database this run creates -----

  predicate NewInv(job: Job, s: State) {
    && s.target == job.table && s.pc !in {Looking, Preparing, Beginning, Dropping, Renaming, Committing, Restoring}
    && (s.pc in {Opening, Starting, Creating, Inserting, Done(2)} ==> s.committed == map[])
    && (s.pc == Creating ==> s.work == map[])
    && (s.pc == Inserting ==>
          Loaded(s) <= |job.rows| && s.work == map[job.table := Table(job.rows[..Loaded(s)])])
    && (s.pc in {Counting, Done(0)} ==> s.committed == map[job.table := New(job)])
    && s.committed in {map[], map[job.table := New(job)]}
    && (s.pc.Done? ==> s.pc.code <= 2)
  }

  lemma {:induction false} NewInvStep(job: Job, s: State, a: Action)
    requires JobOk(job) && !job.existing && NewInv(job, s) && Enabled(job, s, a)
    ensures NewInv(job, After(job, s, a))
  {
    if a == Insert {
      var k := Loaded(s);
      assert job.rows[..k] + [job.rows[k]] == job.rows[..k + 1];
    } else if a == Go && s.pc == Inserting {
      assert job.rows[..|job.rows|] == job.rows;
    }
  }

  /** One of the first `i` actions was this one. */
  predicate Took(actions: seq<Action>, i: nat, a: Action)
    requires i <= |actions|
  {
    exists k :: 0 <= k < i && actions[k] == a
  }

  lemma {:induction false} TookOneMore(actions: seq<Action>, i: nat, a: Action)
    requires i < |actions|
    ensures Took(actions, i + 1, a) <==> Took(actions, i, a) || actions[i] == a
  {
    if Took(actions, i, a) {
      var k :| 0 <= k < i && actions[k] == a;
      assert actions[k] == a && k < i + 1;
    }
    if actions[i] == a {
      assert i < i + 1;
    }
  }

  /** Where the file stands, by what the run did: `begun` says that it got past opening the database. */
  predicate FileAs(s: State, begun: bool, threw: bool, kept: bool) {
    match s.pc
    case Opening => !s.file && !begun && !threw && !kept
    case Failing => s.file == begun && !threw && !kept
    case Done(code) => s.file == (code == 0 || threw || (begun && kept)) && threw == (code == 2)
    case _ => s.file && begun && !threw && !kept
  }

  lemma {:induction false} FileStep(job: Job, s: State, a: Action, begun: bool, threw: bool, kept: bool)
    requires JobOk(job) && !job.existing && NewInv(job, s) && Enabled(job, s, a) && FileAs(s, begun, threw, kept)
    ensures FileAs(After(job, s, a), begun || a == Go, threw || a == Throw, kept || a == Clean(false))
  {
  }

  lemma {:induction false} NewRun(job: Job, states: seq<State>, actions: seq<Action>, i: nat)
    requires JobOk(job) && !job.existing && IsRun(job, states, actions) && i < |states|
    ensures NewInv(job, states[i])
    ensures FileAs(states[i], Took(actions, i, Go), Took(actions, i, Throw), Took(actions, i, Clean(false)))
  {
    if i > 0 {
      NewRun(job, states, actions, i - 1);
      NewInvStep(job, states[i - 1], actions[i - 1]);
      FileStep(job, states[i - 1], actions[i - 1],
               Took(actions, i - 1, Go), Took(actions, i - 1, Throw), Took(actions, i - 1, Clean(false)));
      TookOneMore(actions, i - 1, Go);
      TookOneMore(actions, i - 1, Throw);
      TookOneMore(actions, i - 1, Clean(false));
    }
  }

  /** The file of a new database is there after a run precisely when the run succeeded, the reader threw, or removing
      the file it had created failed. On success it holds just the table with all its rows, after a throw no table, and
      otherwise one of the two. */
  lemma {:induction false} NewDatabase(job: Job, states: seq<State>, actions: seq<Action>, i: nat)
    requires JobOk(job) && !job.existing && IsRun(job, states, actions) && i < |states| && states[i].pc.Done?
    ensures states[i].file <==>
            states[i].pc == Done(0) || Took(actions, i, Throw)
            || (Took(actions, i, Go) && Took(actions, i, Clean(false)))
    ensures Took(actions, i, Throw) <==> states[i].pc == Done(2)
    ensures states[i].pc == Done(0) ==> states[i].committed == map[job.table := New(job)]
    ensures states[i].pc == Done(2) ==> states[i].committed == map[]
    ensures states[i].committed in {map[], map[job.table := New(job)]}
  {
    NewRun(job, states, actions, i);
  }

  /** For every load into a new database there is a run that fails and leaves a file without the table behind: the
      reader throws once the database is open. */
  lemma {:induction false} ThrowLeavesFile(job: Job) returns (states: seq<State>, actions: seq<Action>)
    requires JobOk(job) && !job.existing
    ensures IsRun(job, states, actions) && actions == [Go, Throw]
    ensures states[2] == State(Done(2), true, map[], map[], job.table)
  {
    actions := [Go, Throw];
    var s0 := State(Opening, false, map[], map[], job.table);
    var s1 := AfterGo(job, s0);
    states := [s0, s1, After(job, s1, Throw)];
  }

  // ----- How runs end -----

  /** What is not loaded even where nothing fails: into a database that should be new, into a table without leave to
      replace it, and into an object that is no table. */
  predicate Refused(job: Job) {
    job.existing
    && (job.mode == CreateDatabase
        || (job.table in job.original && (job.mode == AddTable || job.original[job.table].Other?)))
  }

  predicate EndsAs(job: Job, s: State, failed: bool, threw: bool) {
    match s.pc
    case Opening => !failed && !threw
    case Looking => !failed && !threw && job.existing && job.mode != CreateDatabase
    case Failing => failed && !threw
    case Done(code) => code == (if threw then 2 else if failed || Refused(job) then 1 else 0)
    case _ => !failed && !threw && !Refused(job)
  }

  lemma {:induction false} EndStep(job: Job, s: State, a: Action, failed: bool, threw: bool)
    requires Enabled(job, s, a) && EndsAs(job, s, failed, threw) && (s.pc == Looking ==> s.committed == job.original)
    ensures EndsAs(job, After(job, s, a), failed || a == Fail, threw || a == Throw)
  {
  }

  lemma {:induction false} RunEndsAs(job: Job, states: seq<State>, actions: seq<Action>, i: nat)
    requires JobOk(job) && IsRun(job, states, actions) && i < |states|
    ensures EndsAs(job, states[i], Took(actions, i, Fail), Took(actions, i, Throw))
  {
    if i > 0 {
      RunEndsAs(job, states, actions, i - 1);
      if states[i - 1].pc == Looking { RunKeepsInv(job, states, actions, i - 1); }
      EndStep(job, states[i - 1], actions[i - 1], Took(actions, i - 1, Fail), Took(actions, i - 1, Throw));
      TookOneMore(actions, i - 1, Fail);
      TookOneMore(actions, i - 1, Throw);
    }
  }

  /** A load that is over has succeeded precisely when no statement failed, the reader did not throw, and the load is
      not one that is refused; then the named table holds all the rows and the rest is as it was. A failure code without
      any failure means a refusal. */
  lemma {:induction false} LoadSucceeds(job: Job, states: seq<State>, actions: seq<Action>, i: nat)
    requires JobOk(job) && IsRun(job, states, actions) && i < |states| && states[i].pc.Done?
    ensures states[i].pc == Done(0) <==> !Took(actions, i, Fail) && !Took(actions, i, Throw) && !Refused(job)
    ensures states[i].pc == Done(1) <==> (Took(actions, i, Fail) || Refused(job)) && !Took(actions, i, Throw)
    ensures states[i].pc == Done(0) ==> states[i].committed == job.original[job.table := New(job)]
  {
    RunEndsAs(job, states, actions, i);
    if job.existing {
      RunKeepsInv(job, states, actions, i);
    } else {
      NewRun(job, states, actions, i);
    }
  }

  // ----- Runs end -----

  /** The steps a run can still take. */
  function StepsLeft(job: Job, s: State): nat {
    var n := |job.rows|;
    match s.pc
    case Opening => n + 13
    case Looking => n + 12
    case Starting => n + 11
    case Creating => n + 10
    case Inserting => if Loaded(s) <= n then n - Loaded(s) + 9 else 9
    case Preparing => 8
    case Beginning => 7
    case Dropping => 6
    case Renaming => 5
    case Committing => 4
    case Restoring => 3
    case Counting => 2
    case Failing => 1
    case Done(_) => 0
  }

  lemma {:induction false} StepsLeftDecreases(job: Job, s: State, a: Action)
    requires Enabled(job, s, a)
    ensures StepsLeft(job, After(job, s, a)) < StepsLeft(job, s)
  {
  }

  /** Every run ends, within a number of steps that depends on the rows only. */
  lemma {:induction false} RunEnds(job: Job, states: seq<State>, actions: seq<Action>)
    requires IsRun(job, states, actions)
    ensures |actions| + StepsLeft(job, states[|actions|]) <= |job.rows| + 13
  {
    if actions != [] {
      var n := |actions| - 1;
      RunEnds(job, states[..n + 1], actions[..n]);
      StepsLeftDecreases(job, states[n], actions[n]);
    }
  }

  /** The next statement of a load can always be taken: where nothing fails, the load goes on until it is done. */
  lemma {:induction false} NeverStuck(job: Job, states: seq<State>, actions: seq<Action>, i: nat)
    requires JobOk(job) && IsRun(job, states, actions) && i < |states|
    requires !states[i].pc.Done? && states[i].pc != Failing
    ensures Enabled(job, states[i], Go) || Enabled(job, states[i], Insert)
  {
    if job.existing {
      RunKeepsInv(job, states, actions, i);
    } else {
      NewRun(job, states, actions, i);
    }
  }
}
