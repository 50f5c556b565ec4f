/** How the router, the enrichment consumer, the reprocess jobs and the staging drains interleave for one
    user, one database statement or broker operation at a time, with crashes. Transactions appear by id. */
module PipelineProtocol {
  import opened Common

  /** Where a reprocess job stands. `snap` is the id list of its backup. */
  datatype Phase =
    | Submitted
    | AwaitingAdvisory
    | Acquired
    | Snapshotted(snap: set<Id>)
    | RowsRead(snap: set<Id>, events: seq<Id>)
    | Replaying(snap: set<Id>, pending: seq<Id>, total: nat)
    | CatchingUp(snap: set<Id>, total: nat, polls: nat)
    | Verifying(snap: set<Id>)
    | Restoring(snap: set<Id>)
    | Releasing(success: bool)

  /** A drain works through the rows it selected; `published` says whether the first of them is out. */
  datatype Drain = Drain(rows: seq<(Id, Id)>, published: bool)

  datatype Routing = Routing(id: Id, stage: bool)

  datatype State = State(
    known: set<Id>,            // every id ever routed
    tx: set<Id>,               // the transactions table
    topic: seq<Id>,            // unconsumed messages
    headStored: bool,          // the first message is stored but its offset not committed
    staging: map<Id, Id>,      // staged row -> transaction
    nextStaged: Id,
    locked: bool,              // the lock row
    advisory: Option<Id>,      // the job holding the advisory lock
    jobs: map<Id, Phase>,
    nextJob: Id,
    drains: map<Id, Drain>,
    backups: seq<set<Id>>,
    router: Option<Routing>,
    crashed: bool)             // some job died between its delete and its release

  const INIT := State({}, {}, [], false, map[], 0, false, None, map[], 0, map[], [], None, false)

  datatype Label =
    | RouteCheck(id: Id)            // lock check
    | RouteAct                      // stage or publish
    | RouterCrash
    | Store                         // insert the first message's row
    | Commit                        // commit its offset
    | ConsumerCrash
    | Trigger                       // insert the lock row and submit a job, atomically
    | StartManually                 // a job nobody inserted a lock row for
    | ClearLock                     // an administrator deletes the lock row
    | CheckLock(j: Id)
    | Acquire(j: Id)
    | Snapshot(j: Id)
    | ReadRows(j: Id, events: seq<Id>)
    | Delete(j: Id)
    | Publish(j: Id)
    | PublishDone(j: Id)
    | Poll(j: Id)
    | TimeOut(j: Id)
    | Verify(j: Id)
    | Fault(j: Id)                  // any exception in the recovery zone
    | Restore(j: Id)
    | Release(j: Id)
    | Die(j: Id)                    // the job's process dies; its session's advisory lock goes with it
    | DrainStart(d: Id, rows: seq<(Id, Id)>)
    | DrainPublish(d: Id)
    | DrainDelete(d: Id)
    | DrainStop(d: Id)

  function Ids(s: seq<Id>): set<Id> {
    set x | x in s
  }

  /** After its delete and before its outcome a job answers for its snapshot. */
  predicate Answers(p: Phase) {
    p.Replaying? || p.CatchingUp? || p.Verifying? || p.Restoring?
  }

  predicate Critical(p: Phase) {
    !p.Submitted? && !p.AwaitingAdvisory?
  }

  predicate Enabled(s: State, l: Label) {
    match l
    case RouteCheck(_) => s.router.None?
    case RouteAct | RouterCrash => s.router.Some?
    case Store => s.topic != [] && !s.headStored
    case Commit | ConsumerCrash => s.headStored && s.topic != []
    case Trigger => !s.locked
    case StartManually | ClearLock => true
    case CheckLock(j) => j in s.jobs && s.jobs[j].Submitted?
    case Acquire(j) => j in s.jobs && s.jobs[j].AwaitingAdvisory? && s.advisory.None?
    case Snapshot(j) => j in s.jobs && s.jobs[j].Acquired?
    case ReadRows(j, events) => j in s.jobs && s.jobs[j].Snapshotted? && Ids(events) == s.tx && |events| == |s.tx|
    case Delete(j) => j in s.jobs && s.jobs[j].RowsRead?
    case Publish(j) => j in s.jobs && s.jobs[j].Replaying? && s.jobs[j].pending != []
    case PublishDone(j) => j in s.jobs && s.jobs[j].Replaying? && s.jobs[j].pending == []
    case Poll(j) => j in s.jobs && s.jobs[j].CatchingUp? && s.jobs[j].polls < MAX_POLLS
    case TimeOut(j) => j in s.jobs && s.jobs[j].CatchingUp? && s.jobs[j].polls == MAX_POLLS
    case Verify(j) => j in s.jobs && s.jobs[j].Verifying?
    case Fault(j) => j in s.jobs && Answers(s.jobs[j]) && !s.jobs[j].Restoring?
    case Restore(j) => j in s.jobs && s.jobs[j].Restoring? && s.backups != []
    case Release(j) => j in s.jobs && s.jobs[j].Releasing?
    case Die(j) => j in s.jobs
    case DrainStart(d, rows) =>
      d !in s.drains && forall r :: r in rows ==> r.0 in s.staging && s.staging[r.0] == r.1
    case DrainPublish(d) => d in s.drains && s.drains[d].rows != [] && !s.drains[d].published
    case DrainDelete(d) => d in s.drains && s.drains[d].rows != [] && s.drains[d].published
    case DrainStop(d) => d in s.drains
  }

  function At(s: State, j: Id, p: Phase): State {
    s.(jobs := s.jobs[j := p])
  }

  /** The router, the enrichment consumer and the operators. */
  function ApplyMessage(s: State, l: Label): (t: State)
    requires Enabled(s, l)
    ensures t.drains == s.drains && t.backups == s.backups && t.advisory == s.advisory && t.crashed == s.crashed
  {
    match l
    case RouteCheck(id) => s.(router := Some(Routing(id, s.locked)))
    case RouteAct =>
      var r := s.router.value;
      var t := s.(known := s.known + {r.id}, router := None);
      if r.stage then t.(staging := s.staging[s.nextStaged := r.id], nextStaged := s.nextStaged + 1)
      else t.(topic := s.topic + [r.id])
    case RouterCrash => s.(router := None)
    case Store => s.(tx := s.tx + {s.topic[0]}, headStored := true)
    case Commit => s.(topic := s.topic[1..], headStored := false)
    case ConsumerCrash => s.(headStored := false)
    case Trigger => s.(locked := true, jobs := s.jobs[s.nextJob := Submitted], nextJob := s.nextJob + 1)
    case StartManually => s.(jobs := s.jobs[s.nextJob := Submitted], nextJob := s.nextJob + 1)
    case ClearLock => s.(locked := false)
    case _ => s
  }

  /** The reprocess job. */
  function ApplyJob(s: State, l: Label): (t: State)
    requires Enabled(s, l)
    ensures t.drains == s.drains && t.staging == s.staging && t.nextStaged == s.nextStaged && t.router == s.router
    ensures t.known == s.known && t.nextJob == s.nextJob && t.headStored == s.headStored
  {
    match l
    case CheckLock(j) => if s.locked then At(s, j, AwaitingAdvisory) else s.(jobs := s.jobs - {j})
    case Acquire(j) => At(s, j, Acquired).(advisory := Some(j))
    case Snapshot(j) => At(s, j, Snapshotted(s.tx)).(backups := s.backups + [s.tx])
    case ReadRows(j, events) => At(s, j, RowsRead(s.jobs[j].snap, events))
    case Delete(j) => At(s, j, Replaying(s.jobs[j].snap, s.jobs[j].events, |s.jobs[j].events|)).(tx := {})
    case Publish(j) =>
      var p := s.jobs[j];
      At(s, j, p.(pending := p.pending[1..])).(topic := s.topic + [p.pending[0]])
    case PublishDone(j) =>
      var p := s.jobs[j];
      At(s, j, if p.total == 0 then Verifying(p.snap) else CatchingUp(p.snap, p.total, 0))
    case Poll(j) =>
      var p := s.jobs[j];
      At(s, j, if |s.tx| >= p.total then Verifying(p.snap) else p.(polls := p.polls + 1))
    case TimeOut(j) => At(s, j, Restoring(s.jobs[j].snap))
    case Verify(j) => At(s, j, if s.jobs[j].snap <= s.tx then Releasing(true) else Restoring(s.jobs[j].snap))
    case Fault(j) => At(s, j, Restoring(s.jobs[j].snap))
    case Restore(j) => At(s, j, Releasing(false)).(tx := s.tx + s.backups[|s.backups| - 1])
    case Release(j) => s.(locked := false, advisory := None, jobs := s.jobs - {j})
    case Die(j) =>
      s.(jobs := s.jobs - {j},
         advisory := if s.advisory == Some(j) then None else s.advisory,
         crashed := s.crashed || Answers(s.jobs[j]))
    case _ => s
  }

  /** The staging drains. */
  function ApplyDrain(s: State, l: Label): (t: State)
    requires Enabled(s, l)
    ensures t.jobs == s.jobs && t.advisory == s.advisory && t.nextJob == s.nextJob && t.locked == s.locked
    ensures t.tx == s.tx && t.backups == s.backups && t.known == s.known && t.router == s.router
            && t.headStored == s.headStored
  {
    match l
    case DrainStart(d, rows) => s.(drains := s.drains[d := Drain(rows, false)])
    case DrainPublish(d) =>
      s.(topic := s.topic + [s.drains[d].rows[0].1], drains := s.drains[d := s.drains[d].(published := true)])
    case DrainDelete(d) =>
      s.(staging := s.staging - {s.drains[d].rows[0].0}, drains := s.drains[d := Drain(s.drains[d].rows[1..], false)])
    case DrainStop(d) => s.(drains := s.drains - {d})
    case _ => s
  }

  /** The labels of a job's own steps. */
  function JobOf(l: Label): Option<Id> {
    match l
    case CheckLock(j) => Some(j)
    case Acquire(j) => Some(j)
    case Snapshot(j) => Some(j)
    case ReadRows(j, _) => Some(j)
    case Delete(j) => Some(j)
    case Publish(j) => Some(j)
    case PublishDone(j) => Some(j)
    case Poll(j) => Some(j)
    case TimeOut(j) => Some(j)
    case Verify(j) => Some(j)
    case Fault(j) => Some(j)
    case Restore(j) => Some(j)
    case Release(j) => Some(j)
    case Die(j) => Some(j)
    case _ => None
  }

  function DrainOf(l: Label): Option<Id> {
    match l
    case DrainStart(d, _) => Some(d)
    case DrainPublish(d) => Some(d)
    case DrainDelete(d) => Some(d)
    case DrainStop(d) => Some(d)
    case _ => None
  }

  function Apply(s: State, l: Label): State
    requires Enabled(s, l)
  {
    if JobOf(l).Some? then ApplyJob(s, l) else if DrainOf(l).Some? then ApplyDrain(s, l) else ApplyMessage(s, l)
  }

  /** A run: states linked by labelled steps, from the initial state. */
  ghost predicate Run(states: seq<State>, labels: seq<Label>) {
    && |states| == |labels| + 1
    && states[0] == INIT
    && forall i :: 0 <= i < |labels| ==> Enabled(states[i], labels[i]) && states[i + 1] == Apply(states[i], labels[i])
  }

  // ---------------------------------------------------------------- mutual exclusion

  /** The advisory lock is held exactly by the job between its acquisition and its release. */
  ghost predicate Mutex(s: State) {
    && (s.advisory.Some? ==> s.advisory.value in s.jobs)
    && (forall j :: j in s.jobs ==> (Critical(s.jobs[j]) <==> s.advisory == Some(j)))
    && (forall j :: j in s.jobs ==> j < s.nextJob)
  }

  /** A job's step leaves the other jobs where they were; it stays outside or inside the critical zone unless
      it acquires, releases or dies. */
  lemma JobStepIsLocal(s: State, l: Label, j: Id)
    requires Enabled(s, l) && JobOf(l) == Some(j)
    ensures j in s.jobs
    ensures var t := Apply(s, l);
            && t.nextJob == s.nextJob && t.jobs - {j} == s.jobs - {j}
            && (j in t.jobs ==> l.Acquire? || (Critical(t.jobs[j]) <==> Critical(s.jobs[j])))
            && (j !in t.jobs ==> l.CheckLock? || l.Release? || l.Die?)
            && t.advisory == (if l.Acquire? then Some(j)
                              else if l.Release? || (l.Die? && s.advisory == Some(j)) then None
                              else s.advisory)
  {
    assert Apply(s, l).jobs - {j} == s.jobs - {j};
  }

  lemma OtherStepKeepsJobs(s: State, l: Label)
    requires Enabled(s, l) && JobOf(l).None?
    ensures Apply(s, l).jobs == if l.Trigger? || l.StartManually? then s.jobs[s.nextJob := Submitted] else s.jobs
  {
    if DrainOf(l).Some? { assert Apply(s, l) == ApplyDrain(s, l); } else { assert Apply(s, l) == ApplyMessage(s, l); }
  }

  lemma OtherStepKeepsAdvisory(s: State, l: Label)
    requires Enabled(s, l) && JobOf(l).None?
    ensures Apply(s, l).advisory == s.advisory
    ensures Apply(s, l).nextJob == if l.Trigger? || l.StartManually? then s.nextJob + 1 else s.nextJob
  {
    if DrainOf(l).Some? { assert Apply(s, l) == ApplyDrain(s, l); } else { assert Apply(s, l) == ApplyMessage(s, l); }
  }

  lemma StepKeepsMutex(s: State, l: Label)
    requires Mutex(s) && Enabled(s, l)
    ensures Mutex(Apply(s, l))
  {
    var t := Apply(s, l);
    if JobOf(l).Some? {
      var j := JobOf(l).value;
      JobStepIsLocal(s, l, j);
      forall k | k in t.jobs && k != j ensures k in s.jobs && t.jobs[k] == s.jobs[k] {
        assert k in t.jobs - {j};
        assert k in s.jobs - {j} && (t.jobs - {j})[k] == (s.jobs - {j})[k];
      }
      forall k | k in s.jobs && k != j ensures k in t.jobs {
        assert k in s.jobs - {j};
        assert k in t.jobs - {j};
      }
    } else {
      OtherStepKeepsJobs(s, l);
      OtherStepKeepsAdvisory(s, l);
    }
  }

  /** At most one job is between its acquisition and its release, in every state of every run. */
  lemma {:induction false} AtMostOneCriticalJob(states: seq<State>, labels: seq<Label>, i: nat)
    requires Run(states, labels) && i < |states|
    ensures Mutex(states[i])
    ensures forall a, b :: (&& a in states[i].jobs && Critical(states[i].jobs[a])
                            && b in states[i].jobs && Critical(states[i].jobs[b])) ==> a == b
  {
    if i > 0 {
      AtMostOneCriticalJob(states, labels, i - 1);
      StepKeepsMutex(states[i - 1], labels[i - 1]);
    }
  }

  /** Every job was started by a trigger, and nobody clears lock rows by hand. */
  ghost predicate DispatcherOnly(labels: seq<Label>) {
    forall i :: 0 <= i < |labels| ==> !labels[i].StartManually? && !labels[i].ClearLock?
  }

  ghost predicate LockAccompaniesJob(s: State) {
    && (forall a, b :: a in s.jobs && b in s.jobs ==> a == b)
    && (s.jobs != map[] ==> s.locked)
  }

  lemma StepKeepsLock(s: State, l: Label)
    requires LockAccompaniesJob(s) && Enabled(s, l) && !l.StartManually? && !l.ClearLock?
    ensures LockAccompaniesJob(Apply(s, l))
  {
    if JobOf(l).Some? { assert Apply(s, l) == ApplyJob(s, l); }
  }

  /** With dispatcher-started jobs only, there is at most one job at a time and its lock row is present from
      submission to release. */
  lemma {:induction false} LockPresentThroughout(states: seq<State>, labels: seq<Label>, i: nat)
    requires Run(states, labels) && DispatcherOnly(labels) && i < |states|
    ensures LockAccompaniesJob(states[i])
  {
    if i > 0 {
      LockPresentThroughout(states, labels, i - 1);
      StepKeepsLock(states[i - 1], labels[i - 1]);
    }
  }

  /** A job died somewhere in the first n steps. */
  ghost predicate SomeJobDied(labels: seq<Label>, n: nat)
    requires n <= |labels|
  {
    exists k :: 0 <= k < n && labels[k].Die?
  }

  /** A lone job's lock row goes with its release, and with nothing else. */
  lemma LockStep(s: State, l: Label)
    requires Mutex(s) && LockAccompaniesJob(s) && Enabled(s, l) && !l.StartManually? && !l.ClearLock? && !l.Die?
    requires s.locked <==> s.jobs != map[]
    ensures var t := Apply(s, l); t.locked <==> t.jobs != map[]
  {
    var t := Apply(s, l);
    if JobOf(l).Some? {
      assert t == ApplyJob(s, l);
      var j := JobOf(l).value;
      assert forall k :: k in s.jobs ==> k == j;
      assert j in t.jobs || t.jobs == map[];
    } else {
      OtherStepKeepsJobs(s, l);
      if DrainOf(l).Some? { assert t == ApplyDrain(s, l); } else { assert t == ApplyMessage(s, l); }
      assert l.Trigger? ==> s.nextJob in t.jobs;
    }
  }

  /** A lock row without a job stays: nothing is triggered and nothing released any more. */
  lemma OrphanLockStep(s: State, l: Label)
    requires s.locked && s.jobs == map[] && Enabled(s, l) && !l.StartManually? && !l.ClearLock?
    ensures var t := Apply(s, l); t.locked && t.jobs == map[]
  {
    if DrainOf(l).Some? { assert Apply(s, l) == ApplyDrain(s, l); }
  }

  lemma DeathOrphansLock(s: State, j: Id)
    requires LockAccompaniesJob(s) && Enabled(s, Die(j))
    ensures var t := Apply(s, Die(j)); t.locked && t.jobs == map[]
  {
    assert Apply(s, Die(j)) == ApplyJob(s, Die(j));
    assert forall k :: k in s.jobs ==> k == j;
  }

  /** With dispatcher-started jobs only, the lock row is there exactly while a job is, until a job dies; from then
      on it is there for good, without a job. */
  lemma {:induction false} LockOutlivesJobIffDied(states: seq<State>, labels: seq<Label>, i: nat)
    requires Run(states, labels) && DispatcherOnly(labels) && i < |states|
    ensures states[i].locked <==> states[i].jobs != map[] || SomeJobDied(labels, i)
    ensures SomeJobDied(labels, i) ==> states[i].locked && states[i].jobs == map[]
  {
    if i > 0 {
      var s, l := states[i - 1], labels[i - 1];
      LockOutlivesJobIffDied(states, labels, i - 1);
      LockPresentThroughout(states, labels, i - 1);
      AtMostOneCriticalJob(states, labels, i - 1);
      assert SomeJobDied(labels, i) <==> SomeJobDied(labels, i - 1) || l.Die?;
      if SomeJobDied(labels, i - 1) {
        OrphanLockStep(s, l);
      } else if l.Die? {
        DeathOrphansLock(s, l.j);
      } else {
        LockStep(s, l);
      }
    }
  }

  // ---------------------------------------------------------------- well-formed states

  /** A job between its backup and its outcome finds its own backup as the latest one. */
  ghost predicate JobOk(s: State, p: Phase) {
    p.Snapshotted? || p.RowsRead? || Answers(p) ==> s.backups != [] && s.backups[|s.backups| - 1] == p.snap
  }

  ghost predicate DrainOk(s: State, d: Drain) {
    && (d.published ==> d.rows != [])
    && forall r :: r in d.rows ==> r.0 < s.nextStaged && (r.0 in s.staging ==> s.staging[r.0] == r.1)
  }

  ghost predicate WellFormed(s: State) {
    && Mutex(s)
    && (forall j :: j in s.jobs ==> JobOk(s, s.jobs[j]))
    && (forall r :: r in s.staging ==> r < s.nextStaged)
    && (s.headStored ==> s.topic != [])
    && (forall d :: d in s.drains ==> DrainOk(s, s.drains[d]))
  }

  lemma StepKeepsJobOk(s: State, l: Label, j: Id)
    requires WellFormed(s) && Enabled(s, l) && j in Apply(s, l).jobs
    ensures JobOk(Apply(s, l), Apply(s, l).jobs[j])
  {
    var t := Apply(s, l);
    if JobOf(l).Some? && JobOf(l) != Some(j) {
      JobStepIsLocal(s, l, JobOf(l).value);
      assert j in t.jobs - {JobOf(l).value};
      assert j in s.jobs && t.jobs[j] == s.jobs[j];
      assert JobOk(s, s.jobs[j]);
    } else if JobOf(l).None? {
      OtherStepKeepsJobs(s, l);
      if j in s.jobs { assert JobOk(s, s.jobs[j]); }
    } else {
      OwnStepKeepsJobOk(s, l, j);
    }
  }

  lemma OwnStepKeepsJobOk(s: State, l: Label, j: Id)
    requires Enabled(s, l) && JobOf(l) == Some(j) && j in s.jobs && JobOk(s, s.jobs[j]) && j in Apply(s, l).jobs
    ensures JobOk(Apply(s, l), Apply(s, l).jobs[j])
  {
    assert Apply(s, l) == ApplyJob(s, l);
  }

  /** Staged rows get fresh keys and never change. */
  lemma StagingStep(s: State, l: Label, r: Id)
    requires Enabled(s, l) && r in Apply(s, l).staging
    ensures s.nextStaged <= Apply(s, l).nextStaged
    ensures || (r in s.staging && Apply(s, l).staging[r] == s.staging[r])
            || (r == s.nextStaged && r < Apply(s, l).nextStaged && l.RouteAct?
                && Apply(s, l).staging[r] == s.router.value.id)
  {
    if JobOf(l).None? && DrainOf(l).None? {
      assert Apply(s, l) == ApplyMessage(s, l);
    }
  }

  lemma StagingKeysGrow(s: State, l: Label)
    requires Enabled(s, l)
    ensures s.nextStaged <= Apply(s, l).nextStaged
  {
    if DrainOf(l).Some? { assert Apply(s, l) == ApplyDrain(s, l); }
  }

  /** A drain step works on rows its drain had, or on rows it reads from the table. */
  lemma DrainMembers(s: State, l: Label, d: Id, r: (Id, Id))
    requires Enabled(s, l) && d in Apply(s, l).drains && r in Apply(s, l).drains[d].rows
    ensures (d in s.drains && r in s.drains[d].rows) || (r.0 in s.staging && s.staging[r.0] == r.1)
  {
    if DrainOf(l).Some? { assert Apply(s, l) == ApplyDrain(s, l); }
  }

  lemma PublishedHasHead(s: State, l: Label, d: Id)
    requires WellFormed(s) && Enabled(s, l) && d in Apply(s, l).drains && Apply(s, l).drains[d].published
    ensures Apply(s, l).drains[d].rows != []
  {
    if d in s.drains { assert DrainOk(s, s.drains[d]); }
    if DrainOf(l).Some? { assert Apply(s, l) == ApplyDrain(s, l); }
  }

  lemma StepKeepsDrainOk(s: State, l: Label, d: Id)
    requires WellFormed(s) && Enabled(s, l) && d in Apply(s, l).drains
    ensures DrainOk(Apply(s, l), Apply(s, l).drains[d])
  {
    var t := Apply(s, l);
    StagingKeysGrow(s, l);
    if t.drains[d].published { PublishedHasHead(s, l, d); }
    forall r | r in t.drains[d].rows ensures r.0 < t.nextStaged && (r.0 in t.staging ==> t.staging[r.0] == r.1) {
      DrainMembers(s, l, d, r);
      if d in s.drains && r in s.drains[d].rows { assert DrainOk(s, s.drains[d]); }
      if r.0 in t.staging { StagingStep(s, l, r.0); }
    }
  }

  lemma HeadStays(s: State, l: Label)
    requires Enabled(s, l) && (s.headStored ==> s.topic != [])
    ensures Apply(s, l).headStored ==> Apply(s, l).topic != []
  {
    if JobOf(l).Some? {
      assert Apply(s, l) == ApplyJob(s, l);
    } else if DrainOf(l).Some? {
      assert Apply(s, l) == ApplyDrain(s, l);
    }
  }

  lemma StepKeepsWellFormed(s: State, l: Label)
    requires WellFormed(s) && Enabled(s, l)
    ensures WellFormed(Apply(s, l))
  {
    var t := Apply(s, l);
    StepKeepsMutex(s, l);
    forall j | j in t.jobs ensures JobOk(t, t.jobs[j]) { StepKeepsJobOk(s, l, j); }
    forall d | d in t.drains ensures DrainOk(t, t.drains[d]) { StepKeepsDrainOk(s, l, d); }
    forall r | r in t.staging ensures r < t.nextStaged { StagingStep(s, l, r); }
    HeadStays(s, l);
  }

  lemma {:induction false} RunsAreWellFormed(states: seq<State>, labels: seq<Label>, i: nat)
    requires Run(states, labels) && i < |states|
    ensures WellFormed(states[i])
  {
    if i > 0 {
      RunsAreWellFormed(states, labels, i - 1);
      StepKeepsWellFormed(states[i - 1], labels[i - 1]);
    }
  }

  // ---------------------------------------------------------------- no transaction is lost

  /** A job that has deleted the rows has the id in its backup, which is the one it would restore. */
  ghost predicate Held(s: State, id: Id) {
    exists j :: j in s.jobs && Answers(s.jobs[j]) && id in s.jobs[j].snap
  }

  ghost predicate InBackup(s: State, id: Id) {
    exists i :: 0 <= i < |s.backups| && id in s.backups[i]
  }

  ghost predicate Staged(s: State, id: Id) {
    exists r :: r in s.staging && s.staging[r] == id
  }

  /** The messages the consumer still has to act on: a stored head is only waiting for its commit. */
  function Unstored(s: State): seq<Id> {
    if s.headStored && s.topic != [] then s.topic[1..] else s.topic
  }

  /** A drain has published the row and is about to delete it. */
  ghost predicate Spent(s: State, r: Id) {
    exists d :: d in s.drains && s.drains[d].published && s.drains[d].rows != [] && s.drains[d].rows[0].0 == r
  }

  /** The id will be inserted again whatever is deleted now: its message is not yet acted on, or its staged row
      is not yet published. */
  ghost predicate OnItsWay(s: State, id: Id) {
    || id in Unstored(s)
    || exists r :: r in s.staging && s.staging[r] == id && !Spent(s, r)
  }

  /** Stored, on its way, answered for by a job, or, once a job has crashed, in a backup. */
  ghost predicate Safe(s: State, id: Id) {
    id in s.tx || OnItsWay(s, id) || Held(s, id) || (s.crashed && InBackup(s, id))
  }

  ghost predicate NothingLost(s: State) {
    forall id :: id in s.known ==> Safe(s, id)
  }

  /** What to check before the delete: every row that the backup misses is on its way again. */
  ghost predicate DeleteGuard(s: State, j: Id)
    requires Enabled(s, Delete(j))
  {
    forall id :: id in s.tx && id !in s.jobs[j].snap ==> OnItsWay(s, id) || (s.crashed && InBackup(s, id))
  }

  ghost predicate GuardedDeletes(states: seq<State>, labels: seq<Label>, n: nat)
    requires Run(states, labels) && n <= |labels|
  {
    forall i :: 0 <= i < n && labels[i].Delete? ==> DeleteGuard(states[i], labels[i].j)
  }

  lemma HeldStays(s: State, l: Label, id: Id, k: Id)
    requires WellFormed(s) && Enabled(s, l)
    requires k in s.jobs && Answers(s.jobs[k]) && id in s.jobs[k].snap
    ensures var t := Apply(s, l); id in t.tx || Held(t, id) || (t.crashed && InBackup(t, id))
  {
    var t := Apply(s, l);
    assert JobOk(s, s.jobs[k]);
    if JobOf(l) == Some(k) {
      OwnStepHolds(s, l, id);
    } else if JobOf(l).Some? {
      JobStepIsLocal(s, l, JobOf(l).value);
      assert k in s.jobs - {JobOf(l).value};
      assert k in t.jobs && t.jobs[k] == s.jobs[k];
    } else {
      OtherStepKeepsJobs(s, l);
      assert k in t.jobs && t.jobs[k] == s.jobs[k];
    }
  }

  lemma OwnStepHolds(s: State, l: Label, id: Id)
    requires Enabled(s, l) && JobOf(l).Some?
    requires var k := JobOf(l).value; k in s.jobs && Answers(s.jobs[k]) && JobOk(s, s.jobs[k]) && id in s.jobs[k].snap
    ensures var t := Apply(s, l); id in t.tx || Held(t, id) || (t.crashed && InBackup(t, id))
  {
    var k, t := JobOf(l).value, Apply(s, l);
    assert t == ApplyJob(s, l);
    if l.Die? {
      assert id in t.backups[|t.backups| - 1];
    } else if !l.Restore? && !(l.Verify? && s.jobs[k].snap <= s.tx) {
      assert k in t.jobs && Answers(t.jobs[k]) && id in t.jobs[k].snap;
    }
  }

  lemma BackupStays(s: State, l: Label, id: Id)
    requires Enabled(s, l) && InBackup(s, id)
    ensures InBackup(Apply(s, l), id) && (s.crashed ==> Apply(s, l).crashed)
  {
    var i :| 0 <= i < |s.backups| && id in s.backups[i];
    assert Apply(s, l).backups[i] == s.backups[i];
  }

  /** Only the delete removes rows. */
  lemma StoredStays(s: State, l: Label, id: Id)
    requires Enabled(s, l) && id in s.tx && !l.Delete?
    ensures id in Apply(s, l).tx
  {
    if JobOf(l).Some? { assert Apply(s, l) == ApplyJob(s, l); }
  }

  lemma TopicStep(s: State, l: Label)
    requires Enabled(s, l) && JobOf(l).None? && DrainOf(l).None?
    ensures var t := Apply(s, l);
            if l.Store? then t.topic == s.topic && t.headStored && s.topic[0] in t.tx
            else if l.Commit? then t.topic == s.topic[1..] && !t.headStored
            else if l.ConsumerCrash? then t.topic == s.topic && !t.headStored
            else s.topic <= t.topic && t.headStored == s.headStored
  {
    assert Apply(s, l) == ApplyMessage(s, l);
  }

  /** An unstored message stays one until it is stored. */
  lemma UnstoredStays(s: State, l: Label, k: nat)
    requires Enabled(s, l) && JobOf(l).None? && DrainOf(l).None? && k < |Unstored(s)|
             && (s.headStored ==> s.topic != [])
    ensures Unstored(s)[k] in Unstored(Apply(s, l)) || Unstored(s)[k] in Apply(s, l).tx
  {
    TopicStep(s, l);
    var before, after := Unstored(s), Unstored(Apply(s, l));
    if l.Store? {
      assert k > 0 ==> after[k - 1] == before[k];
    } else if l.ConsumerCrash? {
      assert after[k + 1] == before[k];
    } else {
      assert after[k] == before[k];
    }
  }

  lemma StagedStays(s: State, l: Label, r: Id)
    requires WellFormed(s) && Enabled(s, l) && DrainOf(l).None? && r in s.staging && !Spent(s, r)
    ensures var t := Apply(s, l); r in t.staging && t.staging[r] == s.staging[r] && !Spent(t, r)
  {
    if JobOf(l).Some? { assert Apply(s, l) == ApplyJob(s, l); } else { assert Apply(s, l) == ApplyMessage(s, l); }
  }

  lemma MessageStepCarries(s: State, l: Label, id: Id)
    requires WellFormed(s) && Enabled(s, l) && JobOf(l).None? && DrainOf(l).None? && OnItsWay(s, id)
    ensures OnItsWay(Apply(s, l), id) || id in Apply(s, l).tx
  {
    if id in Unstored(s) {
      var k :| 0 <= k < |Unstored(s)| && Unstored(s)[k] == id;
      UnstoredStays(s, l, k);
    } else {
      var r :| r in s.staging && s.staging[r] == id && !Spent(s, r);
      StagedStays(s, l, r);
    }
  }

  lemma JobStepCarries(s: State, l: Label, id: Id)
    requires WellFormed(s) && Enabled(s, l) && JobOf(l).Some? && OnItsWay(s, id)
    ensures OnItsWay(Apply(s, l), id)
  {
    if id in Unstored(s) {
      TopicGrows(s, l);
    } else {
      var r :| r in s.staging && s.staging[r] == id && !Spent(s, r);
      StagedStays(s, l, r);
    }
  }

  lemma TopicGrows(s: State, l: Label)
    requires Enabled(s, l) && (JobOf(l).Some? || DrainOf(l).Some?)
    ensures s.topic <= Apply(s, l).topic && Apply(s, l).headStored == s.headStored
  {
    if JobOf(l).Some? { assert Apply(s, l) == ApplyJob(s, l); } else { assert Apply(s, l) == ApplyDrain(s, l); }
  }

  /** A drain deletes a row only after its publish, and the publish puts a message behind the head. */
  lemma DrainStepCarries(s: State, l: Label, id: Id)
    requires WellFormed(s) && Enabled(s, l) && DrainOf(l).Some? && OnItsWay(s, id)
    ensures OnItsWay(Apply(s, l), id)
  {
    TopicGrows(s, l);
    if id !in Unstored(s) {
      var r :| r in s.staging && s.staging[r] == id && !Spent(s, r);
      if l.DrainPublish? && s.drains[l.d].rows[0].0 == r {
        PublishCarries(s, l.d);
      } else {
        UnspentStays(s, l, r);
      }
    }
  }

  lemma PublishCarries(s: State, d: Id)
    requires WellFormed(s) && Enabled(s, DrainPublish(d)) && s.drains[d].rows[0].0 in s.staging
    ensures s.staging[s.drains[d].rows[0].0] in Unstored(Apply(s, DrainPublish(d)))
  {
    var t := Apply(s, DrainPublish(d));
    assert DrainOk(s, s.drains[d]) && s.drains[d].rows[0] in s.drains[d].rows;
    assert Unstored(t)[|Unstored(t)| - 1] == s.drains[d].rows[0].1;
  }

  lemma UnspentStays(s: State, l: Label, r: Id)
    requires Enabled(s, l) && DrainOf(l).Some? && r in s.staging && !Spent(s, r)
    requires l.DrainPublish? ==> s.drains[l.d].rows[0].0 != r
    ensures var t := Apply(s, l); r in t.staging && t.staging[r] == s.staging[r] && !Spent(t, r)
  {
    var t := Apply(s, l);
    assert t == ApplyDrain(s, l);
    forall d | d in t.drains && t.drains[d].published && t.drains[d].rows != [] ensures t.drains[d].rows[0].0 != r {
      assert d in s.drains;
      assert s.drains[d].published || l.DrainPublish?;
    }
  }

  /** No step loses an id that is safe, except the delete, which keeps what its guard covers. */
  lemma StepKeepsSafe(s: State, l: Label, id: Id)
    requires WellFormed(s) && Enabled(s, l) && Safe(s, id) && (l.Delete? ==> DeleteGuard(s, l.j))
    ensures Safe(Apply(s, l), id)
  {
    if s.crashed && InBackup(s, id) {
      BackupStays(s, l, id);
    } else if Held(s, id) {
      var k :| k in s.jobs && Answers(s.jobs[k]) && id in s.jobs[k].snap;
      HeldStays(s, l, id, k);
    } else if OnItsWay(s, id) {
      if JobOf(l).Some? { JobStepCarries(s, l, id); }
      else if DrainOf(l).Some? { DrainStepCarries(s, l, id); }
      else { MessageStepCarries(s, l, id); }
    } else if l.Delete? {
      DeleteHolds(s, l.j, id);
    } else {
      StoredStays(s, l, id);
    }
  }

  lemma DeleteHolds(s: State, j: Id, id: Id)
    requires Enabled(s, Delete(j))
    ensures id in s.jobs[j].snap ==> Held(Apply(s, Delete(j)), id)
  {
    var t := Apply(s, Delete(j));
    assert j in t.jobs && Answers(t.jobs[j]) && t.jobs[j].snap == s.jobs[j].snap;
  }

  /** A routed id is on its way from the start. */
  lemma NewIdIsSafe(s: State, l: Label, id: Id)
    requires WellFormed(s) && Enabled(s, l) && id !in s.known && id in Apply(s, l).known
    ensures Safe(Apply(s, l), id)
  {
    var t := Apply(s, l);
    assert l.RouteAct? && s.router.value.id == id;
    if s.router.value.stage {
      var r := s.nextStaged;
      assert r in t.staging && t.staging[r] == id;
      forall d | d in t.drains && t.drains[d].published && t.drains[d].rows != [] ensures t.drains[d].rows[0].0 != r {
        assert DrainOk(s, s.drains[d]) && s.drains[d].rows[0] in s.drains[d].rows;
      }
    } else {
      assert Unstored(t)[|Unstored(t)| - 1] == id;
    }
  }

  lemma StepKeepsNothingLost(s: State, l: Label)
    requires WellFormed(s) && Enabled(s, l) && NothingLost(s) && (l.Delete? ==> DeleteGuard(s, l.j))
    ensures NothingLost(Apply(s, l))
  {
    forall id | id in Apply(s, l).known ensures Safe(Apply(s, l), id) {
      if id in s.known { StepKeepsSafe(s, l, id); } else { NewIdIsSafe(s, l, id); }
    }
  }

  /** The delete is the one statement that can lose a row, and it does so exactly when its guard fails: when a
      stored row is missing from the job's backup and not on its way again. */
  lemma DeleteLosesNothingIff(s: State, j: Id)
    requires WellFormed(s) && Enabled(s, Delete(j)) && NothingLost(s) && s.tx <= s.known
    ensures NothingLost(Apply(s, Delete(j))) <==> DeleteGuard(s, j)
  {
    var t := Apply(s, Delete(j));
    if NothingLost(t) {
      forall id | id in s.tx && id !in s.jobs[j].snap ensures OnItsWay(s, id) || (s.crashed && InBackup(s, id)) {
        assert id in t.known && Safe(t, id);
        DeleteAddsNothing(s, j, id);
      }
    } else if DeleteGuard(s, j) {
      StepKeepsNothingLost(s, Delete(j));
    }
  }

  lemma DeleteAddsNothing(s: State, j: Id, id: Id)
    requires WellFormed(s) && Enabled(s, Delete(j)) && id !in s.jobs[j].snap
    ensures var t := Apply(s, Delete(j));
            && id !in t.tx && !Held(t, id)
            && (OnItsWay(t, id) ==> OnItsWay(s, id)) && t.crashed == s.crashed && (InBackup(t, id) ==> InBackup(s, id))
  {
    var t := Apply(s, Delete(j));
    assert t.topic == s.topic && t.staging == s.staging && t.drains == s.drains && t.headStored == s.headStored;
    assert forall r :: Spent(t, r) <==> Spent(s, r);
    forall k | k in t.jobs && Answers(t.jobs[k]) ensures k == j {
      StepKeepsMutex(s, Delete(j));
      assert j in t.jobs && Critical(t.jobs[j]);
    }
  }

  lemma {:induction false} GuardedRunLosesNothing(states: seq<State>, labels: seq<Label>, i: nat)
    requires Run(states, labels) && i < |states| && GuardedDeletes(states, labels, i)
    ensures NothingLost(states[i])
  {
    if i > 0 {
      GuardedRunLosesNothing(states, labels, i - 1);
      RunsAreWellFormed(states, labels, i - 1);
      StepKeepsNothingLost(states[i - 1], labels[i - 1]);
    }
  }

  /** No transaction is lost in any state of a run, whatever crashed and however the actors interleaved, if and
      only if the guard held before each delete. */
  lemma NothingIsLostIff(states: seq<State>, labels: seq<Label>)
    requires Run(states, labels)
    ensures (forall i :: 0 <= i < |states| ==> NothingLost(states[i])) <==> GuardedDeletes(states, labels, |labels|)
  {
    if GuardedDeletes(states, labels, |labels|) {
      forall i | 0 <= i < |states| ensures NothingLost(states[i]) {
        GuardedRunLosesNothing(states, labels, i);
      }
    } else {
      var i :| 0 <= i < |labels| && labels[i].Delete? && !DeleteGuard(states[i], labels[i].j);
      RunsAreWellFormed(states, labels, i);
      NothingIsInvented(states, labels, i);
      assert forall id :: id in states[i].tx ==> Mentions(states[i], id);
      if NothingLost(states[i]) {
        DeleteLosesNothingIff(states[i], labels[i].j);
        assert !NothingLost(states[i + 1]);
      }
    }
  }

  /** Between the backup and the delete; these are separate statements. */
  predicate InWindow(p: Phase) {
    p.Snapshotted? || p.RowsRead?
  }

  /** What to check before an insert: a job in its window already has the id in its backup. */
  ghost predicate InsertGuard(s: State)
    requires Enabled(s, Store)
  {
    forall j :: j in s.jobs && InWindow(s.jobs[j]) ==> s.topic[0] in s.jobs[j].snap
  }

  ghost predicate GuardedInserts(states: seq<State>, labels: seq<Label>)
    requires Run(states, labels)
  {
    forall i :: 0 <= i < |labels| && labels[i].Store? ==> InsertGuard(states[i])
  }

  ghost predicate BackupCovers(s: State) {
    forall j :: j in s.jobs && InWindow(s.jobs[j]) ==> s.tx <= s.jobs[j].snap
  }

  lemma StepKeepsBackupCovers(s: State, l: Label)
    requires WellFormed(s) && BackupCovers(s) && Enabled(s, l) && (l.Store? ==> InsertGuard(s))
    ensures BackupCovers(Apply(s, l))
  {
    var t := Apply(s, l);
    forall j | j in t.jobs && InWindow(t.jobs[j]) ensures t.tx <= t.jobs[j].snap {
      if JobOf(l) == Some(j) {
        assert t == ApplyJob(s, l);
      } else if JobOf(l).Some? {
        JobStepIsLocal(s, l, JobOf(l).value);
        assert j in t.jobs - {JobOf(l).value};
        assert j in s.jobs && t.jobs[j] == s.jobs[j];
        OtherJobKeepsRows(s, l, j);
      } else {
        OtherStepKeepsJobs(s, l);
      }
    }
  }

  /** While one job is in its window, no other job touches the table. */
  lemma OtherJobKeepsRows(s: State, l: Label, j: Id)
    requires Mutex(s) && Enabled(s, l) && JobOf(l).Some? && JobOf(l) != Some(j) && j in s.jobs && InWindow(s.jobs[j])
    ensures Apply(s, l).tx == s.tx
  {
    assert Critical(s.jobs[j]);
    assert !Critical(s.jobs[JobOf(l).value]);
    assert Apply(s, l) == ApplyJob(s, l);
  }

  lemma {:induction false} CoveredRun(states: seq<State>, labels: seq<Label>, i: nat)
    requires Run(states, labels) && GuardedInserts(states, labels) && i < |states|
    ensures BackupCovers(states[i])
  {
    if i > 0 {
      CoveredRun(states, labels, i - 1);
      RunsAreWellFormed(states, labels, i - 1);
      StepKeepsBackupCovers(states[i - 1], labels[i - 1]);
    }
  }

  /** No insert of an id the backup misses, between a job's backup and its delete, is enough: redeliveries and
      everything else may happen there. */
  lemma InsertGuardSuffices(states: seq<State>, labels: seq<Label>)
    requires Run(states, labels) && GuardedInserts(states, labels)
    ensures GuardedDeletes(states, labels, |labels|)
  {
    forall i | 0 <= i < |labels| && labels[i].Delete? ensures DeleteGuard(states[i], labels[i].j) {
      CoveredRun(states, labels, i);
    }
  }

  // ---------------------------------------------------------------- and what the publishers must keep to

  /** The id that a step of the router or of a drain puts into the topic. */
  function PublishedBy(s: State, l: Label): Option<Id>
    requires Enabled(s, l)
  {
    match l
    case RouteAct => if s.router.value.stage then None else Some(s.router.value.id)
    case DrainPublish(d) => Some(s.drains[d].rows[0].1)
    case _ => None
  }

  /** What to check before a step: no job takes its backup while messages of rows not yet stored are waiting, and
      between a job's backup and its delete only ids of that backup are published. */
  ghost predicate PublishGuard(s: State, l: Label)
    requires Enabled(s, l)
  {
    && (l.Snapshot? ==> Ids(s.topic) <= s.tx)
    && (PublishedBy(s, l).Some? ==>
          forall j :: j in s.jobs && InWindow(s.jobs[j]) ==> PublishedBy(s, l).value in s.jobs[j].snap)
  }

  ghost predicate GuardedPublishers(states: seq<State>, labels: seq<Label>)
    requires Run(states, labels)
  {
    forall i :: 0 <= i < |labels| ==> PublishGuard(states[i], labels[i])
  }

  /** A job in its window has every waiting message's id in its backup. */
  ghost predicate TopicCovered(s: State) {
    forall j :: j in s.jobs && InWindow(s.jobs[j]) ==> Ids(s.topic) <= s.jobs[j].snap
  }

  /** Apart from a replay, only the router and the drains make the topic grow. */
  lemma TopicGrowth(s: State, l: Label, id: Id)
    requires Enabled(s, l) && id in Apply(s, l).topic && id !in s.topic
    ensures PublishedBy(s, l) == Some(id) || l.Publish?
  {
    TopicMentions(s, l, id);
  }

  /** A job steps into its window with its backup only, and stays in it without touching the topic. */
  lemma WindowStep(s: State, l: Label, j: Id)
    requires WellFormed(s) && Enabled(s, l) && j in Apply(s, l).jobs && InWindow(Apply(s, l).jobs[j])
    ensures !l.Publish?
    ensures || (l == Snapshot(j) && Apply(s, l).jobs[j].snap == s.tx)
            || (j in s.jobs && InWindow(s.jobs[j]) && s.jobs[j].snap == Apply(s, l).jobs[j].snap)
  {
    var t := Apply(s, l);
    if JobOf(l) == Some(j) {
      assert t == ApplyJob(s, l);
    } else if JobOf(l).Some? {
      JobStepIsLocal(s, l, JobOf(l).value);
      assert j in t.jobs - {JobOf(l).value};
      assert j in s.jobs && t.jobs[j] == s.jobs[j];
      assert Critical(s.jobs[j]);
      assert !Critical(s.jobs[JobOf(l).value]);
    } else {
      OtherStepKeepsJobs(s, l);
    }
  }

  lemma StepKeepsTopicCovered(s: State, l: Label)
    requires WellFormed(s) && TopicCovered(s) && Enabled(s, l) && PublishGuard(s, l)
    ensures TopicCovered(Apply(s, l))
  {
    var t := Apply(s, l);
    forall j, id | j in t.jobs && InWindow(t.jobs[j]) && id in t.topic ensures id in t.jobs[j].snap {
      WindowStep(s, l, j);
      if id in s.topic {
        assert id in Ids(s.topic);
      } else {
        TopicGrowth(s, l, id);
      }
    }
  }

  lemma {:induction false} TopicCoveredRun(states: seq<State>, labels: seq<Label>, i: nat)
    requires Run(states, labels) && GuardedPublishers(states, labels) && i < |states|
    ensures TopicCovered(states[i])
  {
    if i > 0 {
      TopicCoveredRun(states, labels, i - 1);
      RunsAreWellFormed(states, labels, i - 1);
      StepKeepsTopicCovered(states[i - 1], labels[i - 1]);
    }
  }

  /** Publishers that keep to their guard lose nothing, whatever the consumer does and whoever crashes. */
  lemma PublishGuardSuffices(states: seq<State>, labels: seq<Label>)
    requires Run(states, labels) && GuardedPublishers(states, labels)
    ensures GuardedInserts(states, labels)
    ensures forall i :: 0 <= i < |states| ==> NothingLost(states[i])
  {
    forall i | 0 <= i < |labels| && labels[i].Store? ensures InsertGuard(states[i]) {
      TopicCoveredRun(states, labels, i);
      assert states[i].topic[0] in Ids(states[i].topic);
    }
    InsertGuardSuffices(states, labels);
    NothingIsLostIff(states, labels);
  }

  /** A topic that is empty at every backup, and a router and drains that publish nothing from then until the
      delete, keep to it. */
  lemma SilenceKeepsPublishGuard(s: State, l: Label)
    requires Enabled(s, l)
    requires l.Snapshot? ==> s.topic == []
    requires PublishedBy(s, l).Some? ==> forall j :: j in s.jobs ==> !InWindow(s.jobs[j])
    ensures PublishGuard(s, l)
  {
  }

  // ---------------------------------------------------------------- and nothing is invented

  ghost predicate InJob(p: Phase, id: Id) {
    (p.RowsRead? && id in p.events) || (p.Replaying? && id in p.pending)
  }

  /** The system holds the id somewhere. */
  ghost predicate Mentions(s: State, id: Id) {
    || id in s.tx || id in s.topic || Staged(s, id) || InBackup(s, id)
    || (exists j :: j in s.jobs && InJob(s.jobs[j], id))
    || (exists d, r :: d in s.drains && r in s.drains[d].rows && r.1 == id)
  }

  /** Every id the system holds anywhere was routed at some time. */
  ghost predicate OnlyKnown(s: State) {
    forall id :: Mentions(s, id) ==> id in s.known
  }

  lemma JobMentions(s: State, l: Label, id: Id, j: Id)
    requires Enabled(s, l) && j in Apply(s, l).jobs && InJob(Apply(s, l).jobs[j], id)
    ensures id in s.tx || (j in s.jobs && InJob(s.jobs[j], id))
  {
    if JobOf(l).Some? && JobOf(l) != Some(j) {
      JobStepIsLocal(s, l, JobOf(l).value);
      assert j in Apply(s, l).jobs - {JobOf(l).value};
      assert j in s.jobs && Apply(s, l).jobs[j] == s.jobs[j];
    } else if l.ReadRows? {
      assert id in Ids(l.events);
    }
  }

  lemma BackupMentions(s: State, l: Label, id: Id)
    requires Enabled(s, l) && InBackup(Apply(s, l), id)
    ensures id in s.tx || InBackup(s, id)
  {
    var t := Apply(s, l);
    var i :| 0 <= i < |t.backups| && id in t.backups[i];
    if JobOf(l).Some? {
      assert t == ApplyJob(s, l);
      if i < |s.backups| { assert t.backups[i] == s.backups[i]; }
    }
  }

  lemma TableMentions(s: State, l: Label, id: Id)
    requires Enabled(s, l)
    ensures id in Apply(s, l).tx ==> id in s.tx || id in s.topic || InBackup(s, id)
    ensures s.known <= Apply(s, l).known
  {
    var t := Apply(s, l);
    if JobOf(l).Some? {
      assert t == ApplyJob(s, l);
      if l.Restore? && id in t.tx && id !in s.tx {
        assert id in s.backups[|s.backups| - 1];
      }
    }
  }

  lemma TopicMentions(s: State, l: Label, id: Id)
    requires Enabled(s, l) && id in Apply(s, l).topic && id !in s.topic
    ensures || (l.RouteAct? && s.router.Some? && s.router.value.id == id)
            || (l.Publish? && InJob(s.jobs[l.j], id))
            || (l.DrainPublish? && s.drains[l.d].rows[0].1 == id)
  {
    if JobOf(l).Some? {
      assert Apply(s, l) == ApplyJob(s, l);
    } else if DrainOf(l).Some? {
      assert Apply(s, l) == ApplyDrain(s, l);
    } else {
      assert Apply(s, l) == ApplyMessage(s, l);
    }
  }

  lemma TopicIsMentioned(s: State, l: Label, id: Id)
    requires OnlyKnown(s) && Enabled(s, l) && id in Apply(s, l).topic
    ensures id in Apply(s, l).known
  {
    TableMentions(s, l, id);
    if id in s.topic {
      assert Mentions(s, id);
    } else {
      TopicMentions(s, l, id);
      if l.Publish? {
        assert Mentions(s, id);
      } else if l.DrainPublish? {
        assert s.drains[l.d].rows[0] in s.drains[l.d].rows;
        assert Mentions(s, id);
      } else {
        assert Apply(s, l) == ApplyMessage(s, l);
      }
    }
  }

  lemma StagedMentions(s: State, l: Label, id: Id)
    requires Enabled(s, l) && Staged(Apply(s, l), id)
    ensures Staged(s, id) || (l.RouteAct? && s.router.value.id == id)
  {
    var t := Apply(s, l);
    var r :| r in t.staging && t.staging[r] == id;
    StagingStep(s, l, r);
    assert r in s.staging && s.staging[r] == id ==> Staged(s, id);
  }

  lemma StagedIsMentioned(s: State, l: Label, id: Id)
    requires OnlyKnown(s) && Enabled(s, l) && Staged(Apply(s, l), id)
    ensures id in Apply(s, l).known
  {
    TableMentions(s, l, id);
    StagedMentions(s, l, id);
    if Staged(s, id) {
      assert Mentions(s, id);
    } else {
      assert Apply(s, l) == ApplyMessage(s, l);
    }
  }

  lemma DrainIsMentioned(s: State, l: Label, d: Id, r: (Id, Id))
    requires OnlyKnown(s) && Enabled(s, l) && d in Apply(s, l).drains && r in Apply(s, l).drains[d].rows
    ensures r.1 in Apply(s, l).known
  {
    TableMentions(s, l, r.1);
    DrainMembers(s, l, d, r);
    assert Mentions(s, r.1) by { assert Staged(s, r.1) || (d in s.drains && r in s.drains[d].rows); }
  }

  lemma StepKeepsOnlyKnown(s: State, l: Label)
    requires OnlyKnown(s) && Enabled(s, l)
    ensures OnlyKnown(Apply(s, l))
  {
    var t := Apply(s, l);
    forall id | Mentions(t, id) ensures id in t.known {
      if id in t.topic {
        TopicIsMentioned(s, l, id);
      } else if Staged(t, id) {
        StagedIsMentioned(s, l, id);
      } else if d, r :| d in t.drains && r in t.drains[d].rows && r.1 == id {
        DrainIsMentioned(s, l, d, r);
      } else {
        TableMentions(s, l, id);
        if InBackup(t, id) { BackupMentions(s, l, id); }
        if j :| j in t.jobs && InJob(t.jobs[j], id) { JobMentions(s, l, id, j); }
        assert Mentions(s, id);
      }
    }
  }

  lemma {:induction false} NothingIsInvented(states: seq<State>, labels: seq<Label>, i: nat)
    requires Run(states, labels) && i < |states|
    ensures OnlyKnown(states[i])
  {
    if i > 0 {
      NothingIsInvented(states, labels, i - 1);
      StepKeepsOnlyKnown(states[i - 1], labels[i - 1]);
    }
  }

  /** In a quiet state, with nothing to consume, nothing staged and no job, and no job ever having died midway,
      the table holds exactly the ids ever routed. */
  lemma QuietStateIsComplete(states: seq<State>, labels: seq<Label>, i: nat)
    requires Run(states, labels) && i < |states| && GuardedDeletes(states, labels, i)
    requires states[i].topic == [] && states[i].staging == map[] && states[i].jobs == map[] && !states[i].crashed
    ensures states[i].tx == states[i].known
  {
    GuardedRunLosesNothing(states, labels, i);
    NothingIsInvented(states, labels, i);
    var s := states[i];
    forall id | id in s.known ensures id in s.tx {
      assert Safe(s, id) && !Held(s, id) && !OnItsWay(s, id);
    }
    forall id | id in s.tx ensures id in s.known {
      assert Mentions(s, id);
    }
  }

  /** The guard can fail: one row inserted after the rows were read and before they are deleted is gone
      for good, although every lock was in place. */
  lemma InsertInWindowLosesRow() returns (states: seq<State>, labels: seq<Label>)
    ensures Run(states, labels)
    ensures LostForGood(states[|states| - 1], 7)
  {
    states, labels := InsertAfterRead();
    states, labels := Extend(states, labels, Delete(0));
    assert states[|states| - 1].jobs == map[0 := Replaying({}, [], 0)];
    states, labels := FinishJob(states, labels);
  }

  /** Known, and nowhere to be found in a quiet state without a crash. */
  ghost predicate LostForGood(s: State, id: Id) {
    && id in s.known && id !in s.tx && !InBackup(s, id)
    && s.topic == [] && s.staging == map[] && s.jobs == map[] && !s.crashed
  }

  lemma FinishJob(states: seq<State>, labels: seq<Label>) returns (states': seq<State>, labels': seq<Label>)
    requires Run(states, labels)
    requires states[|states| - 1] ==
             State({7}, {}, [], false, map[], 0, true, Some(0), map[0 := Replaying({}, [], 0)], 1, map[], [{}], None,
                 false)
    ensures Run(states', labels') && states <= states' && labels <= labels'
    ensures LostForGood(states'[|states'| - 1], 7)
  {
    states', labels' := Extend(states, labels, PublishDone(0));
    assert states'[|states'| - 1].jobs == map[0 := Verifying({})];
    states', labels' := Extend(states', labels', Verify(0));
    assert states'[|states'| - 1].jobs == map[0 := Releasing(true)];
    states', labels' := Extend(states', labels', Release(0));
    assert states'[|states'| - 1].jobs == map[];
  }

  /** That the message is still in the topic when the rows are deleted does not help if it is only waiting for its
      commit. */
  lemma UncommittedHeadLosesRow() returns (states: seq<State>, labels: seq<Label>, d: nat)
    ensures Run(states, labels) && d < |labels| && labels[d] == Delete(0) && 7 in states[d].topic
    ensures LostForGood(states[|states| - 1], 7)
  {
    states, labels := BackupAndRead();
    states, labels := Extend(states, labels, Store);
    d := |labels|;
    states, labels := Extend(states, labels, Delete(0));
    assert states[|states| - 1].jobs == map[0 := Replaying({}, [], 0)];
    states, labels := Extend(states, labels, Commit);
    states, labels := FinishJob(states, labels);
  }

  /** The router's check and its publish are one transaction, but no lock row is taken: a job that is triggered in
      between and reads the rows before the publish never sees the row. Nothing else was in the system. */
  lemma RouterLeakLosesRow() returns (states: seq<State>, labels: seq<Label>)
    ensures Run(states, labels) && |labels| > 1 && labels[1] == Trigger
    ensures states[1] == INIT.(router := Some(Routing(7, false)))
    ensures LostForGood(states[|states| - 1], 7)
  {
    states, labels := PublishThenStore();
    states, labels := Extend(states, labels, Delete(0));
    assert states[|states| - 1].jobs == map[0 := Replaying({}, [], 0)];
    states, labels := FinishJob(states, labels);
  }

  /** The router finds no lock row, and a job is triggered... */
  lemma CheckThenTrigger() returns (states: seq<State>, labels: seq<Label>)
    ensures Run(states, labels) && labels == [RouteCheck(7), Trigger]
    ensures states[1] == INIT.(router := Some(Routing(7, false)))
    ensures states[2] == State({}, {}, [], false, map[], 0, true, None, map[0 := Submitted], 1, map[], [],
                               Some(Routing(7, false)), false)
  {
    states, labels := [INIT], [];
    states, labels := Extend(states, labels, RouteCheck(7));
    states, labels := Extend(states, labels, Trigger);
  }

  /** ... takes its backup and reads the rows... */
  lemma BackupFirst() returns (states: seq<State>, labels: seq<Label>)
    ensures Run(states, labels) && |labels| > 1 && labels[1] == Trigger
    ensures states[1] == INIT.(router := Some(Routing(7, false)))
    ensures states[|states| - 1] ==
            State({}, {}, [], false, map[], 0, true, Some(0), map[0 := RowsRead({}, [])], 1, map[], [{}],
                  Some(Routing(7, false)), false)
  {
    states, labels := CheckThenTrigger();
    states, labels := Extend(states, labels, CheckLock(0));
    states, labels := Extend(states, labels, Acquire(0));
    states, labels := Extend(states, labels, Snapshot(0));
    states, labels := Extend(states, labels, ReadRows(0, []));
    assert states[|states| - 1].jobs == map[0 := RowsRead({}, [])];
  }

  /** ... and the router publishes all the same. */
  lemma PublishThenStore() returns (states: seq<State>, labels: seq<Label>)
    ensures Run(states, labels) && |labels| > 1 && labels[1] == Trigger
    ensures states[1] == INIT.(router := Some(Routing(7, false)))
    ensures states[|states| - 1] ==
            State({7}, {7}, [], false, map[], 0, true, Some(0), map[0 := RowsRead({}, [])], 1, map[], [{}], None, false)
  {
    states, labels := BackupFirst();
    states, labels := Extend(states, labels, RouteAct);
    states, labels := Extend(states, labels, Store);
    states, labels := Extend(states, labels, Commit);
  }

  lemma Extend(states: seq<State>, labels: seq<Label>, l: Label) returns (states': seq<State>, labels': seq<Label>)
    requires Run(states, labels) && Enabled(states[|states| - 1], l)
    ensures Run(states', labels') && states' == states + [Apply(states[|states| - 1], l)] && labels' == labels + [l]
  {
    states', labels' := states + [Apply(states[|states| - 1], l)], labels + [l];
    forall i | 0 <= i < |labels'|
      ensures Enabled(states'[i], labels'[i]) && states'[i + 1] == Apply(states'[i], labels'[i])
    {
      if i < |labels| { assert states'[i] == states[i] && states'[i + 1] == states[i + 1] && labels'[i] == labels[i]; }
    }
  }

  /** A message is on its way when a job is triggered... */
  lemma MessageThenTrigger() returns (states: seq<State>, labels: seq<Label>)
    ensures Run(states, labels)
    ensures states[|states| - 1] ==
            State({7}, {}, [7], false, map[], 0, true, None, map[0 := Submitted], 1, map[], [], None, false)
  {
    states, labels := [INIT], [];
    states, labels := Extend(states, labels, RouteCheck(7));
    states, labels := Extend(states, labels, RouteAct);
    states, labels := Extend(states, labels, Trigger);
  }

  /** ... the job takes its backup and reads the rows... */
  lemma BackupAndRead() returns (states: seq<State>, labels: seq<Label>)
    ensures Run(states, labels)
    ensures states[|states| - 1] ==
            State({7}, {}, [7], false, map[], 0, true, Some(0), map[0 := RowsRead({}, [])], 1, map[], [{}], None, false)
  {
    states, labels := MessageThenTrigger();
    states, labels := Extend(states, labels, CheckLock(0));
    states, labels := Extend(states, labels, Acquire(0));
    states, labels := Extend(states, labels, Snapshot(0));
    states, labels := Extend(states, labels, ReadRows(0, []));
    assert states[|states| - 1].jobs == map[0 := RowsRead({}, [])];
  }

  /** ... and only then is the message stored. */
  lemma InsertAfterRead() returns (states: seq<State>, labels: seq<Label>)
    ensures Run(states, labels)
    ensures states[|states| - 1] ==
            State({7}, {7}, [], false, map[], 0, true, Some(0), map[0 := RowsRead({}, [])], 1, map[], [{}], None, false)
  {
    states, labels := BackupAndRead();
    states, labels := Extend(states, labels, Store);
    states, labels := Extend(states, labels, Commit);
  }
}
