/** What the interleaved protocol achieves when it is left alone, and how its jobs and drains come to an end. */
module ProtocolProgress {
  import opened Common
  import opened PipelineProtocol

  /** The steps lead from s to t. */
  ghost predicate Path(s: State, labels: seq<Label>, t: State)
    decreases |labels|
  {
    if labels == [] then t == s
    else Enabled(s, labels[0]) && Path(Apply(s, labels[0]), labels[1..], t)
  }

  lemma {:induction false} PathAppend(s: State, a: seq<Label>, m: State, b: seq<Label>, t: State)
    requires Path(s, a, m) && Path(m, b, t)
    ensures Path(s, a + b, t)
    decreases |a|
  {
    if a == [] {
      assert a + b == b;
    } else {
      PathAppend(Apply(s, a[0]), a[1..], m, b, t);
      assert (a + b)[1..] == a[1..] + b;
    }
  }

  lemma Step(s: State, l: Label)
    requires Enabled(s, l)
    ensures Path(s, [l], Apply(s, l))
  {
  }

  // ---------------------------------------------------------------- a job comes to an end

  function Stage(p: Phase): nat {
    match p
    case Submitted => 9
    case AwaitingAdvisory => 8
    case Acquired => 7
    case Snapshotted(_) => 6
    case RowsRead(_, _) => 5
    case Replaying(_, _, _) => 4
    case CatchingUp(_, _, _) => 3
    case Verifying(_) => 2
    case Restoring(_) => 1
    case Releasing(_) => 0
  }

  /** The steps left within a stage: messages to publish, or polls to make. */
  function Remaining(p: Phase): int {
    match p
    case Replaying(_, pending, _) => |pending|
    case CatchingUp(_, _, polls) => MAX_POLLS - polls
    case _ => 0
  }

  ghost predicate PollsBounded(s: State) {
    forall j :: j in s.jobs && s.jobs[j].CatchingUp? ==> s.jobs[j].polls <= MAX_POLLS
  }

  /** A job is never stuck, except while another one holds the advisory lock. */
  lemma JobCanStep(s: State, j: Id) returns (l: Label)
    requires WellFormed(s) && PollsBounded(s) && j in s.jobs && (s.jobs[j].AwaitingAdvisory? ==> s.advisory.None?)
    requires s.jobs[j].Snapshotted? ==> exists events :: Ids(events) == s.tx && |events| == |s.tx|
    ensures JobOf(l) == Some(j) && !l.Die? && !l.Fault? && Enabled(s, l)
  {
    match s.jobs[j]
    case Submitted => l := CheckLock(j);
    case AwaitingAdvisory => l := Acquire(j);
    case Acquired => l := Snapshot(j);
    case Snapshotted(_) =>
      var events :| Ids(events) == s.tx && |events| == |s.tx|;
      l := ReadRows(j, events);
    case RowsRead(_, _) => l := Delete(j);
    case Replaying(_, pending, _) => l := if pending == [] then PublishDone(j) else Publish(j);
    case CatchingUp(_, _, polls) => l := if polls == MAX_POLLS then TimeOut(j) else Poll(j);
    case Verifying(_) => l := Verify(j);
    case Restoring(_) =>
      assert JobOk(s, s.jobs[j]);
      l := Restore(j);
    case Releasing(_) => l := Release(j);
  }

  lemma StageNeverRises(s: State, l: Label, j: Id)
    requires Enabled(s, l) && JobOf(l) == Some(j) && j in Apply(s, l).jobs
    ensures Stage(Apply(s, l).jobs[j]) <= Stage(s.jobs[j])
    ensures Stage(Apply(s, l).jobs[j]) == Stage(s.jobs[j]) ==> l == Publish(j) || l == Poll(j)
  {
    assert Apply(s, l) == ApplyJob(s, l);
  }

  /** Every step of a job ends it or brings it nearer to its end. */
  lemma JobStepAdvances(s: State, l: Label, j: Id)
    requires PollsBounded(s) && Enabled(s, l) && JobOf(l) == Some(j) && j in Apply(s, l).jobs
    ensures var p, q := s.jobs[j], Apply(s, l).jobs[j];
            Stage(q) < Stage(p) || (Stage(q) == Stage(p) && 0 <= Remaining(q) < Remaining(p))
  {
    StageNeverRises(s, l, j);
    if l == Publish(j) {
      assert Apply(s, Publish(j)) == ApplyJob(s, Publish(j));
    } else if l == Poll(j) {
      assert Apply(s, Poll(j)) == ApplyJob(s, Poll(j));
    }
  }

  /** An exception anywhere in the recovery zone, and nowhere else, leads to the restore. */
  lemma FaultsLeadToRestore(s: State, j: Id)
    requires j in s.jobs
    ensures Enabled(s, Fault(j)) <==> s.jobs[j].Replaying? || s.jobs[j].CatchingUp? || s.jobs[j].Verifying?
    ensures Enabled(s, Fault(j)) ==> Apply(s, Fault(j)).jobs[j] == Restoring(s.jobs[j].snap)
  {
  }

  /** A job reports success exactly when it got there by a verification that found the whole snapshot; a restore
      reports failure. */
  lemma SuccessIffVerified(s: State, l: Label, j: Id)
    requires Enabled(s, l) && JobOf(l) == Some(j) && j in Apply(s, l).jobs && Apply(s, l).jobs[j].Releasing?
    ensures Apply(s, l).jobs[j].success <==> l == Verify(j)
    ensures if l == Verify(j) then s.jobs[j].snap <= s.tx else l == Restore(j) && s.jobs[j].Restoring?
  {
    assert Apply(s, l) == ApplyJob(s, l);
  }

  /** A verification that finds the whole snapshot succeeds; one that misses an id leads to the restore. */
  lemma VerifyDecides(s: State, j: Id)
    requires Enabled(s, Verify(j))
    ensures Apply(s, Verify(j)).jobs[j] == Releasing(true) <==> s.jobs[j].snap <= s.tx
    ensures Apply(s, Verify(j)).jobs[j] != Releasing(true) ==>
            Enabled(Apply(s, Verify(j)), Restore(j)) || s.backups == []
  {
  }

  // ---------------------------------------------------------------- the polls are counted

  ghost function PollsOf(labels: seq<Label>, n: nat, j: Id): nat
    requires n <= |labels|
  {
    if n == 0 then 0 else PollsOf(labels, n - 1, j) + (if labels[n - 1] == Poll(j) then 1 else 0)
  }

  /** A job that has not begun to wait has not polled. */
  ghost predicate PollsCounted(s: State, j: Id, polls: nat) {
    && (j !in s.jobs && s.nextJob <= j ==> polls == 0)
    && (j in s.jobs && Stage(s.jobs[j]) > 3 ==> polls == 0)
    && (j in s.jobs && s.jobs[j].CatchingUp? ==> s.jobs[j].polls == polls)
  }

  lemma StepCountsPolls(s: State, l: Label, j: Id, polls: nat)
    requires Mutex(s) && Enabled(s, l) && PollsCounted(s, j, polls)
    ensures PollsCounted(Apply(s, l), j, polls + (if l == Poll(j) then 1 else 0))
  {
    var t := Apply(s, l);
    if JobOf(l) == Some(j) {
      assert t == ApplyJob(s, l);
    } else if JobOf(l).Some? {
      JobStepIsLocal(s, l, JobOf(l).value);
      if j in t.jobs {
        assert j in t.jobs - {JobOf(l).value};
        assert j in s.jobs && t.jobs[j] == s.jobs[j];
      } else if j in s.jobs {
        assert j in s.jobs - {JobOf(l).value};
      }
    } else {
      OtherStepKeepsJobs(s, l);
      OtherStepKeepsAdvisory(s, l);
    }
  }

  lemma {:induction false} RunCountsPolls(states: seq<State>, labels: seq<Label>, i: nat, j: Id)
    requires Run(states, labels) && i < |states|
    ensures PollsCounted(states[i], j, PollsOf(labels, i, j))
  {
    if i > 0 {
      RunCountsPolls(states, labels, i - 1, j);
      AtMostOneCriticalJob(states, labels, i - 1);
      StepCountsPolls(states[i - 1], labels[i - 1], j, PollsOf(labels, i - 1, j));
    }
  }

  /** No job polls more than 150 times, and none gives up before it has. */
  lemma TimeOutAfterAllPolls(states: seq<State>, labels: seq<Label>, i: nat, j: Id)
    requires Run(states, labels) && i < |labels|
    ensures labels[i] == Poll(j) ==> PollsOf(labels, i, j) < MAX_POLLS
    ensures labels[i] == TimeOut(j) ==> PollsOf(labels, i, j) == MAX_POLLS
  {
    RunCountsPolls(states, labels, i, j);
  }

  // ---------------------------------------------------------------- a drain comes to an end

  /** A drain can be started on any selection of staged rows, whatever else is going on. */
  lemma DrainCanStart(s: State, d: Id, rows: seq<(Id, Id)>)
    requires d !in s.drains && forall r :: r in rows ==> r.0 in s.staging && s.staging[r.0] == r.1
    ensures Enabled(s, DrainStart(d, rows))
            && Apply(s, DrainStart(d, rows)) == s.(drains := s.drains[d := Drain(rows, false)])
  {
  }

  function RowKeys(rows: seq<(Id, Id)>): set<Id> {
    set r | r in rows :: r.0
  }

  function RowIds(rows: seq<(Id, Id)>): seq<Id> {
    seq(|rows|, i requires 0 <= i < |rows| => rows[i].1)
  }

  /** Left alone, it publishes its rows in order, removes exactly them from staging, and is gone. */
  lemma {:induction false} DrainRunsThrough(s: State, d: Id, rows: seq<(Id, Id)>) returns (labels: seq<Label>)
    requires d in s.drains && s.drains[d] == Drain(rows, false)
    ensures Path(s, labels,
            s.(topic := s.topic + RowIds(rows), staging := s.staging - RowKeys(rows), drains := s.drains - {d}))
    decreases |rows|
  {
    if rows == [] {
      labels := [DrainStop(d)];
      assert s.topic + RowIds(rows) == s.topic && s.staging - RowKeys(rows) == s.staging;
      Step(s, DrainStop(d));
    } else {
      var published := Apply(s, DrainPublish(d));
      var next := DrainFirstRow(s, d, rows);
      var rest := DrainRunsThrough(next, d, rows[1..]);
      labels := [DrainPublish(d), DrainDelete(d)] + rest;
      RowsSplit(s, rows);
      assert next.drains - {d} == s.drains - {d};
      assert [DrainPublish(d), DrainDelete(d)][1..] == [DrainDelete(d)];
      Step(published, DrainDelete(d));
      PathAppend(s, [DrainPublish(d), DrainDelete(d)], next, rest,
                 s.(topic := s.topic + RowIds(rows), staging := s.staging - RowKeys(rows), drains := s.drains - {d}));
    }
  }

  lemma DrainFirstRow(s: State, d: Id, rows: seq<(Id, Id)>) returns (next: State)
    requires d in s.drains && s.drains[d] == Drain(rows, false) && rows != []
    ensures Enabled(s, DrainPublish(d)) && Enabled(Apply(s, DrainPublish(d)), DrainDelete(d))
    ensures next == Apply(Apply(s, DrainPublish(d)), DrainDelete(d))
    ensures next == s.(topic := s.topic + [rows[0].1], staging := s.staging - {rows[0].0},
                       drains := s.drains[d := Drain(rows[1..], false)])
  {
    next := Apply(Apply(s, DrainPublish(d)), DrainDelete(d));
    assert next.drains == s.drains[d := Drain(rows[1..], false)];
  }

  lemma RowsSplit(s: State, rows: seq<(Id, Id)>)
    requires rows != []
    ensures s.topic + [rows[0].1] + RowIds(rows[1..]) == s.topic + RowIds(rows)
    ensures s.staging - {rows[0].0} - RowKeys(rows[1..]) == s.staging - RowKeys(rows)
  {
    assert rows == [rows[0]] + rows[1..];
    assert RowKeys(rows) == {rows[0].0} + RowKeys(rows[1..]);
    assert RowIds(rows) == [rows[0].1] + RowIds(rows[1..]);
  }

  // ---------------------------------------------------------------- an undisturbed reprocess

  /** The consumer works the topic off. */
  lemma {:induction false} ConsumerRunsThrough(s: State) returns (labels: seq<Label>)
    requires !s.headStored
    ensures Path(s, labels, s.(tx := s.tx + Ids(s.topic), topic := []))
    decreases |s.topic|
  {
    if s.topic == [] {
      labels := [];
      assert s.tx + Ids(s.topic) == s.tx;
    } else {
      var next := s.(tx := s.tx + {s.topic[0]}, topic := s.topic[1..]);
      ConsumeOne(s);
      var rest := ConsumerRunsThrough(next);
      labels := [Store, Commit] + rest;
      IdsSplit(s.tx, s.topic);
      PathAppend(s, [Store, Commit], next, rest, s.(tx := s.tx + Ids(s.topic), topic := []));
    }
  }

  lemma ConsumeOne(s: State)
    requires !s.headStored && s.topic != []
    ensures Path(s, [Store, Commit], s.(tx := s.tx + {s.topic[0]}, topic := s.topic[1..]))
  {
    Step(Apply(s, Store), Commit);
    Prepend(s, Store, [Commit], Apply(Apply(s, Store), Commit));
    assert [Store] + [Commit] == [Store, Commit];
  }

  lemma IdsSplit(tx: set<Id>, topic: seq<Id>)
    requires topic != []
    ensures tx + {topic[0]} + Ids(topic[1..]) == tx + Ids(topic)
  {
    assert topic == [topic[0]] + topic[1..];
  }

  lemma AtTwice(s: State, j: Id, p: Phase, q: Phase)
    ensures At(At(s, j, p), j, q) == At(s, j, q)
  {
    assert s.jobs[j := p][j := q] == s.jobs[j := q];
  }

  /** The replay is out. */
  function AllPublished(s: State, j: Id): State
    requires j in s.jobs && s.jobs[j].Replaying?
  {
    var p := s.jobs[j];
    At(s, j, Replaying(p.snap, [], p.total)).(topic := s.topic + p.pending)
  }

  lemma PublishOne(s: State, j: Id)
    requires j in s.jobs && s.jobs[j].Replaying? && s.jobs[j].pending != []
    ensures Enabled(s, Publish(j))
    ensures var next := Apply(s, Publish(j));
            && j in next.jobs && next.jobs[j].Replaying? && |next.jobs[j].pending| < |s.jobs[j].pending|
            && AllPublished(next, j) == AllPublished(s, j)
  {
    var p, next := s.jobs[j], Apply(s, Publish(j));
    AtTwice(s, j, next.jobs[j], Replaying(p.snap, [], p.total));
    assert s.topic + [p.pending[0]] + p.pending[1..] == s.topic + p.pending;
  }

  /** The job publishes its replay in order. */
  lemma {:induction false} JobPublishes(s: State, j: Id) returns (labels: seq<Label>)
    requires j in s.jobs && s.jobs[j].Replaying?
    ensures Path(s, labels, AllPublished(s, j))
    decreases |s.jobs[j].pending|
  {
    var p := s.jobs[j];
    if p.pending == [] {
      labels := [];
      assert s.topic + p.pending == s.topic && s.jobs[j := p] == s.jobs;
    } else {
      PublishOne(s, j);
      labels := JobPublishes(Apply(s, Publish(j)), j);
      Prepend(s, Publish(j), labels, AllPublished(s, j));
      labels := [Publish(j)] + labels;
    }
  }

  /** No job, no lock, nothing on its way. */
  ghost predicate Quiet(s: State) {
    s.jobs == map[] && !s.locked && s.advisory.None? && s.topic == [] && !s.headStored
  }

  /** A triggered job gets to its critical zone. */
  lemma JobStarts(s: State) returns (labels: seq<Label>)
    requires Quiet(s)
    ensures Path(s, labels, Started(s))
  {
    var j := s.nextJob;
    var a := Apply(s, Trigger);
    var b := Apply(a, CheckLock(j));
    var c := Apply(b, Acquire(j));
    assert a.jobs == map[j := Submitted] && b.jobs == map[j := AwaitingAdvisory] && c.jobs == map[j := Acquired];
    Step(b, Acquire(j));
    Prepend(a, CheckLock(j), [Acquire(j)], c);
    labels := [CheckLock(j)] + [Acquire(j)];
    Prepend(s, Trigger, labels, c);
    labels := [Trigger] + labels;
  }

  /** It takes its backup, reads the rows and deletes them. */
  lemma JobDeletes(s: State, j: Id, events: seq<Id>) returns (labels: seq<Label>)
    requires s.jobs == map[j := Acquired] && Ids(events) == s.tx && |events| == |s.tx|
    ensures Path(s, labels,
            s.(backups := s.backups + [s.tx], jobs := map[j := Replaying(s.tx, events, |events|)], tx := {}))
  {
    var d := Apply(s, Snapshot(j));
    var e := Apply(d, ReadRows(j, events));
    var f := Apply(e, Delete(j));
    assert d.jobs == map[j := Snapshotted(s.tx)] && e.jobs == map[j := RowsRead(s.tx, events)];
    assert f.jobs == map[j := Replaying(s.tx, events, |events|)];
    Step(e, Delete(j));
    Prepend(d, ReadRows(j, events), [Delete(j)], f);
    labels := [ReadRows(j, events)] + [Delete(j)];
    Prepend(s, Snapshot(j), labels, f);
    labels := [Snapshot(j)] + labels;
  }

  lemma Prepend(s: State, l: Label, rest: seq<Label>, t: State)
    requires Enabled(s, l) && Path(Apply(s, l), rest, t)
    ensures Path(s, [l] + rest, t)
  {
    Step(s, l);
    PathAppend(s, [l], Apply(s, l), rest, t);
  }

  lemma VerifyAndRelease(s: State, j: Id)
    requires s.jobs == map[j := Verifying(s.tx)]
    ensures Path(s, [Verify(j)] + [Release(j)], Finished(s))
  {
    var r := Apply(s, Verify(j));
    assert r.jobs == map[j := Releasing(true)];
    var t := Apply(r, Release(j));
    assert t.jobs == map[];
    Step(r, Release(j));
    Prepend(s, Verify(j), [Release(j)], t);
  }

  /** With every row back, the first poll, or none if there was nothing to replay, leads to a success. */
  lemma JobSucceeds(s: State, j: Id, polled: bool) returns (labels: seq<Label>)
    requires s.jobs == map[j := if polled then CatchingUp(s.tx, |s.tx|, 0) else Verifying(s.tx)]
    ensures Path(s, labels, Finished(s))
  {
    labels := [Verify(j)] + [Release(j)];
    if polled {
      var v := Apply(s, Poll(j));
      assert v.jobs == map[j := Verifying(s.tx)];
      VerifyAndRelease(v, j);
      Prepend(s, Poll(j), labels, Finished(s));
      labels := [Poll(j)] + labels;
    } else {
      VerifyAndRelease(s, j);
    }
  }

  /** An undisturbed reprocess: whatever rows are stored, a trigger on a quiet system leads back to the same table
      and a quiet system, with one more backup, that of the table. */
  lemma UndisturbedReprocess(s: State, events: seq<Id>) returns (labels: seq<Label>)
    requires Quiet(s) && Ids(events) == s.tx && |events| == |s.tx|
    ensures Path(s, labels, s.(nextJob := s.nextJob + 1, backups := s.backups + [s.tx]))
  {
    var j, started := s.nextJob, Started(s);
    var back := Returned(started, j, events != []);
    var first := JobStarts(s);
    var second := JobReplays(started, j, events);
    PathAppend(s, first, started, second, back);
    var last := JobSucceeds(back, j, events != []);
    labels := first + second + last;
    PathAppend(s, first + second, back, last, Finished(back));
    AllTheWay(s, events != []);
  }

  /** The job in its critical zone; its rows gone out and back; its release. */
  function Started(s: State): State {
    s.(locked := true, advisory := Some(s.nextJob), nextJob := s.nextJob + 1, jobs := map[s.nextJob := Acquired])
  }

  function Returned(s: State, j: Id, polled: bool): State {
    s.(backups := s.backups + [s.tx], jobs := map[j := if polled then CatchingUp(s.tx, |s.tx|, 0) else Verifying(s.tx)])
  }

  function Finished(s: State): State {
    s.(locked := false, advisory := None, jobs := map[])
  }

  lemma AllTheWay(s: State, polled: bool)
    requires Quiet(s)
    ensures Finished(Returned(Started(s), s.nextJob, polled)) ==
            s.(nextJob := s.nextJob + 1, backups := s.backups + [s.tx])
  {
  }

  /** The rows go out, and the consumer brings them all back. */
  lemma JobReplays(s: State, j: Id, events: seq<Id>) returns (labels: seq<Label>)
    requires s.jobs == map[j := Acquired] && s.topic == [] && !s.headStored && Ids(events) == s.tx && |events| == |s.tx|
    ensures Path(s, labels, Returned(s, j, events != []))
  {
    var deleted := s.(backups := s.backups + [s.tx], jobs := map[j := Replaying(s.tx, events, |events|)], tx := {});
    var first := JobDeletes(s, j, events);
    var second, done := ReplayIsDone(deleted, j, s.tx, events);
    PathAppend(s, first, deleted, second, done);
    var third := ConsumerRunsThrough(done);
    var back := done.(tx := s.tx, topic := []);
    assert done.tx + Ids(done.topic) == s.tx;
    labels := first + second + third;
    PathAppend(s, first + second, done, third, back);
  }

  lemma ReplayIsDone(s: State, j: Id, snap: set<Id>, events: seq<Id>) returns (labels: seq<Label>, t: State)
    requires s.jobs == map[j := Replaying(snap, events, |events|)] && s.topic == []
    ensures Path(s, labels, t)
    ensures t == s.(topic := events,
                    jobs := map[j := if events == [] then Verifying(snap) else CatchingUp(snap, |events|, 0)])
  {
    var publishes := JobPublishes(s, j);
    var m := At(s, j, Replaying(snap, [], |events|)).(topic := s.topic + events);
    assert s.topic + events == events;
    t := Apply(m, PublishDone(j));
    assert t.jobs == map[j := if events == [] then Verifying(snap) else CatchingUp(snap, |events|, 0)];
    labels := publishes + [PublishDone(j)];
    Step(m, PublishDone(j));
    PathAppend(s, publishes, m, [PublishDone(j)], t);
  }

  /** An undisturbed router stages exactly while the lock row is there, and publishes otherwise. */
  lemma RouterFollowsLock(s: State, id: Id)
    requires s.router.None?
    ensures Enabled(s, RouteCheck(id)) && Enabled(Apply(s, RouteCheck(id)), RouteAct)
    ensures var t := Apply(Apply(s, RouteCheck(id)), RouteAct);
            && t.router.None? && t.known == s.known + {id}
            && if s.locked then
                 t.topic == s.topic && t.staging == s.staging[s.nextStaged := id] && t.nextStaged > s.nextStaged
               else t.topic == s.topic + [id] && t.staging == s.staging
  {
  }

  // ---------------------------------------------------------------- operators

  /** Deleting the lock row by hand frees the user: a job can be triggered again, and the router publishes. */
  lemma ClearLockFreesUser(s: State, id: Id)
    ensures Enabled(s, ClearLock) && Enabled(Apply(s, ClearLock), Trigger)
    ensures s.router.None? ==> Apply(Apply(s, ClearLock), RouteCheck(id)).router == Some(Routing(id, false))
  {
  }

  /** A job started by hand without a lock row ends at once. */
  lemma ManualStartNeedsLock(s: State)
    requires Mutex(s)
    ensures Enabled(s, StartManually) && Enabled(Apply(s, StartManually), CheckLock(s.nextJob))
    ensures !s.locked ==> Apply(Apply(s, StartManually), CheckLock(s.nextJob)).jobs == s.jobs
    ensures s.locked ==>
            Apply(Apply(s, StartManually), CheckLock(s.nextJob)).jobs == s.jobs[s.nextJob := AwaitingAdvisory]
  {
    var t := Apply(s, StartManually);
    assert s.nextJob !in s.jobs;
    assert t.jobs - {s.nextJob} == s.jobs;
    assert t.jobs[s.nextJob := AwaitingAdvisory] == s.jobs[s.nextJob := AwaitingAdvisory];
  }

  /** A consumer that crashes between insert and commit takes the message again; a router that crashes before it
      acts has done nothing. */
  lemma CrashesRepeat(s: State)
    ensures s.headStored && s.topic != [] ==> Enabled(s, ConsumerCrash) && Enabled(Apply(s, ConsumerCrash), Store)
                                              && Apply(s, ConsumerCrash) == s.(headStored := false)
    ensures s.router.Some? ==> Enabled(s, RouterCrash) && Apply(s, RouterCrash) == s.(router := None)
  {
  }
}
