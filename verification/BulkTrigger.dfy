/** The bulk reprocess trigger: one pass over the requested users, inserting lock rows. */
module BulkTrigger {
  import opened Common

  const RATE_LIMIT: int := 3600 * SECOND

  datatype SkipReason = RateLimited | ReprocessLocked
  datatype Skipped = Skipped(userId: Id, reason: SkipReason)

  /** Does the claim of a reprocess slot succeed? Forced claims need only a known user. */
  predicate MayClaim(users: map<Id, Option<int>>, u: Id, force: bool, now: int) {
    u in users && (force || users[u].None? || users[u].value < now - RATE_LIMIT)
  }

  /** Every requested user outside the rate limit starts a new window, whether or not it was locked. */
  function Claimed(users: map<Id, Option<int>>, requested: seq<Id>, force: bool, now: int): map<Id, Option<int>> {
    map u | u in users :: if u in requested && MayClaim(users, u, force, now) then Some(now) else users[u]
  }

  /** The users skipped, in request order. */
  function SkippedUsers(skipped: seq<Skipped>): seq<Id> {
    seq(|skipped|, i requires 0 <= i < |skipped| => skipped[i].userId)
  }

  /** Every occurrence in the request is either a target or skipped. */
  ghost predicate Split(requested: seq<Id>, targets: seq<Id>, skipped: seq<Skipped>) {
    multiset(requested) == multiset(targets) + multiset(SkippedUsers(skipped))
  }

  lemma AddTarget(done: seq<Id>, u: Id, targets: seq<Id>, skipped: seq<Skipped>)
    requires Split(done, targets, skipped)
    ensures Split(done + [u], targets + [u], skipped)
  {
  }

  lemma AddSkipped(done: seq<Id>, s: Skipped, targets: seq<Id>, skipped: seq<Skipped>)
    requires Split(done, targets, skipped)
    ensures Split(done + [s.userId], targets, skipped + [s])
  {
    assert SkippedUsers(skipped + [s]) == SkippedUsers(skipped) + [s.userId];
  }

  /** The answer to the user at position i, from the tables as they were before the request: without force a
      repeated name finds the window its first mention has just restarted; with force it finds the lock. */
  function Refusal(users: map<Id, Option<int>>, locks: set<Id>, requested: seq<Id>, i: nat, force: bool,
                   now: int): Option<SkipReason>
    requires i < |requested|
  {
    var u, repeated := requested[i], requested[i] in requested[..i];
    if !force && (!MayClaim(users, u, force, now) || repeated) then Some(RateLimited)
    else if u !in users || u in locks || repeated then Some(ReprocessLocked)
    else None
  }

  /** The targets among the first n names, and the skipped users, both in request order. */
  function TargetsOf(users: map<Id, Option<int>>, locks: set<Id>, requested: seq<Id>, n: nat, force: bool,
                     now: int): seq<Id>
    requires n <= |requested|
  {
    if n == 0 then []
    else
      var before := TargetsOf(users, locks, requested, n - 1, force, now);
      if Refusal(users, locks, requested, n - 1, force, now).None? then before + [requested[n - 1]] else before
  }

  function SkipsOf(users: map<Id, Option<int>>, locks: set<Id>, requested: seq<Id>, n: nat, force: bool,
                   now: int): seq<Skipped>
    requires n <= |requested|
  {
    if n == 0 then []
    else
      var refusal := Refusal(users, locks, requested, n - 1, force, now);
      var before := SkipsOf(users, locks, requested, n - 1, force, now);
      if refusal.None? then before else before + [Skipped(requested[n - 1], refusal.value)]
  }

  /** Targets and skipped users split the request. */
  lemma {:induction false} RequestIsSplit(users: map<Id, Option<int>>, locks: set<Id>, requested: seq<Id>, n: nat,
                                          force: bool, now: int)
    requires n <= |requested|
    ensures Split(requested[..n], TargetsOf(users, locks, requested, n, force, now),
            SkipsOf(users, locks, requested, n, force, now))
  {
    if n > 0 {
      RequestIsSplit(users, locks, requested, n - 1, force, now);
      var u, refusal := requested[n - 1], Refusal(users, locks, requested, n - 1, force, now);
      assert requested[..n] == requested[..n - 1] + [u];
      if refusal.None? {
        AddTarget(requested[..n - 1], u, TargetsOf(users, locks, requested, n - 1, force, now),
            SkipsOf(users, locks, requested, n - 1, force, now));
        assert SkipsOf(users, locks, requested, n, force, now) == SkipsOf(users, locks, requested, n - 1, force, now);
      } else {
        AddSkipped(requested[..n - 1], Skipped(u, refusal.value), TargetsOf(users, locks, requested, n - 1, force, now),
                   SkipsOf(users, locks, requested, n - 1, force, now));
        assert TargetsOf(users, locks, requested, n, force, now) ==
               TargetsOf(users, locks, requested, n - 1, force, now);
      }
    }
  }

  /** The targets are distinct: the claimable users of the request that were not locked. */
  lemma {:induction false} TargetsAreExact(users: map<Id, Option<int>>, locks: set<Id>, requested: seq<Id>, n: nat,
                                           force: bool, now: int)
    requires n <= |requested|
    ensures var targets := TargetsOf(users, locks, requested, n, force, now);
            && (forall i, j :: 0 <= i < j < |targets| ==> targets[i] != targets[j])
            && (forall u :: u in targets <==> u in requested[..n] && u !in locks && MayClaim(users, u, force, now))
  {
    if n > 0 {
      TargetsAreExact(users, locks, requested, n - 1, force, now);
      assert requested[..n] == requested[..n - 1] + [requested[n - 1]];
    }
  }

  /** A forced request never reports a rate limit. Without force, "locked" means the slot could be claimed and the
      user was locked before the request; "rate limited", that it could not be claimed or the user is named twice. */
  ghost predicate Explained(skipped: seq<Skipped>, requested: seq<Id>, users: map<Id, Option<int>>, locks: set<Id>,
                            force: bool, now: int) {
    forall i :: 0 <= i < |skipped| ==> Justified(skipped[i], requested, users, locks, force, now)
  }

  ghost predicate Justified(s: Skipped, requested: seq<Id>, users: map<Id, Option<int>>, locks: set<Id>, force: bool,
                            now: int) {
    match s.reason
    case RateLimited => !force && (!MayClaim(users, s.userId, false, now) || Repeated(requested, s.userId))
    case ReprocessLocked =>
      if force then s.userId !in users || s.userId in locks || Repeated(requested, s.userId)
      else MayClaim(users, s.userId, false, now) && s.userId in locks
  }

  ghost predicate Repeated(requested: seq<Id>, u: Id) {
    exists p, q :: 0 <= p < q < |requested| && requested[p] == u && requested[q] == u
  }

  lemma {:induction false} SkipsAreExplained(users: map<Id, Option<int>>, locks: set<Id>, requested: seq<Id>, n: nat,
                                             force: bool, now: int)
    requires n <= |requested|
    ensures Explained(SkipsOf(users, locks, requested, n, force, now), requested, users, locks, force, now)
  {
    if n > 0 {
      SkipsAreExplained(users, locks, requested, n - 1, force, now);
      var u := requested[n - 1];
      if u in requested[..n - 1] {
        var p :| 0 <= p < n - 1 && requested[p] == u;
        assert Repeated(requested, u);
      }
    }
  }

  /** Trying one more user against the partly claimed and locked tables. */
  lemma ClaimedNext(users: map<Id, Option<int>>, requested: seq<Id>, i: nat, force: bool, now: int)
    requires i < |requested|
    ensures var u, sofar := requested[i], Claimed(users, requested[..i], force, now);
            && MayClaim(sofar, u, force, now) == (MayClaim(users, u, force, now) && (force || u !in requested[..i]))
            && (if MayClaim(sofar, u, force, now) then sofar[u := Some(now)] else sofar) ==
                Claimed(users, requested[..i + 1], force, now)
  {
    assert requested[..i + 1] == requested[..i] + [requested[i]];
  }

  /** After a claim the next one without force succeeds exactly when more than an hour has passed; force always
      succeeds for a known user, and starts the window anew. */
  lemma NextClaimIff(users: map<Id, Option<int>>, u: Id, force: bool, t0: int, force': bool, t1: int)
    requires MayClaim(users, u, force, t0)
    ensures MayClaim(users[u := Some(t0)], u, force', t1) <==> force' || t1 - t0 > 3600 * SECOND
  {
  }

  class TriggerTables {
    var users: map<Id, Option<int>>   // last_reprocess_started_at
    var locks: set<Id>

    constructor (known: map<Id, Option<int>>)
      ensures users == known && locks == {}
    {
      users, locks := known, {};
    }

    /** INSERT ... ON CONFLICT DO NOTHING RETURNING 1 */
    method InsertLockAtomic(u: Id) returns (inserted: bool)
      modifies this`locks
      ensures inserted == (u !in old(locks)) && locks == old(locks) + {u}
    {
      inserted := u !in locks;
      locks := locks + {u};
    }

    method ClaimSlot(u: Id, force: bool, now: int) returns (claimed: bool)
      modifies this`users
      ensures claimed == MayClaim(old(users), u, force, now)
      ensures users == if claimed then old(users)[u := Some(now)] else old(users)
    {
      claimed := MayClaim(users, u, force, now);
      if claimed {
        users := users[u := Some(now)];
      }
    }

    /** One requested user: claim the slot, then insert the lock row. Either a new target or a refusal. */
    method TryTarget(u: Id, force: bool, now: int) returns (target: seq<Id>, refused: seq<Skipped>)
      modifies this
      ensures if MayClaim(old(users), u, force, now) && u !in old(locks)
              then target == [u] && refused == []
              else
                var reason := if !force && !MayClaim(old(users), u, force, now) then RateLimited else ReprocessLocked;
                target == [] && refused == [Skipped(u, reason)]
      ensures users == if MayClaim(old(users), u, force, now) then old(users)[u := Some(now)] else old(users)
      ensures locks == old(locks) + (if MayClaim(old(users), u, force, now) then {u} else {})
    {
      target, refused := [], [];
      var claimed := ClaimSlot(u, force, now);
      if !claimed {
        refused := [Skipped(u, if force then ReprocessLocked else RateLimited)];
        return;
      }
      var inserted := InsertLockAtomic(u);
      if inserted {
        target := [u];
      } else {
        refused := [Skipped(u, ReprocessLocked)];
      }
    }

    /** The targets handed to the job and the skipped users split the request; no target is listed twice, none
        was locked before, and all of them are locked afterwards. Who becomes a target: a user named in the
        request whose slot could be claimed and who was not locked. */
    method TriggerBulk(requested: seq<Id>, force: bool, now: int) returns (targets: seq<Id>, skipped: seq<Skipped>)
      modifies this
      ensures targets == TargetsOf(old(users), old(locks), requested, |requested|, force, now)
      ensures skipped == SkipsOf(old(users), old(locks), requested, |requested|, force, now)
      ensures Split(requested, targets, skipped)
      ensures forall i, j :: 0 <= i < j < |targets| ==> targets[i] != targets[j]
      ensures forall u :: u in targets <==> u in requested && u !in old(locks) && MayClaim(old(users), u, force, now)
      ensures locks == old(locks) + (set u | u in targets)
      ensures users == Claimed(old(users), requested, force, now)
      ensures Explained(skipped, requested, old(users), old(locks), force, now)
    {
      targets, skipped := [], [];
      for i := 0 to |requested|
        invariant targets == TargetsOf(old(users), old(locks), requested, i, force, now)
        invariant skipped == SkipsOf(old(users), old(locks), requested, i, force, now)
        invariant users == Claimed(old(users), requested[..i], force, now)
        invariant locks == old(locks) + (set u | u in targets)
      {
        ClaimedNext(old(users), requested, i, force, now);
        TargetsAreExact(old(users), old(locks), requested, i, force, now);
        var target, refused := TryTarget(requested[i], force, now);
        targets, skipped := targets + target, skipped + refused;
      }
      assert requested[..|requested|] == requested;
      RequestIsSplit(old(users), old(locks), requested, |requested|, force, now);
      TargetsAreExact(old(users), old(locks), requested, |requested|, force, now);
      SkipsAreExplained(old(users), old(locks), requested, |requested|, force, now);
    }
  }
}
