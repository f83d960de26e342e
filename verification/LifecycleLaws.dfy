/** Conservation: escalations are opened by drops and resolved by winning claims, and by nothing else. */
module Ledger {
  import opened Base
  import opened Lifecycle
  import opened Escalation

  function EscalationsOf(s: State, taskId: Id): set<Id> {
    set id | id in s.escalations && s.escalations[id].taskId == taskId
  }

  function ResolvedOf(s: State, taskId: Id): set<Id> {
    set id | id in s.escalations && s.escalations[id].taskId == taskId && s.escalations[id].resolvedAt.Some?
  }

  function OpenOf(s: State, taskId: Id): set<Id> {
    set id | id in s.escalations && s.escalations[id].taskId == taskId && s.escalations[id].resolvedAt.None?
  }

  /** A claim on the task that finds an open escalation and wins it. */
  predicate WinsOn(s: State, e: Call, taskId: Id) {
    e.ClaimTask? && e.taskId == taskId && e.found.Some? && Wins(s, e, e.found.value)
  }

  /** Successful drops of the task along a run. */
  function DropsIn(s: State, es: seq<Call>, taskId: Id): nat
    requires Legal(s, es)
    decreases |es|
  {
    if es == [] then 0
    else (if Drops(s, es[0], taskId) then 1 else 0) + DropsIn(Apply(s, es[0]), es[1..], taskId)
  }

  /** Claims of the task along a run that found an open escalation and won it. */
  function WinsIn(s: State, es: seq<Call>, taskId: Id): nat
    requires Legal(s, es)
    decreases |es|
  {
    if es == [] then 0
    else (if WinsOn(s, es[0], taskId) then 1 else 0) + WinsIn(Apply(s, es[0]), es[1..], taskId)
  }

  /** How often one escalation is won along a run. */
  function WinsOfEscalation(s: State, es: seq<Call>, id: Id): nat
    requires Legal(s, es)
    decreases |es|
  {
    if es == [] then 0
    else (if Wins(s, es[0], id) then 1 else 0) + WinsOfEscalation(Apply(s, es[0]), es[1..], id)
  }

  lemma StepOnSets(s: State, e: Call, taskId: Id)
    requires Enabled(s, e)
    ensures EscalationsOf(Apply(s, e), taskId)
         == EscalationsOf(s, taskId) + (if Drops(s, e, taskId) then {e.escalationId} else {})
    ensures ResolvedOf(Apply(s, e), taskId)
         == ResolvedOf(s, taskId) + (if WinsOn(s, e, taskId) then {e.found.value} else {})
    ensures Drops(s, e, taskId) ==> e.escalationId !in EscalationsOf(s, taskId)
    ensures WinsOn(s, e, taskId) ==> e.found.value !in ResolvedOf(s, taskId)
  {
    var s' := Apply(s, e);
    forall id
      ensures id in EscalationsOf(s', taskId) <==>
        id in EscalationsOf(s, taskId) || (Drops(s, e, taskId) && id == e.escalationId)
      ensures id in ResolvedOf(s', taskId) <==>
        id in ResolvedOf(s, taskId) || (WinsOn(s, e, taskId) && id == e.found.value)
    {
      StepOnEscalation(s, e, id);
    }
  }

  /**
   * Over every run, a task gains exactly one escalation per successful drop and exactly one resolved
   * escalation per winning claim.
   */
  lemma {:induction false} RunLedger(s: State, es: seq<Call>, taskId: Id)
    requires Legal(s, es)
    ensures |EscalationsOf(Run(s, es), taskId)| == |EscalationsOf(s, taskId)| + DropsIn(s, es, taskId)
    ensures |ResolvedOf(Run(s, es), taskId)| == |ResolvedOf(s, taskId)| + WinsIn(s, es, taskId)
    decreases |es|
  {
    if es != [] {
      StepOnSets(s, es[0], taskId);
      RunLedger(Apply(s, es[0]), es[1..], taskId);
    }
  }

  /** Open escalations of a task are its drops minus its winning claims, on top of what was open before. */
  lemma OpenIsDropsMinusWins(s: State, es: seq<Call>, taskId: Id)
    requires Legal(s, es)
    ensures |OpenOf(Run(s, es), taskId)| == |OpenOf(s, taskId)| + DropsIn(s, es, taskId) - WinsIn(s, es, taskId)
  {
    RunLedger(s, es, taskId);
    Partition(s, taskId);
    Partition(Run(s, es), taskId);
  }

  lemma Partition(s: State, taskId: Id)
    ensures |EscalationsOf(s, taskId)| == |OpenOf(s, taskId)| + |ResolvedOf(s, taskId)|
  {
    assert EscalationsOf(s, taskId) == OpenOf(s, taskId) + ResolvedOf(s, taskId);
  }

  predicate IsResolved(s: State, id: Id) {
    id in s.escalations && s.escalations[id].resolvedAt.Some?
  }

  lemma OneLess(ids: set<Id>, id: Id)
    requires id in ids
    ensures ids - {id} == {} <==> |ids| == 1
  {
    assert ids == (ids - {id}) + {id};
    if |ids| == 1 {
      assert |ids - {id}| == 0;
    }
  }

  /** A winning claim closes the one escalation it found: nothing stays open iff exactly one was open. */
  lemma WinLeavesOthersOpen(s: State, e: Call, taskId: Id)
    requires Enabled(s, e) && WinsOn(s, e, taskId)
    ensures OpenOf(Apply(s, e), taskId) == OpenOf(s, taskId) - {e.found.value}
    ensures OpenOf(Apply(s, e), taskId) == {} <==> |OpenOf(s, taskId)| == 1
  {
    forall id ensures id in OpenOf(Apply(s, e), taskId) <==> id in OpenOf(s, taskId) && id != e.found.value {
      StepOnEscalation(s, e, id);
    }
    assert e.found.value in OpenOf(s, taskId);
    assert OpenOf(Apply(s, e), taskId) == OpenOf(s, taskId) - {e.found.value};
    OneLess(OpenOf(s, taskId), e.found.value);
  }

  /** An escalation is won at most once over any run: once exactly when the run is what resolves it. */
  lemma {:induction false} WonAtMostOnce(s: State, es: seq<Call>, id: Id)
    requires Legal(s, es)
    ensures WinsOfEscalation(s, es, id)
         == (if IsResolved(Run(s, es), id) then 1 else 0) - (if IsResolved(s, id) then 1 else 0)
    decreases |es|
  {
    if es != [] {
      StepOnEscalation(s, es[0], id);
      WonAtMostOnce(Apply(s, es[0]), es[1..], id);
    }
  }

  /** A resolved escalation keeps its claimant and its resolution time for ever. */
  lemma {:induction false} ResolutionIsFinal(s: State, es: seq<Call>, id: Id)
    requires Legal(s, es) && IsResolved(s, id)
    ensures IsResolved(Run(s, es), id)
    ensures Run(s, es).escalations[id].claimedBy == s.escalations[id].claimedBy
    ensures Run(s, es).escalations[id].resolvedAt == s.escalations[id].resolvedAt
    decreases |es|
  {
    if es != [] {
      StepOnEscalation(s, es[0], id);
      ResolutionIsFinal(Apply(s, es[0]), es[1..], id);
    }
  }

  /** A claimed task can be left with an open escalation: drop it twice and claim it once. */
  lemma ClaimedTaskWithOpenEscalation(s: State, tenant: Id, taskId: Id, memberId: Id, first: Id, second: Id,
      now: Instant)
    requires OwnsTask(s, tenant, taskId) && OwnsMember(s, tenant, memberId)
    requires first !in s.escalations && second !in s.escalations && first != second
    requires forall id :: id in s.escalations ==> s.escalations[id].taskId != taskId
    ensures var es := [DropTask(tenant, now, taskId, memberId, first),
                       DropTask(tenant, now + 1, taskId, memberId, second),
                       ClaimTask(tenant, now + 2, taskId, memberId, Some(second))];
      && Legal(s, es)
      && taskId in Run(s, es).tasks && Run(s, es).tasks[taskId].status == Claimed
      && OpenOf(Run(s, es), taskId) == {first}
  {
    var e0 := DropTask(tenant, now, taskId, memberId, first);
    var e1 := DropTask(tenant, now + 1, taskId, memberId, second);
    var e2 := ClaimTask(tenant, now + 2, taskId, memberId, Some(second));
    var s1 := Apply(s, e0);
    var s2 := Apply(s1, e1);
    assert OpenOf(s1, taskId) == {first};
    assert OpenOf(s2, taskId) == {first, second};
    assert s2.escalations[first].createdAt == now && s2.escalations[second].createdAt == now + 1;
    assert MayClaim(s2, tenant, taskId, memberId);
    WinnerRemains(s2, e2, taskId, first);
    ThreeCalls(s, e0, e1, e2);
  }

  lemma WinnerRemains(s: State, e: Call, taskId: Id, first: Id)
    requires e.ClaimTask? && e.taskId == taskId && e.found.Some? && e.found.value != first
    requires MayClaim(s, e.tenant, taskId, e.memberId)
    requires OpenOf(s, taskId) == {first, e.found.value}
    requires s.escalations[first].createdAt <= s.escalations[e.found.value].createdAt
    requires s.escalations[e.found.value].household == e.tenant && s.escalations[e.found.value].claimedBy.None?
    ensures Enabled(s, e)
    ensures Apply(s, e).tasks[taskId].status == Claimed
    ensures OpenOf(Apply(s, e), taskId) == {first}
  {
    forall id | id in s.escalations && IsOpenFor(s.escalations[id], e.tenant, taskId)
      ensures s.escalations[id].createdAt <= s.escalations[e.found.value].createdAt
    {
      assert id in OpenOf(s, taskId);
    }
    assert e.found.value in OpenOf(s, taskId);
    var s' := Apply(s, e);
    forall id ensures id in OpenOf(s', taskId) <==> id in OpenOf(s, taskId) && id != e.found.value {
      StepOnEscalation(s, e, id);
    }
  }

  lemma ThreeCalls(s: State, e0: Call, e1: Call, e2: Call)
    requires Enabled(s, e0) && Enabled(Apply(s, e0), e1) && Enabled(Apply(Apply(s, e0), e1), e2)
    ensures Legal(s, [e0, e1, e2])
    ensures Run(s, [e0, e1, e2]) == Apply(Apply(Apply(s, e0), e1), e2)
  {
    var s1 := Apply(s, e0);
    var s2 := Apply(s1, e1);
    var s3 := Apply(s2, e2);
    assert [e0, e1, e2][1..] == [e1, e2] && [e1, e2][1..] == [e2] && [e2][1..] == [];
    assert Legal(s3, []) && Legal(s2, [e2]) && Legal(s1, [e1, e2]);
    assert Run(s3, []) == s3 && Run(s2, [e2]) == s3 && Run(s1, [e1, e2]) == s3;
  }
}

/** What every reachable state satisfies. */
module Invariants {
  import opened Base
  import opened Lifecycle
  import opened Escalation
  import opened Household
  import opened Routing
  import opened Sequences

  predicate TaskOk(s: State, t: Task) {
    && (t.status in {Assigned, Claimed} <==> t.assignee.Some?)
    && (t.assignee.Some? ==> OwnsMember(s, t.household, t.assignee.value))
  }

  predicate EscalationOk(s: State, e: EscalationEvent) {
    && (e.claimedBy.Some? <==> e.resolvedAt.Some?)
    && OwnsTask(s, e.household, e.taskId)
    && (e.claimedBy.Some? ==> OwnsMember(s, e.household, e.claimedBy.value))
  }

  predicate Consistent(s: State) {
    && (forall id :: id in s.tasks ==> TaskOk(s, s.tasks[id]))
    && (forall id :: id in s.escalations ==> EscalationOk(s, s.escalations[id]))
  }

  /** The routing engine only ever names a member of the calling household. */
  lemma RoutedIsOwned(s: State, tenant: Id, taskId: Id, today: Date)
    requires taskId in s.tasks
    ensures var a := RoutingOf(s, tenant, taskId, today).assignee;
      a.Some? ==> OwnsMember(s, tenant, a.value)
  {
    var active := Collect(ActiveIn(tenant), s.members);
    var rules := Collect(RuleOf(tenant), s.rules);
    AssignedIffEligible(s.tasks[taskId].draft, active, rules, today);
    var a := RoutingOf(s, tenant, taskId, today).assignee;
    if a.Some? {
      var m :| m in active && m.id == a.value;
      CollectMembers(ActiveIn(tenant), s.members, m);
    }
  }

  lemma SetTaskOk(s: State, taskId: Id, status: Status, assignee: Option<Id>, id: Id)
    requires taskId in s.tasks && id in s.tasks && TaskOk(s, s.tasks[id])
    requires status in {Assigned, Claimed} <==> assignee.Some?
    requires assignee.Some? ==> OwnsMember(s, s.tasks[taskId].household, assignee.value)
    ensures TaskOk(SetTask(s, taskId, status, assignee), SetTask(s, taskId, status, assignee).tasks[id])
  {
  }

  lemma RouteStepOk(s: State, tenant: Id, taskId: Id, today: Date, id: Id)
    requires id in s.tasks && TaskOk(s, s.tasks[id])
    ensures TaskOk(RouteStep(s, tenant, taskId, today), RouteStep(s, tenant, taskId, today).tasks[id])
  {
    if OwnsTask(s, tenant, taskId) {
      RoutedIsOwned(s, tenant, taskId, today);
      var assignee := RoutingOf(s, tenant, taskId, today).assignee;
      if assignee.Some? {
        SetTaskOk(s, taskId, Assigned, assignee, id);
      }
    }
  }

  lemma CreateKeepsTasks(s: State, e: Call, id: Id)
    requires Consistent(s) && e.CreateTask? && Enabled(s, e) && id in Apply(s, e).tasks
    ensures TaskOk(Apply(s, e), Apply(s, e).tasks[id])
  {
    var created := s.(tasks := s.tasks[e.taskId := Task(e.tenant, Open, None, e.dueAt, e.draft)]);
    if !e.noRoute {
      RouteStepOk(created, e.tenant, e.taskId, e.today, id);
    }
  }

  lemma StepKeepsTasks(s: State, e: Call, id: Id)
    requires Consistent(s) && Enabled(s, e) && id in Apply(s, e).tasks
    ensures TaskOk(Apply(s, e), Apply(s, e).tasks[id])
  {
    match e
    case CreateTask(_, _, _, _, _, _, _) => CreateKeepsTasks(s, e, id);
    case RouteTask(tenant, _, taskId, today) => RouteStepOk(s, tenant, taskId, today, id);
    case _ =>
  }

  /** The member table and the rules are not touched. */
  lemma StepKeepsMembers(s: State, e: Call)
    requires Enabled(s, e)
    ensures Apply(s, e).members == s.members && Apply(s, e).rules == s.rules
  {
  }

  /** Tasks are never deleted and never change household or due date. */
  lemma StepKeepsTaskRow(s: State, e: Call, t: Id)
    requires Enabled(s, e) && t in s.tasks
    ensures t in Apply(s, e).tasks && Apply(s, e).tasks[t].household == s.tasks[t].household
    ensures Apply(s, e).tasks[t].dueAt == s.tasks[t].dueAt
  {
    StepOnTask(s, e, t);
  }

  lemma StepKeepsEscalations(s: State, e: Call, id: Id)
    requires Consistent(s) && Enabled(s, e) && id in Apply(s, e).escalations
    ensures EscalationOk(Apply(s, e), Apply(s, e).escalations[id])
  {
    StepOnEscalation(s, e, id);
    StepKeepsMembers(s, e);
    StepKeepsTaskRow(s, e, Apply(s, e).escalations[id].taskId);
  }

  lemma StepConsistent(s: State, e: Call)
    requires Consistent(s) && Enabled(s, e)
    ensures Consistent(Apply(s, e))
  {
    var s' := Apply(s, e);
    forall id | id in s'.tasks ensures TaskOk(s', s'.tasks[id]) {
      StepKeepsTasks(s, e, id);
    }
    forall id | id in s'.escalations ensures EscalationOk(s', s'.escalations[id]) {
      StepKeepsEscalations(s, e, id);
    }
  }

  /**
   * In every reachable state: a task is ASSIGNED or CLAIMED iff it has an assignee, an escalation has a
   * claimant iff it has a resolution time, and assignees and claimants belong to the row's own household.
   */
  lemma {:induction false} RunConsistent(s: State, es: seq<Call>)
    requires Consistent(s) && Legal(s, es)
    ensures Consistent(Run(s, es))
    decreases |es|
  {
    if es != [] {
      StepConsistent(s, es[0]);
      RunConsistent(Apply(s, es[0]), es[1..]);
    }
  }

  /** The deadline is the task's due date or, without one, an hour from the drop. */
  predicate DeadlineOk(s: State, e: EscalationEvent) {
    && e.taskId in s.tasks
    && e.deadline == (if s.tasks[e.taskId].dueAt.Some? then s.tasks[e.taskId].dueAt.value else e.createdAt + 3_600_000)
  }

  predicate DeadlinesOk(s: State) {
    forall id :: id in s.escalations ==> DeadlineOk(s, s.escalations[id])
  }

  lemma EmptyStoreConsistent(s: State)
    requires s.tasks == map[] && s.escalations == map[]
    ensures Consistent(s) && DeadlinesOk(s)
  {
  }

  lemma StepDeadlines(s: State, e: Call)
    requires DeadlinesOk(s) && Enabled(s, e)
    ensures DeadlinesOk(Apply(s, e))
  {
    var s' := Apply(s, e);
    forall id | id in s'.escalations ensures DeadlineOk(s', s'.escalations[id]) {
      StepOnEscalation(s, e, id);
      StepKeepsTaskRow(s, e, s'.escalations[id].taskId);
    }
  }

  lemma {:induction false} RunKeepsDeadlines(s: State, es: seq<Call>)
    requires DeadlinesOk(s) && Legal(s, es)
    ensures DeadlinesOk(Run(s, es))
    decreases |es|
  {
    if es != [] {
      StepDeadlines(s, es[0]);
      RunKeepsDeadlines(Apply(s, es[0]), es[1..]);
    }
  }

  /** A drop leaves its task DROPPED, assigned to nobody, with a newly opened escalation. */
  predicate Released(s: State, drop: Call)
    requires drop.DropTask?
  {
    && drop.taskId in s.tasks && s.tasks[drop.taskId].status == Dropped && s.tasks[drop.taskId].assignee.None?
    && drop.escalationId in s.escalations && IsOpenFor(s.escalations[drop.escalationId], drop.tenant, drop.taskId)
  }

  lemma DropReleases(s: State, drop: Call)
    requires Enabled(s, drop) && drop.DropTask? && Drops(s, drop, drop.taskId)
    ensures Released(Apply(s, drop), drop)
  {
    StepOnTask(s, drop, drop.taskId);
    StepOnEscalation(s, drop, drop.escalationId);
  }

  /**
   * In every reachable state every escalation runs until its task's due date, or for an hour if there is none; and a
   * drop then leaves its task DROPPED, assigned to nobody, with such an escalation newly opened.
   */
  lemma RunDeadlines(s: State, es: seq<Call>, drop: Call)
    requires DeadlinesOk(s) && Legal(s, es)
    requires Enabled(Run(s, es), drop) && drop.DropTask? && Drops(Run(s, es), drop, drop.taskId)
    ensures DeadlinesOk(Run(s, es)) && DeadlinesOk(Apply(Run(s, es), drop))
    ensures Released(Apply(Run(s, es), drop), drop)
  {
    RunKeepsDeadlines(s, es);
    StepDeadlines(Run(s, es), drop);
    DropReleases(Run(s, es), drop);
  }

  /** The core lock never refuses a claim that the service lets through to it. */
  lemma CoreLockNeverRefuses(s: State, es: seq<Call>, e: Call)
    requires Consistent(s) && Legal(s, es) && Enabled(Run(s, es), e)
    requires e.ClaimTask? && e.found.Some? && MayClaim(Run(s, es), e.tenant, e.taskId, e.memberId)
    ensures Wins(Run(s, es), e, e.found.value)
  {
    RunConsistent(s, es);
    assert EscalationOk(Run(s, es), Run(s, es).escalations[e.found.value]);
  }
}

/** A claimed task stays locked until it is assigned, routed or dropped again. */
module Locks {
  import opened Base
  import opened Lifecycle

  predicate ClaimedBy(s: State, taskId: Id, memberId: Id) {
    taskId in s.tasks && s.tasks[taskId].status == Claimed && s.tasks[taskId].assignee == Some(memberId)
  }

  /** The calls that take a task away from its claimant, as their own guards tell. */
  predicate Releases(s: State, e: Call, taskId: Id) {
    match e
    case RouteTask(tenant, _, t, today) =>
      t == taskId && OwnsTask(s, tenant, t) && RoutingOf(s, tenant, t, today).assignee.Some?
    case AssignTask(tenant, _, t, memberId) => t == taskId && OwnsTask(s, tenant, t) && OwnsMember(s, tenant, memberId)
    case DropTask(tenant, _, t, _, _) => t == taskId && OwnsTask(s, tenant, t)
    case _ => false
  }

  predicate NoRelease(s: State, es: seq<Call>, taskId: Id)
    requires Legal(s, es)
    decreases |es|
  {
    es == [] || (!Releases(s, es[0], taskId) && NoRelease(Apply(s, es[0]), es[1..], taskId))
  }

  /** Claimed by the member now and after every call of the run. */
  predicate AlwaysClaimedBy(s: State, es: seq<Call>, taskId: Id, memberId: Id)
    requires Legal(s, es)
    decreases |es|
  {
    && ClaimedBy(s, taskId, memberId)
    && (es == [] || AlwaysClaimedBy(Apply(s, es[0]), es[1..], taskId, memberId))
  }

  /** One call: the lock survives exactly the calls that do not release it, and claims leave everything as it was. */
  lemma LockStep(s: State, e: Call, taskId: Id, memberId: Id)
    requires Enabled(s, e) && ClaimedBy(s, taskId, memberId)
    ensures ClaimedBy(Apply(s, e), taskId, memberId) <==> !Releases(s, e, taskId)
    ensures e.ClaimTask? && e.taskId == taskId ==> Apply(s, e) == s
    ensures !Releases(s, e, taskId) ==> Apply(s, e).tasks[taskId] == s.tasks[taskId]
  {
  }

  /** Runs: the task stays with its claimant throughout iff no call releases it. */
  lemma {:induction false} LockedIffNotReleased(s: State, es: seq<Call>, taskId: Id, memberId: Id)
    requires Legal(s, es) && ClaimedBy(s, taskId, memberId)
    ensures AlwaysClaimedBy(s, es, taskId, memberId) <==> NoRelease(s, es, taskId)
    decreases |es|
  {
    if es != [] {
      LockStep(s, es[0], taskId, memberId);
      if !Releases(s, es[0], taskId) {
        LockedIffNotReleased(Apply(s, es[0]), es[1..], taskId, memberId);
      }
    }
  }

  /** A call that does not route, assign or drop this task. */
  predicate LeavesAlone(e: Call, taskId: Id) {
    (e.RouteTask? || e.AssignTask? || e.DropTask?) ==> e.taskId != taskId
  }

  lemma {:induction false} AloneMeansNoRelease(s: State, es: seq<Call>, taskId: Id)
    requires Legal(s, es) && forall i :: 0 <= i < |es| ==> LeavesAlone(es[i], taskId)
    ensures NoRelease(s, es, taskId)
    decreases |es|
  {
    if es != [] {
      assert LeavesAlone(es[0], taskId);
      AloneMeansNoRelease(Apply(s, es[0]), es[1..], taskId);
    }
  }

  /** A claim that changes the task leaves it claimed by the caller. */
  predicate ClaimSucceeds(s: State, e: Call)
    requires Enabled(s, e)
  {
    e.ClaimTask? && MayClaim(s, e.tenant, e.taskId, e.memberId) && ClaimedBy(Apply(s, e), e.taskId, e.memberId)
  }

  /**
   * After a successful claim, no sequence of claims, broadcasts, timer ticks, milestone sweeps, new rows and
   * calls on other tasks takes the task away, and every later claim of it is refused without effect.
   */
  lemma {:induction false} ClaimLocks(s: State, claim: Call, es: seq<Call>, again: Call)
    requires Enabled(s, claim) && ClaimSucceeds(s, claim) && Legal(Apply(s, claim), es)
    requires forall i :: 0 <= i < |es| ==> LeavesAlone(es[i], claim.taskId)
    requires Enabled(Run(Apply(s, claim), es), again) && again.ClaimTask? && again.taskId == claim.taskId
    ensures ClaimedBy(Run(Apply(s, claim), es), claim.taskId, claim.memberId)
    ensures Apply(Run(Apply(s, claim), es), again) == Run(Apply(s, claim), es)
  {
    var s1 := Apply(s, claim);
    AloneMeansNoRelease(s1, es, claim.taskId);
    LockedIffNotReleased(s1, es, claim.taskId, claim.memberId);
    AlwaysAtEnd(s1, es, claim.taskId, claim.memberId);
    LockStep(Run(s1, es), again, claim.taskId, claim.memberId);
  }

  lemma {:induction false} AlwaysAtEnd(s: State, es: seq<Call>, taskId: Id, memberId: Id)
    requires Legal(s, es) && AlwaysClaimedBy(s, es, taskId, memberId)
    ensures ClaimedBy(Run(s, es), taskId, memberId)
    decreases |es|
  {
    if es != [] {
      AlwaysAtEnd(Apply(s, es[0]), es[1..], taskId, memberId);
    }
  }
}

/** Timed broadcast: with a tick every minute, nothing waits eleven minutes. */
module Broadcasts {
  import opened Base
  import opened Lifecycle
  import opened Escalation

  predicate IsWaiting(e: EscalationEvent) {
    e.resolvedAt.None? && e.broadcastAt.None?
  }

  /**
   * The run happens in order, from `clock` on, and no instant of it is more than a minute after the last
   * timer tick (`lastTick` to begin with).
   */
  predicate OnTime(es: seq<Call>, lastTick: Instant, clock: Instant)
    decreases |es|
  {
    && clock <= lastTick + 60_000
    && (es == [] ||
         (clock <= es[0].now && OnTime(es[1..], if es[0].EscalationTimer? then es[0].now else lastTick, es[0].now)))
  }

  function LastTick(es: seq<Call>, lastTick: Instant): Instant
    decreases |es|
  {
    if es == [] then lastTick
    else LastTick(es[1..], if es[0].EscalationTimer? then es[0].now else lastTick)
  }

  function LastInstant(es: seq<Call>, clock: Instant): Instant {
    if es == [] then clock else es[|es| - 1].now
  }

  /** Nothing waiting was already ten minutes old at the last tick. */
  predicate Served(s: State, lastTick: Instant) {
    forall id :: id in s.escalations && IsWaiting(s.escalations[id]) ==>
      s.escalations[id].createdAt > lastTick - 600_000
  }

  /** A tick serves whatever is waiting, and there is nothing to serve in a store without escalations. */
  lemma TickServes(s: State, now: Instant)
    ensures Served(Apply(s, EscalationTimer(now)), now)
  {
  }

  lemma EmptyStoreServed(s: State, now: Instant)
    requires s.escalations == map[]
    ensures Served(s, now)
  {
  }

  lemma StepServed(s: State, e: Call, lastTick: Instant)
    requires Enabled(s, e) && Served(s, lastTick) && lastTick <= e.now
    ensures Served(Apply(s, e), if e.EscalationTimer? then e.now else lastTick)
  {
    var s' := Apply(s, e);
    var tick := if e.EscalationTimer? then e.now else lastTick;
    forall id | id in s'.escalations && IsWaiting(s'.escalations[id])
      ensures s'.escalations[id].createdAt > tick - 600_000
    {
      StepOnEscalation(s, e, id);
    }
  }

  lemma {:induction false} RunServed(s: State, es: seq<Call>, lastTick: Instant, clock: Instant)
    requires Legal(s, es) && Served(s, lastTick) && OnTime(es, lastTick, clock) && lastTick <= clock
    ensures Served(Run(s, es), LastTick(es, lastTick))
    decreases |es|
  {
    if es != [] {
      StepServed(s, es[0], lastTick);
      RunServed(Apply(s, es[0]), es[1..], if es[0].EscalationTimer? then es[0].now else lastTick, es[0].now);
    }
  }

  /**
   * At any instant `t` after the run and within a minute of its last tick, every escalation that is neither
   * resolved nor broadcast is less than eleven minutes old.
   */
  lemma NothingWaitsElevenMinutes(s: State, es: seq<Call>, lastTick: Instant, clock: Instant, t: Instant, id: Id)
    requires Legal(s, es) && Served(s, lastTick) && OnTime(es, lastTick, clock) && lastTick <= clock
    requires LastInstant(es, clock) <= t <= LastTick(es, lastTick) + 60_000
    requires id in Run(s, es).escalations && IsWaiting(Run(s, es).escalations[id])
    ensures t - Run(s, es).escalations[id].createdAt < 660_000
  {
    RunServed(s, es, lastTick, clock);
  }

  /** What a tick broadcasts. */
  function DueSet(s: State, now: Instant): set<Id> {
    set id | id in s.escalations && IsDue(s.escalations[id], now)
  }

  /** A second tick at the same instant, or an earlier one, finds nothing to broadcast and changes nothing. */
  lemma TickIsIdempotent(s: State, now: Instant, again: Instant)
    requires again <= now
    ensures DueSet(Apply(s, EscalationTimer(now)), again) == {}
    ensures Apply(Apply(s, EscalationTimer(now)), EscalationTimer(again)) == Apply(s, EscalationTimer(now))
  {
    var s1 := Apply(s, EscalationTimer(now));
    assert Apply(s1, EscalationTimer(again)).escalations == s1.escalations;
  }

  /** `n` ticks a minute apart, the first one a minute after `start`. */
  function Ticks(start: Instant, n: nat): seq<Call>
    decreases n
  {
    if n == 0 then [] else [EscalationTimer(start + 60_000)] + Ticks(start + 60_000, n - 1)
  }

  lemma {:induction false} TicksMissYoung(s: State, start: Instant, n: nat, id: Id)
    requires id in s.escalations && IsWaiting(s.escalations[id])
    requires s.escalations[id].createdAt > start + n * 60_000 - 600_000
    ensures Legal(s, Ticks(start, n)) && OnTime(Ticks(start, n), start, start)
    ensures LastTick(Ticks(start, n), start) == start + n * 60_000
    ensures id in Run(s, Ticks(start, n)).escalations
    ensures Run(s, Ticks(start, n)).escalations[id] == s.escalations[id]
    decreases n
  {
    if n > 0 {
      var e := EscalationTimer(start + 60_000);
      assert Ticks(start, n)[1..] == Ticks(start + 60_000, n - 1);
      TicksMissYoung(Apply(s, e), start + 60_000, n - 1, id);
    }
  }

  /** The clock can start at any instant up to the first tick. */
  lemma TicksOnTime(start: Instant, n: nat, clock: Instant)
    requires OnTime(Ticks(start, n), start, start) && n > 0 && clock <= start + 60_000
    ensures OnTime(Ticks(start, n), start, clock)
  {
  }

  /**
   * The bound is sharp: an escalation created just after a tick, where the run starts, can wait one millisecond less
   * than eleven minutes.
   */
  lemma ElevenMinutesIsSharp(s: State, id: Id) returns (es: seq<Call>, lastTick: Instant, t: Instant)
    requires id in s.escalations && IsWaiting(s.escalations[id])
    ensures lastTick == s.escalations[id].createdAt - 1
    ensures Legal(s, es) && OnTime(es, lastTick, s.escalations[id].createdAt)
    ensures LastInstant(es, s.escalations[id].createdAt) <= t <= LastTick(es, lastTick) + 60_000
    ensures var after := Run(s, es).escalations;
      id in after && IsWaiting(after[id]) && t - after[id].createdAt == 660_000 - 1
  {
    var created, n := s.escalations[id].createdAt, 10;
    lastTick := created - 1;
    es, t := Ticks(lastTick, n), lastTick + 660_000;
    TicksMissYoung(s, lastTick, n, id);
    TicksOnTime(lastTick, n, created);
    TicksEnd(lastTick, n, created);
  }

  lemma {:induction false} TicksEnd(start: Instant, n: nat, clock: Instant)
    requires n > 0
    ensures LastInstant(Ticks(start, n), clock) == start + n * 60_000
    decreases n
  {
    var rest := Ticks(start + 60_000, n - 1);
    assert Ticks(start, n) == [EscalationTimer(start + 60_000)] + rest;
    if n > 1 {
      TicksEnd(start + 60_000, n - 1, clock);
    }
  }

  /** Such a state can be one that the last tick has served: the escalation alone. */
  lemma SharpStateServed(id: Id, event: EscalationEvent)
    requires IsWaiting(event)
    ensures var s := State([], [], map[], map[id := event], map[], map[]);
      Served(s, event.createdAt - 1) && id in s.escalations && IsWaiting(s.escalations[id])
  {
  }
}

/** Critical overrides, per household and over the whole store. */
module CriticalOverrides {
  import opened Base
  import opened Lifecycle
  import opened Escalation
  import opened Ledger

  function Overriding(s: State, now: Instant): set<Id> {
    set id | id in s.escalations && Overrides(s.escalations[id], now)
  }

  /** The rows one household's sweep checks. */
  function OpenIn(s: State, household: Id): set<Id> {
    set id | id in s.escalations && s.escalations[id].household == household && s.escalations[id].resolvedAt.None?
  }

  /** What one household's sweep reports. */
  function SweepOf(s: State, household: Id, now: Instant): set<Id> {
    set id | id in s.escalations && s.escalations[id].household == household && Overrides(s.escalations[id], now)
  }

  function SumOfSweeps(s: State, households: seq<Id>, now: Instant): nat {
    if households == [] then 0
    else |SweepOf(s, households[0], now)| + SumOfSweeps(s, households[1..], now)
  }

  function SweptBy(s: State, households: seq<Id>, now: Instant): set<Id> {
    set id | id in s.escalations && s.escalations[id].household in households && Overrides(s.escalations[id], now)
  }

  lemma {:induction false} SweepsAddUp(s: State, households: seq<Id>, now: Instant)
    requires forall i, j :: 0 <= i < j < |households| ==> households[i] != households[j]
    ensures SumOfSweeps(s, households, now) == |SweptBy(s, households, now)|
  {
    if households != [] {
      SweepsAddUp(s, households[1..], now);
      assert SweptBy(s, households, now) == SweepOf(s, households[0], now) + SweptBy(s, households[1..], now);
      assert SweepOf(s, households[0], now) !! SweptBy(s, households[1..], now);
    }
  }

  /** The global timer's count is the sum of the household sweeps, over any list of all households. */
  lemma TimerCountsAllSweeps(s: State, households: seq<Id>, now: Instant)
    requires forall i, j :: 0 <= i < j < |households| ==> households[i] != households[j]
    requires forall id :: id in s.escalations ==> s.escalations[id].household in households
    ensures |Overriding(s, now)| == SumOfSweeps(s, households, now)
  {
    SweepsAddUp(s, households, now);
    assert Overriding(s, now) == SweptBy(s, households, now);
  }

  /** Once an event overrides, it overrides at every later instant until it is resolved, whatever happens. */
  lemma {:induction false} OverrideLasts(s: State, es: seq<Call>, id: Id, now: Instant, later: Instant)
    requires Legal(s, es) && id in Overriding(s, now) && now <= later
    ensures id in Overriding(Run(s, es), later) <==> !IsResolved(Run(s, es), id)
    decreases |es|
  {
    OverrideWindow(s.escalations[id], now);
    OverrideWindow(s.escalations[id], later);
    if es != [] {
      StepOnEscalation(s, es[0], id);
      var s1 := Apply(s, es[0]);
      OverrideWindow(s1.escalations[id], now);
      if IsResolved(s1, id) {
        ResolutionIsFinal(s1, es[1..], id);
      } else {
        OverrideLasts(s1, es[1..], id, now, later);
      }
    }
  }
}

/** Milestones fire once, in stage order. */
module Firing {
  import opened Base
  import opened Lifecycle
  import opened Seasonal

  /** The milestones a call fires; its count is what the sweep returns. */
  function FiredBy(s: State, e: Call): set<Id> {
    if e.FireMilestones? then set id | id in s.milestones && MilestoneDue(s.milestones[id], e.now) else {}
  }

  function FiredSet(s: State): set<Id> {
    set id | id in s.milestones && s.milestones[id].fired
  }

  function TotalFired(s: State, es: seq<Call>): nat
    requires Legal(s, es)
    decreases |es|
  {
    if es == [] then 0 else |FiredBy(s, es[0])| + TotalFired(Apply(s, es[0]), es[1..])
  }

  function TimesFired(s: State, es: seq<Call>, id: Id): nat
    requires Legal(s, es)
    decreases |es|
  {
    if es == [] then 0 else (if id in FiredBy(s, es[0]) then 1 else 0) + TimesFired(Apply(s, es[0]), es[1..], id)
  }

  /** New milestones belong to the new project and are unfired. */
  lemma CreatedUnfired(s: State, e: Call, goal: Instant)
    requires Enabled(s, e) && e.CreateProject? && ResolveGoalDate(e.anchor) == Some(goal)
    ensures var added := Stored(e.ids, ComputeMilestones(e.tenant, e.projectId, goal));
      forall id :: id in added ==> id !in s.milestones && !added[id].fired && added[id].project == e.projectId
  {
    var added := Stored(e.ids, ComputeMilestones(e.tenant, e.projectId, goal));
    forall id | id in added ensures id !in s.milestones && !added[id].fired && added[id].project == e.projectId {
      var i :| 0 <= i < |e.ids| && e.ids[i] == id;
    }
  }

  /** Milestones change in nothing but being fired, and a call fires exactly what it reports. */
  lemma MilestoneStep(s: State, e: Call, id: Id)
    requires Enabled(s, e) && id in s.milestones
    ensures id in Apply(s, e).milestones
    ensures Apply(s, e).milestones[id] == s.milestones[id].(fired := s.milestones[id].fired || id in FiredBy(s, e))
    ensures id in FiredBy(s, e) ==> !s.milestones[id].fired
  {
    if e.CreateProject? && ResolveGoalDate(e.anchor).Some? {
      CreatedUnfired(s, e, ResolveGoalDate(e.anchor).value);
    }
  }

  lemma NewMilestone(s: State, e: Call, id: Id)
    requires Enabled(s, e) && id !in s.milestones && id in Apply(s, e).milestones
    ensures !Apply(s, e).milestones[id].fired && id !in FiredBy(s, e)
  {
    if e.CreateProject? && ResolveGoalDate(e.anchor).Some? {
      CreatedUnfired(s, e, ResolveGoalDate(e.anchor).value);
    }
  }

  /** A call fires exactly what it reports, leaves fired milestones fired and creates only unfired ones. */
  lemma StepFires(s: State, e: Call)
    requires Enabled(s, e)
    ensures FiredSet(Apply(s, e)) == FiredSet(s) + FiredBy(s, e)
    ensures FiredSet(s) !! FiredBy(s, e)
  {
    var s' := Apply(s, e);
    forall id ensures id in FiredSet(s') <==> id in FiredSet(s) || id in FiredBy(s, e) {
      if id in s.milestones {
        MilestoneStep(s, e, id);
      } else if id in s'.milestones {
        NewMilestone(s, e, id);
      }
    }
    forall id | id in FiredBy(s, e) ensures id !in FiredSet(s) {
      MilestoneStep(s, e, id);
    }
  }

  /** Over every run the returned counts add up to the number of milestones that became fired. */
  lemma {:induction false} CountsAddUp(s: State, es: seq<Call>)
    requires Legal(s, es)
    ensures |FiredSet(Run(s, es))| == |FiredSet(s)| + TotalFired(s, es)
    decreases |es|
  {
    if es != [] {
      StepFires(s, es[0]);
      CountsAddUp(Apply(s, es[0]), es[1..]);
    }
  }

  /** A milestone is fired by one sweep if it ends up fired and was not to begin with, and otherwise by none. */
  lemma {:induction false} FiredByOneSweep(s: State, es: seq<Call>, id: Id)
    requires Legal(s, es)
    ensures TimesFired(s, es, id)
         == (if id in FiredSet(Run(s, es)) then 1 else 0) - (if id in FiredSet(s) then 1 else 0)
    decreases |es|
  {
    if es != [] {
      StepFires(s, es[0]);
      FiredByOneSweep(Apply(s, es[0]), es[1..], id);
    }
  }

  /** After a sweep exactly the milestones due by then, or fired before, are fired. */
  lemma SweepIsComplete(s: State, now: Instant)
    ensures FiredSet(Apply(s, FireMilestones(now)))
         == FiredSet(s) + set id | id in s.milestones && s.milestones[id].fireAt <= now
  {
  }

  /** Two milestones of one project: the earlier stage is due earlier, and the later one never fires first. */
  predicate InStageOrder(a: Milestone, b: Milestone) {
    a.project == b.project && StageIndex(a.stage) < StageIndex(b.stage) ==>
      a.fireAt < b.fireAt && (b.fired ==> a.fired)
  }

  ghost predicate AllInOrder(ms: map<Id, Milestone>) {
    forall a, b :: a in ms && b in ms ==> InStageOrder(ms[a], ms[b])
  }

  /** Every milestone belongs to a stored project. */
  ghost predicate Attached(ms: map<Id, Milestone>, projects: map<Id, Id>) {
    forall id :: id in ms ==> ms[id].project in projects
  }

  ghost predicate HasStage(ms: map<Id, Milestone>, project: Id, stage: Stage) {
    exists id :: id in ms && ms[id].project == project && ms[id].stage == stage
  }

  /** A project that has milestones has one of every stage, and only one. */
  ghost predicate OneOfEach(ms: map<Id, Milestone>) {
    && (forall id, stage :: id in ms ==> HasStage(ms, ms[id].project, stage))
    && forall a, b :: a in ms && b in ms && ms[a].project == ms[b].project && ms[a].stage == ms[b].stage ==> a == b
  }

  /** All stages of a project are there, due in stage order, and no later one is fired before an earlier one. */
  ghost predicate FiredInOrder(s: State) {
    StagesKept(s.milestones, s.projects)
  }

  ghost predicate StagesKept(ms: map<Id, Milestone>, projects: map<Id, Id>) {
    Attached(ms, projects) && AllInOrder(ms) && OneOfEach(ms)
  }

  /** The project's milestone of the stage is fired. */
  ghost predicate StageFired(s: State, project: Id, stage: Stage) {
    exists id :: id in s.milestones && s.milestones[id].project == project && s.milestones[id].stage == stage
      && s.milestones[id].fired
  }

  /** The project's fired stages are the first `k` of the stage order. */
  ghost predicate FiredUpTo(s: State, project: Id, k: nat) {
    k <= |STAGE_ORDER| && forall stage :: StageFired(s, project, stage) <==> StageIndex(stage) < k
  }

  lemma EarlierStageFired(s: State, project: Id, a: Stage, b: Stage)
    requires FiredInOrder(s) && StageFired(s, project, b) && StageIndex(a) <= StageIndex(b)
    ensures StageFired(s, project, a)
  {
    var later :| later in s.milestones && s.milestones[later].project == project
      && s.milestones[later].stage == b && s.milestones[later].fired;
    assert HasStage(s.milestones, s.milestones[later].project, a);
    var earlier :| earlier in s.milestones && s.milestones[earlier].project == project
      && s.milestones[earlier].stage == a;
    assert InStageOrder(s.milestones[earlier], s.milestones[later]);
    if StageIndex(a) == StageIndex(b) {
      assert earlier == later;
    }
  }

  /** The fired stages of every project are a prefix of the stage order. */
  lemma FiredIsPrefix(s: State, project: Id)
    requires FiredInOrder(s)
    ensures exists k :: FiredUpTo(s, project, k)
  {
    forall a: Stage, b: Stage | StageFired(s, project, b) && StageIndex(a) <= StageIndex(b)
      ensures StageFired(s, project, a)
    {
      EarlierStageFired(s, project, a, b);
    }
    var k := if !StageFired(s, project, Prep30d) then 0
             else if !StageFired(s, project, AssetCheck14d) then 1
             else if !StageFired(s, project, Final48h) then 2
             else if !StageFired(s, project, Jit15m) then 3 else 4;
    assert FiredUpTo(s, project, k);
  }

  lemma CreatedInOrder(s: State, e: Call, goal: Instant, a: Id, b: Id)
    requires Enabled(s, e) && e.CreateProject? && ResolveGoalDate(e.anchor) == Some(goal)
    requires var added := Stored(e.ids, ComputeMilestones(e.tenant, e.projectId, goal)); a in added && b in added
    ensures var added := Stored(e.ids, ComputeMilestones(e.tenant, e.projectId, goal)); InStageOrder(added[a], added[b])
  {
    var added := Stored(e.ids, ComputeMilestones(e.tenant, e.projectId, goal));
    CreatedUnfired(s, e, goal);
    var i :| 0 <= i < |e.ids| && e.ids[i] == a;
    var j :| 0 <= j < |e.ids| && e.ids[j] == b;
    MilestonesAscend(e.tenant, e.projectId, goal, i, j);
    MilestonesAscend(e.tenant, e.projectId, goal, j, i);
  }

  /** The project's milestones join the old ones, which belong to other projects. */
  lemma MilestonesOf(s: State, e: Call, goal: Instant)
    requires Enabled(s, e) && e.CreateProject? && ResolveGoalDate(e.anchor) == Some(goal)
    ensures Apply(s, e).milestones == s.milestones + Stored(e.ids, ComputeMilestones(e.tenant, e.projectId, goal))
    ensures Apply(s, e).projects == s.projects[e.projectId := e.tenant] && e.projectId !in s.projects
  {
  }

  /** The rows of a new project under their ids: row `i` is of stage `i`. */
  lemma StoredStage(ids: seq<Id>, tenant: Id, project: Id, goal: Instant, i: nat)
    requires |ids| == |STAGE_ORDER| && forall i, j :: 0 <= i < j < |ids| ==> ids[i] != ids[j]
    requires i < |ids|
    ensures var added := Stored(ids, ComputeMilestones(tenant, project, goal));
      && ids[i] in added && added[ids[i]].project == project && StageIndex(added[ids[i]].stage) == i
  {
    MilestonesAscend(tenant, project, goal, i, i);
  }

  lemma SameStage(a: Stage, b: Stage)
    requires StageIndex(a) == StageIndex(b)
    ensures a == b
  {
  }

  lemma AddedOneOfEach(ids: seq<Id>, tenant: Id, project: Id, goal: Instant)
    requires |ids| == |STAGE_ORDER| && forall i, j :: 0 <= i < j < |ids| ==> ids[i] != ids[j]
    ensures OneOfEach(Stored(ids, ComputeMilestones(tenant, project, goal)))
  {
    var added := Stored(ids, ComputeMilestones(tenant, project, goal));
    forall i: nat | i < |ids|
      ensures ids[i] in added && added[ids[i]].project == project && StageIndex(added[ids[i]].stage) == i
    {
      StoredStage(ids, tenant, project, goal, i);
    }
    StagesByIndex(added, ids, project);
  }

  lemma StagesByIndex(added: map<Id, Milestone>, ids: seq<Id>, project: Id)
    requires |ids| == |STAGE_ORDER| && forall id :: id in added <==> id in ids
    requires forall i: nat :: i < |ids| ==>
      ids[i] in added && added[ids[i]].project == project && StageIndex(added[ids[i]].stage) == i
    ensures OneOfEach(added)
  {
    forall id, stage: Stage | id in added ensures HasStage(added, added[id].project, stage) {
      var k :| 0 <= k < |ids| && ids[k] == id;
      SameStage(added[ids[StageIndex(stage)]].stage, stage);
    }
    forall a, b | a in added && b in added && added[a].stage == added[b].stage ensures a == b {
      var i :| 0 <= i < |ids| && ids[i] == a;
      var j :| 0 <= j < |ids| && ids[j] == b;
    }
  }

  lemma JoinedOneOfEach(ms: map<Id, Milestone>, added: map<Id, Milestone>, projects: map<Id, Id>, project: Id)
    requires Attached(ms, projects) && project !in projects && OneOfEach(ms) && OneOfEach(added)
    requires forall id :: id in added ==> id !in ms && added[id].project == project
    ensures OneOfEach(ms + added)
  {
    var all := ms + added;
    forall id, stage | id in all ensures HasStage(all, all[id].project, stage) {
      var part := if id in added then added else ms;
      assert HasStage(part, part[id].project, stage);
      var other :| other in part && part[other].project == part[id].project && part[other].stage == stage;
      assert other in all && all[other] == part[other];
    }
  }

  lemma JoinedInOrder(ms: map<Id, Milestone>, added: map<Id, Milestone>, projects: map<Id, Id>, project: Id, owner: Id)
    requires Attached(ms, projects) && project !in projects && AllInOrder(ms) && AllInOrder(added)
    requires forall id :: id in added ==> added[id].project == project
    ensures Attached(ms + added, projects[project := owner]) && AllInOrder(ms + added)
  {
  }

  lemma AddedInOrder(s: State, e: Call, goal: Instant)
    requires Enabled(s, e) && e.CreateProject? && ResolveGoalDate(e.anchor) == Some(goal)
    ensures AllInOrder(Stored(e.ids, ComputeMilestones(e.tenant, e.projectId, goal)))
  {
    var added := Stored(e.ids, ComputeMilestones(e.tenant, e.projectId, goal));
    forall a, b | a in added && b in added ensures InStageOrder(added[a], added[b]) {
      CreatedInOrder(s, e, goal, a, b);
    }
  }

  lemma JoinedStages(ms: map<Id, Milestone>, added: map<Id, Milestone>, projects: map<Id, Id>, project: Id, owner: Id)
    requires StagesKept(ms, projects) && project !in projects && AllInOrder(added) && OneOfEach(added)
    requires forall id :: id in added ==> id !in ms && added[id].project == project
    ensures StagesKept(ms + added, projects[project := owner])
  {
    JoinedInOrder(ms, added, projects, project, owner);
    JoinedOneOfEach(ms, added, projects, project);
  }

  lemma NewStagesKept(s: State, e: Call, goal: Instant)
    requires FiredInOrder(s) && Enabled(s, e) && e.CreateProject? && ResolveGoalDate(e.anchor) == Some(goal)
    ensures var added := Stored(e.ids, ComputeMilestones(e.tenant, e.projectId, goal));
      StagesKept(s.milestones + added, s.projects[e.projectId := e.tenant])
  {
    CreatedUnfired(s, e, goal);
    AddedInOrder(s, e, goal);
    AddedOneOfEach(e.ids, e.tenant, e.projectId, goal);
    JoinedStages(s.milestones, Stored(e.ids, ComputeMilestones(e.tenant, e.projectId, goal)), s.projects, e.projectId,
      e.tenant);
  }

  lemma DatedProjectInOrder(s: State, e: Call, goal: Instant)
    requires FiredInOrder(s) && Enabled(s, e) && e.CreateProject? && ResolveGoalDate(e.anchor) == Some(goal)
    ensures FiredInOrder(Apply(s, e))
  {
    NewStagesKept(s, e, goal);
    MilestonesOf(s, e, goal);
  }

  /** The goal of the project: its explicit date, without one the opening date, without both the window's start. */
  predicate IsGoal(anchor: Anchor, goal: Instant) {
    || anchor.goalDate == Some(goal)
    || (anchor.goalDate.None? && anchor.opens == Some(goal))
    || (anchor.goalDate.None? && anchor.opens.None? && anchor.targetStart == Some(goal))
  }

  /** The milestone of the stage is stored under the id, unfired, that long before the goal. */
  predicate Scheduled(ms: map<Id, Milestone>, id: Id, e: Call, stage: Stage, fireAt: Instant)
    requires e.CreateProject?
  {
    id in ms && ms[id] == Milestone(e.tenant, e.projectId, stage, fireAt, false)
  }

  /** Thirty days, fourteen days, forty-eight hours and fifteen minutes before the goal. */
  predicate AllScheduled(ms: map<Id, Milestone>, e: Call, goal: Instant)
    requires e.CreateProject?
  {
    && |e.ids| == 4
    && Scheduled(ms, e.ids[0], e, Prep30d, goal - 2_592_000_000)
    && Scheduled(ms, e.ids[1], e, AssetCheck14d, goal - 1_209_600_000)
    && Scheduled(ms, e.ids[2], e, Final48h, goal - 172_800_000)
    && Scheduled(ms, e.ids[3], e, Jit15m, goal - 900_000)
  }

  /** The ids are those of the project's new milestones, and all others stay as they are. */
  ghost predicate AddsOnly(before: map<Id, Milestone>, after: map<Id, Milestone>, ids: seq<Id>) {
    && (forall id :: id in after <==> id in before || id in ids)
    && (forall id :: id in before ==> after[id] == before[id])
  }

  lemma StoredScheduled(e: Call, goal: Instant)
    requires e.CreateProject? && |e.ids| == |STAGE_ORDER|
    requires forall i, j :: 0 <= i < j < |e.ids| ==> e.ids[i] != e.ids[j]
    ensures AllScheduled(Stored(e.ids, ComputeMilestones(e.tenant, e.projectId, goal)), e, goal)
  {
    MilestonesAre(e.tenant, e.projectId, goal);
    var rows := ComputeMilestones(e.tenant, e.projectId, goal);
    var added := Stored(e.ids, rows);
    assert forall i :: 0 <= i < 4 ==> e.ids[i] in added && added[e.ids[i]] == rows[i];
  }

  lemma JoinedScheduled(ms: map<Id, Milestone>, added: map<Id, Milestone>, e: Call, goal: Instant)
    requires e.CreateProject? && AllScheduled(added, e, goal) && forall id :: id in added <==> id in e.ids
    requires forall id :: id in e.ids ==> id !in ms
    ensures AllScheduled(ms + added, e, goal) && AddsOnly(ms, ms + added, e.ids)
  {
  }

  /**
   * Creating a project stores milestones for thirty days, fourteen days, forty-eight hours and fifteen minutes before
   * its goal and touches no other milestone.
   */
  lemma ProjectMilestones(s: State, e: Call, goal: Instant)
    requires Enabled(s, e) && e.CreateProject? && IsGoal(e.anchor, goal)
    ensures AllScheduled(Apply(s, e).milestones, e, goal)
    ensures AddsOnly(s.milestones, Apply(s, e).milestones, e.ids)
  {
    var added := Stored(e.ids, ComputeMilestones(e.tenant, e.projectId, goal));
    GoalPrecedence(e.anchor, goal);
    MilestonesOf(s, e, goal);
    StoredScheduled(e, goal);
    JoinedScheduled(s.milestones, added, e, goal);
  }

  /** Without a goal it stores none. */
  lemma UndatedProject(s: State, e: Call)
    requires Enabled(s, e) && e.CreateProject? && e.anchor == Anchor(None, None, None)
    ensures Apply(s, e).milestones == s.milestones && Apply(s, e).projects == s.projects[e.projectId := e.tenant]
  {
  }

  lemma ProjectInOrder(s: State, e: Call)
    requires FiredInOrder(s) && Enabled(s, e) && e.CreateProject?
    ensures FiredInOrder(Apply(s, e))
  {
    var goal := ResolveGoalDate(e.anchor);
    if goal.Some? {
      DatedProjectInOrder(s, e, goal.value);
    } else {
      NoGoal(e.anchor);
      UndatedProject(s, e);
    }
  }

  lemma EmptyStoreInOrder(s: State)
    requires s.milestones == map[]
    ensures FiredInOrder(s)
  {
  }

  /** The same milestones, but for being fired. */
  ghost predicate Refired(ms: map<Id, Milestone>, ms': map<Id, Milestone>) {
    ms.Keys == ms'.Keys && forall id :: id in ms ==> ms'[id] == ms[id].(fired := ms'[id].fired)
  }

  lemma SameProjects(s: State, e: Call)
    requires Enabled(s, e) && !e.CreateProject?
    ensures Apply(s, e).projects == s.projects
  {
  }

  lemma SameMilestones(s: State, e: Call)
    requires Enabled(s, e) && !e.CreateProject?
    ensures Apply(s, e).milestones.Keys == s.milestones.Keys
  {
  }

  lemma StepRefires(s: State, e: Call)
    requires Enabled(s, e) && !e.CreateProject?
    ensures Refired(s.milestones, Apply(s, e).milestones)
  {
    SameMilestones(s, e);
    forall id | id in s.milestones
      ensures Apply(s, e).milestones[id] == s.milestones[id].(fired := Apply(s, e).milestones[id].fired)
    {
      MilestoneStep(s, e, id);
    }
  }

  lemma RefiredOneOfEach(ms: map<Id, Milestone>, ms': map<Id, Milestone>)
    requires Refired(ms, ms') && OneOfEach(ms)
    ensures OneOfEach(ms')
  {
    forall id, stage | id in ms' ensures HasStage(ms', ms'[id].project, stage) {
      assert HasStage(ms, ms[id].project, stage);
      var other :| other in ms && ms[other].project == ms[id].project && ms[other].stage == stage;
      assert other in ms';
    }
  }

  lemma StepKeepsOrder(s: State, e: Call)
    requires AllInOrder(s.milestones) && Enabled(s, e) && !e.CreateProject?
    ensures AllInOrder(Apply(s, e).milestones)
  {
    var s' := Apply(s, e);
    forall a, b | a in s'.milestones && b in s'.milestones ensures InStageOrder(s'.milestones[a], s'.milestones[b]) {
      assert InStageOrder(s.milestones[a], s.milestones[b]);
    }
  }

  lemma StepInOrder(s: State, e: Call)
    requires FiredInOrder(s) && Enabled(s, e) && !e.CreateProject?
    ensures FiredInOrder(Apply(s, e))
  {
    StepKeepsOrder(s, e);
    SameProjects(s, e);
    StepRefires(s, e);
    RefiredOneOfEach(s.milestones, Apply(s, e).milestones);
  }

  lemma {:induction false} RunInOrder(s: State, es: seq<Call>)
    requires Legal(s, es) && FiredInOrder(s)
    ensures FiredInOrder(Run(s, es))
    decreases |es|
  {
    if es != [] {
      if es[0].CreateProject? {
        ProjectInOrder(s, es[0]);
      } else {
        StepInOrder(s, es[0]);
      }
      RunInOrder(Apply(s, es[0]), es[1..]);
    }
  }

  /** In every reachable state the fired stages of each project are a prefix of the stage order. */
  lemma RunFiresInOrder(s: State, es: seq<Call>, project: Id)
    requires Legal(s, es) && FiredInOrder(s)
    ensures FiredInOrder(Run(s, es)) && exists k :: FiredUpTo(Run(s, es), project, k)
  {
    RunInOrder(s, es);
    FiredIsPrefix(Run(s, es), project);
  }
}
