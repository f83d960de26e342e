/**
 * The household's stored state and the effect of every service call on it.
 *
 * A call is one atomic step: `Apply(s, e)` is the state it leaves. `Enabled(s, e)` says that what the
 * database chose (fresh ids, the row returned by `findFirst`) is a choice it could have made.
 */
module Lifecycle {
  import opened Base
  import opened Household
  import opened Sequences
  import opened Escalation
  import opened Routing
  import opened Seasonal

  datatype Status = Open | Assigned | Claimed | Dropped | Done | Blocked

  datatype Task = Task(household: Id, status: Status, assignee: Option<Id>, dueAt: Option<Instant>, draft: TaskDraft)

  datatype State = State(
    members: seq<Member>,
    rules: seq<Rule>,
    tasks: map<Id, Task>,
    escalations: map<Id, EscalationEvent>,
    projects: map<Id, Id>,
    milestones: map<Id, Milestone>)

  /** A service call: the household it is made for (where it is made for one), its instant and its arguments. */
  datatype Call =
    | CreateTask(
        tenant: Id, now: Instant, taskId: Id, draft: TaskDraft, dueAt: Option<Instant>, noRoute: bool, today: Date)
    | RouteTask(tenant: Id, now: Instant, taskId: Id, today: Date)
    | AssignTask(tenant: Id, now: Instant, taskId: Id, memberId: Id)
    | DropTask(tenant: Id, now: Instant, taskId: Id, memberId: Id, escalationId: Id)
    | ClaimTask(tenant: Id, now: Instant, taskId: Id, memberId: Id, found: Option<Id>)
    | BroadcastEscalation(tenant: Id, now: Instant, escalationId: Id)
    | CreateProject(tenant: Id, now: Instant, projectId: Id, anchor: Anchor, ids: seq<Id>)
    | EscalationTimer(now: Instant)
    | FireMilestones(now: Instant)

  predicate IsGlobal(e: Call) {
    e.EscalationTimer? || e.FireMilestones?
  }

  // ---------- lookups, scoped to the calling household ----------

  predicate OwnsTask(s: State, tenant: Id, taskId: Id) {
    taskId in s.tasks && s.tasks[taskId].household == tenant
  }

  predicate OwnsEscalation(s: State, tenant: Id, escalationId: Id) {
    escalationId in s.escalations && s.escalations[escalationId].household == tenant
  }

  predicate OwnsMember(s: State, tenant: Id, memberId: Id) {
    exists m :: m in s.members && m.id == memberId && m.household == tenant
  }

  function ActiveIn(tenant: Id): Member -> Option<Member> {
    (m: Member) => if m.household == tenant && m.active then Some(m) else None
  }

  function RuleOf(tenant: Id): Rule -> Option<Rule> {
    (r: Rule) => if r.household == tenant then Some(r) else None
  }

  /** Open escalations a claim by `tenant` on `taskId` can find. */
  predicate IsOpenFor(e: EscalationEvent, tenant: Id, taskId: Id) {
    e.household == tenant && e.taskId == taskId && e.resolvedAt.None?
  }

  /** What `findFirst(... orderBy createdAt desc)` may return; ties are the database's choice. */
  predicate IsMostRecentOpen(escalations: map<Id, EscalationEvent>, tenant: Id, taskId: Id, found: Option<Id>) {
    match found
    case None => forall id :: id in escalations ==> !IsOpenFor(escalations[id], tenant, taskId)
    case Some(f) =>
      && f in escalations && IsOpenFor(escalations[f], tenant, taskId)
      && forall id :: id in escalations && IsOpenFor(escalations[id], tenant, taskId) ==>
        escalations[id].createdAt <= escalations[f].createdAt
  }

  predicate Enabled(s: State, e: Call) {
    match e
    case CreateTask(_, _, taskId, _, _, _, _) => taskId !in s.tasks
    case DropTask(_, _, _, _, escalationId) => escalationId !in s.escalations
    case ClaimTask(tenant, _, taskId, _, found) => IsMostRecentOpen(s.escalations, tenant, taskId, found)
    case CreateProject(_, _, projectId, _, ids) =>
      && projectId !in s.projects && |ids| == |STAGE_ORDER|
      && (forall i, j :: 0 <= i < j < |ids| ==> ids[i] != ids[j])
      && (forall id :: id in ids ==> id !in s.milestones)
    case _ => true
  }

  // ---------- effects ----------

  function SetTask(s: State, taskId: Id, status: Status, assignee: Option<Id>): State
    requires taskId in s.tasks
  {
    s.(tasks := s.tasks[taskId := s.tasks[taskId].(status := status, assignee := assignee)])
  }

  function RoutingOf(s: State, tenant: Id, taskId: Id, today: Date): Decision
    requires taskId in s.tasks
  {
    Routed(s.tasks[taskId].draft, Collect(ActiveIn(tenant), s.members), Collect(RuleOf(tenant), s.rules), today)
  }

  function RouteStep(s: State, tenant: Id, taskId: Id, today: Date): State {
    if !OwnsTask(s, tenant, taskId) then s
    else
      var assignee := RoutingOf(s, tenant, taskId, today).assignee;
      if assignee.Some? then SetTask(s, taskId, Assigned, assignee) else s
  }

  function DropStep(s: State, tenant: Id, now: Instant, taskId: Id, escalationId: Id): State {
    if !OwnsTask(s, tenant, taskId) then s
    else
      var dueAt := s.tasks[taskId].dueAt;
      var deadline := if dueAt.Some? then dueAt.value else now + 60 * MINUTE;
      SetTask(s, taskId, Dropped, None).(
        escalations := s.escalations[
          escalationId := EscalationEvent(tenant, taskId, 0, deadline, now, None, None, None)])
  }

  /** The checks of `claim` that come before any escalation is looked up. */
  predicate MayClaim(s: State, tenant: Id, taskId: Id, memberId: Id) {
    && OwnsTask(s, tenant, taskId)
    && OwnsMember(s, tenant, memberId)
    && s.tasks[taskId].status !in {Claimed, Done}
  }

  function ClaimStep(s: State, tenant: Id, now: Instant, taskId: Id, memberId: Id, found: Option<Id>): State
    requires found.Some? ==> found.value in s.escalations
  {
    if !MayClaim(s, tenant, taskId, memberId) then s
    else if found.None? then SetTask(s, taskId, Claimed, Some(memberId))
    else
      var result := Claim(s.escalations[found.value], memberId, now);
      if !result.ok then s
      else SetTask(s, taskId, Claimed, Some(memberId)).(escalations := s.escalations[found.value := result.event])
  }

  /** Open, not yet broadcast, and at least ten minutes old. */
  predicate IsDue(e: EscalationEvent, now: Instant) {
    e.resolvedAt.None? && e.broadcastAt.None? && e.createdAt <= now - BROADCAST_AFTER_MINUTES * MINUTE
  }

  /** Unresolved and not broadcast ten minutes after its creation. */
  predicate IsLate(e: EscalationEvent, now: Instant)
    ensures IsLate(e, now) <==> IsDue(e, now)
  {
    e.resolvedAt.None? && e.broadcastAt.None? && e.createdAt + 600_000 <= now
  }

  function Ticked(e: EscalationEvent, now: Instant): EscalationEvent {
    if IsDue(e, now) then e.(broadcastAt := Some(now)) else e
  }

  function TimerStep(s: State, now: Instant): State {
    s.(escalations := map id | id in s.escalations :: Ticked(s.escalations[id], now))
  }

  predicate MilestoneDue(m: Milestone, now: Instant) {
    !m.fired && m.fireAt <= now
  }

  function Fired(m: Milestone, now: Instant): Milestone {
    if MilestoneDue(m, now) then m.(fired := true) else m
  }

  function FireStep(s: State, now: Instant): State {
    s.(milestones := map id | id in s.milestones :: Fired(s.milestones[id], now))
  }

  /** The rows of `createMany`: `rows[i]` stored under `ids[i]`. */
  function Stored(ids: seq<Id>, rows: seq<Milestone>): (r: map<Id, Milestone>)
    requires |ids| == |rows|
    requires forall i, j :: 0 <= i < j < |ids| ==> ids[i] != ids[j]
    ensures forall id :: id in r <==> id in ids
    ensures forall i :: 0 <= i < |ids| ==> r[ids[i]] == rows[i]
  {
    if ids == [] then map[]
    else
      var n := |ids| - 1;
      assert forall i :: 0 <= i < n ==> ids[..n][i] == ids[i];
      Stored(ids[..n], rows[..n])[ids[n] := rows[n]]
  }

  function ProjectStep(s: State, tenant: Id, projectId: Id, anchor: Anchor, ids: seq<Id>): State
    requires |ids| == |STAGE_ORDER| && forall i, j :: 0 <= i < j < |ids| ==> ids[i] != ids[j]
  {
    var goal := ResolveGoalDate(anchor);
    s.(projects := s.projects[projectId := tenant],
       milestones := if goal.None? then s.milestones
                     else s.milestones + Stored(ids, ComputeMilestones(tenant, projectId, goal.value)))
  }

  function Apply(s: State, e: Call): State
    requires Enabled(s, e)
  {
    match e
    case CreateTask(tenant, _, taskId, draft, dueAt, noRoute, today) =>
      var created := s.(tasks := s.tasks[taskId := Task(tenant, Open, None, dueAt, draft)]);
      if noRoute then created else RouteStep(created, tenant, taskId, today)
    case RouteTask(tenant, _, taskId, today) => RouteStep(s, tenant, taskId, today)
    case AssignTask(tenant, _, taskId, memberId) =>
      if OwnsTask(s, tenant, taskId) && OwnsMember(s, tenant, memberId)
      then SetTask(s, taskId, Assigned, Some(memberId)) else s
    case DropTask(tenant, now, taskId, _, escalationId) => DropStep(s, tenant, now, taskId, escalationId)
    case ClaimTask(tenant, now, taskId, memberId, found) => ClaimStep(s, tenant, now, taskId, memberId, found)
    case BroadcastEscalation(tenant, now, id) =>
      if OwnsEscalation(s, tenant, id)
      then s.(escalations := s.escalations[id := s.escalations[id].(broadcastAt := Some(now))]) else s
    case CreateProject(tenant, _, projectId, anchor, ids) => ProjectStep(s, tenant, projectId, anchor, ids)
    case EscalationTimer(now) => TimerStep(s, now)
    case FireMilestones(now) => FireStep(s, now)
  }

  // ---------- runs ----------

  /** A serialized run: each call is enabled in the state its predecessors left. */
  predicate Legal(s: State, es: seq<Call>)
    decreases |es|
  {
    es == [] || (Enabled(s, es[0]) && Legal(Apply(s, es[0]), es[1..]))
  }

  function Run(s: State, es: seq<Call>): State
    requires Legal(s, es)
    decreases |es|
  {
    if es == [] then s else Run(Apply(s, es[0]), es[1..])
  }

  // ---------- what a step can do to an escalation ----------

  /** A drop that finds its task. */
  predicate Drops(s: State, e: Call, taskId: Id) {
    e.DropTask? && e.taskId == taskId && OwnsTask(s, e.tenant, taskId)
  }

  /** A claim that finds an open escalation and wins it. */
  predicate Wins(s: State, e: Call, id: Id) {
    && e.ClaimTask? && e.found == Some(id) && MayClaim(s, e.tenant, e.taskId, e.memberId)
    && id in s.escalations && Claim(s.escalations[id], e.memberId, e.now).ok
  }

  /** The only escalation that can appear is the one a successful drop opens. */
  predicate Opens(s: State, e: Call, id: Id) {
    e.DropTask? && e.escalationId == id && OwnsTask(s, e.tenant, e.taskId)
  }

  /** A call that opens the escalation: it was not there, and it starts open and un-broadcast. */
  predicate OpensFresh(s: State, e: Call, id: Id, after: EscalationEvent) {
    Opens(s, e, id) ==>
      && id !in s.escalations && IsOpenFor(after, e.tenant, e.taskId)
      && after.claimedBy.None? && after.broadcastAt.None? && after.createdAt == e.now && after.tier == 0
      && var dueAt := s.tasks[e.taskId].dueAt;
        after.deadline == if dueAt.Some? then dueAt.value else e.now + 3_600_000
  }

  /** When the call leaves the event broadcast: on demand, or by a tick once it is open for ten minutes. */
  predicate BroadcastAfter(s: State, e: Call, id: Id, before: EscalationEvent, at: Option<Instant>) {
    if e.BroadcastEscalation? && e.escalationId == id && e.tenant == before.household then at == Some(e.now)
    else if e.EscalationTimer? && IsLate(before, e.now) then at == Some(e.now)
    else at == before.broadcastAt
  }

  /** A call on an escalation that was there: claimed by the winner only, broadcast as told, otherwise unchanged. */
  predicate KeepsOrWins(s: State, e: Call, id: Id, before: EscalationEvent, after: EscalationEvent) {
    && after == before.(
         broadcastAt := after.broadcastAt, claimedBy := after.claimedBy, resolvedAt := after.resolvedAt)
    && (Wins(s, e, id) ==>
          && after.claimedBy == Some(e.memberId) && after.resolvedAt == Some(e.now)
          && e.taskId == before.taskId)
    && (!Wins(s, e, id) ==> after.claimedBy == before.claimedBy && after.resolvedAt == before.resolvedAt)
    && BroadcastAfter(s, e, id, before, after.broadcastAt)
  }

  lemma EscalationsGrow(s: State, e: Call, id: Id)
    requires Enabled(s, e)
    ensures id in Apply(s, e).escalations <==> id in s.escalations || Opens(s, e, id)
    ensures Opens(s, e, id) ==> OpensFresh(s, e, id, Apply(s, e).escalations[id])
  {
  }

  lemma ClaimKeeps(s: State, e: Call, id: Id)
    requires Enabled(s, e) && e.ClaimTask? && id in s.escalations
    ensures id in Apply(s, e).escalations && KeepsOrWins(s, e, id, s.escalations[id], Apply(s, e).escalations[id])
  {
  }

  lemma DropKeeps(s: State, e: Call, id: Id)
    requires Enabled(s, e) && e.DropTask? && id in s.escalations
    ensures id in Apply(s, e).escalations && Apply(s, e).escalations[id] == s.escalations[id]
  {
  }

  lemma BroadcastKeeps(s: State, e: Call, id: Id)
    requires Enabled(s, e) && (e.BroadcastEscalation? || e.EscalationTimer?) && id in s.escalations
    ensures id in Apply(s, e).escalations && KeepsOrWins(s, e, id, s.escalations[id], Apply(s, e).escalations[id])
  {
  }

  /** The other calls do not touch the escalations. */
  lemma OthersKeep(s: State, e: Call)
    requires Enabled(s, e) && !e.ClaimTask? && !e.DropTask? && !e.BroadcastEscalation? && !e.EscalationTimer?
    ensures Apply(s, e).escalations == s.escalations
  {
  }

  lemma EscalationKept(s: State, e: Call, id: Id)
    requires Enabled(s, e) && id in s.escalations
    ensures id in Apply(s, e).escalations && KeepsOrWins(s, e, id, s.escalations[id], Apply(s, e).escalations[id])
  {
    if e.ClaimTask? {
      ClaimKeeps(s, e, id);
    } else if e.DropTask? {
      DropKeeps(s, e, id);
    } else if e.BroadcastEscalation? || e.EscalationTimer? {
      BroadcastKeeps(s, e, id);
    } else {
      OthersKeep(s, e);
    }
  }

  lemma StepOnEscalation(s: State, e: Call, id: Id)
    requires Enabled(s, e)
    ensures var s' := Apply(s, e);
      && (id in s'.escalations <==> id in s.escalations || Opens(s, e, id))
      && (Opens(s, e, id) ==> OpensFresh(s, e, id, s'.escalations[id]))
      && (id in s.escalations ==> KeepsOrWins(s, e, id, s.escalations[id], s'.escalations[id]))
  {
    EscalationsGrow(s, e, id);
    if id in s.escalations {
      EscalationKept(s, e, id);
    }
  }

  // ---------- what a step can do to a task ----------

  /** The claim goes through: its guards, and nobody in the found event's way. */
  predicate ClaimPasses(s: State, e: Call, before: Task)
    requires e.ClaimTask? && Enabled(s, e)
  {
    && e.tenant == before.household && OwnsMember(s, e.tenant, e.memberId)
    && before.status != Claimed && before.status != Done
    && (e.found.Some? ==> s.escalations[e.found.value].claimedBy.None?)
  }

  /** The status and assignee a call leaves a stored task with. */
  function LeftWith(s: State, e: Call, t: Id): (Status, Option<Id>)
    requires Enabled(s, e) && t in s.tasks
  {
    var before := s.tasks[t];
    var same := (before.status, before.assignee);
    match e
    case DropTask(tenant, _, id, _, _) => if id == t && tenant == before.household then (Dropped, None) else same
    case ClaimTask(_, _, id, memberId, _) =>
      if id == t && ClaimPasses(s, e, before) then (Claimed, Some(memberId)) else same
    case AssignTask(tenant, _, id, memberId) =>
      if id == t && tenant == before.household && OwnsMember(s, tenant, memberId) then (Assigned, Some(memberId))
      else same
    case RouteTask(tenant, _, id, today) =>
      if id == t && tenant == before.household && RoutingOf(s, tenant, t, today).assignee.Some?
      then (Assigned, RoutingOf(s, tenant, t, today).assignee) else same
    case _ => same
  }

  /** The task is stored with that status and assignee, and otherwise as it was. */
  predicate LeftAs(before: Task, tasks: map<Id, Task>, t: Id, left: (Status, Option<Id>)) {
    t in tasks && tasks[t] == before.(status := left.0, assignee := left.1)
  }

  lemma RouteLeaves(s: State, tenant: Id, taskId: Id, today: Date, t: Id)
    requires t in s.tasks
    ensures LeftAs(s.tasks[t], RouteStep(s, tenant, taskId, today).tasks, t,
      if taskId == t && tenant == s.tasks[t].household && RoutingOf(s, tenant, t, today).assignee.Some?
      then (Assigned, RoutingOf(s, tenant, t, today).assignee) else (s.tasks[t].status, s.tasks[t].assignee))
  {
  }

  lemma CreateLeaves(s: State, e: Call, t: Id)
    requires Enabled(s, e) && e.CreateTask? && t in s.tasks
    ensures LeftAs(s.tasks[t], Apply(s, e).tasks, t, (s.tasks[t].status, s.tasks[t].assignee))
  {
    var created := s.(tasks := s.tasks[e.taskId := Task(e.tenant, Open, None, e.dueAt, e.draft)]);
    RouteLeaves(created, e.tenant, e.taskId, e.today, t);
  }

  lemma ClaimLeaves(s: State, e: Call, t: Id)
    requires Enabled(s, e) && e.ClaimTask? && t in s.tasks
    ensures LeftAs(s.tasks[t], Apply(s, e).tasks, t, LeftWith(s, e, t))
  {
  }

  lemma DropOrAssignLeaves(s: State, e: Call, t: Id)
    requires Enabled(s, e) && (e.DropTask? || e.AssignTask?) && t in s.tasks
    ensures LeftAs(s.tasks[t], Apply(s, e).tasks, t, LeftWith(s, e, t))
  {
  }

  lemma OthersLeave(s: State, e: Call)
    requires Enabled(s, e)
    requires e.BroadcastEscalation? || e.CreateProject? || e.EscalationTimer? || e.FireMilestones?
    ensures Apply(s, e).tasks == s.tasks
  {
  }

  /** What any one call does to a stored task: only status and assignee ever change, and only as its guards let it. */
  lemma StepOnTask(s: State, e: Call, t: Id)
    requires Enabled(s, e) && t in s.tasks
    ensures LeftAs(s.tasks[t], Apply(s, e).tasks, t, LeftWith(s, e, t))
  {
    match e
    case CreateTask(_, _, _, _, _, _, _) => CreateLeaves(s, e, t);
    case RouteTask(tenant, _, taskId, today) => RouteLeaves(s, tenant, taskId, today, t);
    case ClaimTask(_, _, _, _, _) => ClaimLeaves(s, e, t);
    case DropTask(_, _, _, _, _) => DropOrAssignLeaves(s, e, t);
    case AssignTask(_, _, _, _) => DropOrAssignLeaves(s, e, t);
    case _ => OthersLeave(s, e);
  }

  lemma RoutingAddsNone(s: State, tenant: Id, taskId: Id, today: Date, t: Id)
    ensures t in RouteStep(s, tenant, taskId, today).tasks <==> t in s.tasks
  {
  }

  /** Only creating a task adds one. */
  lemma TasksGrow(s: State, e: Call, t: Id)
    requires Enabled(s, e) && t !in s.tasks
    ensures t in Apply(s, e).tasks <==> e.CreateTask? && e.taskId == t
  {
    if e.CreateTask? {
      var created := s.(tasks := s.tasks[e.taskId := Task(e.tenant, Open, None, e.dueAt, e.draft)]);
      RoutingAddsNone(created, e.tenant, e.taskId, e.today, t);
    } else if e.RouteTask? {
      RoutingAddsNone(s, e.tenant, e.taskId, e.today, t);
    }
  }

  /** The created task: open, or assigned to whom routing finds. */
  lemma CreatedTask(s: State, e: Call)
    requires Enabled(s, e) && e.CreateTask?
    ensures var row := Task(e.tenant, Open, None, e.dueAt, e.draft);
      var found := RoutingOf(s.(tasks := s.tasks[e.taskId := row]), e.tenant, e.taskId, e.today).assignee;
      LeftAs(row, Apply(s, e).tasks, e.taskId, if e.noRoute || found.None? then (Open, None) else (Assigned, found))
  {
    var created := s.(tasks := s.tasks[e.taskId := Task(e.tenant, Open, None, e.dueAt, e.draft)]);
    RouteLeaves(created, e.tenant, e.taskId, e.today, e.taskId);
  }
}
