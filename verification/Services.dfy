/**
 * The API services, which update the stored rows in place. Each method is proved against the effect that
 * `Lifecycle.Apply` gives its call, so everything proved about runs of calls holds of the services.
 */
module Services {
  import opened Base
  import opened Household
  import opened Sequences
  import opened Escalation
  import opened Routing
  import opened Backup
  import opened Seasonal
  import opened Lifecycle
  import opened CriticalOverrides
  import opened Broadcasts
  import opened Firing
  import opened Invariants
  import opened Tenancy

  class Database {
    var members: seq<Member>
    var rules: seq<Rule>
    var availability: seq<AvailabilityBlock>
    var tasks: map<Id, Task>
    var escalations: map<Id, EscalationEvent>
    var projects: map<Id, Id>
    var milestones: map<Id, Milestone>

    constructor (members: seq<Member>, rules: seq<Rule>, availability: seq<AvailabilityBlock>)
      ensures Rows() == State(members, rules, map[], map[], map[], map[])
      ensures this.availability == availability
    {
      this.members, this.rules, this.availability := members, rules, availability;
      tasks, escalations, projects, milestones := map[], map[], map[], map[];
    }

    function Rows(): State
      reads this
    {
      State(members, rules, tasks, escalations, projects, milestones)
    }
  }

  /** `findFirst({ where: { taskId, resolvedAt: null }, orderBy: { createdAt: 'desc' } })`. */
  method FindMostRecentOpen(escalations: map<Id, EscalationEvent>, tenant: Id, taskId: Id) returns (found: Option<Id>)
    ensures IsMostRecentOpen(escalations, tenant, taskId, found)
    ensures found.None? ==> forall id :: id in escalations ==>
      var e := escalations[id]; e.household != tenant || e.taskId != taskId || e.resolvedAt.Some?
    ensures found.Some? ==>
      && found.value in escalations
      && var f := escalations[found.value];
      && f.household == tenant && f.taskId == taskId && f.resolvedAt.None?
      && forall id :: id in escalations ==>
        var e := escalations[id];
        e.household == tenant && e.taskId == taskId && e.resolvedAt.None? ==> e.createdAt <= f.createdAt
  {
    found := None;
    var rest := escalations.Keys;
    while rest != {}
      invariant rest <= escalations.Keys
      invariant found.None? ==> forall id :: id in escalations && id !in rest ==>
        !IsOpenFor(escalations[id], tenant, taskId)
      invariant found.Some? ==>
        && found.value in escalations && IsOpenFor(escalations[found.value], tenant, taskId)
        && forall id :: id in escalations && id !in rest && IsOpenFor(escalations[id], tenant, taskId) ==>
          escalations[id].createdAt <= escalations[found.value].createdAt
      decreases rest
    {
      var id :| id in rest;
      rest := rest - {id};
      if IsOpenFor(escalations[id], tenant, taskId)
         && (found.None? || escalations[found.value].createdAt < escalations[id].createdAt) {
        found := Some(id);
      }
    }
  }

  datatype ClaimResponse = NotFound | Response(ok: bool, task: Task)

  class TasksService {
    const db: Database
    const householdId: Id

    constructor (db: Database, householdId: Id)
      ensures this.db == db && this.householdId == householdId
    {
      this.db, this.householdId := db, householdId;
    }

    method Create(
        taskId: Id, draft: TaskDraft, dueAt: Option<Instant>, noRoute: bool, ghost now: Instant, today: Date)
      returns (task: Task, routing: Option<Decision>)
      requires taskId !in db.tasks
      modifies db
      ensures db.Rows() == Apply(old(db.Rows()), CreateTask(householdId, now, taskId, draft, dueAt, noRoute, today))
      ensures taskId in db.tasks && task == db.tasks[taskId]
      ensures
        var row := Task(householdId, Open, None, dueAt, draft);
        var created := old(db.Rows()).(tasks := old(db.tasks)[taskId := row]);
        && routing == (if noRoute then None else Some(RoutingOf(created, householdId, taskId, today)))
        && task == Task(householdId, task.status, task.assignee, dueAt, draft)
        && task.assignee == (if routing.Some? then routing.value.assignee else None)
        && task.status == (if task.assignee.Some? then Assigned else Open)
    {
      db.tasks := db.tasks[taskId := Task(householdId, Open, None, dueAt, draft)];
      routing := None;
      if !noRoute {
        routing := RouteAndAssign(taskId, now, today);
      }
      task := db.tasks[taskId];
    }

    /** None stands for the NotFound exception. */
    method RouteAndAssign(taskId: Id, ghost now: Instant, today: Date) returns (decision: Option<Decision>)
      modifies db
      ensures db.Rows() == Apply(old(db.Rows()), RouteTask(householdId, now, taskId, today))
      ensures decision == if old(OwnsTask(db.Rows(), householdId, taskId))
                          then Some(RoutingOf(old(db.Rows()), householdId, taskId, today)) else None
    {
      if !OwnsTask(db.Rows(), householdId, taskId) {
        return None;
      }
      var members := Collect(ActiveIn(householdId), db.members);
      var rules := Collect(RuleOf(householdId), db.rules);
      var d := Route(db.tasks[taskId].draft, members, rules, today);
      if d.assignee.Some? {
        db.tasks := db.tasks[taskId := db.tasks[taskId].(assignee := d.assignee, status := Assigned)];
      }
      decision := Some(d);
    }

    method Assign(taskId: Id, memberId: Id, ghost now: Instant) returns (task: Option<Task>)
      modifies db
      ensures db.Rows() == Apply(old(db.Rows()), AssignTask(householdId, now, taskId, memberId))
      ensures task.Some? <==>
        old(OwnsTask(db.Rows(), householdId, taskId) && OwnsMember(db.Rows(), householdId, memberId))
      ensures task.Some? ==> taskId in db.tasks && task.value == db.tasks[taskId]
    {
      if !OwnsTask(db.Rows(), householdId, taskId) || !OwnsMember(db.Rows(), householdId, memberId) {
        return None;
      }
      db.tasks := db.tasks[taskId := db.tasks[taskId].(assignee := Some(memberId), status := Assigned)];
      task := Some(db.tasks[taskId]);
    }

    /** `escalationId` is the fresh id of the row the database creates. */
    method Drop(taskId: Id, memberId: Id, now: Instant, escalationId: Id) returns (r: Option<(Task, Id)>)
      requires escalationId !in db.escalations
      modifies db
      ensures db.Rows() == Apply(old(db.Rows()), DropTask(householdId, now, taskId, memberId, escalationId))
      ensures r.Some? <==> old(OwnsTask(db.Rows(), householdId, taskId))
      ensures r.Some? ==> taskId in db.tasks && r.value == (db.tasks[taskId], escalationId)
      ensures r.Some? ==>
        && db.tasks[taskId] == old(db.tasks[taskId]).(status := Dropped, assignee := None)
        && escalationId in db.escalations
        && db.escalations[escalationId] == EscalationEvent(
             householdId, taskId, 0,
             if db.tasks[taskId].dueAt.Some? then db.tasks[taskId].dueAt.value else now + 3_600_000,
             now, None, None, None)
    {
      if !OwnsTask(db.Rows(), householdId, taskId) {
        return None;
      }
      var task := db.tasks[taskId];
      db.tasks := db.tasks[taskId := task.(status := Dropped, assignee := None)];
      var deadline := if task.dueAt.Some? then task.dueAt.value else now + 60 * 60 * 1000;
      db.escalations := db.escalations[
        escalationId := EscalationEvent(householdId, taskId, 0, deadline, now, None, None, None)];
      r := Some((db.tasks[taskId], escalationId));
    }

    /** `found` is the row the database chose among the most recent open escalations. */
    method ClaimTaskFor(taskId: Id, memberId: Id, now: Instant) returns (r: ClaimResponse, ghost found: Option<Id>)
      modifies db
      ensures Enabled(old(db.Rows()), ClaimTask(householdId, now, taskId, memberId, found))
      ensures db.Rows() == Apply(old(db.Rows()), ClaimTask(householdId, now, taskId, memberId, found))
      ensures r.NotFound? <==>
        !old(OwnsTask(db.Rows(), householdId, taskId) && OwnsMember(db.Rows(), householdId, memberId))
      ensures r.Response? ==> taskId in db.tasks && r.task == db.tasks[taskId]
      ensures r.Response? ==> (r.ok <==>
        && old(db.tasks[taskId].status) != Claimed && old(db.tasks[taskId].status) != Done
        && (found.Some? ==> Claim(old(db.escalations[found.value]), memberId, now).ok))
    {
      var escalationId := FindMostRecentOpen(db.escalations, householdId, taskId);
      found := escalationId;
      if !OwnsTask(db.Rows(), householdId, taskId) || !OwnsMember(db.Rows(), householdId, memberId) {
        r := NotFound;
        return;
      }
      var task := db.tasks[taskId];
      if task.status == Claimed || task.status == Done {
        r := Response(false, task);
        return;
      }
      if escalationId.None? {
        db.tasks := db.tasks[taskId := task.(status := Claimed, assignee := Some(memberId))];
        r := Response(true, db.tasks[taskId]);
        return;
      }
      var escalation := db.escalations[escalationId.value];
      var result := Claim(escalation, memberId, now);
      if !result.ok {
        r := Response(false, db.tasks[taskId]);
        return;
      }
      db.escalations := db.escalations[
        escalationId.value := escalation.(claimedBy := Some(memberId), resolvedAt := Some(now))];
      db.tasks := db.tasks[taskId := task.(status := Claimed, assignee := Some(memberId))];
      r := Response(true, db.tasks[taskId]);
    }
  }

  datatype BroadcastResult = BroadcastResult(cascade: CascadeMode, selection: Selection)

  /** The two-hour window a broadcast asks cover for, from the task's due time or from now. */
  function CoverRequest(dueAt: Option<Instant>, now: Instant, exclude: set<Id>): Request {
    var start := if dueAt.Some? then dueAt.value else now;
    Request(start, start + 2 * 3600 * 1000, false, None, exclude)
  }

  function BlockOf(tenant: Id): AvailabilityBlock -> Option<AvailabilityBlock> {
    (b: AvailabilityBlock) => if b.household == tenant then Some(b) else None
  }

  /** What `broadcast` answers; the task is read without a tenant filter. */
  function BroadcastAnswer(
      s: State, availability: seq<AvailabilityBlock>, tenant: Id, id: Id, exclude: set<Id>, now: Instant):
    Option<BroadcastResult>
  {
    if !OwnsEscalation(s, tenant, id) then None
    else
      var taskId := s.escalations[id].taskId;
      var dueAt := if taskId in s.tasks then s.tasks[taskId].dueAt else None;
      var urgency := if taskId in s.tasks then s.tasks[taskId].draft.urgency else Med;
      Some(BroadcastResult(
        ClassifyUrgencyCascade(urgency),
        Selected(
          Collect(ActiveIn(tenant), s.members), CoverRequest(dueAt, now, exclude),
          Collect(BlockOf(tenant), availability))))
  }

  /** The member can take over a household's task in the window: an active adult of it who is not away at any time. */
  predicate CanCover(
      s: State, availability: seq<AvailabilityBlock>, tenant: Id, exclude: set<Id>, start: Instant, m: Member)
  {
    && m in s.members && m.household == tenant && m.active && m.role != Dependent && m.id !in exclude
    && forall b :: b in availability && b.household == tenant && b.memberId == m.id && b.kind != Available ==>
      b.endsAt <= start || start + 7_200_000 <= b.startsAt
  }

  lemma MembersCovering(
      s: State, availability: seq<AvailabilityBlock>, tenant: Id, exclude: set<Id>, dueAt: Option<Instant>,
      now: Instant, m: Member)
    ensures var request := CoverRequest(dueAt, now, exclude);
      m in Collect(ActiveIn(tenant), s.members) && CanBackUp(m, request, Collect(BlockOf(tenant), availability)) <==>
        CanCover(s, availability, tenant, exclude, if dueAt.Some? then dueAt.value else now, m)
  {
    OwnActive(s.members, tenant, m);
    forall b ensures b in Collect(BlockOf(tenant), availability) <==> b in availability && b.household == tenant {
      OwnBlocks(availability, tenant, b);
    }
  }

  lemma OwnActive(members: seq<Member>, tenant: Id, m: Member)
    ensures m in Collect(ActiveIn(tenant), members) <==> m in members && m.household == tenant && m.active
  {
    CollectMembers(ActiveIn(tenant), members, m);
    if m in members {
      var i :| 0 <= i < |members| && members[i] == m;
      assert m.household == tenant && m.active ==> ActiveIn(tenant)(members[i]) == Some(m);
    }
  }

  lemma OwnBlocks(availability: seq<AvailabilityBlock>, tenant: Id, b: AvailabilityBlock)
    ensures b in Collect(BlockOf(tenant), availability) <==> b in availability && b.household == tenant
  {
    CollectMembers(BlockOf(tenant), availability, b);
    if b in availability {
      var i :| 0 <= i < |availability| && availability[i] == b;
      assert b.household == tenant ==> BlockOf(tenant)(availability[i]) == Some(b);
    }
  }

  /** The candidates are those who can cover, with their points, and nobody has more than the selected one. */
  ghost predicate OffersCover(
      s: State, availability: seq<AvailabilityBlock>, tenant: Id, exclude: set<Id>, start: Instant,
      selection: Selection)
  {
    && (forall c :: c in selection.candidates <==>
          CanCover(s, availability, tenant, exclude, start, c.member) && c.score == Points(c.member))
    && (forall c :: c in selection.candidates ==>
          selection.selected.Some? && Points(selection.selected.value) >= c.score)
    && (selection.selected.Some? ==> CanCover(s, availability, tenant, exclude, start, selection.selected.value))
  }

  lemma SelectionCovers(
      s: State, availability: seq<AvailabilityBlock>, tenant: Id, exclude: set<Id>, dueAt: Option<Instant>,
      now: Instant)
    ensures OffersCover(s, availability, tenant, exclude, if dueAt.Some? then dueAt.value else now,
      Selected(Collect(ActiveIn(tenant), s.members), CoverRequest(dueAt, now, exclude),
        Collect(BlockOf(tenant), availability)))
  {
    var request := CoverRequest(dueAt, now, exclude);
    var members, blocks := Collect(ActiveIn(tenant), s.members), Collect(BlockOf(tenant), availability);
    var selection := Selected(members, request, blocks);
    CandidatesAreTheEligible(members, request, blocks);
    forall m: Member ensures m in members && CanBackUp(m, request, blocks) <==>
      CanCover(s, availability, tenant, exclude, if dueAt.Some? then dueAt.value else now, m)
    {
      MembersCovering(s, availability, tenant, exclude, dueAt, now, m);
    }
    forall c | c in selection.candidates
      ensures selection.selected.Some? && Points(selection.selected.value) >= c.score
    {
      SelectedIsBest(members, request, blocks, c.member);
    }
    if selection.selected.Some? {
      assert selection.candidates[0] in selection.candidates;
    }
  }

  /**
   * What a broadcast offers: the whole pool for tasks of urgency HIGH or CRITICAL, and as candidates exactly the
   * members who can cover the two hours from the due date or, without one, from now, one with most points selected.
   */
  lemma BroadcastOffers(
      s: State, availability: seq<AvailabilityBlock>, tenant: Id, id: Id, exclude: set<Id>, now: Instant)
    requires OwnsEscalation(s, tenant, id)
    ensures var taskId := s.escalations[id].taskId;
      var start := if taskId in s.tasks && s.tasks[taskId].dueAt.Some? then s.tasks[taskId].dueAt.value else now;
      var answer := BroadcastAnswer(s, availability, tenant, id, exclude, now);
      && answer.Some?
      && (answer.value.cascade.Broadcast? <==>
            taskId in s.tasks && (s.tasks[taskId].draft.urgency.High? || s.tasks[taskId].draft.urgency.Critical?))
      && OffersCover(s, availability, tenant, exclude, start, answer.value.selection)
  {
    var taskId := s.escalations[id].taskId;
    var dueAt := if taskId in s.tasks then s.tasks[taskId].dueAt else None;
    SelectionCovers(s, availability, tenant, exclude, dueAt, now);
  }

  /** In every reachable state the answer depends on the household's own rows only. */
  lemma BroadcastSeesOwnRows(
      s: State, availability: seq<AvailabilityBlock>, h: Id, id: Id, exclude: set<Id>, now: Instant)
    requires Consistent(s)
    ensures BroadcastAnswer(s, availability, h, id, exclude, now) ==
      BroadcastAnswer(Slice(s, h), Collect(BlockOf(h), availability), h, id, exclude, now)
  {
    ActiveOfSlice(s.members, h);
    BlocksOnce(availability, h);
    if OwnsEscalation(s, h, id) {
      assert EscalationOk(s, s.escalations[id]);
    }
  }

  lemma {:induction false} BlocksOnce(availability: seq<AvailabilityBlock>, h: Id)
    ensures Collect(BlockOf(h), Collect(BlockOf(h), availability)) == Collect(BlockOf(h), availability)
  {
    if availability != [] {
      var n := |availability| - 1;
      var before := Collect(BlockOf(h), availability[..n]);
      BlocksOnce(availability[..n], h);
      if availability[n].household == h {
        CollectSnoc(BlockOf(h), before, availability[n]);
      } else {
        assert before + [] == before;
      }
    }
  }

  class EscalationService {
    const db: Database
    const householdId: Id

    constructor (db: Database, householdId: Id)
      ensures this.db == db && this.householdId == householdId
    {
      this.db, this.householdId := db, householdId;
    }

    method Broadcast(escalationId: Id, exclude: set<Id>, now: Instant) returns (r: Option<BroadcastResult>)
      modifies db
      ensures db.Rows() == Apply(old(db.Rows()), BroadcastEscalation(householdId, now, escalationId))
      ensures db.availability == old(db.availability)
      ensures r == BroadcastAnswer(old(db.Rows()), old(db.availability), householdId, escalationId, exclude, now)
    {
      if !OwnsEscalation(db.Rows(), householdId, escalationId) {
        return None;
      }
      var event := db.escalations[escalationId];
      var dueAt, urgency := None, Med;
      if event.taskId in db.tasks {
        dueAt, urgency := db.tasks[event.taskId].dueAt, db.tasks[event.taskId].draft.urgency;
      }
      var members := Collect(ActiveIn(householdId), db.members);
      var availability := Collect(BlockOf(householdId), db.availability);
      var selection := SelectBackup(members, CoverRequest(dueAt, now, exclude), availability);
      db.escalations := db.escalations[escalationId := event.(broadcastAt := Some(now))];
      r := Some(BroadcastResult(ClassifyUrgencyCascade(urgency), selection));
    }

    method SweepCriticalOverrides(now: Instant) returns (checked: nat, overrides: seq<Id>)
      ensures checked ==
        |set id |
          id in db.escalations && db.escalations[id].household == householdId && db.escalations[id].resolvedAt.None?|
      ensures forall id :: id in overrides <==>
        && id in db.escalations && db.escalations[id].household == householdId
        && InOverrideWindow(db.escalations[id], now)
      ensures |overrides| == |SweepOf(db.Rows(), householdId, now)|
    {
      var open := OpenIn(db.Rows(), householdId);
      assert open == set id |
        id in db.escalations && db.escalations[id].household == householdId && db.escalations[id].resolvedAt.None?;
      ghost var swept := SweepOf(db.Rows(), householdId, now);
      checked := |open|;
      overrides := [];
      var rest := open;
      while rest != {}
        invariant rest <= open
        invariant forall id :: id in overrides <==> id in swept - rest
        invariant |overrides| == |swept - rest|
        decreases rest
      {
        var id :| id in rest;
        CountOneMore(swept, rest, id);
        if Overrides(db.escalations[id], now) {
          overrides := overrides + [id];
        }
        rest := rest - {id};
      }
      assert swept - rest == swept;
    }
  }

  /** Taking `id` off the rest counts it if it belongs to `chosen`. */
  lemma CountOneMore(chosen: set<Id>, rest: set<Id>, id: Id)
    requires id in rest
    ensures chosen - (rest - {id}) == chosen - rest + (if id in chosen then {id} else {})
    ensures |chosen - (rest - {id})| == |chosen - rest| + (if id in chosen then 1 else 0)
  {
    assert chosen - (rest - {id}) == chosen - rest + (if id in chosen then {id} else {});
  }

  lemma CountedOneMore(chosen: set<Id>, done: set<Id>, id: Id)
    requires id !in done
    ensures |chosen * (done + {id})| == |chosen * done| + (if id in chosen then 1 else 0)
  {
    assert chosen * (done + {id}) == chosen * done + (if id in chosen then {id} else {});
  }

  lemma OneRowDone(open: set<Id>, rest: set<Id>, done: set<Id>, id: Id)
    requires done <= open && rest == open - done && id in rest
    ensures done + {id} <= open && rest - {id} == open - (done + {id})
  {
  }

  /** The escalations after a tick has dealt with the rows in `done`. */
  function TickedIn(rows: map<Id, EscalationEvent>, done: set<Id>, now: Instant): map<Id, EscalationEvent> {
    map id | id in rows :: if id in done then Ticked(rows[id], now) else rows[id]
  }

  lemma TickedOneMore(rows: map<Id, EscalationEvent>, done: set<Id>, id: Id, now: Instant)
    requires id in rows && id !in done
    ensures TickedIn(rows, done + {id}, now) == TickedIn(rows, done, now)[id := Ticked(rows[id], now)]
    ensures !IsDue(rows[id], now) ==> TickedIn(rows, done + {id}, now) == TickedIn(rows, done, now)
  {
  }

  lemma TickedNone(rows: map<Id, EscalationEvent>, now: Instant)
    ensures TickedIn(rows, {}, now) == rows
  {
  }

  lemma TickedAll(rows: map<Id, EscalationEvent>, open: set<Id>, now: Instant)
    requires open == set id | id in rows && rows[id].resolvedAt.None?
    ensures TickedIn(rows, open, now) == map id | id in rows :: Ticked(rows[id], now)
  {
    forall id | id in rows ensures id !in open ==> Ticked(rows[id], now) == rows[id] {
    }
  }

  class SchedulerService {
    const db: Database

    constructor (db: Database)
      ensures this.db == db
    {
      this.db := db;
    }

    /** The timer's work on one open row, after those in `done`. */
    method TickRow(id: Id, now: Instant, ghost rows: map<Id, EscalationEvent>, ghost done: set<Id>)
      returns (broadcast: nat, override: nat)
      requires id in rows && id !in done && rows[id].resolvedAt.None? && db.escalations == TickedIn(rows, done, now)
      modifies db`escalations
      ensures db.escalations == TickedIn(rows, done + {id}, now)
      ensures broadcast == if IsDue(rows[id], now) then 1 else 0
      ensures override == if Overrides(rows[id], now) then 1 else 0
    {
      TickedOneMore(rows, done, id, now);
      var e := db.escalations[id];
      broadcast, override := 0, 0;
      if e.broadcastAt.None? && e.createdAt <= now - 10 * MINUTE {
        db.escalations := db.escalations[id := e.(broadcastAt := Some(now))];
        broadcast := 1;
      }
      if Overrides(e, now) {
        override := 1;
      }
    }

    method RunEscalationTimer(now: Instant) returns (broadcast: nat, overrides: nat)
      modifies db
      ensures db.Rows() == Apply(old(db.Rows()), EscalationTimer(now))
      ensures broadcast == |set id | id in old(db.escalations) && IsLate(old(db.escalations)[id], now)|
      ensures overrides == |set id | id in old(db.escalations) && InOverrideWindow(old(db.escalations)[id], now)|
    {
      var open := set id | id in db.escalations && db.escalations[id].resolvedAt.None?;
      TickedAll(db.escalations, open, now);
      ghost var due, over := DueSet(db.Rows(), now), Overriding(db.Rows(), now);
      assert due == set id | id in db.escalations && IsLate(db.escalations[id], now);
      assert over == set id | id in db.escalations && InOverrideWindow(db.escalations[id], now);
      broadcast, overrides := TickRows(open, now, due, over);
      assert due * open == due && over * open == over;
    }

    /** The timer's loop over the fetched rows. */
    method TickRows(open: set<Id>, now: Instant, ghost due: set<Id>, ghost over: set<Id>)
      returns (broadcast: nat, overrides: nat)
      requires open <= db.escalations.Keys
      requires forall id :: id in open ==>
        && db.escalations[id].resolvedAt.None?
        && (id in due <==> IsDue(db.escalations[id], now))
        && (id in over <==> Overrides(db.escalations[id], now))
      modifies db`escalations
      ensures db.escalations == TickedIn(old(db.escalations), open, now)
      ensures broadcast == |due * open| && overrides == |over * open|
    {
      ghost var rows, done: set<Id> := db.escalations, {};
      broadcast, overrides := 0, 0;
      var rest := open;
      TickedNone(rows, now);
      while rest != {}
        invariant done <= open && rest == open - done
        invariant db.escalations == TickedIn(rows, done, now)
        invariant broadcast == |due * done| && overrides == |over * done|
        decreases rest
      {
        var id :| id in rest;
        CountedOneMore(due, done, id);
        CountedOneMore(over, done, id);
        OneRowDone(open, rest, done, id);
        var b, o := TickRow(id, now, rows, done);
        broadcast, overrides := broadcast + b, overrides + o;
        rest, done := rest - {id}, done + {id};
      }
      assert done == open;
    }

    method FireDueMilestones(now: Instant) returns (count: nat)
      modifies db
      ensures db.Rows() == Apply(old(db.Rows()), FireMilestones(now))
      ensures count == |FiredBy(old(db.Rows()), FireMilestones(now))|
    {
      var due := set id | id in db.milestones && !db.milestones[id].fired && db.milestones[id].fireAt <= now;
      assert due == FiredBy(db.Rows(), FireMilestones(now));
      if due == {} {
        forall id | id in db.milestones ensures Fired(db.milestones[id], now) == db.milestones[id] {
          assert id !in due;
        }
        return 0;
      }
      db.milestones := map id | id in db.milestones ::
        if id in due then db.milestones[id].(fired := true) else db.milestones[id];
      count := |due|;
    }
  }

  class SeasonalService {
    const db: Database
    const householdId: Id

    constructor (db: Database, householdId: Id)
      ensures this.db == db && this.householdId == householdId
    {
      this.db, this.householdId := db, householdId;
    }

    /** `projectId` and `ids` are the fresh ids of the rows the database creates. */
    method Create(projectId: Id, anchor: Anchor, ids: seq<Id>, now: Instant)
      requires Enabled(db.Rows(), CreateProject(householdId, now, projectId, anchor, ids))
      modifies db
      ensures db.Rows() == Apply(old(db.Rows()), CreateProject(householdId, now, projectId, anchor, ids))
    {
      db.projects := db.projects[projectId := householdId];
      var goal := ResolveGoalDate(anchor);
      if goal.Some? {
        var milestones := ComputeMilestones(householdId, projectId, goal.value);
        db.milestones := db.milestones + Stored(ids, milestones);
      }
    }
  }
}
