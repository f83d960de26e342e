/** Tenant isolation: a household's rows evolve as if the other households did not exist. */
module Tenancy {
  import opened Base
  import opened Household
  import opened Sequences
  import opened Escalation
  import opened Routing
  import opened Seasonal
  import opened Lifecycle

  function MemberOf(h: Id): Member -> Option<Member> {
    (m: Member) => if m.household == h then Some(m) else None
  }

  function RuleIn(h: Id): Rule -> Option<Rule> {
    (r: Rule) => if r.household == h then Some(r) else None
  }

  /** The rows of one household. */
  function Slice(s: State, h: Id): State {
    State(
      Collect(MemberOf(h), s.members),
      Collect(RuleIn(h), s.rules),
      map id | id in s.tasks && s.tasks[id].household == h :: s.tasks[id],
      map id | id in s.escalations && s.escalations[id].household == h :: s.escalations[id],
      map id | id in s.projects && s.projects[id] == h :: s.projects[id],
      map id | id in s.milestones && s.milestones[id].household == h :: s.milestones[id])
  }

  /** A call made for the household, or a sweep over all households. */
  predicate Concerns(e: Call, h: Id) {
    IsGlobal(e) || e.tenant == h
  }

  lemma {:induction false} ActiveOfSlice(members: seq<Member>, h: Id)
    ensures Collect(ActiveIn(h), Collect(MemberOf(h), members)) == Collect(ActiveIn(h), members)
  {
    if members != [] {
      var n := |members| - 1;
      ActiveOfSlice(members[..n], h);
      CollectConcat(ActiveIn(h), Collect(MemberOf(h), members[..n]), One(MemberOf(h)(members[n])));
      assert One(MemberOf(h)(members[n])) == [] || One(MemberOf(h)(members[n])) == [members[n]];
      assert [members[n]][..0] == [];
      assert Collect(ActiveIn(h), [members[n]]) == One(ActiveIn(h)(members[n]));
    }
  }

  lemma {:induction false} RulesOfSlice(rules: seq<Rule>, h: Id)
    ensures Collect(RuleOf(h), Collect(RuleIn(h), rules)) == Collect(RuleOf(h), rules)
  {
    if rules != [] {
      var n := |rules| - 1;
      RulesOfSlice(rules[..n], h);
      CollectConcat(RuleOf(h), Collect(RuleIn(h), rules[..n]), One(RuleIn(h)(rules[n])));
      assert One(RuleIn(h)(rules[n])) == [] || One(RuleIn(h)(rules[n])) == [rules[n]];
      assert [rules[n]][..0] == [];
      assert Collect(RuleOf(h), [rules[n]]) == One(RuleOf(h)(rules[n]));
    }
  }

  lemma MembersOfSlice(s: State, h: Id, id: Id)
    ensures OwnsMember(Slice(s, h), h, id) <==> OwnsMember(s, h, id)
  {
    var f := MemberOf(h);
    forall m ensures m in Slice(s, h).members <==> m in s.members && m.household == h {
      CollectMembers(f, s.members, m);
      if m in s.members && m.household == h {
        var i :| 0 <= i < |s.members| && s.members[i] == m;
        assert f(s.members[i]) == Some(m);
      }
    }
  }

  /** The routing decision is made from the household's own members and rules. */
  lemma RoutingOfSlice(s: State, h: Id, taskId: Id, today: Date)
    requires taskId in s.tasks && s.tasks[taskId].household == h
    ensures RoutingOf(Slice(s, h), h, taskId, today) == RoutingOf(s, h, taskId, today)
  {
    ActiveOfSlice(s.members, h);
    RulesOfSlice(s.rules, h);
  }

  lemma SetTaskOfSlice(s: State, h: Id, taskId: Id, status: Status, assignee: Option<Id>)
    requires taskId in s.tasks
    ensures s.tasks[taskId].household == h ==>
      Slice(SetTask(s, taskId, status, assignee), h) == SetTask(Slice(s, h), taskId, status, assignee)
    ensures s.tasks[taskId].household != h ==> Slice(SetTask(s, taskId, status, assignee), h) == Slice(s, h)
  {
    var s' := SetTask(s, taskId, status, assignee);
    if s.tasks[taskId].household == h {
      assert Slice(s', h).tasks == SetTask(Slice(s, h), taskId, status, assignee).tasks;
    } else {
      assert Slice(s', h).tasks == Slice(s, h).tasks;
    }
  }

  lemma RouteOfSlice(s: State, tenant: Id, taskId: Id, today: Date, h: Id)
    ensures Slice(RouteStep(s, tenant, taskId, today), h)
         == if tenant == h then RouteStep(Slice(s, h), tenant, taskId, today) else Slice(s, h)
  {
    if OwnsTask(s, tenant, taskId) {
      var assignee := RoutingOf(s, tenant, taskId, today).assignee;
      if tenant == h {
        RoutingOfSlice(s, h, taskId, today);
      }
      if assignee.Some? {
        SetTaskOfSlice(s, h, taskId, Assigned, assignee);
      }
    }
  }

  lemma AddTaskOfSlice(s: State, taskId: Id, task: Task, h: Id)
    requires taskId !in s.tasks
    ensures Slice(s.(tasks := s.tasks[taskId := task]), h)
         == if task.household == h then Slice(s, h).(tasks := Slice(s, h).tasks[taskId := task]) else Slice(s, h)
  {
    var s' := s.(tasks := s.tasks[taskId := task]);
    if task.household == h {
      assert Slice(s', h).tasks == Slice(s, h).tasks[taskId := task];
    } else {
      assert Slice(s', h).tasks == Slice(s, h).tasks;
    }
  }

  lemma PutEscalationOfSlice(s: State, id: Id, e: EscalationEvent, h: Id)
    requires id in s.escalations ==> s.escalations[id].household == e.household
    ensures Slice(s.(escalations := s.escalations[id := e]), h)
         == if e.household == h then Slice(s, h).(escalations := Slice(s, h).escalations[id := e]) else Slice(s, h)
  {
    var s' := s.(escalations := s.escalations[id := e]);
    if e.household == h {
      assert Slice(s', h).escalations == Slice(s, h).escalations[id := e];
    } else {
      assert Slice(s', h).escalations == Slice(s, h).escalations;
    }
  }

  lemma DropOfSlice(s: State, e: Call, h: Id)
    requires Enabled(s, e) && e.DropTask?
    ensures Slice(Apply(s, e), h) == if e.tenant == h then Apply(Slice(s, h), e) else Slice(s, h)
  {
    if OwnsTask(s, e.tenant, e.taskId) {
      SetTaskOfSlice(s, h, e.taskId, Dropped, None);
      var s1 := SetTask(s, e.taskId, Dropped, None);
      PutEscalationOfSlice(s1, e.escalationId, Apply(s, e).escalations[e.escalationId], h);
    }
  }

  lemma ClaimOfSlice(s: State, e: Call, h: Id)
    requires Enabled(s, e) && e.ClaimTask?
    ensures e.tenant == h ==> Enabled(Slice(s, h), e)
    ensures Slice(Apply(s, e), h) == if e.tenant == h then Apply(Slice(s, h), e) else Slice(s, h)
  {
    MembersOfSlice(s, h, e.memberId);
    if MayClaim(s, e.tenant, e.taskId, e.memberId) {
      SetTaskOfSlice(s, h, e.taskId, Claimed, Some(e.memberId));
      if e.found.Some? {
        var result := Claim(s.escalations[e.found.value], e.memberId, e.now);
        PutEscalationOfSlice(SetTask(s, e.taskId, Claimed, Some(e.memberId)), e.found.value, result.event, h);
      }
    }
  }

  lemma BroadcastOfSlice(s: State, e: Call, h: Id)
    requires Enabled(s, e) && e.BroadcastEscalation?
    ensures Slice(Apply(s, e), h) == if e.tenant == h then Apply(Slice(s, h), e) else Slice(s, h)
  {
    if OwnsEscalation(s, e.tenant, e.escalationId) {
      PutEscalationOfSlice(s, e.escalationId, s.escalations[e.escalationId].(broadcastAt := Some(e.now)), h);
    }
  }

  lemma AddMilestonesOfSlice(s: State, tenant: Id, added: map<Id, Milestone>, h: Id)
    requires forall id :: id in added ==> id !in s.milestones && added[id].household == tenant
    ensures Slice(s.(milestones := s.milestones + added), h).milestones
         == if tenant == h then Slice(s, h).milestones + added else Slice(s, h).milestones
  {
  }

  lemma AddProjectOfSlice(s: State, tenant: Id, projectId: Id, h: Id)
    requires projectId !in s.projects
    ensures Slice(s.(projects := s.projects[projectId := tenant]), h).projects
         == if tenant == h then Slice(s, h).projects[projectId := tenant] else Slice(s, h).projects
  {
  }

  lemma StoredHousehold(ids: seq<Id>, tenant: Id, projectId: Id, goal: Instant)
    requires |ids| == |STAGE_ORDER| && forall i, j :: 0 <= i < j < |ids| ==> ids[i] != ids[j]
    ensures var added := Stored(ids, ComputeMilestones(tenant, projectId, goal));
      forall id :: id in added ==> id in ids && added[id].household == tenant
  {
    var added := Stored(ids, ComputeMilestones(tenant, projectId, goal));
    forall id | id in added ensures added[id].household == tenant {
      var i :| 0 <= i < |ids| && ids[i] == id;
    }
  }

  lemma ProjectOfSlice(s: State, e: Call, h: Id)
    requires Enabled(s, e) && e.CreateProject?
    ensures Slice(Apply(s, e), h) == if e.tenant == h then Apply(Slice(s, h), e) else Slice(s, h)
  {
    var goal := ResolveGoalDate(e.anchor);
    AddProjectOfSlice(s, e.tenant, e.projectId, h);
    if goal.Some? {
      var added := Stored(e.ids, ComputeMilestones(e.tenant, e.projectId, goal.value));
      StoredHousehold(e.ids, e.tenant, e.projectId, goal.value);
      AddMilestonesOfSlice(s, e.tenant, added, h);
    }
  }

  lemma SweepOfSlice(s: State, e: Call, h: Id)
    requires IsGlobal(e)
    ensures Slice(Apply(s, e), h) == Apply(Slice(s, h), e)
  {
    assert Slice(Apply(s, e), h).escalations == Apply(Slice(s, h), e).escalations;
    assert Slice(Apply(s, e), h).milestones == Apply(Slice(s, h), e).milestones;
  }

  lemma CreateOfSlice(s: State, e: Call, h: Id)
    requires Enabled(s, e) && e.CreateTask?
    ensures Slice(Apply(s, e), h) == if e.tenant == h then Apply(Slice(s, h), e) else Slice(s, h)
  {
    var task := Task(e.tenant, Open, None, e.dueAt, e.draft);
    AddTaskOfSlice(s, e.taskId, task, h);
    if !e.noRoute {
      RouteOfSlice(s.(tasks := s.tasks[e.taskId := task]), e.tenant, e.taskId, e.today, h);
    }
  }

  lemma AssignOfSlice(s: State, e: Call, h: Id)
    requires Enabled(s, e) && e.AssignTask?
    ensures Slice(Apply(s, e), h) == if e.tenant == h then Apply(Slice(s, h), e) else Slice(s, h)
  {
    MembersOfSlice(s, h, e.memberId);
    if OwnsTask(s, e.tenant, e.taskId) {
      SetTaskOfSlice(s, h, e.taskId, Assigned, Some(e.memberId));
    }
  }

  lemma EnabledOfSlice(s: State, e: Call, h: Id)
    requires Enabled(s, e) && Concerns(e, h)
    ensures Enabled(Slice(s, h), e)
  {
  }

  lemma CallOfSlice(s: State, e: Call, h: Id)
    requires Enabled(s, e) && !IsGlobal(e)
    requires e.tenant == h ==> Enabled(Slice(s, h), e)
    ensures Slice(Apply(s, e), h) == if e.tenant == h then Apply(Slice(s, h), e) else Slice(s, h)
  {
    match e
    case CreateTask(_, _, _, _, _, _, _) => CreateOfSlice(s, e, h);
    case RouteTask(tenant, _, taskId, today) => RouteOfSlice(s, tenant, taskId, today, h);
    case AssignTask(_, _, _, _) => AssignOfSlice(s, e, h);
    case DropTask(_, _, _, _, _) => DropOfSlice(s, e, h);
    case ClaimTask(_, _, _, _, _) => ClaimOfSlice(s, e, h);
    case BroadcastEscalation(_, _, _) => BroadcastOfSlice(s, e, h);
    case CreateProject(_, _, _, _, _) => ProjectOfSlice(s, e, h);
  }

  /**
   * One call: seen from household `h`, a call for `h` or a global sweep acts as it would on the rows of `h`
   * alone, and a call for any other household does nothing.
   */
  lemma StepOfSlice(s: State, e: Call, h: Id)
    requires Enabled(s, e)
    ensures Concerns(e, h) ==> Enabled(Slice(s, h), e) && Slice(Apply(s, e), h) == Apply(Slice(s, h), e)
    ensures !Concerns(e, h) ==> Slice(Apply(s, e), h) == Slice(s, h)
  {
    if Concerns(e, h) {
      EnabledOfSlice(s, e, h);
    }
    if IsGlobal(e) {
      SweepOfSlice(s, e, h);
    } else {
      CallOfSlice(s, e, h);
    }
  }

  /** The calls of a run that concern a household. */
  function SeenBy(es: seq<Call>, h: Id): seq<Call> {
    if es == [] then [] else (if Concerns(es[0], h) then [es[0]] else []) + SeenBy(es[1..], h)
  }

  /** Non-interference over whole runs: the slice of the outcome is the outcome of the slice. */
  lemma {:induction false} RunOfSlice(s: State, es: seq<Call>, h: Id)
    requires Legal(s, es)
    ensures Legal(Slice(s, h), SeenBy(es, h))
    ensures Slice(Run(s, es), h) == Run(Slice(s, h), SeenBy(es, h))
    decreases |es|
  {
    if es != [] {
      var s1 := Apply(s, es[0]);
      StepOfSlice(s, es[0], h);
      RunOfSlice(s1, es[1..], h);
      SeenCons(es, h, Slice(s, h), Slice(s1, h));
    }
  }

  lemma SeenCons(es: seq<Call>, h: Id, s: State, s1: State)
    requires es != [] && Legal(s1, SeenBy(es[1..], h))
    requires Concerns(es[0], h) ==> Enabled(s, es[0]) && Apply(s, es[0]) == s1
    requires !Concerns(es[0], h) ==> s == s1
    ensures Legal(s, SeenBy(es, h)) && Run(s, SeenBy(es, h)) == Run(s1, SeenBy(es[1..], h))
  {
    if Concerns(es[0], h) {
      RunCons(s, es[0], SeenBy(es[1..], h), s1);
    } else {
      assert SeenBy(es, h) == SeenBy(es[1..], h);
    }
  }

  lemma RunCons(s: State, e: Call, es: seq<Call>, s1: State)
    requires Enabled(s, e) && Apply(s, e) == s1 && Legal(s1, es)
    ensures Legal(s, [e] + es) && Run(s, [e] + es) == Run(s1, es)
  {
    assert ([e] + es)[1..] == es;
  }
}
