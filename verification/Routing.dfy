/** The rules engine: routing a task to the best eligible member. */
module Routing {
  import opened Base
  import opened Household
  import opened Sequences

  datatype TaskDraft = TaskDraft(
    category: Category,
    urgency: Urgency,
    requiredSkills: seq<string>,
    minAge: Option<nat>,
    maxAge: Option<nat>,
    requiresApproval: bool)

  datatype Rule = Rule(
    household: Id,
    matchCategory: Option<Category>,
    matchSkills: seq<string>,
    minAge: Option<nat>,
    maxAge: Option<nat>,
    assignTo: Option<Id>,
    priority: int)

  datatype Candidate = Candidate(member: Member, age: Option<nat>, score: int, forcedBy: Option<Rule>)

  datatype Decision = Decision(assignee: Option<Id>, confidence: real, alternatives: seq<(Id, int)>)

  predicate AgeWithin(age: Option<nat>, minAge: Option<nat>, maxAge: Option<nat>) {
    && (minAge.Some? ==> age.Some? && age.value >= minAge.value)
    && (maxAge.Some? ==> age.Some? && age.value <= maxAge.value)
  }

  /** The task's hard constraints on a member. */
  predicate IsEligible(member: Member, task: TaskDraft, age: Option<nat>) {
    && member.active
    && (forall skill :: skill in task.requiredSkills ==> skill in member.skills)
    && AgeWithin(age, task.minAge, task.maxAge)
  }

  predicate RuleMatchesTask(rule: Rule, task: TaskDraft) {
    && (rule.matchCategory.Some? ==> rule.matchCategory.value == task.category)
    && (forall skill :: skill in rule.matchSkills ==> skill in task.requiredSkills)
  }

  predicate RuleAppliesToMember(rule: Rule, member: Member, age: Option<nat>) {
    && (forall skill :: skill in rule.matchSkills ==> skill in member.skills)
    && AgeWithin(age, rule.minAge, rule.maxAge)
    && (rule.assignTo.Some? ==> rule.assignTo.value == member.id)
  }

  /** How many of the member's skills the task asks for, repetitions included. */
  function SharedSkills(skills: seq<string>, required: seq<string>): nat {
    if skills == [] then 0
    else (if skills[0] in required then 1 else 0) + SharedSkills(skills[1..], required)
  }

  function ScoreCandidate(member: Member, task: TaskDraft): (score: int)
    ensures 0 <= score <= 63
  {
    (match member.availability
     case Available => 30
     case Travel => 5
     case Busy => 0)
    + (if member.drives && task.category in {Logistics, Errand, School} then 15 else 0)
    + Min(10, SharedSkills(member.skills, task.requiredSkills) * 5)
    + (if member.role == Head && (task.category == Admin || task.requiresApproval) then 8 else 0)
  }

  // ---------- specification of route ----------

  /** Where a bound is set the birth date is known; the first birthday is reached and the one after the last is not. */
  predicate InAgeRange(birthDate: Option<Date>, today: Date, minAge: Option<nat>, maxAge: Option<nat>)
    ensures InAgeRange(birthDate, today, minAge, maxAge) <==> AgeWithin(ComputeAge(birthDate, today), minAge, maxAge)
  {
    if birthDate.None? then minAge.None? && maxAge.None?
    else
      var born := birthDate.value;
      && (minAge.None? || minAge.value == 0 || Reached(born, minAge.value, today))
      && (maxAge.None? || !Reached(born, maxAge.value + 1, today))
  }

  /** Who may do the task on a day; the loop's test says the same of the age computed. */
  predicate EligibleOn(task: TaskDraft, today: Date, member: Member)
    ensures EligibleOn(task, today, member) <==> IsEligible(member, task, ComputeAge(member.birthDate, today))
  {
    && member.active
    && (forall i :: 0 <= i < |task.requiredSkills| ==> task.requiredSkills[i] in member.skills)
    && InAgeRange(member.birthDate, today, task.minAge, task.maxAge)
  }

  /** Whom the rule is for on a day. */
  predicate AppliesOn(today: Date, rule: Rule, member: Member)
    ensures AppliesOn(today, rule, member) <==> RuleAppliesToMember(rule, member, ComputeAge(member.birthDate, today))
  {
    && (rule.assignTo.None? || rule.assignTo == Some(member.id))
    && (forall i :: 0 <= i < |rule.matchSkills| ==> rule.matchSkills[i] in member.skills)
    && InAgeRange(member.birthDate, today, rule.minAge, rule.maxAge)
  }

  /** Which tasks the rule is for. */
  predicate Suits(rule: Rule, task: TaskDraft)
    ensures Suits(rule, task) <==> RuleMatchesTask(rule, task)
  {
    && (rule.matchCategory.None? || rule.matchCategory == Some(task.category))
    && (forall i :: 0 <= i < |rule.matchSkills| ==> rule.matchSkills[i] in task.requiredSkills)
  }

  /** The candidate made of an eligible member, before any rule is applied. */
  function Scorer(task: TaskDraft, today: Date): Member -> Option<Candidate> {
    (member: Member) =>
      var age := ComputeAge(member.birthDate, today);
      if IsEligible(member, task, age)
      then Some(Candidate(member, age, ScoreCandidate(member, task), None))
      else None
  }

  function Keeper(task: TaskDraft): Rule -> Option<Rule> {
    (rule: Rule) => if RuleMatchesTask(rule, task) then Some(rule) else None
  }

  predicate ByPriority(a: Rule, b: Rule) {
    a.priority >= b.priority
  }

  /** Score descending, then member id ascending. */
  predicate ByScore(a: Candidate, b: Candidate) {
    a.score > b.score || (a.score == b.score && a.member.id <= b.member.id)
  }

  function MatchingRules(task: TaskDraft, rules: seq<Rule>): seq<Rule> {
    Sort(ByPriority, Collect(Keeper(task), rules))
  }

  /** `candidates.find(...)`: the first candidate a rule applies to. */
  function Target(rule: Rule, candidates: seq<Candidate>): (r: Option<nat>)
    ensures r.Some? ==>
      && r.value < |candidates|
      && RuleAppliesToMember(rule, candidates[r.value].member, candidates[r.value].age)
    ensures forall i :: 0 <= i < (if r.Some? then r.value else |candidates|) ==>
      !RuleAppliesToMember(rule, candidates[i].member, candidates[i].age)
  {
    if candidates == [] then None
    else if RuleAppliesToMember(rule, candidates[0].member, candidates[0].age) then Some(0)
    else match Target(rule, candidates[1..])
      case None => None
      case Some(i) => Some(i + 1)
  }

  function Force(c: Candidate, rule: Rule): Candidate {
    c.(forcedBy := Some(rule), score := c.score + 1000 + rule.priority)
  }

  /** The first rule with a target boosts that target; later rules are not looked at. */
  function Boost(rules: seq<Rule>, candidates: seq<Candidate>): (r: seq<Candidate>)
    ensures |r| == |candidates|
  {
    if rules == [] then candidates
    else match Target(rules[0], candidates)
      case Some(i) => candidates[i := Force(candidates[i], rules[0])]
      case None => Boost(rules[1..], candidates)
  }

  function Confidence(sorted: seq<Candidate>): real
    requires sorted != []
  {
    if sorted[0].forcedBy.Some? then 0.95
    else if |sorted| == 1 then 0.9
    else
      var raw := 0.5 + (sorted[0].score - sorted[1].score) as real / 100.0;
      if raw < 0.9 then raw else 0.9
  }

  function Decide(sorted: seq<Candidate>): Decision {
    if sorted == [] then Decision(None, 0.0, [])
    else Decision(
        Some(sorted[0].member.id),
        Clamp(Confidence(sorted), 0.0, 1.0),
        seq(|sorted| - 1, i requires 0 <= i < |sorted| - 1 => (sorted[i + 1].member.id, sorted[i + 1].score)))
  }

  function Ranked(task: TaskDraft, members: seq<Member>, rules: seq<Rule>, today: Date): seq<Candidate> {
    Sort(ByScore, Boost(MatchingRules(task, rules), Collect(Scorer(task, today), members)))
  }

  function Routed(task: TaskDraft, members: seq<Member>, rules: seq<Rule>, today: Date): Decision {
    Decide(Ranked(task, members, rules, today))
  }

  // ---------- route ----------

  method GatherCandidates(task: TaskDraft, members: seq<Member>, today: Date) returns (candidates: seq<Candidate>)
    ensures candidates == Collect(Scorer(task, today), members)
  {
    var scorer := Scorer(task, today);
    candidates := [];
    for i := 0 to |members|
      invariant candidates == Collect(scorer, members[..i])
    {
      CollectStep(scorer, members, i);
      match scorer(members[i]) {
        case Some(c) => candidates := candidates + [c];
        case None =>
      }
    }
    assert members[..|members|] == members;
  }

  method ApplyRules(rules: seq<Rule>, unboosted: seq<Candidate>) returns (candidates: seq<Candidate>)
    ensures candidates == Boost(rules, unboosted)
  {
    candidates := unboosted;
    for k := 0 to |rules|
      invariant candidates == unboosted
      invariant Boost(rules, unboosted) == Boost(rules[k..], unboosted)
    {
      assert rules[k..][1..] == rules[k + 1..];
      match Target(rules[k], candidates) {
        case Some(i) =>
          candidates := candidates[i := Force(candidates[i], rules[k])];
          return;
        case None =>
      }
    }
  }

  method Route(task: TaskDraft, members: seq<Member>, allRules: seq<Rule>, today: Date) returns (d: Decision)
    ensures d == Routed(task, members, allRules, today)
  {
    var rules := MatchingRules(task, allRules);
    var candidates := GatherCandidates(task, members, today);
    if candidates == [] {
      BoostNothing(rules);
      return Decision(None, 0.0, []);
    }
    candidates := ApplyRules(rules, candidates);
    candidates := Sort(ByScore, candidates);
    d := Decide(candidates);
  }

  lemma {:induction false} BoostNothing(rules: seq<Rule>)
    ensures Boost(rules, []) == []
  {
    if rules != [] {
      BoostNothing(rules[1..]);
    }
  }

  // ---------- what routing guarantees ----------

  lemma ScorePreorder()
    ensures TotalPreorder(ByScore)
    ensures TotalPreorder(ByPriority)
  {
  }

  /** Boosting keeps every candidate's member and age. */
  lemma {:induction false} BoostKeepsMembers(rules: seq<Rule>, candidates: seq<Candidate>)
    ensures forall i :: 0 <= i < |candidates| ==>
      && Boost(rules, candidates)[i].member == candidates[i].member
      && Boost(rules, candidates)[i].age == candidates[i].age
  {
    if rules != [] && Target(rules[0], candidates).None? {
      BoostKeepsMembers(rules[1..], candidates);
    }
  }

  /** A ranked candidate is an eligible member, with its age, and every eligible member is ranked. */
  lemma RankedMembers(task: TaskDraft, members: seq<Member>, rules: seq<Rule>, today: Date)
    ensures forall c :: c in Ranked(task, members, rules, today) ==>
      c.member in members && EligibleOn(task, today, c.member) && c.age == ComputeAge(c.member.birthDate, today)
    ensures forall m :: m in members && EligibleOn(task, today, m) ==>
      exists c :: c in Ranked(task, members, rules, today) && c.member == m
  {
    var plain := Collect(Scorer(task, today), members);
    var boosted := Boost(MatchingRules(task, rules), plain);
    BoostKeepsMembers(MatchingRules(task, rules), plain);
    SortMembers(ByScore, boosted);
    forall c | c in boosted
      ensures c.member in members && EligibleOn(task, today, c.member) && c.age == ComputeAge(c.member.birthDate, today)
    {
      var i :| 0 <= i < |boosted| && boosted[i] == c;
      CandidateIsMember(task, members, today, plain[i]);
    }
    forall m | m in members && EligibleOn(task, today, m)
      ensures exists c :: c in boosted && c.member == m
    {
      var i := CandidateOf(task, members, today, m);
      assert boosted[i] in boosted;
    }
  }

  /** Somebody is assigned exactly when somebody is eligible, and then an eligible member is. */
  lemma AssignedIffEligible(task: TaskDraft, members: seq<Member>, rules: seq<Rule>, today: Date)
    ensures var d := Routed(task, members, rules, today);
      && (d.assignee.Some? <==> exists m :: m in members && EligibleOn(task, today, m))
      && (d.assignee.Some? ==> exists m :: m in members && m.id == d.assignee.value && EligibleOn(task, today, m))
  {
    RankedMembers(task, members, rules, today);
    var ranked := Ranked(task, members, rules, today);
    if ranked != [] {
      assert ranked[0] in ranked;
    }
  }

  lemma ConfidenceOfOrdered(sorted: seq<Candidate>)
    requires sorted != [] && Ordered(ByScore, sorted)
    ensures 0.5 <= Decide(sorted).confidence <= 0.95
  {
    if |sorted| > 1 {
      assert ByScore(sorted[0], sorted[1]);
      var gap := sorted[0].score - sorted[1].score;
      assert gap as real / 100.0 >= 0.0;
    }
  }

  /** Without an assignee the confidence is 0; with one it lies in [0.5, 0.95]. */
  lemma ConfidenceRange(task: TaskDraft, members: seq<Member>, rules: seq<Rule>, today: Date)
    ensures var d := Routed(task, members, rules, today);
      if d.assignee.None? then d.confidence == 0.0 else 0.5 <= d.confidence <= 0.95
  {
    var boosted := Boost(MatchingRules(task, rules), Collect(Scorer(task, today), members));
    ScorePreorder();
    SortOrdered(ByScore, boosted);
    if boosted != [] {
      ConfidenceOfOrdered(Sort(ByScore, boosted));
    }
  }

  // ---------- rules force their target ----------

  lemma {:induction false} SharesSome(skills: seq<string>, required: seq<string>, skill: string)
    requires skill in skills && skill in required
    ensures SharedSkills(skills, required) >= 1
  {
    if skills[0] != skill {
      SharesSome(skills[1..], required, skill);
    }
  }

  lemma {:induction false} SharesNone(skills: seq<string>)
    ensures SharedSkills(skills, []) == 0
  {
    if skills != [] {
      SharesNone(skills[1..]);
    }
  }

  lemma {:induction false} SharesOne(skills: seq<string>, required: seq<string>)
    ensures SharedSkills(skills, required) >= 1 <==> exists i :: 0 <= i < |skills| && skills[i] in required
  {
    if skills != [] {
      SharesOne(skills[1..], required);
      assert forall i :: 0 < i < |skills| ==> skills[i] == skills[1..][i - 1];
      if i :| 0 <= i < |skills[1..]| && skills[1..][i] in required {
        assert skills[i + 1] in required;
      }
    }
  }

  /** Two places of the skill list hold required skills. */
  predicate TwoShared(skills: seq<string>, required: seq<string>) {
    exists i, j :: 0 <= i < j < |skills| && skills[i] in required && skills[j] in required
  }

  lemma {:induction false} SharesTwo(skills: seq<string>, required: seq<string>)
    ensures SharedSkills(skills, required) >= 2 <==> TwoShared(skills, required)
  {
    if skills != [] {
      SharesTwo(skills[1..], required);
      SharesOne(skills[1..], required);
      assert forall i :: 0 < i < |skills| ==> skills[i] == skills[1..][i - 1];
      if TwoShared(skills[1..], required) {
        var i, j :| 0 <= i < j < |skills[1..]| && skills[1..][i] in required && skills[1..][j] in required;
        assert skills[i + 1] in required && skills[j + 1] in required;
      }
      if k :| 0 <= k < |skills[1..]| && skills[1..][k] in required {
        assert skills[k + 1] in required;
      }
    }
  }

  /** The points of a member: availability, driving, one or more shared skills, and the head's bonus. */
  lemma ScoreAdds(member: Member, task: TaskDraft)
    ensures ScoreCandidate(member, task) ==
      (if member.availability == Available then 30 else if member.availability == Travel then 5 else 0)
      + (if member.drives && (task.category == Logistics || task.category == Errand || task.category == School)
         then 15 else 0)
      + (if TwoShared(member.skills, task.requiredSkills) then 10
         else if exists i :: 0 <= i < |member.skills| && member.skills[i] in task.requiredSkills then 5 else 0)
      + (if member.role == Head && (task.category == Admin || task.requiresApproval) then 8 else 0)
  {
    SharesOne(member.skills, task.requiredSkills);
    SharesTwo(member.skills, task.requiredSkills);
  }

  /**
   * Base scores lie in 0..63, but two members eligible for the same task are never more than 58 apart:
   * both have every required skill, so both earn the skill bonus or neither does.
   */
  lemma EligibleScoresAreClose(task: TaskDraft, today: Date, m: Member, m': Member)
    requires EligibleOn(task, today, m) && EligibleOn(task, today, m')
    ensures 0 <= ScoreCandidate(m', task) && ScoreCandidate(m, task) <= 63
    ensures ScoreCandidate(m, task) - ScoreCandidate(m', task) <= 58
  {
    if task.requiredSkills == [] {
      SharesNone(m.skills);
    } else {
      SharesSome(m'.skills, task.requiredSkills, task.requiredSkills[0]);
    }
  }

  /** No two scores are more than 58 apart. */
  predicate CloseScores(candidates: seq<Candidate>) {
    forall c, c' :: c in candidates && c' in candidates ==> c.score - c'.score <= 58
  }

  lemma CandidatesAreClose(task: TaskDraft, members: seq<Member>, today: Date)
    ensures CloseScores(Collect(Scorer(task, today), members))
  {
    var plain := Collect(Scorer(task, today), members);
    forall c, c' | c in plain && c' in plain ensures c.score - c'.score <= 58 {
      CandidateIsMember(task, members, today, c);
      CandidateIsMember(task, members, today, c');
      EligibleScoresAreClose(task, today, c.member, c'.member);
    }
  }

  /** A rule that matches the task is applicable when some eligible member satisfies it. */
  predicate Applicable(task: TaskDraft, members: seq<Member>, today: Date, rule: Rule) {
    && Suits(rule, task)
    && exists m :: m in members && EligibleOn(task, today, m) && AppliesOn(today, rule, m)
  }

  function ApplicableTo(task: TaskDraft, members: seq<Member>, today: Date): Rule -> bool {
    (rule: Rule) => Applicable(task, members, today, rule)
  }

  /** The rule the loop stops at: the first applicable one in order of priority. */
  function Deciding(task: TaskDraft, members: seq<Member>, rules: seq<Rule>, today: Date): Option<Rule> {
    First(ApplicableTo(task, members, today), MatchingRules(task, rules))
  }

  /** A member the rule can force: eligible, and the rule applies. */
  predicate IsTarget(task: TaskDraft, today: Date, rule: Rule, member: Member) {
    EligibleOn(task, today, member) && AppliesOn(today, rule, member)
  }

  function TargetOf(task: TaskDraft, today: Date, rule: Rule): Member -> bool {
    (member: Member) => IsTarget(task, today, rule, member)
  }

  /** There is a deciding rule iff some rule is applicable; it is applicable and none outranks it. */
  lemma DecidingRanksHighest(task: TaskDraft, members: seq<Member>, rules: seq<Rule>, today: Date)
    ensures var d := Deciding(task, members, rules, today);
      if d.Some? then
        && d.value in rules && Applicable(task, members, today, d.value)
        && forall r :: r in rules && Applicable(task, members, today, r) ==> r.priority <= d.value.priority
      else forall r :: r in rules ==> !Applicable(task, members, today, r)
  {
    var sorted := MatchingRules(task, rules);
    RulesSorted(task, rules);
    if First(ApplicableTo(task, members, today), sorted).Some? {
      var k := FirstIndex(ApplicableTo(task, members, today), sorted);
      FirstAt(ApplicableTo(task, members, today), sorted, k);
      forall r | r in rules && Applicable(task, members, today, r) ensures r.priority <= sorted[k].priority {
        var n :| 0 <= n < |sorted| && sorted[n] == r;
        assert k <= n;
        assert k == n || ByPriority(sorted[k], sorted[n]);
      }
    }
  }

  /** The first of the applicable rules with the highest priority, in input order. */
  predicate IsEarliestTop(task: TaskDraft, members: seq<Member>, rules: seq<Rule>, today: Date, i: nat)
    requires i < |rules|
  {
    && Applicable(task, members, today, rules[i])
    && forall j :: 0 <= j < |rules| && Applicable(task, members, today, rules[j]) ==>
      rules[j].priority < rules[i].priority || (rules[j].priority == rules[i].priority && i <= j)
  }

  lemma TopInSorted(task: TaskDraft, members: seq<Member>, rules: seq<Rule>, today: Date, i: nat)
    requires i < |rules| && IsEarliestTop(task, members, rules, today, i)
    ensures Deciding(task, members, rules, today) ==
      First(TiedWith(ByPriority, ApplicableTo(task, members, today), rules[i]), Collect(Keeper(task), rules))
  {
    var p := ApplicableTo(task, members, today);
    ScorePreorder();
    KeptRules(task, rules);
    assert rules[i] in rules;
    forall r | r in Collect(Keeper(task), rules) && p(r) ensures ByPriority(rules[i], r) {
      var j :| 0 <= j < |rules| && rules[j] == r;
    }
    FirstSorted(ByPriority, p, rules[i], Collect(Keeper(task), rules));
  }

  lemma NotTiedBefore(task: TaskDraft, members: seq<Member>, rules: seq<Rule>, today: Date, i: nat, j: nat)
    requires j < i < |rules| && IsEarliestTop(task, members, rules, today, i)
    ensures !TiedWith(ByPriority, ApplicableTo(task, members, today), rules[i])(rules[j])
  {
  }

  /** Among applicable rules of equal priority the first one in the input decides. */
  lemma EarliestTopRuleDecides(task: TaskDraft, members: seq<Member>, rules: seq<Rule>, today: Date, i: nat)
    requires i < |rules| && IsEarliestTop(task, members, rules, today, i)
    ensures Deciding(task, members, rules, today) == Some(rules[i])
  {
    var tied := TiedWith(ByPriority, ApplicableTo(task, members, today), rules[i]);
    TopInSorted(task, members, rules, today, i);
    FirstCollected(tied, Keeper(task), rules);
    forall j: nat | j < i ensures !Through(tied, Keeper(task))(rules[j]) {
      NotTiedBefore(task, members, rules, today, i, j);
    }
    FirstAt(Through(tied, Keeper(task)), rules, i);
  }

  function Forced(rule: Rule, candidates: seq<Candidate>): seq<Candidate> {
    match Target(rule, candidates)
    case Some(i) => candidates[i := Force(candidates[i], rule)]
    case None => candidates
  }

  lemma {:induction false} BoostForces(rules: seq<Rule>, candidates: seq<Candidate>, p: Rule -> bool)
    requires forall rule :: rule in rules ==> (p(rule) <==> Target(rule, candidates).Some?)
    ensures Boost(rules, candidates) ==
      match First(p, rules) case Some(rule) => Forced(rule, candidates) case None => candidates
  {
    if rules != [] {
      assert rules[0] in rules && forall rule :: rule in rules[1..] ==> rule in rules;
      if Target(rules[0], candidates).None? {
        BoostForces(rules[1..], candidates, p);
      }
    }
  }

  function AppliesToCandidate(rule: Rule): Candidate -> bool {
    (c: Candidate) => RuleAppliesToMember(rule, c.member, c.age)
  }

  lemma {:induction false} TargetIsFirst(rule: Rule, candidates: seq<Candidate>)
    ensures First(AppliesToCandidate(rule), candidates) ==
      match Target(rule, candidates) case Some(i) => Some(candidates[i]) case None => None
  {
    if candidates != [] && !RuleAppliesToMember(rule, candidates[0].member, candidates[0].age) {
      TargetIsFirst(rule, candidates[1..]);
    }
  }

  /** The candidate a rule forces is made of the first member it can force. */
  lemma TargetIsFirstMember(task: TaskDraft, members: seq<Member>, today: Date, rule: Rule)
    ensures First(AppliesToCandidate(rule), Collect(Scorer(task, today), members)) ==
      match First(TargetOf(task, today, rule), members) case Some(m) => Scorer(task, today)(m) case None => None
  {
    FirstCollected(AppliesToCandidate(rule), Scorer(task, today), members);
    FirstAgrees(Through(AppliesToCandidate(rule), Scorer(task, today)), TargetOf(task, today, rule), members);
  }

  lemma ApplicableHasTarget(task: TaskDraft, members: seq<Member>, today: Date, rule: Rule)
    requires RuleMatchesTask(rule, task)
    ensures Applicable(task, members, today, rule) <==> Target(rule, Collect(Scorer(task, today), members)).Some?
    ensures Applicable(task, members, today, rule) <==> First(TargetOf(task, today, rule), members).Some?
  {
    TargetIsFirst(rule, Collect(Scorer(task, today), members));
    TargetIsFirstMember(task, members, today, rule);
    if Applicable(task, members, today, rule) {
      var m :| m in members && EligibleOn(task, today, m) && AppliesOn(today, rule, m);
      assert TargetOf(task, today, rule)(m);
    }
  }

  /** The boosted candidates: the deciding rule forces its target, and without one nothing changes. */
  lemma DecidingBoosts(task: TaskDraft, members: seq<Member>, rules: seq<Rule>, today: Date)
    ensures var plain := Collect(Scorer(task, today), members);
      Boost(MatchingRules(task, rules), plain) ==
        match Deciding(task, members, rules, today) case Some(rule) => Forced(rule, plain) case None => plain
  {
    var plain := Collect(Scorer(task, today), members);
    var p := ApplicableTo(task, members, today);
    RulesSorted(task, rules);
    forall rule | rule in MatchingRules(task, rules) ensures p(rule) <==> Target(rule, plain).Some? {
      ApplicableHasTarget(task, members, today, rule);
    }
    BoostForces(MatchingRules(task, rules), plain, p);
  }

  /**
   * If the deciding rule has priority above -942, the first member in input order that it can force is assigned:
   * no other candidate can reach a boosted score, because base scores are at most 58 apart.
   */
  lemma DecidingRuleForces(task: TaskDraft, members: seq<Member>, rules: seq<Rule>, today: Date, k: nat)
    requires var d := Deciding(task, members, rules, today);
      && d.Some? && d.value.priority > -942
      && k < |members| && IsTarget(task, today, d.value, members[k])
      && forall j :: 0 <= j < k ==> !IsTarget(task, today, d.value, members[j])
    ensures Routed(task, members, rules, today).assignee == Some(members[k].id)
    ensures Routed(task, members, rules, today).confidence == 0.95
  {
    var plain := Collect(Scorer(task, today), members);
    var rule := Deciding(task, members, rules, today).value;
    DecidingBoosts(task, members, rules, today);
    TargetIsFirst(rule, plain);
    TargetIsFirstMember(task, members, today, rule);
    FirstAt(TargetOf(task, today, rule), members, k);
    CandidatesAreClose(task, members, today);
    ForcedComesFirst(plain, Target(rule, plain).value, rule);
  }

  /**
   * If some applicable rule has priority above -942, the assignee satisfies the deciding rule, whose priority is
   * at least as high.
   */
  lemma TopRuleForces(task: TaskDraft, members: seq<Member>, rules: seq<Rule>, today: Date, rule: Rule)
    requires rule in rules && Applicable(task, members, today, rule)
    requires rule.priority > -942
    ensures exists m, r ::
      && m in members && Routed(task, members, rules, today).assignee == Some(m.id)
      && r in rules && Suits(r, task) && EligibleOn(task, today, m) && AppliesOn(today, r, m)
      && Deciding(task, members, rules, today) == Some(r) && r.priority >= rule.priority
  {
    DecidingRanksHighest(task, members, rules, today);
    var r := Deciding(task, members, rules, today).value;
    ApplicableHasTarget(task, members, today, r);
    var k := FirstIndex(TargetOf(task, today, r), members);
    DecidingRuleForces(task, members, rules, today, k);
    assert members[k] in members;
  }

  lemma KeptRules(task: TaskDraft, rules: seq<Rule>)
    ensures forall r :: r in Collect(Keeper(task), rules) <==> r in rules && RuleMatchesTask(r, task)
  {
    var f := Keeper(task);
    forall r ensures r in Collect(f, rules) <==> r in rules && RuleMatchesTask(r, task) {
      CollectMembers(f, rules, r);
      if r in rules && RuleMatchesTask(r, task) {
        var n :| 0 <= n < |rules| && rules[n] == r;
        assert f(rules[n]) == Some(r);
      }
    }
  }

  lemma RulesSorted(task: TaskDraft, rules: seq<Rule>)
    ensures Ordered(ByPriority, MatchingRules(task, rules))
    ensures forall r :: r in MatchingRules(task, rules) <==> r in rules && RuleMatchesTask(r, task)
  {
    ScorePreorder();
    KeptRules(task, rules);
    SortOrdered(ByPriority, Collect(Keeper(task), rules));
    SortMembers(ByPriority, Collect(Keeper(task), rules));
  }

  lemma CandidateIsMember(task: TaskDraft, members: seq<Member>, today: Date, c: Candidate)
    requires c in Collect(Scorer(task, today), members)
    ensures c.member in members && EligibleOn(task, today, c.member)
    ensures c.age == ComputeAge(c.member.birthDate, today)
    ensures Scorer(task, today)(c.member) == Some(c)
  {
    CollectMembers(Scorer(task, today), members, c);
  }

  lemma CandidateOf(task: TaskDraft, members: seq<Member>, today: Date, m: Member) returns (j: nat)
    requires m in members && EligibleOn(task, today, m)
    ensures j < |Collect(Scorer(task, today), members)|
    ensures Collect(Scorer(task, today), members)[j].member == m
    ensures Collect(Scorer(task, today), members)[j].age == ComputeAge(m.birthDate, today)
  {
    var f := Scorer(task, today);
    var i :| 0 <= i < |members| && members[i] == m;
    assert f(members[i]) == Some(f(m).value);
    CollectMembers(f, members, f(m).value);
    j :| 0 <= j < |Collect(f, members)| && Collect(f, members)[j] == f(m).value;
  }

  /** A candidate boosted by more than 58 sorts before all unboosted ones. */
  lemma ForcedComesFirst(plain: seq<Candidate>, t: nat, rule: Rule)
    requires CloseScores(plain) && t < |plain| && rule.priority > -942
    ensures Sort(ByScore, plain[t := Force(plain[t], rule)])[0] == Force(plain[t], rule)
  {
    var boosted := plain[t := Force(plain[t], rule)];
    var sorted := Sort(ByScore, boosted);
    ScorePreorder();
    SortOrdered(ByScore, boosted);
    SortMembers(ByScore, boosted);
    assert plain[t] in plain;
    forall x | x in boosted && x != boosted[t] ensures !ByScore(x, boosted[t]) {
      var q :| 0 <= q < |boosted| && boosted[q] == x;
      assert x == plain[q];
    }
    assert boosted[t] in boosted;
    var p :| 0 <= p < |sorted| && sorted[p] == boosted[t];
    assert ByScore(sorted[0], boosted[t]);
  }

  /** The bound is sharp: at every priority of -942 or less some household routes around its only rule. */
  lemma TopRuleBoundIsSharp(priority: int) returns (task: TaskDraft, members: seq<Member>, rule: Rule, today: Date)
    requires priority <= -942
    ensures DistinctIds(members) && rule.priority == priority
    ensures Applicable(task, members, today, rule)
    ensures exists m ::
      && m in members && Routed(task, members, [rule], today).assignee == Some(m.id)
      && !AppliesOn(today, rule, m)
  {
    task, members, today := WITNESS_TASK, [STRONG, WEAK], Date(2026, 6, 4);
    rule := WitnessRule(priority);
    WitnessApplies(priority, today);
    StrongIsAssigned(priority, today);
    assert STRONG in members;
  }

  function WitnessRule(priority: int): Rule {
    Rule(0, None, [], None, None, Some(1), priority)
  }

  lemma WitnessApplies(priority: int, today: Date)
    ensures RuleMatchesTask(WitnessRule(priority), WITNESS_TASK)
    ensures Applicable(WITNESS_TASK, [STRONG, WEAK], today, WitnessRule(priority))
    ensures AppliesOn(today, WitnessRule(priority), WEAK) && !AppliesOn(today, WitnessRule(priority), STRONG)
  {
    WitnessScores(today);
    assert WEAK in [STRONG, WEAK];
  }

  lemma StrongIsAssigned(priority: int, today: Date)
    requires priority <= -942
    ensures Routed(WITNESS_TASK, [STRONG, WEAK], [WitnessRule(priority)], today).assignee == Some(STRONG.id)
  {
    var rule := WitnessRule(priority);
    WitnessScores(today);
    WitnessApplies(priority, today);
    SoleRule(WITNESS_TASK, rule);
    PairCollected(WITNESS_TASK, STRONG, WEAK, today);
    StrongComesFirst(rule, Candidate(STRONG, None, 63, None), Candidate(WEAK, None, 5, None));
  }

  const WITNESS_TASK := TaskDraft(Logistics, Med, ["a"], None, None, true)
  const STRONG := Member(0, 0, Head, None, ["a", "a"], true, None, Available, true)
  const WEAK := Member(1, 0, ThirdParty, None, ["a"], false, None, Busy, true)

  lemma WitnessScores(today: Date)
    ensures EligibleOn(WITNESS_TASK, today, STRONG) && EligibleOn(WITNESS_TASK, today, WEAK)
    ensures Scorer(WITNESS_TASK, today)(STRONG).value == Candidate(STRONG, None, 63, None)
    ensures Scorer(WITNESS_TASK, today)(WEAK).value == Candidate(WEAK, None, 5, None)
  {
    assert ["a", "a"][1..] == ["a"] && ["a"][1..] == [];
    assert SharedSkills(["a"], ["a"]) == 1;
  }

  lemma StrongComesFirst(rule: Rule, cs: Candidate, cw: Candidate)
    requires rule.priority <= -942 && cs.score == 63 && cw.score == 5 && cs.member.id <= cw.member.id
    requires !RuleAppliesToMember(rule, cs.member, cs.age) && RuleAppliesToMember(rule, cw.member, cw.age)
    ensures Sort(ByScore, Boost([rule], [cs, cw]))[0] == cs
  {
    var cf := Force(cw, rule);
    assert Target(rule, [cs, cw]) == Some(1);
    assert Boost([rule], [cs, cw]) == [cs, cf];
    assert [cs, cf][1..] == [cf];
  }

  // ---------- without rules the best score wins ----------

  lemma NothingBoosted(task: TaskDraft, members: seq<Member>, rules: seq<Rule>, today: Date)
    requires forall rule :: rule in rules ==> !Applicable(task, members, today, rule)
    ensures Ranked(task, members, rules, today) == Sort(ByScore, Collect(Scorer(task, today), members))
  {
    DecidingRanksHighest(task, members, rules, today);
    DecidingBoosts(task, members, rules, today);
  }

  lemma HeadLeads(sorted: seq<Candidate>, c: Candidate)
    requires Ordered(ByScore, sorted) && c in sorted
    ensures ByScore(sorted[0], c)
  {
    var p :| 0 <= p < |sorted| && sorted[p] == c;
    assert p == 0 || ByScore(sorted[0], sorted[p]);
  }

  lemma BestComesFirst(task: TaskDraft, members: seq<Member>, today: Date, m: Member)
    requires m in members && EligibleOn(task, today, m)
    ensures var sorted := Sort(ByScore, Collect(Scorer(task, today), members));
      && sorted != [] && sorted[0].member in members && EligibleOn(task, today, sorted[0].member)
      && (ScoreCandidate(sorted[0].member, task) > ScoreCandidate(m, task)
          || (ScoreCandidate(sorted[0].member, task) == ScoreCandidate(m, task) && sorted[0].member.id <= m.id))
  {
    var plain := Collect(Scorer(task, today), members);
    ScorePreorder();
    SortOrdered(ByScore, plain);
    SortMembers(ByScore, plain);
    var j := CandidateOf(task, members, today, m);
    assert plain[j] in Sort(ByScore, plain) && Sort(ByScore, plain)[0] in plain;
    CandidateIsMember(task, members, today, Sort(ByScore, plain)[0]);
    CandidateIsMember(task, members, today, plain[j]);
    HeadLeads(Sort(ByScore, plain), plain[j]);
  }

  /** When no rule is applicable, the assignee has the best base score and, among equals, the least id. */
  lemma WithoutRulesBestScoreWins(task: TaskDraft, members: seq<Member>, rules: seq<Rule>, today: Date, m: Member)
    requires forall rule :: rule in rules ==> !Applicable(task, members, today, rule)
    requires m in members && EligibleOn(task, today, m)
    ensures exists best ::
      && best in members && EligibleOn(task, today, best)
      && Routed(task, members, rules, today).assignee == Some(best.id)
      && (ScoreCandidate(best, task) > ScoreCandidate(m, task)
          || (ScoreCandidate(best, task) == ScoreCandidate(m, task) && best.id <= m.id))
  {
    var sorted := Ranked(task, members, rules, today);
    NothingBoosted(task, members, rules, today);
    BestComesFirst(task, members, today, m);
    assert sorted[0].member in members;
  }

  // ---------- order independence ----------

  /** The rule can force at most one member. */
  predicate HasOneTarget(task: TaskDraft, members: seq<Member>, today: Date, rule: Rule) {
    forall m, m' ::
      m in members && IsTarget(task, today, rule, m) && m' in members && IsTarget(task, today, rule, m') ==> m == m'
  }

  /** The condition for order independence: the deciding rule, if there is one, has one target. */
  predicate DecidesAlone(task: TaskDraft, members: seq<Member>, rules: seq<Rule>, today: Date) {
    var d := Deciding(task, members, rules, today);
    d.Some? ==> HasOneTarget(task, members, today, d.value)
  }

  /** A rule that names its assignee has at most one target. */
  lemma NamedRuleHasOneTarget(task: TaskDraft, members: seq<Member>, today: Date, rule: Rule)
    requires DistinctIds(members) && rule.assignTo.Some?
    ensures HasOneTarget(task, members, today, rule)
  {
    DistinctIdsPermuted(members, members);
  }

  ghost predicate OneTarget(rule: Rule, candidates: seq<Candidate>) {
    forall c, c' | c in candidates && c' in candidates ::
      RuleAppliesToMember(rule, c.member, c.age) && RuleAppliesToMember(rule, c'.member, c'.age) ==> c == c'
  }

  lemma TargetsAgree(rule: Rule, s: seq<Candidate>, t: seq<Candidate>)
    requires multiset(s) == multiset(t) && OneTarget(rule, s)
    ensures Target(rule, s).Some? <==> Target(rule, t).Some?
    ensures Target(rule, s).Some? ==> s[Target(rule, s).value] == t[Target(rule, t).value]
  {
    forall c ensures c in s <==> c in t {
      assert c in multiset(s) <==> c in multiset(t);
    }
    if Target(rule, s).Some? {
      assert s[Target(rule, s).value] in t;
    }
    if Target(rule, t).Some? {
      assert t[Target(rule, t).value] in s;
    }
  }

  lemma UpdatePermuted<T>(s: seq<T>, i: nat, t: seq<T>, j: nat, x: T)
    requires multiset(s) == multiset(t) && i < |s| && j < |t| && s[i] == t[j]
    ensures multiset(s[i := x]) == multiset(t[j := x])
  {
    assert multiset(s[i := x]) == multiset(s) - multiset{s[i]} + multiset{x};
    assert multiset(t[j := x]) == multiset(t) - multiset{t[j]} + multiset{x};
  }

  lemma ForcedPermuted(rule: Rule, s: seq<Candidate>, t: seq<Candidate>)
    requires multiset(s) == multiset(t) && OneTarget(rule, s)
    ensures multiset(Forced(rule, s)) == multiset(Forced(rule, t))
  {
    TargetsAgree(rule, s, t);
    if Target(rule, s).Some? {
      var i, j := Target(rule, s).value, Target(rule, t).value;
      UpdatePermuted(s, i, t, j, Force(s[i], rule));
    }
  }

  lemma DecidingPermuted(task: TaskDraft, s: seq<Member>, t: seq<Member>, rules: seq<Rule>, today: Date)
    requires multiset(s) == multiset(t)
    ensures Deciding(task, s, rules, today) == Deciding(task, t, rules, today)
  {
    forall m ensures m in s <==> m in t {
      assert m in multiset(s) <==> m in multiset(t);
    }
    FirstAgrees(ApplicableTo(task, s, today), ApplicableTo(task, t, today), MatchingRules(task, rules));
  }

  lemma OneTargetCandidate(task: TaskDraft, members: seq<Member>, today: Date, rule: Rule)
    requires HasOneTarget(task, members, today, rule)
    ensures OneTarget(rule, Collect(Scorer(task, today), members))
  {
    var plain := Collect(Scorer(task, today), members);
    forall c, c' | c in plain && c' in plain
      && RuleAppliesToMember(rule, c.member, c.age) && RuleAppliesToMember(rule, c'.member, c'.age)
      ensures c == c'
    {
      CandidateIsMember(task, members, today, c);
      CandidateIsMember(task, members, today, c');
      assert IsTarget(task, today, rule, c.member) && IsTarget(task, today, rule, c'.member);
    }
  }

  lemma BoostedPermuted(task: TaskDraft, s: seq<Member>, t: seq<Member>, rules: seq<Rule>, today: Date)
    requires multiset(s) == multiset(t) && DecidesAlone(task, s, rules, today)
    ensures multiset(Boost(MatchingRules(task, rules), Collect(Scorer(task, today), s)))
         == multiset(Boost(MatchingRules(task, rules), Collect(Scorer(task, today), t)))
  {
    var cs, ct := Collect(Scorer(task, today), s), Collect(Scorer(task, today), t);
    var d := Deciding(task, s, rules, today);
    CollectPermuted(Scorer(task, today), s, t);
    DecidingPermuted(task, s, t, rules, today);
    DecidingBoosts(task, s, rules, today);
    DecidingBoosts(task, t, rules, today);
    if d.Some? {
      OneTargetCandidate(task, s, today, d.value);
      ForcedPermuted(d.value, cs, ct);
    }
  }

  /** At every priority: permuting the members changes nothing when the deciding rule has one target. */
  lemma RouteIgnoresMemberOrder(task: TaskDraft, s: seq<Member>, t: seq<Member>, rules: seq<Rule>, today: Date)
    requires multiset(s) == multiset(t) && DistinctIds(s)
    requires DecidesAlone(task, s, rules, today)
    ensures Routed(task, s, rules, today) == Routed(task, t, rules, today)
  {
    BoostedPermuted(task, s, t, rules, today);
    ScorePreorder();
    BoostedAreDistinct(task, s, rules, today);
    SortPermuted(ByScore, Boost(MatchingRules(task, rules), Collect(Scorer(task, today), s)),
      Boost(MatchingRules(task, rules), Collect(Scorer(task, today), t)));
  }

  ghost predicate SameDecision(task: TaskDraft, members: seq<Member>, rules: seq<Rule>, today: Date) {
    forall t: seq<Member> :: multiset(t) == multiset(members) ==>
      Routed(task, t, rules, today) == Routed(task, members, rules, today)
  }

  ghost predicate SameAssignee(task: TaskDraft, members: seq<Member>, rules: seq<Rule>, today: Date) {
    forall t: seq<Member> :: multiset(t) == multiset(members) ==>
      Routed(task, t, rules, today).assignee == Routed(task, members, rules, today).assignee
  }

  /** A target of the deciding rule is assigned when it stands first. */
  lemma TargetInFront(task: TaskDraft, members: seq<Member>, rules: seq<Rule>, today: Date, m: Member)
    returns (t: seq<Member>)
    requires var d := Deciding(task, members, rules, today);
      d.Some? && d.value.priority > -942 && m in members && IsTarget(task, today, d.value, m)
    ensures multiset(t) == multiset(members) && Routed(task, t, rules, today).assignee == Some(m.id)
  {
    t := MoveToFront(members, m);
    DecidingPermuted(task, members, t, rules, today);
    DecidingRuleForces(task, t, rules, today, 0);
  }

  /**
   * Where the deciding rule, if there is one, has priority above -942: the assignment, and with it the whole
   * decision, is the same for every order of the members iff that rule has one target.
   */
  lemma OrderIrrelevantIff(task: TaskDraft, members: seq<Member>, rules: seq<Rule>, today: Date)
    requires DistinctIds(members)
    requires var d := Deciding(task, members, rules, today); d.Some? ==> d.value.priority > -942
    ensures SameAssignee(task, members, rules, today) <==> DecidesAlone(task, members, rules, today)
    ensures SameDecision(task, members, rules, today) <==> DecidesAlone(task, members, rules, today)
  {
    if DecidesAlone(task, members, rules, today) {
      forall t: seq<Member> | multiset(t) == multiset(members)
        ensures Routed(task, t, rules, today) == Routed(task, members, rules, today)
      {
        RouteIgnoresMemberOrder(task, members, t, rules, today);
      }
    } else {
      var rule := Deciding(task, members, rules, today).value;
      var a, b :| a in members && IsTarget(task, today, rule, a) && b in members && IsTarget(task, today, rule, b)
        && a != b;
      var s := TargetInFront(task, members, rules, today, a);
      var t := TargetInFront(task, members, rules, today, b);
      DistinctIdsPermuted(members, members);
      assert Routed(task, s, rules, today).assignee != Routed(task, t, rules, today).assignee;
    }
  }

  /** Candidates with different ids do not tie. */
  lemma DifferentIdsDiffer(candidates: seq<Candidate>)
    requires forall i, j :: 0 <= i < j < |candidates| ==> candidates[i].member.id != candidates[j].member.id
    ensures Antisymmetric(ByScore, candidates)
  {
    forall x, y | x in candidates && y in candidates && ByScore(x, y) && ByScore(y, x) ensures x == y {
      var i :| 0 <= i < |candidates| && candidates[i] == x;
      var j :| 0 <= j < |candidates| && candidates[j] == y;
    }
  }

  /** With distinct member ids no two different boosted candidates tie. */
  lemma BoostedAreDistinct(task: TaskDraft, s: seq<Member>, rules: seq<Rule>, today: Date)
    requires DistinctIds(s)
    ensures Antisymmetric(ByScore, Boost(MatchingRules(task, rules), Collect(Scorer(task, today), s)))
  {
    CandidateIdsDistinct(Scorer(task, today), s);
    BoostKeepsIds(MatchingRules(task, rules), Collect(Scorer(task, today), s));
    DifferentIdsDiffer(Boost(MatchingRules(task, rules), Collect(Scorer(task, today), s)));
  }

  lemma BoostKeepsIds(rules: seq<Rule>, candidates: seq<Candidate>)
    requires forall i, j :: 0 <= i < j < |candidates| ==> candidates[i].member.id != candidates[j].member.id
    ensures forall i, j :: 0 <= i < j < |candidates| ==>
      Boost(rules, candidates)[i].member.id != Boost(rules, candidates)[j].member.id
  {
    BoostKeepsMembers(rules, candidates);
  }

  lemma {:induction false} CandidateIdsDistinct(f: Member -> Option<Candidate>, s: seq<Member>)
    requires DistinctIds(s)
    requires forall m :: f(m).Some? ==> f(m).value.member == m
    ensures forall i, j :: 0 <= i < j < |Collect(f, s)| ==> Collect(f, s)[i].member.id != Collect(f, s)[j].member.id
  {
    if s != [] {
      var n := |s| - 1;
      CandidateIdsDistinct(f, s[..n]);
      forall c | c in Collect(f, s[..n]) ensures c.member.id != s[n].id {
        CollectMembers(f, s[..n], c);
      }
    }
  }

  // ---------- order independence at every priority ----------

  /** A member's score once the rule has forced one member. */
  function ScoreWhen(task: TaskDraft, rule: Rule, forced: Member, m: Member): int {
    ScoreCandidate(m, task) + if m == forced then 1000 + rule.priority else 0
  }

  predicate LeadsWhen(task: TaskDraft, rule: Rule, forced: Member, x: Member, y: Member) {
    || ScoreWhen(task, rule, forced, x) > ScoreWhen(task, rule, forced, y)
    || (ScoreWhen(task, rule, forced, x) == ScoreWhen(task, rule, forced, y) && x.id <= y.id)
  }

  /** With that member forced, `x` ranks first. */
  predicate WinsWhen(task: TaskDraft, members: seq<Member>, today: Date, rule: Rule, forced: Member, x: Member) {
    && x in members && EligibleOn(task, today, x)
    && forall y :: y in members && EligibleOn(task, today, y) ==> LeadsWhen(task, rule, forced, x, y)
  }

  /** With nobody forced, `x` ranks first. */
  predicate IsTop(task: TaskDraft, members: seq<Member>, today: Date, x: Member) {
    && x in members && EligibleOn(task, today, x)
    && forall y :: y in members && EligibleOn(task, today, y) ==>
      || ScoreCandidate(x, task) > ScoreCandidate(y, task)
      || (ScoreCandidate(x, task) == ScoreCandidate(y, task) && x.id <= y.id)
  }

  /** Whichever target the deciding rule forces, the member who ranks first unforced still does. */
  predicate TopStays(task: TaskDraft, members: seq<Member>, rules: seq<Rule>, today: Date) {
    var d := Deciding(task, members, rules, today);
    d.Some? && exists x :: x in members && StaysTop(task, members, today, d.value, x)
  }

  predicate StaysTop(task: TaskDraft, members: seq<Member>, today: Date, rule: Rule, x: Member) {
    && IsTop(task, members, today, x)
    && forall m :: m in members && IsTarget(task, today, rule, m) ==> WinsWhen(task, members, today, rule, m, x)
  }

  predicate IsFirstTarget(task: TaskDraft, members: seq<Member>, today: Date, rule: Rule, k: nat) {
    && k < |members| && IsTarget(task, today, rule, members[k])
    && forall j :: 0 <= j < k ==> !IsTarget(task, today, rule, members[j])
  }

  lemma ForcedScores(task: TaskDraft, members: seq<Member>, today: Date, rule: Rule, k: nat)
    requires DistinctIds(members) && IsFirstTarget(task, members, today, rule, k)
    ensures forall c :: c in Forced(rule, Collect(Scorer(task, today), members)) ==>
      && c.member in members && EligibleOn(task, today, c.member)
      && c.score == ScoreWhen(task, rule, members[k], c.member)
  {
    var plain := Collect(Scorer(task, today), members);
    TargetIsFirst(rule, plain);
    TargetIsFirstMember(task, members, today, rule);
    FirstAt(TargetOf(task, today, rule), members, k);
    CandidateIdsDistinct(Scorer(task, today), members);
    var t := Target(rule, plain).value;
    forall i | 0 <= i < |plain|
      ensures var c := Forced(rule, plain)[i];
        && c.member in members && EligibleOn(task, today, c.member)
        && c.score == ScoreWhen(task, rule, members[k], c.member)
    {
      CandidateIsMember(task, members, today, plain[i]);
      CandidateIsMember(task, members, today, plain[t]);
    }
  }

  lemma ForcedHolds(task: TaskDraft, members: seq<Member>, today: Date, rule: Rule, y: Member) returns (c: Candidate)
    requires y in members && EligibleOn(task, today, y)
    ensures c in Forced(rule, Collect(Scorer(task, today), members)) && c.member == y
  {
    var plain := Collect(Scorer(task, today), members);
    var j := CandidateOf(task, members, today, y);
    c := Forced(rule, plain)[j];
  }

  /** Among the boosted candidates the head of the ranking wins. */
  lemma HeadWins(task: TaskDraft, members: seq<Member>, today: Date, rule: Rule, k: nat)
    requires DistinctIds(members) && IsFirstTarget(task, members, today, rule, k)
    ensures var sorted := Sort(ByScore, Forced(rule, Collect(Scorer(task, today), members)));
      sorted != [] && WinsWhen(task, members, today, rule, members[k], sorted[0].member)
  {
    var boosted := Forced(rule, Collect(Scorer(task, today), members));
    var sorted := Sort(ByScore, boosted);
    ForcedScores(task, members, today, rule, k);
    ScorePreorder();
    SortOrdered(ByScore, boosted);
    SortMembers(ByScore, boosted);
    var own := ForcedHolds(task, members, today, rule, members[k]);
    assert own in sorted && sorted[0] in boosted;
    forall y | y in members && EligibleOn(task, today, y)
      ensures LeadsWhen(task, rule, members[k], sorted[0].member, y)
    {
      var c := ForcedHolds(task, members, today, rule, y);
      HeadLeads(sorted, c);
    }
  }

  /** The assignee is whoever ranks first with the first target forced. */
  lemma AssignedWins(task: TaskDraft, members: seq<Member>, rules: seq<Rule>, today: Date, rule: Rule, k: nat)
    returns (x: Member)
    requires DistinctIds(members) && Deciding(task, members, rules, today) == Some(rule)
    requires IsFirstTarget(task, members, today, rule, k)
    ensures WinsWhen(task, members, today, rule, members[k], x)
    ensures Routed(task, members, rules, today).assignee == Some(x.id)
  {
    DecidingBoosts(task, members, rules, today);
    HeadWins(task, members, today, rule, k);
    x := Sort(ByScore, Forced(rule, Collect(Scorer(task, today), members)))[0].member;
  }

  lemma WinnersAgree(
      task: TaskDraft, members: seq<Member>, today: Date, rule: Rule, forced: Member, x: Member, y: Member)
    requires DistinctIds(members)
    requires WinsWhen(task, members, today, rule, forced, x) && WinsWhen(task, members, today, rule, forced, y)
    ensures x == y
  {
    DistinctIdsPermuted(members, members);
    assert LeadsWhen(task, rule, forced, x, y) && LeadsWhen(task, rule, forced, y, x);
  }

  lemma WinsPermuted(
      task: TaskDraft, s: seq<Member>, t: seq<Member>, today: Date, rule: Rule, forced: Member, x: Member)
    requires multiset(s) == multiset(t) && WinsWhen(task, t, today, rule, forced, x)
    ensures WinsWhen(task, s, today, rule, forced, x)
  {
    forall m ensures m in s <==> m in t {
      assert m in multiset(s) <==> m in multiset(t);
    }
  }

  /** Who ranks first whichever of two targets is forced ranks first with nobody forced. */
  lemma TopUnderTwo(task: TaskDraft, members: seq<Member>, today: Date, rule: Rule, a: Member, b: Member, x: Member)
    requires a != b
    requires WinsWhen(task, members, today, rule, a, x) && WinsWhen(task, members, today, rule, b, x)
    ensures IsTop(task, members, today, x)
  {
    forall y | y in members && EligibleOn(task, today, y)
      ensures ScoreCandidate(x, task) > ScoreCandidate(y, task)
        || (ScoreCandidate(x, task) == ScoreCandidate(y, task) && x.id <= y.id)
    {
      assert LeadsWhen(task, rule, a, x, y) && LeadsWhen(task, rule, b, x, y);
    }
  }

  lemma DistinctPermuted(s: seq<Member>, t: seq<Member>)
    requires multiset(s) == multiset(t) && DistinctIds(s)
    ensures DistinctIds(t)
  {
    forall i, j | 0 <= i < j < |t| ensures t[i].id != t[j].id {
      DistinctIdsPermuted(s, t);
      assert t[i] in t && t[j] in t;
      if t[i] == t[j] {
        TwoOf(t, i, j);
        var p, q := Twice(s, t[i]);
      }
    }
  }

  lemma TwoOf<T>(t: seq<T>, i: nat, j: nat)
    requires i < j < |t| && t[i] == t[j]
    ensures multiset(t)[t[i]] >= 2
  {
    assert t == t[..j] + t[j..];
    assert t[i] in t[..j] && t[j] in t[j..];
  }

  /** In every order of the members the assignee ranks first with some target forced, the first one in that order. */
  lemma AssignedInOrder(
      task: TaskDraft, members: seq<Member>, t: seq<Member>, rules: seq<Rule>, today: Date, rule: Rule, k: nat)
    returns (x: Member)
    requires multiset(t) == multiset(members) && DistinctIds(members)
    requires Deciding(task, members, rules, today) == Some(rule) && IsFirstTarget(task, t, today, rule, k)
    ensures WinsWhen(task, members, today, rule, t[k], x)
    ensures Routed(task, t, rules, today).assignee == Some(x.id)
  {
    DecidingPermuted(task, members, t, rules, today);
    DistinctPermuted(members, t);
    x := AssignedWins(task, t, rules, today, rule, k);
    WinsPermuted(task, members, t, today, rule, t[k], x);
  }

  lemma TopStaysAssigned(
      task: TaskDraft, members: seq<Member>, t: seq<Member>, rules: seq<Rule>, today: Date, rule: Rule, x: Member)
    requires multiset(t) == multiset(members) && DistinctIds(members)
    requires Deciding(task, members, rules, today) == Some(rule) && StaysTop(task, members, today, rule, x)
    ensures Routed(task, t, rules, today).assignee == Some(x.id)
  {
    DecidingPermuted(task, members, t, rules, today);
    DecidingRanksHighest(task, t, rules, today);
    ApplicableHasTarget(task, t, today, rule);
    var k := FirstIndex(TargetOf(task, today, rule), t);
    assert forall j :: 0 <= j < k ==> !TargetOf(task, today, rule)(t[j]);
    var y := AssignedInOrder(task, members, t, rules, today, rule, k);
    assert t[k] in multiset(members);
    WinnersAgree(task, members, today, rule, t[k], x, y);
  }

  /** If the assignee is always the same, it ranks first whichever target is forced. */
  lemma SameWinner(
      task: TaskDraft, members: seq<Member>, rules: seq<Rule>, today: Date, rule: Rule, m: Member, x: Member)
    requires DistinctIds(members) && SameAssignee(task, members, rules, today)
    requires Deciding(task, members, rules, today) == Some(rule)
    requires x in members && Routed(task, members, rules, today).assignee == Some(x.id)
    requires m in members && IsTarget(task, today, rule, m)
    ensures WinsWhen(task, members, today, rule, m, x)
  {
    var t := MoveToFront(members, m);
    var y := AssignedInOrder(task, members, t, rules, today, rule, 0);
    DistinctIdsPermuted(members, members);
    assert y.id == x.id;
  }

  /**
   * At every priority: the assignee is the same for every order of the members iff the deciding rule, if there is
   * one, has one target, or the member who ranks first unforced still does whichever target is forced.
   */
  lemma AssigneeFixedIff(task: TaskDraft, members: seq<Member>, rules: seq<Rule>, today: Date)
    requires DistinctIds(members)
    ensures SameAssignee(task, members, rules, today) <==>
      DecidesAlone(task, members, rules, today) || TopStays(task, members, rules, today)
  {
    if DecidesAlone(task, members, rules, today) {
      forall t: seq<Member> | multiset(t) == multiset(members)
        ensures Routed(task, t, rules, today).assignee == Routed(task, members, rules, today).assignee
      {
        RouteIgnoresMemberOrder(task, members, t, rules, today);
      }
    } else if TopStays(task, members, rules, today) {
      TopStaysSuffices(task, members, rules, today);
    } else if SameAssignee(task, members, rules, today) {
      TopStaysNeeded(task, members, rules, today);
    }
  }

  lemma TopStaysSuffices(task: TaskDraft, members: seq<Member>, rules: seq<Rule>, today: Date)
    requires DistinctIds(members) && TopStays(task, members, rules, today)
    ensures SameAssignee(task, members, rules, today)
  {
    var rule := Deciding(task, members, rules, today).value;
    var x :| x in members && StaysTop(task, members, today, rule, x);
    forall t: seq<Member> | multiset(t) == multiset(members)
      ensures Routed(task, t, rules, today).assignee == Routed(task, members, rules, today).assignee
    {
      TopStaysAssigned(task, members, t, rules, today, rule, x);
      TopStaysAssigned(task, members, members, rules, today, rule, x);
    }
  }

  lemma TopStaysNeeded(task: TaskDraft, members: seq<Member>, rules: seq<Rule>, today: Date)
    requires DistinctIds(members) && SameAssignee(task, members, rules, today)
    requires !DecidesAlone(task, members, rules, today)
    ensures TopStays(task, members, rules, today)
  {
    var rule := Deciding(task, members, rules, today).value;
    var a, b :| a in members && IsTarget(task, today, rule, a) && b in members && IsTarget(task, today, rule, b)
      && a != b;
    var t := MoveToFront(members, a);
    var x := AssignedInOrder(task, members, t, rules, today, rule, 0);
    forall m | m in members && IsTarget(task, today, rule, m) ensures WinsWhen(task, members, today, rule, m, x) {
      SameWinner(task, members, rules, today, rule, m, x);
    }
    TopUnderTwo(task, members, today, rule, a, b, x);
  }

  // ---------- the decision as a whole ----------

  /** The deciding rule forces this member: its first target in input order. */
  predicate IsForced(task: TaskDraft, members: seq<Member>, rules: seq<Rule>, today: Date, m: Member) {
    var d := Deciding(task, members, rules, today);
    d.Some? && exists k :: 0 <= k < |members| && IsFirstTarget(task, members, today, d.value, k) && members[k] == m
  }

  function FullScore(task: TaskDraft, members: seq<Member>, rules: seq<Rule>, today: Date, m: Member): int {
    ScoreCandidate(m, task)
    + if IsForced(task, members, rules, today, m) then 1000 + Deciding(task, members, rules, today).value.priority
      else 0
  }

  /** A candidate with its final score, marked if it is the forced one. */
  predicate Rated(task: TaskDraft, members: seq<Member>, rules: seq<Rule>, today: Date, c: Candidate) {
    && c.score == FullScore(task, members, rules, today, c.member)
    && (c.forcedBy.Some? <==> IsForced(task, members, rules, today, c.member))
  }

  lemma FirstTargetIndex(task: TaskDraft, members: seq<Member>, today: Date, rule: Rule) returns (k: nat)
    requires Applicable(task, members, today, rule)
    ensures IsFirstTarget(task, members, today, rule, k)
  {
    ApplicableHasTarget(task, members, today, rule);
    k := FirstIndex(TargetOf(task, today, rule), members);
    assert forall j :: 0 <= j < k ==> !TargetOf(task, today, rule)(members[j]);
  }

  lemma FirstTargetOf(task: TaskDraft, members: seq<Member>, rules: seq<Rule>, today: Date) returns (k: nat)
    requires Deciding(task, members, rules, today).Some?
    ensures IsFirstTarget(task, members, today, Deciding(task, members, rules, today).value, k)
    ensures forall m :: IsForced(task, members, rules, today, m) <==> m == members[k]
  {
    var rule := Deciding(task, members, rules, today).value;
    DecidingRanksHighest(task, members, rules, today);
    k := FirstTargetIndex(task, members, today, rule);
    forall m | IsForced(task, members, rules, today, m) ensures m == members[k] {
      var j :| 0 <= j < |members| && IsFirstTarget(task, members, today, rule, j) && members[j] == m;
      assert j == k;
    }
  }

  lemma ForcedAreRated(task: TaskDraft, members: seq<Member>, rules: seq<Rule>, today: Date, c: Candidate)
    requires DistinctIds(members) && Deciding(task, members, rules, today).Some?
    requires c in Forced(Deciding(task, members, rules, today).value, Collect(Scorer(task, today), members))
    ensures Rated(task, members, rules, today, c)
  {
    var rule := Deciding(task, members, rules, today).value;
    var plain := Collect(Scorer(task, today), members);
    var k := FirstTargetOf(task, members, rules, today);
    ForcedScores(task, members, today, rule, k);
    ForcedMarks(task, members, today, rule, k);
  }

  lemma ForcedMarks(task: TaskDraft, members: seq<Member>, today: Date, rule: Rule, k: nat)
    requires DistinctIds(members) && IsFirstTarget(task, members, today, rule, k)
    ensures forall c :: c in Forced(rule, Collect(Scorer(task, today), members)) ==>
      (c.forcedBy.Some? <==> c.member == members[k])
  {
    var plain := Collect(Scorer(task, today), members);
    TargetIsFirst(rule, plain);
    TargetIsFirstMember(task, members, today, rule);
    FirstAt(TargetOf(task, today, rule), members, k);
    CandidateIdsDistinct(Scorer(task, today), members);
    var t := Target(rule, plain).value;
    forall i | 0 <= i < |plain| ensures Forced(rule, plain)[i].forcedBy.Some? <==> plain[i].member == members[k] {
      CandidateIsMember(task, members, today, plain[i]);
      CandidateIsMember(task, members, today, plain[t]);
    }
  }

  lemma RankedAreRated(task: TaskDraft, members: seq<Member>, rules: seq<Rule>, today: Date, c: Candidate)
    requires DistinctIds(members) && c in Ranked(task, members, rules, today)
    ensures Rated(task, members, rules, today, c)
  {
    var plain := Collect(Scorer(task, today), members);
    DecidingBoosts(task, members, rules, today);
    SortMembers(ByScore, Boost(MatchingRules(task, rules), plain));
    if Deciding(task, members, rules, today).Some? {
      ForcedAreRated(task, members, rules, today, c);
    } else {
      CandidateIsMember(task, members, today, c);
    }
  }

  lemma RankedOnce(task: TaskDraft, members: seq<Member>, rules: seq<Rule>, today: Date, i: nat, j: nat)
    requires DistinctIds(members) && i < j < |Ranked(task, members, rules, today)|
    ensures var r := Ranked(task, members, rules, today);
      r[i].score > r[j].score || (r[i].score == r[j].score && r[i].member.id < r[j].member.id)
  {
    var boosted := Boost(MatchingRules(task, rules), Collect(Scorer(task, today), members));
    var r := Ranked(task, members, rules, today);
    ScorePreorder();
    SortOrdered(ByScore, boosted);
    SortMembers(ByScore, boosted);
    CandidateIdsDistinct(Scorer(task, today), members);
    BoostKeepsIds(MatchingRules(task, rules), Collect(Scorer(task, today), members));
    assert ByScore(r[i], r[j]);
    if r[i].member.id == r[j].member.id {
      SortKeepsApart(boosted, i, j);
    }
  }

  /** Sorting keeps candidates with different ids apart. */
  lemma SortKeepsApart(s: seq<Candidate>, i: nat, j: nat)
    requires forall a, b :: 0 <= a < b < |s| ==> s[a].member.id != s[b].member.id
    requires i < j < |s|
    ensures Sort(ByScore, s)[i].member.id != Sort(ByScore, s)[j].member.id
  {
    var r := Sort(ByScore, s);
    SortMembers(ByScore, s);
    assert r[i] in s && r[j] in s;
    if r[i] == r[j] {
      TwoOf(r, i, j);
      var a, b := Twice(s, r[i]);
    }
  }

  predicate Ranks(r: seq<(Member, int)>, m: Member) {
    exists i :: 0 <= i < |r| && r[i].0 == m
  }

  /** Score descending, then id ascending, nobody twice. */
  predicate Descending(r: seq<(Member, int)>) {
    forall i, j :: 0 <= i < j < |r| ==> r[i].1 > r[j].1 || (r[i].1 == r[j].1 && r[i].0.id < r[j].0.id)
  }

  predicate FullyScored(task: TaskDraft, members: seq<Member>, rules: seq<Rule>, today: Date, r: seq<(Member, int)>) {
    forall i :: 0 <= i < |r| ==> r[i].1 == FullScore(task, members, rules, today, r[i].0)
  }

  /** What the ranked members are: every eligible one once, by score and then id. */
  ghost predicate IsRanking(
      task: TaskDraft, members: seq<Member>, rules: seq<Rule>, today: Date, r: seq<(Member, int)>, forced: bool)
  {
    && (forall m :: Ranks(r, m) <==> m in members && EligibleOn(task, today, m))
    && FullyScored(task, members, rules, today, r) && Descending(r)
    && (forced <==> r != [] && IsForced(task, members, rules, today, r[0].0))
  }

  /** What the decision makes of a ranking: its head, the rest, and how far the head is ahead. */
  ghost predicate DecidedBy(d: Decision, r: seq<(Member, int)>, forced: bool) {
    if r == [] then d == Decision(None, 0.0, [])
    else
      && d.assignee == Some(r[0].0.id)
      && |d.alternatives| == |r| - 1
      && (forall i :: 0 < i < |r| ==> d.alternatives[i - 1] == (r[i].0.id, r[i].1))
      && d.confidence == (if forced then 0.95 else if |r| == 1 then 0.9 else ShareAhead(r[0].1 - r[1].1))
  }

  /** One half and a hundredth per point ahead, up to nine tenths. */
  function ShareAhead(points: int): real {
    if points >= 40 then 0.9 else 0.5 + points as real / 100.0
  }

  function Rows(ranked: seq<Candidate>): (r: seq<(Member, int)>)
    ensures |r| == |ranked| && forall i :: 0 <= i < |r| ==> r[i] == (ranked[i].member, ranked[i].score)
  {
    seq(|ranked|, i requires 0 <= i < |ranked| => (ranked[i].member, ranked[i].score))
  }

  lemma RowsAreEligible(task: TaskDraft, members: seq<Member>, rules: seq<Rule>, today: Date, m: Member)
    ensures var r := Rows(Ranked(task, members, rules, today));
      Ranks(r, m) <==> m in members && EligibleOn(task, today, m)
  {
    var ranked := Ranked(task, members, rules, today);
    var r := Rows(ranked);
    RankedMembers(task, members, rules, today);
    if i :| 0 <= i < |r| && r[i].0 == m {
      assert ranked[i] in ranked;
    }
    if m in members && EligibleOn(task, today, m) {
      var c :| c in ranked && c.member == m;
      var i :| 0 <= i < |ranked| && ranked[i] == c;
      assert r[i].0 == m;
    }
  }

  lemma RowsAreRated(task: TaskDraft, members: seq<Member>, rules: seq<Rule>, today: Date)
    requires DistinctIds(members)
    ensures var ranked := Ranked(task, members, rules, today);
      && FullyScored(task, members, rules, today, Rows(ranked))
      && (ranked != [] ==> (ranked[0].forcedBy.Some? <==> IsForced(task, members, rules, today, ranked[0].member)))
  {
    var ranked := Ranked(task, members, rules, today);
    forall i | 0 <= i < |ranked| ensures Rated(task, members, rules, today, ranked[i]) {
      assert ranked[i] in ranked;
      RankedAreRated(task, members, rules, today, ranked[i]);
    }
  }

  lemma RowsDescend(task: TaskDraft, members: seq<Member>, rules: seq<Rule>, today: Date)
    requires DistinctIds(members)
    ensures Descending(Rows(Ranked(task, members, rules, today)))
  {
    var r := Rows(Ranked(task, members, rules, today));
    forall i, j | 0 <= i < j < |r| ensures r[i].1 > r[j].1 || (r[i].1 == r[j].1 && r[i].0.id < r[j].0.id) {
      RankedOnce(task, members, rules, today, i, j);
    }
  }

  lemma GapShare(points: int)
    requires points >= 0
    ensures var raw := 0.5 + points as real / 100.0;
      Clamp(if raw < 0.9 then raw else 0.9, 0.0, 1.0) == ShareAhead(points)
  {
    assert points as real / 100.0 >= 0.0;
    if points >= 40 {
      assert points as real / 100.0 >= 40.0 / 100.0;
    } else {
      assert points as real / 100.0 < 40.0 / 100.0;
    }
  }

  lemma DecideReads(ranked: seq<Candidate>, forced: bool)
    requires |ranked| > 1 ==> ranked[0].score >= ranked[1].score
    requires forced <==> ranked != [] && ranked[0].forcedBy.Some?
    ensures DecidedBy(Decide(ranked), Rows(ranked), forced)
  {
    if |ranked| > 1 {
      GapShare(ranked[0].score - ranked[1].score);
    }
  }

  /**
   * With distinct ids the decision is read off one ranking: every eligible member once, by score and then id, where
   * the first target of the deciding rule has 1000 points and the rule's priority more.
   */
  lemma DecisionIsRanking(task: TaskDraft, members: seq<Member>, rules: seq<Rule>, today: Date)
    returns (r: seq<(Member, int)>, forced: bool)
    requires DistinctIds(members)
    ensures IsRanking(task, members, rules, today, r, forced)
    ensures DecidedBy(Routed(task, members, rules, today), r, forced)
  {
    var ranked := Ranked(task, members, rules, today);
    r := Rows(ranked);
    forced := ranked != [] && ranked[0].forcedBy.Some?;
    forall m ensures Ranks(r, m) <==> m in members && EligibleOn(task, today, m) {
      RowsAreEligible(task, members, rules, today, m);
    }
    RowsAreRated(task, members, rules, today);
    RowsDescend(task, members, rules, today);
    DecideReads(ranked, forced);
  }

  /** Two members, one unnamed rule: whoever stands first is assigned. */
  lemma UnnamedRuleDependsOnOrder(a: Member, b: Member, today: Date)
    requires a.id != b.id && a.active && b.active
    ensures var task := TaskDraft(Errand, Med, [], None, None, false);
      var rule := Rule(0, None, [], None, None, None, 0);
      && Routed(task, [a, b], [rule], today).assignee == Some(a.id)
      && Routed(task, [b, a], [rule], today).assignee == Some(b.id)
  {
    FirstIsForced(a, b, today);
    FirstIsForced(b, a, today);
  }

  lemma FirstIsForced(a: Member, b: Member, today: Date)
    requires a.active && b.active
    ensures Routed(TaskDraft(Errand, Med, [], None, None, false), [a, b], [Rule(0, None, [], None, None, None, 0)],
      today).assignee == Some(a.id)
  {
    var task := TaskDraft(Errand, Med, [], None, None, false);
    var rule := Rule(0, None, [], None, None, None, 0);
    assert a in [a, b] && IsTarget(task, today, rule, a);
    EarliestTopRuleDecides(task, [a, b], [rule], today, 0);
    DecidingRuleForces(task, [a, b], [rule], today, 0);
  }

  lemma SoleRule(task: TaskDraft, rule: Rule)
    requires RuleMatchesTask(rule, task)
    ensures MatchingRules(task, [rule]) == [rule]
  {
    CollectStep(Keeper(task), [rule], 0);
    assert [rule][..0] == [] && [rule][..1] == [rule];
    assert Sort(ByPriority, [rule][1..]) == [];
  }

  lemma PairCollected(task: TaskDraft, a: Member, b: Member, today: Date)
    requires EligibleOn(task, today, a) && EligibleOn(task, today, b)
    ensures Collect(Scorer(task, today), [a, b]) == [Scorer(task, today)(a).value, Scorer(task, today)(b).value]
  {
    var f := Scorer(task, today);
    CollectStep(f, [a, b], 0);
    CollectStep(f, [a, b], 1);
    assert [a, b][..0] == [] && [a, b][..1] == [a] && [a, b][..2] == [a, b];
  }
}
