/** Load equity: each member's weighted, rounded share of the household's logistics load. */
module LoadEquity {
  import opened Base
  import opened Household
  import opened Sequences

  datatype Chore = Chore(category: Category, urgency: Urgency, assignee: Option<Id>)

  datatype Equity = Equity(memberId: Id, sharePct: real, taskLoad: nat)

  function DefaultCategories(): set<Category> {
    {Logistics, School, Errand}
  }

  function Weight(u: Urgency): nat {
    match u
    case Low => 1
    case Med => 2
    case High => 3
    case Critical => 4
  }

  function Ids(members: seq<Member>): set<Id> {
    set m | m in members :: m.id
  }

  // ---------- the loads ----------

  /** The weight a chore adds to the total: only counted categories assigned to a listed member. */
  function Weighed(categories: set<Category>, ids: set<Id>): Chore -> Option<nat> {
    (c: Chore) =>
      if c.category in categories && c.assignee.Some? && c.assignee.value in ids then Some(Weight(c.urgency)) else None
  }

  /** The weight a chore adds to one member's load. */
  function WeighedFor(categories: set<Category>, ids: set<Id>, id: Id): Chore -> Option<nat> {
    (c: Chore) => if c.assignee == Some(id) then Weighed(categories, ids)(c) else None
  }

  function Sum(s: seq<nat>): nat {
    if s == [] then 0 else Sum(s[..|s| - 1]) + s[|s| - 1]
  }

  function Amount(o: Option<nat>): nat {
    match o
    case Some(n) => n
    case None => 0
  }

  function Total(chores: seq<Chore>, categories: set<Category>, ids: set<Id>): nat {
    Sum(Collect(Weighed(categories, ids), chores))
  }

  function Load(chores: seq<Chore>, categories: set<Category>, ids: set<Id>, id: Id): nat {
    Sum(Collect(WeighedFor(categories, ids, id), chores))
  }

  // ---------- the shares ----------

  /** One decimal, halves rounded up as `Math.round` does. */
  function Round1(x: real): real {
    (x * 10.0 + 0.5).Floor as real / 10.0
  }

  /** A load as a percentage of the total. */
  function Percent(load: real, total: real): real
    requires total > 0.0
  {
    load / total * 100.0
  }

  function SharePct(load: nat, total: nat): real {
    Round1(if total == 0 then 0.0 else Clamp(Percent(load as real, total as real), 0.0, 100.0))
  }

  function Share(total: nat): nat -> real {
    (load: nat) => SharePct(load, total)
  }

  function EntryFor(load: Id -> nat, share: nat -> real): Member -> Option<Equity> {
    (m: Member) => Some(Equity(m.id, share(load(m.id)), load(m.id)))
  }

  function Loads(chores: seq<Chore>, categories: set<Category>, ids: set<Id>): Id -> nat {
    (id: Id) => Load(chores, categories, ids, id)
  }

  function Entries(members: seq<Member>, chores: seq<Chore>, categories: set<Category>): seq<Equity> {
    var ids := Ids(members);
    Collect(EntryFor(Loads(chores, categories, ids), Share(Total(chores, categories, ids))), members)
  }

  /** Share descending, then id. */
  predicate ByShare(a: Equity, b: Equity) {
    a.sharePct > b.sharePct || (a.sharePct == b.sharePct && a.memberId <= b.memberId)
  }

  function Ranking(members: seq<Member>, chores: seq<Chore>, categories: set<Category>): seq<Equity> {
    Sort(ByShare, Entries(members, chores, categories))
  }

  // ---------- computeLoadEquity ----------

  lemma SumOne(s: seq<nat>, o: Option<nat>)
    ensures Sum(s + One(o)) == Sum(s) + Amount(o)
  {
    match o
    case None =>
      assert s + [] == s;
    case Some(n) =>
      assert (s + [n])[..|s|] == s;
  }

  lemma LoadStep(chores: seq<Chore>, categories: set<Category>, ids: set<Id>, i: nat, id: Id)
    requires i < |chores|
    ensures Load(chores[..i + 1], categories, ids, id) ==
      Load(chores[..i], categories, ids, id) + Amount(WeighedFor(categories, ids, id)(chores[i]))
  {
    var f := WeighedFor(categories, ids, id);
    CollectStep(f, chores, i);
    SumOne(Collect(f, chores[..i]), f(chores[i]));
  }

  lemma TotalStep(chores: seq<Chore>, categories: set<Category>, ids: set<Id>, i: nat)
    requires i < |chores|
    ensures Total(chores[..i + 1], categories, ids) ==
      Total(chores[..i], categories, ids) + Amount(Weighed(categories, ids)(chores[i]))
  {
    var f := Weighed(categories, ids);
    CollectStep(f, chores, i);
    SumOne(Collect(f, chores[..i]), f(chores[i]));
  }

  method StartAtZero(members: seq<Member>) returns (loadByMember: map<Id, nat>)
    ensures loadByMember.Keys == Ids(members)
    ensures forall id :: id in loadByMember ==> loadByMember[id] == 0
  {
    loadByMember := map[];
    for i := 0 to |members|
      invariant loadByMember.Keys == Ids(members[..i])
      invariant forall id :: id in loadByMember ==> loadByMember[id] == 0
    {
      assert members[..i + 1] == members[..i] + [members[i]];
      loadByMember := loadByMember[members[i].id := 0];
    }
    assert members[..|members|] == members;
  }

  /** The map holds the loads of the chores read so far. */
  ghost predicate Tallies(loadByMember: map<Id, nat>, chores: seq<Chore>, categories: set<Category>, ids: set<Id>) {
    loadByMember.Keys == ids && forall id :: id in ids ==> loadByMember[id] == Load(chores, categories, ids, id)
  }

  lemma TalliesStep(before: map<Id, nat>, after: map<Id, nat>, chores: seq<Chore>, categories: set<Category>,
      ids: set<Id>, i: nat)
    requires i < |chores| && Tallies(before, chores[..i], categories, ids) && after.Keys == ids
    requires forall id :: id in ids ==> after[id] == before[id] + Amount(WeighedFor(categories, ids, id)(chores[i]))
    ensures Tallies(after, chores[..i + 1], categories, ids)
  {
    forall id | id in ids ensures after[id] == Load(chores[..i + 1], categories, ids, id) {
      LoadStep(chores, categories, ids, i, id);
    }
  }

  /** One chore: both tallies grow by its weight, or neither does. */
  method AddChore(before: map<Id, nat>, chore: Chore, categories: set<Category>)
    returns (after: map<Id, nat>, weight: nat)
    ensures after.Keys == before.Keys && weight == Amount(Weighed(categories, before.Keys)(chore))
    ensures forall id :: id in before ==>
      after[id] == before[id] + Amount(WeighedFor(categories, before.Keys, id)(chore))
  {
    after, weight := before, 0;
    if chore.category in categories && chore.assignee.Some? && chore.assignee.value in before {
      weight := Weight(chore.urgency);
      after := before[chore.assignee.value := before[chore.assignee.value] + weight];
    }
  }

  method AddUp(members: seq<Member>, chores: seq<Chore>, categories: set<Category>)
    returns (loadByMember: map<Id, nat>, total: nat)
    ensures Tallies(loadByMember, chores, categories, Ids(members))
    ensures total == Total(chores, categories, Ids(members))
  {
    ghost var ids := Ids(members);
    loadByMember := StartAtZero(members);
    total := 0;
    for i := 0 to |chores|
      invariant Tallies(loadByMember, chores[..i], categories, ids)
      invariant total == Total(chores[..i], categories, ids)
    {
      var after, weight := AddChore(loadByMember, chores[i], categories);
      TotalStep(chores, categories, ids, i);
      TalliesStep(loadByMember, after, chores, categories, ids, i);
      loadByMember, total := after, total + weight;
    }
    assert chores[..|chores|] == chores;
  }

  method MakeEntries(members: seq<Member>, loadByMember: map<Id, nat>, total: nat, ghost load: Id -> nat)
    returns (result: seq<Equity>)
    requires forall m :: m in members ==> m.id in loadByMember && loadByMember[m.id] == load(m.id)
    ensures result == Collect(EntryFor(load, Share(total)), members)
  {
    ghost var entry := EntryFor(load, Share(total));
    result := [];
    for i := 0 to |members|
      invariant result == Collect(entry, members[..i])
    {
      var m := members[i];
      CollectStep(entry, members, i);
      assert m in members;
      var taskLoad := if m.id in loadByMember then loadByMember[m.id] else 0;
      result := result + [Equity(m.id, SharePct(taskLoad, total), taskLoad)];
    }
    assert members[..|members|] == members;
  }

  method ComputeLoadEquity(members: seq<Member>, chores: seq<Chore>, categories: set<Category>)
    returns (result: seq<Equity>)
    ensures result == Ranking(members, chores, categories)
  {
    ghost var ids := Ids(members);
    var loadByMember, total := AddUp(members, chores, categories);
    assert forall m :: m in members ==> m.id in ids;
    result := MakeEntries(members, loadByMember, total, Loads(chores, categories, ids));
    result := Sort(ByShare, result);
  }

  // ---------- the loads add up ----------

  function SumLoads(load: Id -> nat, members: seq<Member>): nat {
    if members == [] then 0 else SumLoads(load, members[..|members| - 1]) + load(members[|members| - 1].id)
  }

  /** How many of the members carry the id. */
  function Carriers(id: Id, members: seq<Member>): nat {
    if members == [] then 0
    else Carriers(id, members[..|members| - 1]) + if members[|members| - 1].id == id then 1 else 0
  }

  lemma {:induction false} AddingForOne(f: Id -> nat, g: Id -> nat, members: seq<Member>, id: Id, w: nat)
    requires forall m :: m in members ==> g(m.id) == f(m.id) + if m.id == id then w else 0
    ensures SumLoads(g, members) == SumLoads(f, members) + w * Carriers(id, members)
  {
    if members != [] {
      var n := |members| - 1;
      assert forall m :: m in members[..n] ==> m in members;
      AddingForOne(f, g, members[..n], id, w);
      assert members[n] in members;
      assert w * (Carriers(id, members[..n]) + 1) == w * Carriers(id, members[..n]) + w;
    }
  }

  lemma IdsSnoc(members: seq<Member>, n: nat)
    requires |members| == n + 1
    ensures Ids(members) == Ids(members[..n]) + {members[n].id}
  {
    Snoc(members, n);
    assert members[..n + 1] == members;
    assert forall m :: m in members <==> m in members[..n] || m == members[n];
  }

  lemma LastIdIsNew(members: seq<Member>, n: nat)
    requires DistinctIds(members) && |members| == n + 1
    ensures members[n].id !in Ids(members[..n])
  {
    forall m | m in members[..n] ensures m.id != members[n].id {
      var i :| 0 <= i < n && members[..n][i] == m;
      assert members[i].id != members[n].id;
    }
  }

  lemma {:induction false} CarriedOnce(id: Id, members: seq<Member>)
    requires DistinctIds(members)
    ensures Carriers(id, members) == if id in Ids(members) then 1 else 0
  {
    if members != [] {
      var n := |members| - 1;
      assert forall i :: 0 <= i < n ==> members[..n][i] == members[i];
      CarriedOnce(id, members[..n]);
      IdsSnoc(members, n);
      LastIdIsNew(members, n);
    }
  }

  lemma {:induction false} NoLoads(load: Id -> nat, members: seq<Member>)
    requires forall m :: m in members ==> load(m.id) == 0
    ensures SumLoads(load, members) == 0
  {
    if members != [] {
      var n := |members| - 1;
      assert forall m :: m in members[..n] ==> m in members;
      NoLoads(load, members[..n]);
      assert members[n] in members;
    }
  }

  /** What a chore adds to the sum of the loads beyond what it adds to the total. */
  function Excess(categories: set<Category>, members: seq<Member>): Chore -> int {
    (c: Chore) =>
      if Weighed(categories, Ids(members))(c).None? then 0
      else Weight(c.urgency) * (Carriers(c.assignee.value, members) - 1)
  }

  function SumExcess(excess: Chore -> int, chores: seq<Chore>): int {
    if chores == [] then 0 else SumExcess(excess, chores[..|chores| - 1]) + excess(chores[|chores| - 1])
  }

  lemma ExcessIs(categories: set<Category>, members: seq<Member>, c: Chore, id: Id, w: nat)
    requires w == Amount(Weighed(categories, Ids(members))(c)) && id == if c.assignee.Some? then c.assignee.value else 0
    ensures Excess(categories, members)(c) == w * Carriers(id, members) - w
  {
    assert w * (Carriers(id, members) - 1) == w * Carriers(id, members) - w;
  }

  /** One more chore raises the sum of the loads by its weight for every member that carries the assignee's id. */
  lemma SumLoadsStep(members: seq<Member>, chores: seq<Chore>, categories: set<Category>, n: nat, id: Id, w: nat)
    requires |chores| == n + 1
    requires w == Amount(Weighed(categories, Ids(members))(chores[n]))
    requires id == if chores[n].assignee.Some? then chores[n].assignee.value else 0
    ensures SumLoads(Loads(chores, categories, Ids(members)), members) ==
      SumLoads(Loads(chores[..n], categories, Ids(members)), members) + w * Carriers(id, members)
  {
    var ids := Ids(members);
    assert chores[..n + 1] == chores;
    forall m | m in members
      ensures Loads(chores, categories, ids)(m.id) ==
        Loads(chores[..n], categories, ids)(m.id) + if m.id == id then w else 0
    {
      LoadStep(chores, categories, ids, n, m.id);
    }
    AddingForOne(Loads(chores[..n], categories, ids), Loads(chores, categories, ids), members, id, w);
  }

  lemma {:induction false} LoadsExceedTotal(members: seq<Member>, chores: seq<Chore>, categories: set<Category>)
    ensures SumLoads(Loads(chores, categories, Ids(members)), members) ==
      Total(chores, categories, Ids(members)) + SumExcess(Excess(categories, members), chores)
  {
    if chores == [] {
      NoLoads(Loads(chores, categories, Ids(members)), members);
    } else {
      var n := |chores| - 1;
      LoadsExceedTotal(members, chores[..n], categories);
      var c := chores[n];
      var w := Amount(Weighed(categories, Ids(members))(c));
      var id := if c.assignee.Some? then c.assignee.value else 0;
      SumLoadsStep(members, chores, categories, n, id, w);
      TotalStep(chores, categories, Ids(members), n);
      assert chores[..n + 1] == chores;
      ExcessIs(categories, members, c, id, w);
    }
  }

  lemma {:induction false} CarriedAtLeastOnce(id: Id, members: seq<Member>)
    requires id in Ids(members)
    ensures Carriers(id, members) >= 1
  {
    var n := |members| - 1;
    var m :| m in members && m.id == id;
    if members[n].id != id {
      assert m in members[..n];
      CarriedAtLeastOnce(id, members[..n]);
    }
  }

  lemma ExcessSign(categories: set<Category>, members: seq<Member>, c: Chore)
    ensures Excess(categories, members)(c) >= 0
    ensures Excess(categories, members)(c) == 0 <==>
      (Weighed(categories, Ids(members))(c).Some? ==> Carriers(c.assignee.value, members) == 1)
  {
    if Weighed(categories, Ids(members))(c).Some? {
      CarriedAtLeastOnce(c.assignee.value, members);
    }
  }

  lemma {:induction false} NoExcess(excess: Chore -> int, chores: seq<Chore>)
    requires forall c :: c in chores ==> excess(c) >= 0
    ensures SumExcess(excess, chores) >= 0
    ensures SumExcess(excess, chores) == 0 <==> forall c :: c in chores ==> excess(c) == 0
  {
    if chores != [] {
      var n := |chores| - 1;
      assert chores == chores[..n] + [chores[n]];
      NoExcess(excess, chores[..n]);
      assert chores[n] in chores;
    }
  }

  /**
   * The members' loads sum to at least the weight of the counted chores, and to exactly that iff every counted
   * chore's assignee is carried by just one listed member.
   */
  lemma LoadsSumToTotalIff(members: seq<Member>, chores: seq<Chore>, categories: set<Category>)
    ensures var ids := Ids(members);
      && SumLoads(Loads(chores, categories, ids), members) >= Total(chores, categories, ids)
      && (SumLoads(Loads(chores, categories, ids), members) == Total(chores, categories, ids) <==>
            forall c :: c in chores && Weighed(categories, ids)(c).Some? ==> Carriers(c.assignee.value, members) == 1)
  {
    LoadsExceedTotal(members, chores, categories);
    forall c ensures Excess(categories, members)(c) >= 0
      && (Excess(categories, members)(c) == 0 <==>
            (Weighed(categories, Ids(members))(c).Some? ==> Carriers(c.assignee.value, members) == 1))
    {
      ExcessSign(categories, members, c);
    }
    NoExcess(Excess(categories, members), chores);
  }

  /** With distinct ids the members' loads sum to the weight of the counted chores. */
  lemma LoadsSumToTotal(members: seq<Member>, chores: seq<Chore>, categories: set<Category>)
    requires DistinctIds(members)
    ensures SumLoads(Loads(chores, categories, Ids(members)), members) == Total(chores, categories, Ids(members))
  {
    LoadsSumToTotalIff(members, chores, categories);
    forall c | c in chores && Weighed(categories, Ids(members))(c).Some?
      ensures Carriers(c.assignee.value, members) == 1
    {
      CarriedOnce(c.assignee.value, members);
    }
  }

  lemma OneChore(category: Category, m: Member, ids: set<Id>)
    requires m.id in ids
    ensures var chores := [Chore(category, Low, Some(m.id))];
      var counted := if category == Logistics || category == School || category == Errand then 1 else 0;
      Load(chores, DefaultCategories(), ids, m.id) == counted && Total(chores, DefaultCategories(), ids) == counted
  {
    var chores := [Chore(category, Low, Some(m.id))];
    LoadStep(chores, DefaultCategories(), ids, 0, m.id);
    TotalStep(chores, DefaultCategories(), ids, 0);
    assert chores[..0] == [] && chores[..1] == chores;
  }

  /** A member listed twice is counted twice, for a chore of one of the three default categories. */
  lemma RepeatedMemberCountedTwice(category: Category, m: Member)
    ensures var chores := [Chore(category, Low, Some(m.id))];
      var counted := if category == Logistics || category == School || category == Errand then 1 else 0;
      && SumLoads(Loads(chores, DefaultCategories(), Ids([m, m])), [m, m]) == 2 * counted
      && Total(chores, DefaultCategories(), Ids([m, m])) == counted
  {
    OneChore(category, m, Ids([m, m]));
    TwiceTheLoad(Loads([Chore(category, Low, Some(m.id))], DefaultCategories(), Ids([m, m])), m);
  }

  lemma TwiceTheLoad(load: Id -> nat, m: Member)
    ensures SumLoads(load, [m, m]) == load(m.id) + load(m.id)
  {
    assert [m, m][..1] == [m] && [m][..0] == [];
    assert SumLoads(load, [m]) == load(m.id);
  }

  /** The member's chore, in a category that counts. */
  predicate Counts(c: Chore, categories: set<Category>, id: Id) {
    c.category in categories && c.assignee == Some(id)
  }

  /** How many of the counted chores of the member are of the urgency. */
  function CountOf(chores: seq<Chore>, categories: set<Category>, id: Id, u: Urgency): nat {
    if chores == [] then 0
    else
      var n := |chores| - 1;
      CountOf(chores[..n], categories, id, u)
      + if Counts(chores[n], categories, id) && chores[n].urgency == u then 1 else 0
  }

  /** One point per low chore of the member, two per medium, three per high and four per critical one. */
  function PointsOf(chores: seq<Chore>, categories: set<Category>, id: Id): nat {
    CountOf(chores, categories, id, Low) + 2 * CountOf(chores, categories, id, Med)
    + 3 * CountOf(chores, categories, id, High) + 4 * CountOf(chores, categories, id, Critical)
  }

  lemma CountStep(chores: seq<Chore>, categories: set<Category>, id: Id, u: Urgency, n: nat)
    requires |chores| == n + 1
    ensures CountOf(chores, categories, id, u) == CountOf(chores[..n], categories, id, u)
      + if Counts(chores[n], categories, id) && chores[n].urgency == u then 1 else 0
  {
  }

  lemma PointsStep(chores: seq<Chore>, categories: set<Category>, id: Id, n: nat)
    requires |chores| == n + 1
    ensures PointsOf(chores, categories, id) == PointsOf(chores[..n], categories, id)
      + if Counts(chores[n], categories, id) then Weight(chores[n].urgency) else 0
  {
    CountStep(chores, categories, id, Low, n);
    CountStep(chores, categories, id, Med, n);
    CountStep(chores, categories, id, High, n);
    CountStep(chores, categories, id, Critical, n);
  }

  lemma AmountFor(c: Chore, categories: set<Category>, ids: set<Id>, id: Id)
    ensures Amount(WeighedFor(categories, ids, id)(c)) ==
      if id in ids && Counts(c, categories, id) then Weight(c.urgency) else 0
  {
    if c.assignee == Some(id) {
      assert WeighedFor(categories, ids, id)(c) == Weighed(categories, ids)(c);
    } else {
      assert WeighedFor(categories, ids, id)(c) == None;
    }
  }

  /** A member's load is the points of the counted chores; nobody else has any. */
  lemma {:induction false} LoadByUrgency(chores: seq<Chore>, categories: set<Category>, ids: set<Id>, id: Id)
    ensures Load(chores, categories, ids, id) == if id in ids then PointsOf(chores, categories, id) else 0
  {
    if chores != [] {
      var n := |chores| - 1;
      LoadByUrgency(chores[..n], categories, ids, id);
      LoadStep(chores, categories, ids, n, id);
      assert chores[..n + 1] == chores;
      AmountFor(chores[n], categories, ids, id);
      PointsStep(chores, categories, id, n);
    }
  }

  lemma {:induction false} LoadWithinTotal(chores: seq<Chore>, categories: set<Category>, ids: set<Id>, id: Id)
    ensures Load(chores, categories, ids, id) <= Total(chores, categories, ids)
  {
    if chores != [] {
      var n := |chores| - 1;
      LoadWithinTotal(chores[..n], categories, ids, id);
      LoadStep(chores, categories, ids, n, id);
      TotalStep(chores, categories, ids, n);
      assert chores[..n + 1] == chores;
    }
  }

  // ---------- the shares add up ----------

  lemma Distribute(a: real, b: real, t: real)
    ensures (a - b) * t == a * t - b * t && (a + b) * t == a * t + b * t
  {
  }

  lemma Product(a: real, t: real)
    requires a > 0.0 && t > 0.0
    ensures a * t > 0.0
  {
  }

  lemma Cancel(a: real, b: real, t: real)
    requires t > 0.0 && a * t <= b * t
    ensures a <= b
  {
    Distribute(a, b, t);
    if a > b {
      Product(a - b, t);
    }
  }

  lemma PercentBounds(l: real, t: real)
    requires 0.0 <= l <= t && t > 0.0
    ensures 0.0 <= Percent(l, t) <= 100.0
  {
    assert l / t * t == l;
    Cancel(0.0, l / t, t);
    Cancel(l / t, 1.0, t);
  }

  lemma PercentMonotone(l: real, l': real, t: real)
    requires l <= l' && t > 0.0
    ensures Percent(l, t) <= Percent(l', t)
  {
    assert l / t * t == l && l' / t * t == l';
    Cancel(l / t, l' / t, t);
  }

  lemma PercentAdditive(l: real, l': real, t: real)
    requires t > 0.0
    ensures Percent(l + l', t) == Percent(l, t) + Percent(l', t)
  {
    var a, b, c := l / t, l' / t, (l + l') / t;
    assert a * t == l && b * t == l' && c * t == l + l';
    Distribute(a, b, t);
    Cancel(a + b, c, t);
    Cancel(c, a + b, t);
  }

  /** For every member the clamp is the identity: the raw share already lies between 0 and 100. */
  lemma ClampNeverBites(members: seq<Member>, chores: seq<Chore>, categories: set<Category>, id: Id)
    requires Total(chores, categories, Ids(members)) != 0
    ensures var ids := Ids(members);
      var share := Percent(Load(chores, categories, ids, id) as real, Total(chores, categories, ids) as real);
      0.0 <= share <= 100.0 && Clamp(share, 0.0, 100.0) == share
  {
    LoadWithinTotal(chores, categories, Ids(members), id);
    PercentBounds(Load(chores, categories, Ids(members), id) as real, Total(chores, categories, Ids(members)) as real);
  }

  lemma Round1Error(x: real)
    ensures -0.05 <= Round1(x) - x <= 0.05
    ensures 0.0 <= x <= 100.0 ==> 0.0 <= Round1(x) <= 100.0
  {
    var f := (x * 10.0 + 0.5).Floor;
    assert f as real <= x * 10.0 + 0.5 < f as real + 1.0;
    assert x <= 100.0 ==> f < 1001;
    assert 0.0 <= x ==> f > -1;
  }

  /** The share in percent, to the nearest tenth, halves up; 0 when there is nothing to share. */
  predicate IsTenths(tenths: int, load: real, total: real) {
    if total == 0.0 then tenths == 0
    else (tenths as real - 0.5) * total <= 1000.0 * load < (tenths as real + 0.5) * total
  }

  predicate IsShare(pct: real, load: nat, total: nat) {
    var tenths := (pct * 10.0).Floor;
    pct * 10.0 == tenths as real && IsTenths(tenths, load as real, total as real)
  }

  lemma ScaledUp(x: real, lo: real, hi: real, t: real)
    requires t > 0.0 && lo <= x < hi
    ensures lo * t <= x * t < hi * t
  {
    Distribute(x, lo, t);
    Distribute(hi, x, t);
    Product(hi - x, t);
    if lo < x {
      Product(x - lo, t);
    }
  }

  lemma TenfoldPercent(l: real, t: real)
    requires t > 0.0
    ensures Percent(l, t) * 10.0 * t == 1000.0 * l
  {
    var q := l / t;
    assert q * t == l;
    assert q * 100.0 * 10.0 * t == 1000.0 * (q * t);
  }

  lemma NearestTenth(x: real, tenths: int, load: real, total: real)
    requires total > 0.0 && x * total == 1000.0 * load && tenths as real - 0.5 <= x < tenths as real + 0.5
    ensures IsTenths(tenths, load, total)
  {
    var lo, hi := tenths as real - 0.5, tenths as real + 0.5;
    ScaledUp(x, lo, hi, total);
    assert lo * total <= 1000.0 * load;
    assert 1000.0 * load < hi * total;
  }

  /** A member's share is that load in percent of the total, to one decimal. */
  lemma ShareIsRounded(load: nat, total: nat)
    requires load <= total
    ensures IsShare(SharePct(load, total), load, total)
  {
    if total == 0 {
      assert (0.0 * 10.0 + 0.5).Floor == 0;
      assert SharePct(load, total) * 10.0 == 0 as real && IsTenths(0, load as real, total as real);
    } else {
      var l, t := load as real, total as real;
      var x := Percent(l, t);
      var tenths := (x * 10.0 + 0.5).Floor;
      PercentBounds(l, t);
      TenfoldPercent(l, t);
      NearestTenth(x * 10.0, tenths, l, t);
      assert SharePct(load, total) * 10.0 == tenths as real;
    }
  }

  function SumPct(s: seq<Equity>): real {
    if s == [] then 0.0 else s[0].sharePct + SumPct(s[1..])
  }

  lemma {:induction false} SumPctInsert(x: Equity, s: seq<Equity>)
    ensures SumPct(Insert(ByShare, x, s)) == x.sharePct + SumPct(s)
  {
    var r := Insert(ByShare, x, s);
    if s != [] && !ByShare(x, s[0]) {
      SumPctInsert(x, s[1..]);
      assert r[1..] == Insert(ByShare, x, s[1..]);
    } else {
      assert r[1..] == s;
    }
  }

  lemma {:induction false} SumPctSort(s: seq<Equity>)
    ensures SumPct(Sort(ByShare, s)) == SumPct(s)
  {
    if s != [] {
      SumPctSort(s[1..]);
      SumPctInsert(s[0], Sort(ByShare, s[1..]));
    }
  }

  lemma {:induction false} SumPctSnoc(s: seq<Equity>, x: Equity)
    ensures SumPct(s + [x]) == SumPct(s) + x.sharePct
  {
    if s == [] {
      assert [] + [x] == [x] && [x][1..] == [];
    } else {
      SumPctSnoc(s[1..], x);
      assert (s + [x])[1..] == s[1..] + [x];
    }
  }

  /** The sum over the members of a share of their load. */
  function SumOf(share: nat -> real, load: Id -> nat, members: seq<Member>): real {
    if members == [] then 0.0
    else SumOf(share, load, members[..|members| - 1]) + share(load(members[|members| - 1].id))
  }

  lemma {:induction false} SumPctIsSumOf(share: nat -> real, load: Id -> nat, members: seq<Member>)
    ensures SumPct(Collect(EntryFor(load, share), members)) == SumOf(share, load, members)
  {
    if members != [] {
      var n := |members| - 1;
      SumPctIsSumOf(share, load, members[..n]);
      SumPctSnoc(Collect(EntryFor(load, share), members[..n]), EntryFor(load, share)(members[n]).value);
    }
  }

  lemma {:induction false} RoundingErrors(exact: nat -> real, rounded: nat -> real, load: Id -> nat,
      members: seq<Member>)
    requires forall m :: m in members ==> -0.05 <= rounded(load(m.id)) - exact(load(m.id)) <= 0.05
    ensures var error := SumOf(rounded, load, members) - SumOf(exact, load, members);
      -0.05 * |members| as real <= error <= 0.05 * |members| as real
  {
    if members != [] {
      var n := |members| - 1;
      assert forall m :: m in members[..n] ==> m in members;
      assert members[n] in members;
      RoundingErrors(exact, rounded, load, members[..n]);
    }
  }

  ghost predicate AdditiveAt(f: nat -> real, a: nat, b: nat) {
    f(a + b) == f(a) + f(b)
  }

  lemma {:induction false} ExactSum(exact: nat -> real, load: Id -> nat, members: seq<Member>)
    requires exact(0) == 0.0 && forall a: nat, b: nat :: AdditiveAt(exact, a, b)
    ensures SumOf(exact, load, members) == exact(SumLoads(load, members))
  {
    if members != [] {
      var n := |members| - 1;
      ExactSum(exact, load, members[..n]);
      assert AdditiveAt(exact, SumLoads(load, members[..n]), load(members[n].id));
    }
  }

  /** Before clamping and rounding. */
  function ExactShare(total: nat): nat -> real {
    (load: nat) => if total == 0 then 0.0 else Percent(load as real, total as real)
  }

  lemma ExactAdditive(total: nat)
    requires total > 0
    ensures forall a: nat, b: nat :: AdditiveAt(ExactShare(total), a, b)
  {
    forall a: nat, b: nat ensures AdditiveAt(ExactShare(total), a, b) {
      PercentAdditive(a as real, b as real, total as real);
    }
  }

  lemma ExactEnds(total: nat)
    requires total > 0
    ensures ExactShare(total)(0) == 0.0 && ExactShare(total)(total) == 100.0
  {
  }

  lemma ExactIsHundred(total: nat, load: Id -> nat, members: seq<Member>)
    requires total > 0 && SumLoads(load, members) == total
    ensures SumOf(ExactShare(total), load, members) == 100.0
  {
    ExactAdditive(total);
    ExactEnds(total);
    ExactSum(ExactShare(total), load, members);
  }

  lemma SharesRound(members: seq<Member>, load: Id -> nat, total: nat)
    requires total > 0 && forall m :: m in members ==> load(m.id) <= total
    ensures forall m :: m in members ==> -0.05 <= Share(total)(load(m.id)) - ExactShare(total)(load(m.id)) <= 0.05
  {
    forall m | m in members
      ensures -0.05 <= Share(total)(load(m.id)) - ExactShare(total)(load(m.id)) <= 0.05
    {
      PercentBounds(load(m.id) as real, total as real);
      Round1Error(Percent(load(m.id) as real, total as real));
    }
  }

  /** For a non-zero total the rounded shares of n members with distinct ids sum to within 0.05 * n of 100. */
  lemma SharesSumNearHundred(members: seq<Member>, chores: seq<Chore>, categories: set<Category>)
    requires DistinctIds(members) && Total(chores, categories, Ids(members)) != 0
    ensures var error := SumPct(Ranking(members, chores, categories)) - 100.0;
      -0.05 * |members| as real <= error <= 0.05 * |members| as real
  {
    var ids := Ids(members);
    var total := Total(chores, categories, ids);
    var load := Loads(chores, categories, ids);
    forall m | m in members ensures load(m.id) <= total {
      LoadWithinTotal(chores, categories, ids, m.id);
    }
    LoadsSumToTotal(members, chores, categories);
    SharesRound(members, load, total);
    ExactIsHundred(total, load, members);
    RoundingErrors(ExactShare(total), Share(total), load, members);
    SumPctIsSumOf(Share(total), load, members);
    SumPctSort(Entries(members, chores, categories));
  }

  // ---------- the ranking ----------

  lemma Round1Monotone(x: real, y: real)
    requires x <= y
    ensures Round1(x) <= Round1(y)
  {
    var a, b := x * 10.0 + 0.5, y * 10.0 + 0.5;
    assert a.Floor as real <= a && b < b.Floor as real + 1.0;
    assert a.Floor <= b.Floor;
  }

  lemma ShareMonotone(load: nat, load': nat, total: nat)
    requires load <= load' <= total
    ensures SharePct(load, total) <= SharePct(load', total)
  {
    if total > 0 {
      PercentBounds(load as real, total as real);
      PercentBounds(load' as real, total as real);
      PercentMonotone(load as real, load' as real, total as real);
      Round1Monotone(Percent(load as real, total as real), Percent(load' as real, total as real));
    }
  }

  lemma {:induction false} OneEntryEach(load: Id -> nat, share: nat -> real, members: seq<Member>)
    ensures var s := Collect(EntryFor(load, share), members);
      |s| == |members| && forall i :: 0 <= i < |s| ==> s[i] == EntryFor(load, share)(members[i]).value
  {
    if members != [] {
      OneEntryEach(load, share, members[..|members| - 1]);
    }
  }

  predicate EntrySound(e: Equity, total: nat) {
    e.taskLoad <= total && e.sharePct == SharePct(e.taskLoad, total) && 0.0 <= e.sharePct <= 100.0
  }

  lemma EntryIsSound(id: Id, load: nat, total: nat)
    requires load <= total
    ensures EntrySound(Equity(id, SharePct(load, total), load), total)
  {
    if total > 0 {
      PercentBounds(load as real, total as real);
      Round1Error(Percent(load as real, total as real));
    }
  }

  lemma EntriesAreSound(members: seq<Member>, chores: seq<Chore>, categories: set<Category>)
    ensures |Entries(members, chores, categories)| == |members|
    ensures forall e :: e in Entries(members, chores, categories) ==>
      EntrySound(e, Total(chores, categories, Ids(members)))
  {
    var ids := Ids(members);
    var load := Loads(chores, categories, ids);
    var total := Total(chores, categories, ids);
    OneEntryEach(load, Share(total), members);
    var s := Entries(members, chores, categories);
    forall i | 0 <= i < |s| ensures EntrySound(s[i], total) {
      LoadWithinTotal(chores, categories, ids, members[i].id);
      EntryIsSound(members[i].id, load(members[i].id), total);
    }
  }

  lemma SmallerLoadBehind(a: Equity, b: Equity, total: nat)
    requires EntrySound(a, total) && EntrySound(b, total) && ByShare(a, b) && a.memberId > b.memberId
    ensures a.taskLoad >= b.taskLoad
  {
    if a.taskLoad < b.taskLoad {
      ShareMonotone(a.taskLoad, b.taskLoad, total);
    }
  }

  /** The entry of a member: the id, its load, and its share of the total. */
  ghost predicate IsEntryOf(e: Equity, id: Id, members: seq<Member>, chores: seq<Chore>, categories: set<Category>) {
    && e.memberId == id && e.taskLoad == Load(chores, categories, Ids(members), id)
    && IsShare(e.sharePct, e.taskLoad, Total(chores, categories, Ids(members)))
  }

  /** The larger share, or the same share and no larger an id; then also at least the load, unless the id is smaller. */
  predicate MayRankAhead(a: Equity, b: Equity) {
    && (a.sharePct > b.sharePct || (a.sharePct == b.sharePct && a.memberId <= b.memberId))
    && (a.memberId > b.memberId ==> a.taskLoad >= b.taskLoad)
  }

  predicate InRankOrder(r: seq<Equity>) {
    forall i, j :: 0 <= i < j < |r| ==> MayRankAhead(r[i], r[j])
  }

  lemma SharePreorder()
    ensures TotalPreorder(ByShare)
  {
  }

  lemma RankedByLoad(s: seq<Equity>, total: nat)
    requires forall e :: e in s ==> EntrySound(e, total)
    ensures var r := Sort(ByShare, s);
      InRankOrder(r)
  {
    var r := Sort(ByShare, s);
    SharePreorder();
    SortOrdered(ByShare, s);
    SortMembers(ByShare, s);
    forall i, j | 0 <= i < j < |r| ensures MayRankAhead(r[i], r[j]) {
      assert r[i] in r && r[j] in r && ByShare(r[i], r[j]);
      if r[i].memberId > r[j].memberId {
        SmallerLoadBehind(r[i], r[j], total);
      }
    }
  }

  /**
   * The ranking is a rearrangement of one entry per member, with the member's id, load and rounded share, in order of
   * share then id; shares lie between 0 and 100, and a member ranks ahead of one with a smaller id only if the load is
   * at least as large.
   */
  lemma RankingIsByLoad(members: seq<Member>, chores: seq<Chore>, categories: set<Category>)
    ensures var r, s := Ranking(members, chores, categories), Entries(members, chores, categories);
      && multiset(r) == multiset(s) && |s| == |members|
      && (forall i :: 0 <= i < |s| ==> IsEntryOf(s[i], members[i].id, members, chores, categories))
      && InRankOrder(r)
      && (forall e :: e in r ==> 0.0 <= e.sharePct <= 100.0)
  {
    var total := Total(chores, categories, Ids(members));
    var s := Entries(members, chores, categories);
    EntriesAreSound(members, chores, categories);
    OneEntryEach(Loads(chores, categories, Ids(members)), Share(total), members);
    SortMembers(ByShare, s);
    RankedByLoad(s, total);
    forall i | 0 <= i < |s| ensures IsEntryOf(s[i], members[i].id, members, chores, categories) {
      LoadWithinTotal(chores, categories, Ids(members), members[i].id);
      ShareIsRounded(Load(chores, categories, Ids(members), members[i].id), total);
    }
  }

  // ---------- order of the input ----------

  lemma {:induction false} SumPermuted(s: seq<nat>, t: seq<nat>)
    requires multiset(s) == multiset(t)
    ensures Sum(s) == Sum(t)
  {
    assert |multiset(s)| == |s| && |multiset(t)| == |t|;
    if s != [] {
      var n := |s| - 1;
      assert s == s[..n] + [s[n]];
      assert multiset(s[..n]) == multiset(s) - multiset{s[n]};
      var k := TakeOut(t, s[n]);
      SumPermuted(s[..n], t[..k] + t[k + 1..]);
      SumRemoved(t, k);
    }
  }

  lemma {:induction false} SumRemoved(t: seq<nat>, k: nat)
    requires k < |t|
    ensures Sum(t) == Sum(t[..k] + t[k + 1..]) + t[k]
  {
    var n := |t| - 1;
    if k == n {
      assert t[..k] + t[k + 1..] == t[..n];
    } else {
      SumRemoved(t[..n], k);
      var rest := t[..k] + t[k + 1..];
      assert rest[..n - 1] == t[..n][..k] + t[..n][k + 1..];
      assert rest[n - 1] == t[n];
    }
  }

  lemma LoadPermuted(s: seq<Chore>, t: seq<Chore>, categories: set<Category>, ids: set<Id>, id: Id)
    requires multiset(s) == multiset(t)
    ensures Load(s, categories, ids, id) == Load(t, categories, ids, id)
    ensures Total(s, categories, ids) == Total(t, categories, ids)
  {
    CollectPermuted(WeighedFor(categories, ids, id), s, t);
    CollectPermuted(Weighed(categories, ids), s, t);
    SumPermuted(Collect(WeighedFor(categories, ids, id), s), Collect(WeighedFor(categories, ids, id), t));
    SumPermuted(Collect(Weighed(categories, ids), s), Collect(Weighed(categories, ids), t));
  }

  lemma {:induction false} SameEntries(f: Id -> nat, g: Id -> nat, share: nat -> real, members: seq<Member>)
    requires forall id :: f(id) == g(id)
    ensures Collect(EntryFor(f, share), members) == Collect(EntryFor(g, share), members)
  {
    if members != [] {
      SameEntries(f, g, share, members[..|members| - 1]);
    }
  }

  lemma EntriesDiffer(members: seq<Member>, load: Id -> nat, share: nat -> real)
    requires DistinctIds(members)
    ensures Antisymmetric(ByShare, Collect(EntryFor(load, share), members))
  {
    OneEntryEach(load, share, members);
    var s := Collect(EntryFor(load, share), members);
    forall x, y | x in s && y in s && ByShare(x, y) && ByShare(y, x) ensures x == y {
      var i :| 0 <= i < |s| && s[i] == x;
      var j :| 0 <= j < |s| && s[j] == y;
      assert members[i].id == members[j].id;
    }
  }

  /** With distinct ids the ranking does not depend on the order of the members or of the chores. */
  lemma RankingIgnoresOrder(members: seq<Member>, members': seq<Member>, chores: seq<Chore>, chores': seq<Chore>,
      categories: set<Category>)
    requires DistinctIds(members) && multiset(members) == multiset(members') && multiset(chores) == multiset(chores')
    ensures Ranking(members, chores, categories) == Ranking(members', chores', categories)
  {
    forall m ensures m in members <==> m in members' {
      assert m in multiset(members) <==> m in multiset(members');
    }
    assert Ids(members) == Ids(members');
    var ids := Ids(members);
    var f, g := Loads(chores, categories, ids), Loads(chores', categories, ids);
    forall id ensures f(id) == g(id) {
      LoadPermuted(chores, chores', categories, ids, id);
    }
    LoadPermuted(chores, chores', categories, ids, 0);
    var share := Share(Total(chores, categories, ids));
    SameEntries(f, g, share, members');
    CollectPermuted(EntryFor(f, share), members, members');
    EntriesDiffer(members, f, share);
    SortPermuted(ByShare, Collect(EntryFor(f, share), members), Collect(EntryFor(f, share), members'));
  }
}
