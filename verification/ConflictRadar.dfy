/** The Conflict Radar: sole drivers, double bookings and tight transitions. */
module ConflictRadar {
  import opened Base
  import opened Household
  import opened Sequences

  datatype Commitment = Commitment(
    taskId: Option<Id>,
    memberId: Id,
    requiresDriver: bool,
    startsAt: Instant,
    endsAt: Instant)

  datatype Severity = Low | Medium | High

  datatype ConflictKind = SoleDriver | RippleShift | BufferSqueeze

  /** A conflict; `about` is the member its description names. */
  datatype Conflict = Conflict(
    kind: ConflictKind,
    severity: Severity,
    about: Id,
    windowStart: Instant,
    windowEnd: Instant,
    relatedTask: Option<Id>)

  function Driver(): Member -> Option<Member> {
    (m: Member) => if m.active && m.drives && m.role != Dependent then Some(m) else None
  }

  function NeedsDriver(): Commitment -> Option<Commitment> {
    (c: Commitment) => if c.requiresDriver then Some(c) else None
  }

  function SoleDriverConflict(sole: Member): Commitment -> Option<Conflict> {
    (c: Commitment) => Some(Conflict(SoleDriver, Severity.High, sole.id, c.startsAt, c.endsAt, c.taskId))
  }

  function SoleDriverConflicts(commitments: seq<Commitment>, members: seq<Member>): seq<Conflict> {
    var drivers := Collect(Driver(), members);
    if |drivers| == 1 then Collect(SoleDriverConflict(drivers[0]), Collect(NeedsDriver(), commitments)) else []
  }

  // ---------- grouping by member ----------

  function Of(member: Id): Commitment -> Option<Commitment> {
    (c: Commitment) => if c.memberId == member then Some(c) else None
  }

  /** Member ids in the order in which they first appear: the key order of the map that groups commitments. */
  function Keys(commitments: seq<Commitment>): seq<Id> {
    if commitments == [] then []
    else
      var n := |commitments| - 1;
      var before := Keys(commitments[..n]);
      if commitments[n].memberId in before then before else before + [commitments[n].memberId]
  }

  predicate ByStart(a: Commitment, b: Commitment) {
    a.startsAt <= b.startsAt
  }

  function Schedule(commitments: seq<Commitment>, member: Id): seq<Commitment> {
    Sort(ByStart, Collect(Of(member), commitments))
  }

  // ---------- the neighbour scan ----------

  /** Two neighbours in start order: an overlap, a gap shorter than the threshold, or nothing. */
  function Between(a: Commitment, b: Commitment, threshold: int): seq<Conflict> {
    if b.startsAt < a.endsAt then
      [Conflict(RippleShift, Severity.High, a.memberId, b.startsAt, a.endsAt, b.taskId)]
    else
      var slack := DiffMinutes(b.startsAt, a.endsAt);
      if slack < threshold then
        var severity := if slack <= 5 then Medium else Severity.Low;
        [Conflict(BufferSqueeze, severity, a.memberId, a.endsAt, b.startsAt, b.taskId)]
      else []
  }

  function Scan(sorted: seq<Commitment>, threshold: int): seq<Conflict> {
    if |sorted| < 2 then []
    else
      var n := |sorted| - 1;
      Scan(sorted[..n], threshold) + Between(sorted[n - 1], sorted[n], threshold)
  }

  /** What one member's commitments give. */
  function ScanOf(commitments: seq<Commitment>, threshold: int): Id -> seq<Conflict> {
    (member: Id) => Scan(Schedule(commitments, member), threshold)
  }

  function Rank(s: Severity): nat {
    match s
    case High => 3
    case Medium => 2
    case Low => 1
  }

  /** Severity descending, then window start. */
  predicate ByUrgency(a: Conflict, b: Conflict) {
    Rank(a.severity) > Rank(b.severity) || (a.severity == b.severity && a.windowStart <= b.windowStart)
  }

  function Conflicts(commitments: seq<Commitment>, members: seq<Member>, threshold: int): seq<Conflict> {
    Sort(ByUrgency,
      SoleDriverConflicts(commitments, members) + Flatten(ScanOf(commitments, threshold), Keys(commitments)))
  }

  // ---------- detectConflicts ----------

  /** The map holds each member's commitments read so far, under the keys in order of first appearance. */
  ghost predicate Groups(keys: seq<Id>, groups: map<Id, seq<Commitment>>, commitments: seq<Commitment>) {
    && keys == Keys(commitments)
    && (forall k :: k in groups <==> k in keys)
    && (forall k :: Collect(Of(k), commitments) == if k in groups then groups[k] else [])
  }

  lemma GroupsStep(s: seq<Commitment>, c: Commitment, k: Id)
    ensures Keys(s + [c]) == if c.memberId in Keys(s) then Keys(s) else Keys(s) + [c.memberId]
    ensures Collect(Of(k), s + [c]) == Collect(Of(k), s) + if c.memberId == k then [c] else []
  {
    assert (s + [c])[..|s|] == s;
  }

  method AddToGroup(keys: seq<Id>, groups: map<Id, seq<Commitment>>, c: Commitment, ghost s: seq<Commitment>)
    returns (keys': seq<Id>, groups': map<Id, seq<Commitment>>)
    requires Groups(keys, groups, s)
    ensures Groups(keys', groups', s + [c])
  {
    var list := if c.memberId in groups then groups[c.memberId] else [];
    keys' := if c.memberId in groups then keys else keys + [c.memberId];
    groups' := groups[c.memberId := list + [c]];
    GroupsStep(s, c, 0);
    forall k ensures Collect(Of(k), s + [c]) == if k in groups' then groups'[k] else [] {
      GroupsStep(s, c, k);
    }
  }

  method GroupByMember(commitments: seq<Commitment>) returns (keys: seq<Id>, groups: map<Id, seq<Commitment>>)
    ensures Groups(keys, groups, commitments)
  {
    keys, groups := [], map[];
    for i := 0 to |commitments|
      invariant Groups(keys, groups, commitments[..i])
    {
      assert commitments[..i + 1] == commitments[..i] + [commitments[i]];
      keys, groups := AddToGroup(keys, groups, commitments[i], commitments[..i]);
    }
    assert commitments[..|commitments|] == commitments;
  }

  method ScanMember(sorted: seq<Commitment>, threshold: int, before: seq<Conflict>) returns (out: seq<Conflict>)
    ensures out == before + Scan(sorted, threshold)
  {
    out := before;
    var i := 0;
    while i < |sorted| - 1
      invariant 0 <= i <= |sorted|
      invariant i == 0 || i <= |sorted| - 1
      invariant out == before + Scan(sorted[..if i == 0 then 0 else i + 1], threshold)
    {
      var a, b := sorted[i], sorted[i + 1];
      assert sorted[..i + 2][..i + 1] == sorted[..i + 1];
      Assoc(before, Scan(sorted[..i + 1], threshold), Between(a, b, threshold));
      if b.startsAt < a.endsAt {
        out := out + [Conflict(RippleShift, Severity.High, a.memberId, b.startsAt, a.endsAt, b.taskId)];
      } else {
        var slack := DiffMinutes(b.startsAt, a.endsAt);
        if slack < threshold {
          var severity := if slack <= 5 then Medium else Severity.Low;
          out := out + [Conflict(BufferSqueeze, severity, a.memberId, a.endsAt, b.startsAt, b.taskId)];
        }
      }
      i := i + 1;
    }
    assert i > 0 ==> sorted[..i + 1] == sorted;
  }

  method ReportSoleDriver(commitments: seq<Commitment>, members: seq<Member>) returns (out: seq<Conflict>)
    ensures out == SoleDriverConflicts(commitments, members)
  {
    var drivers := Collect(Driver(), members);
    var driving := Collect(NeedsDriver(), commitments);
    out := [];
    if driving != [] && |drivers| == 1 {
      for i := 0 to |driving|
        invariant out == Collect(SoleDriverConflict(drivers[0]), driving[..i])
      {
        CollectStep(SoleDriverConflict(drivers[0]), driving, i);
        var c := driving[i];
        out := out + [Conflict(SoleDriver, Severity.High, drivers[0].id, c.startsAt, c.endsAt, c.taskId)];
      }
      assert driving[..|driving|] == driving;
    }
  }

  method ScanGroups(keys: seq<Id>, groups: map<Id, seq<Commitment>>, ghost scanOf: Id -> seq<Conflict>,
      threshold: int, before: seq<Conflict>)
    returns (out: seq<Conflict>)
    requires forall k :: k in keys ==> k in groups && scanOf(k) == Scan(Sort(ByStart, groups[k]), threshold)
    ensures out == before + Flatten(scanOf, keys)
  {
    out := before;
    for i := 0 to |keys|
      invariant out == before + Flatten(scanOf, keys[..i])
    {
      assert keys[..i + 1][..i] == keys[..i] && keys[i] in keys;
      Assoc(before, Flatten(scanOf, keys[..i]), scanOf(keys[i]));
      out := ScanMember(Sort(ByStart, groups[keys[i]]), threshold, out);
    }
    assert keys[..|keys|] == keys;
  }

  method DetectConflicts(commitments: seq<Commitment>, members: seq<Member>, threshold: int)
    returns (out: seq<Conflict>)
    ensures out == Conflicts(commitments, members, threshold)
  {
    out := ReportSoleDriver(commitments, members);
    var keys, groups := GroupByMember(commitments);
    out := ScanGroups(keys, groups, ScanOf(commitments, threshold), threshold, out);
    out := Sort(ByUrgency, out);
  }

  // ---------- the neighbour scan decides the all-pairs question ----------

  /** `b` starts at least the threshold after `a` has ended. */
  predicate Clear(a: Commitment, b: Commitment, threshold: int) {
    a.endsAt + threshold * 60_000 <= b.startsAt && a.endsAt <= b.startsAt
  }

  predicate Apart(a: Commitment, b: Commitment, threshold: int) {
    Clear(a, b, threshold) || Clear(b, a, threshold)
  }

  predicate Overlap(a: Commitment, b: Commitment) {
    a.startsAt < b.endsAt && b.startsAt < a.endsAt
  }

  lemma BetweenSilent(a: Commitment, b: Commitment, threshold: int)
    ensures Between(a, b, threshold) == [] <==> Clear(a, b, threshold)
  {
    var d := b.startsAt - a.endsAt;
    assert d == MINUTE * (d / MINUTE) + d % MINUTE;
    assert d / MINUTE < threshold <==> d < threshold * 60_000;
  }

  lemma StartOrder(commitments: seq<Commitment>, member: Id)
    ensures var s := Schedule(commitments, member);
      && Ordered(ByStart, s)
      && multiset(s) == multiset(Collect(Of(member), commitments))
      && forall c :: c in s <==> c in commitments && c.memberId == member
  {
    var mine := Collect(Of(member), commitments);
    SortOrdered(ByStart, mine);
    SortMembers(ByStart, mine);
    forall c ensures c in mine <==> c in commitments && c.memberId == member {
      CollectMembers(Of(member), commitments, c);
      if c in commitments && c.memberId == member {
        var i :| 0 <= i < |commitments| && commitments[i] == c;
        assert Of(member)(commitments[i]) == Some(c);
      }
    }
  }

  /** Every earlier commitment is clear of every later one. */
  ghost predicate AllClear(s: seq<Commitment>, threshold: int) {
    forall i, j :: 0 <= i < j < |s| ==> Clear(s[i], s[j], threshold)
  }

  lemma AllClearSnoc(s: seq<Commitment>, n: nat, threshold: int)
    requires Ordered(ByStart, s) && |s| == n + 1 && n >= 1
    ensures AllClear(s, threshold) <==> AllClear(s[..n], threshold) && Clear(s[n - 1], s[n], threshold)
  {
    assert forall i :: 0 <= i < n ==> s[..n][i] == s[i];
    if AllClear(s[..n], threshold) && Clear(s[n - 1], s[n], threshold) {
      forall i, j | 0 <= i < j < |s| ensures Clear(s[i], s[j], threshold) {
        if j < n {
          assert Clear(s[..n][i], s[..n][j], threshold);
        } else if i < n - 1 {
          assert Clear(s[..n][i], s[..n][n - 1], threshold);
          assert ByStart(s[n - 1], s[n]);
        }
      }
    }
    if AllClear(s, threshold) {
      forall i, j | 0 <= i < j < n ensures Clear(s[..n][i], s[..n][j], threshold) {
        assert Clear(s[i], s[j], threshold);
      }
    }
  }

  /**
   * For any starts and ends: neighbours are clear of each other iff every earlier commitment is clear of every
   * later one.
   */
  lemma {:induction false} SilentIffAllClear(s: seq<Commitment>, threshold: int)
    requires Ordered(ByStart, s)
    ensures Scan(s, threshold) == [] <==> AllClear(s, threshold)
  {
    if |s| >= 2 {
      var n := |s| - 1;
      SilentIffAllClear(s[..n], threshold);
      BetweenSilent(s[n - 1], s[n], threshold);
      AllClearSnoc(s, n, threshold);
    }
  }

  function ApartBy(threshold: int): (Commitment, Commitment) -> bool {
    (a: Commitment, b: Commitment) => Apart(a, b, threshold)
  }

  /** Every two of the commitments are apart. */
  ghost predicate AllApart(s: seq<Commitment>, threshold: int) {
    Pairwise(ApartBy(threshold), s)
  }

  lemma AllApartPermuted(s: seq<Commitment>, t: seq<Commitment>, threshold: int)
    requires multiset(s) == multiset(t)
    ensures AllApart(s, threshold) <==> AllApart(t, threshold)
  {
    PairwisePermuted(ApartBy(threshold), s, t);
  }

  /**
   * The one shape in which a pair is apart but the scan objects to one of its two orders: a zero-length commitment
   * at the start of a longer one, with no threshold to keep.
   */
  predicate Awkward(longer: Commitment, point: Commitment, threshold: int) {
    threshold <= 0 && longer.startsAt < longer.endsAt && point.startsAt == point.endsAt == longer.startsAt
  }

  /** An awkward pair whose longer commitment comes first. */
  ghost predicate AwkwardInOrder(s: seq<Commitment>, threshold: int) {
    exists longer, point :: Awkward(longer, point, threshold) && InOrder(s, longer, point)
  }

  lemma ClearOrApart(a: Commitment, b: Commitment, threshold: int)
    requires a.startsAt <= a.endsAt && b.startsAt <= b.endsAt && a.startsAt <= b.startsAt
    ensures Clear(a, b, threshold) <==> Apart(a, b, threshold) && !Awkward(a, b, threshold)
  {
  }

  /** In start order, all are clear iff all are apart and no awkward pair has its longer commitment first. */
  lemma ClearIffApart(s: seq<Commitment>, threshold: int)
    requires Ordered(ByStart, s) && forall c :: c in s ==> c.startsAt <= c.endsAt
    ensures AllClear(s, threshold) <==> AllApart(s, threshold) && !AwkwardInOrder(s, threshold)
  {
    forall i, j | 0 <= i < j < |s|
      ensures Clear(s[i], s[j], threshold) <==> ApartBy(threshold)(s[i], s[j]) && !Awkward(s[i], s[j], threshold)
    {
      assert s[i] in s && s[j] in s && ByStart(s[i], s[j]);
      ClearOrApart(s[i], s[j], threshold);
    }
    if AllClear(s, threshold) {
      forall longer, point | InOrder(s, longer, point) ensures !Awkward(longer, point, threshold) {
        InOrderAt(s, longer, point);
        var i, j :| 0 <= i < j < |s| && s[i] == longer && s[j] == point;
        assert Clear(s[i], s[j], threshold);
      }
    } else {
      var i, j :| 0 <= i < j < |s| && !Clear(s[i], s[j], threshold);
      InOrderAt(s, s[i], s[j]);
    }
  }

  lemma AwkwardSorted(s: seq<Commitment>, threshold: int)
    ensures AwkwardInOrder(Sort(ByStart, s), threshold) <==> AwkwardInOrder(s, threshold)
  {
    forall longer, point | Awkward(longer, point, threshold)
      ensures InOrder(Sort(ByStart, s), longer, point) <==> InOrder(s, longer, point)
    {
      SortKeepsOrder(ByStart, s, longer, point);
    }
  }

  /** The member's commitments end no earlier than they start. */
  predicate Forward(commitments: seq<Commitment>, member: Id) {
    forall c :: c in commitments && c.memberId == member ==> c.startsAt <= c.endsAt
  }

  predicate Silent(commitments: seq<Commitment>, member: Id, threshold: int) {
    Scan(Schedule(commitments, member), threshold) == []
  }

  /**
   * Although it looks at neighbours only, the radar is silent about a member iff every two of that member's
   * commitments are apart and no awkward pair has its longer commitment first in the input.
   */
  lemma SilentIffAllApart(commitments: seq<Commitment>, member: Id, threshold: int)
    requires Forward(commitments, member)
    ensures var mine := Collect(Of(member), commitments);
      Silent(commitments, member, threshold) <==> AllApart(mine, threshold) && !AwkwardInOrder(mine, threshold)
  {
    var s := Schedule(commitments, member);
    StartOrder(commitments, member);
    SilentIffAllClear(s, threshold);
    ClearIffApart(s, threshold);
    AllApartPermuted(s, Collect(Of(member), commitments), threshold);
    AwkwardSorted(Collect(Of(member), commitments), threshold);
  }

  /** With positive lengths, or with a positive threshold, being apart is all that counts. */
  lemma SilentIffAllApartPlain(commitments: seq<Commitment>, member: Id, threshold: int)
    requires Forward(commitments, member)
    requires threshold > 0 || forall c :: c in commitments && c.memberId == member ==> c.startsAt < c.endsAt
    ensures Silent(commitments, member, threshold) <==> AllApart(Collect(Of(member), commitments), threshold)
  {
    var mine := Collect(Of(member), commitments);
    SilentIffAllApart(commitments, member, threshold);
    StartOrder(commitments, member);
    SortMembers(ByStart, mine);
    forall longer, point | InOrder(mine, longer, point) ensures !Awkward(longer, point, threshold) {
      InOrderAt(mine, longer, point);
      assert point in mine;
    }
  }

  predicate HasRipple(conflicts: seq<Conflict>) {
    exists x :: x in conflicts && x.kind == RippleShift
  }

  lemma {:induction false} RippleIffNeighboursOverlap(s: seq<Commitment>, threshold: int)
    ensures HasRipple(Scan(s, threshold)) <==> exists k :: 0 <= k < |s| - 1 && s[k + 1].startsAt < s[k].endsAt
  {
    if |s| >= 2 {
      var n := |s| - 1;
      RippleIffNeighboursOverlap(s[..n], threshold);
      var last := Between(s[n - 1], s[n], threshold);
      assert HasRipple(Scan(s, threshold)) <==> HasRipple(Scan(s[..n], threshold)) || HasRipple(last);
      assert HasRipple(last) <==> s[n].startsAt < s[n - 1].endsAt by {
        assert s[n].startsAt < s[n - 1].endsAt ==> last[0] in last;
      }
      assert forall k :: 0 <= k < n ==> s[..n][k] == s[k];
    }
  }

  /** In start order, for any lengths: neighbours overlap iff some commitment starts before an earlier one has ended. */
  lemma RippleInOrder(s: seq<Commitment>, threshold: int)
    requires Ordered(ByStart, s)
    ensures HasRipple(Scan(s, threshold)) <==> exists i, j :: 0 <= i < j < |s| && s[j].startsAt < s[i].endsAt
  {
    RippleIffNeighboursOverlap(s, threshold);
    if i, j :| 0 <= i < j < |s| && s[j].startsAt < s[i].endsAt {
      assert i + 1 == j || ByStart(s[i + 1], s[j]);
      assert s[i + 1].startsAt < s[i].endsAt;
    }
    if k :| 0 <= k < |s| - 1 && s[k + 1].startsAt < s[k].endsAt {
      assert s[k + 1].startsAt < s[k].endsAt;
    }
  }

  /** What a conflict says about two neighbours, in milliseconds. */
  predicate Reports(x: Conflict, a: Commitment, b: Commitment, threshold: int) {
    var gap := b.startsAt - a.endsAt;
    && x.about == a.memberId && x.relatedTask == b.taskId
    && match x.kind
       case SoleDriver => false
       case RippleShift =>
         gap < 0 && x.windowStart == b.startsAt && x.windowEnd == a.endsAt && x.severity == Severity.High
       case BufferSqueeze =>
         && 0 <= gap < threshold * 60_000 && x.windowStart == a.endsAt && x.windowEnd == b.startsAt
         && x.severity == if gap < 360_000 then Medium else Severity.Low
  }

  lemma BetweenReports(a: Commitment, b: Commitment, threshold: int, x: Conflict)
    ensures x in Between(a, b, threshold) <==> Reports(x, a, b, threshold)
  {
    var d := b.startsAt - a.endsAt;
    assert d == MINUTE * (d / MINUTE) + d % MINUTE;
    assert d / MINUTE < threshold <==> d < threshold * 60_000;
    assert d / MINUTE <= 5 <==> d < 360_000;
  }

  /** A scan reports exactly what is wrong between neighbours. */
  lemma {:induction false} ScanReports(s: seq<Commitment>, threshold: int, x: Conflict)
    ensures x in Scan(s, threshold) <==> exists k :: 0 <= k < |s| - 1 && Reports(x, s[k], s[k + 1], threshold)
  {
    if |s| >= 2 {
      var n := |s| - 1;
      ScanReports(s[..n], threshold, x);
      BetweenReports(s[n - 1], s[n], threshold, x);
      assert forall k :: 0 <= k < n ==> s[..n][k] == s[k];
      if x in Between(s[n - 1], s[n], threshold) {
        assert Reports(x, s[n - 1], s[n - 1 + 1], threshold);
      }
    }
  }

  /** Not every bad pair is named: an overlap with a commitment that is no neighbour goes unmentioned. */
  lemma NestedPairUnnamed(a: Commitment, b: Commitment, c: Commitment, threshold: int)
    requires a.startsAt <= b.startsAt && b.startsAt < a.endsAt && Clear(b, c, threshold) && c.startsAt < a.endsAt
    requires a.startsAt < c.endsAt && b.taskId != c.taskId
    ensures Overlap(a, c) && forall x :: x in Scan([a, b, c], threshold) ==> x.relatedTask != c.taskId
  {
    var s := [a, b, c];
    BetweenSilent(b, c, threshold);
    assert s[..2] == [a, b] && [a, b][..1] == [a];
    assert Scan([a, b], threshold) == Between(a, b, threshold);
  }

  // ---------- the whole report ----------

  lemma {:induction false} KeysAreMembers(commitments: seq<Commitment>)
    ensures forall k :: k in Keys(commitments) <==> exists c :: c in commitments && c.memberId == k
    ensures forall i, j :: 0 <= i < j < |Keys(commitments)| ==> Keys(commitments)[i] != Keys(commitments)[j]
  {
    if commitments != [] {
      var n := |commitments| - 1;
      KeysAreMembers(commitments[..n]);
      assert commitments == commitments[..n] + [commitments[n]];
      forall k ensures k in Keys(commitments) <==> exists c :: c in commitments && c.memberId == k {
        if k in Keys(commitments) && k in Keys(commitments[..n]) {
          var c :| c in commitments[..n] && c.memberId == k;
          assert c in commitments;
        }
        assert commitments[n] in commitments;
      }
    }
  }

  lemma {:induction false} ScanNames(s: seq<Commitment>, threshold: int, member: Id)
    requires forall c :: c in s ==> c.memberId == member
    ensures forall x :: x in Scan(s, threshold) ==> x.about == member && x.kind != SoleDriver
  {
    if |s| >= 2 {
      ScanNames(s[..|s| - 1], threshold, member);
    }
  }

  /** Where a reported conflict comes from. */
  lemma ReportSources(commitments: seq<Commitment>, members: seq<Member>, threshold: int, x: Conflict)
    ensures x in Conflicts(commitments, members, threshold) <==>
      x in SoleDriverConflicts(commitments, members)
      || exists k :: k in Keys(commitments) && x in ScanOf(commitments, threshold)(k)
  {
    var sole := SoleDriverConflicts(commitments, members);
    var scans := Flatten(ScanOf(commitments, threshold), Keys(commitments));
    SortMembers(ByUrgency, sole + scans);
    FlattenMembers(ScanOf(commitments, threshold), Keys(commitments), x);
  }

  lemma UrgencyPreorder()
    ensures TotalPreorder(ByUrgency)
  {
  }

  /** `x` may stand before `y`: high before the others, low after them, and alike by window start. */
  predicate MayPrecede(x: Conflict, y: Conflict) {
    && (y.severity.High? ==> x.severity.High?)
    && (x.severity.Low? ==> y.severity.Low?)
    && (x.severity == y.severity ==> x.windowStart <= y.windowStart)
  }

  /** The report is in order of severity, then of window start. */
  lemma ReportOrdered(commitments: seq<Commitment>, members: seq<Member>, threshold: int, i: nat, j: nat)
    requires i < j < |Conflicts(commitments, members, threshold)|
    ensures var report := Conflicts(commitments, members, threshold);
      MayPrecede(report[i], report[j])
  {
    UrgencyPreorder();
    SortOrdered(ByUrgency,
      SoleDriverConflicts(commitments, members) + Flatten(ScanOf(commitments, threshold), Keys(commitments)));
    var report := Conflicts(commitments, members, threshold);
    assert ByUrgency(report[i], report[j]);
  }

  lemma ScanOfNames(commitments: seq<Commitment>, threshold: int, k: Id)
    ensures forall x :: x in ScanOf(commitments, threshold)(k) ==> x.about == k && x.kind != SoleDriver
    ensures ScanOf(commitments, threshold)(k) != [] ==> k in Keys(commitments)
  {
    var s := Schedule(commitments, k);
    StartOrder(commitments, k);
    ScanNames(s, threshold, k);
    KeysAreMembers(commitments);
    assert s != [] ==> s[0] in s;
  }

  /** No conflict about the member but for a sole driver. */
  predicate Unmentioned(conflicts: seq<Conflict>, member: Id) {
    forall x :: x in conflicts && x.about == member ==> x.kind == SoleDriver
  }

  /** The report mentions a double booking or a squeeze about a member iff that member's scan finds one. */
  lemma ReportMentions(commitments: seq<Commitment>, members: seq<Member>, threshold: int, member: Id)
    ensures Unmentioned(Conflicts(commitments, members, threshold), member) <==>
      Silent(commitments, member, threshold)
  {
    SoleKinds(commitments, members);
    var mine := ScanOf(commitments, threshold)(member);
    ScanOfNames(commitments, threshold, member);
    if mine != [] {
      ReportSources(commitments, members, threshold, mine[0]);
      assert mine[0] in mine;
    } else {
      forall x | x in Conflicts(commitments, members, threshold) && x.about == member ensures x.kind == SoleDriver {
        ReportSources(commitments, members, threshold, x);
        if k :| k in Keys(commitments) && x in ScanOf(commitments, threshold)(k) {
          ScanOfNames(commitments, threshold, k);
        }
      }
    }
  }

  predicate RippleAbout(conflicts: seq<Conflict>, member: Id) {
    exists x :: x in conflicts && x.kind == RippleShift && x.about == member
  }

  lemma RippleMentioned(commitments: seq<Commitment>, members: seq<Member>, threshold: int, member: Id)
    ensures RippleAbout(Conflicts(commitments, members, threshold), member) <==>
      HasRipple(Scan(Schedule(commitments, member), threshold))
  {
    SoleKinds(commitments, members);
    var report := Conflicts(commitments, members, threshold);
    var mine := ScanOf(commitments, threshold)(member);
    ScanOfNames(commitments, threshold, member);
    if x :| x in mine && x.kind == RippleShift {
      ReportSources(commitments, members, threshold, x);
      assert x in report;
    }
    if x :| x in report && x.kind == RippleShift && x.about == member {
      ReportSources(commitments, members, threshold, x);
      var k :| k in Keys(commitments) && x in ScanOf(commitments, threshold)(k);
      ScanOfNames(commitments, threshold, k);
    }
  }

  /**
   * The report calls a member double-booked iff, in the member's commitments by start, one starts before an earlier
   * one has ended: neighbours or not, whatever their lengths.
   */
  lemma RippleIffLateEnd(commitments: seq<Commitment>, members: seq<Member>, threshold: int, member: Id)
    ensures var s := Schedule(commitments, member);
      RippleAbout(Conflicts(commitments, members, threshold), member) <==>
        exists i, j :: 0 <= i < j < |s| && s[j].startsAt < s[i].endsAt
  {
    RippleMentioned(commitments, members, threshold, member);
    StartOrder(commitments, member);
    RippleInOrder(Schedule(commitments, member), threshold);
  }

  function Disjoint(): (Commitment, Commitment) -> bool {
    (a: Commitment, b: Commitment) => !Overlap(a, b)
  }

  lemma LateEndIsOverlap(s: seq<Commitment>)
    requires Ordered(ByStart, s) && forall c :: c in s ==> c.startsAt < c.endsAt
    ensures (exists i, j :: 0 <= i < j < |s| && s[j].startsAt < s[i].endsAt) <==> !Pairwise(Disjoint(), s)
  {
    forall i, j | 0 <= i < j < |s| ensures s[j].startsAt < s[i].endsAt <==> !Disjoint()(s[i], s[j]) {
      assert s[i] in s && s[j] in s && ByStart(s[i], s[j]);
    }
  }

  lemma DisjointPermuted(s: seq<Commitment>, t: seq<Commitment>)
    requires multiset(s) == multiset(t)
    ensures Pairwise(Disjoint(), s) <==> Pairwise(Disjoint(), t)
  {
    PairwisePermuted(Disjoint(), s, t);
  }

  /** With positive lengths: iff two of the member's commitments in the input overlap. */
  lemma RippleIffOverlap(commitments: seq<Commitment>, members: seq<Member>, threshold: int, member: Id)
    requires forall c :: c in commitments && c.memberId == member ==> c.startsAt < c.endsAt
    ensures RippleAbout(Conflicts(commitments, members, threshold), member) <==>
      !Pairwise(Disjoint(), Collect(Of(member), commitments))
  {
    RippleIffLateEnd(commitments, members, threshold, member);
    StartOrder(commitments, member);
    LateEndIsOverlap(Schedule(commitments, member));
    DisjointPermuted(Schedule(commitments, member), Collect(Of(member), commitments));
  }

  lemma SoleKinds(commitments: seq<Commitment>, members: seq<Member>)
    ensures forall x :: x in SoleDriverConflicts(commitments, members) ==> x.kind == SoleDriver
  {
    var drivers := Collect(Driver(), members);
    forall x | x in SoleDriverConflicts(commitments, members) ensures x.kind == SoleDriver {
      CollectMembers(SoleDriverConflict(drivers[0]), Collect(NeedsDriver(), commitments), x);
    }
  }

  /**
   * Main result on the whole report: a member appears in no double booking and no squeeze iff every two of the
   * member's commitments are at least the threshold apart and no awkward pair has its longer commitment first.
   */
  lemma RadarDecidesAllPairs(commitments: seq<Commitment>, members: seq<Member>, threshold: int, member: Id)
    requires Forward(commitments, member)
    ensures var mine := Collect(Of(member), commitments);
      Unmentioned(Conflicts(commitments, members, threshold), member) <==>
        AllApart(mine, threshold) && !AwkwardInOrder(mine, threshold)
  {
    ReportMentions(commitments, members, threshold, member);
    SilentIffAllApart(commitments, member, threshold);
  }

  // ---------- order of the input ----------

  /** By start, and among equal starts zero-length commitments first. */
  predicate PointsFirst(a: Commitment, b: Commitment) {
    a.startsAt < b.startsAt || (a.startsAt == b.startsAt && (a.endsAt <= a.startsAt || b.startsAt < b.endsAt))
  }

  /** By start, and among equal starts zero-length commitments last. */
  predicate PointsLast(a: Commitment, b: Commitment) {
    a.startsAt < b.startsAt || (a.startsAt == b.startsAt && (a.startsAt < a.endsAt || b.endsAt <= b.startsAt))
  }

  lemma {:induction false} MineOrdered(leq: (Commitment, Commitment) -> bool, s: seq<Commitment>, member: Id)
    requires Ordered(leq, s)
    ensures Ordered(leq, Collect(Of(member), s))
  {
    if s != [] {
      var n := |s| - 1;
      var before := Collect(Of(member), s[..n]);
      MineOrdered(leq, s[..n], member);
      forall x | x in before ensures leq(x, s[n]) {
        CollectMembers(Of(member), s[..n], x);
        var i :| 0 <= i < n && Of(member)(s[..n][i]) == Some(x);
        assert s[i] == x;
      }
    }
  }

  /** With points first in the input no awkward pair has its longer commitment first. */
  lemma NotAwkwardPointsFirst(s: seq<Commitment>, threshold: int)
    requires Ordered(PointsFirst, s)
    ensures !AwkwardInOrder(s, threshold)
  {
    forall longer, point | InOrder(s, longer, point) ensures !Awkward(longer, point, threshold) {
      InOrderAt(s, longer, point);
      var i, j :| 0 <= i < j < |s| && s[i] == longer && s[j] == point;
      assert PointsFirst(s[i], s[j]);
    }
  }

  lemma PointAfter(s: seq<Commitment>, i: nat, j: nat)
    requires Ordered(PointsLast, s) && i < |s| && j < |s| && i != j && !PointsLast(s[j], s[i])
    ensures i < j
  {
  }

  /** With points last every awkward pair has. */
  lemma AwkwardPointsLast(s: seq<Commitment>, threshold: int, longer: Commitment, point: Commitment)
    requires Ordered(PointsLast, s) && longer in s && point in s && Awkward(longer, point, threshold)
    ensures AwkwardInOrder(s, threshold)
  {
    var i :| 0 <= i < |s| && s[i] == longer;
    var j :| 0 <= j < |s| && s[j] == point;
    PointAfter(s, i, j);
    InOrderAt(s, longer, point);
  }

  ghost predicate HasAwkwardPair(s: seq<Commitment>, threshold: int) {
    exists longer, point :: longer in s && point in s && Awkward(longer, point, threshold)
  }

  /** The verdict on the member is the same for every arrangement of the input. */
  ghost predicate SameVerdict(commitments: seq<Commitment>, member: Id, threshold: int) {
    forall t: seq<Commitment> :: multiset(t) == multiset(commitments) ==>
      (Silent(t, member, threshold) <==> Silent(commitments, member, threshold))
  }

  lemma MinePermuted(s: seq<Commitment>, t: seq<Commitment>, member: Id, threshold: int)
    requires multiset(s) == multiset(t) && Forward(s, member)
    ensures Forward(t, member)
    ensures multiset(Collect(Of(member), s)) == multiset(Collect(Of(member), t))
    ensures AllApart(Collect(Of(member), s), threshold) <==> AllApart(Collect(Of(member), t), threshold)
  {
    forall c | c in t ensures c in s {
      assert c in multiset(t);
    }
    CollectPermuted(Of(member), s, t);
    AllApartPermuted(Collect(Of(member), s), Collect(Of(member), t), threshold);
  }

  lemma MembersPermuted(s: seq<Commitment>, t: seq<Commitment>, c: Commitment)
    requires multiset(s) == multiset(t)
    ensures c in s <==> c in t
  {
    assert c in multiset(s) <==> c in multiset(t);
  }

  /** An arrangement on which the radar is silent, when all are apart. */
  lemma SilentArrangement(commitments: seq<Commitment>, member: Id, threshold: int) returns (t: seq<Commitment>)
    requires Forward(commitments, member) && AllApart(Collect(Of(member), commitments), threshold)
    ensures multiset(t) == multiset(commitments) && Silent(t, member, threshold)
  {
    t := Sort(PointsFirst, commitments);
    SortOrdered(PointsFirst, commitments);
    MinePermuted(commitments, t, member, threshold);
    MineOrdered(PointsFirst, t, member);
    NotAwkwardPointsFirst(Collect(Of(member), t), threshold);
    SilentIffAllApart(t, member, threshold);
  }

  /** And one on which it is not, when there is an awkward pair. */
  lemma LoudArrangement(commitments: seq<Commitment>, member: Id, threshold: int) returns (t: seq<Commitment>)
    requires Forward(commitments, member) && HasAwkwardPair(Collect(Of(member), commitments), threshold)
    ensures multiset(t) == multiset(commitments) && !Silent(t, member, threshold)
  {
    var mine := Collect(Of(member), commitments);
    var longer, point :| longer in mine && point in mine && Awkward(longer, point, threshold);
    t := Sort(PointsLast, commitments);
    SortOrdered(PointsLast, commitments);
    MinePermuted(commitments, t, member, threshold);
    MineOrdered(PointsLast, t, member);
    MembersPermuted(mine, Collect(Of(member), t), longer);
    MembersPermuted(mine, Collect(Of(member), t), point);
    AwkwardPointsLast(Collect(Of(member), t), threshold, longer, point);
    SilentIffAllApart(t, member, threshold);
  }

  lemma NoAwkwardPair(commitments: seq<Commitment>, member: Id, threshold: int)
    requires Forward(commitments, member)
    requires var mine := Collect(Of(member), commitments);
      AllApart(mine, threshold) ==> !HasAwkwardPair(mine, threshold)
    ensures Silent(commitments, member, threshold) <==> AllApart(Collect(Of(member), commitments), threshold)
  {
    var mine := Collect(Of(member), commitments);
    SilentIffAllApart(commitments, member, threshold);
    forall longer, point | InOrder(mine, longer, point) ensures longer in mine && point in mine {
      InOrderAt(mine, longer, point);
    }
  }

  lemma NoAwkwardPairPermuted(s: seq<Commitment>, t: seq<Commitment>, threshold: int)
    requires multiset(s) == multiset(t) && !HasAwkwardPair(s, threshold)
    ensures !HasAwkwardPair(t, threshold)
  {
    forall longer, point | longer in t && point in t ensures !Awkward(longer, point, threshold) {
      MembersPermuted(s, t, longer);
      MembersPermuted(s, t, point);
    }
  }

  /**
   * The verdict on a member is the same for every arrangement of the input unless all of the member's commitments
   * are apart and some zero-length one shares its start with a longer one, at a threshold of 0 or less.
   */
  lemma VerdictIgnoresOrder(commitments: seq<Commitment>, member: Id, threshold: int)
    requires Forward(commitments, member)
    ensures var mine := Collect(Of(member), commitments);
      SameVerdict(commitments, member, threshold) <==> !(AllApart(mine, threshold) && HasAwkwardPair(mine, threshold))
  {
    var mine := Collect(Of(member), commitments);
    if AllApart(mine, threshold) && HasAwkwardPair(mine, threshold) {
      var quiet := SilentArrangement(commitments, member, threshold);
      var loud := LoudArrangement(commitments, member, threshold);
      assert Silent(quiet, member, threshold) != Silent(loud, member, threshold);
    } else {
      NoAwkwardPair(commitments, member, threshold);
      forall t: seq<Commitment> | multiset(t) == multiset(commitments)
        ensures Silent(t, member, threshold) <==> Silent(commitments, member, threshold)
      {
        SameSilence(commitments, t, member, threshold);
      }
    }
  }

  lemma SameSilence(s: seq<Commitment>, t: seq<Commitment>, member: Id, threshold: int)
    requires multiset(s) == multiset(t) && Forward(s, member)
    requires var mine := Collect(Of(member), s); AllApart(mine, threshold) ==> !HasAwkwardPair(mine, threshold)
    ensures Silent(t, member, threshold) <==> Silent(s, member, threshold)
  {
    MinePermuted(s, t, member, threshold);
    if !HasAwkwardPair(Collect(Of(member), s), threshold) {
      NoAwkwardPairPermuted(Collect(Of(member), s), Collect(Of(member), t), threshold);
    }
    NoAwkwardPair(s, member, threshold);
    NoAwkwardPair(t, member, threshold);
  }

  lemma PairInOrder(a: Commitment, b: Commitment, x: Commitment, y: Commitment)
    ensures InOrder([a, b], x, y) <==> x == a && y == b
  {
    InOrderAt([a, b], x, y);
  }

  lemma PairAwkward(a: Commitment, b: Commitment, threshold: int)
    ensures AwkwardInOrder([a, b], threshold) <==> Awkward(a, b, threshold)
  {
    PairInOrder(a, b, a, b);
    forall x, y | InOrder([a, b], x, y) ensures x == a && y == b {
      PairInOrder(a, b, x, y);
    }
  }

  lemma PairApart(a: Commitment, b: Commitment, threshold: int)
    ensures AllApart([a, b], threshold) <==> Apart(a, b, threshold)
  {
    assert AllApart([a, b], threshold) <==> ApartBy(threshold)([a, b][0], [a, b][1]);
  }

  lemma PairSilent(a: Commitment, b: Commitment, threshold: int)
    requires a.memberId == b.memberId && a.startsAt <= a.endsAt && b.startsAt <= b.endsAt
    ensures Silent([a, b], a.memberId, threshold) <==> Apart(a, b, threshold) && !Awkward(a, b, threshold)
  {
    PairCollected(a, b);
    SilentIffAllApart([a, b], a.memberId, threshold);
    PairAwkward(a, b, threshold);
    PairApart(a, b, threshold);
  }

  /** An awkward pair: the same two commitments, with either verdict. */
  lemma ZeroLengthDependsOnOrder(longer: Commitment, point: Commitment, threshold: int)
    requires Awkward(longer, point, threshold) && longer.memberId == point.memberId
    ensures Silent([point, longer], longer.memberId, threshold) && !Silent([longer, point], longer.memberId, threshold)
  {
    PairSilent(point, longer, threshold);
    PairSilent(longer, point, threshold);
  }

  lemma PairCollected(a: Commitment, b: Commitment)
    requires a.memberId == b.memberId
    ensures Collect(Of(a.memberId), [a, b]) == [a, b]
  {
    assert [a, b][..1] == [a] && [a][..0] == [];
    assert Collect(Of(a.memberId), [a]) == [a];
  }

  /** Active, driving and an adult. */
  predicate CanDrive(m: Member) {
    m.active && m.drives && (m.role == Head || m.role == ThirdParty)
  }

  /** The member at `i` can drive, and no other one. */
  predicate IsOnlyDriver(members: seq<Member>, i: nat) {
    && i < |members| && CanDrive(members[i])
    && forall j :: 0 <= j < |members| && CanDrive(members[j]) ==> j == i
  }

  lemma {:induction false} NoDrivers(members: seq<Member>)
    ensures Collect(Driver(), members) == [] <==> forall j :: 0 <= j < |members| ==> !CanDrive(members[j])
  {
    if members != [] {
      var n := |members| - 1;
      NoDrivers(members[..n]);
      assert forall j :: 0 <= j < n ==> members[..n][j] == members[j];
      var before := Collect(Driver(), members[..n]);
      if CanDrive(members[n]) {
        assert Collect(Driver(), members) == before + [members[n]];
      } else {
        assert Collect(Driver(), members) == before + [] == before;
      }
    }
  }

  lemma OnlyLast<T>(before: seq<T>, x: T, y: T)
    ensures before + [x] == [y] <==> before == [] && x == y
  {
    if before + [x] == [y] {
      assert |before + [x]| == 1 && (before + [x])[0] == y;
    }
  }

  lemma OnlyDriverSnoc(members: seq<Member>, n: nat, i: nat)
    requires |members| == n + 1
    ensures IsOnlyDriver(members, i) <==>
      if CanDrive(members[n]) then i == n && forall j :: 0 <= j < n ==> !CanDrive(members[j])
      else IsOnlyDriver(members[..n], i)
  {
    assert forall j :: 0 <= j < n ==> members[..n][j] == members[j];
  }

  lemma {:induction false} OneDriver(members: seq<Member>, m: Member)
    ensures Collect(Driver(), members) == [m] <==> exists i: nat :: IsOnlyDriver(members, i) && members[i] == m
  {
    if members != [] {
      var n := |members| - 1;
      var before := Collect(Driver(), members[..n]);
      OneDriver(members[..n], m);
      NoDrivers(members[..n]);
      forall i: nat {
        OnlyDriverSnoc(members, n, i);
      }
      if CanDrive(members[n]) {
        OnlyLast(before, members[n], m);
      } else {
        assert before + [] == before;
      }
    }
  }

  /** A driving commitment, under the name of the only member who can drive. */
  predicate ReportsSole(x: Conflict, sole: Member, c: Commitment) {
    && c.requiresDriver && x.kind == SoleDriver && x.severity == Severity.High && x.about == sole.id
    && x.windowStart == c.startsAt && x.windowEnd == c.endsAt && x.relatedTask == c.taskId
  }

  lemma SoleConflicts(commitments: seq<Commitment>, members: seq<Member>, x: Conflict)
    ensures x in SoleDriverConflicts(commitments, members) <==>
      && |Collect(Driver(), members)| == 1
      && exists c :: c in commitments && ReportsSole(x, Collect(Driver(), members)[0], c)
  {
    var drivers := Collect(Driver(), members);
    if |drivers| == 1 {
      var f := SoleDriverConflict(drivers[0]);
      CollectMembers(f, Collect(NeedsDriver(), commitments), x);
      if c :| c in commitments && ReportsSole(x, drivers[0], c) {
        var i :| 0 <= i < |commitments| && commitments[i] == c;
        SoleOfDriving(commitments, i, drivers[0]);
      }
      if x in SoleDriverConflicts(commitments, members) {
        DrivingOfSole(commitments, drivers[0], x);
      }
    }
  }

  lemma SoleOfDriving(commitments: seq<Commitment>, i: nat, sole: Member)
    requires i < |commitments| && commitments[i].requiresDriver
    ensures SoleDriverConflict(sole)(commitments[i]).value
      in Collect(SoleDriverConflict(sole), Collect(NeedsDriver(), commitments))
  {
    var f, driving := SoleDriverConflict(sole), Collect(NeedsDriver(), commitments);
    assert NeedsDriver()(commitments[i]) == Some(commitments[i]);
    CollectMembers(NeedsDriver(), commitments, commitments[i]);
    var j :| 0 <= j < |driving| && driving[j] == commitments[i];
    CollectMembers(f, driving, f(driving[j]).value);
    assert f(driving[j]) == Some(f(driving[j]).value);
  }

  lemma DrivingOfSole(commitments: seq<Commitment>, sole: Member, x: Conflict)
    requires x in Collect(SoleDriverConflict(sole), Collect(NeedsDriver(), commitments))
    ensures exists c :: c in commitments && ReportsSole(x, sole, c)
  {
    var f, driving := SoleDriverConflict(sole), Collect(NeedsDriver(), commitments);
    CollectMembers(f, driving, x);
    var j :| 0 <= j < |driving| && f(driving[j]) == Some(x);
    CollectMembers(NeedsDriver(), commitments, driving[j]);
    assert ReportsSole(x, sole, driving[j]);
  }

  lemma SoleByMember(commitments: seq<Commitment>, members: seq<Member>, x: Conflict)
    ensures x in SoleDriverConflicts(commitments, members) <==>
      exists i: nat, c :: IsOnlyDriver(members, i) && c in commitments && ReportsSole(x, members[i], c)
  {
    var drivers := Collect(Driver(), members);
    SoleConflicts(commitments, members, x);
    if x in SoleDriverConflicts(commitments, members) {
      OneDriver(members, drivers[0]);
      assert drivers == [drivers[0]];
    }
    if i: nat, c :| IsOnlyDriver(members, i) && c in commitments && ReportsSole(x, members[i], c) {
      OneDriver(members, members[i]);
    }
  }

  /**
   * The report holds exactly: what is wrong between neighbours of each member's schedule and, when just one member
   * can drive, that member's name on every driving commitment.
   */
  lemma ReportHolds(commitments: seq<Commitment>, members: seq<Member>, threshold: int, x: Conflict)
    ensures x in Conflicts(commitments, members, threshold) <==>
      || (exists i: nat, c :: IsOnlyDriver(members, i) && c in commitments && ReportsSole(x, members[i], c))
      || (exists member, k :: var s := Schedule(commitments, member);
            0 <= k < |s| - 1 && Reports(x, s[k], s[k + 1], threshold))
  {
    ReportSources(commitments, members, threshold, x);
    SoleByMember(commitments, members, x);
    forall member ensures x in ScanOf(commitments, threshold)(member) <==>
      var s := Schedule(commitments, member); exists k :: 0 <= k < |s| - 1 && Reports(x, s[k], s[k + 1], threshold)
    {
      ScanReports(Schedule(commitments, member), threshold, x);
    }
    if member :| x in ScanOf(commitments, threshold)(member) {
      ScanOfNames(commitments, threshold, member);
    }
  }

  /** A sole-driver conflict is reported for each driving commitment iff exactly one member can drive. */
  lemma SoleDriverReported(commitments: seq<Commitment>, members: seq<Member>, threshold: int, c: Commitment)
    requires c in commitments && c.requiresDriver
    ensures (exists x :: x in Conflicts(commitments, members, threshold) && x.kind == SoleDriver) <==>
      exists i: nat :: IsOnlyDriver(members, i)
    ensures forall i: nat :: IsOnlyDriver(members, i) ==>
      Conflict(SoleDriver, Severity.High, members[i].id, c.startsAt, c.endsAt, c.taskId)
        in Conflicts(commitments, members, threshold)
  {
    forall i: nat | IsOnlyDriver(members, i)
      ensures Conflict(SoleDriver, Severity.High, members[i].id, c.startsAt, c.endsAt, c.taskId)
        in Conflicts(commitments, members, threshold)
    {
      var x := Conflict(SoleDriver, Severity.High, members[i].id, c.startsAt, c.endsAt, c.taskId);
      assert ReportsSole(x, members[i], c);
      ReportHolds(commitments, members, threshold, x);
    }
    if x :| x in Conflicts(commitments, members, threshold) && x.kind == SoleDriver {
      ReportHolds(commitments, members, threshold, x);
    }
  }
}
