/** The escalation engine's choice of a backup adult. */
module Backup {
  import opened Base
  import opened Household
  import opened Sequences

  datatype AvailabilityBlock = AvailabilityBlock(
    household: Id,
    memberId: Id,
    kind: Availability,
    startsAt: Instant,
    endsAt: Instant)

  datatype Request = Request(
    windowStart: Instant,
    windowEnd: Instant,
    requiresDriving: bool,
    maxCommuteMinutes: Option<nat>,
    exclude: set<Id>)

  datatype BackupCandidate = BackupCandidate(member: Member, score: int)

  datatype Selection = Selection(selected: Option<Member>, candidates: seq<BackupCandidate>)

  /** A block rules its member out of a window when it is not an AVAILABLE one and overlaps the window. */
  predicate Blocks(block: AvailabilityBlock, memberId: Id, request: Request) {
    && block.memberId == memberId
    && block.kind != Available
    && WindowsOverlap(block.startsAt, block.endsAt, request.windowStart, request.windowEnd)
  }

  /** The member is away at some instant the window and the block share. */
  predicate KeepsAway(block: AvailabilityBlock, memberId: Id, request: Request)
    ensures KeepsAway(block, memberId, request) <==> Blocks(block, memberId, request)
  {
    && block.memberId == memberId && (block.kind == Busy || block.kind == Travel)
    && block.startsAt < request.windowEnd && request.windowStart < block.endsAt
  }

  predicate Cleared(memberId: Id, request: Request, availability: seq<AvailabilityBlock>) {
    forall b :: b in availability ==> !KeepsAway(b, memberId, request)
  }

  method HasClearedSchedule(memberId: Id, request: Request, availability: seq<AvailabilityBlock>)
    returns (cleared: bool)
    ensures cleared <==> Cleared(memberId, request, availability)
  {
    for i := 0 to |availability|
      invariant forall b :: b in availability[..i] ==> !KeepsAway(b, memberId, request)
    {
      if Blocks(availability[i], memberId, request) {
        assert KeepsAway(availability[i], memberId, request);
        return false;
      }
    }
    return true;
  }

  /** Everything that can rule a member out except the schedule. */
  predicate Fits(member: Member, request: Request) {
    && member.id !in request.exclude
    && member.active
    && member.role != Dependent
    && (request.requiresDriving ==> member.drives)
    && (request.maxCommuteMinutes.Some? && member.commuteMinutes.Some? ==>
          member.commuteMinutes.value <= request.maxCommuteMinutes.value)
  }

  /** An active adult, not excluded and free in the window, who drives and lives near enough where that is asked. */
  predicate CanBackUp(member: Member, request: Request, availability: seq<AvailabilityBlock>)
    ensures CanBackUp(member, request, availability) <==>
      Fits(member, request) && Cleared(member.id, request, availability)
  {
    && member.active && (member.role == Head || member.role == ThirdParty) && member.id !in request.exclude
    && (member.drives || !request.requiresDriving)
    && (request.maxCommuteMinutes.None? || member.commuteMinutes.None?
        || member.commuteMinutes.value <= request.maxCommuteMinutes.value)
    && Cleared(member.id, request, availability)
  }

  function BackupScore(member: Member): int {
    (match member.availability
     case Available => 50
     case Travel => 10
     case Busy => 0)
    + (if member.drives then 10 else 0)
    + (if member.commuteMinutes.Some? then Max(0, 60 - member.commuteMinutes.value) else 0)
  }

  /** Fifty points for being available, ten for travelling and for driving, one per minute of commute under an hour. */
  function Points(member: Member): (points: int)
    ensures points == BackupScore(member)
  {
    var presence := if member.availability == Available then 50 else if member.availability == Travel then 10 else 0;
    var driving := if member.drives then 10 else 0;
    match member.commuteMinutes
    case Some(minutes) => if minutes < 60 then presence + driving + 60 - minutes else presence + driving
    case None => presence + driving
  }

  predicate ByScore(a: BackupCandidate, b: BackupCandidate) {
    a.score > b.score || (a.score == b.score && a.member.id <= b.member.id)
  }

  function Scorer(request: Request, availability: seq<AvailabilityBlock>): Member -> Option<BackupCandidate> {
    (member: Member) =>
      if Fits(member, request) && Cleared(member.id, request, availability)
      then Some(BackupCandidate(member, BackupScore(member))) else None
  }

  function Selected(members: seq<Member>, request: Request, availability: seq<AvailabilityBlock>): Selection {
    var candidates := Sort(ByScore, Collect(Scorer(request, availability), members));
    Selection(if candidates == [] then None else Some(candidates[0].member), candidates)
  }

  method SelectBackup(members: seq<Member>, request: Request, availability: seq<AvailabilityBlock>)
    returns (s: Selection)
    ensures s == Selected(members, request, availability)
  {
    ghost var scorer := Scorer(request, availability);
    var candidates: seq<BackupCandidate> := [];
    for i := 0 to |members|
      invariant candidates == Collect(scorer, members[..i])
    {
      CollectStep(scorer, members, i);
      var member := members[i];
      if Fits(member, request) {
        var cleared := HasClearedSchedule(member.id, request, availability);
        if cleared {
          candidates := candidates + [BackupCandidate(member, BackupScore(member))];
        }
      }
    }
    assert members[..|members|] == members;
    candidates := Sort(ByScore, candidates);
    s := Selection(if candidates == [] then None else Some(candidates[0].member), candidates);
  }

  lemma ScorePreorder()
    ensures TotalPreorder(ByScore)
  {
  }

  lemma ScoredMembers(members: seq<Member>, request: Request, availability: seq<AvailabilityBlock>,
      c: BackupCandidate)
    ensures c in Collect(Scorer(request, availability), members) <==>
      c.member in members && CanBackUp(c.member, request, availability) && c.score == Points(c.member)
  {
    var f := Scorer(request, availability);
    CollectMembers(f, members, c);
    if c.member in members {
      var i :| 0 <= i < |members| && members[i] == c.member;
      assert f(members[i]) == f(c.member);
    }
  }

  lemma CandidatesOrdered(members: seq<Member>, request: Request, availability: seq<AvailabilityBlock>)
    ensures var cs := Selected(members, request, availability).candidates;
      forall i, j :: 0 <= i < j < |cs| ==>
        cs[i].score > cs[j].score || (cs[i].score == cs[j].score && cs[i].member.id <= cs[j].member.id)
  {
    var cs := Selected(members, request, availability).candidates;
    ScorePreorder();
    SortOrdered(ByScore, Collect(Scorer(request, availability), members));
    forall i, j | 0 <= i < j < |cs|
      ensures cs[i].score > cs[j].score || (cs[i].score == cs[j].score && cs[i].member.id <= cs[j].member.id)
    {
      assert ByScore(cs[i], cs[j]);
    }
  }

  /** The candidates are exactly the members that can back up, with their points, best first; the first is selected. */
  lemma CandidatesAreTheEligible(members: seq<Member>, request: Request, availability: seq<AvailabilityBlock>)
    ensures var s := Selected(members, request, availability);
      && (forall c :: c in s.candidates <==>
            c.member in members && CanBackUp(c.member, request, availability) && c.score == Points(c.member))
      && (forall i, j :: 0 <= i < j < |s.candidates| ==>
            var c, d := s.candidates[i], s.candidates[j];
            c.score > d.score || (c.score == d.score && c.member.id <= d.member.id))
      && s.selected == (if s.candidates == [] then None else Some(s.candidates[0].member))
      && (s.selected.None? <==> forall m :: m in members ==> !CanBackUp(m, request, availability))
  {
    var cs := Selected(members, request, availability).candidates;
    SortMembers(ByScore, Collect(Scorer(request, availability), members));
    CandidatesOrdered(members, request, availability);
    forall c ensures c in cs <==>
      c.member in members && CanBackUp(c.member, request, availability) && c.score == Points(c.member)
    {
      ScoredMembers(members, request, availability, c);
    }
    forall m | m in members && CanBackUp(m, request, availability) ensures cs != [] {
      assert BackupCandidate(m, Points(m)) in cs;
    }
    if cs != [] {
      assert cs[0] in cs;
    }
  }

  /** The selected member is no worse than any member that can back up; among equals it has the least id. */
  lemma SelectedIsBest(members: seq<Member>, request: Request, availability: seq<AvailabilityBlock>, m: Member)
    requires m in members && CanBackUp(m, request, availability)
    ensures var s := Selected(members, request, availability);
      && s.selected.Some? && s.selected.value in members && CanBackUp(s.selected.value, request, availability)
      && (Points(s.selected.value) > Points(m)
          || (Points(s.selected.value) == Points(m) && s.selected.value.id <= m.id))
  {
    CandidatesAreTheEligible(members, request, availability);
    var cs := Selected(members, request, availability).candidates;
    var c := BackupCandidate(m, Points(m));
    assert c in cs;
    var p :| 0 <= p < |cs| && cs[p] == c;
    assert cs[0] in cs;
    assert p > 0 ==> ByScore(cs[0], cs[p]);
  }

  /** With distinct ids, neither the order of the members nor that of the blocks matters. */
  lemma SelectionIgnoresOrder(
      s: seq<Member>, t: seq<Member>, request: Request, a: seq<AvailabilityBlock>, b: seq<AvailabilityBlock>)
    requires multiset(s) == multiset(t) && multiset(a) == multiset(b) && DistinctIds(s)
    ensures Selected(s, request, a) == Selected(t, request, b)
  {
    forall x ensures x in a <==> x in b {
      assert x in multiset(a) <==> x in multiset(b);
    }
    var f, g := Scorer(request, a), Scorer(request, b);
    SameScorer(f, g, t);
    CollectPermuted(f, s, t);
    forall c: BackupCandidate | c in Collect(f, s) ensures c.member in s && f(c.member) == Some(c) {
      CollectMembers(f, s, c);
    }
    DistinctIdsPermuted(s, s);
    ScorePreorder();
    SortPermuted(ByScore, Collect(f, s), Collect(f, t));
  }

  lemma {:induction false} SameScorer(
      f: Member -> Option<BackupCandidate>, g: Member -> Option<BackupCandidate>, t: seq<Member>)
    requires forall m :: f(m) == g(m)
    ensures Collect(f, t) == Collect(g, t)
  {
    if t != [] {
      SameScorer(f, g, t[..|t| - 1]);
    }
  }
}
