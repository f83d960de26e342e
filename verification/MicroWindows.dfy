/** The micro-window finder: free gaps around busy blocks, and first-fit placement of wellness goals. */
module MicroWindows {
  import opened Base
  import opened Sequences

  datatype BusyBlock = BusyBlock(startsAt: Instant, endsAt: Instant, caption: Option<string>)

  datatype Gap = Gap(start: Instant, end: Instant, adjacentTo: Option<string>)

  datatype Goal = Goal(id: Id, memberId: Id, durationMin: int)

  datatype Window = Window(goalId: Id, startsAt: Instant, endsAt: Instant)

  // ---------- gaps ----------

  /** The blocks that meet the scan range. */
  function Meeting(rangeStart: Instant, rangeEnd: Instant): BusyBlock -> Option<BusyBlock> {
    (b: BusyBlock) => if b.endsAt > rangeStart && b.startsAt < rangeEnd then Some(b) else None
  }

  predicate ByStart(a: BusyBlock, b: BusyBlock) {
    a.startsAt <= b.startsAt
  }

  function BlocksIn(busy: seq<BusyBlock>, rangeStart: Instant, rangeEnd: Instant): seq<BusyBlock> {
    Sort(ByStart, Collect(Meeting(rangeStart, rangeEnd), busy))
  }

  function GapIf(start: Instant, end: Instant, adjacentTo: Option<string>): seq<Gap> {
    if end > start then [Gap(start, end, adjacentTo)] else []
  }

  /** The sweep from `cursor` on; `last` labels the gap after the last block. */
  function GapsFrom(cursor: Instant, blocks: seq<BusyBlock>, buffer: int, rangeEnd: Instant,
      last: Option<string>): seq<Gap>
    decreases |blocks|
  {
    if blocks == [] then GapIf(cursor, rangeEnd, last)
    else
      var b := blocks[0];
      GapIf(cursor, b.startsAt - buffer, b.caption)
      + GapsFrom(Max(cursor, b.endsAt + buffer), blocks[1..], buffer, rangeEnd, last)
  }

  function LastLabel(blocks: seq<BusyBlock>): Option<string> {
    if blocks == [] then None else blocks[|blocks| - 1].caption
  }

  function Gaps(busy: seq<BusyBlock>, rangeStart: Instant, rangeEnd: Instant, buffer: int): seq<Gap> {
    var blocks := BlocksIn(busy, rangeStart, rangeEnd);
    GapsFrom(rangeStart, blocks, buffer, rangeEnd, LastLabel(blocks))
  }

  /** One block of the sweep. */
  lemma GapsStep(gaps: seq<Gap>, cursor: Instant, blocks: seq<BusyBlock>, i: nat, buffer: int, rangeEnd: Instant,
      last: Option<string>)
    requires i < |blocks|
    ensures gaps + GapsFrom(cursor, blocks[i..], buffer, rangeEnd, last) ==
      (gaps + GapIf(cursor, blocks[i].startsAt - buffer, blocks[i].caption))
      + GapsFrom(Max(cursor, blocks[i].endsAt + buffer), blocks[i + 1..], buffer, rangeEnd, last)
  {
    assert blocks[i..][1..] == blocks[i + 1..];
    Assoc(gaps, GapIf(cursor, blocks[i].startsAt - buffer, blocks[i].caption),
      GapsFrom(Max(cursor, blocks[i].endsAt + buffer), blocks[i + 1..], buffer, rangeEnd, last));
  }

  method Push(gaps: seq<Gap>, start: Instant, end: Instant, caption: Option<string>) returns (out: seq<Gap>)
    ensures out == gaps + GapIf(start, end, caption)
  {
    out := gaps;
    if end > start {
      out := out + [Gap(start, end, caption)];
    }
  }

  /** The loop over the sorted blocks. */
  method Sweep(blocks: seq<BusyBlock>, rangeStart: Instant, rangeEnd: Instant, buffer: int) returns (gaps: seq<Gap>)
    ensures gaps == GapsFrom(rangeStart, blocks, buffer, rangeEnd, LastLabel(blocks))
  {
    ghost var last := LastLabel(blocks);
    ghost var all := GapsFrom(rangeStart, blocks, buffer, rangeEnd, last);
    gaps := [];
    var cursor := rangeStart;
    assert blocks[0..] == blocks;
    for i := 0 to |blocks|
      invariant gaps + GapsFrom(cursor, blocks[i..], buffer, rangeEnd, last) == all
    {
      GapsStep(gaps, cursor, blocks, i, buffer, rangeEnd, last);
      gaps := Push(gaps, cursor, blocks[i].startsAt - buffer, blocks[i].caption);
      cursor := Max(cursor, blocks[i].endsAt + buffer);
    }
    gaps := Push(gaps, cursor, rangeEnd, if blocks == [] then None else blocks[|blocks| - 1].caption);
  }

  method ComputeGaps(busy: seq<BusyBlock>, rangeStart: Instant, rangeEnd: Instant, buffer: int) returns (gaps: seq<Gap>)
    ensures gaps == Gaps(busy, rangeStart, rangeEnd, buffer)
  {
    gaps := Sweep(BlocksIn(busy, rangeStart, rangeEnd), rangeStart, rangeEnd, buffer);
  }

  // ---------- what the gaps are ----------

  predicate Proper(blocks: seq<BusyBlock>) {
    forall b :: b in blocks ==> b.startsAt <= b.endsAt
  }

  /** `t` lies in the block widened by the buffer on both sides. */
  predicate Widened(b: BusyBlock, buffer: int, t: Instant) {
    b.startsAt - buffer <= t < b.endsAt + buffer
  }

  predicate Holds(g: Gap, t: Instant) {
    g.start <= t < g.end
  }

  predicate Covers(gaps: seq<Gap>, t: Instant) {
    exists g :: g in gaps && Holds(g, t)
  }

  /** Non-empty, ascending, disjoint, within bounds. */
  predicate Tidy(gaps: seq<Gap>, lo: Instant, hi: Instant) {
    && (forall g :: g in gaps ==> lo <= g.start < g.end <= hi)
    && forall i, j :: 0 <= i < j < |gaps| ==> gaps[i].end <= gaps[j].start
  }

  ghost predicate Sweepable(blocks: seq<BusyBlock>, buffer: int, rangeEnd: Instant) {
    && Proper(blocks) && Ordered(ByStart, blocks) && buffer >= 0
    && forall b :: b in blocks ==> b.startsAt < rangeEnd
  }

  lemma SweepableTail(blocks: seq<BusyBlock>, buffer: int, rangeEnd: Instant)
    requires Sweepable(blocks, buffer, rangeEnd) && blocks != []
    ensures Sweepable(blocks[1..], buffer, rangeEnd) && blocks[0] in blocks
    ensures forall b :: b in blocks[1..] ==> blocks[0].startsAt <= b.startsAt
  {
    assert forall b :: b in blocks[1..] ==> b in blocks;
    forall b | b in blocks[1..] ensures blocks[0].startsAt <= b.startsAt {
      var i :| 0 <= i < |blocks[1..]| && blocks[1..][i] == b;
      assert ByStart(blocks[0], blocks[i + 1]);
    }
  }

  lemma TidyCons(start: Instant, end: Instant, caption: Option<string>, rest: seq<Gap>, next: Instant, hi: Instant)
    requires Tidy(rest, next, hi) && start <= next && end <= next && end <= hi
    ensures Tidy(GapIf(start, end, caption) + rest, start, hi)
  {
    forall i | 0 <= i < |rest| ensures next <= rest[i].start {
      assert rest[i] in rest;
    }
  }

  lemma {:induction false} GapsTidy(cursor: Instant, blocks: seq<BusyBlock>, buffer: int, rangeEnd: Instant,
      last: Option<string>)
    requires Sweepable(blocks, buffer, rangeEnd)
    ensures Tidy(GapsFrom(cursor, blocks, buffer, rangeEnd, last), cursor, rangeEnd)
    decreases |blocks|
  {
    if blocks != [] {
      var b := blocks[0];
      SweepableTail(blocks, buffer, rangeEnd);
      var next := Max(cursor, b.endsAt + buffer);
      GapsTidy(next, blocks[1..], buffer, rangeEnd, last);
      TidyCons(cursor, b.startsAt - buffer, b.caption, GapsFrom(next, blocks[1..], buffer, rangeEnd, last), next,
        rangeEnd);
    }
  }

  /** An instant from the cursor on lies in a gap iff it is in range and outside every widened block. */
  lemma {:induction false} GapsCover(cursor: Instant, blocks: seq<BusyBlock>, buffer: int, rangeEnd: Instant,
      last: Option<string>, t: Instant)
    requires Sweepable(blocks, buffer, rangeEnd)
    ensures Covers(GapsFrom(cursor, blocks, buffer, rangeEnd, last), t) <==>
      cursor <= t < rangeEnd && forall b :: b in blocks ==> !Widened(b, buffer, t)
    decreases |blocks|
  {
    if blocks == [] {
      assert GapIf(cursor, rangeEnd, last) != [] ==> GapIf(cursor, rangeEnd, last)[0] in GapIf(cursor, rangeEnd, last);
    } else {
      var b := blocks[0];
      SweepableTail(blocks, buffer, rangeEnd);
      var next := Max(cursor, b.endsAt + buffer);
      var first := GapIf(cursor, b.startsAt - buffer, b.caption);
      var rest := GapsFrom(next, blocks[1..], buffer, rangeEnd, last);
      GapsCover(next, blocks[1..], buffer, rangeEnd, last, t);
      assert Covers(first + rest, t) <==> Covers(first, t) || Covers(rest, t);
      assert Covers(first, t) <==> cursor <= t < b.startsAt - buffer by {
        assert first != [] ==> first[0] in first;
      }
      assert forall c :: c in blocks <==> c == b || c in blocks[1..];
    }
  }

  /** No gap meets a widened block. */
  lemma {:induction false} GapsClear(cursor: Instant, blocks: seq<BusyBlock>, buffer: int, rangeEnd: Instant,
      last: Option<string>)
    requires Sweepable(blocks, buffer, rangeEnd)
    ensures forall g, b :: g in GapsFrom(cursor, blocks, buffer, rangeEnd, last) && b in blocks ==>
      g.end <= b.startsAt - buffer || b.endsAt + buffer <= g.start
    decreases |blocks|
  {
    if blocks != [] {
      var b := blocks[0];
      SweepableTail(blocks, buffer, rangeEnd);
      var next := Max(cursor, b.endsAt + buffer);
      GapsClear(next, blocks[1..], buffer, rangeEnd, last);
      GapsTidy(next, blocks[1..], buffer, rangeEnd, last);
      assert forall c :: c in blocks <==> c == b || c in blocks[1..];
    }
  }

  /** The gap ends the buffer before the block that labels it, or at the range end under the last block's label. */
  ghost predicate Labelled(g: Gap, blocks: seq<BusyBlock>, buffer: int, rangeEnd: Instant, last: Option<string>) {
    || (g.end == rangeEnd && g.adjacentTo == last)
    || exists b :: b in blocks && g.end == b.startsAt - buffer && g.adjacentTo == b.caption
  }

  lemma {:induction false} GapsLabelled(cursor: Instant, blocks: seq<BusyBlock>, buffer: int, rangeEnd: Instant,
      last: Option<string>)
    ensures forall g :: g in GapsFrom(cursor, blocks, buffer, rangeEnd, last) ==>
      Labelled(g, blocks, buffer, rangeEnd, last)
    decreases |blocks|
  {
    if blocks != [] {
      var b := blocks[0];
      var rest := GapsFrom(Max(cursor, b.endsAt + buffer), blocks[1..], buffer, rangeEnd, last);
      GapsLabelled(Max(cursor, b.endsAt + buffer), blocks[1..], buffer, rangeEnd, last);
      forall g | g in rest ensures Labelled(g, blocks, buffer, rangeEnd, last) {
        assert Labelled(g, blocks[1..], buffer, rangeEnd, last);
        assert forall c :: c in blocks[1..] ==> c in blocks;
      }
      assert b in blocks;
    }
  }

  predicate MeetsRange(b: BusyBlock, rangeStart: Instant, rangeEnd: Instant) {
    b.startsAt < rangeEnd && rangeStart < b.endsAt
  }

  lemma BlocksAreMeeting(busy: seq<BusyBlock>, rangeStart: Instant, rangeEnd: Instant)
    ensures Ordered(ByStart, BlocksIn(busy, rangeStart, rangeEnd))
    ensures forall b :: b in BlocksIn(busy, rangeStart, rangeEnd) <==> b in busy && MeetsRange(b, rangeStart, rangeEnd)
  {
    var f := Meeting(rangeStart, rangeEnd);
    SortOrdered(ByStart, Collect(f, busy));
    SortMembers(ByStart, Collect(f, busy));
    forall b ensures b in Collect(f, busy) <==> b in busy && MeetsRange(b, rangeStart, rangeEnd) {
      CollectMembers(f, busy, b);
      if b in busy && MeetsRange(b, rangeStart, rangeEnd) {
        var i :| 0 <= i < |busy| && busy[i] == b;
        assert f(busy[i]) == Some(b);
      }
    }
  }

  lemma BlocksSweepable(busy: seq<BusyBlock>, rangeStart: Instant, rangeEnd: Instant, buffer: int)
    requires Proper(busy) && buffer >= 0
    ensures Sweepable(BlocksIn(busy, rangeStart, rangeEnd), buffer, rangeEnd)
    ensures forall b :: b in BlocksIn(busy, rangeStart, rangeEnd) <==>
      b in busy && b.endsAt > rangeStart && b.startsAt < rangeEnd
  {
    BlocksAreMeeting(busy, rangeStart, rangeEnd);
  }

  /** Of the blocks that meet the range none starts later. */
  predicate IsLatest(b: BusyBlock, busy: seq<BusyBlock>, rangeStart: Instant, rangeEnd: Instant) {
    && b in busy && MeetsRange(b, rangeStart, rangeEnd)
    && forall c :: c in busy && MeetsRange(c, rangeStart, rangeEnd) ==> c.startsAt <= b.startsAt
  }

  /**
   * The gap ends the buffer before a range-meeting block and carries its label, or it ends with the range and carries
   * the label of a range-meeting block that starts last, or none if no block meets the range.
   */
  ghost predicate RightlyLabelled(g: Gap, busy: seq<BusyBlock>, rangeStart: Instant, rangeEnd: Instant, buffer: int) {
    || (exists b ::
          && b in busy && MeetsRange(b, rangeStart, rangeEnd)
          && g.end + buffer == b.startsAt && g.adjacentTo == b.caption)
    || (&& g.end == rangeEnd
        && ((g.adjacentTo.None? && forall b :: b in busy ==> !MeetsRange(b, rangeStart, rangeEnd))
            || exists b :: IsLatest(b, busy, rangeStart, rangeEnd) && g.adjacentTo == b.caption))
  }

  lemma LastIsLatest(blocks: seq<BusyBlock>, busy: seq<BusyBlock>, rangeStart: Instant, rangeEnd: Instant)
    requires blocks != [] && Ordered(ByStart, blocks)
    requires forall b :: b in blocks <==> b in busy && MeetsRange(b, rangeStart, rangeEnd)
    ensures IsLatest(blocks[|blocks| - 1], busy, rangeStart, rangeEnd)
  {
    var n := |blocks| - 1;
    assert blocks[n] in blocks;
    forall c | c in busy && MeetsRange(c, rangeStart, rangeEnd) ensures c.startsAt <= blocks[n].startsAt {
      assert c in blocks;
      var i :| 0 <= i <= n && blocks[i] == c;
      assert i == n || ByStart(blocks[i], blocks[n]);
    }
  }

  lemma RightLabel(g: Gap, blocks: seq<BusyBlock>, busy: seq<BusyBlock>, rangeStart: Instant, rangeEnd: Instant,
      buffer: int)
    requires Labelled(g, blocks, buffer, rangeEnd, LastLabel(blocks))
    requires forall b :: b in blocks <==> b in busy && MeetsRange(b, rangeStart, rangeEnd)
    requires blocks != [] ==> IsLatest(blocks[|blocks| - 1], busy, rangeStart, rangeEnd)
    ensures RightlyLabelled(g, busy, rangeStart, rangeEnd, buffer)
  {
  }

  /** The labels of the gaps, for any blocks and any buffer. */
  lemma GapsCarryLabels(busy: seq<BusyBlock>, rangeStart: Instant, rangeEnd: Instant, buffer: int)
    ensures forall g :: g in Gaps(busy, rangeStart, rangeEnd, buffer) ==>
      RightlyLabelled(g, busy, rangeStart, rangeEnd, buffer)
  {
    var blocks := BlocksIn(busy, rangeStart, rangeEnd);
    BlocksAreMeeting(busy, rangeStart, rangeEnd);
    GapsLabelled(rangeStart, blocks, buffer, rangeEnd, LastLabel(blocks));
    if blocks != [] {
      LastIsLatest(blocks, busy, rangeStart, rangeEnd);
    }
    forall g | g in Gaps(busy, rangeStart, rangeEnd, buffer)
      ensures RightlyLabelled(g, busy, rangeStart, rangeEnd, buffer)
    {
      RightLabel(g, blocks, busy, rangeStart, rangeEnd, buffer);
    }
  }

  /**
   * For unsorted and overlapping blocks: the gaps are non-empty, ascending and disjoint, and an instant of the
   * scan range lies in one of them iff it is outside every range-meeting block widened by the buffer.
   */
  lemma GapsAreTheFreeTime(busy: seq<BusyBlock>, rangeStart: Instant, rangeEnd: Instant, buffer: int, t: Instant)
    requires Proper(busy) && buffer >= 0
    ensures var gaps := Gaps(busy, rangeStart, rangeEnd, buffer);
      && Tidy(gaps, rangeStart, rangeEnd)
      && (Covers(gaps, t) <==>
            (&& rangeStart <= t < rangeEnd
             && forall b :: b in busy && b.endsAt > rangeStart && b.startsAt < rangeEnd ==> !Widened(b, buffer, t)))
  {
    var blocks := BlocksIn(busy, rangeStart, rangeEnd);
    BlocksSweepable(busy, rangeStart, rangeEnd, buffer);
    GapsTidy(rangeStart, blocks, buffer, rangeEnd, LastLabel(blocks));
    GapsCover(rangeStart, blocks, buffer, rangeEnd, LastLabel(blocks), t);
  }

  // ---------- first fit ----------

  function Need(goal: Goal): int {
    goal.durationMin * MINUTE
  }

  predicate Adjacent(g: Gap) {
    g.adjacentTo.Some? && g.adjacentTo.value != ""
  }

  /** Gaps next to a labelled block first, then by start. */
  predicate ByPreference(a: Gap, b: Gap) {
    (Adjacent(a) && !Adjacent(b)) || (Adjacent(a) == Adjacent(b) && a.start <= b.start)
  }

  predicate Fits(gap: Gap, goal: Goal) {
    gap.end - gap.start >= Need(goal)
  }

  /** A goal, with the gap it was given. */
  datatype Choice = Choice(goal: Goal, gap: Option<Gap>)

  function GapOf(): Choice -> Option<Gap> {
    (c: Choice) => c.gap
  }

  /** The gaps given away, in goal order. */
  function Taken(plan: seq<Choice>): seq<Gap> {
    Collect(GapOf(), plan)
  }

  predicate Usable(gap: Gap, goal: Goal, taken: seq<Gap>) {
    Fits(gap, goal) && gap !in taken
  }

  function UsableFor(goal: Goal, taken: seq<Gap>): Gap -> bool {
    (gap: Gap) => Usable(gap, goal, taken)
  }

  function FirstUsable(ordered: seq<Gap>, goal: Goal, taken: seq<Gap>): Option<Gap> {
    First(UsableFor(goal, taken), ordered)
  }

  function ChoiceFor(goal: Goal, memberId: Id, ordered: seq<Gap>, taken: seq<Gap>): Choice {
    Choice(goal, if goal.memberId == memberId then FirstUsable(ordered, goal, taken) else None)
  }

  /** For each goal in order, its gap; None for goals left without one and for other members' goals. */
  function Plan(goals: seq<Goal>, memberId: Id, ordered: seq<Gap>): (plan: seq<Choice>)
    ensures |plan| == |goals|
  {
    if goals == [] then []
    else
      var n := |goals| - 1;
      var before := Plan(goals[..n], memberId, ordered);
      before + [ChoiceFor(goals[n], memberId, ordered, Taken(before))]
  }

  /** A served goal's window: the start of its gap, for the goal's duration. */
  function WindowFor(): Choice -> Option<Window> {
    (c: Choice) =>
      match c.gap
      case None => None
      case Some(gap) => Some(Window(c.goal.id, gap.start, gap.start + Need(c.goal)))
  }

  predicate ByWindowStart(a: Window, b: Window) {
    a.startsAt <= b.startsAt
  }

  // ---------- the allocator, with its consumed intervals ----------

  predicate OverlapsSome(gap: Gap, consumed: seq<(Instant, Instant)>) {
    exists c :: c in consumed && gap.start < c.1 && c.0 < gap.end
  }

  function FreeFor(goal: Goal, consumed: seq<(Instant, Instant)>): Gap -> bool {
    (gap: Gap) => Fits(gap, goal) && !OverlapsSome(gap, consumed)
  }

  function FirstFree(ordered: seq<Gap>, goal: Goal, consumed: seq<(Instant, Instant)>): Option<Gap> {
    First(FreeFor(goal, consumed), ordered)
  }

  /** The interval a served goal consumes. */
  function IntervalOf(): Choice -> Option<(Instant, Instant)> {
    (c: Choice) =>
      match c.gap
      case None => None
      case Some(gap) => Some((gap.start, gap.start + Need(c.goal)))
  }

  function Consumed(plan: seq<Choice>): seq<(Instant, Instant)> {
    Collect(IntervalOf(), plan)
  }

  function Allotted(goal: Goal, memberId: Id, ordered: seq<Gap>, consumed: seq<(Instant, Instant)>): Choice {
    Choice(goal, if goal.memberId == memberId then FirstFree(ordered, goal, consumed) else None)
  }

  /** What the allocator gives each goal, for any gaps and durations. */
  function Allocation(goals: seq<Goal>, memberId: Id, ordered: seq<Gap>): (plan: seq<Choice>)
    ensures |plan| == |goals|
  {
    if goals == [] then []
    else
      var n := |goals| - 1;
      var before := Allocation(goals[..n], memberId, ordered);
      before + [Allotted(goals[n], memberId, ordered, Consumed(before))]
  }

  /** The allocation over the free gaps, in order of preference. */
  function Chosen(
      memberId: Id, goals: seq<Goal>, busy: seq<BusyBlock>, rangeStart: Instant, rangeEnd: Instant, buffer: int):
    (plan: seq<Choice>)
    ensures |plan| == |goals|
  {
    Allocation(goals, memberId, Sort(ByPreference, Gaps(busy, rangeStart, rangeEnd, buffer)))
  }

  function Suggested(
      memberId: Id, goals: seq<Goal>, busy: seq<BusyBlock>, rangeStart: Instant, rangeEnd: Instant, buffer: int):
    seq<Window>
  {
    Sort(ByWindowStart, Collect(WindowFor(), Chosen(memberId, goals, busy, rangeStart, rangeEnd, buffer)))
  }

  // ---------- findMicroWindows ----------

  predicate ApartGaps(a: Gap, b: Gap) {
    a.end <= b.start || b.end <= a.start
  }

  /** Non-empty gaps, no two of which overlap. */
  ghost predicate Disjoint(gaps: seq<Gap>) {
    (forall g :: g in gaps ==> g.start < g.end) && Pairwise(ApartGaps, gaps)
  }

  /** Each consumed interval is a non-empty start of the gap taken with it. */
  ghost predicate Tracks(consumed: seq<(Instant, Instant)>, taken: seq<Gap>, ordered: seq<Gap>) {
    && |consumed| == |taken|
    && forall k :: 0 <= k < |taken| ==>
         taken[k] in ordered && consumed[k].0 == taken[k].start && taken[k].start < consumed[k].1 <= taken[k].end
  }

  lemma DifferentGapsApart(gaps: seq<Gap>, a: Gap, b: Gap)
    requires Disjoint(gaps) && a in gaps && b in gaps && a != b
    ensures ApartGaps(a, b)
  {
    PairwiseForward(ApartGaps, gaps);
    assert a in multiset(gaps) && b in multiset(gaps);
  }

  /** The interval test on consumed windows is the per-gap used flag. */
  lemma OverlapIsUsed(ordered: seq<Gap>, consumed: seq<(Instant, Instant)>, taken: seq<Gap>, gap: Gap)
    requires Disjoint(ordered) && Tracks(consumed, taken, ordered) && gap in ordered
    ensures OverlapsSome(gap, consumed) <==> gap in taken
  {
    if c :| c in consumed && gap.start < c.1 && c.0 < gap.end {
      var k :| 0 <= k < |consumed| && consumed[k] == c;
      if gap != taken[k] {
        DifferentGapsApart(ordered, gap, taken[k]);
      }
    }
    if gap in taken {
      var k :| 0 <= k < |taken| && taken[k] == gap;
      assert consumed[k] in consumed;
    }
  }

  /** The inner loop: the first long-enough gap that overlaps nothing consumed. */
  method FindGap(ordered: seq<Gap>, goal: Goal, consumed: seq<(Instant, Instant)>) returns (choice: Option<Gap>)
    ensures choice == FirstFree(ordered, goal, consumed)
  {
    for i := 0 to |ordered|
      invariant FirstFree(ordered, goal, consumed) == FirstFree(ordered[i..], goal, consumed)
    {
      assert ordered[i..][0] == ordered[i] && ordered[i..][1..] == ordered[i + 1..];
      if ordered[i].end - ordered[i].start >= Need(goal) && !OverlapsSome(ordered[i], consumed) {
        return Some(ordered[i]);
      }
    }
    return None;
  }

  lemma AllocationStep(goals: seq<Goal>, memberId: Id, ordered: seq<Gap>, k: nat)
    requires k < |goals|
    ensures var before := Allocation(goals[..k], memberId, ordered);
      var choice := Allotted(goals[k], memberId, ordered, Consumed(before));
      && Allocation(goals[..k + 1], memberId, ordered) == before + [choice]
      && Consumed(before + [choice]) == Consumed(before) + One(IntervalOf()(choice))
      && Collect(WindowFor(), before + [choice]) == Collect(WindowFor(), before) + One(WindowFor()(choice))
  {
    assert goals[..k + 1][..k] == goals[..k];
    var before := Allocation(goals[..k], memberId, ordered);
    var choice := Allotted(goals[k], memberId, ordered, Consumed(before));
    assert (before + [choice])[..k] == before;
  }

  /** One goal: its window is placed in the gap found, and the interval used is remembered. */
  method PlaceGoal(goal: Goal, memberId: Id, ordered: seq<Gap>, consumed: seq<(Instant, Instant)>)
    returns (used: seq<(Instant, Instant)>, placed: seq<Window>)
    ensures var choice := Allotted(goal, memberId, ordered, consumed);
      used == One(IntervalOf()(choice)) && placed == One(WindowFor()(choice))
  {
    used, placed := [], [];
    if goal.memberId == memberId {
      var choice := FindGap(ordered, goal, consumed);
      if choice.Some? {
        var start := choice.value.start;
        var end := start + Need(goal);
        used := [(start, end)];
        placed := [Window(goal.id, start, end)];
      }
    }
  }

  method PlaceGoals(goals: seq<Goal>, memberId: Id, ordered: seq<Gap>) returns (out: seq<Window>)
    ensures out == Collect(WindowFor(), Allocation(goals, memberId, ordered))
  {
    out := [];
    var consumed: seq<(Instant, Instant)> := [];
    for k := 0 to |goals|
      invariant out == Collect(WindowFor(), Allocation(goals[..k], memberId, ordered))
      invariant consumed == Consumed(Allocation(goals[..k], memberId, ordered))
    {
      var used, placed := PlaceGoal(goals[k], memberId, ordered, consumed);
      AllocationStep(goals, memberId, ordered, k);
      consumed, out := consumed + used, out + placed;
    }
    assert goals[..|goals|] == goals;
  }

  method FindMicroWindows(
      memberId: Id, goals: seq<Goal>, busy: seq<BusyBlock>, rangeStart: Instant, rangeEnd: Instant, buffer: int)
    returns (out: seq<Window>)
    ensures out == Suggested(memberId, goals, busy, rangeStart, rangeEnd, buffer)
  {
    var gaps := ComputeGaps(busy, rangeStart, rangeEnd, buffer);
    var ordered := Sort(ByPreference, gaps);
    out := PlaceGoals(goals, memberId, ordered);
    out := Sort(ByWindowStart, out);
  }

  // ---------- over disjoint gaps the allocator is first fit ----------

  lemma PlanStep(goals: seq<Goal>, memberId: Id, ordered: seq<Gap>, k: nat)
    requires k < |goals|
    ensures var before := Plan(goals[..k], memberId, ordered);
      var choice := ChoiceFor(goals[k], memberId, ordered, Taken(before));
      && Plan(goals[..k + 1], memberId, ordered) == before + [choice]
      && Taken(before + [choice]) == Taken(before) + One(choice.gap)
      && Consumed(before + [choice]) == Consumed(before) + One(IntervalOf()(choice))
      && Collect(WindowFor(), before + [choice]) == Collect(WindowFor(), before) + One(WindowFor()(choice))
  {
    assert goals[..k + 1][..k] == goals[..k];
    var before := Plan(goals[..k], memberId, ordered);
    var choice := ChoiceFor(goals[k], memberId, ordered, Taken(before));
    assert (before + [choice])[..k] == before;
  }

  lemma SameChoice(goal: Goal, memberId: Id, ordered: seq<Gap>, consumed: seq<(Instant, Instant)>, taken: seq<Gap>)
    requires Disjoint(ordered) && Tracks(consumed, taken, ordered)
    ensures Allotted(goal, memberId, ordered, consumed) == ChoiceFor(goal, memberId, ordered, taken)
  {
    forall gap | gap in ordered ensures FreeFor(goal, consumed)(gap) == UsableFor(goal, taken)(gap) {
      OverlapIsUsed(ordered, consumed, taken, gap);
    }
    FirstAgrees(FreeFor(goal, consumed), UsableFor(goal, taken), ordered);
  }

  lemma TracksStep(goal: Goal, memberId: Id, ordered: seq<Gap>, consumed: seq<(Instant, Instant)>, taken: seq<Gap>)
    requires Tracks(consumed, taken, ordered) && goal.durationMin > 0
    ensures var choice := ChoiceFor(goal, memberId, ordered, taken);
      Tracks(consumed + One(IntervalOf()(choice)), taken + One(choice.gap), ordered)
  {
    var choice := ChoiceFor(goal, memberId, ordered, taken);
    if choice.gap.None? {
      assert consumed + [] == consumed && taken + [] == taken;
    }
  }

  /** Over disjoint gaps and for positive durations the interval test amounts to a used flag per gap. */
  lemma {:induction false} AllocationIsPlan(goals: seq<Goal>, memberId: Id, ordered: seq<Gap>)
    requires Disjoint(ordered) && forall g :: g in goals ==> g.durationMin > 0
    ensures Allocation(goals, memberId, ordered) == Plan(goals, memberId, ordered)
    ensures Tracks(Consumed(Plan(goals, memberId, ordered)), Taken(Plan(goals, memberId, ordered)), ordered)
  {
    if goals != [] {
      var n := |goals| - 1;
      assert goals[n] in goals && forall g :: g in goals[..n] ==> g in goals;
      AllocationIsPlan(goals[..n], memberId, ordered);
      var before := Plan(goals[..n], memberId, ordered);
      SameChoice(goals[n], memberId, ordered, Consumed(before), Taken(before));
      TracksStep(goals[n], memberId, ordered, Consumed(before), Taken(before));
      PlanStep(goals, memberId, ordered, n);
      assert goals[..n + 1] == goals;
    }
  }

  lemma OrderedDisjoint(busy: seq<BusyBlock>, rangeStart: Instant, rangeEnd: Instant, buffer: int)
    requires Proper(busy) && buffer >= 0
    ensures Disjoint(Sort(ByPreference, Gaps(busy, rangeStart, rangeEnd, buffer)))
  {
    var gaps := Gaps(busy, rangeStart, rangeEnd, buffer);
    GapsAreTheFreeTime(busy, rangeStart, rangeEnd, buffer, 0);
    SortMembers(ByPreference, gaps);
    PairwisePermuted(ApartGaps, gaps, Sort(ByPreference, gaps));
  }

  // ---------- first fit, stated without the search ----------

  ghost predicate IsFirstAt(ordered: seq<Gap>, goal: Goal, taken: seq<Gap>, gap: Gap, i: nat) {
    i < |ordered| && ordered[i] == gap && forall j :: 0 <= j < i ==> !Usable(ordered[j], goal, taken)
  }

  /** The first gap in order that is long enough and not taken; None only if there is no such gap. */
  ghost predicate IsFirst(ordered: seq<Gap>, goal: Goal, taken: seq<Gap>, choice: Option<Gap>) {
    match choice
    case None => forall g :: g in ordered ==> !Usable(g, goal, taken)
    case Some(gap) => Usable(gap, goal, taken) && exists i: nat :: IsFirstAt(ordered, goal, taken, gap, i)
  }

  /** Each goal of the member, in order, has the first gap that suits it and that no earlier goal was given. */
  ghost predicate IsFirstFit(goals: seq<Goal>, memberId: Id, ordered: seq<Gap>, plan: seq<Choice>) {
    && |plan| == |goals|
    && forall k :: 0 <= k < |goals| ==>
      && plan[k].goal == goals[k]
      && if goals[k].memberId == memberId then IsFirst(ordered, goals[k], Taken(plan[..k]), plan[k].gap)
         else plan[k].gap.None?
  }

  lemma FirstUsableIsFirst(ordered: seq<Gap>, goal: Goal, taken: seq<Gap>)
    ensures IsFirst(ordered, goal, taken, FirstUsable(ordered, goal, taken))
  {
    var usable := UsableFor(goal, taken);
    if First(usable, ordered).Some? {
      var k := FirstIndex(usable, ordered);
      FirstAt(usable, ordered, k);
      assert IsFirstAt(ordered, goal, taken, ordered[k], k);
    } else {
      forall g | g in ordered ensures !Usable(g, goal, taken) {
        assert !usable(g);
      }
    }
  }

  lemma IsFirstUnique(ordered: seq<Gap>, goal: Goal, taken: seq<Gap>, a: Option<Gap>, b: Option<Gap>)
    requires IsFirst(ordered, goal, taken, a) && IsFirst(ordered, goal, taken, b)
    ensures a == b
  {
  }

  /** The allocator's plan is first fit. */
  lemma {:induction false} PlanIsFirstFit(goals: seq<Goal>, memberId: Id, ordered: seq<Gap>)
    ensures IsFirstFit(goals, memberId, ordered, Plan(goals, memberId, ordered))
  {
    if goals != [] {
      var n := |goals| - 1;
      var before := Plan(goals[..n], memberId, ordered);
      PlanIsFirstFit(goals[..n], memberId, ordered);
      FirstUsableIsFirst(ordered, goals[n], Taken(before));
      var plan := Plan(goals, memberId, ordered);
      assert plan[..n] == before;
      forall k | 0 <= k < n
        ensures plan[k].goal == goals[k]
        ensures if goals[k].memberId == memberId then IsFirst(ordered, goals[k], Taken(plan[..k]), plan[k].gap)
                else plan[k].gap.None?
      {
        assert plan[k] == before[k] && plan[..k] == before[..k] && goals[..n][k] == goals[k];
      }
    }
  }

  /** And it is the only first-fit plan. */
  lemma {:induction false} FirstFitUnique(goals: seq<Goal>, memberId: Id, ordered: seq<Gap>, p: seq<Choice>,
      q: seq<Choice>, n: nat)
    requires IsFirstFit(goals, memberId, ordered, p) && IsFirstFit(goals, memberId, ordered, q) && n <= |goals|
    ensures p[..n] == q[..n]
  {
    if n > 0 {
      var k := n - 1;
      FirstFitUnique(goals, memberId, ordered, p, q, k);
      if goals[k].memberId == memberId {
        IsFirstUnique(ordered, goals[k], Taken(p[..k]), p[k].gap, q[k].gap);
      }
      Snoc(p, k);
      Snoc(q, k);
    }
  }

  lemma PreferencePreorder()
    ensures TotalPreorder(ByPreference)
  {
  }

  /** The gap carries a non-empty label. */
  predicate HasLabel(g: Gap) {
    g.adjacentTo.Some? && |g.adjacentTo.value| > 0
  }

  /** Strictly preferred: labelled where the other is not, or alike and earlier. */
  predicate Prefers(a: Gap, b: Gap) {
    if HasLabel(a) == HasLabel(b) then a.start < b.start else HasLabel(a)
  }

  /** Long enough for the goal's minutes, and given to no earlier goal. */
  predicate Suits(g: Gap, goal: Goal, taken: seq<Gap>) {
    g.start + goal.durationMin * 60_000 <= g.end && g !in taken
  }

  lemma DifferentStarts(gaps: seq<Gap>, a: Gap, b: Gap)
    requires Disjoint(gaps) && a in gaps && b in gaps && a != b && ByPreference(a, b)
    ensures Prefers(a, b)
  {
    DifferentGapsApart(gaps, a, b);
  }

  lemma FirstIsPreferred(ordered: seq<Gap>, goal: Goal, taken: seq<Gap>, gap: Gap, other: Gap)
    requires Disjoint(ordered) && Ordered(ByPreference, ordered)
    requires IsFirst(ordered, goal, taken, Some(gap)) && other in ordered && other != gap && Usable(other, goal, taken)
    ensures Prefers(gap, other)
  {
    var i: nat :| IsFirstAt(ordered, goal, taken, gap, i);
    var j :| 0 <= j < |ordered| && ordered[j] == other;
    assert i < j;
    assert ByPreference(ordered[i], ordered[j]);
    DifferentStarts(ordered, gap, other);
  }

  /** What the finder hands the allocator: the gaps in order of preference, disjoint. */
  lemma OrderedByPreference(busy: seq<BusyBlock>, rangeStart: Instant, rangeEnd: Instant, buffer: int)
    requires Proper(busy) && buffer >= 0
    ensures var gaps := Gaps(busy, rangeStart, rangeEnd, buffer);
      var ordered := Sort(ByPreference, gaps);
      Disjoint(ordered) && Ordered(ByPreference, ordered) && forall g :: g in ordered <==> g in gaps
  {
    OrderedDisjoint(busy, rangeStart, rangeEnd, buffer);
    PreferencePreorder();
    SortOrdered(ByPreference, Gaps(busy, rangeStart, rangeEnd, buffer));
    SortMembers(ByPreference, Gaps(busy, rangeStart, rangeEnd, buffer));
  }

  /** The goal's minutes from the start of the gap. */
  function WindowAt(goal: Goal, gap: Gap): Window {
    Window(goal.id, gap.start, gap.start + goal.durationMin * 60_000)
  }

  lemma WindowOfChoice(c: Choice, w: Window)
    ensures WindowFor()(c) == Some(w) <==> c.gap.Some? && w == WindowAt(c.goal, c.gap.value)
  {
  }

  /** The suggestions are the windows of the served goals: the goal's minutes from the start of its gap. */
  lemma WindowsAreTheServed(
      memberId: Id, goals: seq<Goal>, busy: seq<BusyBlock>, rangeStart: Instant, rangeEnd: Instant, buffer: int,
      w: Window)
    ensures var plan := Chosen(memberId, goals, busy, rangeStart, rangeEnd, buffer);
      w in Suggested(memberId, goals, busy, rangeStart, rangeEnd, buffer) <==>
        exists k :: 0 <= k < |plan| && plan[k].gap.Some? && w == WindowAt(plan[k].goal, plan[k].gap.value)
  {
    var plan := Chosen(memberId, goals, busy, rangeStart, rangeEnd, buffer);
    SortMembers(ByWindowStart, Collect(WindowFor(), plan));
    CollectMembers(WindowFor(), plan, w);
    forall k | 0 <= k < |plan|
      ensures WindowFor()(plan[k]) == Some(w) <==>
        plan[k].gap.Some? && w == WindowAt(plan[k].goal, plan[k].gap.value)
    {
      WindowOfChoice(plan[k], w);
    }
  }

  /** The gap suits the goal and is preferred to every other one that does; None if none does. */
  ghost predicate HasPreferred(gaps: seq<Gap>, goal: Goal, taken: seq<Gap>, gap: Option<Gap>) {
    match gap
    case None => forall h :: h in gaps ==> !Suits(h, goal, taken)
    case Some(g) =>
      && g in gaps && Suits(g, goal, taken)
      && forall h :: h in gaps && h != g && Suits(h, goal, taken) ==> Prefers(g, h)
  }

  lemma SamePreferred(s: seq<Gap>, t: seq<Gap>, goal: Goal, taken: seq<Gap>, gap: Option<Gap>)
    requires HasPreferred(s, goal, taken, gap) && forall g :: g in s <==> g in t
    ensures HasPreferred(t, goal, taken, gap)
  {
  }

  /** In a first-fit plan over gaps in order of preference a goal has the most preferred gap that suits it. */
  lemma PlanPrefers(goals: seq<Goal>, memberId: Id, ordered: seq<Gap>, k: nat)
    requires Disjoint(ordered) && Ordered(ByPreference, ordered)
    requires k < |goals| && goals[k].memberId == memberId
    ensures var plan := Plan(goals, memberId, ordered);
      HasPreferred(ordered, goals[k], Taken(plan[..k]), plan[k].gap)
  {
    PlanIsFirstFit(goals, memberId, ordered);
    var plan := Plan(goals, memberId, ordered);
    var taken := Taken(plan[..k]);
    if plan[k].gap.Some? {
      var g := plan[k].gap.value;
      var i: nat :| IsFirstAt(ordered, goals[k], taken, g, i);
      assert ordered[i] in ordered;
      forall h | h in ordered && h != g && Suits(h, goals[k], taken) ensures Prefers(g, h) {
        FirstIsPreferred(ordered, goals[k], taken, g, h);
      }
    }
  }

  lemma ServedWindow(
      memberId: Id, goals: seq<Goal>, busy: seq<BusyBlock>, rangeStart: Instant, rangeEnd: Instant, buffer: int, k: nat,
      gap: Gap)
    requires k < |goals|
    requires Chosen(memberId, goals, busy, rangeStart, rangeEnd, buffer)[k] == Choice(goals[k], Some(gap))
    ensures WindowAt(goals[k], gap) in Suggested(memberId, goals, busy, rangeStart, rangeEnd, buffer)
  {
    WindowsAreTheServed(memberId, goals, busy, rangeStart, rangeEnd, buffer, WindowAt(goals[k], gap));
  }

  /**
   * First fit over the free time: a served goal has a free gap that is long enough, that no earlier goal was given
   * and that is preferred to every other such gap, and its minutes from the start of that gap are suggested; for an
   * unserved goal of the member there is no such gap.
   */
  lemma ServedByPreference(
      memberId: Id, goals: seq<Goal>, busy: seq<BusyBlock>, rangeStart: Instant, rangeEnd: Instant, buffer: int, k: nat)
    requires Proper(busy) && buffer >= 0 && forall g :: g in goals ==> g.durationMin > 0
    requires k < |goals| && goals[k].memberId == memberId
    ensures var plan := Chosen(memberId, goals, busy, rangeStart, rangeEnd, buffer);
      && plan[k].goal == goals[k]
      && HasPreferred(Gaps(busy, rangeStart, rangeEnd, buffer), goals[k], Taken(plan[..k]), plan[k].gap)
      && (plan[k].gap.Some? ==>
            WindowAt(goals[k], plan[k].gap.value) in Suggested(memberId, goals, busy, rangeStart, rangeEnd, buffer))
  {
    var ordered := Sort(ByPreference, Gaps(busy, rangeStart, rangeEnd, buffer));
    OrderedByPreference(busy, rangeStart, rangeEnd, buffer);
    AllocationIsPlan(goals, memberId, ordered);
    PlanIsFirstFit(goals, memberId, ordered);
    PlanPrefers(goals, memberId, ordered, k);
    var plan := Plan(goals, memberId, ordered);
    SamePreferred(ordered, Gaps(busy, rangeStart, rangeEnd, buffer), goals[k], Taken(plan[..k]), plan[k].gap);
    if plan[k].gap.Some? {
      ServedWindow(memberId, goals, busy, rangeStart, rangeEnd, buffer, k, plan[k].gap.value);
    }
  }

  /** A goal of the member left without a window is longer than every free gap that no earlier goal was given. */
  lemma UnservedGoalsDoNotFit(
      memberId: Id, goals: seq<Goal>, busy: seq<BusyBlock>, rangeStart: Instant, rangeEnd: Instant, buffer: int,
      k: nat, gap: Gap)
    requires Proper(busy) && buffer >= 0 && forall g :: g in goals ==> g.durationMin > 0
    requires var plan := Chosen(memberId, goals, busy, rangeStart, rangeEnd, buffer);
      && k < |goals| && goals[k].memberId == memberId && plan[k].gap.None?
      && gap in Gaps(busy, rangeStart, rangeEnd, buffer) && gap !in Taken(plan[..k])
    ensures gap.end - gap.start < goals[k].durationMin * 60_000
  {
    ServedByPreference(memberId, goals, busy, rangeStart, rangeEnd, buffer, k);
  }

  // ---------- what the windows are ----------

  predicate ApartWindows(a: Window, b: Window) {
    a.endsAt <= b.startsAt || b.endsAt <= a.startsAt
  }

  /** The window lies at the start of the gap. */
  predicate Placed(w: Window, c: Choice) {
    c.gap.Some? && w == Window(c.goal.id, c.gap.value.start, c.gap.value.start + Need(c.goal))
  }

  /** A choice of the plan: a goal of the member and an untaken gap that is long enough. */
  ghost predicate Sound(c: Choice, goals: seq<Goal>, memberId: Id, ordered: seq<Gap>) {
    && c.goal in goals
    && (c.gap.Some? ==> c.goal.memberId == memberId && c.gap.value in ordered && Fits(c.gap.value, c.goal))
  }

  lemma {:induction false} PlanIsSound(goals: seq<Goal>, memberId: Id, ordered: seq<Gap>)
    ensures forall c :: c in Plan(goals, memberId, ordered) ==> Sound(c, goals, memberId, ordered)
  {
    if goals != [] {
      var n := |goals| - 1;
      PlanIsSound(goals[..n], memberId, ordered);
      assert forall g :: g in goals[..n] ==> g in goals;
    }
  }

  /** Every window was placed by some choice of the plan, whose gap is then taken. */
  lemma WindowsPlaced(plan: seq<Choice>, w: Window) returns (c: Choice)
    requires w in Collect(WindowFor(), plan)
    ensures c in plan && Placed(w, c) && c.gap.value in Taken(plan)
  {
    CollectMembers(WindowFor(), plan, w);
    var k :| 0 <= k < |plan| && WindowFor()(plan[k]) == Some(w);
    c := plan[k];
    CollectMembers(GapOf(), plan, c.gap.value);
    assert GapOf()(plan[k]) == c.gap;
  }

  lemma PlacedApart(ordered: seq<Gap>, v: Window, c: Choice, w: Window, d: Choice)
    requires Disjoint(ordered) && Placed(v, c) && Placed(w, d) && c.gap != d.gap
    requires c.gap.value in ordered && d.gap.value in ordered && Fits(c.gap.value, c.goal) && Fits(d.gap.value, d.goal)
    ensures ApartWindows(v, w)
  {
    DifferentGapsApart(ordered, c.gap.value, d.gap.value);
  }

  lemma {:induction false} WindowsApart(goals: seq<Goal>, memberId: Id, ordered: seq<Gap>)
    requires Disjoint(ordered)
    ensures Pairwise(ApartWindows, Collect(WindowFor(), Plan(goals, memberId, ordered)))
  {
    if goals != [] {
      var n := |goals| - 1;
      WindowsApart(goals[..n], memberId, ordered);
      PlanStep(goals, memberId, ordered, n);
      assert goals[..n + 1] == goals;
      var before := Plan(goals[..n], memberId, ordered);
      var choice := ChoiceFor(goals[n], memberId, ordered, Taken(before));
      if choice.gap.Some? {
        NewWindowApart(goals[..n], memberId, ordered, choice, WindowFor()(choice).value);
        PairwiseSnoc(ApartWindows, Collect(WindowFor(), before), WindowFor()(choice).value);
      } else {
        assert Collect(WindowFor(), before) + [] == Collect(WindowFor(), before);
      }
    }
  }

  lemma NewWindowApart(goals: seq<Goal>, memberId: Id, ordered: seq<Gap>, choice: Choice, w: Window)
    requires Disjoint(ordered) && Placed(w, choice)
    requires choice == ChoiceFor(choice.goal, memberId, ordered, Taken(Plan(goals, memberId, ordered)))
    ensures forall v :: v in Collect(WindowFor(), Plan(goals, memberId, ordered)) ==> ApartWindows(v, w)
  {
    var plan := Plan(goals, memberId, ordered);
    PlanIsSound(goals, memberId, ordered);
    forall v | v in Collect(WindowFor(), plan) ensures ApartWindows(v, w) {
      var c := WindowsPlaced(plan, v);
      PlacedApart(ordered, v, c, w, choice);
    }
  }

  predicate OtherGoal(a: Window, b: Window) {
    a.goalId != b.goalId
  }

  ghost predicate DistinctGoals(goals: seq<Goal>) {
    forall i, j :: 0 <= i < j < |goals| ==> goals[i].id != goals[j].id
  }

  lemma {:induction false} OneWindowEach(goals: seq<Goal>, memberId: Id, ordered: seq<Gap>)
    requires DistinctGoals(goals)
    ensures Pairwise(OtherGoal, Collect(WindowFor(), Plan(goals, memberId, ordered)))
  {
    if goals != [] {
      var n := |goals| - 1;
      var before := Plan(goals[..n], memberId, ordered);
      OneWindowEach(goals[..n], memberId, ordered);
      PlanStep(goals, memberId, ordered, n);
      assert goals[..n + 1] == goals;
      var choice := ChoiceFor(goals[n], memberId, ordered, Taken(before));
      if choice.gap.Some? {
        WindowOfEarlierGoal(goals, memberId, ordered, n);
        PairwiseSnoc(OtherGoal, Collect(WindowFor(), before), WindowFor()(choice).value);
      } else {
        assert Collect(WindowFor(), before) + [] == Collect(WindowFor(), before);
      }
    }
  }

  lemma WindowOfEarlierGoal(goals: seq<Goal>, memberId: Id, ordered: seq<Gap>, n: nat)
    requires DistinctGoals(goals) && n < |goals|
    ensures forall v :: v in Collect(WindowFor(), Plan(goals[..n], memberId, ordered)) ==> v.goalId != goals[n].id
  {
    var before := Plan(goals[..n], memberId, ordered);
    PlanIsSound(goals[..n], memberId, ordered);
    forall v | v in Collect(WindowFor(), before) ensures v.goalId != goals[n].id {
      var c := WindowsPlaced(before, v);
      var i :| 0 <= i < n && goals[..n][i] == c.goal;
    }
  }

  /** With distinct goal ids no two windows serve the same goal. */
  lemma WindowsServeDifferentGoals(
      memberId: Id, goals: seq<Goal>, busy: seq<BusyBlock>, rangeStart: Instant, rangeEnd: Instant, buffer: int)
    requires Proper(busy) && buffer >= 0 && forall g :: g in goals ==> g.durationMin > 0
    requires DistinctGoals(goals)
    ensures Pairwise(OtherGoal, Suggested(memberId, goals, busy, rangeStart, rangeEnd, buffer))
  {
    var ordered := Sort(ByPreference, Gaps(busy, rangeStart, rangeEnd, buffer));
    OrderedDisjoint(busy, rangeStart, rangeEnd, buffer);
    AllocationIsPlan(goals, memberId, ordered);
    OneWindowEach(goals, memberId, ordered);
    var unsorted := Collect(WindowFor(), Plan(goals, memberId, ordered));
    PairwisePermuted(OtherGoal, unsorted, Sort(ByWindowStart, unsorted));
  }

  /** The window lasts the minutes of its goal, which is one of the member's. */
  predicate HasDurationOf(w: Window, memberId: Id, goals: seq<Goal>) {
    exists g ::
      g in goals && g.memberId == memberId && g.id == w.goalId && w.endsAt - w.startsAt == g.durationMin * 60_000
  }

  ghost predicate IsSafe(
      w: Window, memberId: Id, goals: seq<Goal>, busy: seq<BusyBlock>, rangeStart: Instant, rangeEnd: Instant)
  {
    && rangeStart <= w.startsAt < w.endsAt <= rangeEnd
    && HasDurationOf(w, memberId, goals)
    && forall b :: b in busy ==> w.endsAt <= b.startsAt || b.endsAt <= w.startsAt
  }

  lemma WindowInGap(busy: seq<BusyBlock>, rangeStart: Instant, rangeEnd: Instant, buffer: int, gap: Gap, w: Window)
    requires Proper(busy) && buffer >= 0
    requires gap in Sort(ByPreference, Gaps(busy, rangeStart, rangeEnd, buffer))
    requires gap.start == w.startsAt < w.endsAt <= gap.end
    ensures rangeStart <= w.startsAt && w.endsAt <= rangeEnd
    ensures forall b :: b in busy ==> w.endsAt <= b.startsAt || b.endsAt <= w.startsAt
  {
    var gaps := Gaps(busy, rangeStart, rangeEnd, buffer);
    var blocks := BlocksIn(busy, rangeStart, rangeEnd);
    SortMembers(ByPreference, gaps);
    GapsAreTheFreeTime(busy, rangeStart, rangeEnd, buffer, 0);
    BlocksSweepable(busy, rangeStart, rangeEnd, buffer);
    GapsClear(rangeStart, blocks, buffer, rangeEnd, LastLabel(blocks));
  }

  /** A placed window is safe: its gap is free, and holds the goal's minutes. */
  lemma PlacedIsSafe(
      memberId: Id, goals: seq<Goal>, busy: seq<BusyBlock>, rangeStart: Instant, rangeEnd: Instant, buffer: int,
      ordered: seq<Gap>, c: Choice, w: Window)
    requires Proper(busy) && buffer >= 0 && Placed(w, c) && c.goal.durationMin > 0
    requires ordered == Sort(ByPreference, Gaps(busy, rangeStart, rangeEnd, buffer))
    requires Sound(c, goals, memberId, ordered)
    ensures IsSafe(w, memberId, goals, busy, rangeStart, rangeEnd)
  {
    WindowInGap(busy, rangeStart, rangeEnd, buffer, c.gap.value, w);
  }

  lemma PlannedAreSafe(
      memberId: Id, goals: seq<Goal>, busy: seq<BusyBlock>, rangeStart: Instant, rangeEnd: Instant, buffer: int,
      ordered: seq<Gap>)
    requires Proper(busy) && buffer >= 0 && forall g :: g in goals ==> g.durationMin > 0
    requires ordered == Sort(ByPreference, Gaps(busy, rangeStart, rangeEnd, buffer))
    ensures forall w :: w in Collect(WindowFor(), Plan(goals, memberId, ordered)) ==>
      IsSafe(w, memberId, goals, busy, rangeStart, rangeEnd)
  {
    var plan := Plan(goals, memberId, ordered);
    PlanIsSound(goals, memberId, ordered);
    forall w | w in Collect(WindowFor(), plan) ensures IsSafe(w, memberId, goals, busy, rangeStart, rangeEnd) {
      var c := WindowsPlaced(plan, w);
      assert Sound(c, goals, memberId, ordered);
      PlacedIsSafe(memberId, goals, busy, rangeStart, rangeEnd, buffer, ordered, c, w);
    }
  }

  /**
   * The suggested windows are pairwise disjoint and in order, no more than there are goals; each has the duration of
   * a goal of the member, stays inside the range and misses every busy block, also those the scan had filtered out.
   */
  lemma SuggestionsAreSafe(
      memberId: Id, goals: seq<Goal>, busy: seq<BusyBlock>, rangeStart: Instant, rangeEnd: Instant, buffer: int)
    requires Proper(busy) && buffer >= 0 && forall g :: g in goals ==> g.durationMin > 0
    ensures var ws := Suggested(memberId, goals, busy, rangeStart, rangeEnd, buffer);
      && |ws| <= |goals|
      && (forall i, j :: 0 <= i < j < |ws| ==> ws[i].endsAt <= ws[j].startsAt)
      && forall w :: w in ws ==> IsSafe(w, memberId, goals, busy, rangeStart, rangeEnd)
  {
    var ordered := Sort(ByPreference, Gaps(busy, rangeStart, rangeEnd, buffer));
    var unsorted := Collect(WindowFor(), Plan(goals, memberId, ordered));
    OrderedDisjoint(busy, rangeStart, rangeEnd, buffer);
    AllocationIsPlan(goals, memberId, ordered);
    WindowsApart(goals, memberId, ordered);
    SortMembers(ByWindowStart, unsorted);
    SortOrdered(ByWindowStart, unsorted);
    PairwisePermuted(ApartWindows, unsorted, Sort(ByWindowStart, unsorted));
    PlannedAreSafe(memberId, goals, busy, rangeStart, rangeEnd, buffer, ordered);
    var ws := Suggested(memberId, goals, busy, rangeStart, rangeEnd, buffer);
    forall i, j | 0 <= i < j < |ws| ensures ws[i].endsAt <= ws[j].startsAt {
      assert ws[i] in ws && ws[j] in ws && ByWindowStart(ws[i], ws[j]) && ApartWindows(ws[i], ws[j]);
    }
  }
}
