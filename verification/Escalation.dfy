/** The core escalation engine: claiming an event and deciding a critical override. */
module Escalation {
  import opened Base
  import opened Household

  const CRITICAL_OVERRIDE_MINUTES: int := 20
  const BROADCAST_AFTER_MINUTES: int := 10

  datatype EscalationEvent = EscalationEvent(
    household: Id,
    taskId: Id,
    tier: nat,
    deadline: Instant,
    createdAt: Instant,
    broadcastAt: Option<Instant>,
    claimedBy: Option<Id>,
    resolvedAt: Option<Instant>)

  datatype ClaimResult = ClaimResult(event: EscalationEvent, ok: bool)

  /** Claims an event unless it already has a claimant or a resolution time. */
  function Claim(event: EscalationEvent, memberId: Id, now: Instant): ClaimResult {
    if event.resolvedAt.Some? || event.claimedBy.Some? then ClaimResult(event, false)
    else ClaimResult(event.(claimedBy := Some(memberId), resolvedAt := Some(now)), true)
  }

  /** `decideCriticalOverride(...).override`. */
  predicate Overrides(event: EscalationEvent, now: Instant) {
    && event.claimedBy.None? && event.resolvedAt.None?
    && DiffMinutes(event.deadline, now) <= CRITICAL_OVERRIDE_MINUTES
  }

  datatype CascadeMode = Offer | Broadcast

  function ClassifyUrgencyCascade(urgency: Urgency): CascadeMode {
    match urgency
    case High => Broadcast
    case Critical => Broadcast
    case Med => Offer
    case Low => Offer
  }

  /** The first claim of an event records claimant and time and nothing else; any other claim changes nothing. */
  lemma ClaimOnce(event: EscalationEvent, memberId: Id, now: Instant, other: Id, later: Instant)
    ensures var r := Claim(event, memberId, now);
      && (r.ok <==> event.claimedBy.None? && event.resolvedAt.None?)
      && r.event == (if r.ok then event.(claimedBy := Some(memberId), resolvedAt := Some(now)) else event)
      && Claim(r.event, other, later) == ClaimResult(r.event, false)
  {
  }

  /** Because minutes are floored, the override window is every instant less than 21 minutes before the deadline. */
  lemma OverrideWindow(event: EscalationEvent, now: Instant)
    ensures Overrides(event, now) <==>
      event.claimedBy.None? && event.resolvedAt.None? && event.deadline - now < 1_260_000
  {
    var d := event.deadline - now;
    assert d == MINUTE * (d / MINUTE) + d % MINUTE;
  }

  /** Nobody has taken the event on and its deadline is less than twenty-one minutes away, or past. */
  predicate InOverrideWindow(event: EscalationEvent, now: Instant)
    ensures InOverrideWindow(event, now) <==> Overrides(event, now)
  {
    OverrideWindow(event, now);
    event.claimedBy.None? && event.resolvedAt.None? && event.deadline - now < 1_260_000
  }
}
