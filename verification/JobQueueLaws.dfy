/** What every run of the in-memory job queue keeps. */
module JobQueueLaws {
  import opened Base
  import opened Decimal
  import opened JobQueue

  predicate Legal(s: State, cs: seq<Call>)
    decreases |cs|
  {
    cs == [] || (Enabled(s, cs[0]) && Legal(Apply(s, cs[0]), cs[1..]))
  }

  function Run(s: State, cs: seq<Call>): State
    requires Legal(s, cs)
    decreases |cs|
  {
    if cs == [] then s else Run(Apply(s, cs[0]), cs[1..])
  }

  // ---------- repeat keys ----------

  /** The key is one that the counter has produced at or below `hi` and above `lo`. */
  ghost predicate Issued(key: string, lo: nat, hi: nat) {
    exists name: string, n: nat :: lo < n <= hi && key == RepeatKey(name, n)
  }

  /** Whatever the names hold, keys made from different counter values differ. */
  lemma KeysDiffer(name: string, n: nat, name': string, n': nat)
    requires n != n'
    ensures RepeatKey(name, n) != RepeatKey(name', n')
  {
    if RepeatKey(name, n) == RepeatKey(name', n') {
      NumeralSuffix(name + "#", n, name' + "#", n');
    }
  }

  lemma NewKeyDiffers(key: string, lo: nat, hi: nat, name: string, n: nat)
    requires Issued(key, lo, hi) && (n <= lo || hi < n)
    ensures key != RepeatKey(name, n)
  {
    var name', n' :| lo < n' <= hi && key == RepeatKey(name', n');
    KeysDiffer(name', n', name, n);
  }

  predicate Schedules(c: Call) {
    c.Enqueue? || (c.Repeat? && c.everyMs.Some?)
  }

  /** The keys returned along a run. */
  function KeysIn(s: State, cs: seq<Call>): seq<string>
    requires Legal(s, cs)
    decreases |cs|
  {
    if cs == [] then []
    else
      var rest := KeysIn(Apply(s, cs[0]), cs[1..]);
      if cs[0].Repeat? && Schedules(cs[0]) then [RepeatKey(cs[0].name, s.counter + 1)] + rest else rest
  }

  lemma {:induction false} KeysAreAbove(s: State, cs: seq<Call>)
    requires Legal(s, cs)
    ensures Run(s, cs).counter >= s.counter
    ensures forall k :: k in KeysIn(s, cs) ==> Issued(k, s.counter, Run(s, cs).counter)
    decreases |cs|
  {
    if cs != [] {
      var s' := Apply(s, cs[0]);
      KeysAreAbove(s', cs[1..]);
      forall k | k in KeysIn(s, cs) ensures Issued(k, s.counter, Run(s, cs).counter) {
        if k in KeysIn(s', cs[1..]) {
          var name, n: nat :| s'.counter < n <= Run(s', cs[1..]).counter && k == RepeatKey(name, n);
          assert s.counter < n <= Run(s, cs).counter;
        } else {
          assert k == RepeatKey(cs[0].name, s.counter + 1);
        }
      }
    }
  }

  /** No two calls of `repeat` along a run return the same key. */
  lemma {:induction false} RepeatKeysNeverCollide(s: State, cs: seq<Call>)
    requires Legal(s, cs)
    ensures forall i, j :: 0 <= i < j < |KeysIn(s, cs)| ==> KeysIn(s, cs)[i] != KeysIn(s, cs)[j]
    decreases |cs|
  {
    if cs != [] {
      var s' := Apply(s, cs[0]);
      var rest := KeysIn(s', cs[1..]);
      RepeatKeysNeverCollide(s', cs[1..]);
      if cs[0].Repeat? && Schedules(cs[0]) {
        KeysAreAbove(s', cs[1..]);
        forall j | 0 <= j < |rest| ensures rest[j] != RepeatKey(cs[0].name, s.counter + 1) {
          assert rest[j] in rest;
          NewKeyDiffers(rest[j], s'.counter, Run(s', cs[1..]).counter, cs[0].name, s.counter + 1);
        }
      }
    }
  }

  // ---------- the queue tracks exactly the live timers ----------

  /** Every tracked timer is live and of its kind, and every live timer is tracked. */
  ghost predicate Tracked(s: State) {
    && (forall t :: t in s.live ==> t < s.next)
    && (forall t :: t in s.timeouts <==> t in s.live && !s.live[t].repeats)
    && (forall k :: k in s.intervals ==> s.intervals[k] in s.live && s.live[s.intervals[k]].repeats)
    && (forall t :: t in s.live && s.live[t].repeats ==> t in s.intervals.Values)
  }

  /** Different keys name different timers, and every key was issued. */
  ghost predicate KeyedApart(s: State) {
    && (forall k, k' :: k in s.intervals && k' in s.intervals && k != k' ==> s.intervals[k] != s.intervals[k'])
    && (forall k :: k in s.intervals ==> Issued(k, 0, s.counter))
  }

  ghost predicate Consistent(s: State) {
    Tracked(s) && KeyedApart(s)
  }

  /** A repeat call's key is new, so no interval is overwritten. */
  lemma RepeatKeyIsNew(s: State, name: string)
    requires KeyedApart(s)
    ensures RepeatKey(name, s.counter + 1) !in s.intervals
  {
    if RepeatKey(name, s.counter + 1) in s.intervals {
      NewKeyDiffers(RepeatKey(name, s.counter + 1), 0, s.counter, name, s.counter + 1);
    }
  }

  lemma ValuesGrow(m: map<string, TimerId>, key: string, t: TimerId)
    requires key !in m
    ensures m[key := t].Values == m.Values + {t}
  {
    assert m[key := t][key] == t;
    forall v | v in m.Values ensures v in m[key := t].Values {
      var k :| k in m && m[k] == v;
      assert m[key := t][k] == v;
    }
  }

  lemma RepeatTracked(s: State, c: Call)
    requires Consistent(s) && c.Repeat? && c.everyMs.Some?
    ensures Tracked(Apply(s, c))
  {
    RepeatKeyIsNew(s, c.name);
    ValuesGrow(s.intervals, RepeatKey(c.name, s.counter + 1), s.next);
  }

  lemma RepeatKeyedApart(s: State, c: Call)
    requires Consistent(s) && c.Repeat? && c.everyMs.Some?
    ensures KeyedApart(Apply(s, c))
  {
    var key := RepeatKey(c.name, s.counter + 1);
    var s' := Apply(s, c);
    RepeatKeyIsNew(s, c.name);
    forall k | k in s'.intervals ensures Issued(k, 0, s'.counter) {
      if k != key {
        var name, n: nat :| 0 < n <= s.counter && k == RepeatKey(name, n);
        assert 0 < n <= s'.counter;
      }
    }
  }

  lemma RemoveConsistent(s: State, c: Call)
    requires Consistent(s) && c.RemoveRepeatable?
    ensures Consistent(Apply(s, c))
  {
    var s' := Apply(s, c);
    if c.key in s.intervals {
      forall t | t in s'.live && s'.live[t].repeats ensures t in s'.intervals.Values {
        var k :| k in s.intervals && s.intervals[k] == t;
        assert k != c.key && s'.intervals[k] == t;
      }
    }
  }

  lemma CloseClears(s: State)
    requires Tracked(s)
    ensures Apply(s, Close).live == map[]
  {
    var s' := Apply(s, Close);
    forall t ensures t !in s'.live {
      if t in s.live {
        assert t in s.timeouts || t in s.intervals.Values;
      }
    }
  }

  lemma FireConsistent(s: State, c: Call)
    requires Consistent(s) && c.Fire? && Enabled(s, c)
    ensures Consistent(Apply(s, c))
  {
    var s' := Apply(s, c);
    if !s.live[c.timer].repeats {
      forall t | t in s'.live && s'.live[t].repeats ensures t in s'.intervals.Values {
        assert s.live[t].repeats;
      }
    }
  }

  lemma EnqueueConsistent(s: State, c: Call)
    requires Consistent(s) && c.Enqueue?
    ensures Consistent(Apply(s, c))
  {
  }

  lemma StepConsistent(s: State, c: Call)
    requires Consistent(s) && Enabled(s, c)
    ensures Consistent(Apply(s, c))
  {
    match c
    case Register(_, _) =>
    case Enqueue(_, _, _) => EnqueueConsistent(s, c);
    case Repeat(_, _, everyMs) =>
      if everyMs.Some? {
        RepeatTracked(s, c);
        RepeatKeyedApart(s, c);
      }
    case RemoveRepeatable(_) => RemoveConsistent(s, c);
    case Close => CloseClears(s);
    case Fire(_) => FireConsistent(s, c);
  }

  /**
   * In every state reached from a fresh queue the live timers are exactly the tracked ones, different keys name
   * different timers, and closing the queue leaves no timer behind.
   */
  lemma {:induction false} RunConsistent(s: State, cs: seq<Call>)
    requires Consistent(s) && Legal(s, cs)
    ensures Consistent(Run(s, cs))
    ensures Apply(Run(s, cs), Close).live == map[]
    decreases |cs|
  {
    if cs == [] {
      CloseClears(s);
    } else {
      StepConsistent(s, cs[0]);
      RunConsistent(Apply(s, cs[0]), cs[1..]);
    }
  }

  lemma FreshIsConsistent()
    ensures Consistent(FRESH)
  {
  }

  /** Removing a key stops its timer and leaves the timer of every other key alive. */
  lemma RemoveStopsOnlyItsTimer(s: State, key: string, other: string)
    requires Consistent(s) && key in s.intervals && other in s.intervals && other != key
    ensures var s' := Apply(s, RemoveRepeatable(key));
      && s.intervals[key] !in s'.live
      && other in s'.intervals && s'.intervals[other] == s.intervals[other] && s.intervals[other] in s'.live
      && s'.timeouts == s.timeouts
  {
  }

  // ---------- conservation of one-shot jobs ----------

  function EnqueuedIn(s: State, cs: seq<Call>): nat
    requires Legal(s, cs)
    decreases |cs|
  {
    if cs == [] then 0 else (if cs[0].Enqueue? then 1 else 0) + EnqueuedIn(Apply(s, cs[0]), cs[1..])
  }

  function FiredIn(s: State, cs: seq<Call>): nat
    requires Legal(s, cs)
    decreases |cs|
  {
    if cs == [] then 0
    else (if cs[0].Fire? && !s.live[cs[0].timer].repeats then 1 else 0) + FiredIn(Apply(s, cs[0]), cs[1..])
  }

  /** One-shot jobs still pending when the queue is closed. */
  function CancelledIn(s: State, cs: seq<Call>): nat
    requires Legal(s, cs)
    decreases |cs|
  {
    if cs == [] then 0 else (if cs[0].Close? then |s.timeouts| else 0) + CancelledIn(Apply(s, cs[0]), cs[1..])
  }

  lemma PendingStep(s: State, c: Call)
    requires Tracked(s) && Enabled(s, c)
    ensures |s.timeouts| + (if c.Enqueue? then 1 else 0) ==
      |Apply(s, c).timeouts|
      + (if c.Fire? && !s.live[c.timer].repeats then 1 else 0)
      + (if c.Close? then |s.timeouts| else 0)
  {
    if c.Enqueue? {
      assert s.next !in s.timeouts;
    }
  }

  /** Along any run, pending and enqueued one-shots are the fired, the cancelled and the still pending ones. */
  lemma {:induction false} OneShotsConserved(s: State, cs: seq<Call>)
    requires Consistent(s) && Legal(s, cs)
    ensures |s.timeouts| + EnqueuedIn(s, cs) == FiredIn(s, cs) + |Run(s, cs).timeouts| + CancelledIn(s, cs)
    decreases |cs|
  {
    if cs != [] {
      PendingStep(s, cs[0]);
      StepConsistent(s, cs[0]);
      OneShotsConserved(Apply(s, cs[0]), cs[1..]);
    }
  }

  // ---------- dead timers stay silent ----------

  function FiresOf(s: State, cs: seq<Call>, t: TimerId): nat
    requires Legal(s, cs)
    decreases |cs|
  {
    if cs == [] then 0 else (if cs[0] == Fire(t) then 1 else 0) + FiresOf(Apply(s, cs[0]), cs[1..], t)
  }

  /** A timer that was handed out and is no longer live never fires again. */
  lemma {:induction false} DeadTimersStaySilent(s: State, cs: seq<Call>, t: TimerId)
    requires Legal(s, cs) && t < s.next && t !in s.live
    ensures FiresOf(s, cs, t) == 0 && t !in Run(s, cs).live
    decreases |cs|
  {
    if cs != [] {
      DeadTimersStaySilent(Apply(s, cs[0]), cs[1..], t);
    }
  }

  /** After its key has been removed a repeating job never fires again, whatever is scheduled afterwards. */
  lemma RemovedJobsStaySilent(s: State, key: string, cs: seq<Call>)
    requires Consistent(s) && key in s.intervals && Legal(Apply(s, RemoveRepeatable(key)), cs)
    ensures FiresOf(Apply(s, RemoveRepeatable(key)), cs, s.intervals[key]) == 0
  {
    DeadTimersStaySilent(Apply(s, RemoveRepeatable(key)), cs, s.intervals[key]);
  }

  /** A one-shot job fires at most once. */
  lemma {:induction false} OneShotsFireOnce(s: State, cs: seq<Call>, t: TimerId)
    requires Consistent(s) && Legal(s, cs) && t in s.live && !s.live[t].repeats
    ensures FiresOf(s, cs, t) <= 1
    ensures FiresOf(s, cs, t) == 1 ==> t !in Run(s, cs).live
    decreases |cs|
  {
    if cs != [] {
      var s' := Apply(s, cs[0]);
      StepConsistent(s, cs[0]);
      if t in s'.live {
        OneShotsFireOnce(s', cs[1..], t);
      } else {
        DeadTimersStaySilent(s', cs[1..], t);
      }
    }
  }

  /** While no timer is live and nothing is scheduled, nothing fires and nothing runs. */
  lemma {:induction false} NothingFires(s: State, cs: seq<Call>)
    requires Legal(s, cs) && s.live == map[] && forall c :: c in cs ==> !Schedules(c)
    ensures forall c :: c in cs ==> !c.Fire?
    ensures Run(s, cs).live == map[] && Run(s, cs).ran == s.ran
    decreases |cs|
  {
    if cs != [] {
      assert cs[0] in cs && forall c :: c in cs[1..] ==> c in cs;
      NothingFires(Apply(s, cs[0]), cs[1..]);
      assert forall c :: c in cs ==> c == cs[0] || c in cs[1..];
    }
  }

  /** After `close` nothing fires until a new job is scheduled. */
  lemma ClosedQueueIsSilent(s: State, cs: seq<Call>)
    requires Consistent(s) && Legal(Apply(s, Close), cs) && forall c :: c in cs ==> !Schedules(c)
    ensures forall c :: c in cs ==> !c.Fire?
    ensures Run(Apply(s, Close), cs).ran == s.ran
  {
    CloseClears(s);
    NothingFires(Apply(s, Close), cs);
  }

  // ---------- what a firing timer runs ----------

  /** The handler of the last registration of the name along a run; `before` if there is none. */
  function LastHandler(cs: seq<Call>, name: string, before: Option<Handler>): Option<Handler> {
    if cs == [] then before
    else
      var n := |cs| - 1;
      if cs[n].Register? && cs[n].name == name then Some(cs[n].handler) else LastHandler(cs[..n], name, before)
  }

  function HandlerOf(s: State, name: string): Option<Handler> {
    if name in s.handlers then Some(s.handlers[name]) else None
  }

  lemma {:induction false} LastHandlerCons(cs: seq<Call>, name: string, before: Option<Handler>)
    requires cs != []
    ensures LastHandler(cs, name, before) ==
      LastHandler(cs[1..], name, if cs[0].Register? && cs[0].name == name then Some(cs[0].handler) else before)
  {
    var n := |cs| - 1;
    if n == 0 {
      assert cs[1..] == [] && cs[..0] == [];
    } else {
      LastHandlerCons(cs[..n], name, before);
      assert cs[1..][..n - 1] == cs[..n][1..] && cs[1..][n - 1] == cs[n];
    }
  }

  /** Handlers are those registered last. */
  lemma {:induction false} HandlersAreLatest(s: State, cs: seq<Call>, name: string)
    requires Legal(s, cs)
    ensures HandlerOf(Run(s, cs), name) == LastHandler(cs, name, HandlerOf(s, name))
    decreases |cs|
  {
    if cs != [] {
      LastHandlerCons(cs, name, HandlerOf(s, name));
      HandlersAreLatest(Apply(s, cs[0]), cs[1..], name);
    }
  }

  /** A timer keeps the job it was started with. */
  lemma {:induction false} TimerKeepsJob(s: State, cs: seq<Call>, t: TimerId)
    requires Legal(s, cs) && t < s.next && t in s.live && t in Run(s, cs).live
    ensures Run(s, cs).live[t] == s.live[t]
    decreases |cs|
  {
    if cs != [] {
      if t in Apply(s, cs[0]).live {
        TimerKeepsJob(Apply(s, cs[0]), cs[1..], t);
      } else {
        DeadTimersStaySilent(Apply(s, cs[0]), cs[1..], t);
      }
    }
  }

  /** The job a call schedules: its name and payload, after no less than no time, or every so often. */
  predicate Carries(job: Job, c: Call)
    requires Schedules(c)
  {
    && job.name == c.name && job.payload == c.payload
    && match c
       case Enqueue(_, _, delayMs) =>
         && !job.repeats
         && (if delayMs.Some? && delayMs.value > 0 then job.delayMs == delayMs.value else job.delayMs == 0)
       case Repeat(_, _, everyMs) => job.repeats && everyMs == Some(job.delayMs)
  }

  lemma JobStarts(s: State, c: Call)
    requires Schedules(c)
    ensures s.next in Apply(s, c).live && Carries(Apply(s, c).live[s.next], c) && s.next < Apply(s, c).next
    ensures HandlerOf(Apply(s, c), c.name) == HandlerOf(s, c.name)
  {
  }

  /**
   * Whatever happens in between, a timer that fires runs the job it was started for: with that payload, through the
   * handler registered last for that name by then, or through none if there is none.
   */
  lemma ScheduledJobRuns(s: State, c: Call, cs: seq<Call>)
    requires Schedules(c) && Legal(Apply(s, c), cs) && s.next in Run(Apply(s, c), cs).live
    ensures var s' := Run(Apply(s, c), cs);
      && Carries(s'.live[s.next], c)
      && Apply(s', Fire(s.next)).ran == s'.ran +
           match LastHandler(cs, c.name, HandlerOf(s, c.name))
           case Some(handler) => [Ran(handler, c.payload)]
           case None => []
  {
    JobStarts(s, c);
    TimerKeepsJob(Apply(s, c), cs, s.next);
    HandlersAreLatest(Apply(s, c), cs, c.name);
  }
}
