/** The in-memory job queue: one-shot and repeating jobs on the host's timers. */
module JobQueue {
  import opened Base
  import opened Decimal

  type TimerId = nat

  type Handler = nat

  /** What a timer runs when it fires. */
  datatype Job = Job(name: string, payload: string, repeats: bool, delayMs: int)

  datatype Ran = Ran(handler: Handler, payload: string)

  /**
   * The queue's fields, the timers the host holds for it (`live`, and the next fresh timer id), and the handler
   * invocations so far.
   */
  datatype State = State(
    handlers: map<string, Handler>,
    timeouts: set<TimerId>,
    intervals: map<string, TimerId>,
    counter: nat,
    live: map<TimerId, Job>,
    next: TimerId,
    ran: seq<Ran>)

  const FRESH := State(map[], {}, map[], 0, map[], 0, [])

  /** Calls of the queue's methods, and the host firing a timer. */
  datatype Call =
    | Register(name: string, handler: Handler)
    | Enqueue(name: string, payload: string, delayMs: Option<int>)
    | Repeat(name: string, payload: string, everyMs: Option<int>)
    | RemoveRepeatable(key: string)
    | Close
    | Fire(timer: TimerId)

  function RepeatKey(name: string, n: nat): string {
    name + "#" + Numeral(n)
  }

  /** `run`: the handler registered for the name at this moment, if any. */
  function RunJob(s: State, job: Job): State {
    if job.name in s.handlers then s.(ran := s.ran + [Ran(s.handlers[job.name], job.payload)]) else s
  }

  function StartTimer(s: State, job: Job): State {
    s.(live := s.live[s.next := job], next := s.next + 1)
  }

  /** The host fires live timers only, in an order this model leaves open. */
  predicate Enabled(s: State, c: Call) {
    c.Fire? ==> c.timer in s.live
  }

  function Apply(s: State, c: Call): State
    requires Enabled(s, c)
  {
    match c
    case Register(name, handler) => s.(handlers := s.handlers[name := handler])
    case Enqueue(name, payload, delayMs) =>
      var delay := Max(0, if delayMs.Some? then delayMs.value else 0);
      StartTimer(s, Job(name, payload, false, delay)).(timeouts := s.timeouts + {s.next})
    case Repeat(name, payload, everyMs) =>
      if everyMs.None? then s
      else
        StartTimer(s, Job(name, payload, true, everyMs.value)).(
          counter := s.counter + 1,
          intervals := s.intervals[RepeatKey(name, s.counter + 1) := s.next])
    case RemoveRepeatable(key) =>
      if key !in s.intervals then s
      else s.(live := s.live - {s.intervals[key]}, intervals := s.intervals - {key})
    case Close =>
      s.(live := s.live - s.timeouts - s.intervals.Values, timeouts := {}, intervals := map[])
    case Fire(timer) =>
      var job := s.live[timer];
      RunJob(if job.repeats then s else s.(live := s.live - {timer}, timeouts := s.timeouts - {timer}), job)
  }

  // ---------- the classes ----------

  /** The host's timers. */
  class Host {
    var live: map<TimerId, Job>
    var next: TimerId

    constructor ()
      ensures live == map[] && next == 0
    {
      live, next := map[], 0;
    }

    method SetTimer(job: Job) returns (t: TimerId)
      modifies this
      ensures t == old(next) && next == old(next) + 1 && live == old(live)[t := job]
    {
      t, next := next, next + 1;
      live := live[t := job];
    }

    method ClearTimer(t: TimerId)
      modifies this
      ensures live == old(live) - {t} && next == old(next)
    {
      live := live - {t};
    }
  }

  class InMemoryJobQueue {
    const host: Host
    var handlers: map<string, Handler>
    var timeouts: set<TimerId>
    var intervals: map<string, TimerId>
    var counter: nat
    ghost var ran: seq<Ran>

    constructor ()
      ensures fresh(host) && Snapshot() == FRESH
    {
      host := new Host();
      handlers, timeouts, intervals, counter, ran := map[], {}, map[], 0, [];
    }

    ghost function Snapshot(): State
      reads this, host
    {
      State(handlers, timeouts, intervals, counter, host.live, host.next, ran)
    }

    method RegisterHandler(name: string, handler: Handler)
      modifies this
      ensures Snapshot() == Apply(old(Snapshot()), Register(name, handler))
    {
      handlers := handlers[name := handler];
    }

    method EnqueueJob(name: string, payload: string, delayMs: Option<int>)
      modifies this, host
      ensures Snapshot() == Apply(old(Snapshot()), Enqueue(name, payload, delayMs))
    {
      var delay := Max(0, if delayMs.Some? then delayMs.value else 0);
      var t := host.SetTimer(Job(name, payload, false, delay));
      timeouts := timeouts + {t};
    }

    /** None stands for the thrown error. */
    method RepeatJob(name: string, payload: string, everyMs: Option<int>) returns (key: Option<string>)
      modifies this, host
      ensures Snapshot() == Apply(old(Snapshot()), Repeat(name, payload, everyMs))
      ensures key == if everyMs.None? then None else Some(RepeatKey(name, old(counter) + 1))
    {
      if everyMs.None? {
        return None;
      }
      counter := counter + 1;
      var k := RepeatKey(name, counter);
      var interval := host.SetTimer(Job(name, payload, true, everyMs.value));
      intervals := intervals[k := interval];
      return Some(k);
    }

    method Remove(key: string)
      modifies this, host
      ensures Snapshot() == Apply(old(Snapshot()), RemoveRepeatable(key))
    {
      if key in intervals {
        host.ClearTimer(intervals[key]);
        intervals := intervals - {key};
      }
    }

    method ClearAll(timers: set<TimerId>)
      modifies host
      ensures host.live == old(host.live) - timers && host.next == old(host.next)
    {
      var rest := timers;
      while rest != {}
        invariant rest <= timers
        invariant host.live == old(host.live) - (timers - rest) && host.next == old(host.next)
        decreases rest
      {
        var t :| t in rest;
        host.ClearTimer(t);
        rest := rest - {t};
      }
    }

    method CloseQueue()
      modifies this, host
      ensures Snapshot() == Apply(old(Snapshot()), Close)
    {
      ClearAll(timeouts);
      timeouts := {};
      ClearAll(intervals.Values);
      intervals := map[];
    }

    /** The host calls back: a timeout is forgotten first, then the job's handler runs. */
    method OnTimer(t: TimerId) returns (invoked: Option<Handler>)
      requires t in host.live
      modifies this, host
      ensures Snapshot() == Apply(old(Snapshot()), Fire(t))
      ensures invoked == if old(host.live[t].name in handlers) then Some(old(handlers[host.live[t].name])) else None
    {
      var job := host.live[t];
      if !job.repeats {
        host.ClearTimer(t);
        timeouts := timeouts - {t};
      }
      if job.name !in handlers {
        return None;
      }
      ran := ran + [Ran(handlers[job.name], job.payload)];
      return Some(handlers[job.name]);
    }
  }
}
