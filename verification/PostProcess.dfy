/** The extraction post-processor: normalize, filter, de-duplicate. */
module PostProcess {
  import opened Base
  import opened Household
  import opened Sequences
  import opened Drafts
  import Dedupe

  /** The source's defaults are 0 and true. */
  datatype Options = Options(minConfidence: real, dropEmptyTitles: bool)

  /** The model's answer; missing lists are None. */
  datatype Answer = Answer(tasks: Option<seq<Raw>>, events: Option<seq<Raw>>, confidence: Raw, notes: Raw)

  datatype Extraction = Extraction(
    tasks: seq<TaskDraft>,
    events: seq<EventDraft>,
    confidence: real,
    notes: Option<string>)

  function Listed(list: Option<seq<Raw>>): seq<Raw> {
    if list.Some? then list.value else []
  }

  // ---------- one list of entries ----------

  /** How one kind of entry is normalized, titled, keyed and rated. */
  datatype Kind<!R, !T> = Kind(normalize: R -> T, title: T -> string, key: T -> string, confidence: T -> real)

  /** The filters: an empty title if those are dropped, too little confidence. */
  predicate Passes<R, T>(kind: Kind<R, T>, opts: Options, x: T) {
    !(opts.dropEmptyTitles && kind.title(x) == "") && !(kind.confidence(x) < opts.minConfidence)
  }

  function Keep<R, T>(kind: Kind<R, T>, opts: Options): R -> Option<T> {
    (raw: R) => if Passes(kind, opts, kind.normalize(raw)) then Some(kind.normalize(raw)) else None
  }

  /** The normalized entries that pass the filters. */
  function Kept<R, T>(kind: Kind<R, T>, opts: Options, raws: seq<R>): seq<T> {
    Collect(Keep(kind, opts), raws)
  }

  function Entries<R, T>(kind: Kind<R, T>, opts: Options, raws: seq<R>): seq<T> {
    Dedupe.Survivors(kind.key, kind.confidence, Kept(kind, opts, raws))
  }

  /** An entry is kept iff it is the normal form of a raw entry and passes the filters. */
  lemma KeptIffPasses<R, T>(kind: Kind<R, T>, opts: Options, raws: seq<R>, x: T)
    ensures x in Kept(kind, opts, raws) <==>
      && (opts.dropEmptyTitles ==> |kind.title(x)| > 0)
      && kind.confidence(x) >= opts.minConfidence
      && exists raw :: raw in raws && kind.normalize(raw) == x
  {
    CollectMembers(Keep(kind, opts), raws, x);
    if raw :| raw in raws && kind.normalize(raw) == x {
      var i :| 0 <= i < |raws| && raws[i] == raw;
      assert Passes(kind, opts, x) ==> Keep(kind, opts)(raws[i]) == Some(x);
    }
  }

  /**
   * The entries that come out have distinct keys, and an entry comes out iff it is the earliest one of maximal
   * confidence among the kept entries with its key.
   */
  lemma EntriesAreTheLeaders<R, T>(kind: Kind<R, T>, opts: Options, raws: seq<R>, x: T)
    ensures Dedupe.DistinctKeys(kind.key, Entries(kind, opts, raws))
    ensures x in Entries(kind, opts, raws) <==>
      exists i: nat :: Dedupe.LeadsFor(kind.key, kind.confidence, Kept(kind, opts, raws), kind.key(x), x, i)
  {
    Dedupe.SurvivorKeys(kind.key, kind.confidence, Kept(kind, opts, raws));
    Dedupe.SurvivesIffLeads(kind.key, kind.confidence, Kept(kind, opts, raws), x);
  }

  /** When normal forms read back as themselves, processing the output again gives the output. */
  lemma EntriesTwice<R, T>(kind: Kind<R, T>, opts: Options, raws: seq<R>, embed: T -> R)
    requires forall r :: r in raws ==> kind.normalize(embed(kind.normalize(r))) == kind.normalize(r)
    ensures Entries(kind, opts, Dedupe.Map(embed, Entries(kind, opts, raws))) == Entries(kind, opts, raws)
  {
    var keep := Keep(kind, opts);
    forall r | r in raws && keep(r).Some? ensures keep(embed(keep(r).value)) == keep(r) {
      assert kind.normalize(embed(kind.normalize(r))) == kind.normalize(r);
    }
    Dedupe.CollapseTwice(raws, keep, embed, kind.key, kind.confidence);
  }

  lemma {:induction false} KeptAbove<R, T>(kind: Kind<R, T>, opts: Options, min: real, raws: seq<R>)
    requires opts.minConfidence <= min
    ensures Kept(kind, opts.(minConfidence := min), raws) ==
      Collect(Dedupe.AtLeast(kind.confidence, min), Kept(kind, opts, raws))
  {
    if raws != [] {
      var n := |raws| - 1;
      KeptAbove(kind, opts, min, raws[..n]);
      Dedupe.CollectOne(Dedupe.AtLeast(kind.confidence, min), Kept(kind, opts, raws[..n]), Keep(kind, opts)(raws[n]));
    }
  }

  /** Raising the confidence threshold drops the entries below it and brings in no other. */
  lemma RaisingTheThreshold<R, T>(kind: Kind<R, T>, opts: Options, min: real, raws: seq<R>, x: T)
    requires opts.minConfidence <= min
    ensures x in Entries(kind, opts.(minConfidence := min), raws) <==>
      x in Entries(kind, opts, raws) && kind.confidence(x) >= min
  {
    KeptAbove(kind, opts, min, raws);
    Dedupe.ThresholdCommutes(kind.key, kind.confidence, Kept(kind, opts, raws), min, x);
  }

  // ---------- postProcess ----------

  function TaskKind(text: Text): Kind<Raw, TaskDraft> {
    Kind(TaskNormalizer(text), (d: TaskDraft) => d.title, TaskKey(text), (d: TaskDraft) => d.confidence)
  }

  function EventKind(text: Text): Kind<Raw, EventDraft> {
    Kind(EventNormalizer(text), (d: EventDraft) => d.title, EventKey(text), (d: EventDraft) => d.confidence)
  }

  function Processed(text: Text, opts: Options, answer: Answer): Extraction {
    Extraction(
      Entries(TaskKind(text), opts, Listed(answer.tasks)),
      Entries(EventKind(text), opts, Listed(answer.events)),
      NormalizeConfidence(text, answer.confidence),
      StringIn()(answer.notes))
  }

  method Process(text: Text, opts: Options, answer: Answer) returns (out: Extraction)
    ensures out == Processed(text, opts, answer)
  {
    var tasks := Dedupe.Collapse(Listed(answer.tasks), Keep(TaskKind(text), opts), TaskKind(text).key,
      TaskKind(text).confidence);
    var events := Dedupe.Collapse(Listed(answer.events), Keep(EventKind(text), opts), EventKind(text).key,
      EventKind(text).confidence);
    out := Extraction(tasks, events, NormalizeConfidence(text, answer.confidence), None);
    if answer.notes.Str? {
      out := out.(notes := Some(answer.notes.s));
    }
  }

  /** The extraction as an answer of the model. */
  function AsAnswer(e: Extraction): Answer {
    Answer(
      Some(Dedupe.Map(RawTask(), e.tasks)),
      Some(Dedupe.Map(RawEvent(), e.events)),
      Number(Finite(e.confidence)),
      OptionalStr(e.notes))
  }

  /** Post-processing is idempotent. */
  lemma ProcessTwice(text: Text, opts: Options, answer: Answer)
    ensures var once := Processed(text, opts, answer);
      Processed(text, opts, AsAnswer(once)) == once
  {
    TasksReadBack(text);
    EventsReadBack(text);
    EntriesTwice(TaskKind(text), opts, Listed(answer.tasks), RawTask());
    EntriesTwice(EventKind(text), opts, Listed(answer.events), RawEvent());
    ConfidenceTwice(text, answer.confidence);
  }

  lemma EntriesAreKept<R, T>(kind: Kind<R, T>, opts: Options, raws: seq<R>, x: T)
    requires x in Entries(kind, opts, raws)
    ensures x in Kept(kind, opts, raws)
  {
    EntriesAreTheLeaders(kind, opts, raws, x);
  }

  /** Every task and event that comes out is the normal form of one that went in, titled and confident as asked. */
  lemma OutputPasses(text: Text, opts: Options, answer: Answer)
    ensures forall t :: t in Processed(text, opts, answer).tasks ==>
      && (opts.dropEmptyTitles ==> t.title != "") && t.confidence >= opts.minConfidence
      && answer.tasks.Some? && exists raw :: raw in answer.tasks.value && NormalizeTask(text, raw) == t
    ensures forall e :: e in Processed(text, opts, answer).events ==>
      && (opts.dropEmptyTitles ==> e.title != "") && e.confidence >= opts.minConfidence
      && answer.events.Some? && exists raw :: raw in answer.events.value && NormalizeEvent(text, raw) == e
    ensures IsConfidence(text, answer.confidence, Processed(text, opts, answer).confidence)
    ensures forall s :: Processed(text, opts, answer).notes == Some(s) <==> answer.notes == Str(s)
  {
    ConfidenceReads(text, answer.confidence);
    forall t | t in Processed(text, opts, answer).tasks
      ensures (opts.dropEmptyTitles ==> t.title != "") && t.confidence >= opts.minConfidence
      ensures answer.tasks.Some? && exists raw :: raw in answer.tasks.value && NormalizeTask(text, raw) == t
    {
      EntriesAreKept(TaskKind(text), opts, Listed(answer.tasks), t);
      KeptIffPasses(TaskKind(text), opts, Listed(answer.tasks), t);
    }
    forall e | e in Processed(text, opts, answer).events
      ensures (opts.dropEmptyTitles ==> e.title != "") && e.confidence >= opts.minConfidence
      ensures answer.events.Some? && exists raw :: raw in answer.events.value && NormalizeEvent(text, raw) == e
    {
      EntriesAreKept(EventKind(text), opts, Listed(answer.events), e);
      KeptIffPasses(EventKind(text), opts, Listed(answer.events), e);
    }
  }

  lemma TasksReadBack(text: Text)
    ensures var normalize := TaskKind(text).normalize;
      forall r: Raw :: normalize(RawTask()(normalize(r))) == normalize(r)
  {
    forall r: Raw ensures TaskNormalizer(text)(RawTask()(TaskNormalizer(text)(r))) == TaskNormalizer(text)(r) {
      NormalizeTaskTwice(text, r);
    }
  }

  lemma EventsReadBack(text: Text)
    ensures var normalize := EventKind(text).normalize;
      forall r: Raw :: normalize(RawEvent()(normalize(r))) == normalize(r)
  {
    forall r: Raw ensures EventNormalizer(text)(RawEvent()(EventNormalizer(text)(r))) == EventNormalizer(text)(r) {
      NormalizeEventTwice(text, r);
    }
  }

  // ---------- keys ----------

  function Plain(title: string, due: string): TaskDraft {
    TaskDraft(title, Med, Admin, [], false, 1.0, None, Some(due), None, None, None)
  }

  /** A bar in a title and one in a due date: two different tasks share a key, and the second one is dropped. */
  lemma BarsConfuseKeys(text: Text)
    requires text.lower("a") == "a" && text.lower("a|b") == "a|b"
    ensures var first, second := Plain("a", "b|c"), Plain("a|b", "c");
      && TaskKey(text)(first) == TaskKey(text)(second)
      && Dedupe.Survivors(TaskKey(text), TaskKind(text).confidence, [first, second]) == [first]
  {
    var first, second := Plain("a", "b|c"), Plain("a|b", "c");
    assert "a" + "|" + "b|c" == "a|b" + "|" + "c";
    Dedupe.SecondOfTwo(TaskKey(text), TaskKind(text).confidence, first, second);
  }
}
