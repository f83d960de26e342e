/** Drafts normalized from raw model output: every field is coerced, defaulted or dropped. */
module Drafts {
  import opened Base
  import opened Household
  import opened Sequences
  import Dedupe

  /** A double: the values `typeof x === 'number'` admits. */
  datatype Num = Finite(r: real) | PosInf | NegInf | NaN

  /** The properties the normalizers read. */
  datatype Property =
    | Title | UrgencyProp | CategoryProp | RequiredSkills | RequiresApproval | Confidence | Description | DueAt
    | MinAge | MaxAge | SuggestedAssignee | StartsAt | EndsAt | AllDay | OwnerHint | Location

  /** An arbitrary value, as the model's output may hold anywhere. */
  datatype Raw =
    | Undefined
    | Null
    | Bool(b: bool)
    | Number(n: Num)
    | Str(s: string)
    | Arr(items: seq<Raw>)
    | Obj(fields: map<Property, Raw>)

  /**
   * What the language does to text and mixed values: which characters `trim` strips, `toLowerCase`, and `Number`
   * on values that are not numbers (None for results that are not finite).
   */
  datatype Text = Text(isSpace: char -> bool, lower: string -> string, toNumber: Raw -> Option<real>)

  datatype TaskDraft = TaskDraft(
    title: string,
    urgency: Urgency,
    category: Category,
    requiredSkills: seq<string>,
    requiresApproval: bool,
    confidence: real,
    description: Option<string>,
    dueAt: Option<string>,
    minAge: Option<Num>,
    maxAge: Option<Num>,
    suggestedAssignee: Option<string>)

  datatype EventDraft = EventDraft(
    title: string,
    startsAt: string,
    allDay: bool,
    confidence: real,
    endsAt: Option<string>,
    ownerHint: Option<string>,
    location: Option<Raw>)

  // ---------- the normalizers ----------

  /** Reading a property: null and undefined are read as an empty object, and other non-objects have none of these. */
  function Field(raw: Raw, p: Property): Raw {
    if raw.Obj? && p in raw.fields then raw.fields[p] else Undefined
  }

  function TrimStart(isSpace: char -> bool, s: string): string {
    if s != "" && isSpace(s[0]) then TrimStart(isSpace, s[1..]) else s
  }

  function TrimEnd(isSpace: char -> bool, s: string): string {
    if s != "" && isSpace(s[|s| - 1]) then TrimEnd(isSpace, s[..|s| - 1]) else s
  }

  function Trim(isSpace: char -> bool, s: string): string {
    TrimEnd(isSpace, TrimStart(isSpace, s))
  }

  function UrgencyName(u: Urgency): string {
    match u
    case Low => "LOW"
    case Med => "MED"
    case High => "HIGH"
    case Critical => "CRITICAL"
  }

  function NormalizeUrgency(raw: Raw): Urgency {
    if raw == Str("LOW") then Low
    else if raw == Str("HIGH") then High
    else if raw == Str("CRITICAL") then Critical
    else Med
  }

  function CategoryName(c: Category): string {
    match c
    case Maintenance => "MAINTENANCE"
    case School => "SCHOOL"
    case Errand => "ERRAND"
    case Admin => "ADMIN"
    case Event => "EVENT"
    case Seasonal => "SEASONAL"
    case Wellness => "WELLNESS"
    case Logistics => "LOGISTICS"
  }

  function NormalizeCategory(raw: Raw): Category {
    if raw == Str("MAINTENANCE") then Maintenance
    else if raw == Str("SCHOOL") then School
    else if raw == Str("ERRAND") then Errand
    else if raw == Str("EVENT") then Event
    else if raw == Str("SEASONAL") then Seasonal
    else if raw == Str("WELLNESS") then Wellness
    else if raw == Str("LOGISTICS") then Logistics
    else Admin
  }

  function NormalizeConfidence(text: Text, raw: Raw): real {
    match raw
    case Number(Finite(r)) => Clamp(r, 0.0, 1.0)
    case Number(_) => 0.0
    case _ =>
      match text.toNumber(raw)
      case Some(r) => Clamp(r, 0.0, 1.0)
      case None => 0.0
  }

  function StringIn(): Raw -> Option<string> {
    (raw: Raw) => if raw.Str? then Some(raw.s) else None
  }

  function Itself(): string -> string {
    (s: string) => s
  }

  /** The strings of an array, each once, in order of first appearance. */
  function NormalizeSkills(raw: Raw): seq<string> {
    if raw.Arr? then Dedupe.Keys(Itself(), Collect(StringIn(), raw.items)) else []
  }

  function StringField(raw: Raw, p: Property): Option<string> {
    StringIn()(Field(raw, p))
  }

  function NormalizeAge(raw: Raw): Option<Num> {
    match raw
    case Number(Finite(r)) => if r >= 0.0 then Some(Finite(r.Floor as real)) else None
    case Number(PosInf) => Some(PosInf)
    case _ => None
  }

  function NormalizeTitle(text: Text, raw: Raw): string {
    if raw.Str? then Trim(text.isSpace, raw.s) else ""
  }

  function NormalizeTask(text: Text, raw: Raw): TaskDraft {
    TaskDraft(
      NormalizeTitle(text, Field(raw, Title)),
      NormalizeUrgency(Field(raw, UrgencyProp)),
      NormalizeCategory(Field(raw, CategoryProp)),
      NormalizeSkills(Field(raw, RequiredSkills)),
      Field(raw, RequiresApproval) == Bool(true),
      NormalizeConfidence(text, Field(raw, Confidence)),
      StringField(raw, Description),
      StringField(raw, DueAt),
      NormalizeAge(Field(raw, MinAge)),
      NormalizeAge(Field(raw, MaxAge)),
      StringField(raw, SuggestedAssignee))
  }

  function NormalizeEvent(text: Text, raw: Raw): EventDraft {
    var startsAt := Field(raw, StartsAt);
    var location := Field(raw, Location);
    EventDraft(
      NormalizeTitle(text, Field(raw, Title)),
      if startsAt.Str? then startsAt.s else "",
      Field(raw, AllDay) == Bool(true),
      NormalizeConfidence(text, Field(raw, Confidence)),
      StringField(raw, EndsAt),
      StringField(raw, OwnerHint),
      if location.Arr? || location.Obj? then Some(location) else None)
  }

  function TaskNormalizer(text: Text): Raw -> TaskDraft {
    (raw: Raw) => NormalizeTask(text, raw)
  }

  function EventNormalizer(text: Text): Raw -> EventDraft {
    (raw: Raw) => NormalizeEvent(text, raw)
  }

  // ---------- drafts as raw input ----------

  function OptionalStr(o: Option<string>): Raw {
    match o
    case Some(s) => Str(s)
    case None => Undefined
  }

  function OptionalNum(o: Option<Num>): Raw {
    match o
    case Some(n) => Number(n)
    case None => Undefined
  }

  function AsStr(): string -> Raw {
    (s: string) => Str(s)
  }

  /** The draft as the object it is; an absent property and an undefined one read the same. */
  function RawTask(): TaskDraft -> Raw {
    (d: TaskDraft) => Obj(map[
      Title := Str(d.title),
      UrgencyProp := Str(UrgencyName(d.urgency)),
      CategoryProp := Str(CategoryName(d.category)),
      RequiredSkills := Arr(Dedupe.Map(AsStr(), d.requiredSkills)),
      RequiresApproval := Bool(d.requiresApproval),
      Confidence := Number(Finite(d.confidence)),
      Description := OptionalStr(d.description),
      DueAt := OptionalStr(d.dueAt),
      MinAge := OptionalNum(d.minAge),
      MaxAge := OptionalNum(d.maxAge),
      SuggestedAssignee := OptionalStr(d.suggestedAssignee)])
  }

  function RawEvent(): EventDraft -> Raw {
    (d: EventDraft) => Obj(map[
      Title := Str(d.title),
      StartsAt := Str(d.startsAt),
      AllDay := Bool(d.allDay),
      Confidence := Number(Finite(d.confidence)),
      EndsAt := OptionalStr(d.endsAt),
      OwnerHint := OptionalStr(d.ownerHint),
      Location := match d.location case Some(l) => l case None => Undefined])
  }

  // ---------- normalizing a normalized draft changes nothing ----------

  lemma {:induction false} TrimStartStrips(isSpace: char -> bool, s: string)
    ensures var t := TrimStart(isSpace, s); t == "" || !isSpace(t[0])
  {
    if s != "" && isSpace(s[0]) {
      TrimStartStrips(isSpace, s[1..]);
    }
  }

  lemma {:induction false} TrimEndStrips(isSpace: char -> bool, s: string)
    ensures var t := TrimEnd(isSpace, s); t <= s && (t == "" || !isSpace(t[|t| - 1]))
  {
    if s != "" && isSpace(s[|s| - 1]) {
      TrimEndStrips(isSpace, s[..|s| - 1]);
    }
  }

  lemma {:induction false} TrimStartCuts(isSpace: char -> bool, s: string) returns (a: string)
    ensures s == a + TrimStart(isSpace, s) && forall c :: c in a ==> isSpace(c)
  {
    a := "";
    if s != "" && isSpace(s[0]) {
      var rest := TrimStartCuts(isSpace, s[1..]);
      a := [s[0]] + rest;
      assert s == [s[0]] + s[1..];
    }
  }

  lemma {:induction false} TrimEndCuts(isSpace: char -> bool, s: string) returns (b: string)
    ensures s == TrimEnd(isSpace, s) + b && forall c :: c in b ==> isSpace(c)
  {
    b := "";
    if s != "" && isSpace(s[|s| - 1]) {
      var n := |s| - 1;
      var rest := TrimEndCuts(isSpace, s[..n]);
      b := rest + [s[n]];
      assert s == s[..n] + [s[n]];
    }
  }

  /** Trimming cuts white space off both ends and nothing else. */
  lemma TrimCutsSpace(isSpace: char -> bool, s: string) returns (a: string, b: string)
    ensures s == a + Trim(isSpace, s) + b
    ensures (forall c :: c in a ==> isSpace(c)) && forall c :: c in b ==> isSpace(c)
  {
    a := TrimStartCuts(isSpace, s);
    b := TrimEndCuts(isSpace, TrimStart(isSpace, s));
    Assoc(a, Trim(isSpace, s), b);
  }

  /** A trimmed string neither starts nor ends with white space, so trimming it again changes nothing. */
  lemma TrimTwice(isSpace: char -> bool, s: string)
    ensures var t := Trim(isSpace, s);
      (t == "" || (!isSpace(t[0]) && !isSpace(t[|t| - 1]))) && Trim(isSpace, t) == t
  {
    TrimStartStrips(isSpace, s);
    TrimEndStrips(isSpace, TrimStart(isSpace, s));
  }

  lemma {:induction false} MapItself(s: seq<string>)
    ensures Dedupe.Map(Itself(), s) == s
  {
    if s != [] {
      MapItself(s[..|s| - 1]);
    }
  }

  /** The skill list holds no string twice, and normalizing it again changes nothing. */
  lemma SkillsTwice(raw: Raw)
    ensures var skills := NormalizeSkills(raw);
      && (forall i, j :: 0 <= i < j < |skills| ==> skills[i] != skills[j])
      && NormalizeSkills(Arr(Dedupe.Map(AsStr(), skills))) == skills
  {
    var skills := NormalizeSkills(raw);
    Dedupe.KeptAgain(StringIn(), AsStr(), skills);
    if raw.Arr? {
      Dedupe.KeysAreSeen(Itself(), Collect(StringIn(), raw.items));
    }
    Dedupe.KeysOfDistinct(Itself(), skills);
    MapItself(skills);
  }

  /** The skills are the strings of the array, in order of first appearance; what is no array has none. */
  lemma SkillsRead(raw: Raw, skill: string)
    ensures skill in NormalizeSkills(raw) <==> raw.Arr? && Str(skill) in raw.items
    ensures raw.Arr? ==> forall i, j :: 0 <= i < j < |NormalizeSkills(raw)| ==>
      Dedupe.SeenBefore(Itself(), Collect(StringIn(), raw.items), NormalizeSkills(raw)[i], NormalizeSkills(raw)[j])
  {
    if raw.Arr? {
      var strings := Collect(StringIn(), raw.items);
      Dedupe.KeysAreSeen(Itself(), strings);
      CollectMembers(StringIn(), raw.items, skill);
      forall i, j | 0 <= i < j < |NormalizeSkills(raw)|
        ensures Dedupe.SeenBefore(Itself(), strings, NormalizeSkills(raw)[i], NormalizeSkills(raw)[j])
      {
        Dedupe.KeysInOrder(Itself(), strings, i, j);
      }
    }
  }

  /** A confidence that is no finite number counts as 0; any other is taken to the nearest of 0 and 1 if outside. */
  predicate IsConfidence(text: Text, raw: Raw, c: real) {
    match (if raw.Number? then (if raw.n.Finite? then Some(raw.n.r) else None) else text.toNumber(raw))
    case None => c == 0.0
    case Some(x) => if x < 0.0 then c == 0.0 else if x > 1.0 then c == 1.0 else c == x
  }

  lemma ConfidenceReads(text: Text, raw: Raw)
    ensures IsConfidence(text, raw, NormalizeConfidence(text, raw))
  {
  }

  /** An age is kept when it is a number of at least 0, and then rounded down. */
  lemma AgeReads(raw: Raw)
    ensures NormalizeAge(raw).Some? <==> raw.Number? && (raw.n.PosInf? || (raw.n.Finite? && raw.n.r >= 0.0))
    ensures raw.Number? && raw.n.Finite? && raw.n.r >= 0.0 ==> NormalizeAge(raw) == Some(Finite(raw.n.r.Floor as real))
    ensures raw == Number(PosInf) ==> NormalizeAge(raw) == Some(PosInf)
  {
  }

  /** Only the exact names are read; anything else is MED or ADMIN. */
  lemma NamesDefault(raw: Raw)
    ensures NormalizeUrgency(raw) != Med ==> raw == Str(UrgencyName(NormalizeUrgency(raw)))
    ensures NormalizeCategory(raw) != Admin ==> raw == Str(CategoryName(NormalizeCategory(raw)))
  {
  }

  lemma NamesRead(u: Urgency, c: Category)
    ensures NormalizeUrgency(Str(UrgencyName(u))) == u && NormalizeCategory(Str(CategoryName(c))) == c
  {
  }

  lemma AgeTwice(raw: Raw)
    ensures NormalizeAge(OptionalNum(NormalizeAge(raw))) == NormalizeAge(raw)
  {
  }

  lemma ConfidenceTwice(text: Text, raw: Raw)
    ensures var c := NormalizeConfidence(text, raw);
      0.0 <= c <= 1.0 && NormalizeConfidence(text, Number(Finite(c))) == c
  {
  }

  lemma TitleTwice(text: Text, raw: Raw)
    ensures NormalizeTitle(text, Str(NormalizeTitle(text, raw))) == NormalizeTitle(text, raw)
  {
    if raw.Str? {
      TrimTwice(text.isSpace, raw.s);
    }
  }

  /** Normalization looks at nothing but the properties it reads. */
  lemma TaskFromFields(text: Text, raw: Raw, d: TaskDraft)
    requires NormalizeTitle(text, Field(raw, Title)) == d.title
    requires NormalizeUrgency(Field(raw, UrgencyProp)) == d.urgency
    requires NormalizeCategory(Field(raw, CategoryProp)) == d.category
    requires NormalizeSkills(Field(raw, RequiredSkills)) == d.requiredSkills
    requires (Field(raw, RequiresApproval) == Bool(true)) == d.requiresApproval
    requires NormalizeConfidence(text, Field(raw, Confidence)) == d.confidence
    requires StringField(raw, Description) == d.description && StringField(raw, DueAt) == d.dueAt
    requires NormalizeAge(Field(raw, MinAge)) == d.minAge && NormalizeAge(Field(raw, MaxAge)) == d.maxAge
    requires StringField(raw, SuggestedAssignee) == d.suggestedAssignee
    ensures NormalizeTask(text, raw) == d
  {
  }

  lemma TaskFields(d: TaskDraft)
    ensures var raw := RawTask()(d);
      && Field(raw, Title) == Str(d.title)
      && Field(raw, UrgencyProp) == Str(UrgencyName(d.urgency))
      && Field(raw, CategoryProp) == Str(CategoryName(d.category))
      && Field(raw, RequiredSkills) == Arr(Dedupe.Map(AsStr(), d.requiredSkills))
      && Field(raw, RequiresApproval) == Bool(d.requiresApproval)
      && Field(raw, Confidence) == Number(Finite(d.confidence))
      && Field(raw, MinAge) == OptionalNum(d.minAge)
      && Field(raw, MaxAge) == OptionalNum(d.maxAge)
  {
  }

  lemma TaskStringFields(d: TaskDraft)
    ensures var raw := RawTask()(d);
      && StringField(raw, Description) == d.description
      && StringField(raw, DueAt) == d.dueAt
      && StringField(raw, SuggestedAssignee) == d.suggestedAssignee
  {
  }

  /** Normalizing a normalized task, read back as raw input, gives it back. */
  lemma NormalizeTaskTwice(text: Text, raw: Raw)
    ensures NormalizeTask(text, RawTask()(NormalizeTask(text, raw))) == NormalizeTask(text, raw)
  {
    var d := NormalizeTask(text, raw);
    TitleTwice(text, Field(raw, Title));
    SkillsTwice(Field(raw, RequiredSkills));
    NamesRead(d.urgency, d.category);
    AgeTwice(Field(raw, MinAge));
    AgeTwice(Field(raw, MaxAge));
    ConfidenceTwice(text, Field(raw, Confidence));
    TaskFields(d);
    TaskStringFields(d);
    TaskFromFields(text, RawTask()(d), d);
  }

  lemma EventFields(d: EventDraft)
    ensures var raw := RawEvent()(d);
      && Field(raw, Title) == Str(d.title)
      && Field(raw, StartsAt) == Str(d.startsAt)
      && Field(raw, AllDay) == Bool(d.allDay)
      && Field(raw, Confidence) == Number(Finite(d.confidence))
      && StringField(raw, EndsAt) == d.endsAt
      && StringField(raw, OwnerHint) == d.ownerHint
      && Field(raw, Location) == match d.location case Some(l) => l case None => Undefined
  {
  }

  /** Starts and locations of the wrong kind are dropped, and only a literal true makes an all-day event. */
  lemma EventReads(text: Text, raw: Raw)
    ensures var d := NormalizeEvent(text, raw);
      && (forall s :: Field(raw, StartsAt) == Str(s) ==> d.startsAt == s)
      && (!Field(raw, StartsAt).Str? ==> d.startsAt == "")
      && (d.allDay <==> Field(raw, AllDay) == Bool(true))
      && (d.location == Some(Field(raw, Location)) <==> Field(raw, Location).Arr? || Field(raw, Location).Obj?)
      && (d.location.None? <==> !Field(raw, Location).Arr? && !Field(raw, Location).Obj?)
  {
  }

  lemma NormalizeEventTwice(text: Text, raw: Raw)
    ensures NormalizeEvent(text, RawEvent()(NormalizeEvent(text, raw))) == NormalizeEvent(text, raw)
  {
    var d := NormalizeEvent(text, raw);
    TitleTwice(text, Field(raw, Title));
    ConfidenceTwice(text, Field(raw, Confidence));
    EventFields(d);
  }

  // ---------- keys ----------

  function DueText(d: TaskDraft): string {
    if d.dueAt.Some? then d.dueAt.value else ""
  }

  function TaskKey(text: Text): TaskDraft -> string {
    (d: TaskDraft) => text.lower(d.title) + "|" + DueText(d) + "|" + CategoryName(d.category)
  }

  function EventKey(text: Text): EventDraft -> string {
    (d: EventDraft) => text.lower(d.title) + "|" + d.startsAt
  }

  lemma BarInsideLast(a: string, b: string, c: string, d: string)
    requires a + "|" + b == c + "|" + d && |a| < |c|
    ensures '|' in b
  {
    var s := a + "|" + b;
    assert |s| == |c + "|" + d|;
    assert s[|c|] == (c + "|" + d)[|c|] == '|';
    assert s[|c|] == b[|c| - |a| - 1];
  }

  /** The part after the last bar is determined. */
  lemma BarLast(a: string, b: string, c: string, d: string)
    requires '|' !in b && '|' !in d && a + "|" + b == c + "|" + d
    ensures a == c && b == d
  {
    if |a| < |c| {
      BarInsideLast(a, b, c, d);
    }
    if |c| < |a| {
      BarInsideLast(c, d, a, b);
    }
    var s := a + "|" + b;
    assert a == s[..|a|] && c == s[..|c|];
    assert b == s[|a| + 1..] && d == s[|c| + 1..];
  }

  lemma CategoryNames(a: Category, b: Category)
    ensures '|' !in CategoryName(a) && (CategoryName(a) == CategoryName(b) ==> a == b)
  {
  }

  /** `c` is `a` followed by a bar and some text, and `b` is that text followed by a bar and `d`. */
  ghost predicate Shifted(a: string, b: string, c: string, d: string) {
    exists x: string :: c == a + "|" + x && b == x + "|" + d
  }

  lemma ShiftedJoins(a: string, b: string, c: string, d: string)
    requires Shifted(a, b, c, d)
    ensures a + "|" + b == c + "|" + d
  {
    var x: string :| c == a + "|" + x && b == x + "|" + d;
    assert a + "|" + (x + "|" + d) == (a + "|" + x) + "|" + d;
  }

  lemma JoinsShifted(a: string, b: string, c: string, d: string)
    requires a + "|" + b == c + "|" + d && |a| < |c|
    ensures Shifted(a, b, c, d)
  {
    var s := a + "|" + b;
    var x := c[|a| + 1..];
    assert c == s[..|c|] && s[|a|] == '|';
    assert c == a + "|" + x by {
      assert c[..|a|] == a && c[|a|] == '|';
    }
    assert b == s[|a| + 1..];
    assert x + "|" + d == s[|a| + 1..];
  }

  /** Two texts joined by a bar are equal iff their parts are, or one join has its bar later than the other. */
  lemma JoinsEqual(a: string, b: string, c: string, d: string)
    ensures a + "|" + b == c + "|" + d <==> (a == c && b == d) || Shifted(a, b, c, d) || Shifted(c, d, a, b)
  {
    if a + "|" + b == c + "|" + d {
      if |a| < |c| {
        JoinsShifted(a, b, c, d);
      } else if |c| < |a| {
        JoinsShifted(c, d, a, b);
      } else {
        SameBar(a, b, c, d);
      }
    }
    if Shifted(a, b, c, d) {
      ShiftedJoins(a, b, c, d);
    }
    if Shifted(c, d, a, b) {
      ShiftedJoins(c, d, a, b);
    }
  }

  lemma SameBar(a: string, b: string, c: string, d: string)
    requires a + "|" + b == c + "|" + d && |a| == |c|
    ensures a == c && b == d
  {
    var s := a + "|" + b;
    assert a == s[..|a|] && c == s[..|c|];
    assert b == s[|a| + 1..] && d == s[|c| + 1..];
  }

  /** A later bar needs a bar in the longer first part and one in the longer second part. */
  lemma ShiftedBars(a: string, b: string, c: string, d: string)
    requires Shifted(a, b, c, d)
    ensures '|' in c && '|' in b
  {
    var x: string :| c == a + "|" + x && b == x + "|" + d;
    assert c[|a|] == '|' && b[|x|] == '|';
  }

  /**
   * Tasks share a key iff the categories agree and either titles and due dates do, or one title is the other one
   * followed by a bar and some text with which the other due date begins, up to a bar.
   */
  lemma TaskKeyIdentifies(text: Text, a: TaskDraft, b: TaskDraft)
    ensures var s, t := text.lower(a.title), text.lower(b.title);
      TaskKey(text)(a) == TaskKey(text)(b) <==>
        && a.category == b.category
        && (|| (s == t && DueText(a) == DueText(b))
            || Shifted(s, DueText(a), t, DueText(b))
            || Shifted(t, DueText(b), s, DueText(a)))
  {
    var s, t := text.lower(a.title), text.lower(b.title);
    JoinsEqual(s, DueText(a), t, DueText(b));
    CategoryNames(a.category, b.category);
    CategoryNames(b.category, a.category);
    if TaskKey(text)(a) == TaskKey(text)(b) {
      BarLast(s + "|" + DueText(a), CategoryName(a.category), t + "|" + DueText(b), CategoryName(b.category));
    }
  }

  /** Without bars in the lower-cased titles, or without bars in the due dates, keys identify tasks. */
  lemma BarFreeTaskKeys(text: Text, a: TaskDraft, b: TaskDraft)
    requires ('|' !in text.lower(a.title) && '|' !in text.lower(b.title)) || ('|' !in DueText(a) && '|' !in DueText(b))
    ensures TaskKey(text)(a) == TaskKey(text)(b) <==>
      text.lower(a.title) == text.lower(b.title) && DueText(a) == DueText(b) && a.category == b.category
  {
    var s, t := text.lower(a.title), text.lower(b.title);
    TaskKeyIdentifies(text, a, b);
    if Shifted(s, DueText(a), t, DueText(b)) {
      ShiftedBars(s, DueText(a), t, DueText(b));
    }
    if Shifted(t, DueText(b), s, DueText(a)) {
      ShiftedBars(t, DueText(b), s, DueText(a));
    }
  }

  /** Events share a key iff titles and starts agree, or one of them has its bar later than the other. */
  lemma EventKeyIdentifies(text: Text, a: EventDraft, b: EventDraft)
    ensures var s, t := text.lower(a.title), text.lower(b.title);
      EventKey(text)(a) == EventKey(text)(b) <==>
        || (s == t && a.startsAt == b.startsAt)
        || Shifted(s, a.startsAt, t, b.startsAt)
        || Shifted(t, b.startsAt, s, a.startsAt)
  {
    JoinsEqual(text.lower(a.title), a.startsAt, text.lower(b.title), b.startsAt);
  }

  /** Without bars in the lower-cased titles, or without bars in the starts, keys identify events. */
  lemma BarFreeEventKeys(text: Text, a: EventDraft, b: EventDraft)
    requires ('|' !in text.lower(a.title) && '|' !in text.lower(b.title)) || ('|' !in a.startsAt && '|' !in b.startsAt)
    ensures EventKey(text)(a) == EventKey(text)(b) <==>
      text.lower(a.title) == text.lower(b.title) && a.startsAt == b.startsAt
  {
    var s, t := text.lower(a.title), text.lower(b.title);
    EventKeyIdentifies(text, a, b);
    if Shifted(s, a.startsAt, t, b.startsAt) {
      ShiftedBars(s, a.startsAt, t, b.startsAt);
    }
    if Shifted(t, b.startsAt, s, a.startsAt) {
      ShiftedBars(t, b.startsAt, s, a.startsAt);
    }
  }
}
