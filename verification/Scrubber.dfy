/** The PII scrubber: tokenizing sensitive spans, and restoring them. */
module Scrubber {
  import opened Base
  import opened Decimal
  import opened Sequences
  import opened Replacement

  datatype PiiType = Address | Ssn | Phone | Email | Financial | CorpLogo | Name

  datatype PiiToken = PiiToken(token: string, kind: PiiType, original: Option<string>)

  /** A match of a regular expression: `start` inclusive, `end` exclusive. */
  datatype Span = Span(start: nat, end: nat)

  /** A rule: its type and what its global regular expression matches in a string. */
  datatype Rule = Rule(kind: PiiType, matches: string -> seq<Span>)

  function TypeName(kind: PiiType): string {
    match kind
    case Address => "ADDRESS"
    case Ssn => "SSN"
    case Phone => "PHONE"
    case Email => "EMAIL"
    case Financial => "FINANCIAL"
    case CorpLogo => "CORP_LOGO"
    case Name => "NAME"
  }

  function TokenText(kind: PiiType, n: nat): string {
    "[" + TypeName(kind) + "_" + Numeral(n) + "]"
  }

  function KeyText(kind: PiiType, original: string): string {
    TypeName(kind) + "::" + original
  }

  // ---------- scrub ----------

  /** The memo: an insertion-ordered map from key to token entry, and the counters. */
  datatype Memo = Memo(order: seq<string>, entries: map<string, PiiToken>, counters: map<PiiType, nat>)

  const EMPTY_MEMO := Memo([], map[], map[])

  function CounterOf(memo: Memo, kind: PiiType): nat {
    if kind in memo.counters then memo.counters[kind] else 0
  }

  /** The replacement callback: the token for one match, and the memo afterwards. */
  function Intern(memo: Memo, kind: PiiType, original: string, keepOriginals: bool): (string, Memo) {
    var key := KeyText(kind, original);
    if key in memo.entries then (memo.entries[key].token, memo)
    else
      var n := CounterOf(memo, kind) + 1;
      var entry := PiiToken(TokenText(kind, n), kind, if keepOriginals then Some(original) else None);
      (entry.token, Memo(memo.order + [key], memo.entries[key := entry], memo.counters[kind := n]))
  }

  /** What the engine guarantees of a global match: non-empty spans in range, in order and without overlap. */
  predicate IsMatchList(s: string, spans: seq<Span>, from: nat) {
    spans == [] || (from <= spans[0].start < spans[0].end <= |s| && IsMatchList(s, spans[1..], spans[0].end))
  }

  /** `s[from..]` with the spans replaced by their tokens. */
  function ReplaceSpans(s: string, spans: seq<Span>, from: nat, kind: PiiType, memo: Memo, keepOriginals: bool):
    (string, Memo)
    requires from <= |s| && IsMatchList(s, spans, from)
  {
    if spans == [] then (s[from..], memo)
    else
      var Span(a, b) := spans[0];
      var (token, memo1) := Intern(memo, kind, s[a..b], keepOriginals);
      var (rest, memo2) := ReplaceSpans(s, spans[1..], b, kind, memo1, keepOriginals);
      (s[from..a] + token + rest, memo2)
  }

  /** Every rule's matches are those of a global regular expression, on every string. */
  ghost predicate AllMatch(rules: seq<Rule>) {
    forall i, s: string :: 0 <= i < |rules| ==> IsMatchList(s, rules[i].matches(s), 0)
  }

  function Passes(rules: seq<Rule>, s: string, memo: Memo, keepOriginals: bool): (string, Memo)
    requires AllMatch(rules)
  {
    if rules == [] then (s, memo)
    else
      var spans := rules[0].matches(s);
      var (out, memo1) := ReplaceSpans(s, spans, 0, rules[0].kind, memo, keepOriginals);
      Passes(rules[1..], out, memo1, keepOriginals)
  }

  function EntriesOf(memo: Memo, order: seq<string>): seq<PiiToken> {
    if order == [] then []
    else EntriesOf(memo, order[..|order| - 1])
         + (if order[|order| - 1] in memo.entries then [memo.entries[order[|order| - 1]]] else [])
  }

  function Scrubbed(rules: seq<Rule>, text: string, keepOriginals: bool): (string, seq<PiiToken>)
    requires AllMatch(rules)
  {
    var (out, memo) := Passes(rules, text, EMPTY_MEMO, keepOriginals);
    (out, EntriesOf(memo, memo.order))
  }

  /** One match: its token is appended after the text before it. */
  lemma ReplaceSpansStep(s: string, spans: seq<Span>, from: nat, kind: PiiType, memo: Memo, keepOriginals: bool,
      out: string)
    requires from <= |s| && IsMatchList(s, spans, from) && spans != []
    ensures var Span(a, b) := spans[0];
      var (token, memo1) := Intern(memo, kind, s[a..b], keepOriginals);
      var before := ReplaceSpans(s, spans, from, kind, memo, keepOriginals);
      var after := ReplaceSpans(s, spans[1..], b, kind, memo1, keepOriginals);
      out + before.0 == (out + s[from..a] + token) + after.0 && before.1 == after.1
  {
    var Span(a, b) := spans[0];
    var (token, memo1) := Intern(memo, kind, s[a..b], keepOriginals);
    var after := ReplaceSpans(s, spans[1..], b, kind, memo1, keepOriginals);
    Assoc(out, s[from..a] + token, after.0);
    Assoc(out, s[from..a], token);
  }

  /** `out.replace(regex, callback)`: walks the matches, copying the text between them. */
  method ReplaceMatches(s: string, spans: seq<Span>, kind: PiiType, memo0: Memo, keepOriginals: bool)
    returns (out: string, memo: Memo)
    requires IsMatchList(s, spans, 0)
    ensures (out, memo) == ReplaceSpans(s, spans, 0, kind, memo0, keepOriginals)
  {
    out, memo := "", memo0;
    var from, rest := 0, spans;
    ghost var whole := ReplaceSpans(s, spans, 0, kind, memo0, keepOriginals);
    assert "" + whole.0 == whole.0;
    while rest != []
      invariant from <= |s| && IsMatchList(s, rest, from)
      invariant whole.0 == out + ReplaceSpans(s, rest, from, kind, memo, keepOriginals).0
      invariant whole.1 == ReplaceSpans(s, rest, from, kind, memo, keepOriginals).1
      decreases |rest|
    {
      ReplaceSpansStep(s, rest, from, kind, memo, keepOriginals, out);
      var Span(a, b) := rest[0];
      var (token, memo1) := Intern(memo, kind, s[a..b], keepOriginals);
      out := out + s[from..a] + token;
      memo, from, rest := memo1, b, rest[1..];
    }
    out := out + s[from..];
  }

  method Scrub(rules: seq<Rule>, text: string, keepOriginals: bool) returns (scrubbed: string, tokenMap: seq<PiiToken>)
    requires AllMatch(rules)
    ensures (scrubbed, tokenMap) == Scrubbed(rules, text, keepOriginals)
  {
    var out, memo := text, EMPTY_MEMO;
    for i := 0 to |rules|
      invariant AllMatch(rules[i..])
      invariant Passes(rules, text, EMPTY_MEMO, keepOriginals) == Passes(rules[i..], out, memo, keepOriginals)
    {
      assert rules[i..][1..] == rules[i + 1..] && rules[i..][0] == rules[i];
      out, memo := ReplaceMatches(out, rules[i].matches(out), rules[i].kind, memo, keepOriginals);
    }
    assert rules[|rules|..] == [];
    scrubbed, tokenMap := out, EntriesOf(memo, memo.order);
  }

  // ---------- unscrub ----------

  function Restorable(e: PiiToken): Option<(string, string)> {
    if e.original.Some? then Some((e.token, e.original.value)) else None
  }

  predicate LongestFirst(a: (string, string), b: (string, string)) {
    |a.0| >= |b.0|
  }

  predicate Replaceable(pairs: seq<(string, string)>) {
    forall p :: p in pairs ==> p.0 != ""
  }

  /** The replacements one after another. */
  function Restore(s: string, pairs: seq<(string, string)>): string
    requires Replaceable(pairs)
    decreases |pairs|
  {
    if pairs == [] then s
    else
      assert pairs[0] in pairs;
      Restore(Replace(s, pairs[0].0, pairs[0].1), pairs[1..])
  }

  function RestoreOrder(tokenMap: seq<PiiToken>): seq<(string, string)> {
    Sort(LongestFirst, Collect(Restorable, tokenMap))
  }

  predicate HasTokens(tokenMap: seq<PiiToken>) {
    forall e :: e in tokenMap ==> e.token != ""
  }

  lemma RestoreOrderReplaceable(tokenMap: seq<PiiToken>)
    requires HasTokens(tokenMap)
    ensures Replaceable(RestoreOrder(tokenMap))
  {
    forall p | p in RestoreOrder(tokenMap) ensures p.0 != "" {
      SortMembers(LongestFirst, Collect(Restorable, tokenMap));
      CollectMembers(Restorable, tokenMap, p);
    }
  }

  lemma LengthPreorder()
    ensures TotalPreorder(LongestFirst)
  {
  }

  /** The replacements are those of the entries with an original, and none follows one with a shorter token. */
  lemma RestoresLongestFirst(tokenMap: seq<PiiToken>, i: nat, j: nat)
    requires i < j < |RestoreOrder(tokenMap)|
    ensures multiset(RestoreOrder(tokenMap)) == multiset(Collect(Restorable, tokenMap))
    ensures |RestoreOrder(tokenMap)[i].0| >= |RestoreOrder(tokenMap)[j].0|
  {
    LengthPreorder();
    SortOrdered(LongestFirst, Collect(Restorable, tokenMap));
    assert LongestFirst(RestoreOrder(tokenMap)[i], RestoreOrder(tokenMap)[j]);
  }

  function Unscrubbed(s: string, tokenMap: seq<PiiToken>): string
    requires HasTokens(tokenMap)
  {
    RestoreOrderReplaceable(tokenMap);
    Restore(s, RestoreOrder(tokenMap))
  }

  method Unscrub(scrubbed: string, tokenMap: seq<PiiToken>) returns (out: string)
    requires HasTokens(tokenMap)
    ensures out == Unscrubbed(scrubbed, tokenMap)
  {
    RestoreOrderReplaceable(tokenMap);
    var restorable := Sort(LongestFirst, Collect(Restorable, tokenMap));
    out := scrubbed;
    for i := 0 to |restorable|
      invariant Replaceable(restorable[i..])
      invariant Restore(scrubbed, restorable) == Restore(out, restorable[i..])
    {
      assert restorable[i..][0] == restorable[i] && restorable[i..][1..] == restorable[i + 1..];
      assert restorable[i] in restorable;
      out := Replace(out, restorable[i].0, restorable[i].1);
    }
  }
}
