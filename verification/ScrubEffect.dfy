/**
 * What a scrub does to a text: every match of every rule is replaced by the token under which the map lists it, the
 * rest of the text is copied, and the map lists what was matched, each type and original once, in order.
 */
module ScrubEffect {
  import opened Base
  import opened Sequences
  import opened Scrubber
  import opened ScrubberLaws
  import opened RoundTrip
  import Dedupe

  // ---------- the effect, without a memo ----------

  /** Spans in order, non-empty and inside the string, from a position on. */
  predicate Cuts(s: string, spans: seq<Span>, from: nat) {
    && (forall i :: 0 <= i < |spans| ==> from <= spans[i].start < spans[i].end <= |s|)
    && forall i, j :: 0 <= i < j < |spans| ==> spans[i].end <= spans[j].start
  }

  /** The text under a span. */
  function Under(s: string, sp: Span): string {
    if sp.start <= sp.end <= |s| then s[sp.start..sp.end] else ""
  }

  /** Where the text after the first `n` spans begins. */
  function EndOf(spans: seq<Span>, from: nat, n: nat): nat
    requires n <= |spans|
  {
    if n == 0 then from else spans[n - 1].end
  }

  /** The text before span `n`, from the end of the span before it. */
  function Copied(s: string, spans: seq<Span>, from: nat, n: nat): string
    requires Cuts(s, spans, from) && n < |spans|
  {
    assert spans[n].start < spans[n].end <= |s|;
    assert n > 0 ==> spans[n - 1].end <= spans[n].start;
    s[EndOf(spans, from, n)..spans[n].start]
  }

  /** The string from a position to the end of the last span, with tokens for the spans and the rest copied. */
  function Woven(s: string, spans: seq<Span>, from: nat, tokens: seq<string>): string
    requires Cuts(s, spans, from) && |tokens| == |spans|
    decreases |spans|
  {
    if spans == [] then ""
    else
      var n := |spans| - 1;
      Woven(s, spans[..n], from, tokens[..n]) + (Copied(s, spans, from, n) + tokens[n])
  }

  /** The whole string with a token for each span and the rest copied. */
  function Spliced(s: string, spans: seq<Span>, tokens: seq<string>): string
    requires Cuts(s, spans, 0) && |tokens| == |spans|
  {
    Woven(s, spans, 0, tokens) + s[EndOf(spans, 0, |spans|)..]
  }

  /** The text that rule `k` sees. */
  function Before(rules: seq<Rule>, text: string, k: nat): string
    requires AllMatch(rules) && k <= |rules|
  {
    Scrubbed(rules[..k], text, true).0
  }

  /** The texts under the spans, with the type of the rule that matched them. */
  function Matched(kind: PiiType, s: string, spans: seq<Span>): (r: seq<(PiiType, string)>)
    ensures |r| == |spans| && forall i :: 0 <= i < |r| ==> r[i] == (kind, Under(s, spans[i]))
  {
    seq(|spans|, i requires 0 <= i < |spans| => (kind, Under(s, spans[i])))
  }

  /** What the first `k` rules match, rule by rule and in text order. */
  function Found(rules: seq<Rule>, text: string, k: nat): seq<(PiiType, string)>
    requires AllMatch(rules) && k <= |rules|
  {
    if k == 0 then []
    else
      var s := Before(rules, text, k - 1);
      Found(rules, text, k - 1) + Matched(rules[k - 1].kind, s, rules[k - 1].matches(s))
  }

  function AsIs(): ((PiiType, string)) -> (PiiType, string) {
    (p: (PiiType, string)) => p
  }

  /** Each type and original once, in order of first appearance. */
  function Firsts(found: seq<(PiiType, string)>): seq<(PiiType, string)> {
    Dedupe.Keys(AsIs(), found)
  }

  /** The map has this token for this type and original. */
  predicate Lists(tokenMap: seq<PiiToken>, kind: PiiType, original: string, token: string) {
    PiiToken(token, kind, Some(original)) in tokenMap
  }

  // ---------- weaving ----------

  lemma {:induction false} MatchListCuts(s: string, spans: seq<Span>, from: nat)
    requires IsMatchList(s, spans, from)
    ensures Cuts(s, spans, from)
    decreases |spans|
  {
    if spans != [] {
      MatchListCuts(s, spans[1..], spans[0].end);
      assert forall i :: 0 < i < |spans| ==> spans[i] == spans[1..][i - 1];
    }
  }

  lemma CutsTail(s: string, spans: seq<Span>, from: nat)
    requires Cuts(s, spans, from) && spans != []
    ensures Cuts(s, spans[1..], spans[0].end)
  {
    forall i | 0 <= i < |spans[1..]| ensures spans[0].end <= spans[1..][i].start < spans[1..][i].end <= |s| {
      assert spans[1..][i] == spans[i + 1];
    }
    forall i, j | 0 <= i < j < |spans[1..]| ensures spans[1..][i].end <= spans[1..][j].start {
      assert spans[1..][i] == spans[i + 1] && spans[1..][j] == spans[j + 1];
    }
  }

  lemma WovenNone(s: string, spans: seq<Span>, from: nat, tokens: seq<string>)
    requires spans == [] && tokens == []
    ensures Woven(s, spans, from, tokens) == ""
  {
  }

  lemma WovenLast(s: string, spans: seq<Span>, from: nat, tokens: seq<string>, n: nat)
    requires Cuts(s, spans, from) && |tokens| == |spans| == n + 1
    ensures Woven(s, spans, from, tokens) ==
      Woven(s, spans[..n], from, tokens[..n]) + (Copied(s, spans, from, n) + tokens[n])
  {
  }

  /** The last step of weaving all spans but the first is that of weaving all of them. */
  lemma WovenRest(s: string, spans: seq<Span>, from: nat, tokens: seq<string>, n: nat)
    requires Cuts(s, spans, from) && |tokens| == |spans| == n + 1 && n > 0
    requires Cuts(s, spans[1..], spans[0].end)
    ensures Woven(s, spans[1..], spans[0].end, tokens[1..]) ==
      Woven(s, spans[1..][..n - 1], spans[0].end, tokens[1..][..n - 1]) + (Copied(s, spans, from, n) + tokens[n])
  {
    WovenLast(s, spans[1..], spans[0].end, tokens[1..], n - 1);
    assert Copied(s, spans[1..], spans[0].end, n - 1) == Copied(s, spans, from, n);
  }

  lemma Middle<T>(s: seq<T>, n: nat)
    requires 0 < n < |s|
    ensures s[..n][1..] == s[1..][..n - 1]
  {
  }

  /** Weaving from the left: the text before the first span, its token, and the rest. */
  lemma {:induction false} WovenCons(s: string, spans: seq<Span>, from: nat, tokens: seq<string>)
    requires Cuts(s, spans, from) && |tokens| == |spans| && spans != []
    requires Cuts(s, spans[1..], spans[0].end)
    ensures Woven(s, spans, from, tokens) ==
      (s[from..spans[0].start] + tokens[0]) + Woven(s, spans[1..], spans[0].end, tokens[1..])
    decreases |spans|
  {
    var n := |spans| - 1;
    var left := s[from..spans[0].start] + tokens[0];
    if n == 0 {
      WovenNone(s, spans[..0], from, tokens[..0]);
      WovenNone(s, spans[1..], spans[0].end, tokens[1..]);
      assert "" + left == left == left + "";
    } else {
      var inner := Woven(s, spans[1..][..n - 1], spans[0].end, tokens[1..][..n - 1]);
      CutsTail(s, spans[..n], from);
      WovenCons(s, spans[..n], from, tokens[..n]);
      Middle(spans, n);
      Middle(tokens, n);
      WovenLast(s, spans, from, tokens, n);
      WovenRest(s, spans, from, tokens, n);
      Assoc(left, inner, Copied(s, spans, from, n) + tokens[n]);
    }
  }

  // ---------- the memo knows what its keys stand for ----------

  /** The entry under a key has the type and the original the key is made of. */
  ghost predicate KeysTell(memo: Memo) {
    forall kind, original :: KeyText(kind, original) in memo.entries ==>
      var e := memo.entries[KeyText(kind, original)]; e.kind == kind && e.original == Some(original)
  }

  /** The memo lists the keys of what was found, each once, in order of first appearance. */
  ghost predicate Records(memo: Memo, found: seq<(PiiType, string)>) {
    && |memo.order| == |Firsts(found)|
    && (forall i :: 0 <= i < |memo.order| ==> memo.order[i] == KeyText(Firsts(found)[i].0, Firsts(found)[i].1))
    && forall key :: key in memo.entries <==> key in memo.order
  }

  lemma InternTells(memo: Memo, kind: PiiType, original: string)
    requires KeysTell(memo)
    ensures var (token, memo') := Intern(memo, kind, original, true);
      && KeysTell(memo')
      && KeyText(kind, original) in memo'.entries
      && memo'.entries[KeyText(kind, original)] == PiiToken(token, kind, Some(original))
      && forall key :: key in memo.entries ==> key in memo'.entries && memo'.entries[key] == memo.entries[key]
  {
    var memo' := Intern(memo, kind, original, true).1;
    forall k, o | KeyText(k, o) in memo'.entries
      ensures memo'.entries[KeyText(k, o)].kind == k && memo'.entries[KeyText(k, o)].original == Some(o)
    {
      if KeyText(k, o) == KeyText(kind, original) {
        KeyInjective(k, o, kind, original);
      }
    }
  }

  lemma KnownIsFound(memo: Memo, found: seq<(PiiType, string)>, kind: PiiType, original: string)
    requires Records(memo, found)
    ensures KeyText(kind, original) in memo.entries <==> (kind, original) in Firsts(found)
  {
    var firsts := Firsts(found);
    if KeyText(kind, original) in memo.entries {
      var i :| 0 <= i < |memo.order| && memo.order[i] == KeyText(kind, original);
      KeyInjective(firsts[i].0, firsts[i].1, kind, original);
      assert firsts[i] == (kind, original);
    }
    if (kind, original) in firsts {
      var i :| 0 <= i < |firsts| && firsts[i] == (kind, original);
      assert memo.order[i] in memo.order;
    }
  }

  lemma InternRecords(memo: Memo, found: seq<(PiiType, string)>, kind: PiiType, original: string)
    requires Records(memo, found)
    ensures Records(Intern(memo, kind, original, true).1, found + [(kind, original)])
  {
    KnownIsFound(memo, found, kind, original);
    Dedupe.KeysSnoc(AsIs(), found, (kind, original));
    assert AsIs()((kind, original)) == (kind, original);
  }

  // ---------- one pass ----------

  /** The memo holds the token of the span's text. */
  ghost predicate HasEntry(memo: Memo, kind: PiiType, original: string, token: string) {
    KeyText(kind, original) in memo.entries
    && memo.entries[KeyText(kind, original)] == PiiToken(token, kind, Some(original))
  }

  ghost predicate Extended(memo: Memo, memo': Memo) {
    forall key :: key in memo.entries ==> key in memo'.entries && memo'.entries[key] == memo.entries[key]
  }

  /** The pass weaves tokens into the string, each one the memo's token of the text it replaces. */
  lemma {:induction false} SpansWoven(s: string, spans: seq<Span>, from: nat, kind: PiiType, memo: Memo)
    returns (tokens: seq<string>)
    requires from <= |s| && IsMatchList(s, spans, from) && KeysTell(memo)
    ensures Cuts(s, spans, from) && |tokens| == |spans|
    ensures var (out, memo') := ReplaceSpans(s, spans, from, kind, memo, true);
      && out == Woven(s, spans, from, tokens) + s[EndOf(spans, from, |spans|)..]
      && KeysTell(memo') && Extended(memo, memo')
      && forall i :: 0 <= i < |spans| ==> HasEntry(memo', kind, Under(s, spans[i]), tokens[i])
    decreases |spans|
  {
    MatchListCuts(s, spans, from);
    if spans == [] {
      tokens := [];
      assert "" + s[from..] == s[from..];
    } else {
      var Span(a, b) := spans[0];
      var (token, memo1) := Intern(memo, kind, s[a..b], true);
      InternTells(memo, kind, s[a..b]);
      var rest := SpansWoven(s, spans[1..], b, kind, memo1);
      tokens := [token] + rest;
      WovenStep(s, spans, from, token, rest);
      EntriesStep(s, spans, kind, ReplaceSpans(s, spans[1..], b, kind, memo1, true).1, token, rest);
    }
  }

  lemma WovenStep(s: string, spans: seq<Span>, from: nat, token: string, rest: seq<string>)
    requires Cuts(s, spans, from) && spans != [] && |rest| == |spans| - 1 && Cuts(s, spans[1..], spans[0].end)
    ensures var tail := s[EndOf(spans[1..], spans[0].end, |spans[1..]|)..];
      (s[from..spans[0].start] + token) + (Woven(s, spans[1..], spans[0].end, rest) + tail) ==
        Woven(s, spans, from, [token] + rest) + s[EndOf(spans, from, |spans|)..]
  {
    assert ([token] + rest)[1..] == rest;
    WovenCons(s, spans, from, [token] + rest);
    Assoc(s[from..spans[0].start] + token, Woven(s, spans[1..], spans[0].end, rest),
      s[EndOf(spans, from, |spans|)..]);
  }

  lemma EntriesStep(s: string, spans: seq<Span>, kind: PiiType, memo: Memo, token: string, rest: seq<string>)
    requires spans != [] && |rest| == |spans| - 1 && HasEntry(memo, kind, Under(s, spans[0]), token)
    requires forall i :: 0 <= i < |rest| ==> HasEntry(memo, kind, Under(s, spans[1..][i]), rest[i])
    ensures forall i :: 0 <= i < |spans| ==> HasEntry(memo, kind, Under(s, spans[i]), ([token] + rest)[i])
  {
    forall i | 0 < i < |spans| ensures HasEntry(memo, kind, Under(s, spans[i]), ([token] + rest)[i]) {
      assert spans[1..][i - 1] == spans[i];
    }
  }

  lemma MatchedCons(kind: PiiType, s: string, spans: seq<Span>)
    requires spans != []
    ensures Matched(kind, s, spans) == [(kind, Under(s, spans[0]))] + Matched(kind, s, spans[1..])
  {
  }

  /** The pass finds what lies under its spans, in order. */
  lemma {:induction false} SpansRecord(s: string, spans: seq<Span>, from: nat, kind: PiiType, memo: Memo,
      found: seq<(PiiType, string)>)
    requires from <= |s| && IsMatchList(s, spans, from) && Records(memo, found)
    ensures Records(ReplaceSpans(s, spans, from, kind, memo, true).1, found + Matched(kind, s, spans))
    decreases |spans|
  {
    if spans == [] {
      assert found + Matched(kind, s, spans) == found;
    } else {
      var Span(a, b) := spans[0];
      InternRecords(memo, found, kind, s[a..b]);
      SpansRecord(s, spans[1..], b, kind, Intern(memo, kind, s[a..b], true).1, found + [(kind, s[a..b])]);
      MatchedCons(kind, s, spans);
      Assoc(found, [(kind, s[a..b])], Matched(kind, s, spans[1..]));
    }
  }

  // ---------- all passes ----------

  lemma {:induction false} PassesSplit(rules: seq<Rule>, n: nat, s: string, memo: Memo)
    requires AllMatch(rules) && n <= |rules|
    ensures var (out, memo1) := Passes(rules[..n], s, memo, true);
      Passes(rules, s, memo, true) == Passes(rules[n..], out, memo1, true)
    decreases n
  {
    if n == 0 {
      assert rules[..0] == [] && rules[0..] == rules;
    } else {
      var (out, memo1) := ReplaceSpans(s, rules[0].matches(s), 0, rules[0].kind, memo, true);
      PassesSplit(rules[1..], n - 1, out, memo1);
      assert rules[..n][1..] == rules[1..][..n - 1] && rules[..n][0] == rules[0];
      assert rules[1..][n - 1..] == rules[n..];
    }
  }

  /** Text and memo after the first `n` rules. */
  function After(rules: seq<Rule>, text: string, n: nat): (string, Memo)
    requires AllMatch(rules) && n <= |rules|
  {
    Passes(rules[..n], text, EMPTY_MEMO, true)
  }

  lemma AfterStep(rules: seq<Rule>, text: string, n: nat)
    requires AllMatch(rules) && n < |rules|
    ensures var (out, memo) := After(rules, text, n);
      After(rules, text, n + 1) == ReplaceSpans(out, rules[n].matches(out), 0, rules[n].kind, memo, true)
  {
    var (out, memo) := After(rules, text, n);
    var some := rules[..n + 1];
    PassesSplit(some, n, text, EMPTY_MEMO);
    assert some[..n] == rules[..n] && some[n..] == [rules[n]] && [rules[n]][1..] == [];
    assert Passes([], ReplaceSpans(out, rules[n].matches(out), 0, rules[n].kind, memo, true).0,
      ReplaceSpans(out, rules[n].matches(out), 0, rules[n].kind, memo, true).1, true) ==
        ReplaceSpans(out, rules[n].matches(out), 0, rules[n].kind, memo, true);
  }

  lemma PassRecords(s: string, rule: Rule, memo: Memo, found: seq<(PiiType, string)>)
    requires IsMatchList(s, rule.matches(s), 0) && KeysTell(memo) && Records(memo, found)
    ensures var memo' := ReplaceSpans(s, rule.matches(s), 0, rule.kind, memo, true).1;
      KeysTell(memo') && Records(memo', found + Matched(rule.kind, s, rule.matches(s)))
  {
    var tokens := SpansWoven(s, rule.matches(s), 0, rule.kind, memo);
    SpansRecord(s, rule.matches(s), 0, rule.kind, memo, found);
  }

  lemma NothingRecorded()
    ensures KeysTell(EMPTY_MEMO) && Records(EMPTY_MEMO, [])
  {
  }

  lemma {:induction false} AfterTells(rules: seq<Rule>, text: string, n: nat)
    requires AllMatch(rules) && n <= |rules|
    ensures KeysTell(After(rules, text, n).1)
    ensures Records(After(rules, text, n).1, Found(rules, text, n))
  {
    if n == 0 {
      assert rules[..0] == [];
      NothingRecorded();
    } else {
      AfterTells(rules, text, n - 1);
      AfterStep(rules, text, n - 1);
      var (out, memo) := After(rules, text, n - 1);
      PassRecords(out, rules[n - 1], memo, Found(rules, text, n - 1));
    }
  }

  lemma StepExtends(rules: seq<Rule>, text: string, n: nat)
    requires AllMatch(rules) && n < |rules|
    ensures Extended(After(rules, text, n).1, After(rules, text, n + 1).1)
  {
    AfterTells(rules, text, n);
    AfterStep(rules, text, n);
    var (out, memo) := After(rules, text, n);
    var tokens := SpansWoven(out, rules[n].matches(out), 0, rules[n].kind, memo);
  }

  /** Later rules keep the entries. */
  lemma {:induction false} AfterExtends(rules: seq<Rule>, text: string, n: nat, m: nat)
    requires AllMatch(rules) && n <= m <= |rules|
    ensures Extended(After(rules, text, n).1, After(rules, text, m).1)
    decreases m
  {
    if n < m {
      AfterExtends(rules, text, n, m - 1);
      StepExtends(rules, text, m - 1);
    }
  }

  lemma {:induction false} EntriesInOrder(memo: Memo, order: seq<string>)
    requires forall key :: key in order ==> key in memo.entries
    ensures |EntriesOf(memo, order)| == |order|
    ensures forall i :: 0 <= i < |order| ==> EntriesOf(memo, order)[i] == memo.entries[order[i]]
  {
    if order != [] {
      var n := |order| - 1;
      assert order[n] in order && forall key :: key in order[..n] ==> key in order;
      EntriesInOrder(memo, order[..n]);
    }
  }

  lemma WholeRun(rules: seq<Rule>, text: string)
    requires AllMatch(rules)
    ensures Scrubbed(rules, text, true) ==
      (After(rules, text, |rules|).0, EntriesOf(After(rules, text, |rules|).1, After(rules, text, |rules|).1.order))
    ensures Before(rules, text, |rules|) == Scrubbed(rules, text, true).0
  {
    assert rules[..|rules|] == rules;
  }

  // ---------- main results ----------

  /**
   * Every rule's pass, on the text that the rules before it left: each match is replaced by the token under which the
   * final map lists that type and that text, and everything else is copied.
   */
  lemma PassReplacesMatches(rules: seq<Rule>, text: string, k: nat) returns (tokens: seq<string>)
    requires AllMatch(rules) && k < |rules|
    ensures var s := Before(rules, text, k);
      var spans := rules[k].matches(s);
      && Cuts(s, spans, 0) && |tokens| == |spans|
      && Before(rules, text, k + 1) == Spliced(s, spans, tokens)
      && forall i :: 0 <= i < |spans| ==>
        Lists(Scrubbed(rules, text, true).1, rules[k].kind, Under(s, spans[i]), tokens[i])
  {
    var (s, memo) := After(rules, text, k);
    var spans := rules[k].matches(s);
    AfterTells(rules, text, k);
    AfterStep(rules, text, k);
    tokens := SpansWoven(s, spans, 0, rules[k].kind, memo);
    AfterExtends(rules, text, k + 1, |rules|);
    forall i | 0 <= i < |spans|
      ensures Lists(Scrubbed(rules, text, true).1, rules[k].kind, Under(s, spans[i]), tokens[i])
    {
      EntryIsListed(rules, text, rules[k].kind, Under(s, spans[i]), tokens[i]);
    }
  }

  lemma EntryIsListed(rules: seq<Rule>, text: string, kind: PiiType, original: string, token: string)
    requires AllMatch(rules) && HasEntry(After(rules, text, |rules|).1, kind, original, token)
    ensures Lists(Scrubbed(rules, text, true).1, kind, original, token)
  {
    var memo := After(rules, text, |rules|).1;
    WholeRun(rules, text);
    AfterTells(rules, text, |rules|);
    EntriesMembers(memo, memo.order);
    assert KeyText(kind, original) in memo.order;
  }

  /** The map lists each type and text that some rule matched, once, in order of first match, and nothing else. */
  lemma MapListsMatches(rules: seq<Rule>, text: string)
    requires AllMatch(rules)
    ensures var tokenMap := Scrubbed(rules, text, true).1;
      var firsts := Firsts(Found(rules, text, |rules|));
      && |tokenMap| == |firsts|
      && (forall i :: 0 <= i < |firsts| ==>
            tokenMap[i].kind == firsts[i].0 && tokenMap[i].original == Some(firsts[i].1))
      && forall i, j :: 0 <= i < j < |firsts| ==> firsts[i] != firsts[j]
  {
    var memo := After(rules, text, |rules|).1;
    WholeRun(rules, text);
    AfterTells(rules, text, |rules|);
    EntriesInOrder(memo, memo.order);
    Dedupe.KeysAreSeen(AsIs(), Found(rules, text, |rules|));
    var firsts := Firsts(Found(rules, text, |rules|));
    forall i | 0 <= i < |firsts|
      ensures memo.entries[memo.order[i]].kind == firsts[i].0
        && memo.entries[memo.order[i]].original == Some(firsts[i].1)
    {
      assert memo.order[i] in memo.order && memo.order[i] == KeyText(firsts[i].0, firsts[i].1);
    }
  }

  /** So a type and a text have one token. */
  lemma OneTokenEach(rules: seq<Rule>, text: string, kind: PiiType, original: string, v: string, w: string)
    requires AllMatch(rules)
    requires Lists(Scrubbed(rules, text, true).1, kind, original, v)
    requires Lists(Scrubbed(rules, text, true).1, kind, original, w)
    ensures v == w
  {
    MapListsMatches(rules, text);
    var tokenMap := Scrubbed(rules, text, true).1;
    var i :| 0 <= i < |tokenMap| && tokenMap[i] == PiiToken(v, kind, Some(original));
    var j :| 0 <= j < |tokenMap| && tokenMap[j] == PiiToken(w, kind, Some(original));
    assert i == j;
  }
}
