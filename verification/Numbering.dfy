/** The tokens of each type are numbered 1, 2, 3, ... in the order of the token map. */
module Numbering {
  import opened Base
  import opened Sequences
  import opened Replacement
  import opened Scrubber
  import opened ScrubberLaws

  function CountKind(tokenMap: seq<PiiToken>, kind: PiiType): nat {
    if tokenMap == [] then 0
    else CountKind(tokenMap[..|tokenMap| - 1], kind) + if tokenMap[|tokenMap| - 1].kind == kind then 1 else 0
  }

  /** Each token carries the next number of its type. */
  predicate Numbered(tokenMap: seq<PiiToken>) {
    tokenMap == [] ||
    var n := |tokenMap| - 1;
    && Numbered(tokenMap[..n])
    && tokenMap[n].token == TokenText(tokenMap[n].kind, CountKind(tokenMap[..n], tokenMap[n].kind) + 1)
  }

  predicate HasToken(tokenMap: seq<PiiToken>, kind: PiiType, w: string) {
    exists e :: e in tokenMap && e.kind == kind && e.token == w
  }

  /** The token of the type with a number from 1 to `count`. */
  predicate HasNumber(count: nat, kind: PiiType, w: string) {
    exists m: nat :: 1 <= m <= count && w == TokenText(kind, m)
  }

  lemma HasNumberStep(count: nat, kind: PiiType, w: string)
    ensures HasNumber(count + 1, kind, w) <==> HasNumber(count, kind, w) || w == TokenText(kind, count + 1)
  {
  }

  lemma HasTokenStep(tokenMap: seq<PiiToken>, e: PiiToken, kind: PiiType, w: string)
    ensures HasToken(tokenMap + [e], kind, w) <==> HasToken(tokenMap, kind, w) || (e.kind == kind && e.token == w)
  {
    assert e in tokenMap + [e];
  }

  /** The tokens of a type are exactly those numbered from 1 to the number of its entries. */
  lemma {:induction false} IssuedExactly(tokenMap: seq<PiiToken>, kind: PiiType, w: string)
    requires Numbered(tokenMap)
    ensures HasToken(tokenMap, kind, w) <==> HasNumber(CountKind(tokenMap, kind), kind, w)
  {
    if tokenMap != [] {
      var n := |tokenMap| - 1;
      IssuedExactly(tokenMap[..n], kind, w);
      Snoc(tokenMap, n);
      assert tokenMap[..n + 1] == tokenMap;
      HasTokenStep(tokenMap[..n], tokenMap[n], kind, w);
      HasNumberStep(CountKind(tokenMap[..n], kind), kind, w);
    }
  }

  // ---------- scrubbing numbers its tokens ----------

  /** The counters count the entries of each type. */
  ghost predicate Counting(memo: Memo, tokenMap: seq<PiiToken>) {
    forall kind :: CounterOf(memo, kind) == CountKind(tokenMap, kind)
  }

  /** The memo lists only keys it holds, its entries are numbered, and its counters count them. */
  ghost predicate InSequence(memo: Memo) {
    && (forall key :: key in memo.order ==> key in memo.entries)
    && Numbered(EntriesOf(memo, memo.order))
    && Counting(memo, EntriesOf(memo, memo.order))
  }

  lemma {:induction false} EntriesKept(memo: Memo, memo': Memo, order: seq<string>)
    requires forall key :: key in order ==>
      key in memo.entries && key in memo'.entries && memo'.entries[key] == memo.entries[key]
    ensures EntriesOf(memo', order) == EntriesOf(memo, order)
  {
    if order != [] {
      var n := |order| - 1;
      assert order[n] in order && forall key :: key in order[..n] ==> key in order;
      EntriesKept(memo, memo', order[..n]);
    }
  }

  lemma InternAppends(memo: Memo, kind: PiiType, original: string, keep: bool)
    requires forall key :: key in memo.order ==> key in memo.entries
    requires KeyText(kind, original) !in memo.entries
    ensures var memo' := Intern(memo, kind, original, keep).1;
      EntriesOf(memo', memo'.order) == EntriesOf(memo, memo.order) + [memo'.entries[KeyText(kind, original)]]
  {
    var memo' := Intern(memo, kind, original, keep).1;
    EntriesKept(memo, memo', memo.order);
    assert memo'.order[..|memo.order|] == memo.order;
  }

  lemma NumberedSnoc(tokenMap: seq<PiiToken>, e: PiiToken)
    requires Numbered(tokenMap) && e.token == TokenText(e.kind, CountKind(tokenMap, e.kind) + 1)
    ensures Numbered(tokenMap + [e])
  {
    assert (tokenMap + [e])[..|tokenMap|] == tokenMap;
  }

  lemma CountSnoc(tokenMap: seq<PiiToken>, e: PiiToken, kind: PiiType)
    ensures CountKind(tokenMap + [e], kind) == CountKind(tokenMap, kind) + if e.kind == kind then 1 else 0
  {
    assert (tokenMap + [e])[..|tokenMap|] == tokenMap;
  }

  lemma InternCounts(memo: Memo, kind: PiiType, original: string, keep: bool)
    requires KeyText(kind, original) !in memo.entries
    ensures var memo' := Intern(memo, kind, original, keep).1;
      var e := memo'.entries[KeyText(kind, original)];
      && e.kind == kind && e.token == TokenText(kind, CounterOf(memo, kind) + 1)
      && forall k :: CounterOf(memo', k) == CounterOf(memo, k) + if kind == k then 1 else 0
  {
  }

  lemma CountingStep(memo: Memo, memo': Memo, tokenMap: seq<PiiToken>, e: PiiToken)
    requires Counting(memo, tokenMap)
    requires forall k :: CounterOf(memo', k) == CounterOf(memo, k) + if e.kind == k then 1 else 0
    ensures Counting(memo', tokenMap + [e])
  {
    forall kind ensures CounterOf(memo', kind) == CountKind(tokenMap + [e], kind) {
      CountSnoc(tokenMap, e, kind);
    }
  }

  lemma SequenceStep(memo: Memo, memo': Memo, before: seq<PiiToken>, e: PiiToken)
    requires Numbered(before) && Counting(memo, before)
    requires e.token == TokenText(e.kind, CounterOf(memo, e.kind) + 1)
    requires forall k :: CounterOf(memo', k) == CounterOf(memo, k) + if e.kind == k then 1 else 0
    ensures Numbered(before + [e]) && Counting(memo', before + [e])
  {
    NumberedSnoc(before, e);
    CountingStep(memo, memo', before, e);
  }

  lemma InternInSequence(memo: Memo, kind: PiiType, original: string, keep: bool)
    requires InSequence(memo)
    ensures InSequence(Intern(memo, kind, original, keep).1)
  {
    if KeyText(kind, original) !in memo.entries {
      var memo' := Intern(memo, kind, original, keep).1;
      InternAppends(memo, kind, original, keep);
      InternCounts(memo, kind, original, keep);
      SequenceStep(memo, memo', EntriesOf(memo, memo.order), memo'.entries[KeyText(kind, original)]);
    }
  }

  lemma {:induction false} SpansInSequence(s: string, spans: seq<Span>, from: nat, kind: PiiType, memo: Memo,
      keep: bool)
    requires from <= |s| && IsMatchList(s, spans, from) && InSequence(memo)
    ensures InSequence(ReplaceSpans(s, spans, from, kind, memo, keep).1)
    decreases |spans|
  {
    if spans != [] {
      var Span(a, b) := spans[0];
      InternInSequence(memo, kind, s[a..b], keep);
      SpansInSequence(s, spans[1..], b, kind, Intern(memo, kind, s[a..b], keep).1, keep);
    }
  }

  lemma {:induction false} PassesInSequence(rules: seq<Rule>, s: string, memo: Memo, keep: bool)
    requires AllMatch(rules) && InSequence(memo)
    ensures InSequence(Passes(rules, s, memo, keep).1)
    decreases |rules|
  {
    if rules != [] {
      var spans := rules[0].matches(s);
      SpansInSequence(s, spans, 0, rules[0].kind, memo, keep);
      var (out, memo1) := ReplaceSpans(s, spans, 0, rules[0].kind, memo, keep);
      PassesInSequence(rules[1..], out, memo1, keep);
    }
  }

  /**
   * For every text and every rules: the tokens issued for a type are exactly `[TYPE_1]` to `[TYPE_c]`, where c is the
   * number of its entries, and they stand in the token map in that order.
   */
  lemma TokensAreNumbered(rules: seq<Rule>, text: string, keep: bool, kind: PiiType, w: string)
    requires AllMatch(rules)
    ensures var tokenMap := Scrubbed(rules, text, keep).1;
      && Numbered(tokenMap)
      && (HasToken(tokenMap, kind, w) <==> HasNumber(CountKind(tokenMap, kind), kind, w))
  {
    PassesInSequence(rules, text, EMPTY_MEMO, keep);
    IssuedExactly(Scrubbed(rules, text, keep).1, kind, w);
  }

  lemma {:induction false} NumberedHaveTokens(tokenMap: seq<PiiToken>)
    requires Numbered(tokenMap)
    ensures HasTokens(tokenMap)
  {
    if tokenMap != [] {
      var n := |tokenMap| - 1;
      NumberedHaveTokens(tokenMap[..n]);
      Snoc(tokenMap, n);
      assert tokenMap[..n + 1] == tokenMap;
    }
  }

  /** Every map that a scrub returns, with or without originals, can be handed to unscrub. */
  lemma ScrubbedHasTokens(rules: seq<Rule>, text: string, keep: bool)
    requires AllMatch(rules)
    ensures HasTokens(Scrubbed(rules, text, keep).1)
  {
    PassesInSequence(rules, text, EMPTY_MEMO, keep);
    NumberedHaveTokens(Scrubbed(rules, text, keep).1);
  }
}
