/** Scrubbing and restoring: the round trip, exactly when it holds, and what tokens identify. */
module RoundTrip {
  import opened Base
  import opened Decimal
  import opened Sequences
  import opened Replacement
  import opened Pieces
  import opened Scrubber
  import opened ScrubberLaws
  import opened Numbering

  // ---------- restoring, seen on pieces ----------

  /** The string when the tokens in `known` have been replaced by their values. */
  function View(ps: seq<Piece>, known: map<string, string>): string {
    if ps == [] then ""
    else (match ps[0]
          case Ch(c) => [c]
          case Tok(t, _) => if t in known then known[t] else t) + View(ps[1..], known)
  }

  /** Tokens are bracketed; a known or next token's value is bracket-free and is what the text had there. */
  ghost predicate Truthful(ps: seq<Piece>, known: map<string, string>) {
    && (forall t :: t in known ==> NoBrackets(known[t]))
    && (forall p :: p in ps && p.Tok? ==> Bracketed(p.token) && (p.token in known ==> known[p.token] == p.source))
  }

  lemma TruthfulTail(ps: seq<Piece>, known: map<string, string>)
    requires Truthful(ps, known) && ps != []
    ensures Truthful(ps[1..], known)
  {
    assert forall p :: p in ps[1..] ==> p in ps;
  }

  lemma PrefixOfConcat(p: string, w: string, s: string, t: string)
    requires p <= w + s
    requires |w| < |p| && p[|w|..] <= s ==> p[|w|..] <= t
    ensures p <= w + t
  {
    assert p == (w + s)[..|p|];
    if |p| <= |w| {
      assert p == w[..|p|] && p == (w + t)[..|p|];
    } else {
      assert p[|w|..] == s[..|p| - |w|];
      assert p[..|w|] == w;
      assert p == w + p[|w|..];
    }
  }

  /** Bracket-opening-free text at the head of a view stands at the head of the original too. */
  lemma {:induction false} TailInFull(ps: seq<Piece>, known: map<string, string>, p: string)
    requires Truthful(ps, known) && p <= View(ps, known)
    requires forall i :: 0 <= i < |p| ==> p[i] != '['
    ensures p <= Full(ps)
    decreases |ps|
  {
    if p != "" {
      assert ps[0] in ps;
      TruthfulTail(ps, known);
      var w := match ps[0] case Ch(c) => [c] case Tok(t, _) => if t in known then known[t] else t;
      assert View(ps, known) == w + View(ps[1..], known);
      assert p[0] == View(ps, known)[0];
      if |w| < |p| {
        assert p[|w|..] <= View(ps[1..], known) by {
          assert p == (w + View(ps[1..], known))[..|p|];
        }
        TailInFull(ps[1..], known, p[|w|..]);
      }
      if w != "" {
        assert p[0] == w[0];
      }
      assert Full(ps) == w + Full(ps[1..]);
      PrefixOfConcat(p, w, View(ps[1..], known), Full(ps[1..]));
    }
  }

  /** Replacing one more token by what the text had there; the token itself is nowhere in the text. */
  lemma {:induction false} ReplaceView(ps: seq<Piece>, known: map<string, string>, k: string, value: string)
    requires Truthful(ps, known) && k !in known && Truthful(ps, known[k := value])
    requires Bracketed(k) && !Occurs(k, Full(ps))
    ensures Replace(View(ps, known), k, value) == View(ps, known[k := value])
    decreases |ps|
  {
    if ps != [] {
      TruthfulTail(ps, known);
      TruthfulTail(ps, known[k := value]);
      assert ps[0] in ps;
      var rest := View(ps[1..], known);
      if Occurs(k, Full(ps[1..])) {
        OccursSuffix(k, SourceOf(ps[0]), Full(ps[1..]));
      }
      ReplaceView(ps[1..], known, k, value);
      match ps[0] {
        case Ch(c) =>
          if k <= [c] + rest {
            HeadInFull(ps, known, k, c);
          }
          assert ([c] + rest)[1..] == rest;
        case Tok(t, _) =>
          if t in known {
            SkipPlain(known[t], rest, k, value);
          } else {
            SkipToken(t, rest, k, value);
          }
      }
    }
  }

  lemma HeadInFull(ps: seq<Piece>, known: map<string, string>, k: string, c: char)
    requires Truthful(ps, known) && Bracketed(k) && ps != [] && ps[0] == Ch(c)
    requires k <= [c] + View(ps[1..], known)
    ensures Occurs(k, Full(ps))
  {
    TruthfulTail(ps, known);
    forall i | 0 <= i < |k[1..]| ensures k[1..][i] != '[' {
      BracketedInside(k, i + 1);
    }
    assert k[1..] <= View(ps[1..], known);
    TailInFull(ps[1..], known, k[1..]);
    assert k == [c] + k[1..];
    assert k <= Full(ps)[0..];
  }

  function Known(pairs: seq<(string, string)>, known: map<string, string>): map<string, string> {
    if pairs == [] then known else Known(pairs[1..], known[pairs[0].0 := pairs[0].1])
  }

  ghost predicate DistinctTokens(pairs: seq<(string, string)>) {
    forall i, j :: 0 <= i < j < |pairs| ==> pairs[i].0 != pairs[j].0
  }

  /** Each pair's token is bracketed, its value bracket-free, and its pieces show that value. */
  ghost predicate Honest(ps: seq<Piece>, pairs: seq<(string, string)>) {
    forall q :: q in pairs ==>
      && Bracketed(q.0) && NoBrackets(q.1)
      && forall p :: p in ps && p.Tok? && p.token == q.0 ==> p.source == q.1
  }

  lemma {:induction false} RestoreView(ps: seq<Piece>, known: map<string, string>, pairs: seq<(string, string)>)
    requires Truthful(ps, known) && Honest(ps, pairs) && DistinctTokens(pairs) && Replaceable(pairs)
    requires forall q :: q in pairs ==> q.0 !in known && !Occurs(q.0, Full(ps))
    ensures Restore(View(ps, known), pairs) == View(ps, Known(pairs, known))
    ensures Truthful(ps, Known(pairs, known))
    decreases |pairs|
  {
    if pairs != [] {
      var (k, value) := pairs[0];
      assert pairs[0] in pairs;
      var known1 := known[k := value];
      ReplaceView(ps, known, k, value);
      forall q | q in pairs[1..] ensures q in pairs && q.0 !in known1 && !Occurs(q.0, Full(ps)) {
        var i :| 0 <= i < |pairs[1..]| && pairs[1..][i] == q;
        assert pairs[i + 1] == q && pairs[0].0 != pairs[i + 1].0;
      }
      assert DistinctTokens(pairs[1..]) by {
        forall i, j | 0 <= i < j < |pairs[1..]| ensures pairs[1..][i].0 != pairs[1..][j].0 {
          assert pairs[1..][i] == pairs[i + 1] && pairs[1..][j] == pairs[j + 1];
        }
      }
      RestoreView(ps, known1, pairs[1..]);
    }
  }

  lemma {:induction false} ViewNothing(ps: seq<Piece>)
    ensures View(ps, map[]) == Shown(ps)
  {
    if ps != [] {
      ViewNothing(ps[1..]);
    }
  }

  lemma {:induction false} ViewAll(ps: seq<Piece>, known: map<string, string>)
    requires Truthful(ps, known)
    requires forall p :: p in ps && p.Tok? && p.token !in known ==> p.source == p.token
    ensures View(ps, known) == Full(ps)
  {
    if ps != [] {
      TruthfulTail(ps, known);
      assert ps[0] in ps;
      assert forall p :: p in ps[1..] ==> p in ps;
      ViewAll(ps[1..], known);
    }
  }

  lemma {:induction false} KnownHas(pairs: seq<(string, string)>, known: map<string, string>, t: string)
    ensures t in Known(pairs, known) <==> t in known || exists q :: q in pairs && q.0 == t
  {
    if pairs != [] {
      KnownHas(pairs[1..], known[pairs[0].0 := pairs[0].1], t);
      assert forall q :: q in pairs <==> q == pairs[0] || q in pairs[1..];
    }
  }

  // ---------- when a token of the map stood in the text ----------

  function SumOfCounts(s: string, pairs: seq<(string, string)>): nat
    requires Replaceable(pairs)
  {
    if pairs == [] then 0
    else
      assert pairs[0] in pairs;
      Count(s, pairs[0].0) + SumOfCounts(s, pairs[1..])
  }

  ghost predicate Swappable(pairs: seq<(string, string)>) {
    && Replaceable(pairs) && DistinctTokens(pairs)
    && forall q :: q in pairs ==> Bracketed(q.0) && NoBrackets(q.1)
  }

  lemma SwappableTail(pairs: seq<(string, string)>)
    requires Swappable(pairs) && pairs != []
    ensures Swappable(pairs[1..])
    ensures forall q :: q in pairs[1..] ==> q.0 != pairs[0].0
  {
    forall i, j | 0 <= i < j < |pairs[1..]| ensures pairs[1..][i].0 != pairs[1..][j].0 {
      assert pairs[1..][i] == pairs[i + 1] && pairs[1..][j] == pairs[j + 1];
    }
    forall q | q in pairs[1..] ensures q in pairs && q.0 != pairs[0].0 {
      var i :| 0 <= i < |pairs[1..]| && pairs[1..][i] == q;
      assert pairs[i + 1] == q;
    }
  }

  lemma {:induction false} SumGrows(s: string, k: string, value: string, pairs: seq<(string, string)>)
    requires Swappable(pairs) && Bracketed(k) && NoBrackets(value) && forall q :: q in pairs ==> q.0 != k
    ensures SumOfCounts(Replace(s, k, value), pairs) >= SumOfCounts(s, pairs)
    decreases |pairs|
  {
    if pairs != [] {
      assert pairs[0] in pairs;
      SwappableTail(pairs);
      assert forall q :: q in pairs[1..] ==> q in pairs;
      CountGrows(s, k, value, pairs[0].0);
      SumGrows(s, k, value, pairs[1..]);
    }
  }

  /** Restoring removes at least one opening bracket per occurrence of a token of the map. */
  lemma {:induction false} RestoreRemoves(s: string, pairs: seq<(string, string)>)
    requires Swappable(pairs)
    ensures Brackets(Restore(s, pairs)) + SumOfCounts(s, pairs) <= Brackets(s)
    decreases |pairs|
  {
    if pairs != [] {
      assert pairs[0] in pairs;
      var (k, value) := pairs[0];
      SwappableTail(pairs);
      BracketsReplaced(s, k, value);
      SumGrows(s, k, value, pairs[1..]);
      RestoreRemoves(Replace(s, k, value), pairs[1..]);
    }
  }

  ghost predicate BracketedPieces(ps: seq<Piece>) {
    forall p :: p in ps && p.Tok? ==> Bracketed(p.token) && (p.source == p.token || NoBrackets(p.source))
  }

  lemma BracketedPiecesTail(ps: seq<Piece>)
    requires BracketedPieces(ps) && ps != []
    ensures BracketedPieces(ps[1..])
  {
    assert forall p :: p in ps[1..] ==> p in ps;
  }

  predicate Mentions(pairs: seq<(string, string)>, t: string) {
    exists q :: q in pairs && q.0 == t
  }

  /** Pieces that add a bracket neither in vain nor by a token of the map. */
  function Kept(ps: seq<Piece>, pairs: seq<(string, string)>): nat {
    if ps == [] then 0
    else (match ps[0]
          case Ch(c) => if c == '[' then 1 else 0
          case Tok(t, _) => if Mentions(pairs, t) then 0 else 1) + Kept(ps[1..], pairs)
  }

  /** Adding a piece in front adds its own token to the counts, once. */
  lemma {:induction false} CountsOfCons(p: Piece, s: string, pairs: seq<(string, string)>)
    requires Swappable(pairs) && (p.Tok? ==> Bracketed(p.token))
    ensures SumOfCounts(ShownBy(p) + s, pairs)
         >= SumOfCounts(s, pairs) + (if p.Tok? && Mentions(pairs, p.token) then 1 else 0)
    decreases |pairs|
  {
    if pairs != [] {
      assert pairs[0] in pairs;
      SwappableTail(pairs);
      CountsOfCons(p, s, pairs[1..]);
      var k := pairs[0].0;
      match p {
        case Ch(c) => CountCons(c, s, k);
        case Tok(t, _) =>
          SkipToken(t, s, k, "");
          assert Mentions(pairs, t) <==> t == k || Mentions(pairs[1..], t);
      }
    }
  }

  lemma {:induction false} ShownBrackets(ps: seq<Piece>, pairs: seq<(string, string)>)
    requires Swappable(pairs) && BracketedPieces(ps)
    ensures Brackets(Shown(ps)) <= Kept(ps, pairs) + SumOfCounts(Shown(ps), pairs)
  {
    if ps != [] {
      assert ps[0] in ps;
      BracketedPiecesTail(ps);
      ShownBrackets(ps[1..], pairs);
      CountsOfCons(ps[0], Shown(ps[1..]), pairs);
      BracketsConcat(ShownBy(ps[0]), Shown(ps[1..]));
      match ps[0] {
        case Ch(c) => assert [c][1..] == "";
        case Tok(t, _) => BracketsToken(t);
      }
    }
  }

  /** The original has a bracket for each kept one, and one more for each literal token of the map. */
  lemma {:induction false} FullBrackets(ps: seq<Piece>, pairs: seq<(string, string)>)
    requires BracketedPieces(ps)
    requires forall p :: p in ps && p.Tok? && !Mentions(pairs, p.token) ==> p.source == p.token
    ensures Brackets(Full(ps)) >= Kept(ps, pairs)
    ensures (exists p :: p in ps && p.Tok? && p.source == p.token && Mentions(pairs, p.token)) ==>
      Brackets(Full(ps)) > Kept(ps, pairs)
  {
    if ps != [] {
      assert ps[0] in ps;
      BracketedPiecesTail(ps);
      assert forall p :: p in ps <==> p == ps[0] || p in ps[1..];
      FullBrackets(ps[1..], pairs);
      BracketsConcat(SourceOf(ps[0]), Full(ps[1..]));
      match ps[0] {
        case Ch(c) => assert [c][1..] == "";
        case Tok(t, source) =>
          if source == t {
            BracketsToken(t);
          }
      }
    }
  }

  // ---------- the pairs of a token map ----------

  lemma {:induction false} EntriesMembers(memo: Memo, order: seq<string>)
    ensures forall e :: e in EntriesOf(memo, order) <==>
      exists key :: key in order && key in memo.entries && memo.entries[key] == e
  {
    if order != [] {
      var n := |order| - 1;
      EntriesMembers(memo, order[..n]);
      assert order == order[..n] + [order[n]];
      forall e ensures e in EntriesOf(memo, order) <==>
        exists key :: key in order && key in memo.entries && memo.entries[key] == e {
        if e in EntriesOf(memo, order) {
          if e in EntriesOf(memo, order[..n]) {
            var key :| key in order[..n] && key in memo.entries && memo.entries[key] == e;
            assert key in order;
          } else {
            assert order[n] in order;
          }
        }
        if key :| key in order && key in memo.entries && memo.entries[key] == e {
          assert key in order[..n] || key == order[n];
        }
      }
    }
  }

  lemma {:induction false} EntriesDistinct(memo: Memo, order: seq<string>)
    requires TokensDiffer(memo)
    requires forall i, j :: 0 <= i < j < |order| ==> order[i] != order[j]
    ensures forall i, j :: 0 <= i < j < |EntriesOf(memo, order)| ==>
      EntriesOf(memo, order)[i].token != EntriesOf(memo, order)[j].token
  {
    if order != [] {
      var n := |order| - 1;
      EntriesDistinct(memo, order[..n]);
      EntriesMembers(memo, order[..n]);
      forall e | e in EntriesOf(memo, order[..n]) && order[n] in memo.entries
        ensures e.token != memo.entries[order[n]].token
      {
        var key :| key in order[..n] && key in memo.entries && memo.entries[key] == e;
      }
    }
  }

  /** The tokens of a map whose originals are all kept, with those originals, in map order. */
  function PairsOf(tokenMap: seq<PiiToken>): seq<(string, string)> {
    Collect(Restorable, tokenMap)
  }

  lemma {:induction false} PairsOfKept(tokenMap: seq<PiiToken>)
    requires forall e :: e in tokenMap ==> e.original.Some?
    ensures |PairsOf(tokenMap)| == |tokenMap|
    ensures forall i :: 0 <= i < |tokenMap| ==> PairsOf(tokenMap)[i] == (tokenMap[i].token, tokenMap[i].original.value)
  {
    if tokenMap != [] {
      var n := |tokenMap| - 1;
      assert tokenMap[n] in tokenMap;
      assert forall e :: e in tokenMap[..n] ==> e in tokenMap;
      PairsOfKept(tokenMap[..n]);
    }
  }

  /** Some issued token stood in the text to begin with. */
  predicate Clash(tokenMap: seq<PiiToken>, text: string) {
    exists e :: e in tokenMap && Occurs(e.token, text)
  }

  /** Every entry of the memo, as a pair: a shaped token and its bracket-free original. */
  lemma EntryFacts(memo: Memo, pairs: Pairs, key: string)
    requires MemoOk(memo, pairs, true) && key in memo.entries
    ensures var e := memo.entries[key];
      e.original == Some(pairs[key].1) && NoBrackets(pairs[key].1) && Bracketed(e.token)
  {
    assert EntryOk(memo, pairs, true, key);
    var n :| 1 <= n <= CounterOf(memo, pairs[key].0) && memo.entries[key].token == TokenText(pairs[key].0, n);
    TokenBracketed(pairs[key].0, n);
  }

  lemma EntriesFacts(memo: Memo, pairs: Pairs)
    requires MemoOk(memo, pairs, true)
    ensures var tm := EntriesOf(memo, memo.order);
      && (forall e :: e in tm <==> exists key :: key in memo.entries && memo.entries[key] == e)
      && (forall e :: e in tm ==> e.original.Some? && Bracketed(e.token) && NoBrackets(e.original.value))
      && (forall i, j :: 0 <= i < j < |tm| ==> tm[i].token != tm[j].token)
  {
    var tm := EntriesOf(memo, memo.order);
    EntriesMembers(memo, memo.order);
    EntriesDistinct(memo, memo.order);
    forall e | e in tm ensures e.original.Some? && Bracketed(e.token) && NoBrackets(e.original.value) {
      var key :| key in memo.order && key in memo.entries && memo.entries[key] == e;
      EntryFacts(memo, pairs, key);
    }
  }

  ghost predicate PairsAreEntries(memo: Memo, keyed: Pairs, pairs: seq<(string, string)>)
    requires memo.entries.Keys == keyed.Keys
  {
    forall q :: q in pairs <==> exists key :: key in memo.entries && q == (memo.entries[key].token, keyed[key].1)
  }

  lemma MemoPairsComplete(memo: Memo, key: string, value: string)
    requires key in memo.entries && key in memo.order && memo.entries[key].original == Some(value)
    requires forall e :: e in EntriesOf(memo, memo.order) ==> e.original.Some?
    ensures (memo.entries[key].token, value) in PairsOf(EntriesOf(memo, memo.order))
  {
    var tm := EntriesOf(memo, memo.order);
    EntriesMembers(memo, memo.order);
    PairsOfKept(tm);
    assert memo.entries[key] in tm;
    var i :| 0 <= i < |tm| && tm[i] == memo.entries[key];
    assert PairsOf(tm)[i] in PairsOf(tm);
  }

  lemma MemoPairsSound(memo: Memo, keyed: Pairs, q: (string, string))
    requires MemoOk(memo, keyed, true) && q in PairsOf(EntriesOf(memo, memo.order))
    ensures exists key :: key in memo.entries && q == (memo.entries[key].token, keyed[key].1)
    ensures Bracketed(q.0) && NoBrackets(q.1)
  {
    var tm := EntriesOf(memo, memo.order);
    EntriesFacts(memo, keyed);
    PairsOfKept(tm);
    var i :| 0 <= i < |tm| && PairsOf(tm)[i] == q;
    assert tm[i] in tm;
    var key :| key in memo.entries && memo.entries[key] == tm[i];
    EntryFacts(memo, keyed, key);
  }

  /** The token map of a memo, as pairs that can be swapped back. */
  lemma MemoPairs(memo: Memo, keyed: Pairs)
    requires MemoOk(memo, keyed, true)
    ensures HasTokens(EntriesOf(memo, memo.order)) && Swappable(PairsOf(EntriesOf(memo, memo.order)))
    ensures PairsAreEntries(memo, keyed, PairsOf(EntriesOf(memo, memo.order)))
  {
    var tm := EntriesOf(memo, memo.order);
    var ps := PairsOf(tm);
    forall q | q in ps
      ensures Bracketed(q.0) && NoBrackets(q.1)
      ensures exists key :: key in memo.entries && q == (memo.entries[key].token, keyed[key].1)
    {
      MemoPairsSound(memo, keyed, q);
    }
    EntriesFacts(memo, keyed);
    forall key | key in memo.entries ensures (memo.entries[key].token, keyed[key].1) in ps {
      EntryFacts(memo, keyed, key);
      MemoPairsComplete(memo, key, keyed[key].1);
    }
    PairsOfKept(tm);
  }

  /** Permuting pairs keeps them swappable and mentions the same tokens. */
  lemma SwappablePermuted(a: seq<(string, string)>, b: seq<(string, string)>)
    requires Swappable(a) && multiset(a) == multiset(b)
    ensures Swappable(b) && forall q :: q in a <==> q in b
  {
    forall q ensures q in a <==> q in b {
      assert q in multiset(a) <==> q in multiset(b);
    }
    forall i, j | 0 <= i < j < |b| ensures b[i].0 != b[j].0 {
      OnceInDistinct(a, b[i]);
      assert b == b[..j] + b[j..];
      assert b[i] in b[..j] && b[j] in b[j..];
      assert b[i] == b[j] ==> multiset(b)[b[i]] >= 2;
      var m :| 0 <= m < |a| && a[m] == b[i];
      var n :| 0 <= n < |a| && a[n] == b[j];
      assert m != n;
    }
  }

  lemma {:induction false} OnceInDistinct(a: seq<(string, string)>, q: (string, string))
    requires DistinctTokens(a)
    ensures multiset(a)[q] <= 1
  {
    if a != [] {
      var n := |a| - 1;
      OnceInDistinct(a[..n], q);
      assert a == a[..n] + [a[n]];
      if q == a[n] {
        assert q !in a[..n];
      }
    }
  }

  /** Everything known of a scrub whose pairs are about to be swapped back, in any order. */
  ghost predicate Ready(memo: Memo, keyed: Pairs, ps: seq<Piece>, text: string, pairs: seq<(string, string)>) {
    && MemoOk(memo, keyed, true) && PiecesOk(Shape(), memo, keyed, ps) && Full(ps) == text
    && Swappable(pairs) && PairsAreEntries(memo, keyed, pairs)
  }

  lemma ClashBreaks(memo: Memo, keyed: Pairs, ps: seq<Piece>, text: string, pairs: seq<(string, string)>, t: string)
    requires Ready(memo, keyed, ps, text, pairs)
    requires Mentions(pairs, t) && Tok(t, t) in ps
    ensures Restore(Shown(ps), pairs) != text
  {
    PiecesBracketed(memo, keyed, ps, pairs);
    RestoreRemoves(Shown(ps), pairs);
    ShownBrackets(ps, pairs);
    FullBrackets(ps, pairs);
  }

  lemma NoClashRestores(memo: Memo, keyed: Pairs, ps: seq<Piece>, text: string, pairs: seq<(string, string)>)
    requires Ready(memo, keyed, ps, text, pairs)
    requires !Clash(EntriesOf(memo, memo.order), text)
    ensures Restore(Shown(ps), pairs) == text
  {
    NoClashHonest(memo, keyed, ps, text, pairs);
    PiecesBracketed(memo, keyed, ps, pairs);
    RestoreView(ps, map[], pairs);
    ViewNothing(ps);
    forall p | p in ps && p.Tok? && p.token !in Known(pairs, map[]) ensures p.source == p.token {
      KnownHas(pairs, map[], p.token);
      assert !Mentions(pairs, p.token);
    }
    ViewAll(ps, Known(pairs, map[]));
  }

  /** The pieces of a scrub are swapped back by its pairs, in any order, unless a token stood in the text. */
  lemma RestoreIff(memo: Memo, keyed: Pairs, ps: seq<Piece>, text: string, pairs: seq<(string, string)>)
    requires MemoOk(memo, keyed, true) && PiecesOk(Shape(), memo, keyed, ps)
    requires HasLiterals(Shape(), ps, text) && Full(ps) == text
    requires forall key :: key in memo.entries ==> TokenShaped(memo.entries[key].token)
    requires multiset(pairs) == multiset(PairsOf(EntriesOf(memo, memo.order)))
    ensures Replaceable(pairs)
    ensures Restore(Shown(ps), pairs) == text <==> !Clash(EntriesOf(memo, memo.order), text)
  {
    var tm := EntriesOf(memo, memo.order);
    MemoPairs(memo, keyed);
    SwappablePermuted(PairsOf(tm), pairs);
    if Clash(tm, text) {
      var t := ClashingToken(memo, keyed, ps, text, pairs);
      ClashBreaks(memo, keyed, ps, text, pairs, t);
    } else {
      NoClashRestores(memo, keyed, ps, text, pairs);
    }
  }

  lemma ClashingToken(memo: Memo, keyed: Pairs, ps: seq<Piece>, text: string, pairs: seq<(string, string)>)
    returns (t: string)
    requires memo.entries.Keys == keyed.Keys && HasLiterals(Shape(), ps, text) && PairsAreEntries(memo, keyed, pairs)
    requires forall key :: key in memo.entries ==> TokenShaped(memo.entries[key].token)
    requires Clash(EntriesOf(memo, memo.order), text)
    ensures Mentions(pairs, t) && Tok(t, t) in ps
  {
    EntriesMembers(memo, memo.order);
    var e :| e in EntriesOf(memo, memo.order) && Occurs(e.token, text);
    var key :| key in memo.order && key in memo.entries && memo.entries[key] == e;
    t := e.token;
    assert TokenShaped(memo.entries[key].token);
    assert Shape()(t);
    assert (memo.entries[key].token, keyed[key].1) in pairs;
  }

  lemma PiecesBracketed(memo: Memo, keyed: Pairs, ps: seq<Piece>, pairs: seq<(string, string)>)
    requires MemoOk(memo, keyed, true) && PiecesOk(Shape(), memo, keyed, ps)
    requires PairsAreEntries(memo, keyed, pairs)
    ensures BracketedPieces(ps)
    ensures forall p :: p in ps && p.Tok? && !Mentions(pairs, p.token) ==> p.source == p.token
  {
    ShapeBracketed();
    forall p | p in ps && p.Tok?
      ensures Bracketed(p.token) && (p.source == p.token || (NoBrackets(p.source) && Mentions(pairs, p.token)))
    {
      assert PieceOk(Shape(), memo, keyed, p);
      if p.source != p.token {
        var key :| key in memo.entries && key in keyed
          && memo.entries[key].token == p.token && keyed[key].1 == p.source;
        EntryFacts(memo, keyed, key);
        assert (memo.entries[key].token, keyed[key].1) in pairs;
      }
    }
  }

  lemma {:induction false} LiteralOccurs(ps: seq<Piece>, t: string)
    requires Tok(t, t) in ps
    ensures Occurs(t, Full(ps))
  {
    if ps[0] == Tok(t, t) {
      OccursPrefix(t, Full(ps[1..]));
    } else {
      LiteralOccurs(ps[1..], t);
      OccursSuffix(t, SourceOf(ps[0]), Full(ps[1..]));
    }
  }

  lemma NoClashHonest(memo: Memo, keyed: Pairs, ps: seq<Piece>, text: string, pairs: seq<(string, string)>)
    requires MemoOk(memo, keyed, true) && PiecesOk(Shape(), memo, keyed, ps) && Full(ps) == text
    requires !Clash(EntriesOf(memo, memo.order), text) && Swappable(pairs)
    requires PairsAreEntries(memo, keyed, pairs)
    ensures Honest(ps, pairs)
    ensures forall q :: q in pairs ==> !Occurs(q.0, text)
  {
    EntriesMembers(memo, memo.order);
    forall q | q in pairs
      ensures !Occurs(q.0, text)
      ensures forall p :: p in ps && p.Tok? && p.token == q.0 ==> p.source == q.1
    {
      var key :| key in memo.entries && q == (memo.entries[key].token, keyed[key].1);
      assert memo.entries[key] in EntriesOf(memo, memo.order);
      forall p | p in ps && p.Tok? && p.token == q.0 ensures p.source == q.1 {
        assert PieceOk(Shape(), memo, keyed, p);
        if p.source == p.token {
          LiteralOccurs(ps, q.0);
        }
      }
    }
  }

  // ---------- main results ----------

  /** What scrubbing leaves behind, in the terms of the lemmas above. */
  lemma ScrubState(rules: seq<Rule>, text: string) returns (memo: Memo, keyed: Pairs, ps: seq<Piece>)
    requires AllMatch(rules) && AllAvoid(Shape(), rules) && |text| < LIMIT
    ensures (Shown(ps), EntriesOf(memo, memo.order)) == Scrubbed(rules, text, true)
    ensures MemoOk(memo, keyed, true) && PiecesOk(Shape(), memo, keyed, ps)
    ensures HasLiterals(Shape(), ps, text) && Full(ps) == text
    ensures forall key :: key in memo.entries ==> TokenShaped(memo.entries[key].token)
  {
    ps, keyed := ScrubPieces(rules, text, true);
    memo := Passes(rules, text, EMPTY_MEMO, true).1;
    forall key | key in memo.entries ensures TokenShaped(memo.entries[key].token) {
      assert EntryOk(memo, keyed, true, key);
      var n :| 1 <= n <= CounterOf(memo, keyed[key].0) && memo.entries[key].token == TokenText(keyed[key].0, n);
      assert n < LIMIT;
    }
  }

  /**
   * In every order of the replacements the text comes back exactly when none of the issued tokens occurs in it, so
   * that where the round trip succeeds the order does not matter to the result.
   */
  lemma AnyOrderWorks(rules: seq<Rule>, text: string, pairs: seq<(string, string)>)
    requires AllMatch(rules) && AllAvoid(Shape(), rules) && |text| < LIMIT
    requires multiset(pairs) == multiset(PairsOf(Scrubbed(rules, text, true).1))
    ensures Replaceable(pairs) && HasTokens(Scrubbed(rules, text, true).1)
    ensures var (out, tokenMap) := Scrubbed(rules, text, true);
      && (Restore(out, pairs) == text <==> !Clash(tokenMap, text))
      && (!Clash(tokenMap, text) ==> Restore(out, pairs) == Unscrubbed(out, tokenMap))
  {
    var memo, keyed, ps := ScrubState(rules, text);
    ScrubbedHasTokens(rules, text, true);
    RestoreIff(memo, keyed, ps, text, pairs);
    RestoreIff(memo, keyed, ps, text, RestoreOrder(Scrubbed(rules, text, true).1));
  }

  /**
   * The round trip. For any text and any rules whose matches hold no bracket and touch no token-shaped text,
   * unscrubbing the scrubbed text gives the text back exactly when none of the issued tokens occurs in the text.
   */
  lemma UnscrubUndoesScrub(rules: seq<Rule>, text: string)
    requires AllMatch(rules) && AllAvoid(Shape(), rules) && |text| < LIMIT
    ensures HasTokens(Scrubbed(rules, text, true).1)
    ensures var (out, tokenMap) := Scrubbed(rules, text, true);
      Unscrubbed(out, tokenMap) == text <==> !Clash(tokenMap, text)
  {
    AnyOrderWorks(rules, text, RestoreOrder(Scrubbed(rules, text, true).1));
  }

  /** So whether the round trip succeeds can be told from the text and the number of entries of each type. */
  lemma ClashByNumber(rules: seq<Rule>, text: string, keep: bool)
    requires AllMatch(rules)
    ensures var tokenMap := Scrubbed(rules, text, keep).1;
      Clash(tokenMap, text) <==>
        exists kind, m: nat :: 1 <= m <= CountKind(tokenMap, kind) && Occurs(TokenText(kind, m), text)
  {
    var tokenMap := Scrubbed(rules, text, keep).1;
    if Clash(tokenMap, text) {
      var e :| e in tokenMap && Occurs(e.token, text);
      TokensAreNumbered(rules, text, keep, e.kind, e.token);
      assert HasToken(tokenMap, e.kind, e.token);
    }
    if kind, m: nat :| 1 <= m <= CountKind(tokenMap, kind) && Occurs(TokenText(kind, m), text) {
      TokensAreNumbered(rules, text, keep, kind, TokenText(kind, m));
      assert HasNumber(CountKind(tokenMap, kind), kind, TokenText(kind, m));
    }
  }

  lemma NoTokenInPlainText(w: string, text: string)
    requires Bracketed(w) && NoBrackets(text)
    ensures !Occurs(w, text)
  {
    forall i | 0 <= i <= |text| ensures !(w <= text[i..]) {
      if i < |text| {
        assert text[i..][0] == text[i] != '[';
      }
    }
  }

  /** A text without brackets always makes the round trip. */
  lemma BracketFreeRoundTrip(rules: seq<Rule>, text: string)
    requires AllMatch(rules) && AllAvoid(Shape(), rules) && |text| < LIMIT
    requires NoBrackets(text)
    ensures HasTokens(Scrubbed(rules, text, true).1)
    ensures Unscrubbed(Scrubbed(rules, text, true).0, Scrubbed(rules, text, true).1) == text
  {
    var memo, keyed, ps := ScrubState(rules, text);
    EntriesFacts(memo, keyed);
    NoClashInPlainText(Scrubbed(rules, text, true).1, text);
    UnscrubUndoesScrub(rules, text);
  }

  lemma NoClashInPlainText(tokenMap: seq<PiiToken>, text: string)
    requires NoBrackets(text) && forall e :: e in tokenMap ==> Bracketed(e.token)
    ensures !Clash(tokenMap, text)
  {
    forall e | e in tokenMap ensures !Occurs(e.token, text) {
      NoTokenInPlainText(e.token, text);
    }
  }

  /** Entries have the same token exactly when they have the same type and original, and no token occurs in another. */
  lemma TokensIdentifyOriginals(rules: seq<Rule>, text: string, i: nat, j: nat)
    requires AllMatch(rules) && AllAvoid(Shape(), rules) && |text| < LIMIT
    requires var tm := Scrubbed(rules, text, true).1; i < |tm| && j < |tm|
    ensures var tm := Scrubbed(rules, text, true).1;
      && (tm[i].token == tm[j].token <==> i == j)
      && (tm[i].kind == tm[j].kind && tm[i].original == tm[j].original <==> i == j)
      && (Occurs(tm[i].token, tm[j].token) <==> i == j)
  {
    var memo, keyed, ps := ScrubState(rules, text);
    var tm := Scrubbed(rules, text, true).1;
    EntriesFacts(memo, keyed);
    assert tm[i] in tm && tm[j] in tm;
    if tm[i].kind == tm[j].kind && tm[i].original == tm[j].original {
      SamePairSameEntry(memo, keyed, tm[i], tm[j]);
    }
    assert i < j ==> tm[i].token != tm[j].token;
    assert j < i ==> tm[j].token != tm[i].token;
    InsideMeansEqual(tm[i].token, tm[j].token);
  }

  lemma InsideMeansEqual(v: string, w: string)
    requires Bracketed(v) && Bracketed(w)
    ensures Occurs(v, w) <==> v == w
  {
    assert w + "" == w;
    if Occurs(v, w) {
      OccursAfter(v, w, "");
      BracketedPrefix(v, w, "");
    }
    OccursPrefix(w, "");
  }

  lemma SamePairSameEntry(memo: Memo, keyed: Pairs, e: PiiToken, e': PiiToken)
    requires MemoOk(memo, keyed, true)
    requires exists key :: key in memo.entries && memo.entries[key] == e
    requires exists key :: key in memo.entries && memo.entries[key] == e'
    requires e.kind == e'.kind && e.original == e'.original
    ensures e == e'
  {
    var k :| k in memo.entries && memo.entries[k] == e;
    var k' :| k' in memo.entries && memo.entries[k'] == e';
    assert EntryOk(memo, keyed, true, k) && EntryOk(memo, keyed, true, k');
  }

  // ---------- without originals ----------

  ghost predicate Erased(kept: Memo, bare: Memo) {
    && kept.order == bare.order && kept.counters == bare.counters && kept.entries.Keys == bare.entries.Keys
    && forall key :: key in kept.entries ==> bare.entries[key] == kept.entries[key].(original := None)
  }

  lemma InternErased(kind: PiiType, original: string, kept: Memo, bare: Memo)
    requires Erased(kept, bare)
    ensures Intern(kept, kind, original, true).0 == Intern(bare, kind, original, false).0
    ensures Erased(Intern(kept, kind, original, true).1, Intern(bare, kind, original, false).1)
  {
    assert CounterOf(kept, kind) == CounterOf(bare, kind);
    var key := KeyText(kind, original);
    assert key in kept.entries <==> key in bare.entries;
  }

  lemma {:induction false} SpansErased(s: string, spans: seq<Span>, from: nat, kind: PiiType, kept: Memo, bare: Memo)
    requires from <= |s| && IsMatchList(s, spans, from) && Erased(kept, bare)
    ensures ReplaceSpans(s, spans, from, kind, kept, true).0 == ReplaceSpans(s, spans, from, kind, bare, false).0
    ensures Erased(ReplaceSpans(s, spans, from, kind, kept, true).1, ReplaceSpans(s, spans, from, kind, bare, false).1)
    decreases |spans|
  {
    if spans != [] {
      var Span(a, b) := spans[0];
      InternErased(kind, s[a..b], kept, bare);
      SpansErased(s, spans[1..], b, kind, Intern(kept, kind, s[a..b], true).1, Intern(bare, kind, s[a..b], false).1);
    }
  }

  lemma {:induction false} PassesErased(rules: seq<Rule>, s: string, kept: Memo, bare: Memo)
    requires AllMatch(rules) && Erased(kept, bare)
    ensures Passes(rules, s, kept, true).0 == Passes(rules, s, bare, false).0
    ensures Erased(Passes(rules, s, kept, true).1, Passes(rules, s, bare, false).1)
    decreases |rules|
  {
    if rules != [] {
      var spans := rules[0].matches(s);
      SpansErased(s, spans, 0, rules[0].kind, kept, bare);
      var (out, kept1) := ReplaceSpans(s, spans, 0, rules[0].kind, kept, true);
      PassesErased(rules[1..], out, kept1, ReplaceSpans(s, spans, 0, rules[0].kind, bare, false).1);
    }
  }

  lemma {:induction false} NothingRestorable(tokenMap: seq<PiiToken>)
    requires forall e :: e in tokenMap ==> e.original.None?
    ensures Collect(Restorable, tokenMap) == []
  {
    if tokenMap != [] {
      var n := |tokenMap| - 1;
      assert tokenMap[n] in tokenMap;
      assert forall e :: e in tokenMap[..n] ==> e in tokenMap;
      NothingRestorable(tokenMap[..n]);
    }
  }

  /** Dropping the originals yields the same scrubbed text, and a map that restores nothing. */
  lemma DroppedOriginalsRestoreNothing(rules: seq<Rule>, text: string)
    requires AllMatch(rules)
    ensures Scrubbed(rules, text, false).0 == Scrubbed(rules, text, true).0
    ensures forall e :: e in Scrubbed(rules, text, false).1 ==> e.original.None?
    ensures var (out, tokenMap) := Scrubbed(rules, text, false);
      HasTokens(tokenMap) && Unscrubbed(out, tokenMap) == out
  {
    ScrubbedHasTokens(rules, text, false);
    PassesErased(rules, text, EMPTY_MEMO, EMPTY_MEMO);
    var memo := Passes(rules, text, EMPTY_MEMO, false).1;
    EntriesMembers(memo, memo.order);
    NothingRestorable(Scrubbed(rules, text, false).1);
  }
}
