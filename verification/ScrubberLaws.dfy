/**
 * A string with tokens in it, cut into pieces. `shaped` says which strings look like tokens; it is any
 * predicate on bracketed strings.
 */
module Pieces {
  import opened Replacement
  import opened Sequences

  /** A character of the text, or a token with the piece of the text it shows. */
  datatype Piece = Ch(c: char) | Tok(token: string, source: string)

  function ShownBy(p: Piece): string {
    match p
    case Ch(c) => [c]
    case Tok(t, _) => t
  }

  function SourceOf(p: Piece): string {
    match p
    case Ch(c) => [c]
    case Tok(_, source) => source
  }

  /** The scrubbed string. */
  function Shown(ps: seq<Piece>): string {
    if ps == [] then "" else ShownBy(ps[0]) + Shown(ps[1..])
  }

  /** The original text. */
  function Full(ps: seq<Piece>): string {
    if ps == [] then "" else SourceOf(ps[0]) + Full(ps[1..])
  }

  function Chars(ps: seq<Piece>): nat {
    if ps == [] then 0 else (if ps[0].Ch? then 1 else 0) + Chars(ps[1..])
  }

  lemma {:induction false} PiecesConcat(a: seq<Piece>, b: seq<Piece>)
    ensures Shown(a + b) == Shown(a) + Shown(b)
    ensures Full(a + b) == Full(a) + Full(b)
    ensures Chars(a + b) == Chars(a) + Chars(b)
  {
    if a == [] {
      assert a + b == b;
    } else {
      assert (a + b)[1..] == a[1..] + b;
      PiecesConcat(a[1..], b);
      Assoc(ShownBy(a[0]), Shown(a[1..]), Shown(b));
      Assoc(SourceOf(a[0]), Full(a[1..]), Full(b));
    }
  }

  lemma PiecesCons(p: Piece, ps: seq<Piece>)
    ensures Shown([p] + ps) == ShownBy(p) + Shown(ps)
    ensures Full([p] + ps) == SourceOf(p) + Full(ps)
    ensures Chars([p] + ps) == (if p.Ch? then 1 else 0) + Chars(ps)
  {
    assert ([p] + ps)[1..] == ps;
  }

  ghost predicate OnlyBracketed(shaped: string -> bool) {
    forall w :: shaped(w) ==> Bracketed(w)
  }

  /** Token-shaped text stands at the head of the string. */
  ghost predicate HasHead(shaped: string -> bool, s: string) {
    exists w :: shaped(w) && w <= s
  }

  ghost function Head(shaped: string -> bool, s: string): (w: string)
    requires HasHead(shaped, s) && OnlyBracketed(shaped)
    ensures shaped(w) && w <= s && Bracketed(w)
  {
    var w :| shaped(w) && w <= s;
    w
  }

  /** The text cut into characters and the token-shaped pieces it already holds. */
  ghost function Parse(shaped: string -> bool, s: string): seq<Piece>
    requires OnlyBracketed(shaped)
    decreases |s|
  {
    if s == "" then []
    else if HasHead(shaped, s) then [Tok(Head(shaped, s), Head(shaped, s))] + Parse(shaped, s[|Head(shaped, s)|..])
    else [Ch(s[0])] + Parse(shaped, s[1..])
  }

  /** Every token-shaped piece of the text appears as a literal piece. */
  ghost predicate HasLiterals(shaped: string -> bool, ps: seq<Piece>, text: string) {
    forall w :: shaped(w) && Occurs(w, text) ==> Tok(w, w) in ps
  }

  ghost predicate AllLiteral(shaped: string -> bool, ps: seq<Piece>) {
    forall p :: p in ps && p.Tok? ==> p.source == p.token && shaped(p.token)
  }

  lemma LiteralsCons(shaped: string -> bool, p: Piece, ps: seq<Piece>, w0: string, rest: string)
    requires OnlyBracketed(shaped) && HasLiterals(shaped, ps, rest)
    requires (Bracketed(w0) && p == Tok(w0, w0)) || (|w0| == 1 && !HasHead(shaped, w0 + rest))
    ensures HasLiterals(shaped, [p] + ps, w0 + rest)
  {
    forall w | shaped(w) && Occurs(w, w0 + rest) ensures Tok(w, w) in [p] + ps {
      OccursAfter(w, w0, rest);
      if w <= w0 + rest {
        BracketedPrefix(w, w0, rest);
      }
    }
  }

  lemma {:induction false} ParseOk(shaped: string -> bool, s: string)
    requires OnlyBracketed(shaped)
    ensures Shown(Parse(shaped, s)) == s && Full(Parse(shaped, s)) == s && Chars(Parse(shaped, s)) <= |s|
    ensures AllLiteral(shaped, Parse(shaped, s))
    ensures HasLiterals(shaped, Parse(shaped, s), s)
    decreases |s|
  {
    if s == "" {
      assert forall w :: shaped(w) ==> |w| >= 2;
    } else {
      var w0 := if HasHead(shaped, s) then Head(shaped, s) else [s[0]];
      var p0 := if HasHead(shaped, s) then Tok(w0, w0) else Ch(s[0]);
      var rest := s[|w0|..];
      assert s == w0 + rest;
      ParseOk(shaped, rest);
      PiecesCons(p0, Parse(shaped, rest));
      LiteralsCons(shaped, p0, Parse(shaped, rest), w0, rest);
    }
  }

  /** The span holds no bracket and touches no token-shaped text. */
  ghost predicate Avoids(shaped: string -> bool, s: string, a: nat, b: nat) {
    && a <= b <= |s| && NoBrackets(s[a..b])
    && forall p, q :: 0 <= p < q <= |s| && shaped(s[p..q]) ==> b <= p || q <= a
  }

  /** The tokens are token-shaped, so that spans avoid them. */
  ghost predicate ShapedPieces(shaped: string -> bool, ps: seq<Piece>) {
    forall p :: p in ps && p.Tok? ==> shaped(p.token)
  }

  /** Where the first piece lies in the string. */
  lemma FirstPiece(shaped: string -> bool, ps: seq<Piece>, s: string, from: nat)
    requires ps != [] && from <= |s| && Shown(ps) == s[from..]
    ensures var next := from + |ShownBy(ps[0])|;
      next <= |s| && s[from..next] == ShownBy(ps[0]) && Shown(ps[1..]) == s[next..]
  {
    var next := from + |ShownBy(ps[0])|;
    assert s[from..] == ShownBy(ps[0]) + Shown(ps[1..]);
    assert s[from..][|ShownBy(ps[0])|..] == s[next..];
    assert s[from..][..|ShownBy(ps[0])|] == s[from..next];
  }

  /** The piece before a span that avoids tokens ends at or before the span. */
  lemma FirstPieceEnds(shaped: string -> bool, ps: seq<Piece>, s: string, from: nat, a: nat, b: nat)
    requires ps != [] && from < a < b <= |s|
    requires var next := from + |ShownBy(ps[0])|; next <= |s| && s[from..next] == ShownBy(ps[0])
    requires ShapedPieces(shaped, ps) && OnlyBracketed(shaped) && Avoids(shaped, s, a, b)
    ensures from + |ShownBy(ps[0])| <= a && ShapedPieces(shaped, ps[1..])
  {
    assert ps[0] in ps && forall p :: p in ps[1..] ==> p in ps;
  }

  /** A span that avoids tokens starts between two pieces. */
  lemma {:induction false} SplitBefore(shaped: string -> bool, ps: seq<Piece>, s: string, from: nat, a: nat, b: nat)
    returns (l: seq<Piece>, r: seq<Piece>)
    requires from <= a < b <= |s| && Shown(ps) == s[from..]
    requires OnlyBracketed(shaped) && ShapedPieces(shaped, ps) && Avoids(shaped, s, a, b)
    ensures ps == l + r && Shown(l) == s[from..a] && Shown(r) == s[a..]
    decreases |ps|
  {
    if a == from {
      l, r := [], ps;
    } else {
      FirstPiece(shaped, ps, s, from);
      var next := from + |ShownBy(ps[0])|;
      FirstPieceEnds(shaped, ps, s, from, a, b);
      SliceJoin(s, from, next, a);
      var l';
      l', r := SplitBefore(shaped, ps[1..], s, next, a, b);
      PiecesCons(ps[0], l');
      ConsConcat(ps, l', r);
      l := [ps[0]] + l';
    }
  }

  lemma AvoidsRest(shaped: string -> bool, s: string, a: nat, b: nat)
    requires Avoids(shaped, s, a, b) && a < b
    ensures Avoids(shaped, s, a + 1, b)
  {
    assert s[a + 1..b] == s[a..b][1..];
  }

  /** A span that avoids tokens covers characters only. */
  lemma {:induction false} TakeChars(shaped: string -> bool, ps: seq<Piece>, s: string, a: nat, b: nat)
    returns (l: seq<Piece>, r: seq<Piece>)
    requires a <= b <= |s| && Shown(ps) == s[a..]
    requires OnlyBracketed(shaped) && ShapedPieces(shaped, ps) && Avoids(shaped, s, a, b)
    ensures ps == l + r && (forall p :: p in l ==> p.Ch?)
    ensures Full(l) == s[a..b] && Shown(r) == s[b..] && Chars(l) == b - a
    decreases b - a
  {
    if a == b {
      l, r := [], ps;
      assert s[a..b] == "";
    } else {
      FirstPiece(shaped, ps, s, a);
      assert ps[0] in ps;
      assert ps[0].Ch?;
      SliceJoin(s, a, a + 1, b);
      AvoidsRest(shaped, s, a, b);
      var l';
      l', r := TakeChars(shaped, ps[1..], s, a + 1, b);
      PiecesCons(ps[0], l');
      ConsConcat(ps, l', r);
      l := [ps[0]] + l';
    }
  }
}

/** Tokens identify their originals, and scrubbing can be undone exactly when no issued token was in the text. */
module ScrubberLaws {
  import opened Base
  import opened Decimal
  import opened Sequences
  import opened Replacement
  import opened Pieces
  import opened Scrubber

  // ---------- tokens and keys are injective ----------

  lemma TypeNameInjective(a: PiiType, b: PiiType)
    requires TypeName(a) == TypeName(b)
    ensures a == b
  {
    assert "ADDRESS"[0] == 'A' && "SSN"[0] == 'S' && "PHONE"[0] == 'P' && "EMAIL"[0] == 'E';
    assert "FINANCIAL"[0] == 'F' && "CORP_LOGO"[0] == 'C' && "NAME"[0] == 'N';
  }

  lemma TypeNamePlain(kind: PiiType)
    ensures forall i :: 0 <= i < |TypeName(kind)| ==>
      var c := TypeName(kind)[i]; c != '[' && c != ']' && c != ':' && !IsDigit(c)
    ensures TypeName(kind) != ""
  {
  }

  /** How the tokens of each type open, as a reader of the scrubbed text sees them. */
  function Opening(kind: PiiType): string {
    match kind
    case Address => "[ADDRESS_"
    case Ssn => "[SSN_"
    case Phone => "[PHONE_"
    case Email => "[EMAIL_"
    case Financial => "[FINANCIAL_"
    case CorpLogo => "[CORP_LOGO_"
    case Name => "[NAME_"
  }

  lemma TokensRead(kind: PiiType, n: nat)
    ensures TokenText(kind, n) == Opening(kind) + Numeral(n) + "]"
  {
    assert "[" + TypeName(kind) + "_" == Opening(kind);
  }

  lemma TokenBracketed(kind: PiiType, n: nat)
    ensures Bracketed(TokenText(kind, n))
  {
    TypeNamePlain(kind);
    var w := TokenText(kind, n);
    assert w[1..|w| - 1] == TypeName(kind) + "_" + Numeral(n);
  }

  lemma TokenInjective(a: PiiType, m: nat, b: PiiType, n: nat)
    requires TokenText(a, m) == TokenText(b, n)
    ensures a == b && m == n
  {
    var p, q := "[" + TypeName(a) + "_", "[" + TypeName(b) + "_";
    var v, w := TokenText(a, m), TokenText(b, n);
    assert v == p + Numeral(m) + "]" && w == q + Numeral(n) + "]";
    assert v[..|v| - 1] == p + Numeral(m) && w[..|w| - 1] == q + Numeral(n);
    NumeralSuffix(p, m, q, n);
    assert TypeName(a) == p[1..|p| - 1] && TypeName(b) == q[1..|q| - 1];
    TypeNameInjective(a, b);
  }

  lemma ColonInside(p: string, x: string, q: string, y: string)
    requires p + "::" + x == q + "::" + y && |p| < |q|
    ensures ':' in q
  {
    assert (p + "::" + x)[|p|] == ':';
    assert (q + "::" + y)[|p|] == q[|p|];
  }

  lemma SameColons(p: string, x: string, q: string, y: string)
    requires p + "::" + x == q + "::" + y && ':' !in p && ':' !in q
    ensures p == q && x == y
  {
    if |p| < |q| {
      ColonInside(p, x, q, y);
    }
    if |q| < |p| {
      ColonInside(q, y, p, x);
    }
    var s := p + "::" + x;
    assert p == s[..|p|] && q == s[..|q|];
    assert x == s[|p| + 2..] && y == s[|q| + 2..];
  }

  lemma KeyInjective(a: PiiType, x: string, b: PiiType, y: string)
    requires KeyText(a, x) == KeyText(b, y)
    ensures a == b && x == y
  {
    TypeNamePlain(a);
    TypeNamePlain(b);
    SameColons(TypeName(a), x, TypeName(b), y);
    TypeNameInjective(a, b);
  }

  // ---------- the memo ----------

  /** Which pair of type and original each key of the memo stands for. */
  type Pairs = map<string, (PiiType, string)>

  ghost predicate EntryOk(memo: Memo, pairs: Pairs, keep: bool, key: string)
    requires key in memo.entries && key in pairs
  {
    var e, p := memo.entries[key], pairs[key];
    && key == KeyText(p.0, p.1) && NoBrackets(p.1)
    && e.kind == p.0 && e.original == (if keep then Some(p.1) else None)
    && exists n :: 1 <= n <= CounterOf(memo, p.0) && e.token == TokenText(p.0, n)
  }

  ghost predicate EntriesOk(memo: Memo, pairs: Pairs, keep: bool) {
    memo.entries.Keys == pairs.Keys && forall key :: key in memo.entries ==> EntryOk(memo, pairs, keep, key)
  }

  /** No two entries share a token. */
  ghost predicate TokensDiffer(memo: Memo) {
    forall k, k' :: k in memo.entries && k' in memo.entries && memo.entries[k].token == memo.entries[k'].token ==>
      k == k'
  }

  /** The order lists each key once. */
  ghost predicate OrderListsKeys(memo: Memo) {
    && (forall key :: key in memo.order <==> key in memo.entries)
    && (forall i, j :: 0 <= i < j < |memo.order| ==> memo.order[i] != memo.order[j])
  }

  ghost predicate MemoOk(memo: Memo, pairs: Pairs, keep: bool) {
    && EntriesOk(memo, pairs, keep)
    && TokensDiffer(memo)
    && OrderListsKeys(memo)
  }

  /** Entries are never changed or dropped. */
  ghost predicate Extends(memo: Memo, pairs: Pairs, memo': Memo, pairs': Pairs) {
    && (forall key :: key in memo.entries ==> key in memo'.entries && memo'.entries[key] == memo.entries[key])
    && (forall key :: key in pairs ==> key in pairs' && pairs'[key] == pairs[key])
  }

  /** An entry stays in order while counters grow. */
  lemma EntryKept(memo: Memo, pairs: Pairs, memo': Memo, pairs': Pairs, keep: bool, key: string)
    requires key in memo.entries && key in pairs && EntryOk(memo, pairs, keep, key)
    requires key in memo'.entries && memo'.entries[key] == memo.entries[key]
    requires key in pairs' && pairs'[key] == pairs[key]
    requires forall kind :: CounterOf(memo, kind) <= CounterOf(memo', kind)
    ensures EntryOk(memo', pairs', keep, key)
  {
  }

  lemma NewTokenIsNew(memo: Memo, pairs: Pairs, kind: PiiType, keep: bool, key: string)
    requires key in memo.entries && key in pairs && EntryOk(memo, pairs, keep, key)
    ensures memo.entries[key].token != TokenText(kind, CounterOf(memo, kind) + 1)
  {
    var m :| 1 <= m <= CounterOf(memo, pairs[key].0) && memo.entries[key].token == TokenText(pairs[key].0, m);
    if memo.entries[key].token == TokenText(kind, CounterOf(memo, kind) + 1) {
      TokenInjective(pairs[key].0, m, kind, CounterOf(memo, kind) + 1);
    }
  }

  lemma NewEntryOk(memo: Memo, pairs: Pairs, kind: PiiType, original: string, keep: bool, key: string)
    requires EntriesOk(memo, pairs, keep) && KeyText(kind, original) !in memo.entries && key in memo.entries
    ensures var (token, memo') := Intern(memo, kind, original, keep);
      && memo.entries[key].token != token
      && EntryOk(memo', pairs[KeyText(kind, original) := (kind, original)], keep, key)
  {
    NewTokenIsNew(memo, pairs, kind, keep, key);
    EntryKept(memo, pairs, Intern(memo, kind, original, keep).1, pairs[KeyText(kind, original) := (kind, original)],
      keep, key);
  }

  /** A number of the kind's own sequence, up to its counter. */
  ghost predicate Issued(memo: Memo, kind: PiiType, token: string) {
    exists n :: 1 <= n <= CounterOf(memo, kind) && token == TokenText(kind, n)
  }

  lemma OldEntriesOk(memo: Memo, pairs: Pairs, kind: PiiType, original: string, keep: bool)
    requires MemoOk(memo, pairs, keep) && KeyText(kind, original) !in memo.entries
    ensures var (token, memo') := Intern(memo, kind, original, keep);
      forall k :: k in memo.entries ==> (
        && memo.entries[k].token != token
        && EntryOk(memo', pairs[KeyText(kind, original) := (kind, original)], keep, k))
  {
    var (token, memo') := Intern(memo, kind, original, keep);
    forall k | k in memo.entries
      ensures memo.entries[k].token != token
      ensures EntryOk(memo', pairs[KeyText(kind, original) := (kind, original)], keep, k)
    {
      NewEntryOk(memo, pairs, kind, original, keep, k);
    }
  }

  lemma NewTokenDiffers(memo: Memo, kind: PiiType, original: string, keep: bool)
    requires TokensDiffer(memo) && KeyText(kind, original) !in memo.entries
    requires var token := Intern(memo, kind, original, keep).0;
      forall k :: k in memo.entries ==> memo.entries[k].token != token
    ensures TokensDiffer(Intern(memo, kind, original, keep).1)
  {
  }

  lemma NewKeyListed(memo: Memo, kind: PiiType, original: string, keep: bool)
    requires OrderListsKeys(memo) && KeyText(kind, original) !in memo.entries
    ensures OrderListsKeys(Intern(memo, kind, original, keep).1)
  {
  }

  lemma NewEntryItself(memo: Memo, pairs: Pairs, kind: PiiType, original: string, keep: bool)
    requires NoBrackets(original) && KeyText(kind, original) !in memo.entries
    ensures EntryOk(Intern(memo, kind, original, keep).1, pairs[KeyText(kind, original) := (kind, original)], keep,
              KeyText(kind, original))
  {
    var (token, memo') := Intern(memo, kind, original, keep);
    var n := CounterOf(memo, kind) + 1;
    assert 1 <= n <= CounterOf(memo', kind) && token == TokenText(kind, n);
  }

  lemma NewEntriesOk(memo: Memo, pairs: Pairs, kind: PiiType, original: string, keep: bool)
    requires MemoOk(memo, pairs, keep) && NoBrackets(original) && KeyText(kind, original) !in memo.entries
    ensures EntriesOk(Intern(memo, kind, original, keep).1, pairs[KeyText(kind, original) := (kind, original)], keep)
  {
    OldEntriesOk(memo, pairs, kind, original, keep);
    NewEntryItself(memo, pairs, kind, original, keep);
  }

  lemma InternNew(memo: Memo, pairs: Pairs, kind: PiiType, original: string, keep: bool)
    requires MemoOk(memo, pairs, keep) && NoBrackets(original) && KeyText(kind, original) !in memo.entries
    ensures MemoOk(Intern(memo, kind, original, keep).1, pairs[KeyText(kind, original) := (kind, original)], keep)
  {
    NewEntriesOk(memo, pairs, kind, original, keep);
    OldEntriesOk(memo, pairs, kind, original, keep);
    NewTokenDiffers(memo, kind, original, keep);
    NewKeyListed(memo, kind, original, keep);
  }

  function InternPairs(pairs: Pairs, kind: PiiType, original: string): Pairs {
    if KeyText(kind, original) in pairs then pairs else pairs[KeyText(kind, original) := (kind, original)]
  }

  lemma InternOk(memo: Memo, pairs: Pairs, kind: PiiType, original: string, keep: bool)
    requires MemoOk(memo, pairs, keep) && NoBrackets(original)
    ensures var memo' := Intern(memo, kind, original, keep).1;
      && MemoOk(memo', InternPairs(pairs, kind, original), keep)
      && Extends(memo, pairs, memo', InternPairs(pairs, kind, original))
  {
    if KeyText(kind, original) !in memo.entries {
      InternNew(memo, pairs, kind, original, keep);
    }
  }

  /** The token returned is the one the memo has for the pair, and counters move by at most one. */
  lemma InternFinds(memo: Memo, pairs: Pairs, kind: PiiType, original: string, keep: bool)
    requires MemoOk(memo, pairs, keep) && NoBrackets(original)
    ensures var (token, memo') := Intern(memo, kind, original, keep);
      var key := KeyText(kind, original);
      && key in memo'.entries && memo'.entries[key].token == token
      && key in InternPairs(pairs, kind, original) && InternPairs(pairs, kind, original)[key] == (kind, original)
      && (forall k :: CounterOf(memo', k) <= CounterOf(memo, k) + 1)
      && Issued(memo', kind, token)
  {
    var (token, memo') := Intern(memo, kind, original, keep);
    var key := KeyText(kind, original);
    if key in memo.entries {
      assert EntryOk(memo, pairs, keep, key);
      KeyInjective(pairs[key].0, pairs[key].1, kind, original);
    } else {
      var n := CounterOf(memo, kind) + 1;
      assert 1 <= n <= CounterOf(memo', kind) && token == TokenText(kind, n);
    }
  }

  // ---------- what is assumed of the regular expressions ----------

  /** Numbers of ten or more digits are out of reach: no host string is long enough to issue that many tokens. */
  const LIMIT: nat := 1_000_000_000

  ghost predicate TokenShaped(w: string) {
    exists kind, n: nat :: n < LIMIT && w == TokenText(kind, n)
  }

  ghost function Shape(): string -> bool {
    (w: string) => TokenShaped(w)
  }

  lemma ShapeBracketed()
    ensures OnlyBracketed(Shape())
  {
    forall w | Shape()(w) ensures Bracketed(w) {
      var kind, n: nat :| n < LIMIT && w == TokenText(kind, n);
      TokenBracketed(kind, n);
    }
  }

  ghost predicate AllAvoided(shaped: string -> bool, s: string, spans: seq<Span>) {
    spans == [] || (Avoids(shaped, s, spans[0].start, spans[0].end) && AllAvoided(shaped, s, spans[1..]))
  }

  /** No match holds a bracket or touches token-shaped text. */
  ghost predicate AllAvoid(shaped: string -> bool, rules: seq<Rule>) {
    forall i, s: string :: 0 <= i < |rules| ==> AllAvoided(shaped, s, rules[i].matches(s))
  }

  // ---------- passes keep the pieces in step with the string ----------

  /** A token shows a literal of the text, or the original that the memo has for it. */
  ghost predicate PieceOk(shaped: string -> bool, memo: Memo, pairs: Pairs, p: Piece) {
    p.Tok? ==>
      && shaped(p.token)
      && (p.source == p.token
          || exists key ::
               key in memo.entries && key in pairs && memo.entries[key].token == p.token && pairs[key].1 == p.source)
  }

  ghost predicate PiecesOk(shaped: string -> bool, memo: Memo, pairs: Pairs, ps: seq<Piece>) {
    forall p :: p in ps ==> PieceOk(shaped, memo, pairs, p)
  }

  ghost predicate CountersFit(memo: Memo, chars: nat, bound: int) {
    forall kind :: CounterOf(memo, kind) + chars <= bound
  }

  /** Tokens of `ps` are still tokens of `ps'`. */
  ghost predicate KeepsTokens(ps: seq<Piece>, ps': seq<Piece>) {
    forall p :: p in ps && p.Tok? ==> p in ps'
  }

  lemma PiecesExtend(shaped: string -> bool, memo: Memo, pairs: Pairs, memo': Memo, pairs': Pairs, ps: seq<Piece>)
    requires PiecesOk(shaped, memo, pairs, ps) && Extends(memo, pairs, memo', pairs')
    ensures PiecesOk(shaped, memo', pairs', ps)
  {
    forall p | p in ps ensures PieceOk(shaped, memo', pairs', p) {
      assert PieceOk(shaped, memo, pairs, p);
    }
  }

  /** Numbers below the limit give shaped tokens. */
  ghost predicate Covers(shaped: string -> bool, bound: int) {
    forall kind, n: nat :: n <= bound ==> shaped(TokenText(kind, n))
  }

  lemma InternedPiece(
      shaped: string -> bool, memo: Memo, memo1: Memo, pairs1: Pairs, kind: PiiType, original: string, token: string,
      chars: nat, bound: int)
    requires Covers(shaped, bound) && CountersFit(memo, chars, bound) && chars >= 1
    requires forall k :: CounterOf(memo1, k) <= CounterOf(memo, k) + 1
    requires Issued(memo1, kind, token)
    requires KeyText(kind, original) in memo1.entries && KeyText(kind, original) in pairs1
    requires memo1.entries[KeyText(kind, original)].token == token && pairs1[KeyText(kind, original)].1 == original
    ensures PieceOk(shaped, memo1, pairs1, Tok(token, original))
  {
    assert CounterOf(memo, kind) + chars <= bound;
  }

  /** Swapping a run of characters for a token, and the pieces after it for others. */
  lemma Reassemble(ps: seq<Piece>, l: seq<Piece>, run: seq<Piece>, r: seq<Piece>, tok: Piece, r': seq<Piece>)
    requires ps == l + (run + r) && (forall p :: p in run ==> p.Ch?)
    requires tok.Tok? && tok.source == Full(run) && Full(r') == Full(r) && KeepsTokens(r, r')
    ensures var ps' := l + ([tok] + r');
      && Full(ps') == Full(ps) && KeepsTokens(ps, ps')
      && Shown(ps') == Shown(l) + tok.token + Shown(r')
      && Chars(ps') == Chars(l) + Chars(r') && Chars(ps) == Chars(l) + Chars(run) + Chars(r)
  {
    PiecesConcat(l, run + r);
    PiecesConcat(run, r);
    PiecesConcat(l, [tok] + r');
    PiecesCons(tok, r');
    Assoc(Shown(l), tok.token, Shown(r'));
  }

  /** Memo, pieces and counters are in step. */
  ghost predicate InStep(shaped: string -> bool, memo: Memo, pairs: Pairs, keep: bool, ps: seq<Piece>, bound: int) {
    MemoOk(memo, pairs, keep) && PiecesOk(shaped, memo, pairs, ps) && CountersFit(memo, Chars(ps), bound)
  }

  /** Interning the first match. */
  lemma FirstMatch(
      shaped: string -> bool, ps: seq<Piece>, s: string, from: nat, a: nat, b: nat, kind: PiiType,
      memo: Memo, pairs: Pairs, keep: bool, bound: int, cover: int)
    returns (l: seq<Piece>, run: seq<Piece>, r: seq<Piece>)
    requires OnlyBracketed(shaped) && Covers(shaped, cover) && bound <= cover
    requires from <= a < b <= |s| && Shown(ps) == s[from..] && Avoids(shaped, s, a, b)
    requires InStep(shaped, memo, pairs, keep, ps, bound)
    ensures ps == l + (run + r) && (forall p :: p in run ==> p.Ch?)
    ensures Shown(l) == s[from..a] && Full(run) == s[a..b] && Shown(r) == s[b..]
    ensures var (token, memo1) := Intern(memo, kind, s[a..b], keep);
      var pairs1 := InternPairs(pairs, kind, s[a..b]);
      && InStep(shaped, memo1, pairs1, keep, r, bound - Chars(l))
      && PiecesOk(shaped, memo1, pairs1, l + [Tok(token, s[a..b])])
      && Extends(memo, pairs, memo1, pairs1)
  {
    l, run, r := CutSpan(shaped, ps, s, from, a, b, memo, pairs);
    var (token, memo1) := Intern(memo, kind, s[a..b], keep);
    var pairs1 := InternPairs(pairs, kind, s[a..b]);
    InternOk(memo, pairs, kind, s[a..b], keep);
    InternFinds(memo, pairs, kind, s[a..b], keep);
    PiecesExtend(shaped, memo, pairs, memo1, pairs1, ps);
    InternedPiece(shaped, memo, memo1, pairs1, kind, s[a..b], token, Chars(ps), cover);
    AfterIntern(memo, memo1, Chars(ps), Chars(l), Chars(r), bound);
  }

  /** The pieces `ps'` and pairs `pairs'` describe a later string, with the same text behind it. */
  ghost predicate Follows(
      shaped: string -> bool, memo: Memo, pairs: Pairs, ps: seq<Piece>, keep: bool, bound: int,
      out: (string, Memo), pairs': Pairs, ps': seq<Piece>)
  {
    && Shown(ps') == out.0 && Full(ps') == Full(ps) && KeepsTokens(ps, ps')
    && InStep(shaped, out.1, pairs', keep, ps', bound) && Extends(memo, pairs, out.1, pairs')
  }

  lemma {:induction false} SpansOk(
      shaped: string -> bool, ps: seq<Piece>, s: string, spans: seq<Span>, from: nat, kind: PiiType,
      memo: Memo, pairs: Pairs, keep: bool, bound: int, cover: int)
    returns (ps': seq<Piece>, pairs': Pairs)
    requires from <= |s| && IsMatchList(s, spans, from) && OnlyBracketed(shaped)
    requires Covers(shaped, cover) && bound <= cover
    requires AllAvoided(shaped, s, spans)
    requires Shown(ps) == s[from..] && InStep(shaped, memo, pairs, keep, ps, bound)
    ensures Follows(shaped, memo, pairs, ps, keep, bound, ReplaceSpans(s, spans, from, kind, memo, keep), pairs', ps')
    decreases |spans|
  {
    if spans == [] {
      ps', pairs' := ps, pairs;
    } else {
      var Span(a, b) := spans[0];
      var l, run, r := FirstMatch(shaped, ps, s, from, a, b, kind, memo, pairs, keep, bound, cover);
      var (token, memo1) := Intern(memo, kind, s[a..b], keep);
      var pairs1 := InternPairs(pairs, kind, s[a..b]);
      var r';
      r', pairs' := SpansOk(shaped, r, s, spans[1..], b, kind, memo1, pairs1, keep, bound - Chars(l), cover);
      ps' := l + ([Tok(token, s[a..b])] + r');
      FollowsStep(shaped, memo, pairs, ps, keep, bound, l, run, r, Tok(token, s[a..b]), memo1, pairs1,
        ReplaceSpans(s, spans[1..], b, kind, memo1, keep), pairs', r');
    }
  }

  lemma FollowsStep(
      shaped: string -> bool, memo: Memo, pairs: Pairs, ps: seq<Piece>, keep: bool, bound: int,
      l: seq<Piece>, run: seq<Piece>, r: seq<Piece>, tok: Piece, memo1: Memo, pairs1: Pairs,
      out: (string, Memo), pairs': Pairs, r': seq<Piece>)
    requires ps == l + (run + r) && (forall p :: p in run ==> p.Ch?)
    requires tok.Tok? && tok.source == Full(run)
    requires PiecesOk(shaped, memo1, pairs1, l + [tok]) && Extends(memo, pairs, memo1, pairs1)
    requires Follows(shaped, memo1, pairs1, r, keep, bound - Chars(l), out, pairs', r')
    ensures Follows(shaped, memo, pairs, ps, keep, bound, (Shown(l) + tok.token + out.0, out.1), pairs',
      l + ([tok] + r'))
  {
    Reassemble(ps, l, run, r, tok, r');
    Joined(shaped, memo1, pairs1, out.1, pairs', keep, l, tok, r', bound);
    ExtendsTrans(memo, pairs, memo1, pairs1, out.1, pairs');
  }

  lemma ExtendsTrans(m0: Memo, p0: Pairs, m1: Memo, p1: Pairs, m2: Memo, p2: Pairs)
    requires Extends(m0, p0, m1, p1) && Extends(m1, p1, m2, p2)
    ensures Extends(m0, p0, m2, p2)
  {
  }

  lemma Joined(
      shaped: string -> bool, memo1: Memo, pairs1: Pairs, memo2: Memo, pairs2: Pairs, keep: bool,
      l: seq<Piece>, tok: Piece, r': seq<Piece>, bound: int)
    requires PiecesOk(shaped, memo1, pairs1, l + [tok]) && Extends(memo1, pairs1, memo2, pairs2) && tok.Tok?
    requires InStep(shaped, memo2, pairs2, keep, r', bound - Chars(l))
    ensures InStep(shaped, memo2, pairs2, keep, l + ([tok] + r'), bound)
  {
    PiecesExtend(shaped, memo1, pairs1, memo2, pairs2, l + [tok]);
    PiecesConcat(l, [tok] + r');
    PiecesCons(tok, r');
    forall p | p in l + ([tok] + r') ensures PieceOk(shaped, memo2, pairs2, p) {
      assert p in l + [tok] || p in r';
    }
    forall k ensures CounterOf(memo2, k) + Chars(l + ([tok] + r')) <= bound {
      assert CounterOf(memo2, k) + Chars(r') <= bound - Chars(l);
    }
  }

  lemma AfterIntern(memo: Memo, memo1: Memo, chars: nat, before: nat, after: nat, bound: int)
    requires CountersFit(memo, chars, bound) && before + 1 + after <= chars
    requires forall k :: CounterOf(memo1, k) <= CounterOf(memo, k) + 1
    ensures CountersFit(memo1, after, bound - before)
  {
    forall k ensures CounterOf(memo1, k) + after <= bound - before {
      assert CounterOf(memo, k) + chars <= bound;
    }
  }

  /** The pieces before a match, those it covers, and those after it. */
  lemma CutSpan(shaped: string -> bool, ps: seq<Piece>, s: string, from: nat, a: nat, b: nat, memo: Memo, pairs: Pairs)
    returns (l: seq<Piece>, run: seq<Piece>, r: seq<Piece>)
    requires from <= a < b <= |s| && Shown(ps) == s[from..]
    requires OnlyBracketed(shaped) && PiecesOk(shaped, memo, pairs, ps) && Avoids(shaped, s, a, b)
    ensures ps == l + (run + r) && (forall p :: p in run ==> p.Ch?)
    ensures Shown(l) == s[from..a] && Full(run) == s[a..b] && Shown(r) == s[b..]
    ensures Chars(ps) == Chars(l) + (b - a) + Chars(r)
  {
    assert ShapedPieces(shaped, ps) by {
      forall p | p in ps && p.Tok? ensures shaped(p.token) {
        assert PieceOk(shaped, memo, pairs, p);
      }
    }
    var r0;
    l, r0 := SplitBefore(shaped, ps, s, from, a, b);
    run, r := TakeChars(shaped, r0, s, a, b);
    PiecesConcat(l, r0);
    PiecesConcat(run, r);
  }

  lemma {:induction false} PassesOk(
      shaped: string -> bool, rules: seq<Rule>, ps: seq<Piece>, s: string, memo: Memo, pairs: Pairs, keep: bool,
      bound: int)
    returns (ps': seq<Piece>, pairs': Pairs)
    requires AllMatch(rules) && AllAvoid(shaped, rules) && OnlyBracketed(shaped) && Covers(shaped, bound)
    requires Shown(ps) == s && InStep(shaped, memo, pairs, keep, ps, bound)
    ensures var (out, memo') := Passes(rules, s, memo, keep);
      && Shown(ps') == out && Full(ps') == Full(ps) && KeepsTokens(ps, ps')
      && InStep(shaped, memo', pairs', keep, ps', bound)
    decreases |rules|
  {
    if rules == [] {
      ps', pairs' := ps, pairs;
    } else {
      assert s[0..] == s;
      var spans := rules[0].matches(s);
      var ps1, pairs1 := SpansOk(shaped, ps, s, spans, 0, rules[0].kind, memo, pairs, keep, bound, bound);
      var (out, memo1) := ReplaceSpans(s, spans, 0, rules[0].kind, memo, keep);
      ps', pairs' := PassesOk(shaped, rules[1..], ps1, out, memo1, pairs1, keep, bound);
    }
  }

  /** What scrubbing a text leaves, as pieces. */
  lemma ScrubPieces(rules: seq<Rule>, text: string, keep: bool) returns (ps: seq<Piece>, pairs: Pairs)
    requires AllMatch(rules) && AllAvoid(Shape(), rules) && |text| < LIMIT
    ensures var (out, memo) := Passes(rules, text, EMPTY_MEMO, keep);
      && Shown(ps) == out && Full(ps) == text
      && MemoOk(memo, pairs, keep) && PiecesOk(Shape(), memo, pairs, ps) && HasLiterals(Shape(), ps, text)
      && forall kind :: CounterOf(memo, kind) < LIMIT
  {
    var shaped := Shape();
    ShapeBracketed();
    ParseOk(shaped, text);
    var parsed := Parse(shaped, text);
    ps, pairs := PassesOk(shaped, rules, parsed, text, EMPTY_MEMO, map[], keep, |text|);
    forall w | shaped(w) && Occurs(w, text) ensures Tok(w, w) in ps {
      assert Tok(w, w) in parsed;
    }
    var memo := Passes(rules, text, EMPTY_MEMO, keep).1;
    forall kind ensures CounterOf(memo, kind) < LIMIT {
      assert CounterOf(memo, kind) + Chars(ps) <= |text|;
    }
  }
}
