/** The scrubber's rule for social security numbers, and a text on which the round trip fails. */
module SsnRule {
  import opened Base
  import opened Sequences
  import opened Decimal
  import opened Replacement
  import opened Scrubber
  import opened Pieces
  import opened ScrubberLaws
  import opened RoundTrip

  /** `\w`. */
  predicate IsWordChar(c: char) {
    IsDigit(c) || 'a' <= c <= 'z' || 'A' <= c <= 'Z' || c == '_'
  }

  /** Three digits, a dash, two digits, a dash and four digits. */
  predicate IsSsn(w: string) {
    |w| == 11 && forall k :: 0 <= k < 11 ==> if k == 3 || k == 6 then w[k] == '-' else IsDigit(w[k])
  }

  /** The pattern matches at `i`: such digits, with a word boundary on either side. */
  predicate SsnAt(s: string, i: nat) {
    && i + 11 <= |s| && IsSsn(s[i..i + 11])
    && (i == 0 || !IsWordChar(s[i - 1]))
    && (i + 11 == |s| || !IsWordChar(s[i + 11]))
  }

  /** The matches of the global pattern from `i` on: each search starts where the last match ended. */
  function SsnSpans(s: string, i: nat): seq<Span>
    decreases |s| - i
  {
    if i + 11 > |s| then []
    else if SsnAt(s, i) then [Span(i, i + 11)] + SsnSpans(s, i + 11)
    else SsnSpans(s, i + 1)
  }

  function SocialSecurity(): Rule {
    Rule(Ssn, (s: string) => SsnSpans(s, 0))
  }

  // ---------- the rule meets what is assumed of rules ----------

  lemma {:induction false} SpansMatch(s: string, from: nat, i: nat)
    requires from <= i <= |s|
    ensures IsMatchList(s, SsnSpans(s, i), from)
    decreases |s| - i
  {
    if i + 11 <= |s| {
      if SsnAt(s, i) {
        SpansMatch(s, i + 11, i + 11);
      } else {
        SpansMatch(s, from, i + 1);
      }
    }
  }

  lemma TokenHasNoDash(kind: PiiType, n: nat)
    ensures '-' !in TokenText(kind, n)
  {
    forall c | c in Numeral(n) ensures c != '-' {
      assert IsDigit(c);
    }
  }

  lemma SsnChars(s: string, i: nat, k: nat)
    requires SsnAt(s, i) && i <= k < i + 11
    ensures s[k] == '-' || IsDigit(s[k])
    ensures k == i + 3 ==> s[k] == '-'
  {
    assert s[i..i + 11][k - i] == s[k];
  }

  lemma DashInside(s: string, i: nat, p: nat, q: nat)
    requires SsnAt(s, i) && p < i + 11 && i < q <= |s| && p < q && s[p] == '[' && s[q - 1] == ']'
    ensures '-' in s[p..q]
  {
    SsnChars(s, i, i + 3);
    if i <= p {
      SsnChars(s, i, p);
    } else if q - 1 < i + 11 {
      SsnChars(s, i, q - 1);
    } else {
      assert s[p..q][i + 3 - p] == s[i + 3];
    }
  }

  lemma SsnNoBrackets(s: string, i: nat)
    requires SsnAt(s, i)
    ensures NoBrackets(s[i..i + 11])
  {
    var w := s[i..i + 11];
    forall k | 0 <= k < 11 ensures w[k] != '[' && w[k] != ']' {
      SsnChars(s, i, i + k);
    }
  }

  lemma TokenIsElsewhere(s: string, i: nat, p: nat, q: nat)
    requires SsnAt(s, i) && p < q <= |s| && Shape()(s[p..q])
    ensures i + 11 <= p || q <= i
  {
    var t := s[p..q];
    var kind, n: nat :| n < LIMIT && t == TokenText(kind, n);
    TokenBracketed(kind, n);
    TokenHasNoDash(kind, n);
    assert s[p] == t[0] && s[q - 1] == t[q - 1 - p];
    if p < i + 11 && i < q {
      DashInside(s, i, p, q);
    }
  }

  /** A match holds no bracket, and a token-shaped text around it would have to hold its dash. */
  lemma SsnAvoids(s: string, i: nat)
    requires SsnAt(s, i)
    ensures Avoids(Shape(), s, i, i + 11)
  {
    SsnNoBrackets(s, i);
    forall p, q | 0 <= p < q <= |s| && Shape()(s[p..q]) ensures i + 11 <= p || q <= i {
      TokenIsElsewhere(s, i, p, q);
    }
  }

  lemma {:induction false} SpansAvoid(s: string, i: nat)
    requires i <= |s|
    ensures AllAvoided(Shape(), s, SsnSpans(s, i))
    decreases |s| - i
  {
    if i + 11 <= |s| {
      if SsnAt(s, i) {
        SsnAvoids(s, i);
        SpansAvoid(s, i + 11);
      } else {
        SpansAvoid(s, i + 1);
      }
    }
  }

  /** On every string the matches are in order without overlap, hold no bracket and touch no token-shaped text. */
  lemma RuleIsAdmissible()
    ensures AllMatch([SocialSecurity()]) && AllAvoid(Shape(), [SocialSecurity()])
  {
    forall s: string ensures IsMatchList(s, SocialSecurity().matches(s), 0) {
      SpansMatch(s, 0, 0);
    }
    forall s: string ensures AllAvoided(Shape(), s, SocialSecurity().matches(s)) {
      SpansAvoid(s, 0);
    }
  }

  lemma DigitPlaces(s: string, i: nat, k: nat)
    requires SsnAt(s, i) && i <= k < i + 11 && k != i + 3 && k != i + 6
    ensures IsDigit(s[k])
  {
    assert s[i..i + 11][k - i] == s[k];
  }

  /** No match begins inside another, so the search from the end of the last one misses none. */
  lemma SsnsApart(s: string, a: nat, b: nat)
    requires SsnAt(s, a) && a < b < a + 11
    ensures !SsnAt(s, b)
  {
    if b == a + 4 || b == a + 7 {
      DigitPlaces(s, a, b + 3);
      assert b + 11 <= |s| ==> s[b..b + 11][3] == s[b + 3];
    } else {
      DigitPlaces(s, a, b - 1);
    }
  }

  /** The rule matches exactly where the pattern does. */
  lemma {:induction false} SpansAreMatches(s: string, from: nat, i: nat, j: nat)
    requires from <= |s|
    ensures Span(i, j) in SsnSpans(s, from) <==> from <= i && j == i + 11 && SsnAt(s, i)
    decreases |s| - from
  {
    if from + 11 <= |s| {
      if SsnAt(s, from) {
        SpansAreMatches(s, from + 11, i, j);
        if from < i < from + 11 {
          SsnsApart(s, from, i);
        }
      } else {
        SpansAreMatches(s, from + 1, i, j);
      }
    }
  }

  // ---------- a text that does not make the round trip ----------

  const CLASHING_TEXT: string := "[SSN_1] 123-45-6789"

  lemma {:induction false} SkipTo(s: string, i: nat, k: nat)
    requires i <= k && k + 11 <= |s| && forall j :: i <= j < k ==> !SsnAt(s, j)
    ensures SsnSpans(s, i) == SsnSpans(s, k)
    decreases k - i
  {
    if i < k {
      SkipTo(s, i + 1, k);
    }
  }

  lemma NoDigitPair(j: nat)
    requires j < 8
    ensures !IsDigit(CLASHING_TEXT[j]) || !IsDigit(CLASHING_TEXT[j + 1])
  {
    var s := CLASHING_TEXT;
    assert s[0] == '[' && s[1] == 'S' && s[2] == 'S' && s[3] == 'N' && s[4] == '_' && s[6] == ']' && s[7] == ' ';
  }

  lemma NoMatchWithout(s: string, j: nat)
    requires j + 1 < |s| && (!IsDigit(s[j]) || !IsDigit(s[j + 1]))
    ensures !SsnAt(s, j)
  {
    if j + 11 <= |s| {
      assert s[j..j + 11][0] == s[j] && s[j..j + 11][1] == s[j + 1];
    }
  }

  lemma SsnInText()
    ensures SsnAt(CLASHING_TEXT, 8)
  {
    assert CLASHING_TEXT[8..19] == "123-45-6789";
  }

  lemma ClashingSpans()
    ensures SsnSpans(CLASHING_TEXT, 0) == [Span(8, 19)]
  {
    forall j: nat | j < 8 ensures !SsnAt(CLASHING_TEXT, j) {
      NoDigitPair(j);
      NoMatchWithout(CLASHING_TEXT, j);
    }
    SkipTo(CLASHING_TEXT, 0, 8);
    SsnInText();
    assert |CLASHING_TEXT| == 19;
    assert SsnSpans(CLASHING_TEXT, 19) == [];
  }

  /** The memo after the one pass that finds the one match. */
  lemma ClashingMemo() returns (memo: Memo)
    requires AllMatch([SocialSecurity()])
    ensures memo == Passes([SocialSecurity()], CLASHING_TEXT, EMPTY_MEMO, true).1
    ensures var key := KeyText(Ssn, CLASHING_TEXT[8..19]);
      memo.order == [key] && key in memo.entries && memo.entries[key].token == TokenText(Ssn, 1)
  {
    var spans := [Span(8, 19)];
    ClashingSpans();
    assert SocialSecurity().matches(CLASHING_TEXT) == spans;
    memo := Intern(EMPTY_MEMO, Ssn, CLASHING_TEXT[8..19], true).1;
    assert spans[1..] == [] && [SocialSecurity()][1..] == [];
    assert ReplaceSpans(CLASHING_TEXT, spans, 0, Ssn, EMPTY_MEMO, true).1 == memo;
  }

  lemma FirstToken()
    ensures TokenText(Ssn, 1) == "[SSN_1]"
  {
    assert Numeral(1) == "1";
  }

  lemma FirstTokenInText()
    ensures Occurs(TokenText(Ssn, 1), CLASHING_TEXT)
  {
    FirstToken();
    TextSplits();
    OccursPrefix("[SSN_1]", " 123-45-6789");
  }

  lemma TextSplits()
    ensures "[SSN_1]" + " 123-45-6789" == CLASHING_TEXT
  {
  }

  lemma ClashingTextClashes()
    requires AllMatch([SocialSecurity()])
    ensures Clash(Scrubbed([SocialSecurity()], CLASHING_TEXT, true).1, CLASHING_TEXT)
  {
    var memo := ClashingMemo();
    var key := KeyText(Ssn, CLASHING_TEXT[8..19]);
    EntriesMembers(memo, memo.order);
    FirstTokenInText();
    assert memo.entries[key] in EntriesOf(memo, memo.order);
  }

  /** A text that already holds the first token issued comes back changed. */
  lemma LiteralTokenBreaksRoundTrip()
    ensures AllMatch([SocialSecurity()]) && AllAvoid(Shape(), [SocialSecurity()])
    ensures var (out, tokenMap) := Scrubbed([SocialSecurity()], CLASHING_TEXT, true);
      HasTokens(tokenMap) && Unscrubbed(out, tokenMap) != CLASHING_TEXT
  {
    RuleIsAdmissible();
    ClashingTextClashes();
    UnscrubUndoesScrub([SocialSecurity()], CLASHING_TEXT);
  }
}
