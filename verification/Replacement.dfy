/** Replacing bracketed tokens in strings by `split(token).join(value)`. */
module Replacement {

  /** `s.split(pat).join(value)`: every occurrence, left to right and without overlap. */
  function Replace(s: string, pat: string, value: string): string
    requires pat != ""
    decreases |s|
  {
    if s == "" then ""
    else if pat <= s then value + Replace(s[|pat|..], pat, value)
    else [s[0]] + Replace(s[1..], pat, value)
  }

  predicate NoBrackets(s: string) {
    forall i :: 0 <= i < |s| ==> s[i] != '[' && s[i] != ']'
  }

  /** An opening bracket, bracket-free text and a closing bracket. */
  predicate Bracketed(w: string) {
    |w| >= 2 && w[0] == '[' && w[|w| - 1] == ']' && NoBrackets(w[1..|w| - 1])
  }

  predicate Occurs(pat: string, s: string) {
    exists i :: 0 <= i <= |s| && pat <= s[i..]
  }

  function Brackets(s: string): nat {
    if s == "" then 0 else (if s[0] == '[' then 1 else 0) + Brackets(s[1..])
  }

  /** The number of occurrences that `Replace` replaces. */
  function Count(s: string, pat: string): nat
    requires pat != ""
    decreases |s|
  {
    if s == "" then 0
    else if pat <= s then 1 + Count(s[|pat|..], pat)
    else Count(s[1..], pat)
  }

  // ---------- bracketed strings do not overlap ----------

  lemma BracketedInside(w: string, i: nat)
    requires Bracketed(w) && i < |w|
    ensures w[i] == '[' <==> i == 0
    ensures w[i] == ']' <==> i == |w| - 1
  {
    if 0 < i < |w| - 1 {
      assert w[i] == w[1..|w| - 1][i - 1];
    }
  }

  /** No token is a prefix of another, hence none occurs inside another. */
  lemma BracketedPrefix(v: string, w: string, rest: string)
    requires Bracketed(v) && Bracketed(w) && v <= w + rest
    ensures v == w
  {
    var n := |v| - 1;
    assert (w + rest)[n] == ']' && (w + rest)[|w| - 1] == ']';
    if n < |w| {
      BracketedInside(w, n);
    } else {
      assert v[|w| - 1] == (w + rest)[|w| - 1];
      BracketedInside(v, |w| - 1);
    }
    assert v == (w + rest)[..|v|];
  }

  lemma {:induction false} SkipPlain(w: string, s: string, pat: string, value: string)
    requires Bracketed(pat) && forall i :: 0 <= i < |w| ==> w[i] != '['
    ensures Replace(w + s, pat, value) == w + Replace(s, pat, value)
    ensures Count(w + s, pat) == Count(s, pat)
  {
    if w == "" {
      assert w + s == s;
    } else {
      assert (w + s)[0] == w[0] != pat[0];
      assert !(pat <= w + s);
      assert (w + s)[1..] == w[1..] + s;
      SkipPlain(w[1..], s, pat, value);
      assert w == [w[0]] + w[1..];
    }
  }

  /** Replacing steps over a different token, and replaces an equal one. */
  lemma SkipToken(w: string, s: string, pat: string, value: string)
    requires Bracketed(pat) && Bracketed(w)
    ensures w != pat ==> Replace(w + s, pat, value) == w + Replace(s, pat, value) && Count(w + s, pat) == Count(s, pat)
    ensures w == pat ==>
      Replace(w + s, pat, value) == value + Replace(s, pat, value) && Count(w + s, pat) == 1 + Count(s, pat)
  {
    if w == pat {
      assert (w + s)[|pat|..] == s;
      assert pat <= w + s;
    } else {
      if pat <= w + s {
        BracketedPrefix(pat, w, s);
      }
      assert !(pat <= w + s);
      assert (w + s)[1..] == w[1..] + s;
      forall i | 0 <= i < |w[1..]| ensures w[1..][i] != '[' {
        BracketedInside(w, i + 1);
      }
      SkipPlain(w[1..], s, pat, value);
      assert w == [w[0]] + w[1..];
    }
  }

  // ---------- counting opening brackets ----------

  lemma {:induction false} BracketsConcat(s: string, t: string)
    ensures Brackets(s + t) == Brackets(s) + Brackets(t)
  {
    if s == "" {
      assert s + t == t;
    } else {
      assert (s + t)[1..] == s[1..] + t;
      BracketsConcat(s[1..], t);
    }
  }

  lemma {:induction false} BracketsNone(s: string)
    requires forall i :: 0 <= i < |s| ==> s[i] != '['
    ensures Brackets(s) == 0
  {
    if s != "" {
      BracketsNone(s[1..]);
    }
  }

  lemma BracketsToken(w: string)
    requires Bracketed(w)
    ensures Brackets(w) == 1
  {
    forall i | 0 <= i < |w[1..]| ensures w[1..][i] != '[' {
      BracketedInside(w, i + 1);
    }
    BracketsNone(w[1..]);
  }

  /** Each replacement of a token by bracket-free text removes one opening bracket. */
  lemma {:induction false} BracketsReplaced(s: string, pat: string, value: string)
    requires Bracketed(pat) && NoBrackets(value)
    ensures Brackets(Replace(s, pat, value)) + Count(s, pat) == Brackets(s)
    decreases |s|
  {
    if s != "" {
      if pat <= s {
        BracketsReplaced(s[|pat|..], pat, value);
        BracketsConcat(value, Replace(s[|pat|..], pat, value));
        BracketsNone(value);
        assert s == pat + s[|pat|..];
        BracketsConcat(pat, s[|pat|..]);
        BracketsToken(pat);
      } else {
        BracketsReplaced(s[1..], pat, value);
        BracketsConcat([s[0]], Replace(s[1..], pat, value));
        assert [s[0]][1..] == "";
      }
    }
  }

  lemma CountCons(c: char, s: string, pat: string)
    requires Bracketed(pat)
    ensures Count([c] + s, pat) >= Count(s, pat)
  {
    assert ([c] + s)[1..] == s;
    if pat <= [c] + s {
      var tail := pat[1..];
      assert tail <= s;
      assert s == tail + s[|tail|..];
      forall i | 0 <= i < |tail| ensures tail[i] != '[' {
        BracketedInside(pat, i + 1);
      }
      SkipPlain(tail, s[|tail|..], pat, "");
      assert ([c] + s)[|pat|..] == s[|tail|..];
    }
  }

  /** Replacing one token never removes an occurrence of another. */
  lemma {:induction false} CountGrows(s: string, pat: string, value: string, other: string)
    requires Bracketed(pat) && Bracketed(other) && pat != other && NoBrackets(value)
    ensures Count(Replace(s, pat, value), other) >= Count(s, other)
    decreases |s|
  {
    if s != "" {
      if pat <= s {
        var rest := s[|pat|..];
        assert s == pat + rest;
        CountGrows(rest, pat, value, other);
        SkipToken(pat, rest, other, "");
        SkipPlain(value, Replace(rest, pat, value), other, "");
      } else if other <= s {
        var rest := s[|other|..];
        assert s == other + rest;
        CountGrows(rest, pat, value, other);
        SkipToken(other, rest, pat, value);
        SkipToken(other, Replace(rest, pat, value), other, "");
      } else {
        CountGrows(s[1..], pat, value, other);
        CountCons(s[0], Replace(s[1..], pat, value), other);
      }
    }
  }

  lemma OccursSuffix(pat: string, s: string, t: string)
    requires Occurs(pat, t)
    ensures Occurs(pat, s + t)
  {
    var i :| 0 <= i <= |t| && pat <= t[i..];
    assert (s + t)[|s| + i..] == t[i..];
  }

  lemma OccursPrefix(pat: string, t: string)
    ensures Occurs(pat, pat + t)
  {
    assert (pat + t)[0..] == pat + t;
  }

  /** An occurrence of a token lies at, or after, a leading piece that does not hold it. */
  lemma OccursAfter(pat: string, w: string, t: string)
    requires Bracketed(pat) && Occurs(pat, w + t)
    requires Bracketed(w) || |w| == 1
    ensures pat <= w + t || Occurs(pat, t)
  {
    var i :| 0 <= i <= |w + t| && pat <= (w + t)[i..];
    if i == 0 {
      assert (w + t)[0..] == w + t;
    } else if i < |w| {
      assert (w + t)[i..][0] == w[i];
      BracketedInside(w, i);
    } else {
      assert (w + t)[i..] == t[i - |w|..];
    }
  }
}
