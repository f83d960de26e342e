/** Sequence operations the engines take from the JavaScript library: filter-and-map and the stable sort. */
module Sequences {
  import opened Base

  // ---------- slicing ----------

  lemma Assoc<T>(a: seq<T>, b: seq<T>, c: seq<T>)
    ensures a + (b + c) == (a + b) + c
  {
  }

  lemma SliceJoin<T>(s: seq<T>, i: nat, j: nat, k: nat)
    requires i <= j <= k <= |s|
    ensures s[i..k] == s[i..j] + s[j..k]
  {
  }

  lemma ConsConcat<T>(s: seq<T>, l: seq<T>, r: seq<T>)
    requires s != [] && s[1..] == l + r
    ensures s == ([s[0]] + l) + r
  {
  }

  lemma Snoc<T>(s: seq<T>, i: nat)
    requires i < |s|
    ensures s[..i + 1] == s[..i] + [s[i]]
  {
  }

  // ---------- filter and map ----------

  /** The results of `f` on the elements of `s` that it does not drop, in order. */
  function Collect<A, B>(f: A -> Option<B>, s: seq<A>): (r: seq<B>)
    ensures |r| <= |s|
  {
    if s == [] then [] else Collect(f, s[..|s| - 1]) + One(f(s[|s| - 1]))
  }

  function One<B>(o: Option<B>): seq<B> {
    match o
    case Some(b) => [b]
    case None => []
  }

  lemma CollectStep<A, B>(f: A -> Option<B>, s: seq<A>, i: nat)
    requires i < |s|
    ensures Collect(f, s[..i + 1]) == Collect(f, s[..i]) + One(f(s[i]))
  {
    assert s[..i + 1][..i] == s[..i];
  }

  lemma CollectSnoc<A, B>(f: A -> Option<B>, s: seq<A>, x: A)
    ensures Collect(f, s + [x]) == Collect(f, s) + One(f(x))
  {
    assert (s + [x])[..|s|] == s;
  }

  lemma {:induction false} CollectConcat<A, B>(f: A -> Option<B>, s: seq<A>, t: seq<A>)
    ensures Collect(f, s + t) == Collect(f, s) + Collect(f, t)
  {
    if t == [] {
      assert s + t == s;
    } else {
      var n := |t| - 1;
      assert (s + t)[..|s + t| - 1] == s + t[..n];
      CollectConcat(f, s, t[..n]);
    }
  }

  /** Exactly the kept images are collected. */
  lemma {:induction false} CollectMembers<A, B>(f: A -> Option<B>, s: seq<A>, b: B)
    ensures b in Collect(f, s) <==> exists i :: 0 <= i < |s| && f(s[i]) == Some(b)
  {
    if s != [] {
      var n := |s| - 1;
      CollectMembers(f, s[..n], b);
      if i :| 0 <= i < n && f(s[..n][i]) == Some(b) {
        assert f(s[i]) == Some(b);
      }
      if i :| 0 <= i < |s| && f(s[i]) == Some(b) {
        assert i < n ==> f(s[..n][i]) == Some(b);
      }
    }
  }

  /** An element that `t` holds can be taken out of it. */
  lemma TakeOut<T>(t: seq<T>, x: T) returns (k: nat)
    requires x in multiset(t)
    ensures k < |t| && t[k] == x && multiset(t[..k] + t[k + 1..]) == multiset(t) - multiset{x}
  {
    assert x in t;
    k :| 0 <= k < |t| && t[k] == x;
    assert t == t[..k] + ([x] + t[k + 1..]);
    assert multiset(t) == multiset(t[..k]) + (multiset{x} + multiset(t[k + 1..]));
  }

  lemma MoveToFront<T>(s: seq<T>, x: T) returns (t: seq<T>)
    requires x in s
    ensures multiset(t) == multiset(s) && t != [] && t[0] == x
  {
    var k := TakeOut(s, x);
    var rest := s[..k] + s[k + 1..];
    t := [x] + rest;
    assert multiset(t) == multiset{x} + multiset(rest);
  }

  lemma CollectAround<A, B>(f: A -> Option<B>, t: seq<A>, k: nat)
    requires k < |t|
    ensures multiset(Collect(f, t)) == multiset(Collect(f, t[..k] + t[k + 1..])) + multiset(One(f(t[k])))
  {
    assert t == t[..k + 1] + t[k + 1..];
    CollectConcat(f, t[..k + 1], t[k + 1..]);
    CollectStep(f, t, k);
    CollectConcat(f, t[..k], t[k + 1..]);
  }

  /** Permuting the input permutes the output. */
  lemma {:induction false} CollectPermuted<A, B>(f: A -> Option<B>, s: seq<A>, t: seq<A>)
    requires multiset(s) == multiset(t)
    ensures multiset(Collect(f, s)) == multiset(Collect(f, t))
    decreases |s|
  {
    assert |multiset(s)| == |s| && |multiset(t)| == |t|;
    if s != [] {
      var n := |s| - 1;
      assert s == s[..n] + [s[n]];
      assert multiset(s[..n]) == multiset(s) - multiset{s[n]};
      var k := TakeOut(t, s[n]);
      CollectPermuted(f, s[..n], t[..k] + t[k + 1..]);
      CollectAround(f, t, k);
    }
  }

  // ---------- pushing one list after another ----------

  function Flatten<A, B>(f: A -> seq<B>, s: seq<A>): seq<B> {
    if s == [] then [] else Flatten(f, s[..|s| - 1]) + f(s[|s| - 1])
  }

  lemma {:induction false} FlattenMembers<A, B>(f: A -> seq<B>, s: seq<A>, b: B)
    ensures b in Flatten(f, s) <==> exists a :: a in s && b in f(a)
  {
    if s != [] {
      var n := |s| - 1;
      FlattenMembers(f, s[..n], b);
      assert s == s[..n] + [s[n]];
      assert forall a :: a in s <==> a in s[..n] || a == s[n];
    }
  }

  // ---------- the stable sort ----------

  ghost predicate TotalPreorder<T(!new)>(leq: (T, T) -> bool) {
    && (forall x, y :: leq(x, y) || leq(y, x))
    && (forall x, y, z :: leq(x, y) && leq(y, z) ==> leq(x, z))
  }

  ghost predicate Ordered<T>(leq: (T, T) -> bool, s: seq<T>) {
    forall i, j :: 0 <= i < j < |s| ==> leq(s[i], s[j])
  }

  function Insert<T>(leq: (T, T) -> bool, x: T, s: seq<T>): (r: seq<T>)
    ensures multiset(r) == multiset(s) + multiset{x}
    ensures |r| == |s| + 1
  {
    if s == [] then [x]
    else if leq(x, s[0]) then [x] + s
    else
      assert s == [s[0]] + s[1..];
      [s[0]] + Insert(leq, x, s[1..])
  }

  /** `Array.prototype.sort`: a stable sort of the elements. */
  function Sort<T>(leq: (T, T) -> bool, s: seq<T>): (r: seq<T>)
    ensures multiset(r) == multiset(s)
    ensures |r| == |s|
  {
    if s == [] then []
    else
      assert s == [s[0]] + s[1..];
      Insert(leq, s[0], Sort(leq, s[1..]))
  }

  lemma {:induction false} InsertOrdered<T(!new)>(leq: (T, T) -> bool, x: T, s: seq<T>)
    requires TotalPreorder(leq) && Ordered(leq, s)
    ensures Ordered(leq, Insert(leq, x, s))
  {
    if s != [] && !leq(x, s[0]) {
      InsertOrdered(leq, x, s[1..]);
      var r := Insert(leq, x, s[1..]);
      forall y | y in r ensures leq(s[0], y) {
        assert y in multiset(r);
        assert y == x || y in multiset(s[1..]);
      }
    }
  }

  lemma {:induction false} SortOrdered<T(!new)>(leq: (T, T) -> bool, s: seq<T>)
    requires TotalPreorder(leq)
    ensures Ordered(leq, Sort(leq, s))
  {
    if s != [] {
      SortOrdered(leq, s[1..]);
      InsertOrdered(leq, s[0], Sort(leq, s[1..]));
    }
  }

  lemma SortMembers<T>(leq: (T, T) -> bool, s: seq<T>)
    ensures forall x :: x in Sort(leq, s) <==> x in s
  {
    forall x ensures x in Sort(leq, s) <==> x in s {
      assert x in multiset(s) <==> x in multiset(Sort(leq, s));
    }
  }

  /** `x` itself if it ties with `p`, else nothing. */
  function Tie<T>(leq: (T, T) -> bool, p: T, x: T): seq<T> {
    if leq(p, x) && leq(x, p) then [x] else []
  }

  /** The elements of `s` that tie with `p`, in order. */
  function Ties<T>(leq: (T, T) -> bool, p: T, s: seq<T>): seq<T> {
    if s == [] then [] else Tie(leq, p, s[0]) + Ties(leq, p, s[1..])
  }

  lemma TiesCons<T>(leq: (T, T) -> bool, p: T, x: T, s: seq<T>)
    ensures Ties(leq, p, [x] + s) == Tie(leq, p, x) + Ties(leq, p, s)
  {
    assert ([x] + s)[1..] == s;
  }

  /** Elements that tie with `p` are ordered both ways. */
  ghost predicate ThroughTies<T(!new)>(leq: (T, T) -> bool, p: T) {
    forall x, y :: Tie(leq, p, x) != [] && Tie(leq, p, y) != [] ==> leq(x, y)
  }

  lemma {:induction false} InsertStable<T(!new)>(leq: (T, T) -> bool, p: T, x: T, s: seq<T>)
    requires ThroughTies(leq, p)
    ensures Ties(leq, p, Insert(leq, x, s)) == Tie(leq, p, x) + Ties(leq, p, s)
  {
    if s == [] || leq(x, s[0]) {
      TiesCons(leq, p, x, s);
      assert s == [] ==> [x] + s == [x];
    } else {
      InsertStable(leq, p, x, s[1..]);
      TiesCons(leq, p, s[0], Insert(leq, x, s[1..]));
      SwapEmpty(Tie(leq, p, x), Tie(leq, p, s[0]), Ties(leq, p, s[1..]));
    }
  }

  lemma SwapEmpty<T>(a: seq<T>, b: seq<T>, c: seq<T>)
    requires a == [] || b == []
    ensures b + (a + c) == a + (b + c)
  {
    assert [] + c == c && [] + (a + c) == a + c && [] + (b + c) == b + c;
  }

  /** Elements that compare equal keep their relative order. */
  lemma {:induction false} SortStable<T(!new)>(leq: (T, T) -> bool, p: T, s: seq<T>)
    requires TotalPreorder(leq)
    ensures Ties(leq, p, Sort(leq, s)) == Ties(leq, p, s)
  {
    if s != [] {
      assert ThroughTies(leq, p);
      SortStable(leq, p, s[1..]);
      InsertStable(leq, p, s[0], Sort(leq, s[1..]));
    }
  }

  /** `x` stands somewhere before `y`. */
  predicate InOrder<T(==)>(s: seq<T>, x: T, y: T) {
    s != [] && ((s[0] == x && y in s[1..]) || InOrder(s[1..], x, y))
  }

  lemma {:induction false} InOrderAt<T>(s: seq<T>, x: T, y: T)
    ensures InOrder(s, x, y) <==> exists i, j :: 0 <= i < j < |s| && s[i] == x && s[j] == y
  {
    if s != [] {
      var rest := s[1..];
      InOrderAt(rest, x, y);
      if i, j :| 0 <= i < j < |s| && s[i] == x && s[j] == y {
        assert s[j] == rest[j - 1];
        if i > 0 {
          assert rest[i - 1] == x;
        }
      }
      if i, j :| 0 <= i < j < |rest| && rest[i] == x && rest[j] == y {
        assert s[i + 1] == x && s[j + 1] == y;
      }
    }
  }

  lemma {:induction false} TiesMembers<T>(leq: (T, T) -> bool, p: T, s: seq<T>, x: T)
    requires Tie(leq, p, x) != []
    ensures x in Ties(leq, p, s) <==> x in s
  {
    if s != [] {
      TiesMembers(leq, p, s[1..], x);
      assert x in s <==> x == s[0] || x in s[1..];
    }
  }

  lemma InOrderCons<T>(a: T, s: seq<T>, x: T, y: T)
    ensures InOrder([a] + s, x, y) <==> (a == x && y in s) || InOrder(s, x, y)
  {
    assert ([a] + s)[1..] == s;
  }

  lemma {:induction false} TiesKeepOrder<T>(leq: (T, T) -> bool, p: T, s: seq<T>, x: T, y: T)
    requires Tie(leq, p, x) != [] && Tie(leq, p, y) != []
    ensures InOrder(Ties(leq, p, s), x, y) <==> InOrder(s, x, y)
  {
    if s != [] {
      TiesKeepOrder(leq, p, s[1..], x, y);
      TiesMembers(leq, p, s[1..], y);
      if Tie(leq, p, s[0]) == [] {
        assert [] + Ties(leq, p, s[1..]) == Ties(leq, p, s[1..]);
      } else {
        InOrderCons(s[0], Ties(leq, p, s[1..]), x, y);
      }
    }
  }

  /** The sort keeps tied elements in the order of the input. */
  lemma SortKeepsOrder<T(!new)>(leq: (T, T) -> bool, s: seq<T>, x: T, y: T)
    requires TotalPreorder(leq) && leq(x, y) && leq(y, x)
    ensures InOrder(Sort(leq, s), x, y) <==> InOrder(s, x, y)
  {
    assert leq(x, x);
    SortStable(leq, x, s);
    TiesKeepOrder(leq, x, s, x, y);
    TiesKeepOrder(leq, x, Sort(leq, s), x, y);
  }

  ghost predicate Antisymmetric<T>(leq: (T, T) -> bool, s: seq<T>) {
    forall x, y | x in s && y in s :: leq(x, y) && leq(y, x) ==> x == y
  }

  lemma FirstIsLeast<T(!new)>(leq: (T, T) -> bool, s: seq<T>, y: T)
    requires TotalPreorder(leq) && Ordered(leq, s) && y in multiset(s)
    ensures s != [] && leq(s[0], y)
  {
    var k :| 0 <= k < |s| && s[k] == y;
    assert leq(s[0], s[0]);
  }

  lemma SameRest<T>(s: seq<T>, t: seq<T>)
    requires s != [] && t != [] && s[0] == t[0] && multiset(s) == multiset(t)
    ensures multiset(s[1..]) == multiset(t[1..])
  {
    assert s == [s[0]] + s[1..] && t == [t[0]] + t[1..];
    assert multiset(s[1..]) == multiset(s) - multiset{s[0]};
    assert multiset(t[1..]) == multiset(t) - multiset{t[0]};
  }

  /** When no two different elements tie, the sorted arrangement is unique. */
  lemma {:induction false} OrderedUnique<T(!new)>(leq: (T, T) -> bool, s: seq<T>, t: seq<T>)
    requires TotalPreorder(leq)
    requires multiset(s) == multiset(t) && Ordered(leq, s) && Ordered(leq, t) && Antisymmetric(leq, s)
    ensures s == t
    decreases |s|
  {
    assert |multiset(s)| == |s| && |multiset(t)| == |t|;
    if s != [] {
      assert s[0] in multiset(s) && t[0] in multiset(t);
      FirstIsLeast(leq, s, t[0]);
      FirstIsLeast(leq, t, s[0]);
      assert t[0] in s && s[0] in s;
      SameRest(s, t);
      OrderedUnique(leq, s[1..], t[1..]);
      assert s == [s[0]] + s[1..] && t == [t[0]] + t[1..];
    }
  }

  lemma SortPermuted<T(!new)>(leq: (T, T) -> bool, s: seq<T>, t: seq<T>)
    requires TotalPreorder(leq)
    requires multiset(s) == multiset(t) && Antisymmetric(leq, s)
    ensures Sort(leq, s) == Sort(leq, t)
  {
    SortOrdered(leq, s);
    SortOrdered(leq, t);
    SortMembers(leq, s);
    OrderedUnique(leq, Sort(leq, s), Sort(leq, t));
  }

  // ---------- the first element with a property ----------

  /** `Array.prototype.find`. */
  function First<T>(p: T -> bool, s: seq<T>): (r: Option<T>)
    ensures if r.Some? then r.value in s && p(r.value) else forall x :: x in s ==> !p(x)
  {
    if s == [] then None else if p(s[0]) then Some(s[0]) else First(p, s[1..])
  }

  lemma {:induction false} FirstAt<T>(p: T -> bool, s: seq<T>, k: nat)
    requires k < |s| && p(s[k]) && forall j :: 0 <= j < k ==> !p(s[j])
    ensures First(p, s) == Some(s[k])
  {
    if k > 0 {
      assert forall j :: 0 <= j < k - 1 ==> s[1..][j] == s[j + 1];
      FirstAt(p, s[1..], k - 1);
    }
  }

  lemma {:induction false} FirstIndex<T>(p: T -> bool, s: seq<T>) returns (k: nat)
    requires First(p, s).Some?
    ensures k < |s| && p(s[k]) && forall j :: 0 <= j < k ==> !p(s[j])
  {
    k := 0;
    if !p(s[0]) {
      var k' := FirstIndex(p, s[1..]);
      k := k' + 1;
      assert forall j :: 0 < j <= k ==> s[j] == s[1..][j - 1];
    }
  }

  lemma {:induction false} FirstAgrees<T>(p: T -> bool, q: T -> bool, s: seq<T>)
    requires forall x :: x in s ==> p(x) == q(x)
    ensures First(p, s) == First(q, s)
  {
    if s != [] {
      assert s[0] in s && forall x :: x in s[1..] ==> x in s;
      FirstAgrees(p, q, s[1..]);
    }
  }

  /** The elements whose image is kept and has the property. */
  function Through<A, B>(p: B -> bool, f: A -> Option<B>): A -> bool {
    (a: A) => f(a).Some? && p(f(a).value)
  }

  /** The first image with a property is the image of the first element that has such an image. */
  lemma {:induction false} FirstCollected<A, B>(p: B -> bool, f: A -> Option<B>, s: seq<A>)
    ensures First(p, Collect(f, s)) == match First(Through(p, f), s) case Some(a) => f(a) case None => None
  {
    if s == [] {
    } else {
      FirstCollected(p, f, s[1..]);
      CollectCons(f, s);
      if f(s[0]).Some? {
        assert ([f(s[0]).value] + Collect(f, s[1..]))[1..] == Collect(f, s[1..]);
      } else {
        assert [] + Collect(f, s[1..]) == Collect(f, s[1..]);
      }
    }
  }

  lemma CollectCons<A, B>(f: A -> Option<B>, s: seq<A>)
    requires s != []
    ensures Collect(f, s) == One(f(s[0])) + Collect(f, s[1..])
  {
    assert s == [s[0]] + s[1..];
    CollectConcat(f, [s[0]], s[1..]);
    assert [s[0]][..0] == [];
    assert Collect(f, [s[0]]) == One(f(s[0]));
  }

  /** The elements with the property that tie with `q`. */
  function TiedWith<T>(leq: (T, T) -> bool, p: T -> bool, q: T): T -> bool {
    (x: T) => p(x) && leq(q, x) && leq(x, q)
  }

  lemma {:induction false} FirstTied<T>(leq: (T, T) -> bool, p: T -> bool, q: T, s: seq<T>)
    ensures First(p, Ties(leq, q, s)) == First(TiedWith(leq, p, q), s)
  {
    if s != [] {
      FirstTied(leq, p, q, s[1..]);
      var rest := Ties(leq, q, s[1..]);
      if Tie(leq, q, s[0]) == [] {
        assert [] + rest == rest;
      } else {
        assert ([s[0]] + rest)[1..] == rest;
      }
    }
  }

  lemma {:induction false} FirstNarrowed<T>(leq: (T, T) -> bool, p: T -> bool, q: T, s: seq<T>)
    requires Ordered(leq, s) && q in s && p(q) && leq(q, q) && forall x :: x in s && p(x) ==> leq(q, x)
    ensures First(p, s) == First(TiedWith(leq, p, q), s)
  {
    if p(s[0]) {
      var k :| 0 <= k < |s| && s[k] == q;
      assert k > 0 ==> leq(s[0], s[k]);
    } else {
      assert s == [s[0]] + s[1..];
      FirstNarrowed(leq, p, q, s[1..]);
    }
  }

  /**
   * After sorting, the first element with a property is the one that came first in the input among the least
   * elements with the property.
   */
  lemma FirstSorted<T(!new)>(leq: (T, T) -> bool, p: T -> bool, q: T, s: seq<T>)
    requires TotalPreorder(leq) && q in s && p(q) && forall x :: x in s && p(x) ==> leq(q, x)
    ensures First(p, Sort(leq, s)) == First(TiedWith(leq, p, q), s)
  {
    assert leq(q, q);
    SortOrdered(leq, s);
    SortMembers(leq, s);
    SortStable(leq, q, s);
    FirstTied(leq, p, q, s);
    FirstTied(leq, p, q, Sort(leq, s));
    FirstNarrowed(leq, p, q, Sort(leq, s));
  }

  // ---------- pairwise relations ----------

  ghost predicate Symmetric<T(!new)>(r: (T, T) -> bool) {
    forall x, y :: r(x, y) ==> r(y, x)
  }

  /** The relation holds between every two positions. */
  ghost predicate Pairwise<T>(r: (T, T) -> bool, s: seq<T>) {
    forall i, j :: 0 <= i < j < |s| ==> r(s[i], s[j])
  }

  lemma PairwiseSnoc<T>(r: (T, T) -> bool, s: seq<T>, x: T)
    requires Pairwise(r, s) && forall y :: y in s ==> r(y, x)
    ensures Pairwise(r, s + [x])
  {
  }

  /** The same, said of the elements regardless of their order. */
  ghost predicate PairwiseIn<T>(r: (T, T) -> bool, m: multiset<T>) {
    forall x, y | x in m && y in m :: (x != y || m[x] >= 2) ==> r(x, y)
  }

  lemma {:induction false} Twice<T>(s: seq<T>, x: T) returns (i: nat, j: nat)
    requires multiset(s)[x] >= 2
    ensures i < j < |s| && s[i] == x && s[j] == x
  {
    var n := |s| - 1;
    assert s == s[..n] + [s[n]];
    if s[n] == x {
      assert x in s[..n];
      i :| 0 <= i < n && s[i] == x;
      j := n;
    } else {
      i, j := Twice(s[..n], x);
    }
  }

  lemma PairwiseForward<T(!new)>(r: (T, T) -> bool, s: seq<T>)
    requires Symmetric(r) && Pairwise(r, s)
    ensures PairwiseIn(r, multiset(s))
  {
    var m := multiset(s);
    forall x, y | x in m && y in m && (x != y || m[x] >= 2) ensures r(x, y) {
      if x == y {
        var i, j := Twice(s, x);
        assert r(s[i], s[j]);
      } else {
        var i :| 0 <= i < |s| && s[i] == x;
        var j :| 0 <= j < |s| && s[j] == y;
        assert i < j ==> r(s[i], s[j]);
        assert j < i ==> r(s[j], s[i]);
      }
    }
  }

  lemma PairwiseBackward<T>(r: (T, T) -> bool, s: seq<T>)
    requires PairwiseIn(r, multiset(s))
    ensures Pairwise(r, s)
  {
    forall i, j | 0 <= i < j < |s| ensures r(s[i], s[j]) {
      assert s == s[..j] + s[j..];
      assert s[i] in s[..j] && s[j] in s[j..];
      assert s[i] == s[j] ==> multiset(s)[s[i]] >= 2;
    }
  }

  /** A symmetric pairwise relation survives reordering. */
  lemma PairwisePermuted<T(!new)>(r: (T, T) -> bool, s: seq<T>, t: seq<T>)
    requires Symmetric(r) && multiset(s) == multiset(t)
    ensures Pairwise(r, s) <==> Pairwise(r, t)
  {
    if Pairwise(r, s) {
      PairwiseForward(r, s);
      PairwiseBackward(r, t);
    }
    if Pairwise(r, t) {
      PairwiseForward(r, t);
      PairwiseBackward(r, s);
    }
  }
}
