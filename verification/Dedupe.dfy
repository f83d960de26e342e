/** De-duplication by key: the most confident entry of each key, in the order in which keys first appear. */
module Dedupe {
  import opened Base
  import opened Sequences

  /** The keys in order of first appearance: the iteration order of the map that collects the entries. */
  function Keys<T, K(==)>(key: T -> K, s: seq<T>): seq<K> {
    if s == [] then []
    else
      var n := |s| - 1;
      var before := Keys(key, s[..n]);
      if key(s[n]) in before then before else before + [key(s[n])]
  }

  /** The entry kept for a key: a later one replaces it only when strictly more confident. */
  function Best<T>(key: T -> string, confidence: T -> real, s: seq<T>, k: string): Option<T> {
    if s == [] then None
    else
      var n := |s| - 1;
      var before := Best(key, confidence, s[..n], k);
      if key(s[n]) == k && (before.None? || confidence(s[n]) > confidence(before.value)) then Some(s[n]) else before
  }

  function BestOf<T>(key: T -> string, confidence: T -> real, s: seq<T>): string -> Option<T> {
    (k: string) => Best(key, confidence, s, k)
  }

  function Survivors<T>(key: T -> string, confidence: T -> real, s: seq<T>): seq<T> {
    Collect(BestOf(key, confidence, s), Keys(key, s))
  }

  // ---------- the loop ----------

  /** Insertion-ordered map: its keys in order, and its rows. */
  datatype Table<T> = Table(keys: seq<string>, rows: map<string, T>)

  ghost predicate Holds<T>(table: Table<T>, key: T -> string, confidence: T -> real, s: seq<T>) {
    && table.keys == Keys(key, s)
    && (forall k :: k in table.rows <==> k in table.keys)
    && forall k :: Best(key, confidence, s, k) == if k in table.rows then Some(table.rows[k]) else None
  }

  lemma BestSnoc<T>(key: T -> string, confidence: T -> real, s: seq<T>, x: T, k: string)
    ensures var before := Best(key, confidence, s, k);
      Best(key, confidence, s + [x], k) ==
        if key(x) == k && (before.None? || confidence(x) > confidence(before.value)) then Some(x) else before
  {
    assert (s + [x])[..|s|] == s;
  }

  lemma KeysSnoc<T, K>(key: T -> K, s: seq<T>, x: T)
    ensures Keys(key, s + [x]) == if key(x) in Keys(key, s) then Keys(key, s) else Keys(key, s) + [key(x)]
  {
    assert (s + [x])[..|s|] == s;
  }

  method Offer<T>(table: Table<T>, key: T -> string, confidence: T -> real, x: T, ghost s: seq<T>)
    returns (after: Table<T>)
    requires Holds(table, key, confidence, s)
    ensures Holds(after, key, confidence, s + [x])
  {
    after := table;
    var k := key(x);
    if k !in table.rows {
      after := Table(table.keys + [k], table.rows[k := x]);
    } else if confidence(x) > confidence(table.rows[k]) {
      after := table.(rows := table.rows[k := x]);
    }
    KeysSnoc(key, s, x);
    forall k ensures Best(key, confidence, s + [x], k) == if k in after.rows then Some(after.rows[k]) else None {
      BestSnoc(key, confidence, s, x, k);
    }
  }

  method Values<T>(table: Table<T>, key: T -> string, confidence: T -> real, ghost s: seq<T>) returns (out: seq<T>)
    requires Holds(table, key, confidence, s)
    ensures out == Survivors(key, confidence, s)
  {
    out := [];
    ghost var best := BestOf(key, confidence, s);
    for i := 0 to |table.keys|
      invariant out == Collect(best, table.keys[..i])
    {
      CollectStep(best, table.keys, i);
      assert table.keys[i] in table.keys;
      out := out + [table.rows[table.keys[i]]];
    }
    assert table.keys[..|table.keys|] == table.keys;
  }

  /** Normalizes each raw entry, drops what `keep` drops, and de-duplicates the rest. */
  method Collapse<R, T>(raws: seq<R>, keep: R -> Option<T>, key: T -> string, confidence: T -> real)
    returns (out: seq<T>)
    ensures out == Survivors(key, confidence, Collect(keep, raws))
  {
    var table: Table<T> := Table([], map[]);
    ghost var kept: seq<T> := [];
    for i := 0 to |raws|
      invariant kept == Collect(keep, raws[..i]) && Holds(table, key, confidence, kept)
    {
      CollectStep(keep, raws, i);
      match keep(raws[i]) {
        case Some(x) =>
          table := Offer(table, key, confidence, x, kept);
          kept := kept + [x];
        case None =>
          assert kept + [] == kept;
      }
    }
    assert raws[..|raws|] == raws;
    out := Values(table, key, confidence, kept);
  }

  // ---------- what survives ----------

  /** Position `i` holds the earliest entry of maximal confidence with its key. */
  predicate Leads<T>(key: T -> string, confidence: T -> real, s: seq<T>, i: nat)
    requires i < |s|
  {
    forall j :: 0 <= j < |s| && key(s[j]) == key(s[i]) ==>
      confidence(s[j]) <= confidence(s[i]) && (j < i ==> confidence(s[j]) < confidence(s[i]))
  }

  ghost predicate LeadsFor<T>(key: T -> string, confidence: T -> real, s: seq<T>, k: string, x: T, i: nat) {
    i < |s| && s[i] == x && key(x) == k && Leads(key, confidence, s, i)
  }

  lemma {:induction false} KeysAreSeen<T, K>(key: T -> K, s: seq<T>)
    ensures forall k :: k in Keys(key, s) <==> exists i :: 0 <= i < |s| && key(s[i]) == k
    ensures forall i, j :: 0 <= i < j < |Keys(key, s)| ==> Keys(key, s)[i] != Keys(key, s)[j]
  {
    if s != [] {
      var n := |s| - 1;
      KeysAreSeen(key, s[..n]);
      assert forall i :: 0 <= i < n ==> s[..n][i] == s[i];
    }
  }

  lemma KeySeen<T, K>(key: T -> K, s: seq<T>, k: K)
    ensures k in Keys(key, s) <==> exists i :: 0 <= i < |s| && key(s[i]) == k
  {
    KeysAreSeen(key, s);
  }

  /** The key stands in the list before the other one is seen for the first time. */
  ghost predicate SeenBefore<T, K>(key: T -> K, s: seq<T>, k: K, later: K) {
    exists a :: 0 <= a < |s| && key(s[a]) == k && forall b :: 0 <= b <= a ==> key(s[b]) != later
  }

  lemma SeenBeforeKept<T, K>(key: T -> K, s: seq<T>, n: nat, k: K, later: K)
    requires n <= |s| && SeenBefore(key, s[..n], k, later)
    ensures SeenBefore(key, s, k, later)
  {
    var a :| 0 <= a < n && key(s[..n][a]) == k && forall b :: 0 <= b <= a ==> key(s[..n][b]) != later;
    forall b | 0 <= b <= a ensures key(s[b]) != later {
      assert s[..n][b] == s[b];
    }
    assert key(s[a]) == k;
  }

  /** Keys stand in the order in which they first appear. */
  lemma {:induction false} KeysInOrder<T, K>(key: T -> K, s: seq<T>, i: nat, j: nat)
    requires i < j < |Keys(key, s)|
    ensures SeenBefore(key, s, Keys(key, s)[i], Keys(key, s)[j])
  {
    var n := |s| - 1;
    var init := s[..n];
    var before := Keys(key, init);
    if j < |before| {
      KeysInOrder(key, init, i, j);
      SeenBeforeKept(key, s, n, before[i], before[j]);
    } else {
      var k := before[i];
      KeySeen(key, init, k);
      var a :| 0 <= a < |init| && key(init[a]) == k;
      forall b | 0 <= b <= a ensures key(s[b]) != key(s[n]) {
        KeySeen(key, init, key(init[b]));
      }
      assert key(s[a]) == k;
    }
  }

  lemma {:induction false} BestLeads<T>(key: T -> string, confidence: T -> real, s: seq<T>, k: string) returns (i: nat)
    ensures var b := Best(key, confidence, s, k);
      if b.Some? then LeadsFor(key, confidence, s, k, b.value, i) else forall j :: 0 <= j < |s| ==> key(s[j]) != k
  {
    i := 0;
    if s != [] {
      var n := |s| - 1;
      i := BestLeads(key, confidence, s[..n], k);
      assert forall j :: 0 <= j < n ==> s[..n][j] == s[j];
      if Best(key, confidence, s, k) != Best(key, confidence, s[..n], k) {
        i := n;
      }
    }
  }

  lemma LeaderUnique<T>(key: T -> string, confidence: T -> real, s: seq<T>, i: nat, j: nat)
    requires i < |s| && j < |s| && key(s[i]) == key(s[j])
    requires Leads(key, confidence, s, i) && Leads(key, confidence, s, j)
    ensures i == j
  {
  }

  /** An entry survives iff it is, for its key, the earliest entry of maximal confidence. */
  lemma SurvivesIffLeads<T>(key: T -> string, confidence: T -> real, s: seq<T>, x: T)
    ensures x in Survivors(key, confidence, s) <==> exists i: nat :: LeadsFor(key, confidence, s, key(x), x, i)
  {
    var best := BestOf(key, confidence, s);
    CollectMembers(best, Keys(key, s), x);
    KeysAreSeen(key, s);
    if x in Survivors(key, confidence, s) {
      var a :| 0 <= a < |Keys(key, s)| && best(Keys(key, s)[a]) == Some(x);
      var i := BestLeads(key, confidence, s, Keys(key, s)[a]);
    }
    if i: nat :| LeadsFor(key, confidence, s, key(x), x, i) {
      var j := BestLeads(key, confidence, s, key(x));
      LeaderUnique(key, confidence, s, i, j);
      assert key(x) in Keys(key, s);
      var a :| 0 <= a < |Keys(key, s)| && Keys(key, s)[a] == key(x);
      assert best(Keys(key, s)[a]) == Some(x);
    }
  }

  lemma {:induction false} KeysOfBest<T>(key: T -> string, confidence: T -> real, s: seq<T>, keys: seq<string>)
    requires forall k :: k in keys ==> k in Keys(key, s)
    ensures |Collect(BestOf(key, confidence, s), keys)| == |keys|
    ensures forall i :: 0 <= i < |keys| ==> key(Collect(BestOf(key, confidence, s), keys)[i]) == keys[i]
  {
    if keys != [] {
      var n := |keys| - 1;
      KeysOfBest(key, confidence, s, keys[..n]);
      KeysAreSeen(key, s);
      assert keys[n] in keys;
      var i := BestLeads(key, confidence, s, keys[n]);
    }
  }

  ghost predicate DistinctKeys<T>(key: T -> string, s: seq<T>) {
    forall i, j :: 0 <= i < j < |s| ==> key(s[i]) != key(s[j])
  }

  /** The survivors' keys are the keys seen, each once, in order of first appearance. */
  lemma SurvivorKeys<T>(key: T -> string, confidence: T -> real, s: seq<T>)
    ensures var out := Survivors(key, confidence, s);
      && |out| == |Keys(key, s)|
      && (forall i :: 0 <= i < |out| ==> key(out[i]) == Keys(key, s)[i])
      && DistinctKeys(key, out)
      && forall i, j :: 0 <= i < j < |out| ==> SeenBefore(key, s, key(out[i]), key(out[j]))
  {
    KeysOfBest(key, confidence, s, Keys(key, s));
    KeysAreSeen(key, s);
    var out := Survivors(key, confidence, s);
    forall i, j | 0 <= i < j < |out| ensures SeenBefore(key, s, key(out[i]), key(out[j])) {
      KeysInOrder(key, s, i, j);
    }
  }

  lemma {:induction false} KeysOfDistinct<T>(key: T -> string, s: seq<T>)
    requires DistinctKeys(key, s)
    ensures Keys(key, s) == Map(key, s)
  {
    if s != [] {
      var n := |s| - 1;
      assert forall i :: 0 <= i < n ==> s[..n][i] == s[i];
      KeysOfDistinct(key, s[..n]);
      KeysAreSeen(key, s[..n]);
    }
  }

  lemma {:induction false} MapAt<A, B>(f: A -> B, s: seq<A>, i: nat)
    requires i < |s|
    ensures Map(f, s)[i] == f(s[i])
  {
    if i < |s| - 1 {
      MapAt(f, s[..|s| - 1], i);
    }
  }

  /** Entries with distinct keys all survive, in place. */
  lemma DistinctSurvive<T>(key: T -> string, confidence: T -> real, s: seq<T>)
    requires DistinctKeys(key, s)
    ensures Survivors(key, confidence, s) == s
  {
    KeysOfDistinct(key, s);
    SurvivorKeys(key, confidence, s);
    var out := Survivors(key, confidence, s);
    forall i | 0 <= i < |s| ensures out[i] == s[i] {
      SurvivesIffLeads(key, confidence, s, out[i]);
      assert out[i] in out;
      var j: nat :| LeadsFor(key, confidence, s, key(out[i]), out[i], j);
      MapAt(key, s, i);
      assert key(s[i]) == key(s[j]);
    }
  }

  /** Of two entries with the same key and confidence the first survives, alone. */
  lemma SecondOfTwo<T>(key: T -> string, confidence: T -> real, x: T, y: T)
    requires key(x) == key(y) && confidence(x) == confidence(y)
    ensures Survivors(key, confidence, [x, y]) == [x]
  {
    var s := [x, y];
    assert s[..1] == [x] && [x][..0] == [];
    assert Keys(key, [x]) == [key(x)] && Keys(key, s) == [key(x)];
    assert Best(key, confidence, [x], key(x)) == Some(x);
    assert [key(x)][..0] == [];
  }

  // ---------- raising the threshold ----------

  function AtLeast<T>(confidence: T -> real, min: real): T -> Option<T> {
    (x: T) => if confidence(x) < min then None else Some(x)
  }

  lemma {:induction false} BestAboveThreshold<T>(key: T -> string, confidence: T -> real, s: seq<T>, min: real,
      k: string)
    ensures Best(key, confidence, Collect(AtLeast(confidence, min), s), k) ==
      match Best(key, confidence, s, k) case Some(x) => AtLeast(confidence, min)(x) case None => None
  {
    if s != [] {
      var n := |s| - 1;
      BestAboveThreshold(key, confidence, s[..n], min, k);
      var before := Collect(AtLeast(confidence, min), s[..n]);
      assert (before + [s[n]])[..|before|] == before;
      assert before + [] == before;
    }
  }

  lemma SurvivesIffBest<T>(key: T -> string, confidence: T -> real, s: seq<T>, x: T)
    ensures x in Survivors(key, confidence, s) <==> Best(key, confidence, s, key(x)) == Some(x)
  {
    SurvivesIffLeads(key, confidence, s, x);
    var j := BestLeads(key, confidence, s, key(x));
    if i: nat :| LeadsFor(key, confidence, s, key(x), x, i) {
      LeaderUnique(key, confidence, s, i, j);
    }
  }

  /** De-duplicating above a threshold keeps the survivors that reach the threshold. */
  lemma ThresholdCommutes<T>(key: T -> string, confidence: T -> real, s: seq<T>, min: real, x: T)
    ensures x in Survivors(key, confidence, Collect(AtLeast(confidence, min), s)) <==>
      x in Survivors(key, confidence, s) && confidence(x) >= min
  {
    SurvivesIffBest(key, confidence, s, x);
    SurvivesIffBest(key, confidence, Collect(AtLeast(confidence, min), s), x);
    BestAboveThreshold(key, confidence, s, min, key(x));
  }

  // ---------- feeding the output back ----------

  function Map<A, B>(f: A -> B, s: seq<A>): (r: seq<B>)
    ensures |r| == |s|
  {
    if s == [] then [] else Map(f, s[..|s| - 1]) + [f(s[|s| - 1])]
  }

  lemma CollectOne<A, B>(f: A -> Option<B>, s: seq<A>, o: Option<A>)
    ensures Collect(f, s + One(o)) == Collect(f, s) + match o case Some(x) => One(f(x)) case None => []
  {
    match o
    case Some(x) => CollectSnoc(f, s, x);
    case None =>
      assert s + [] == s;
  }

  lemma SplitLast<T>(s: seq<T>)
    requires s != []
    ensures s == s[..|s| - 1] + [s[|s| - 1]]
  {
  }

  lemma KeptStep<R, T>(keep: R -> Option<T>, mapped: seq<R>, x: R, s: seq<T>, y: T)
    requires Collect(keep, mapped) == s && keep(x) == Some(y)
    ensures Collect(keep, mapped + [x]) == s + [y]
  {
    CollectSnoc(keep, mapped, x);
  }

  lemma {:induction false} KeptAgain<R, T>(keep: R -> Option<T>, embed: T -> R, s: seq<T>)
    requires forall i :: 0 <= i < |s| ==> keep(embed(s[i])) == Some(s[i])
    ensures Collect(keep, Map(embed, s)) == s
  {
    if s != [] {
      var n := |s| - 1;
      KeptAgain(keep, embed, s[..n]);
      KeptStep(keep, Map(embed, s[..n]), embed(s[n]), s[..n], s[n]);
      SplitLast(s);
    }
  }

  lemma KeptAreKept<R, T>(keep: R -> Option<T>, key: T -> string, confidence: T -> real, raws: seq<R>, x: T)
    returns (raw: R)
    requires x in Survivors(key, confidence, Collect(keep, raws))
    ensures raw in raws && keep(raw) == Some(x)
  {
    var kept := Collect(keep, raws);
    SurvivesIffLeads(key, confidence, kept, x);
    assert x in kept;
    CollectMembers(keep, raws, x);
    var i :| 0 <= i < |raws| && keep(raws[i]) == Some(x);
    raw := raws[i];
  }

  /** If embedding an entry as raw input and normalizing it gives the entry back, a second pass changes nothing. */
  lemma CollapseTwice<R, T>(raws: seq<R>, keep: R -> Option<T>, embed: T -> R, key: T -> string, confidence: T -> real)
    requires forall r :: r in raws && keep(r).Some? ==> keep(embed(keep(r).value)) == keep(r)
    ensures var once := Survivors(key, confidence, Collect(keep, raws));
      Survivors(key, confidence, Collect(keep, Map(embed, once))) == once
  {
    var once := Survivors(key, confidence, Collect(keep, raws));
    forall x | x in once ensures keep(embed(x)) == Some(x) {
      var r := KeptAreKept(keep, key, confidence, raws, x);
    }
    KeptAgain(keep, embed, once);
    SurvivorKeys(key, confidence, Collect(keep, raws));
    DistinctSurvive(key, confidence, once);
  }
}
