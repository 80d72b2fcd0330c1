/** Sizzle's uniqueSort: the host sorts the nodes in document order; when the comparisons may have
    met a duplicate, the positions of duplicates are collected going up and spliced out going down.
    A node is represented by its place in document order. */
module UniqueSort {
  ghost predicate Sorted(s: seq<int>) {
    forall i, j :: 0 <= i < j < |s| ==> s[i] <= s[j]
  }

  ghost predicate StrictlyIncreasing(s: seq<int>) {
    forall i, j :: 0 <= i < j < |s| ==> s[i] < s[j]
  }

  predicate Repeats(s: seq<int>, i: int) {
    0 < i < |s| && s[i - 1] == s[i]
  }

  /** The elements from position p on that do not repeat their predecessor. */
  function Keep(s: seq<int>, p: nat): seq<int>
    requires p <= |s|
    decreases |s| - p
  {
    if p == |s| then [] else (if Repeats(s, p) then [] else [s[p]]) + Keep(s, p + 1)
  }

  lemma {:induction false} KeepThrough(s: seq<int>, p: nat, q: nat)
    requires p <= q <= |s| && forall i :: p <= i < q ==> !Repeats(s, i)
    ensures Keep(s, p) == s[p..q] + Keep(s, q)
    decreases q - p
  {
    if p < q {
      KeepThrough(s, p + 1, q);
    }
  }

  lemma KeepSkips(s: seq<int>, p: nat)
    requires p < |s| && Repeats(s, p)
    ensures Keep(s, p) == Keep(s, p + 1)
  {
  }

  /** The positions before a bound that repeat their predecessor, ascending. */
  ghost predicate RepeatsBefore(s: seq<int>, n: seq<nat>, bound: nat) {
    && (forall k :: 0 <= k < |n| ==> n[k] < bound && Repeats(s, n[k]))
    && (forall j, k :: 0 <= j < k < |n| ==> n[j] < n[k])
    && (forall i :: 0 <= i < bound && Repeats(s, i) ==> i in n)
  }

  method CollectRepeats(s: seq<int>) returns (n: seq<nat>)
    ensures RepeatsBefore(s, n, |s|)
  {
    n := [];
    var i := 0;
    while i < |s|
      invariant 0 <= i <= |s| && RepeatsBefore(s, n, i + 1)
    {
      var t := s[i];
      i := i + 1;
      if i < |s| && t == s[i] {
        n := n + [i];
      }
    }
  }

  lemma {:induction false} KeptComesFrom(s: seq<int>, p: nat, x: int) returns (i: nat)
    requires p <= |s| && x in Keep(s, p)
    ensures p <= i < |s| && s[i] == x && !Repeats(s, i)
    decreases |s| - p
  {
    if !Repeats(s, p) && s[p] == x {
      i := p;
    } else {
      i := KeptComesFrom(s, p + 1, x);
    }
  }

  lemma {:induction false} KeepIncreases(s: seq<int>, p: nat)
    requires Sorted(s) && p <= |s|
    ensures StrictlyIncreasing(Keep(s, p))
    decreases |s| - p
  {
    if p < |s| {
      KeepIncreases(s, p + 1);
      if !Repeats(s, p) {
        var rest := Keep(s, p + 1);
        forall k | 0 <= k < |rest| ensures s[p] < rest[k] {
          var i := KeptComesFrom(s, p + 1, rest[k]);
          assert s[p] <= s[i - 1] < s[i];
        }
      }
    }
  }

  lemma {:induction false} KeepCovers(s: seq<int>, p: nat, i: nat)
    requires Sorted(s) && p <= i < |s|
    ensures s[i] in Keep(s, p) || (p > 0 && s[i] == s[p - 1])
    decreases |s| - p
  {
    if p < i {
      KeepCovers(s, p + 1, i);
    }
  }

  /** A set has only one strictly increasing listing, so the result is determined. */
  lemma {:induction false} IncreasingListingIsUnique(a: seq<int>, b: seq<int>)
    requires StrictlyIncreasing(a) && StrictlyIncreasing(b) && forall x :: x in a <==> x in b
    ensures a == b
    decreases |a|
  {
    if a == [] {
      var x := SomeMember(b);
      assert x !in a;
    } else {
      assert a[0] in a && a[0] in b;
      assert b[0] in b && b[0] in a;
      var i :| 0 <= i < |b| && b[i] == a[0];
      var j :| 0 <= j < |a| && a[j] == b[0];
      assert a[0] == b[0];
      forall x ensures x in a[1..] <==> x in b[1..] {
        TailHolds(a, x);
        TailHolds(b, x);
      }
      IncreasingListingIsUnique(a[1..], b[1..]);
      assert a == [a[0]] + a[1..] && b == [b[0]] + b[1..];
    }
  }

  lemma SomeMember(s: seq<int>) returns (x: int)
    ensures s != [] ==> x in s
  {
    x := if s == [] then 0 else s[0];
  }

  lemma TailHolds(a: seq<int>, x: int)
    requires StrictlyIncreasing(a) && a != []
    ensures x in a[1..] <==> x in a && x != a[0]
  {
    if x in a && x != a[0] {
      var i :| 0 <= i < |a| && a[i] == x;
      assert a[1..][i - 1] == x;
    }
  }

  /** The first k collected positions are those that repeat before a bound. */
  ghost predicate Pending(s: seq<int>, n: seq<nat>, k: nat, bound: nat)
    requires k <= |n|
  {
    && (forall j :: 0 <= j < k ==> n[j] < bound && Repeats(s, n[j]))
    && (forall i :: 0 <= i < bound && Repeats(s, i) ==> i in n[..k])
  }

  lemma NothingCut(s: seq<int>, n: seq<nat>)
    requires RepeatsBefore(s, n, |s|)
    ensures Pending(s, n, |n|, |s|) && s == s[..|s|] + Keep(s, |s|)
  {
    assert n[..|n|] == n;
  }

  lemma CutOne(s: seq<int>, n: seq<nat>, k: nat, bound: nat)
    requires RepeatsBefore(s, n, |s|) && k < |n| && bound <= |s| && Pending(s, n, k + 1, bound)
    ensures var q, r := n[k], s[..bound] + Keep(s, bound);
            q < bound && r[..q] + r[q + 1..] == s[..q] + Keep(s, q) && Pending(s, n, k, q)
  {
    hide Repeats, Keep;
    forall i | 0 <= i < bound && Repeats(s, i) ensures i == n[k] || (i < n[k] && i in n[..k]) {
      var j :| 0 <= j < k + 1 && n[..k + 1][j] == i;
      assert j < k ==> n[..k][j] == i;
    }
    CutText(s, n[k], bound);
  }

  lemma CutText(s: seq<int>, q: nat, bound: nat)
    requires q < bound <= |s| && Repeats(s, q) && forall i :: q < i < bound ==> !Repeats(s, i)
    ensures var r := s[..bound] + Keep(s, bound); r[..q] + r[q + 1..] == s[..q] + Keep(s, q)
  {
    hide Repeats, Keep;
    KeepThrough(s, q + 1, bound);
    KeepSkips(s, q);
    var r := s[..bound] + Keep(s, bound);
    assert r[..q] + r[q + 1..] == s[..q] + (s[q + 1..bound] + Keep(s, bound));
  }

  lemma AllCut(s: seq<int>, n: seq<nat>, bound: nat)
    requires bound <= |s| && Pending(s, n, 0, bound)
    ensures s[..bound] + Keep(s, bound) == Keep(s, 0)
  {
    KeepThrough(s, 0, bound);
  }

  // ---------------------------------------------------------------- the host's sort

  ghost predicate HasRepeat(s: seq<int>) {
    exists i, j :: 0 <= i < j < |s| && s[i] == s[j]
  }

  /** Two different positions that a sort compares. */
  type Pair = (nat, nat)

  ghost predicate Within(asked: seq<Pair>, n: nat) {
    forall k :: 0 <= k < |asked| ==> asked[k].0 < n && asked[k].1 < n && asked[k].0 != asked[k].1
  }

  ghost predicate SameAnswers(asked: seq<Pair>, s: seq<int>, t: seq<int>)
    requires Within(asked, |s|)
  {
    && |t| == |s|
    && forall k :: 0 <= k < |asked| ==>
         && (s[asked[k].0] < s[asked[k].1] <==> t[asked[k].0] < t[asked[k].1])
         && (s[asked[k].0] == s[asked[k].1] <==> t[asked[k].0] == t[asked[k].1])
  }

  /** Every position once, in an order that sorts the list. */
  ghost predicate Orders(places: seq<nat>, s: seq<int>) {
    && |places| == |s|
    && (forall i :: 0 <= i < |places| ==> places[i] < |s|)
    && (forall i, j :: 0 <= i < j < |places| ==> places[i] != places[j])
    && (forall p: nat :: p < |s| ==> p in places)
    && (forall i, j :: 0 <= i < j < |places| ==> s[places[i]] <= s[places[j]])
  }

  /** What makes a sort one by comparisons: the answers it got decide its order, in that every list with the
      same answers is sorted by it too. */
  ghost predicate Decides(asked: seq<Pair>, places: seq<nat>, s: seq<int>) {
    Within(asked, |s|) && forall t: seq<int> :: SameAnswers(asked, s, t) ==> Orders(places, t)
  }

  lemma PlaceOf(places: seq<nat>, s: seq<int>, p: nat) returns (k: nat)
    requires Orders(places, s) && p < |s|
    ensures k < |places| && places[k] == p
  {
    assert p in places;
    k :| 0 <= k < |places| && places[k] == p;
  }

  /** The list with one element raised a little above its equals. */
  function Raised(s: seq<int>, p: nat): seq<int> {
    seq(|s|, i requires 0 <= i < |s| => 2 * s[i] + if i == p then 1 else 0)
  }

  lemma RaisedAnswers(asked: seq<Pair>, s: seq<int>, p: nat)
    requires Within(asked, |s|)
    ensures SameAnswers(asked, s, Raised(s, p)) || exists k :: 0 <= k < |asked| && s[asked[k].0] == s[asked[k].1]
  {
  }

  lemma RaisedIsOutOfOrder(places: seq<nat>, s: seq<int>, a: nat, b: nat)
    requires Orders(places, s) && a < b < |places| && s[places[a]] == s[places[b]]
    ensures !Orders(places, Raised(s, places[a]))
  {
    var t := Raised(s, places[a]);
    assert t[places[a]] > t[places[b]];
  }

  /** Whatever sort by comparisons the host uses, it compares two equal nodes if there are any: otherwise
      it could not tell the list from one in which one of them comes after the other. */
  lemma EqualNodesAreCompared(asked: seq<Pair>, places: seq<nat>, s: seq<int>)
    requires Decides(asked, places, s) && HasRepeat(s)
    ensures exists k :: 0 <= k < |asked| && s[asked[k].0] == s[asked[k].1]
  {
    hide Orders;
    assert SameAnswers(asked, s, s);
    var i, j :| 0 <= i < j < |s| && s[i] == s[j];
    var a := PlaceOf(places, s, i);
    var b := PlaceOf(places, s, j);
    PlacesWithin(places, s);
    var lower, upper := if a < b then a else b, if a < b then b else a;
    RaisedIsOutOfOrder(places, s, lower, upper);
    RaisedAnswers(asked, s, places[lower]);
  }

  /** Comparing neighbours decides the order of a list that is sorted already. */
  lemma NeighboursDecide(s: seq<int>)
    requires Sorted(s)
    ensures Decides(Neighbours(|s|), Straight(|s|), s)
  {
    var asked, places := Neighbours(|s|), Straight(|s|);
    forall t: seq<int> | SameAnswers(asked, s, t) ensures Orders(places, t) {
      forall i | 0 <= i < |s| - 1 ensures t[i] <= t[i + 1] {
        assert asked[i] == (i, i + 1);
      }
      StepsSort(t);
      forall p: nat | p < |t| ensures p in places {
        assert places[p] == p;
      }
    }
  }

  function Neighbours(n: nat): seq<Pair> {
    if n == 0 then [] else seq(n - 1, i requires 0 <= i < n - 1 => (i, i + 1))
  }

  function Straight(n: nat): seq<nat> {
    seq(n, i requires 0 <= i < n => i)
  }

  lemma {:induction false} StepsSort(t: seq<int>)
    requires forall i :: 0 <= i < |t| - 1 ==> t[i] <= t[i + 1]
    ensures Sorted(t)
  {
    if |t| > 1 {
      var n := |t| - 1;
      StepsSort(t[..n]);
      forall i | 0 <= i < n ensures t[i] <= t[n] {
        assert t[..n][i] <= t[..n][n - 1];
      }
    }
  }

  function Arranged(s: seq<int>, places: seq<nat>): seq<int>
    requires forall k :: 0 <= k < |places| ==> places[k] < |s|
  {
    seq(|places|, k requires 0 <= k < |places| => s[places[k]])
  }

  lemma ArrangedSorts(s: seq<int>, places: seq<nat>)
    requires Orders(places, s)
    ensures var r := Arranged(s, places);
            && Sorted(r) && (forall x :: x in r <==> x in s)
            && (!HasRepeat(s) ==> forall i :: !Repeats(r, i))
  {
    var r := Arranged(s, places);
    forall x ensures x in r <==> x in s {
      if x in s {
        var p: nat :| p < |s| && s[p] == x;
        var k := PlaceOf(places, s, p);
        assert r[k] == x;
      }
    }
    forall i | Repeats(r, i) ensures HasRepeat(s) {
      var p, q := places[i - 1], places[i];
      assert s[p] == s[q] && (p < q || q < p);
    }
  }

  /** The list of results, sorted and spliced in place. */
  class Results {
    var items: seq<int>
    /** Whether the comparator has seen a node twice. */
    var met: bool

    constructor (items: seq<int>)
      ensures this.items == items
    {
      this.items, met := items, false;
    }

    /** Negative, zero or positive; two of the same node raise the flag. */
    method Compare(a: int, b: int) returns (c: int)
      modifies `met
      ensures met == (old(met) || a == b)
      ensures (c < 0 <==> a < b) && (c == 0 <==> a == b)
    {
      if a == b {
        met := true;
        return 0;
      }
      return if a < b then -1 else 1;
    }

    /** The host's sort: asked are the positions it compares, in turn, and places the order it arrives at.
        detects: the engine hands equal nodes to the comparator, as a probe has found out; if it does not,
        the flag is up from the start. */
    method Sort(asked: seq<Pair>, places: seq<nat>, detects: bool)
      requires Decides(asked, places, items)
      modifies this
      ensures Orders(places, old(items)) && items == Arranged(old(items), places)
      ensures met <==> !detects || HasRepeat(old(items))
    {
      hide Orders;
      met := !detects;
      ghost var input := items;
      assert SameAnswers(asked, input, input);
      for k := 0 to |asked|
        invariant items == input
        invariant met <==> !detects || exists i :: 0 <= i < k && input[asked[i].0] == input[asked[i].1]
      {
        var c := Compare(items[asked[k].0], items[asked[k].1]);
      }
      FlagIsExact(asked, places, input);
      PlacesWithin(places, items);
      items := Arranged(items, places);
    }

    method Splice(q: nat)
      requires q < |items|
      modifies this`items
      ensures items == old(items[..q] + items[q + 1..])
    {
      items := items[..q] + items[q + 1..];
    }

    /** No collected position goes stale, because the cut is always behind those still to come. */
    method SpliceFromBack(n: seq<nat>)
      requires RepeatsBefore(items, n, |items|)
      modifies this`items
      ensures items == Keep(old(items), 0)
    {
      hide Keep, Pending;
      ghost var s := items;
      var k := |n|;
      ghost var from: nat := |s|;
      NothingCut(s, n);
      while k > 0
        invariant 0 <= k <= |n| && from <= |s| && items == s[..from] + Keep(s, from)
        invariant Pending(s, n, k, from)
      {
        k := k - 1;
        CutOne(s, n, k, from);
        Splice(n[k]);
        from := n[k];
      }
      AllCut(s, n, from);
    }

    /** Whatever sort by comparisons the host uses, and whether or not its engine compares equal nodes. */
    method UniqueSort(asked: seq<Pair>, places: seq<nat>, detects: bool)
      requires Decides(asked, places, items)
      modifies this
      ensures StrictlyIncreasing(items)
      ensures forall x :: x in items <==> x in old(items)
    {
      hide HasRepeat, Decides, Orders, Arranged;
      ghost var input := items;
      Sort(asked, places, detects);
      ghost var sorted := items;
      ArrangedSorts(input, places);
      if met {
        var n := CollectRepeats(items);
        SpliceFromBack(n);
      } else {
        KeepThrough(sorted, 0, |sorted|);
        assert sorted[0..|sorted|] == sorted;
      }
      KeepHolds(sorted);
      assert items == Keep(sorted, 0);
    }
  }

  lemma PlacesWithin(places: seq<nat>, s: seq<int>)
    requires Orders(places, s)
    ensures |places| == |s| && forall k :: 0 <= k < |places| ==> places[k] < |s|
  {
  }

  /** The comparator meets a node twice exactly if there is a duplicate. */
  lemma FlagIsExact(asked: seq<Pair>, places: seq<nat>, s: seq<int>)
    requires Decides(asked, places, s)
    ensures (exists k :: 0 <= k < |asked| && s[asked[k].0] == s[asked[k].1]) <==> HasRepeat(s)
  {
    hide Decides;
    AskedWithin(asked, places, s);
    if HasRepeat(s) {
      EqualNodesAreCompared(asked, places, s);
    }
    forall k | 0 <= k < |asked| && s[asked[k].0] == s[asked[k].1] ensures HasRepeat(s) {
      var p, q := asked[k].0, asked[k].1;
      assert p < q || q < p;
    }
  }

  lemma AskedWithin(asked: seq<Pair>, places: seq<nat>, s: seq<int>)
    requires Decides(asked, places, s)
    ensures Within(asked, |s|)
  {
  }

  /** What is kept of a sorted list is strictly increasing and has the same elements. */
  lemma KeepHolds(s: seq<int>)
    requires Sorted(s)
    ensures StrictlyIncreasing(Keep(s, 0))
    ensures forall x :: x in Keep(s, 0) <==> x in s
  {
    KeepIncreases(s, 0);
    forall x ensures x in Keep(s, 0) <==> x in s {
      if x in Keep(s, 0) {
        var i := KeptComesFrom(s, 0, x);
      }
      if x in s {
        var i :| 0 <= i < |s| && s[i] == x;
        KeepCovers(s, 0, i);
      }
    }
  }
}
