/** The collection of payment methods that a checkout shows: which methods are kept, with which
    configuration, and in which order. */
module FilteredCollection {
  import opened Optional
  import opened CacheKeys
  import opened StableSorting

  /** A gateway configuration and the shop's payment method it belongs to, if any. */
  datatype Configuration = Configuration(paymentMethodId: Option<string>, configurationId: nat, spaceId: nat)

  /** own: whether the plugin's handler is in charge; config: the attached configuration. */
  class PaymentMethod {
    const id: string
    const own: bool
    const position: Option<int>
    var config: Option<Configuration>

    constructor (id: string, own: bool, position: Option<int>)
      ensures this.id == id && this.own == own && this.position == position && config == None
    {
      this.id, this.own, this.position, config := id, own, position, None;
    }
  }

  // ---------------------------------------------------------------- which methods, with what

  predicate Matches(g: Configuration, allowed: seq<string>, space: nat) {
    g.paymentMethodId.Some? && g.spaceId == space && Decimal(g.configurationId) in allowed
  }

  /** The last configuration of this space with an allowed ID that belongs to a method. */
  function LastMatch(configs: seq<Configuration>, allowed: seq<string>, space: nat, id: string): Option<Configuration> {
    if configs == [] then None
    else
      var g := configs[|configs| - 1];
      if Matches(g, allowed, space) && g.paymentMethodId.value == id then Some(g)
      else LastMatch(configs[..|configs| - 1], allowed, space, id)
  }

  lemma {:induction false} LastMatchIsLast(configs: seq<Configuration>, allowed: seq<string>, space: nat, id: string)
    ensures var r := LastMatch(configs, allowed, space, id);
            && (r.None? <==>
                  forall i :: 0 <= i < |configs| && Matches(configs[i], allowed, space) ==>
                    configs[i].paymentMethodId.value != id)
            && (r.Some? ==>
                  exists i ::
                    && 0 <= i < |configs| && configs[i] == r.value && Matches(configs[i], allowed, space)
                    && configs[i].paymentMethodId == Some(id)
                    && forall j :: i < j < |configs| && Matches(configs[j], allowed, space) ==>
                         configs[j].paymentMethodId.value != id)
  {
    if configs != [] {
      LastMatchIsLast(configs[..|configs| - 1], allowed, space, id);
    }
  }

  function Rank(m: PaymentMethod): int {
    if m.position.Some? then m.position.value else 0
  }

  predicate Shown(m: PaymentMethod, configs: seq<Configuration>, allowed: seq<string>, space: nat) {
    !m.own || LastMatch(configs, allowed, space, m.id).Some?
  }

  /** The methods that stay, in their order: foreign ones, and own ones that are allowed. */
  function Kept(ms: seq<PaymentMethod>, configs: seq<Configuration>, allowed: seq<string>,
          space: nat): seq<PaymentMethod> {
    if ms == [] then []
    else
      var n := |ms| - 1;
      Kept(ms[..n], configs, allowed, space) + if Shown(ms[n], configs, allowed, space) then [ms[n]] else []
  }

  /** A collection is keyed by the methods' IDs. */
  ghost predicate Keyed(ms: seq<PaymentMethod>) {
    forall i, j :: 0 <= i < j < |ms| ==> ms[i].id != ms[j].id
  }

  /** Adding under the key of an earlier element replaces it in place. */
  function AddToCollection(ms: seq<PaymentMethod>, m: PaymentMethod): seq<PaymentMethod> {
    if ms == [] then [m]
    else if ms[0].id == m.id then [m] + ms[1..]
    else [ms[0]] + AddToCollection(ms[1..], m)
  }

  lemma {:induction false} AddNew(ms: seq<PaymentMethod>, m: PaymentMethod)
    requires forall i :: 0 <= i < |ms| ==> ms[i].id != m.id
    ensures AddToCollection(ms, m) == ms + [m]
  {
    if ms != [] {
      AddNew(ms[1..], m);
    }
  }

  lemma {:induction false} KeptMember(ms: seq<PaymentMethod>, configs: seq<Configuration>, allowed: seq<string>,
          space: nat, m: PaymentMethod)
    ensures m in Kept(ms, configs, allowed, space) <==> m in ms && Shown(m, configs, allowed, space)
  {
    if ms != [] {
      var n := |ms| - 1;
      KeptMember(ms[..n], configs, allowed, space, m);
      assert ms == ms[..n] + [ms[n]];
    }
  }

  lemma {:induction false} KeptOfShown(ms: seq<PaymentMethod>, configs: seq<Configuration>, allowed: seq<string>,
          space: nat)
    requires forall i :: 0 <= i < |ms| ==> Shown(ms[i], configs, allowed, space)
    ensures Kept(ms, configs, allowed, space) == ms
  {
    if ms != [] {
      var n := |ms| - 1;
      KeptOfShown(ms[..n], configs, allowed, space);
    }
  }

  function Filtered(ms: seq<PaymentMethod>, configs: seq<Configuration>, allowed: seq<string>,
          space: nat): seq<PaymentMethod> {
    StableSort(Kept(ms, configs, allowed, space), Rank)
  }

  /** Filtering the first pass's result again, with the same list, gives the identical sequence. */
  lemma FilteringTwiceIsOnce(ms: seq<PaymentMethod>, configs: seq<Configuration>, allowed: seq<string>, space: nat)
    ensures var once := Filtered(ms, configs, allowed, space);
            Filtered(once, configs, allowed, space) == once
  {
    hide Shown, Rank;
    var kept := Kept(ms, configs, allowed, space);
    var once := Filtered(ms, configs, allowed, space);
    StableSortSorts(kept, Rank);
    forall i | 0 <= i < |once| ensures Shown(once[i], configs, allowed, space) {
      StableSortMember(kept, Rank, once[i]);
      KeptMember(ms, configs, allowed, space, once[i]);
    }
    KeptOfShown(once, configs, allowed, space);
    SortedIsFixed(once, Rank);
  }

  lemma {:induction false} InsertKeyed(s: seq<PaymentMethod>, x: PaymentMethod)
    requires Keyed(s) && forall i :: 0 <= i < |s| ==> s[i].id != x.id
    ensures Keyed(Insert(s, x, Rank))
  {
    hide Rank;
    if s != [] {
      var n := |s| - 1;
      InsertKeyed(s[..n], x);
      var inner := Insert(s[..n], x, Rank);
      forall i | 0 <= i < |inner| ensures inner[i].id != s[n].id {
        InsertMember(s[..n], x, Rank, inner[i]);
      }
    }
  }

  lemma {:induction false} SortKeyed(s: seq<PaymentMethod>)
    requires Keyed(s)
    ensures Keyed(StableSort(s, Rank))
  {
    hide Rank, Insert;
    if s != [] {
      var n := |s| - 1;
      SortKeyed(s[..n]);
      var inner := StableSort(s[..n], Rank);
      forall i | 0 <= i < |inner| ensures inner[i].id != s[n].id {
        StableSortMember(s[..n], Rank, inner[i]);
      }
      InsertKeyed(inner, s[n]);
    }
  }

  lemma {:induction false} KeptKeyed(ms: seq<PaymentMethod>, configs: seq<Configuration>, allowed: seq<string>,
          space: nat)
    requires Keyed(ms)
    ensures Keyed(Kept(ms, configs, allowed, space))
  {
    hide Shown;
    if ms != [] {
      var n := |ms| - 1;
      KeptKeyed(ms[..n], configs, allowed, space);
      var kept := Kept(ms[..n], configs, allowed, space);
      forall i | 0 <= i < |kept| ensures kept[i].id != ms[n].id {
        KeptMember(ms[..n], configs, allowed, space, kept[i]);
      }
    }
  }

  /** The result is keyed again, and holds no method that was not there before. */
  lemma FilteredKeyed(ms: seq<PaymentMethod>, configs: seq<Configuration>, allowed: seq<string>, space: nat)
    requires Keyed(ms)
    ensures var r := Filtered(ms, configs, allowed, space);
            Keyed(r) && forall i :: 0 <= i < |r| ==> r[i] in ms
  {
    hide Keyed, Rank, Shown, StableSort, Kept;
    KeptKeyed(ms, configs, allowed, space);
    var kept := Kept(ms, configs, allowed, space);
    SortKeyed(kept);
    var r := Filtered(ms, configs, allowed, space);
    forall i | 0 <= i < |r| ensures r[i] in ms {
      StableSortMember(kept, Rank, r[i]);
      KeptMember(ms, configs, allowed, space, r[i]);
    }
  }

  // ---------------------------------------------------------------- what the customer is shown

  /** The j-th configuration lets a method be shown: it is the method's, of this space, and its ID is allowed. */
  ghost predicate Allows(configs: seq<Configuration>, j: int, id: string, allowed: seq<string>, space: nat) {
    0 <= j < |configs| && configs[j].paymentMethodId == Some(id) && configs[j].spaceId == space
    && Decimal(configs[j].configurationId) in allowed
  }

  ghost predicate MayBeShown(m: PaymentMethod, configs: seq<Configuration>, allowed: seq<string>, space: nat) {
    m.own ==> exists j :: Allows(configs, j, m.id, allowed, space)
  }

  /** A missing position counts as zero. */
  function Position(m: PaymentMethod): int {
    match m.position
    case Some(p) => p
    case None => 0
  }

  /** r lists the methods with the indexes at: exactly those that may be shown, each once, by their positions,
      and where these are equal in the order in which they came. */
  ghost predicate ShowsAt(ms: seq<PaymentMethod>, configs: seq<Configuration>, allowed: seq<string>, space: nat,
                          r: seq<PaymentMethod>, at: seq<nat>) {
    && |at| == |r|
    && (forall k :: 0 <= k < |at| ==>
          at[k] < |ms| && r[k] == ms[at[k]] && MayBeShown(ms[at[k]], configs, allowed, space))
    && (forall i: nat :: i < |ms| && MayBeShown(ms[i], configs, allowed, space) ==> i in at)
    && (forall k, l :: 0 <= k < l < |at| ==>
          Position(r[k]) < Position(r[l]) || (Position(r[k]) == Position(r[l]) && at[k] < at[l]))
  }

  ghost predicate Displays(ms: seq<PaymentMethod>, configs: seq<Configuration>, allowed: seq<string>, space: nat,
                           r: seq<PaymentMethod>) {
    exists at: seq<nat> :: ShowsAt(ms, configs, allowed, space, r, at)
  }

  lemma ShownIsMayBeShown(m: PaymentMethod, configs: seq<Configuration>, allowed: seq<string>, space: nat)
    ensures Shown(m, configs, allowed, space) <==> MayBeShown(m, configs, allowed, space)
  {
    LastMatchIsLast(configs, allowed, space, m.id);
    if MayBeShown(m, configs, allowed, space) && m.own {
      var j :| Allows(configs, j, m.id, allowed, space);
      assert Matches(configs[j], allowed, space);
    }
    if Shown(m, configs, allowed, space) && m.own {
      var i :| 0 <= i < |configs| && Matches(configs[i], allowed, space) && configs[i].paymentMethodId == Some(m.id);
      assert Allows(configs, i, m.id, allowed, space);
    }
  }

  /** The indexes of the kept methods. */
  ghost function KeptAt(ms: seq<PaymentMethod>, configs: seq<Configuration>, allowed: seq<string>, space: nat)
    : (at: seq<nat>)
  {
    if ms == [] then []
    else
      var n := |ms| - 1;
      KeptAt(ms[..n], configs, allowed, space) + if Shown(ms[n], configs, allowed, space) then [n] else []
  }

  /** r picks the methods with the indexes at. */
  ghost predicate Picks(ms: seq<PaymentMethod>, r: seq<PaymentMethod>, at: seq<nat>) {
    |at| == |r| && forall k :: 0 <= k < |at| ==> at[k] < |ms| && r[k] == ms[at[k]]
  }

  lemma {:induction false} KeptAtPicks(ms: seq<PaymentMethod>, configs: seq<Configuration>, allowed: seq<string>,
                                       space: nat)
    ensures Picks(ms, Kept(ms, configs, allowed, space), KeptAt(ms, configs, allowed, space))
  {
    hide Shown, Picks;
    if ms == [] {
      PicksNone(ms);
    } else {
      var n := |ms| - 1;
      KeptAtPicks(ms[..n], configs, allowed, space);
      PicksMore(ms, Kept(ms[..n], configs, allowed, space), KeptAt(ms[..n], configs, allowed, space));
    }
  }

  lemma {:induction false} KeptAtMembers(ms: seq<PaymentMethod>, configs: seq<Configuration>, allowed: seq<string>,
                                         space: nat, i: nat)
    ensures i in KeptAt(ms, configs, allowed, space) <==> i < |ms| && Shown(ms[i], configs, allowed, space)
  {
    hide Shown;
    if ms != [] {
      KeptAtMembers(ms[..|ms| - 1], configs, allowed, space, i);
    }
  }

  ghost predicate Increasing(at: seq<nat>) {
    forall k, l :: 0 <= k < l < |at| ==> at[k] < at[l]
  }

  lemma {:induction false} KeptAtIncreasing(ms: seq<PaymentMethod>, configs: seq<Configuration>, allowed: seq<string>,
                                            space: nat)
    ensures Increasing(KeptAt(ms, configs, allowed, space))
    ensures forall k :: 0 <= k < |KeptAt(ms, configs, allowed, space)| ==> KeptAt(ms, configs, allowed, space)[k] < |ms|
  {
    hide Shown;
    if ms != [] {
      KeptAtIncreasing(ms[..|ms| - 1], configs, allowed, space);
    }
  }

  lemma PicksNone(ms: seq<PaymentMethod>)
    ensures Picks(ms, [], [])
  {
  }

  /** Picking from all but the last method, and perhaps the last one. */
  lemma PicksMore(ms: seq<PaymentMethod>, r: seq<PaymentMethod>, at: seq<nat>)
    requires ms != [] && Picks(ms[..|ms| - 1], r, at)
    ensures Picks(ms, r + [], at + []) && Picks(ms, r + [ms[|ms| - 1]], at + [|ms| - 1])
  {
  }

  /** By position, and by index where the positions are equal. */
  ghost predicate Ordered(ms: seq<PaymentMethod>, at: seq<nat>) {
    && (forall k :: 0 <= k < |at| ==> at[k] < |ms|)
    && forall k, l :: 0 <= k < l < |at| ==>
         Position(ms[at[k]]) < Position(ms[at[l]])
         || (Position(ms[at[k]]) == Position(ms[at[l]]) && at[k] < at[l])
  }

  ghost predicate Precedes(ms: seq<PaymentMethod>, j: nat, i: nat)
    requires i < |ms| && j < |ms|
  {
    Position(ms[j]) < Position(ms[i]) || (Position(ms[j]) == Position(ms[i]) && j < i)
  }

  lemma OrderedSnoc(ms: seq<PaymentMethod>, at: seq<nat>, i: nat)
    requires Ordered(ms, at) && i < |ms| && forall k :: 0 <= k < |at| ==> Precedes(ms, at[k], i)
    ensures Ordered(ms, at + [i])
  {
  }

  lemma OrderedFront(ms: seq<PaymentMethod>, at: seq<nat>)
    requires Ordered(ms, at) && at != []
    ensures var n := |at| - 1;
            && Ordered(ms, at[..n]) && at[n] < |ms|
            && forall k :: 0 <= k < n ==> at[k] < |ms| && Precedes(ms, at[k], at[n])
  {
  }

  lemma PicksSnoc(ms: seq<PaymentMethod>, r: seq<PaymentMethod>, at: seq<nat>, i: nat)
    requires Picks(ms, r, at) && i < |ms|
    ensures Picks(ms, r + [ms[i]], at + [i])
  {
  }

  lemma PicksFront(ms: seq<PaymentMethod>, r: seq<PaymentMethod>, at: seq<nat>)
    requires Picks(ms, r, at)
    ensures |at| == |r|
    ensures r != [] ==>
              var n := |r| - 1;
              Picks(ms, r[..n], at[..n]) && at[n] < |ms| && r[n] == ms[at[n]]
  {
  }

  /** Inserting a method with a larger index keeps the order. */
  lemma {:induction false} InsertAt(ms: seq<PaymentMethod>, r: seq<PaymentMethod>, at: seq<nat>, i: nat)
    returns (to: seq<nat>)
    requires Picks(ms, r, at) && Ordered(ms, at) && i < |ms| && forall k :: 0 <= k < |at| ==> at[k] < i
    ensures Picks(ms, Insert(r, ms[i], Rank), to) && Ordered(ms, to)
    ensures forall j :: j in to <==> j in at || j == i
    decreases |r|
  {
    hide Picks, Ordered, Insert;
    PicksFront(ms, r, at);
    if r == [] {
      to := [i];
      OrderedNone(ms);
      OrderedSnoc(ms, [], i);
      PicksSnoc(ms, r, at, i);
      InsertIntoNone(ms[i], Rank);
      assert [] + [i] == [i] == at + [i] && r + [ms[i]] == [ms[i]];
    } else {
      var n := |r| - 1;
      InsertLast(r, ms[i], Rank);
      OrderedFront(ms, at);
      if Rank(r[n]) <= Rank(ms[i]) {
        to := at + [i];
        PicksSnoc(ms, r, at, i);
        OrderedSnoc(ms, at, i);
      } else {
        var before := InsertAt(ms, r[..n], at[..n], i);
        PicksSnoc(ms, Insert(r[..n], ms[i], Rank), before, at[n]);
        AllPrecede(ms, at, before, i);
        OrderedSnoc(ms, before, at[n]);
        to := before + [at[n]];
        assert at == at[..n] + [at[n]];
      }
    }
  }

  lemma OrderedNone(ms: seq<PaymentMethod>)
    ensures Ordered(ms, [])
  {
  }

  lemma AllPrecede(ms: seq<PaymentMethod>, at: seq<nat>, before: seq<nat>, i: nat)
    requires Ordered(ms, at) && at != [] && i < |ms|
    requires forall j :: j in before <==> j in at[..|at| - 1] || j == i
    requires Position(ms[i]) < Position(ms[at[|at| - 1]])
    ensures forall k :: 0 <= k < |before| ==> before[k] < |ms| && Precedes(ms, before[k], at[|at| - 1])
  {
    forall k | 0 <= k < |before| ensures before[k] < |ms| && Precedes(ms, before[k], at[|at| - 1]) {
      assert before[k] in before;
    }
  }

  lemma {:induction false} SortAt(ms: seq<PaymentMethod>, r: seq<PaymentMethod>, at: seq<nat>) returns (to: seq<nat>)
    requires Picks(ms, r, at) && Increasing(at)
    ensures Picks(ms, StableSort(r, Rank), to) && Ordered(ms, to)
    ensures forall j :: j in to <==> j in at
    decreases |r|
  {
    hide Insert;
    to := [];
    if r != [] {
      var n := |r| - 1;
      to := SortAt(ms, r[..n], at[..n]);
      assert forall k :: 0 <= k < |to| ==> to[k] in to && to[k] in at[..n];
      to := InsertAt(ms, StableSort(r[..n], Rank), to, at[n]);
      assert at == at[..n] + [at[n]];
    }
  }

  /** The filter shows exactly the foreign methods and the own ones with an allowed configuration of this
      space, in the order of their positions. */
  lemma FilteredDisplays(ms: seq<PaymentMethod>, configs: seq<Configuration>, allowed: seq<string>, space: nat)
    ensures Displays(ms, configs, allowed, space, Filtered(ms, configs, allowed, space))
  {
    hide Shown, MayBeShown, StableSort, KeptAt, Kept;
    var from := KeptAt(ms, configs, allowed, space);
    KeptAtPicks(ms, configs, allowed, space);
    KeptAtIncreasing(ms, configs, allowed, space);
    var at := SortAt(ms, Kept(ms, configs, allowed, space), from);
    var r := Filtered(ms, configs, allowed, space);
    forall i: nat | i < |ms| ensures i in at <==> MayBeShown(ms[i], configs, allowed, space) {
      KeptAtMembers(ms, configs, allowed, space, i);
      ShownIsMayBeShown(ms[i], configs, allowed, space);
    }
    assert forall k :: 0 <= k < |at| ==> at[k] in at;
    assert ShowsAt(ms, configs, allowed, space, r, at);
  }

  /** What a method carries after a pass: the last configuration that lets it be shown, if it is one of the
      plugin's own and there is any, and else what it carried before. */
  ghost predicate Carries(id: string, own: bool, was: Option<Configuration>, now: Option<Configuration>,
                          configs: seq<Configuration>, allowed: seq<string>, space: nat) {
    if own && exists j :: Allows(configs, j, id, allowed, space) then
      exists j :: Allows(configs, j, id, allowed, space) && now == Some(configs[j])
                  && forall k :: k > j ==> !Allows(configs, k, id, allowed, space)
    else now == was
  }

  lemma AttachedCarries(id: string, own: bool, was: Option<Configuration>, configs: seq<Configuration>,
                        allowed: seq<string>, space: nat)
    ensures var found := LastMatch(configs, allowed, space, id);
            Carries(id, own, was, if own && found.Some? then found else was, configs, allowed, space)
  {
    hide LastMatch;
    LastMatchIsLast(configs, allowed, space, id);
    var found := LastMatch(configs, allowed, space, id);
    if found.Some? {
      var i :| 0 <= i < |configs| && configs[i] == found.value && Matches(configs[i], allowed, space)
               && configs[i].paymentMethodId == Some(id)
               && forall j :: i < j < |configs| && Matches(configs[j], allowed, space) ==>
                    configs[j].paymentMethodId.value != id;
      assert Allows(configs, i, id, allowed, space);
      forall k | k > i ensures !Allows(configs, k, id, allowed, space) {
        assert k < |configs| && Matches(configs[k], allowed, space) ==> configs[k].paymentMethodId.value != id;
      }
    }
    forall j | Allows(configs, j, id, allowed, space) ensures found.Some? {
      assert Matches(configs[j], allowed, space);
    }
  }
}
