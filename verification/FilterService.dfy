/** The service that answers which payment methods may be shown, with its memo, its two caches and
    the collection it builds. */
module FilterService {
  import opened Optional
  import opened CacheKeys
  import opened PaymentFilter
  import opened StableSorting
  import opened FilteredCollection

  /** The request context, which carries the memo as an extension. */
  class Context {
    const languageId: string
    const versionId: string
    var memo: Option<Memo>

    constructor (languageId: string, versionId: string)
      ensures this.languageId == languageId && this.versionId == versionId && memo == None
    {
      this.languageId, this.versionId, memo := languageId, versionId, None;
    }
  }

  datatype Settings = Settings(spaceId: nat, integration: string)

  /** A configuration lookup: space, language and version. */
  type Lookup = (nat, string, string)

  function KeyOf(l: Lookup): string {
    ConfigurationKey(l.0, l.1, l.2)
  }

  function LookupOf(spaceId: nat, ctx: Context): Lookup {
    (spaceId, ctx.languageId, ctx.versionId)
  }

  /** The configurations that matter: of this space, allowed and with a method, the last per method. */
  function ConfigurationsByMethod(configs: seq<Configuration>, allowed: seq<string>, space: nat)
    : map<string, Configuration>
  {
    if configs == [] then map[]
    else
      var n := |configs| - 1;
      var earlier := ConfigurationsByMethod(configs[..n], allowed, space);
      if Matches(configs[n], allowed, space) then earlier[configs[n].paymentMethodId.value := configs[n]] else earlier
  }

  lemma {:induction false} MapHoldsLastMatch(configs: seq<Configuration>, allowed: seq<string>, space: nat, id: string)
    ensures var m := ConfigurationsByMethod(configs, allowed, space);
            LastMatch(configs, allowed, space, id) == if id in m then Some(m[id]) else None
  {
    if configs != [] {
      MapHoldsLastMatch(configs[..|configs| - 1], allowed, space, id);
    }
  }

  method ConfigurationMap(configs: seq<Configuration>, allowed: seq<string>, space: nat)
          returns (m: map<string, Configuration>)
    ensures m == ConfigurationsByMethod(configs, allowed, space)
  {
    m := map[];
    for i := 0 to |configs|
      invariant m == ConfigurationsByMethod(configs[..i], allowed, space)
    {
      assert configs[..i + 1][..i] == configs[..i];
      var g := configs[i];
      if g.paymentMethodId == None {
        continue;
      }
      if g.spaceId == space && Decimal(g.configurationId) in allowed {
        m := m[g.paymentMethodId.value := g];
      }
    }
    assert configs[..|configs|] == configs;
  }

  /** The IDs of an answer as strings. */
  method Strings(ids: seq<nat>) returns (r: seq<string>)
    ensures r == Decimals(ids)
  {
    r := [];
    for i := 0 to |ids|
      invariant r == Decimals(ids[..i])
    {
      r := r + [Decimal(ids[i])];
    }
    assert ids[..|ids|] == ids;
  }

  /** r lists the methods with the indexes at: exactly those whose ID is not among the given ones, each once,
      in the order in which they came. */
  ghost predicate LeavesAt(ms: seq<PaymentMethod>, ids: seq<string>, r: seq<PaymentMethod>, at: seq<nat>) {
    && Picks(ms, r, at) && Increasing(at)
    && forall i: nat :: i in at <==> i < |ms| && ms[i].id !in ids
  }

  ghost predicate Leaves(ms: seq<PaymentMethod>, ids: seq<string>, r: seq<PaymentMethod>) {
    exists at: seq<nat> :: LeavesAt(ms, ids, r, at)
  }

  lemma LeavesMembers(ms: seq<PaymentMethod>, ids: seq<string>, r: seq<PaymentMethod>, m: PaymentMethod)
    requires Leaves(ms, ids, r)
    ensures m in r <==> m in ms && m.id !in ids
  {
    var at :| LeavesAt(ms, ids, r, at);
    if m in r {
      var k :| 0 <= k < |r| && r[k] == m;
      assert at[k] in at;
    }
    if m in ms && m.id !in ids {
      var i :| 0 <= i < |ms| && ms[i] == m;
      assert i in at;
      var k :| 0 <= k < |at| && at[k] == i;
      assert r[k] == m;
    }
  }

  lemma LeavesAll(ms: seq<PaymentMethod>)
    ensures Leaves(ms, [], ms)
  {
    var all := seq(|ms|, i requires 0 <= i < |ms| => i);
    forall i: nat ensures i in all <==> i < |ms| {
      assert i < |ms| ==> all[i] == i;
    }
    assert LeavesAt(ms, [], ms, all);
  }

  /** Picking from what was picked. */
  ghost function Through(at: seq<nat>, next: seq<nat>): seq<nat>
    requires forall k :: 0 <= k < |next| ==> next[k] < |at|
  {
    seq(|next|, k requires 0 <= k < |next| => at[next[k]])
  }

  lemma ThroughPicks(ms: seq<PaymentMethod>, r: seq<PaymentMethod>, q: seq<PaymentMethod>, at: seq<nat>, next: seq<nat>)
    requires Picks(ms, r, at) && Picks(r, q, next) && Increasing(at) && Increasing(next)
    ensures Picks(ms, q, Through(at, next)) && Increasing(Through(at, next))
  {
  }

  lemma ThroughMembers(at: seq<nat>, next: seq<nat>, i: nat) returns (k: nat)
    requires forall k :: 0 <= k < |next| ==> next[k] < |at|
    ensures i in Through(at, next) ==> k < |at| && at[k] == i && k in next
    ensures forall j :: 0 <= j < |at| && at[j] == i && j in next ==> i in Through(at, next)
  {
    k := 0;
    if i in Through(at, next) {
      var l :| 0 <= l < |next| && Through(at, next)[l] == i;
      k := next[l];
    }
    forall j | 0 <= j < |at| && at[j] == i && j in next ensures i in Through(at, next) {
      var l :| 0 <= l < |next| && next[l] == j;
      assert Through(at, next)[l] == i;
    }
  }

  /** What is left when one ID more is taken away from what is left. */
  lemma LeavesOneMore(ms: seq<PaymentMethod>, ids: seq<string>, r: seq<PaymentMethod>, id: string,
                      q: seq<PaymentMethod>)
    requires Leaves(ms, ids, r) && Leaves(r, [id], q)
    ensures Leaves(ms, ids + [id], q)
  {
    hide Increasing, Through;
    var at :| LeavesAt(ms, ids, r, at);
    var next :| LeavesAt(r, [id], q, next);
    ThroughPicks(ms, r, q, at, next);
    var through := Through(at, next);
    forall i: nat ensures i in through <==> i < |ms| && ms[i].id !in ids + [id] {
      var k := ThroughMembers(at, next, i);
      if i in through {
        assert at[k] in at && r[k] == ms[i];
      }
      if i in at {
        var j :| 0 <= j < |at| && at[j] == i;
        assert r[j] == ms[i] && (j in next <==> ms[i].id != id);
      }
    }
    assert LeavesAt(ms, ids + [id], q, through);
  }

  /** Removes what the collection holds under an ID. */
  method Remove(ms: seq<PaymentMethod>, id: string) returns (r: seq<PaymentMethod>)
    ensures Leaves(ms, [id], r)
  {
    r := [];
    ghost var at: seq<nat> := [];
    for i := 0 to |ms|
      invariant Picks(ms, r, at) && Increasing(at)
      invariant forall k: nat :: k in at <==> k < i && ms[k].id != id
    {
      if ms[i].id != id {
        assert forall k :: 0 <= k < |at| ==> at[k] in at;
        r, at := r + [ms[i]], at + [i];
      }
    }
    assert LeavesAt(ms, [id], r, at);
  }

  method RemoveAll(ms: seq<PaymentMethod>, ids: seq<string>) returns (r: seq<PaymentMethod>)
    ensures Leaves(ms, ids, r)
    ensures forall m: PaymentMethod :: m in r <==> m in ms && m.id !in ids
  {
    hide Leaves;
    r := ms;
    LeavesAll(ms);
    for i := 0 to |ids|
      invariant Leaves(ms, ids[..i], r)
    {
      var q := Remove(r, ids[i]);
      LeavesOneMore(ms, ids[..i], r, ids[i], q);
      assert ids[..i] + [ids[i]] == ids[..i + 1];
      r := q;
    }
    assert ids[..|ids|] == ids;
    forall m: PaymentMethod ensures m in r <==> m in ms && m.id !in ids {
      LeavesMembers(ms, ids, r, m);
    }
  }

  /** The configuration a method carries after a pass: the last match for a kept own method. */
  function Attached(was: Option<Configuration>, own: bool, found: Option<Configuration>): Option<Configuration> {
    if own && found.Some? then found else was
  }

  /** Keeps foreign methods and allowed own ones, and attaches the configuration to the latter. */
  method KeepAllowed(ms: seq<PaymentMethod>, configs: seq<Configuration>, allowed: seq<string>, space: nat)
    returns (r: seq<PaymentMethod>)
    requires Keyed(ms)
    modifies set m | m in ms
    ensures r == Kept(ms, configs, allowed, space)
    ensures forall i :: 0 <= i < |ms| ==>
              ms[i].config == Attached(old(ms[i].config), ms[i].own, LastMatch(configs, allowed, space, ms[i].id))
  {
    hide Matches, ConfigurationsByMethod;
    var byMethod := ConfigurationMap(configs, allowed, space);
    r := [];
    for k := 0 to |ms|
      invariant r == Kept(ms[..k], configs, allowed, space)
      invariant forall i :: 0 <= i < k ==>
                  ms[i].config == Attached(old(ms[i].config), ms[i].own, LastMatch(configs, allowed, space, ms[i].id))
      invariant forall i :: k <= i < |ms| ==> ms[i].config == old(ms[i].config)
    {
      var candidate := ms[k];
      assert ms[..k + 1][..k] == ms[..k];
      MapHoldsLastMatch(configs, allowed, space, candidate.id);
      KeptAreEarlier(ms, k, configs, allowed, space);
      AddNew(r, candidate);
      if !candidate.own {
        r := AddToCollection(r, candidate);
      } else if candidate.id in byMethod {
        candidate.config := Some(byMethod[candidate.id]);
        r := AddToCollection(r, candidate);
      }
    }
    assert ms[..|ms|] == ms;
  }

  lemma KeptAreEarlier(ms: seq<PaymentMethod>, k: nat, configs: seq<Configuration>, allowed: seq<string>, space: nat)
    requires k < |ms| && Keyed(ms)
    ensures var r := Kept(ms[..k], configs, allowed, space);
            forall i :: 0 <= i < |r| ==> r[i].id != ms[k].id
  {
    var r := Kept(ms[..k], configs, allowed, space);
    forall i | 0 <= i < |r| ensures r[i].id != ms[k].id {
      KeptMember(ms[..k], configs, allowed, space, r[i]);
    }
  }

  class PaymentMethodFilterService {
    const config: Config
    var pool: map<string, Item>
    var configurationCache: map<string, seq<Configuration>>
    /** The answers of the gateway so far, and the lookups since the last reset. */
    ghost var log: seq<Fetch>
    ghost var lookups: map<Lookup, seq<Configuration>>

    /** The configuration cache holds exactly the lookups since the last reset. */
    ghost predicate Valid()
      reads this
    {
      && (forall l :: l in lookups ==>
            '_' !in l.1 && KeyOf(l) in configurationCache && configurationCache[KeyOf(l)] == lookups[l])
      && (forall key :: key in configurationCache ==> exists l :: l in lookups && KeyOf(l) == key)
    }

    constructor (config: Config)
      ensures Valid() && this.config == config && pool == map[] && log == [] && lookups == map[]
    {
      this.config, pool, configurationCache, log, lookups := config, map[], map[], [], map[];
    }

    ghost function ViewAt(ctx: Context, now: nat): View
      reads this, ctx
    {
      View(ctx.memo, pool, now, log)
    }

    /** Between requests. */
    method Reset()
      modifies this`configurationCache, this`lookups
      ensures Valid() && lookups == map[]
    {
      configurationCache := map[];
      lookups := map[];
    }

    method FetchAvailablePaymentMethodIds(ctx: Context, call: Call, stateKey: string, transactionId: nat, now: nat)
      returns (r: Option<seq<string>>)
      requires Valid() && stateKey == MemoKey(config, call.question)
      modifies this`pool, this`log
      ensures Valid()
      ensures (ViewAt(ctx, now), r) == Fetched(config, old(ViewAt(ctx, now)), call, transactionId)
    {
      var key := PossibleMethodsKey(stateKey, transactionId);
      if config.ttl > 0 {
        if key in pool && now < pool[key].expires {
          return Some(pool[key].value);
        }
      }
      if call.answer == None {
        return None;
      }
      var ids := Strings(call.answer.value);
      log := log + [Fetch(call.question, transactionId, now, ids)];
      if config.ttl > 0 {
        pool := pool[key := Item(ids, now + config.ttl)];
      }
      return Some(ids);
    }

    method AllowedIds(ctx: Context, call: Call, now: nat) returns (r: Option<seq<string>>)
      requires Valid()
      modifies this`pool, this`log, ctx
      ensures Valid()
      ensures (ViewAt(ctx, now), r) == Allowed(config, old(ViewAt(ctx, now)), call)
    {
      var key := MemoKey(config, call.question);
      if ctx.memo != None && ctx.memo.value.key == key {
        return Some(ctx.memo.value.allowedIds);
      }
      if call.prepared == None {
        return None;
      }
      r := FetchAvailablePaymentMethodIds(ctx, call, key, call.prepared.value, now);
      if r == None {
        return;
      }
      ctx.memo := Some(Memo(key, call.prepared.value, r.value));
    }

    /** What the configuration store answers, asked once per space, language and version. */
    method Configurations(spaceId: nat, ctx: Context, answer: seq<Configuration>) returns (r: seq<Configuration>)
      requires Valid() && '_' !in ctx.languageId
      modifies this`configurationCache, this`lookups
      ensures Valid()
      ensures var l := LookupOf(spaceId, ctx);
              && r == (if l in old(lookups) then old(lookups)[l] else answer)
              && lookups == old(lookups)[l := r]
    {
      var key := ConfigurationKey(spaceId, ctx.languageId, ctx.versionId);
      ghost var l := LookupOf(spaceId, ctx);
      forall k | k in lookups && KeyOf(k) == key ensures k == l {
        ConfigurationKeyDecodes(k.0, k.1, k.2, l.0, l.1, l.2);
      }
      if key !in configurationCache {
        configurationCache := configurationCache[key := answer];
        lookups := lookups[l := answer];
      }
      r := configurationCache[key];
    }

    method BuildFilteredCollection(ms: seq<PaymentMethod>, allowed: seq<string>, spaceId: nat, ctx: Context,
                                   answer: seq<Configuration>)
      returns (r: seq<PaymentMethod>)
      requires Valid() && Keyed(ms) && '_' !in ctx.languageId
      modifies this`configurationCache, this`lookups, set m | m in ms
      ensures Valid()
      ensures var l := LookupOf(spaceId, ctx);
              && l in lookups
              && lookups[l] == (if l in old(lookups) then old(lookups)[l] else answer)
              && lookups == old(lookups)[l := lookups[l]]
              && r == Filtered(ms, lookups[l], allowed, spaceId) && Displays(ms, lookups[l], allowed, spaceId, r)
              && forall i :: 0 <= i < |ms| ==>
                   Carries(ms[i].id, ms[i].own, old(ms[i].config), ms[i].config, lookups[l], allowed, spaceId)
    {
      hide Displays, Carries;
      var configs := Configurations(spaceId, ctx, answer);
      var kept := KeepAllowed(ms, configs, allowed, spaceId);
      r := StableSort(kept, Rank);
      FilteredDisplays(ms, configs, allowed, spaceId);
      forall i | 0 <= i < |ms|
        ensures Carries(ms[i].id, ms[i].own, old(ms[i].config), ms[i].config, configs, allowed, spaceId)
      {
        AttachedCarries(ms[i].id, ms[i].own, old(ms[i].config), configs, allowed, spaceId);
      }
    }

    /** settings and hasCustomer: what the sales channel provides; ownIds: the plugin's methods;
        answer: what the configuration store would answer. None: an exception left the filter. */
    method FilterPaymentMethods(ms: seq<PaymentMethod>, ctx: Context, settings: Option<Settings>, hasCustomer: bool,
                                fingerprint: string, prepared: Option<nat>, possible: Option<seq<nat>>,
                                ownIds: seq<string>, answer: seq<Configuration>, now: nat)
      returns (r: Option<seq<PaymentMethod>>)
      requires Valid() && Keyed(ms) && '_' !in ctx.languageId
      modifies this, ctx, set m | m in ms
      ensures Valid()
      ensures settings.None? ==>
                && r.Some? && Leaves(ms, ownIds, r.value)
                && forall m: PaymentMethod :: m in r.value <==> m in ms && m.id !in ownIds
      ensures settings.Some? && !hasCustomer ==> r == Some(ms)
      ensures settings.None? || !hasCustomer ==>
                unchanged(this) && unchanged(ctx) && forall i :: 0 <= i < |ms| ==> unchanged(ms[i])
      ensures settings.Some? && hasCustomer ==>
                var s := settings.value;
                var call := Call(Question(s.spaceId, s.integration, fingerprint), prepared, possible);
                var (w, ids) := Allowed(config, old(ViewAt(ctx, now)), call);
                var l := LookupOf(s.spaceId, ctx);
                && ViewAt(ctx, now) == w
                && (ids.None? ==>
                      r == None && lookups == old(lookups) && forall i :: 0 <= i < |ms| ==> unchanged(ms[i]))
                && (ids.Some? ==>
                      && l in lookups
                      && lookups[l] == (if l in old(lookups) then old(lookups)[l] else answer)
                      && lookups == old(lookups)[l := lookups[l]]
                      && r == Some(Filtered(ms, lookups[l], ids.value, s.spaceId))
                      && Displays(ms, lookups[l], ids.value, s.spaceId, r.value)
                      && forall i :: 0 <= i < |ms| ==>
                           Carries(ms[i].id, ms[i].own, old(ms[i].config), ms[i].config, lookups[l], ids.value,
                                   s.spaceId))
    {
      hide Valid, Allowed, Keyed, Filtered, Displays, Carries, Leaves;
      if settings == None {
        var rest := RemoveAll(ms, ownIds);
        return Some(rest);
      }
      if !hasCustomer {
        return Some(ms);
      }
      var s := settings.value;
      var call := Call(Question(s.spaceId, s.integration, fingerprint), prepared, possible);
      var ids := AllowedIds(ctx, call, now);
      if ids == None {
        return None;
      }
      var built := BuildFilteredCollection(ms, ids.value, s.spaceId, ctx, answer);
      return Some(built);
    }
  }

  /** The two passes of a confirm page, on one context: the second gets the first one's collection and
      finds whatever the gateway and the store would answer by then. */
  method ConfirmPage(service: PaymentMethodFilterService, ms: seq<PaymentMethod>, ctx: Context, settings: Settings,
                     fingerprint: string, prepared: Option<nat>, possible: Option<seq<nat>>,
                     preparedLater: Option<nat>, possibleLater: Option<seq<nat>>,
                     answer: seq<Configuration>, answerLater: seq<Configuration>, now: nat, later: nat)
    returns (once: Option<seq<PaymentMethod>>, twice: Option<seq<PaymentMethod>>)
    requires service.Valid() && Keyed(ms) && '_' !in ctx.languageId
    modifies service, ctx, set m | m in ms
    ensures service.Valid()
    ensures once.Some? ==> twice == once && |service.log| <= |old(service.log)| + 1
  {
    hide PaymentMethodFilterService.Valid, Keyed;
    once := service.FilterPaymentMethods(ms, ctx, Some(settings), true, fingerprint, prepared, possible,
                                         [], answer, now);
    twice := None;
    if once != None {
      ghost var configs := service.lookups[LookupOf(settings.spaceId, ctx)];
      ghost var allowed := ctx.memo.value.allowedIds;
      FilteredKeyed(ms, configs, allowed, settings.spaceId);
      FilteringTwiceIsOnce(ms, configs, allowed, settings.spaceId);
      twice := service.FilterPaymentMethods(once.value, ctx, Some(settings), true, fingerprint, preparedLater,
                                            possibleLater, [], answerLater, later);
    }
  }
}
