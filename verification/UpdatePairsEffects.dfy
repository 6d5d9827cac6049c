/** When an update of an exchange's pairs succeeds, and what it then writes to each of the two stores. */
module UpdatePairsEffects {
  import opened Wrappers
  import opened Currency
  import opened Pairs
  import opened PairChanges
  import opened PairLookup
  import opened PairsManager
  import opened UpdatePairs
  import opened UpdatePairsLaws

  /** The old list has other currencies than the new one, or some pair of either is not in the format. */
  ghost predicate Differs(existing: Pairs, incoming: Pairs, f: PairFormat) {
    multiset(Keys(existing)) != multiset(Keys(incoming)) ||
    (exists p :: p in incoming && !InFormat(p, f)) || (exists p :: p in existing && !InFormat(p, f))
  }

  lemma ChangedIffDiffers(existing: Pairs, incoming: Pairs, f: PairFormat)
    requires DifferencesOutcome(existing, incoming, f).Ok? && ConformError(incoming) == None
    ensures Changed(DifferencesOutcome(existing, incoming, f).value) <==> Differs(existing, incoming, f)
  {
    var d := DifferencesOutcome(existing, incoming, f).value;
    AllInFormat(existing, f);
    AllInFormat(incoming, f);
    if d.added == [] && d.removed == [] {
      DifferencesConserve(existing, incoming, f);
      assert Keys([]) == [];
      EmptySides(multiset(Keys(existing)), multiset{}, multiset{}, multiset(Keys(incoming)));
    }
    if multiset(Keys(existing)) == multiset(Keys(incoming)) {
      SameKeysChangeNothing(existing, incoming);
    }
  }

  lemma SameKeysChangeNothing(existing: Pairs, incoming: Pairs)
    requires multiset(Keys(existing)) == multiset(Keys(incoming)) && ConformError(incoming) == None
    ensures AddedPairs(existing, incoming) == [] && RemovedPairs(existing, incoming) == []
  {
    ConformMeans(incoming);
    DistinctNamesDistinctKeys(incoming);
    forall i, j | 0 <= i < j < |existing| ensures Keys(existing)[i] != Keys(existing)[j] {
      SameKeysDistinct(Keys(existing), Keys(incoming), i, j);
    }
    forall k ensures k in Keys(existing) <==> k in Keys(incoming) {
      assert k in multiset(Keys(existing)) <==> k in multiset(Keys(incoming));
    }
    NothingAdded(existing, incoming);
    NothingRemoved(existing, incoming);
  }

  function ListOf(stores: map<Asset, PairStore>, a: Asset, enabled: bool): Pairs {
    if a !in stores then [] else if enabled then stores[a].enabled else stores[a].available
  }

  /** The list of the chosen kind is replaced in a store, or left alone. */
  function Written(stores: map<Asset, PairStore>, a: Asset, list: Pairs, enabled: bool, write: bool): map<Asset, PairStore> {
    if write then StoredPairs(stores, a, list, enabled) else stores
  }

  // ----- enabled pairs

  /**
  A successful update of the enabled pairs stores the incoming ones, conformed, in both stores if it is
  forced or something differs, and otherwise changes neither.
  */
  lemma EnabledUpdateWrites(stores: map<Asset, PairStore>, config: map<Asset, PairStore>, a: Asset, f: PairFormat,
                            bypass: bool, incoming: Pairs, force: bool, random: nat)
    requires UpdateOutcome(stores, config, a, f, bypass, incoming, true, force, random).error == None
    ensures var u := UpdateOutcome(stores, config, a, f, bypass, incoming, true, force, random);
            var list := Conformed(incoming, f, bypass);
            var write := force || Differs(ListOf(stores, a, true), list, f);
            u.stores == Written(stores, a, list, true, write) && u.config == Written(config, a, list, true, write)
  {
    var list := Conformed(incoming, f, bypass);
    ConformedIsClean(incoming, f, bypass);
    assert GetPairsOutcome(stores, a, true).0 == ListOf(stores, a, true);
    assert DifferencesOutcome(ListOf(stores, a, true), list, f).Ok?;
    ChangedIffDiffers(ListOf(stores, a, true), list, f);
  }

  // ----- available pairs

  /** The enabled pairs are not all available, or not all in the format. */
  ghost predicate NeedsRepair(stores: map<Asset, PairStore>, a: Asset, f: PairFormat) {
    a in stores && stores[a].enabled != [] &&
    (!(multiset(MatchKeys(stores[a].enabled, true)) <= multiset(MatchKeys(stores[a].available, true))) ||
     exists p :: p in stores[a].enabled && !InFormat(p, f))
  }

  /**
  The repaired list has, in order, the enabled names that are incoming, each as an incoming pair in the
  format; when none is left, one incoming pair as it is.
  */
  ghost predicate IsRepair(enabled: Pairs, fixed: Pairs, incoming: Pairs, f: PairFormat, random: nat) {
    var names := Survivors(Names(enabled), Names(incoming));
    if names == [] && incoming != [] then fixed == [incoming[random % |incoming|]]
    else Names(fixed) == names && forall p :: p in fixed ==> InFormat(p, f) && p.Key() in Keys(incoming)
  }

  lemma RepairWrites(u: Update, a: Asset, incoming: Pairs, f: PairFormat, random: nat)
    requires IsValid(a) && u.error == None && ConformError(incoming) == None
    requires RepairOutcome(u, a, incoming, f, random).error == None
    ensures var r, repair := RepairOutcome(u, a, incoming, f, random), NeedsRepair(u.stores, a, f);
            var fixed := ListOf(r.stores, a, true);
            r.stores == Written(u.stores, a, fixed, true, repair) && r.config == Written(u.config, a, fixed, true, repair) &&
            (repair ==> IsRepair(u.stores[a].enabled, fixed, incoming, f, random))
  {
    RepairBranches(u, a, incoming, f, random);
    if NeedsRepair(u.stores, a, f) {
      RepairedIsRepair(u.stores[a].enabled, incoming, f, random);
    }
  }

  lemma RepairBranches(u: Update, a: Asset, incoming: Pairs, f: PairFormat, random: nat)
    requires IsValid(a) && u.error == None && RepairOutcome(u, a, incoming, f, random).error == None
    ensures var r := RepairOutcome(u, a, incoming, f, random);
            if NeedsRepair(u.stores, a, f) then
              var enabled := u.stores[a].enabled;
              !AnyEmpty(enabled) &&
              r == StoreBoth(u, a, Repaired(enabled, RemovedPairs(enabled, incoming), incoming, f, random), true)
            else r == u
  {
    if a in u.stores {
      AllInFormat(u.stores[a].enabled, f);
      ContainsAllIsInclusion(u.stores[a].available, u.stores[a].enabled, true);
    }
  }

  lemma RepairedIsRepair(enabled: Pairs, incoming: Pairs, f: PairFormat, random: nat)
    requires ConformError(incoming) == None && !AnyEmpty(enabled)
    ensures IsRepair(enabled, Repaired(enabled, RemovedPairs(enabled, incoming), incoming, f, random), incoming, f, random)
  {
    ConformMeans(incoming);
    CompactedMeans(enabled, enabled, incoming, f);
    var list := Compacted(enabled, RemovedPairs(enabled, incoming), incoming, f);
    AllInFormat(list, f);
    assert |Names(list)| == |list|;
  }

  /**
  A successful update of the available pairs stores the incoming ones, conformed, in both stores if it
  is forced or something differs; then it repairs the enabled pairs, in both stores alike, if they need
  it. Nothing else changes.
  */
  lemma AvailableUpdateWrites(stores: map<Asset, PairStore>, config: map<Asset, PairStore>, a: Asset, f: PairFormat,
                              bypass: bool, incoming: Pairs, force: bool, random: nat)
    requires UpdateOutcome(stores, config, a, f, bypass, incoming, false, force, random).error == None
    ensures var u := UpdateOutcome(stores, config, a, f, bypass, incoming, false, force, random);
            var list := Conformed(incoming, f, bypass);
            var write := force || Differs(ListOf(stores, a, false), list, f);
            var live, saved := Written(stores, a, list, false, write), Written(config, a, list, false, write);
            var repair, fixed := NeedsRepair(live, a, f), ListOf(u.stores, a, true);
            u.stores == Written(live, a, fixed, true, repair) && u.config == Written(saved, a, fixed, true, repair) &&
            (repair ==> IsRepair(live[a].enabled, fixed, list, f, random))
  {
    var list := Conformed(incoming, f, bypass);
    ConformedIsClean(incoming, f, bypass);
    ChangedIffDiffers(ListOf(stores, a, false), list, f);
    var begin := Update(stores, config, None);
    var write := force || Differs(ListOf(stores, a, false), list, f);
    var stored := if write then StoreBoth(begin, a, list, false) else begin;
    assert UpdateOutcome(stores, config, a, f, bypass, incoming, false, force, random)
        == RepairOutcome(stored, a, list, f, random);
    RepairWrites(stored, a, list, f, random);
  }

  /**
  After a successful update of the available pairs without bypass, every available and every enabled
  pair has the delimiter of the format and prints as formatting prints it.
  */
  lemma UpdateFormats(stores: map<Asset, PairStore>, config: map<Asset, PairStore>, a: Asset, f: PairFormat,
                      incoming: Pairs, force: bool, random: nat, p: Pair)
    requires UpdateOutcome(stores, config, a, f, false, incoming, false, force, random).error == None
    requires var after := UpdateOutcome(stores, config, a, f, false, incoming, false, force, random).stores;
             a in after && (p in after[a].available || p in after[a].enabled)
    ensures p.delimiter == f.delimiter && p.String() == p.Format(f).String()
    ensures p.String() == Cased(p.base.item, f.uppercase) + f.delimiter + Cased(p.quote.item, f.uppercase)
  {
    var after := UpdateOutcome(stores, config, a, f, false, incoming, false, force, random).stores;
    var conformed := Conformed(incoming, f, false);
    UpdateShape(stores, config, a, f, false, incoming, force, random);
    ConformedKeeps(incoming, f, false);
    AllInFormat(after[a].available, f);
    AllInFormat(after[a].enabled, f);
    assert InFormat(p, f);
    FormatPrints(p, f);
  }

  // ----- success

  ghost predicate Clean(ps: Pairs) {
    !AnyEmpty(ps)
  }

  lemma KeysOfEmpty(available: Pairs, enabled: Pairs)
    requires Clean(available) && !Clean(enabled)
    ensures !(multiset(MatchKeys(enabled, true)) <= multiset(MatchKeys(available, true)))
  {
    var i :| 0 <= i < |enabled| && enabled[i].IsEmpty();
    var k := MatchKeys(enabled, true)[i];
    assert k in multiset(MatchKeys(enabled, true));
    forall j | 0 <= j < |available| ensures MatchKeys(available, true)[j] != k {
      EqualMeans(available[j], enabled[i]);
      assert !available[j].IsEmpty();
    }
    assert k !in multiset(MatchKeys(available, true));
  }

  lemma RepairSucceedsIff(u: Update, a: Asset, incoming: Pairs, f: PairFormat, random: nat)
    requires IsValid(a) && u.error == None && ConformError(incoming) == None
    requires a in u.stores ==> Clean(u.stores[a].available)
    ensures RepairOutcome(u, a, incoming, f, random).error == None <==> (a in u.stores ==> Clean(u.stores[a].enabled))
  {
    ConformMeans(incoming);
    DistinctNamesDistinctKeys(incoming);
    NoErrorMeans(incoming);
    if a in u.stores {
      ContainsAllIsInclusion(u.stores[a].available, u.stores[a].enabled, true);
      if !Clean(u.stores[a].enabled) {
        KeysOfEmpty(u.stores[a].available, u.stores[a].enabled);
      }
    }
  }

  /**
  An update of the available pairs succeeds if and only if the asset is valid, the incoming pairs are
  not empty and have distinct names, and no stored pair of the asset is empty.
  */
  lemma UpdateSucceedsIff(stores: map<Asset, PairStore>, config: map<Asset, PairStore>, a: Asset, f: PairFormat,
                          bypass: bool, incoming: Pairs, force: bool, random: nat)
    ensures UpdateOutcome(stores, config, a, f, bypass, incoming, false, force, random).error == None <==>
            IsValid(a) && Clean(incoming) && Distinct(Names(incoming)) &&
            (a in stores ==> Clean(stores[a].available) && Clean(stores[a].enabled))
  {
    ConformMeans(incoming);
    if ConformError(incoming) == None && IsValid(a) {
      var list := Conformed(incoming, f, bypass);
      ConformedIsClean(incoming, f, bypass);
      ConformMeans(list);
      DistinctNamesDistinctKeys(list);
      NoErrorMeans(list);
      if Clean(ListOf(stores, a, false)) {
        var begin := Update(stores, config, None);
        var d := DifferencesOutcome(ListOf(stores, a, false), list, f).value;
        var stored := if force || Changed(d) then StoreBoth(begin, a, list, false) else begin;
        RepairSucceedsIff(stored, a, list, f, random);
        assert UpdateOutcome(stores, config, a, f, bypass, incoming, false, force, random)
            == RepairOutcome(stored, a, list, f, random);
      }
    }
  }

  /** Likewise for the enabled pairs, which also have to be available beforehand. */
  lemma EnabledUpdateSucceedsIff(stores: map<Asset, PairStore>, config: map<Asset, PairStore>, a: Asset, f: PairFormat,
                                 bypass: bool, incoming: Pairs, force: bool, random: nat)
    ensures UpdateOutcome(stores, config, a, f, bypass, incoming, true, force, random).error == None <==>
            IsValid(a) && Clean(incoming) && Distinct(Names(incoming)) && Clean(ListOf(stores, a, true)) &&
            (a in stores && stores[a].enabled != [] ==>
               multiset(MatchKeys(stores[a].enabled, true)) <= multiset(MatchKeys(stores[a].available, true)))
  {
    ConformMeans(incoming);
    if ConformError(incoming) == None && IsValid(a) {
      var list := Conformed(incoming, f, bypass);
      ConformedIsClean(incoming, f, bypass);
      ConformMeans(list);
      DistinctNamesDistinctKeys(list);
      NoErrorMeans(list);
      if a in stores {
        ContainsAllIsInclusion(stores[a].available, stores[a].enabled, true);
      }
    }
  }

  // ----- the order of survivors

  /** What survives of a longer list starts with what survives of its beginning. */
  lemma {:induction false} SurvivorsPrefix(names: seq<string>, more: seq<string>, allowed: seq<string>)
    ensures Survivors(names, allowed) <= Survivors(names + more, allowed)
    decreases |more|
  {
    if more == [] {
      assert names + more == names;
    } else {
      var n := |more| - 1;
      SurvivorsPrefix(names, more[..n], allowed);
      assert (names + more)[..|names + more| - 1] == names + more[..n];
    }
  }

  lemma FailedRepairWritesNothing(u: Update, a: Asset, incoming: Pairs, f: PairFormat, random: nat)
    requires u.error == None
    ensures var r := RepairOutcome(u, a, incoming, f, random);
            r.error.Some? ==> r.stores == u.stores && r.config == u.config
  {
  }

  /** A failed update leaves both stores as they were, or has stored the available pairs before the repair failed. */
  lemma FailedUpdateWrites(stores: map<Asset, PairStore>, config: map<Asset, PairStore>, a: Asset, f: PairFormat,
                           bypass: bool, incoming: Pairs, enabled: bool, force: bool, random: nat)
    ensures var u := UpdateOutcome(stores, config, a, f, bypass, incoming, enabled, force, random);
            u.error.Some? ==>
              (u.stores == stores && u.config == config) ||
              (!enabled && ConformError(incoming) == None &&
               u.stores == StoredPairs(stores, a, Conformed(incoming, f, bypass), false) &&
               u.config == StoredPairs(config, a, Conformed(incoming, f, bypass), false))
    ensures ConformError(incoming).Some? ==>
              UpdateOutcome(stores, config, a, f, bypass, incoming, enabled, force, random).error == ConformError(incoming)
  {
    if ConformError(incoming) == None && !enabled && IsValid(a) {
      var list := Conformed(incoming, f, bypass);
      var begin := Update(stores, config, None);
      var stored := StoreBoth(begin, a, list, false);
      FailedRepairWritesNothing(begin, a, list, f, random);
      FailedRepairWritesNothing(stored, a, list, f, random);
      SecondHalf(stores, config, a, f, bypass, incoming, force, random);
    }
  }

  lemma SecondHalf(stores: map<Asset, PairStore>, config: map<Asset, PairStore>, a: Asset, f: PairFormat,
                   bypass: bool, incoming: Pairs, force: bool, random: nat)
    requires ConformError(incoming) == None && IsValid(a)
    ensures var u := UpdateOutcome(stores, config, a, f, bypass, incoming, false, force, random);
            var list, begin := Conformed(incoming, f, bypass), Update(stores, config, None);
            (u.stores == stores && u.config == config && u.error.Some?) || u == RepairOutcome(begin, a, list, f, random) ||
            u == RepairOutcome(StoreBoth(begin, a, list, false), a, list, f, random)
  {
  }
}
