/** The pair store of an exchange: pair lists per asset type, and the index that matches symbols. */
module PairsManager {
  import opened Wrappers
  import opened Currency
  import opened Pairs
  import opened PairChanges
  import opened PairLookup

  type Asset = nat
  const ALL: Asset := 20

  predicate IsValid(a: Asset) {
    0 < a < ALL
  }

  datatype PairStore = PairStore(
    assetEnabled: Option<bool>,
    enabled: Pairs,
    available: Pairs,
    requestFormat: Option<PairFormat>,
    configFormat: Option<PairFormat>)

  const NEW_STORE := PairStore(None, [], [], None, None)

  type Matcher = map<(string, Asset), Pair>

  // ----- the index

  function Get(m: Matcher, name: string, a: Asset): Option<Pair> {
    if (name, a) in m then Some(m[(name, a)]) else None
  }

  /** The last pair with a stripped name: a later pair overwrites an earlier one in the index. */
  function LastNamed(ps: Pairs, name: string): (r: Option<Pair>)
    ensures r.Some? ==> r.value in ps && r.value.Stripped() == name
    ensures r.None? <==> name !in Names(ps)
  {
    if ps == [] then None
    else
      assert Names(ps) == Names(ps[..|ps| - 1]) + [ps[|ps| - 1].Stripped()];
      if ps[|ps| - 1].Stripped() == name then Some(ps[|ps| - 1]) else LastNamed(ps[..|ps| - 1], name)
  }

  /** The pair with the name after which no other has it is the one found. */
  lemma {:induction false} LastNamedIs(ps: Pairs, name: string, i: nat)
    requires i < |ps| && ps[i].Stripped() == name && forall j :: i < j < |ps| ==> ps[j].Stripped() != name
    ensures LastNamed(ps, name) == Some(ps[i])
  {
    if i < |ps| - 1 {
      LastNamedIs(ps[..|ps| - 1], name, i);
    }
  }

  /** The index finds exactly the last pair of each name in the list of each asset. */
  ghost predicate Indexes(m: Matcher, lists: map<Asset, Pairs>) {
    forall name, a :: Get(m, name, a) == if a in lists then LastNamed(lists[a], name) else None
  }

  function Available(stores: map<Asset, PairStore>): map<Asset, Pairs> {
    map a | a in stores :: stores[a].available
  }

  /** There is only one index of given lists. */
  lemma IndexIsUnique(m: Matcher, n: Matcher, lists: map<Asset, Pairs>)
    requires Indexes(m, lists) && Indexes(n, lists)
    ensures m == n
  {
    forall k ensures (k in m <==> k in n) && (k in m ==> m[k] == n[k]) {
      assert Get(m, k.0, k.1) == Get(n, k.0, k.1);
    }
  }

  lemma IndexSnoc(m: Matcher, lists: map<Asset, Pairs>, a: Asset, p: Pair)
    requires Indexes(m, lists) && a in lists
    ensures Indexes(m[(p.Stripped(), a) := p], lists[a := lists[a] + [p]])
  {
    var m' := m[(p.Stripped(), a) := p];
    var lists' := lists[a := lists[a] + [p]];
    forall name, b ensures Get(m', name, b) == if b in lists' then LastNamed(lists'[b], name) else None {
      assert Get(m, name, b) == if b in lists then LastNamed(lists[b], name) else None;
      assert (lists[a] + [p])[..|lists[a]|] == lists[a];
    }
  }

  lemma IndexEmptyList(m: Matcher, lists: map<Asset, Pairs>, a: Asset)
    requires Indexes(m, lists) && (a in lists ==> lists[a] == [])
    ensures Indexes(m, lists[a := []])
  {
    forall name, b ensures Get(m, name, b) == if b in lists[a := []] then LastNamed(lists[a := []][b], name) else None {
      assert Get(m, name, b) == if b in lists then LastNamed(lists[b], name) else None;
    }
  }

  lemma {:induction false} FirstIsLast(ps: Pairs, name: string)
    requires Distinct(Names(ps))
    ensures FirstNamed(ps, name) == LastNamed(ps, name)
  {
    var first, last := FirstNamed(ps, name), LastNamed(ps, name);
    if first.Some? {
      assert last.Some?;
      var i :| 0 <= i < |ps| && ps[i] == first.value;
      var j :| 0 <= j < |ps| && ps[j] == last.value;
      assert Names(ps)[i] == name && Names(ps)[j] == name;
    }
  }

  // ----- the enabled pairs

  /** What makes GetPairs return the enabled pairs without an error. */
  predicate EnabledWithin(store: PairStore) {
    store.enabled == [] || ContainsAllOutcome(store.available, store.enabled, true) == None
  }

  function GetPairsOutcome(stores: map<Asset, PairStore>, a: Asset, enabled: bool): (Pairs, Option<Error>) {
    if !IsValid(a) then ([], Some(AssetNotSupported))
    else if a !in stores then ([], None)
    else if !enabled then (stores[a].available, None)
    else if stores[a].enabled == [] then ([], None)
    else (stores[a].enabled, ContainsAllOutcome(stores[a].available, stores[a].enabled, true))
  }

  /** Reading gives the list of the chosen kind, with an error exactly when enabled pairs are not all available. */
  lemma GetPairsMeans(stores: map<Asset, PairStore>, a: Asset, enabled: bool)
    ensures var (list, error) := GetPairsOutcome(stores, a, enabled);
            (!IsValid(a) <==> error == Some(AssetNotSupported)) &&
            (IsValid(a) ==>
               list == (if a !in stores then [] else if enabled then stores[a].enabled else stores[a].available) &&
               (error == None <==>
                !enabled || multiset(MatchKeys(list, true)) <= multiset(if a in stores then MatchKeys(stores[a].available, true) else [])))
  {
    if a in stores {
      ContainsAllIsInclusion(stores[a].available, stores[a].enabled, true);
    }
  }

  /** Adding an available pair that is not yet enabled keeps the enabled pairs within the available ones. */
  lemma EnableKeepsWithin(store: PairStore, p: Pair)
    requires EnabledWithin(store)
    requires Contains(store.available, p, true) && !Contains(store.enabled, p, true)
    ensures EnabledWithin(store.(enabled := store.enabled + [p]))
  {
    var have, existing := MatchKeys(store.available, true), MatchKeys(store.enabled, true);
    var want := MatchKeys(store.enabled + [p], true);
    ContainsAllIsInclusion(store.available, store.enabled, true);
    ContainsAllIsInclusion(store.available, store.enabled + [p], true);
    ContainsIsKey(store.available, p, true);
    ContainsIsKey(store.enabled, p, true);
    assert want == existing + [MatchKeyOf(p, true)];
    assert multiset(existing) <= multiset(have);
    assert multiset(existing)[MatchKeyOf(p, true)] == 0;
  }

  lemma {:induction false} WithoutIncluded(ps: Pairs, rem: Pairs)
    ensures multiset(MatchKeys(Without(ps, rem), true)) <= multiset(MatchKeys(ps, true))
  {
    if ps != [] {
      var front, last := ps[..|ps| - 1], ps[|ps| - 1];
      WithoutIncluded(front, rem);
      assert MatchKeys(ps, true) == MatchKeys(front, true) + [MatchKeyOf(last, true)];
      assert MatchKeys(Without(front, rem) + [last], true) == MatchKeys(Without(front, rem), true) + [MatchKeyOf(last, true)];
    }
  }

  lemma DisableKeepsWithin(store: PairStore, p: Pair)
    requires EnabledWithin(store)
    ensures EnabledWithin(store.(enabled := Without(store.enabled, [p])))
  {
    WithoutIncluded(store.enabled, [p]);
    ContainsAllIsInclusion(store.available, store.enabled, true);
    ContainsAllIsInclusion(store.available, Without(store.enabled, [p]), true);
  }

  class PairsManager {
    var initialised: bool
    var pairs: map<Asset, PairStore>
    var matcher: Option<Matcher>
    var useGlobalFormat: bool
    var requestFormat: Option<PairFormat>
    var configFormat: Option<PairFormat>

    /** The index, once there is one, is that of the available pairs; before, there are none. */
    ghost predicate Valid()
      reads this
    {
      (pairs != map[] ==> initialised) &&
      match matcher
      case None => forall a :: a in pairs ==> pairs[a].available == []
      case Some(m) => Indexes(m, Available(pairs))
    }

    constructor ()
      ensures Valid() && pairs == map[]
    {
      initialised, pairs, matcher := false, map[], None;
      useGlobalFormat, requestFormat, configFormat := false, None, None;
    }

    /** Rebuilds the index, asset by asset in any order. */
    method Reindex()
      modifies this`matcher
      ensures matcher.Some? && Indexes(matcher.value, Available(pairs))
    {
      var m: Matcher := map[];
      ghost var lists: map<Asset, Pairs> := map[];
      var left := pairs.Keys;
      while left != {}
        invariant left <= pairs.Keys && lists.Keys == pairs.Keys - left
        invariant forall a :: a in lists ==> lists[a] == pairs[a].available
        invariant Indexes(m, lists)
        decreases left
      {
        var a :| a in left;
        var available := pairs[a].available;
        IndexEmptyList(m, lists, a);
        lists := lists[a := []];
        for i := 0 to |available|
          invariant lists.Keys == pairs.Keys - left + {a}
          invariant forall b :: b in lists && b != a ==> lists[b] == pairs[b].available
          invariant lists[a] == available[..i]
          invariant Indexes(m, lists)
        {
          IndexSnoc(m, lists, a, available[i]);
          m := m[(available[i].Stripped(), a) := available[i]];
          lists := lists[a := lists[a] + [available[i]]];
          assert available[..i + 1] == available[..i] + [available[i]];
        }
        assert available[..|available|] == available;
        left := left - {a};
      }
      assert lists == Available(pairs);
      matcher := Some(m);
    }

    /** A symbol finds the last available pair of its name. */
    function MatchOutcome(symbol: string, a: Asset): Result<Pair, Error>
      reads this
    {
      if symbol == "" then Err(SymbolEmpty)
      else if matcher.None? then Err(MatcherIsNil)
      else
        match if a in pairs then LastNamed(pairs[a].available, ToLower(symbol)) else None
        case None => Err(NotFound)
        case Some(p) => Ok(p)
    }

    /** Looks a symbol up in the index, whatever its letter case. */
    method Match(symbol: string, a: Asset) returns (r: Result<Pair, Error>)
      requires Valid()
      ensures r == MatchOutcome(symbol, a)
      ensures symbol == "" ==> r == Err(SymbolEmpty)
      ensures symbol != "" && matcher.None? ==> r == Err(MatcherIsNil)
      ensures symbol != "" && matcher.Some? ==>
                (r.Ok? <==> a in pairs && ToLower(symbol) in Names(pairs[a].available)) && (r.Err? ==> r.error == NotFound)
      ensures r.Ok? ==> r.value in pairs[a].available && r.value.Stripped() == ToLower(symbol)
      // With distinct names the index finds what a scan of the list finds.
      ensures symbol != "" && a in pairs && pairs[a].available != [] && Distinct(Names(pairs[a].available)) ==>
                r == DeriveOutcome(pairs[a].available, symbol)
    {
      if symbol == "" {
        return Err(SymbolEmpty);
      }
      var lower := ToLower(symbol);
      if matcher.None? {
        return Err(MatcherIsNil);
      }
      assert Get(matcher.value, lower, a) == if a in pairs then LastNamed(pairs[a].available, lower) else None;
      if a in pairs && Distinct(Names(pairs[a].available)) {
        FirstIsLast(pairs[a].available, lower);
      }
      if (lower, a) !in matcher.value {
        return Err(NotFound);
      }
      return Ok(matcher.value[(lower, a)]);
    }

    /** Stores an asset's pair store, None standing for a nil pointer. */
    method Store(a: Asset, ps: Option<PairStore>) returns (r: Option<Error>)
      requires Valid()
      modifies this`initialised, this`pairs, this`matcher
      ensures Valid()
      ensures r == if !IsValid(a) then Some(AssetNotSupported) else if ps.None? then Some(StoreIsNil) else None
      ensures pairs == if r.None? then old(pairs)[a := ps.value] else old(pairs)
      ensures r.None? ==> matcher.Some?
      ensures r.Some? ==> unchanged(this)
    {
      if !IsValid(a) {
        return Some(AssetNotSupported);
      }
      if ps.None? {
        return Some(StoreIsNil);
      }
      initialised := true;
      pairs := pairs[a := ps.value];
      Reindex();
      return None;
    }

    method StorePairs(a: Asset, list: Pairs, enabled: bool) returns (r: Option<Error>)
      requires Valid()
      modifies this`initialised, this`pairs, this`matcher
      ensures Valid()
      ensures r == if !IsValid(a) then Some(AssetNotSupported) else None
      ensures r.Some? ==> unchanged(this)
      ensures r.None? ==>
                pairs == StoredPairs(old(pairs), a, list, enabled) && (!enabled ==> matcher.Some?)
    {
      if !IsValid(a) {
        return Some(AssetNotSupported);
      }
      initialised := true;
      if a !in pairs {
        AddNewStore(a);
      }
      if enabled {
        SetEnabled(a, list);
      } else {
        pairs := pairs[a := pairs[a].(available := list)];
        Reindex();
      }
      return None;
    }

    method AddNewStore(a: Asset)
      requires Valid() && initialised && a !in pairs
      modifies this`pairs
      ensures Valid() && pairs == old(pairs)[a := NEW_STORE]
    {
      if matcher.Some? {
        IndexEmptyList(matcher.value, Available(pairs), a);
        assert Available(pairs[a := NEW_STORE]) == Available(pairs)[a := []];
      }
      pairs := pairs[a := NEW_STORE];
    }

    /** Replaces a store by one with the same available pairs. */
    method Replace(a: Asset, store: PairStore)
      requires Valid() && a in pairs && store.available == pairs[a].available
      modifies this`pairs
      ensures Valid() && pairs == old(pairs)[a := store]
    {
      assert Available(pairs[a := store]) == Available(pairs);
      pairs := pairs[a := store];
    }

    method SetEnabled(a: Asset, list: Pairs)
      requires Valid() && a in pairs
      modifies this`pairs
      ensures Valid() && pairs == old(pairs)[a := old(pairs)[a].(enabled := list)]
    {
      Replace(a, pairs[a].(enabled := list));
    }

    /** Takes the names of a list out of the index. */
    static method RemoveNames(whole: Matcher, list: Pairs, a: Asset) returns (m: Matcher)
      ensures forall name, b :: Get(m, name, b) == if b == a && name in Names(list) then None else Get(whole, name, b)
    {
      m := whole;
      for x := 0 to |list|
        invariant forall name, b ::
                    Get(m, name, b) == if b == a && name in Names(list[..x]) then None else Get(whole, name, b)
      {
        ghost var before := m;
        var name := list[x].Stripped();
        m := m - {(name, a)};
        assert Names(list[..x + 1]) == Names(list[..x]) + [name];
        assert forall n, b :: Get(m, n, b) == if b == a && n == name then None else Get(before, n, b);
      }
      assert list[..|list|] == list;
    }

    /** Removes an asset, taking its pairs' names out of the index. */
    method Delete(a: Asset)
      requires Valid()
      modifies this`pairs, this`matcher
      ensures Valid() && pairs == old(pairs) - {a}
    {
      if a !in pairs {
        return;
      }
      var vals := pairs[a];
      if matcher.Some? {
        var m := RemoveNames(matcher.value, vals.available, a);
        IndexWithout(m, matcher.value, Available(pairs), a);
        matcher := Some(m);
      }
      assert Available(pairs - {a}) == Available(pairs) - {a};
      pairs := pairs - {a};
    }

    /** Takes over the stores and formats of another manager. */
    method Load(seed: PairsManager)
      modifies this
      ensures Valid() && matcher.Some? && initialised
      ensures pairs == old(seed.pairs) && useGlobalFormat == old(seed.useGlobalFormat)
      ensures requestFormat == old(seed.requestFormat) && configFormat == old(seed.configFormat)
    {
      useGlobalFormat := seed.useGlobalFormat;
      requestFormat := seed.requestFormat;
      configFormat := seed.configFormat;
      pairs := seed.pairs;
      initialised := true;
      Reindex();
    }

    method GetPairs(a: Asset, enabled: bool) returns (list: Pairs, r: Option<Error>)
      ensures (list, r) == GetPairsOutcome(pairs, a, enabled)
    {
      if !IsValid(a) {
        return [], Some(AssetNotSupported);
      }
      if a !in pairs {
        return [], None;
      }
      if !enabled {
        return pairs[a].available, None;
      }
      if |pairs[a].enabled| == 0 {
        return [], None;
      }
      r := ContainsAll(pairs[a].available, pairs[a].enabled, true);
      return pairs[a].enabled, r;
    }

    function StoreError(a: Asset): Option<Error>
      reads this
    {
      if !initialised then Some(NotInitialised) else if a !in pairs then Some(AssetNotFound) else None
    }

    method GetFormat(a: Asset, request: bool) returns (r: Result<PairFormat, Error>)
      ensures r == FormatOutcome(a, request)
    {
      var f: Option<PairFormat>;
      if useGlobalFormat {
        f := if request then requestFormat else configFormat;
      } else {
        var e := StoreError(a);
        if e.Some? {
          return Err(e.value);
        }
        f := if request then pairs[a].requestFormat else pairs[a].configFormat;
      }
      if f.None? {
        return Err(FormatIsNil);
      }
      return Ok(f.value);
    }

    function FormatOutcome(a: Asset, request: bool): Result<PairFormat, Error>
      reads this
    {
      if !useGlobalFormat && StoreError(a).Some? then Err(StoreError(a).value)
      else
        var f := if useGlobalFormat then (if request then requestFormat else configFormat)
                 else if request then pairs[a].requestFormat else pairs[a].configFormat;
        if f.None? then Err(FormatIsNil) else Ok(f.value)
    }

    /** Sets the request or the config format of an asset, None standing for a nil pointer. */
    method StoreFormat(a: Asset, f: Option<PairFormat>, config: bool) returns (r: Option<Error>)
      requires Valid()
      modifies this`initialised, this`pairs
      ensures Valid()
      ensures r == if !IsValid(a) then Some(AssetNotSupported) else if f.None? then Some(FormatIsNil) else None
      ensures r.Some? ==> unchanged(this)
      ensures r.None? ==>
                var store := if a in old(pairs) then old(pairs)[a] else NEW_STORE;
                pairs == old(pairs)[a := if config then store.(configFormat := f) else store.(requestFormat := f)]
      // Reading the format back gives the one stored; the other one and those of other assets stay.
      ensures r.None? && !useGlobalFormat ==> FormatOutcome(a, !config) == Ok(f.value)
      ensures r.None? && old(initialised) ==>
                forall b, request :: b in old(pairs) && (b != a || request == config) ==>
                  FormatOutcome(b, request) == old(FormatOutcome(b, request))
    {
      if !IsValid(a) {
        return Some(AssetNotSupported);
      }
      if f.None? {
        return Some(FormatIsNil);
      }
      initialised := true;
      if a !in pairs {
        AddNewStore(a);
      }
      Replace(a, if config then pairs[a].(configFormat := f) else pairs[a].(requestFormat := f));
      return None;
    }

    /** Whether an asset is switched on and has pairs to choose from. */
    predicate Selectable(a: Asset)
      requires a in pairs
      reads this
    {
      pairs[a].assetEnabled == Some(true) && pairs[a].available != []
    }

    /**
    Enables one pair when no switched-on asset has any; assets come in any order, and random picks the
    pair. A pair it enables is available, and it fails exactly when there is none to choose.
    */
    method EnsureOnePairEnabled(random: nat) returns (r: Option<Error>, p: Pair, a: Asset)
      requires Valid()
      modifies this`pairs
      ensures Valid()
      ensures r == Some(NoPairs) <==>
                forall b :: b in old(pairs) ==> old(pairs)[b].assetEnabled != Some(true) || old(pairs)[b].available == []
      ensures r.None? || r == Some(NoPairs)
      ensures r.None? ==> exists b :: b in pairs && Selectable(b) && pairs[b].enabled != []
      ensures pairs == old(pairs) ||
              (r.None? && a in old(pairs) && old(pairs)[a].assetEnabled == Some(true) && p in old(pairs)[a].available &&
               (forall b :: b in old(pairs) && old(Selectable(b)) ==> old(pairs)[b].enabled == []) &&
               pairs == old(pairs)[a := old(pairs)[a].(enabled := [p])] && EnabledWithin(pairs[a]))
    {
      var left := pairs.Keys;
      while left != {}
        invariant left <= pairs.Keys
        invariant forall b :: b in pairs && b !in left && Selectable(b) ==> pairs[b].enabled == []
        decreases left
      {
        var k :| k in left;
        left := left - {k};
        if Selectable(k) && |pairs[k].enabled| > 0 {
          return None, EMPTY_PAIR, 0;
        }
      }
      left := pairs.Keys;
      while left != {}
        invariant left <= pairs.Keys
        invariant forall b :: b in pairs && b !in left ==> !Selectable(b)
        decreases left
      {
        var k :| k in left;
        left := left - {k};
        if Selectable(k) {
          var v := pairs[k];
          var pick := v.available[random % |v.available|];
          var list := Add(v.enabled, [pick]);
          assert list == [pick] by {
            assert [pick][..0] == [] && AddAll([], []) == [];
          }
          assert Matches(v.available[random % |v.available|], pick, true);
          EnableKeepsWithin(v, pick);
          assert [] + [pick] == [pick];
          SetEnabled(k, list);
          assert k in pairs && Selectable(k) && pairs[k].enabled != [];
          return None, pick, k;
        }
      }
      return Some(NoPairs), EMPTY_PAIR, 0;
    }

    method EnablePair(a: Asset, p: Pair) returns (r: Option<Error>)
      requires Valid()
      modifies this`pairs
      ensures Valid()
      ensures r == if !IsValid(a) then Some(AssetNotSupported)
                   else if p.IsEmpty() then Some(PairEmpty)
                   else if old(StoreError(a)).Some? then old(StoreError(a))
                   else if Contains(old(pairs)[a].enabled, p, true) then Some(AlreadyEnabled)
                   else if !Contains(old(pairs)[a].available, p, true) then Some(NotFound)
                   else None
      ensures r.Some? ==> pairs == old(pairs)
      ensures r.None? ==> pairs == old(pairs)[a := old(pairs)[a].(enabled := old(pairs)[a].enabled + [p])]
      ensures r.None? && EnabledWithin(old(pairs)[a]) ==> EnabledWithin(pairs[a])
    {
      if !IsValid(a) {
        return Some(AssetNotSupported);
      }
      if p.IsEmpty() {
        return Some(PairEmpty);
      }
      r := StoreError(a);
      if r.Some? {
        return;
      }
      var found := ContainsPair(pairs[a].enabled, p, true);
      if found {
        return Some(AlreadyEnabled);
      }
      found := ContainsPair(pairs[a].available, p, true);
      if !found {
        return Some(NotFound);
      }
      if EnabledWithin(pairs[a]) {
        EnableKeepsWithin(pairs[a], p);
      }
      var list := Add(pairs[a].enabled, [p]);
      assert list == pairs[a].enabled + [p] by {
        assert [p][..0] == [] && AddAll(pairs[a].enabled, []) == pairs[a].enabled;
      }
      SetEnabled(a, list);
    }

    method DisablePair(a: Asset, p: Pair) returns (r: Option<Error>)
      requires Valid()
      modifies this`pairs
      ensures Valid()
      ensures r == if !IsValid(a) then Some(AssetNotSupported)
                   else if p.IsEmpty() then Some(PairEmpty)
                   else if old(StoreError(a)).Some? then old(StoreError(a))
                   else if !Contains(old(pairs)[a].enabled, p, true) then Some(NotFound)
                   else None
      ensures r.Some? ==> pairs == old(pairs)
      ensures r.None? ==> pairs == old(pairs)[a := old(pairs)[a].(enabled := Without(old(pairs)[a].enabled, [p]))]
      ensures r.None? && EnabledWithin(old(pairs)[a]) ==> EnabledWithin(pairs[a])
    {
      if !IsValid(a) {
        return Some(AssetNotSupported);
      }
      if p.IsEmpty() {
        return Some(PairEmpty);
      }
      r := StoreError(a);
      if r.Some? {
        return;
      }
      ghost var before := pairs[a];
      var enabledLen := |pairs[a].enabled|;
      var list := Remove(pairs[a].enabled, [p]);
      RemovesOne(before.enabled, p);
      if EnabledWithin(before) {
        DisableKeepsWithin(before, p);
      }
      SetEnabled(a, list);
      if enabledLen == |pairs[a].enabled| {
        assert pairs == old(pairs)[a := before];
        return Some(NotFound);
      }
    }
  }

  function StoredPairs(stores: map<Asset, PairStore>, a: Asset, list: Pairs, enabled: bool): map<Asset, PairStore> {
    var store := if a in stores then stores[a] else NEW_STORE;
    stores[a := if enabled then store.(enabled := list) else store.(available := list)]
  }

  /** The format of a manager is its global one or that of the asset, for requests or for the configuration. */
  lemma FormatMeans(m: PairsManager, a: Asset)
    ensures m.useGlobalFormat && m.requestFormat.Some? ==> m.FormatOutcome(a, true) == Ok(m.requestFormat.value)
    ensures m.useGlobalFormat && m.configFormat.Some? ==> m.FormatOutcome(a, false) == Ok(m.configFormat.value)
    ensures !m.useGlobalFormat && m.initialised && a in m.pairs ==>
              (m.pairs[a].requestFormat.Some? ==> m.FormatOutcome(a, true) == Ok(m.pairs[a].requestFormat.value)) &&
              (m.pairs[a].configFormat.Some? ==> m.FormatOutcome(a, false) == Ok(m.pairs[a].configFormat.value))
    ensures !m.useGlobalFormat && m.initialised && a !in m.pairs ==> m.FormatOutcome(a, true) == Err(AssetNotFound)
    ensures !m.useGlobalFormat && !m.initialised ==> m.FormatOutcome(a, true) == m.FormatOutcome(a, false) == Err(NotInitialised)
  {
  }

  /** Storing a list changes that list of that asset, whose store starts empty, and nothing else. */
  lemma StoredPairsMeans(stores: map<Asset, PairStore>, a: Asset, list: Pairs, enabled: bool)
    ensures var after := StoredPairs(stores, a, list, enabled);
            var store := if a in stores then stores[a] else NEW_STORE;
            after.Keys == stores.Keys + {a} && (forall b :: b in stores && b != a ==> after[b] == stores[b]) &&
            after[a].enabled == (if enabled then list else store.enabled) &&
            after[a].available == (if enabled then store.available else list) &&
            after[a].assetEnabled == store.assetEnabled && after[a].requestFormat == store.requestFormat &&
            after[a].configFormat == store.configFormat &&
            (a !in stores ==> store.assetEnabled == None && store.enabled == [] && store.available == [])
    ensures IsValid(a) ==> GetPairsOutcome(StoredPairs(stores, a, list, enabled), a, enabled).0 == list
  {
  }

  lemma IndexWithout(m: Matcher, whole: Matcher, lists: map<Asset, Pairs>, a: Asset)
    requires Indexes(whole, lists) && a in lists
    requires forall name, b :: Get(m, name, b) == if b == a && name in Names(lists[a]) then None else Get(whole, name, b)
    ensures Indexes(m, lists - {a})
  {
    forall name, b ensures Get(m, name, b) == if b in lists - {a} then LastNamed((lists - {a})[b], name) else None {
      assert Get(whole, name, b) == if b in lists then LastNamed(lists[b], name) else None;
    }
  }

  lemma {:induction false} RemovesOne(ps: Pairs, p: Pair)
    ensures |Without(ps, [p])| == |ps| <==> !Contains(ps, p, true)
    ensures |Without(ps, [p])| <= |ps|
    ensures !Contains(ps, p, true) ==> Without(ps, [p]) == ps
  {
    if ps != [] {
      var front, last := ps[..|ps| - 1], ps[|ps| - 1];
      RemovesOne(front, p);
      ContainsSnoc(front, last, p);
      assert ps == front + [last];
      assert Contains([p], last, true) <==> last.Equal(p) by {
        assert Matches([p][0], last, true) <==> p.Equal(last);
      }
    }
  }
}
