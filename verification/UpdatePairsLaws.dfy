/** What an update of the available pairs guarantees, and when repeating it changes nothing. */
module UpdatePairsLaws {
  import opened Wrappers
  import opened Currency
  import opened Pairs
  import opened PairChanges
  import opened PairLookup
  import opened PairsManager
  import opened UpdatePairs
  import opened PairParsing

  // ----- lists related by their keys

  lemma MatchKeysAreKeys(ps: Pairs)
    ensures |MatchKeys(ps, true)| == |Keys(ps)|
    ensures forall i :: 0 <= i < |ps| ==> MatchKeys(ps, true)[i] == Ordered(Keys(ps)[i])
  {
  }

  lemma {:induction false} SubsetCounts<T>(small: seq<T>, big: seq<T>)
    requires Distinct(small) && forall x :: x in small ==> x in big
    ensures multiset(small) <= multiset(big)
  {
    forall x ensures multiset(small)[x] <= multiset(big)[x] {
      DistinctCount(small, x);
    }
  }

  /** Distinct enabled pairs that all occur among the available ones are within them. */
  lemma WithinByKeys(store: PairStore)
    requires Distinct(Keys(store.enabled))
    requires forall k :: k in Keys(store.enabled) ==> k in Keys(store.available)
    ensures EnabledWithin(store)
  {
    MatchKeysAreKeys(store.available);
    MatchKeysAreKeys(store.enabled);
    var have, want := MatchKeys(store.available, true), MatchKeys(store.enabled, true);
    forall x | x in want ensures x in have {
      var i :| 0 <= i < |want| && want[i] == x;
      assert Keys(store.enabled)[i] in Keys(store.available);
      var j :| 0 <= j < |have| && Keys(store.available)[j] == Keys(store.enabled)[i];
      assert have[j] == x;
    }
    SubsetCounts(want, have);
    ContainsAllIsInclusion(store.available, store.enabled, true);
  }

  /** Pairs within a list without repeated names have no repeated names themselves. */
  lemma WithinIsDistinct(store: PairStore)
    requires EnabledWithin(store) && Distinct(Names(store.available))
    ensures Distinct(Names(store.enabled))
    ensures forall k :: k in Keys(store.enabled) ==> k in Keys(store.available)
  {
    if store.enabled != [] {
      MatchKeysAreKeys(store.available);
      MatchKeysAreKeys(store.enabled);
      var have, want := MatchKeys(store.available, true), MatchKeys(store.enabled, true);
      ContainsAllIsInclusion(store.available, store.enabled, true);
      assert multiset(want) <= multiset(have);
      DistinctNamesDistinctKeys(store.available);
      assert Distinct(have);
      OrderedSubset(store);
      forall i | 0 <= i < |want| ensures Keys(store.enabled)[i] in Keys(store.available) {
        assert want[i] in multiset(have);
        var j :| 0 <= j < |have| && have[j] == want[i];
        assert Keys(store.available)[j] == Keys(store.enabled)[i];
      }
      forall i, j | 0 <= i < j < |want| ensures Names(store.enabled)[i] != Names(store.enabled)[j] {
        SameKeysDistinct(Keys(store.enabled), Keys(store.available), i, j);
        var x :| 0 <= x < |have| && Keys(store.available)[x] == Keys(store.enabled)[i];
        var y :| 0 <= y < |have| && Keys(store.available)[y] == Keys(store.enabled)[j];
        NameOfKey(store.available[x], store.enabled[i]);
        NameOfKey(store.available[y], store.enabled[j]);
        assert x != y && Names(store.available)[x] != Names(store.available)[y];
      }
    }
  }

  lemma OrderedSubset(store: PairStore)
    requires multiset(MatchKeys(store.enabled, true)) <= multiset(MatchKeys(store.available, true))
    ensures multiset(Keys(store.enabled)) <= multiset(Keys(store.available))
  {
    forall k ensures Count(store.enabled, k) <= Count(store.available, k) {
      SameCount(store.enabled, k);
      SameCount(store.available, k);
      assert multiset(MatchKeys(store.enabled, true))[Ordered(k)] <= multiset(MatchKeys(store.available, true))[Ordered(k)];
    }
    assert forall k :: multiset(Keys(store.enabled))[k] == Count(store.enabled, k);
  }

  lemma {:induction false} SameCount(ps: Pairs, k: PairKey)
    ensures multiset(MatchKeys(ps, true))[Ordered(k)] == Count(ps, k)
  {
    if ps != [] {
      var front, last := ps[..|ps| - 1], ps[|ps| - 1];
      SameCount(front, k);
      CountPush(front, last, k);
      assert ps == front + [last];
      assert MatchKeys(ps, true) == MatchKeys(front, true) + [Ordered(last.Key())];
    }
  }

  lemma TwiceCounts<T>(s: seq<T>, i: nat, j: nat)
    requires i < j < |s| && s[i] == s[j]
    ensures multiset(s)[s[i]] >= 2
  {
    assert s == s[..j] + s[j..];
    assert multiset(s) == multiset(s[..j]) + multiset(s[j..]);
    assert s[..j][i] == s[i] && s[j..][0] == s[j];
  }

  /** The available pairs an update leaves: the incoming currencies, with distinct names. */
  ghost predicate Follows(available: Pairs, incoming: Pairs) {
    Distinct(Names(available)) && !AnyEmpty(available) &&
    (forall k :: k in Keys(available) ==> k in Keys(incoming)) &&
    (forall k :: k in Keys(incoming) ==> k in Keys(available))
  }

  lemma FollowsItself(incoming: Pairs)
    requires ConformError(incoming) == None
    ensures Follows(incoming, incoming)
  {
    ConformMeans(incoming);
  }

  lemma SameKeysFollow(existing: Pairs, incoming: Pairs)
    requires multiset(Keys(existing)) == multiset(Keys(incoming)) && Distinct(Names(incoming)) && !AnyEmpty(existing)
    ensures Follows(existing, incoming)
  {
    DistinctNamesDistinctKeys(incoming);
    forall k ensures k in Keys(existing) <==> k in Keys(incoming) {
      assert k in multiset(Keys(existing)) <==> k in multiset(Keys(incoming));
    }
    var keys := Keys(existing);
    forall i, j | 0 <= i < j < |keys| ensures Names(existing)[i] != Names(existing)[j] {
      SameKeysDistinct(keys, Keys(incoming), i, j);
      assert keys[i] in Keys(incoming) && keys[j] in Keys(incoming);
      var x :| 0 <= x < |incoming| && Keys(incoming)[x] == keys[i];
      var y :| 0 <= y < |incoming| && Keys(incoming)[y] == keys[j];
      NameOfKey(incoming[x], existing[i]);
      NameOfKey(incoming[y], existing[j]);
      assert Names(incoming)[x] != Names(incoming)[y];
    }
  }

  lemma SameKeysDistinct(a: seq<PairKey>, b: seq<PairKey>, i: nat, j: nat)
    requires multiset(a) <= multiset(b) && Distinct(b) && i < j < |a|
    ensures a[i] != a[j]
  {
    DistinctCount(b, a[i]);
    assert multiset(a)[a[i]] <= 1;
    if a[i] == a[j] {
      TwiceCounts(a, i, j);
    }
  }

  /** Without a difference the old list already has the incoming currencies, each once. */
  lemma NoDifferenceFollows(existing: Pairs, incoming: Pairs, f: PairFormat)
    requires DifferencesOutcome(existing, incoming, f).Ok? && ConformError(incoming) == None
    requires var d := DifferencesOutcome(existing, incoming, f).value; d.added == [] && d.removed == []
    ensures Follows(existing, incoming)
  {
    DifferencesConserve(existing, incoming, f);
    ConformMeans(incoming);
    assert Keys([]) == [];
    EmptySides(multiset(Keys(existing)), multiset{}, multiset{}, multiset(Keys(incoming)));
    SameKeysFollow(existing, incoming);
  }

  lemma EmptySides(a: multiset<PairKey>, b: multiset<PairKey>, c: multiset<PairKey>, d: multiset<PairKey>)
    requires a + b == c + d && b == multiset{} && c == multiset{}
    ensures a == d
  {
    assert a + b == a && c + d == d;
  }

  // ----- the enabled pairs after the repair

  /** The repaired pairs are distinct even by name, and each is an incoming pair. */
  lemma RepairedMeans(enabled: Pairs, incoming: Pairs, f: PairFormat, random: nat)
    requires ConformError(incoming) == None && !AnyEmpty(enabled)
    ensures var r := Repaired(enabled, RemovedPairs(enabled, incoming), incoming, f, random);
            Distinct(Names(r)) && Distinct(Keys(r)) && (incoming != [] ==> r != []) &&
            (forall k :: k in Keys(r) ==> k in Keys(incoming)) &&
            (!AnyFormatDifference(incoming, f) ==> !AnyFormatDifference(r, f))
  {
    ConformMeans(incoming);
    CompactedMeans(enabled, enabled, incoming, f);
    SurvivorsDistinct(Names(enabled), Names(incoming));
    var r := Repaired(enabled, RemovedPairs(enabled, incoming), incoming, f, random);
    forall i | 0 <= i < |r| ensures Keys(r)[i] in Keys(incoming) {
      if Compacted(enabled, RemovedPairs(enabled, incoming), incoming, f) == [] {
        assert Keys(incoming)[random % |incoming|] == Keys(r)[i];
      } else {
        assert r[i] in r;
      }
    }
    DistinctNamesDistinctKeys(r);
  }

  /** One asset after an update: enabled within available, no name twice, nothing emptied. */
  ghost predicate Sound(store: PairStore, incoming: Pairs) {
    Follows(store.available, incoming) && EnabledWithin(store) && Distinct(Names(store.enabled))
  }

  lemma RepairIsSound(u: Update, a: Asset, incoming: Pairs, f: PairFormat, random: nat)
    requires ConformError(incoming) == None && IsValid(a) && u.error == None
    requires a in u.stores && Follows(u.stores[a].available, incoming)
    requires RepairOutcome(u, a, incoming, f, random).error == None
    ensures var after := RepairOutcome(u, a, incoming, f, random).stores;
            a in after && Sound(after[a], incoming) && after[a].available == u.stores[a].available &&
            (u.stores[a].enabled != [] && incoming != [] ==> after[a].enabled != []) &&
            (!AnyFormatDifference(incoming, f) ==> !AnyFormatDifference(after[a].enabled, f)) &&
            (EnabledWithin(u.stores[a]) && !AnyFormatDifference(u.stores[a].enabled, f) ==> after == u.stores)
  {
    var store := u.stores[a];
    var after := RepairOutcome(u, a, incoming, f, random).stores[a];
    if EnabledWithin(store) && !AnyFormatDifference(store.enabled, f) {
      WithinIsDistinct(store);
    } else {
      RepairedMeans(store.enabled, incoming, f, random);
      assert after.enabled == Repaired(store.enabled, RemovedPairs(store.enabled, incoming), incoming, f, random);
      WithinByKeys(after);
    }
  }

  // ----- the theorems

  /** The available pairs after the first half: the conformed ones, or the old ones when nothing differs. */
  ghost predicate SettledList(available: Pairs, conformed: Pairs, f: PairFormat) {
    available == conformed || (!AnyFormatDifference(available, f) && !AnyFormatDifference(conformed, f))
  }

  lemma UpdateShape(stores: map<Asset, PairStore>, config: map<Asset, PairStore>, a: Asset, f: PairFormat,
                    bypass: bool, incoming: Pairs, force: bool, random: nat)
    requires UpdateOutcome(stores, config, a, f, bypass, incoming, false, force, random).error == None
    ensures var after := UpdateOutcome(stores, config, a, f, bypass, incoming, false, force, random).stores;
            var conformed := Conformed(incoming, f, bypass);
            IsValid(a) && ConformError(conformed) == None &&
            (a in after ==> Sound(after[a], conformed) && SettledList(after[a].available, conformed, f)) &&
            (conformed != [] ==> a in after) &&
            (a in stores && stores[a].enabled != [] && conformed != [] ==> after[a].enabled != []) &&
            (!bypass && a in after ==> !AnyFormatDifference(after[a].enabled, f))
  {
    var conformed := Conformed(incoming, f, bypass);
    ConformedIsClean(incoming, f, bypass);
    ConformedKeeps(incoming, f, bypass);
    var existing := GetPairsOutcome(stores, a, false).0;
    var d := DifferencesOutcome(existing, conformed, f).value;
    var begin := Update(stores, config, None);
    if force || Changed(d) {
      FollowsItself(conformed);
      RepairIsSound(StoreBoth(begin, a, conformed, false), a, conformed, f, random);
    } else {
      NoDifferenceFollows(existing, conformed, f);
      if a in stores {
        RepairIsSound(begin, a, conformed, f, random);
      } else {
        NothingFollows(conformed);
      }
    }
  }

  /**
  After an update of the available pairs that reports no error, the available pairs are the incoming
  currencies, the enabled ones have no name twice and are all available, so that reading them gives
  no error, and they have not become empty unless nothing is available.
  */
  lemma UpdateIsSound(stores: map<Asset, PairStore>, config: map<Asset, PairStore>, a: Asset, f: PairFormat,
                      bypass: bool, incoming: Pairs, force: bool, random: nat)
    requires UpdateOutcome(stores, config, a, f, bypass, incoming, false, force, random).error == None
    ensures var after := UpdateOutcome(stores, config, a, f, bypass, incoming, false, force, random).stores;
            GetPairsOutcome(after, a, true).1 == None &&
            (a in after ==> Sound(after[a], incoming)) && (incoming != [] ==> a in after) &&
            (a in stores && stores[a].enabled != [] && incoming != [] ==> after[a].enabled != [])
  {
    UpdateShape(stores, config, a, f, bypass, incoming, force, random);
    ConformedKeeps(incoming, f, bypass);
  }

  lemma {:induction false} NothingAdded(existing: Pairs, incoming: Pairs)
    requires forall k :: k in Keys(incoming) ==> k in Keys(existing)
    ensures AddedPairs(existing, incoming) == []
  {
    if incoming != [] {
      Extend(incoming, |incoming| - 1);
      assert incoming[..|incoming|] == incoming;
      NothingAdded(existing, incoming[..|incoming| - 1]);
    }
  }

  lemma {:induction false} NothingRemoved(existing: Pairs, incoming: Pairs)
    requires Distinct(Keys(existing)) && forall k :: k in Keys(existing) ==> k in Keys(incoming)
    ensures RemovedPairs(existing, incoming) == []
  {
    if existing != [] {
      var n := |existing| - 1;
      Extend(existing, n);
      assert existing[..|existing|] == existing;
      assert forall i :: 0 <= i < n ==> Keys(existing[..n])[i] == Keys(existing)[i];
      assert Keys(existing)[n] == existing[n].Key() && existing[n].Key() in Keys(existing);
      assert existing[n].Key() !in Keys(existing[..n]);
      NothingRemoved(existing[..n], incoming);
    }
  }

  /** A list that already has the incoming currencies shows at most a difference in format. */
  lemma FollowersDiffer(available: Pairs, conformed: Pairs, f: PairFormat)
    requires Follows(available, conformed) && ConformError(conformed) == None
    ensures var r := DifferencesOutcome(available, conformed, f);
            r.Ok? && r.value.added == [] && r.value.removed == []
  {
    ConformMeans(conformed);
    DistinctNamesDistinctKeys(conformed);
    DistinctNamesDistinctKeys(available);
    NoErrorMeans(conformed);
    NothingAdded(available, conformed);
    NothingRemoved(available, conformed);
  }

  lemma EnabledNotEmptyPairs(store: PairStore, conformed: Pairs)
    requires Sound(store, conformed)
    ensures !AnyEmpty(store.enabled)
    ensures forall n :: n in Names(store.enabled) ==> n in Names(store.available)
  {
    WithinIsDistinct(store);
    forall i | 0 <= i < |store.enabled|
      ensures !store.enabled[i].IsEmpty() && Names(store.enabled)[i] in Names(store.available)
    {
      assert Keys(store.enabled)[i] in Keys(store.available);
      var q := KeyInList(store.available, store.enabled[i].Key());
      var j :| 0 <= j < |store.available| && store.available[j] == q;
      NameOfKey(store.enabled[i], q);
      assert Names(store.available)[j] == q.Stripped();
    }
  }

  lemma NamesFollow(available: Pairs, conformed: Pairs)
    requires Follows(available, conformed)
    ensures forall n :: n in Names(available) ==> n in Names(conformed)
  {
    forall i | 0 <= i < |available| ensures Names(available)[i] in Names(conformed) {
      assert Keys(available)[i] in Keys(conformed);
      var q := KeyInList(conformed, available[i].Key());
      var j :| 0 <= j < |conformed| && conformed[j] == q;
      NameOfKey(available[i], q);
      assert Names(conformed)[j] == q.Stripped();
    }
  }

  /** Sound enabled pairs are left alone exactly when none of them differs from the format. */
  lemma RepairFixedPoint(u: Update, a: Asset, conformed: Pairs, f: PairFormat, random: nat)
    requires ConformError(conformed) == None && IsValid(a) && u.error == None
    requires a in u.stores && Sound(u.stores[a], conformed)
    ensures var r := RepairOutcome(u, a, conformed, f, random);
            r.error == None && a in r.stores && r.stores[a].available == u.stores[a].available &&
            (r.stores == u.stores <==> !AnyFormatDifference(u.stores[a].enabled, f))
  {
    var store := u.stores[a];
    var enabled := store.enabled;
    if AnyFormatDifference(enabled, f) {
      EnabledNotEmptyPairs(store, conformed);
      NamesFollow(store.available, conformed);
      ConformMeans(conformed);
      DistinctNamesDistinctKeys(conformed);
      NoErrorMeans(conformed);
      CompactedMeans(enabled, enabled, conformed, f);
      SurvivorsDistinct(Names(enabled), Names(conformed));
      var list := Compacted(enabled, RemovedPairs(enabled, conformed), conformed, f);
      assert Names(enabled)[0] in Names(list);
      assert Repaired(enabled, RemovedPairs(enabled, conformed), conformed, f, random) == list;
      assert RepairOutcome(u, a, conformed, f, random).stores[a].enabled == list;
    }
  }

  /**
  Repeating a successful update of the available pairs, without force, succeeds, keeps the available
  pairs, and changes the enabled ones if and only if one of them differs from the format. Unless
  format upgrades are bypassed none does, so that the update is idempotent.
  */
  lemma UpdateTwice(stores: map<Asset, PairStore>, config: map<Asset, PairStore>, a: Asset, f: PairFormat,
                    bypass: bool, incoming: Pairs, force: bool, random: nat, again: nat)
    requires UpdateOutcome(stores, config, a, f, bypass, incoming, false, force, random).error == None
    ensures var u := UpdateOutcome(stores, config, a, f, bypass, incoming, false, force, random);
            var v := UpdateOutcome(u.stores, u.config, a, f, bypass, incoming, false, false, again);
            v.error == None &&
            (a in u.stores ==> a in v.stores && v.stores[a].available == u.stores[a].available) &&
            (v.stores == u.stores <==> a !in u.stores || !AnyFormatDifference(u.stores[a].enabled, f)) &&
            (!bypass ==> v.stores == u.stores)
  {
    UpdateShape(stores, config, a, f, bypass, incoming, force, random);
    var u := UpdateOutcome(stores, config, a, f, bypass, incoming, false, force, random);
    if a in u.stores {
      SecondUpdate(u, a, f, bypass, incoming, again);
    } else {
      assert Conformed(incoming, f, bypass) == [];
    }
  }

  /** An update whose incoming pairs the stores already follow. */
  lemma SecondUpdate(u: Update, a: Asset, f: PairFormat, bypass: bool, incoming: Pairs, again: nat)
    requires IsValid(a) && a in u.stores && ConformError(incoming) == None
    requires var conformed := Conformed(incoming, f, bypass);
             Sound(u.stores[a], conformed) && SettledList(u.stores[a].available, conformed, f)
    ensures var v := UpdateOutcome(u.stores, u.config, a, f, bypass, incoming, false, false, again);
            v.error == None && a in v.stores && v.stores[a].available == u.stores[a].available &&
            (v.stores == u.stores <==> !AnyFormatDifference(u.stores[a].enabled, f))
  {
    var conformed := Conformed(incoming, f, bypass);
    var available := u.stores[a].available;
    ConformedIsClean(incoming, f, bypass);
    FollowersDiffer(available, conformed, f);
    var d := DifferencesOutcome(available, conformed, f).value;
    var begin := Update(u.stores, u.config, None);
    var stored := if Changed(d) then StoreBoth(begin, a, conformed, false) else begin;
    assert stored.stores == u.stores;
    RepairFixedPoint(stored, a, conformed, f, again);
  }

  /**
  With format upgrades bypassed the second update can change the pairs: when no enabled pair q
  survives, the incoming pair p is enabled as it came, and the repetition reformats it.
  */
  lemma BypassedUpdateTwiceCanChange(p: Pair, q: Pair, f: PairFormat)
    requires p.HasFormatDifference(f) && p.Stripped() != q.Stripped() && !p.IsEmpty() && !q.IsEmpty()
    ensures var stores := map[1 := NEW_STORE.(enabled := [q], available := [q])];
            var u := UpdateOutcome(stores, stores, 1, f, true, [p], false, false, 0);
            u.error == None && u.stores[1].enabled == [p] &&
            UpdateOutcome(u.stores, u.config, 1, f, true, [p], false, false, 0).stores != u.stores
  {
    var stores := map[1 := NEW_STORE.(enabled := [q], available := [q])];
    var begin := Update(stores, stores, None);
    ConformMeans([p]);
    assert Conformed([p], f, true) == [p];
    NoErrorMeans([p]);
    var d := DifferencesOutcome([q], [p], f);
    assert d.Ok?;
    assert AnyFormatDifference([p], f) by {
      assert [p][0].HasFormatDifference(f);
    }
    var stored := StoreBoth(begin, 1, [p], false);
    assert stored.stores[1].available == [p] && stored.stores[1].enabled == [q];
    OnlyOther(p, q);
    assert [q][..0] == [];
    LowerStripped(q);
    assert Names([p]) == [p.Stripped()];
    assert Compacted([q], d.value.removed, [p], f) == [] + Kept(q, d.value.removed, [p], f);
    var u := UpdateOutcome(stores, stores, 1, f, true, [p], false, false, 0);
    assert u == StoreBoth(stored, 1, [p], true);
    UpdateTwice(stores, stores, 1, f, true, [p], false, 0, 0);
  }

  /** A pair of another name is not available, and is to be removed. */
  lemma OnlyOther(p: Pair, q: Pair)
    requires p.Stripped() != q.Stripped()
    ensures ContainsAllOutcome([p], [q], true) == Some(NotAvailable)
    ensures RemovedPairs([q], [p]) == [q] && Contains([q], q, true)
  {
    ContainsAllIsInclusion([p], [q], true);
    MatchKeysAreKeys([p]);
    MatchKeysAreKeys([q]);
    var have, want := MatchKeys([p], true), MatchKeys([q], true);
    assert want[0] == Ordered(q.Key()) && have == [Ordered(p.Key())];
    assert want[0] in multiset(want) && want[0] !in multiset(have);
    assert [q][..0] == [] && Keys([p]) == [p.Key()];
    assert Matches([q][0], q, true);
  }

  lemma NothingFollows(incoming: Pairs)
    ensures Follows([], incoming) ==> incoming == []
  {
    if incoming != [] {
      var k := Keys(incoming)[0];
      assert k in Keys(incoming) && k !in Keys([]);
    }
  }

  lemma ConformedIsClean(incoming: Pairs, f: PairFormat, bypass: bool)
    requires ConformError(incoming) == None
    ensures ConformError(Conformed(incoming, f, bypass)) == None
  {
    ConformedKeeps(incoming, f, bypass);
    ConformMeans(incoming);
    ConformMeans(Conformed(incoming, f, bypass));
  }

  // ----- symbols

  lemma PrintedName(p: Pair, f: PairFormat)
    ensures ToLower(p.Format(f).base.String() + p.Format(f).quote.String()) == p.Stripped()
  {
    var q := p.Format(f);
    LowerConcat(q.base.String(), q.quote.String());
    if p.base.item != null {
      CaseFolds(p.base.item.symbol);
    }
    if p.quote.item != null {
      CaseFolds(p.quote.item.symbol);
    }
  }

  lemma DelimiterGoes(base: string, d: char, quote: string)
    requires FirstPunct(base) == |base| && IsPunct(d)
    ensures WithoutPunct(base + [d] + quote) == base + quote
  {
    var s := base + [d] + quote;
    FirstPunctAfter(base, [d] + quote);
    assert s == base + ([d] + quote);
    assert s[..|base|] == base && s[|base| + 1..] == quote;
  }

  /**
  Matching undoes formatting: with distinct names, an available pair whose base has no punctuation is
  found again by its symbol in any format that has no delimiter, or a punctuation character for one.
  */
  lemma FormattedSymbolMatches(m: PairsManager, a: Asset, p: Pair, f: PairFormat)
    requires m.Valid() && m.matcher.Some? && a in m.pairs
    requires Distinct(Names(m.pairs[a].available)) && p in m.pairs[a].available && !p.IsEmpty()
    requires f.delimiter == "" || (|f.delimiter| == 1 && IsPunct(f.delimiter[0]) &&
                                   FirstPunct(p.Format(f).base.String()) == |p.Format(f).base.String()|)
    ensures var symbol := p.Format(f).String();
            m.MatchOutcome(if f.delimiter != "" then WithoutPunct(symbol) else symbol, a) == Ok(p)
  {
    var q := p.Format(f);
    var name := q.base.String() + q.quote.String();
    if f.delimiter == "" {
      assert q.String() == name;
    } else {
      DelimiterGoes(q.base.String(), f.delimiter[0], q.quote.String());
      assert [f.delimiter[0]] == f.delimiter;
    }
    PrintedName(p, f);
    LowerStripped(p);
    assert |name| == |p.Stripped()|;
    NamedIs(m.pairs[a].available, p);
    FirstIsLast(m.pairs[a].available, p.Stripped());
  }
}
