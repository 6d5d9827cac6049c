/** The update of an exchange's pair lists, which compacts and repairs the enabled pairs in place. */
module UpdatePairs {
  import opened Wrappers
  import opened Currency
  import opened Pairs
  import opened PairChanges
  import opened PairLookup
  import opened PairsManager
  import opened PairParsing

  // ----- the compaction

  /** What becomes of an enabled pair that is the first with its name. */
  function Kept(p: Pair, removed: Pairs, incoming: Pairs, f: PairFormat): Pairs {
    if !Contains(removed, p, true) then [p.Format(f)]
    else
      match DeriveOutcome(incoming, p.Stripped())
      case Err(_) => []
      case Ok(m) => [m.Format(f)]
  }

  function Compacted(enabled: Pairs, removed: Pairs, incoming: Pairs, f: PairFormat): Pairs {
    if enabled == [] then []
    else
      var front, last := enabled[..|enabled| - 1], enabled[|enabled| - 1];
      Compacted(front, removed, incoming, f) +
      if last.Stripped() in Names(front) then [] else Kept(last, removed, incoming, f)
  }

  /** The reference: names without repetitions, in order, as far as they are allowed. */
  function Survivors(names: seq<string>, allowed: seq<string>): seq<string> {
    if names == [] then []
    else
      var front, last := names[..|names| - 1], names[|names| - 1];
      Survivors(front, allowed) + if last in front || last !in allowed then [] else [last]
  }

  /** The two sets agree on every pair of the list whose name has not been seen. */
  ghost predicate AgreeOnUnseen(before: Pairs, remove: Pairs, removed: Pairs, seen: set<string>) {
    forall j :: 0 <= j < |before| && before[j].Stripped() !in seen ==>
      Contains(remove, before[j], true) == Contains(removed, before[j], true)
  }

  /** Handles one pair: what to write, if anything, and the changed set of removed pairs. */
  method CompactOne(p: Pair, seen: set<string>, incoming: Pairs, remove: Pairs, f: PairFormat, ghost before: Pairs)
    returns (out: Pairs, remove': Pairs)
    ensures out == if p.Stripped() in seen then [] else Kept(p, remove, incoming, f)
    ensures AgreeOnUnseen(before, remove', remove, seen + {p.Stripped()})
  {
    FormatKeeps(p, f);
    var pairNoFmt := p.Format(EMPTY_FORMAT).String();
    if pairNoFmt in seen {
      remove' := Add(remove, [p]);
      RemoveUnseen(before, remove, remove', p, seen);
      return [], remove';
    }
    var gone := ContainsPair(remove, p, true);
    if !gone {
      return [p.Format(f)], remove;
    }
    var derived := DeriveFrom(incoming, pairNoFmt);
    if derived.Err? {
      return [], remove;
    }
    remove' := Remove(remove, [p]);
    RemoveSeen(before, remove, remove', p);
    return [derived.value.Format(f)], remove';
  }

  lemma KeptOnlyAsksContains(p: Pair, remove: Pairs, removed: Pairs, incoming: Pairs, f: PairFormat)
    requires Contains(remove, p, true) == Contains(removed, p, true)
    ensures Kept(p, remove, incoming, f) == Kept(p, removed, incoming, f)
    ensures |Kept(p, remove, incoming, f)| <= 1
  {
  }

  lemma CompactedStep(before: Pairs, x: nat, seen: set<string>, remove: Pairs, removed: Pairs, incoming: Pairs, f: PairFormat)
    requires x < |before| && AgreeOnUnseen(before, remove, removed, seen)
    requires forall n :: n in seen <==> n in Names(before[..x])
    ensures var out := if before[x].Stripped() in seen then [] else Kept(before[x], remove, incoming, f);
            |out| <= 1 &&
            Compacted(before[..x + 1], removed, incoming, f) == Compacted(before[..x], removed, incoming, f) + out
    ensures Names(before[..x + 1]) == Names(before[..x]) + [before[x].Stripped()]
  {
    Extend(before, x);
    if before[x].Stripped() !in seen {
      KeptOnlyAsksContains(before[x], remove, removed, incoming, f);
    }
  }

  /**
  Compacts in place. The set of removed pairs changes on the way, but never for a pair whose name
  has not been seen, so the outcome is decided by the set as it was.
  */
  method Compact(a: array<Pair>, incoming: Pairs, removed: Pairs, f: PairFormat) returns (target: nat)
    modifies a
    ensures target <= a.Length && a[..target] == Compacted(old(a[..]), removed, incoming, f)
  {
    ghost var before := a[..];
    target := 0;
    var remove := removed;
    var check: set<string> := {};
    for x := 0 to a.Length
      invariant target <= x
      invariant a[..target] == Compacted(before[..x], removed, incoming, f)
      invariant forall j :: x <= j < a.Length ==> a[j] == before[j]
      invariant forall n :: n in check <==> n in Names(before[..x])
      invariant AgreeOnUnseen(before, remove, removed, check)
    {
      var p := a[x];
      CompactedStep(before, x, check, remove, removed, incoming, f);
      var out;
      out, remove := CompactOne(p, check, incoming, remove, f, before);
      check := check + {p.Stripped()};
      if |out| > 0 {
        ghost var done := a[..target];
        a[target] := out[0];
        target := target + 1;
        assert a[..target] == done + out;
      }
    }
    assert before[..|before|] == before;
  }

  lemma RemoveUnseen(before: Pairs, remove: Pairs, more: Pairs, p: Pair, check: set<string>)
    requires more == AddAll(remove, [p]) && p.Stripped() in check
    ensures forall j :: 0 <= j < |before| && before[j].Stripped() !in check ==>
              Contains(more, before[j], true) == Contains(remove, before[j], true)
  {
    forall j | 0 <= j < |before| && before[j].Stripped() !in check
      ensures Contains(more, before[j], true) == Contains(remove, before[j], true)
    {
      AddAllContains(remove, [p], before[j]);
      NotThatPair(p, before[j]);
    }
  }

  lemma RemoveSeen(before: Pairs, remove: Pairs, fewer: Pairs, p: Pair)
    requires fewer == Without(remove, [p])
    ensures forall j :: 0 <= j < |before| && before[j].Stripped() != p.Stripped() ==>
              Contains(fewer, before[j], true) == Contains(remove, before[j], true)
  {
    forall j | 0 <= j < |before| && before[j].Stripped() != p.Stripped()
      ensures Contains(fewer, before[j], true) == Contains(remove, before[j], true)
    {
      WithoutContains(remove, [p], before[j]);
      NotThatPair(p, before[j]);
    }
  }

  lemma NotThatPair(p: Pair, q: Pair)
    ensures Contains([p], q, true) ==> p.Stripped() == q.Stripped()
  {
    if Contains([p], q, true) {
      var i :| 0 <= i < |[p]| && Matches([p][i], q, true);
      NameOfKey(p, q);
    }
  }

  // ----- what the compaction computes

  lemma NamedIs(ps: Pairs, p: Pair)
    requires Distinct(Names(ps)) && p in ps
    ensures FirstNamed(ps, p.Stripped()) == Some(p)
  {
    var q := FirstNamed(ps, p.Stripped());
    var i :| 0 <= i < |ps| && ps[i] == p;
    assert Names(ps)[i] == p.Stripped();
    var j :| 0 <= j < |ps| && ps[j] == q.value;
    assert Names(ps)[j] == p.Stripped();
  }

  lemma KeyInList(ps: Pairs, k: PairKey) returns (q: Pair)
    requires k in Keys(ps)
    ensures q in ps && q.Key() == k
  {
    var i :| 0 <= i < |ps| && Keys(ps)[i] == k;
    q := ps[i];
  }

  /** A list can only lose pairs that are not incoming or that it repeats. */
  lemma {:induction false} KeptWhenIncoming(existing: Pairs, incoming: Pairs, p: Pair)
    requires !Contains(RemovedPairs(existing, incoming), p, true) && Contains(existing, p, true)
    ensures p.Key() in Keys(incoming)
  {
    if existing != [] {
      var front, last := existing[..|existing| - 1], existing[|existing| - 1];
      assert existing == front + [last];
      ContainsSnoc(front, last, p);
      ContainsSnoc(RemovedPairs(front, incoming), last, p);
      assert RemovedPairs(front, incoming) + [] == RemovedPairs(front, incoming);
      if Contains(front, p, true) {
        KeptWhenIncoming(front, incoming, p);
      }
    }
  }

  /** The pair written for a name is the incoming pair of that name, and nothing is written without one. */
  lemma KeptMeans(existing: Pairs, incoming: Pairs, f: PairFormat, p: Pair)
    requires p in existing && !p.IsEmpty() && Distinct(Names(incoming))
    ensures var out := Kept(p, RemovedPairs(existing, incoming), incoming, f);
            if p.Stripped() in Names(incoming)
            then |out| == 1 && out[0].Stripped() == p.Stripped() && out[0].Key() in Keys(incoming) &&
                 !out[0].HasFormatDifference(f)
            else out == []
  {
    FormatKeeps(p, f);
    CaseFolds(p.base.String());
    LowerStripped(p);
    if !Contains(RemovedPairs(existing, incoming), p, true) {
      var i :| 0 <= i < |existing| && existing[i] == p;
      assert Matches(existing[i], p, true);
      KeptWhenIncoming(existing, incoming, p);
      var q := KeyInList(incoming, p.Key());
      NameOfKey(p, q);
      NamedIs(incoming, q);
    } else if p.Stripped() in Names(incoming) {
      var m := FirstNamed(incoming, p.Stripped()).value;
      FormatKeeps(m, f);
      var i :| 0 <= i < |incoming| && incoming[i] == m;
      assert Keys(incoming)[i] == m.Key();
      assert m.Format(f).Key() == m.Key();
    }
  }

  lemma LowerStripped(p: Pair)
    ensures ToLower(p.Stripped()) == p.Stripped()
    ensures !p.IsEmpty() ==> p.Stripped() != ""
  {
    if p.base.item != null {
      CaseFolds(p.base.item.symbol);
    }
    if p.quote.item != null {
      CaseFolds(p.quote.item.symbol);
    }
    LowerConcat(p.base.Name(), p.quote.Name());
  }

  /**
  The compaction resolves each distinct name of the enabled pairs against the incoming ones: what
  survives, in order, is exactly the names that some incoming pair has, each with that pair's
  currencies and in the required format.
  */
  lemma {:induction false} CompactedMeans(enabled: Pairs, all: Pairs, incoming: Pairs, f: PairFormat)
    requires enabled <= all && !AnyEmpty(all) && Distinct(Names(incoming))
    ensures var r := Compacted(enabled, RemovedPairs(all, incoming), incoming, f);
            Names(r) == Survivors(Names(enabled), Names(incoming)) && !AnyFormatDifference(r, f) &&
            forall p :: p in r ==> p.Key() in Keys(incoming)
  {
    if enabled != [] {
      var front, last := enabled[..|enabled| - 1], enabled[|enabled| - 1];
      CompactedMeans(front, all, incoming, f);
      assert last == all[|enabled| - 1];
      KeptMeans(all, incoming, f, last);
      var r := Compacted(front, RemovedPairs(all, incoming), incoming, f);
      assert Names(enabled)[..|enabled| - 1] == Names(front);
      var out := if last.Stripped() in Names(front) then [] else Kept(last, RemovedPairs(all, incoming), incoming, f);
      AppendOut(r, out, incoming, f);
    }
  }

  lemma AppendOut(r: Pairs, out: Pairs, incoming: Pairs, f: PairFormat)
    requires |out| <= 1 && !AnyFormatDifference(r, f)
    requires forall p :: p in r ==> p.Key() in Keys(incoming)
    requires out != [] ==> !out[0].HasFormatDifference(f) && out[0].Key() in Keys(incoming)
    ensures Names(r + out) == Names(r) + Names(out) && !AnyFormatDifference(r + out, f)
    ensures forall p :: p in r + out ==> p.Key() in Keys(incoming)
  {
    if out != [] {
      FormatSnoc(r, out[0], f);
      assert out == [out[0]];
    } else {
      assert r + out == r;
    }
  }

  lemma {:induction false} SurvivorsDistinct(names: seq<string>, allowed: seq<string>)
    ensures Distinct(Survivors(names, allowed))
    ensures forall n :: n in Survivors(names, allowed) <==> n in names && n in allowed
  {
    if names != [] {
      var front, last := names[..|names| - 1], names[|names| - 1];
      SurvivorsDistinct(front, allowed);
      assert names == front + [last];
    }
  }

  // ----- the update

  datatype Update = Update(stores: map<Asset, PairStore>, config: map<Asset, PairStore>, error: Option<Error>)

  function StoreBoth(u: Update, a: Asset, list: Pairs, enabled: bool): Update {
    u.(stores := StoredPairs(u.stores, a, list, enabled), config := StoredPairs(u.config, a, list, enabled))
  }

  predicate Changed(d: Difference) {
    d.added != [] || d.removed != [] || d.formatDifference
  }

  /** The pairs to enable after the available pairs have been set; random picks one when none survives. */
  function Repaired(enabled: Pairs, removed: Pairs, incoming: Pairs, f: PairFormat, random: nat): Pairs {
    var r := Compacted(enabled, removed, incoming, f);
    if r == [] && incoming != [] then [incoming[random % |incoming|]] else r
  }

  /** The second half of an update of the available pairs: the enabled pairs follow. */
  function RepairOutcome(u: Update, a: Asset, incoming: Pairs, f: PairFormat, random: nat): Update {
    var (enabled, error) := GetPairsOutcome(u.stores, a, true);
    if error.Some? && error.value != NotAvailable && error.value != Duplication then u.(error := error)
    else if error.None? && !AnyFormatDifference(enabled, f) then u
    else
      match DifferencesOutcome(enabled, incoming, f)
      case Err(e) => u.(error := Some(e))
      case Ok(d) => StoreBoth(u, a, Repaired(enabled, d.removed, incoming, f, random), true)
  }

  function UpdateOutcome(stores: map<Asset, PairStore>, config: map<Asset, PairStore>, a: Asset, f: PairFormat,
                         bypass: bool, incoming: Pairs, enabled: bool, force: bool, random: nat): Update
  {
    var begin := Update(stores, config, None);
    match ConformOutcome(incoming, f, bypass)
    case Err(e) => begin.(error := Some(e))
    case Ok(conformed) =>
      var (existing, error) := GetPairsOutcome(stores, a, enabled);
      if error.Some? then begin.(error := error)
      else
        match DifferencesOutcome(existing, conformed, f)
        case Err(e) => begin.(error := Some(e))
        case Ok(d) =>
          var stored := if force || Changed(d) then StoreBoth(begin, a, conformed, enabled) else begin;
          if enabled then stored else RepairOutcome(stored, a, conformed, f, random)
  }

  function WithoutPunct(symbol: string): string {
    var x := FirstPunct(symbol);
    if x < |symbol| then symbol[..x] + symbol[x + 1..] else symbol
  }

  class Base {
    const live: PairsManager
    const config: PairsManager
    var bypassConfigFormatUpgrades: bool

    constructor (live: PairsManager, config: PairsManager)
      ensures this.live == live && this.config == config
    {
      this.live, this.config := live, config;
      bypassConfigFormatUpgrades := false;
    }

    ghost predicate Valid()
      reads this, live, config
    {
      live != config && live.Valid() && config.Valid()
    }

    /** Prints a pair in the request format, or as it is when there is no format. */
    method FormatSymbol(p: Pair, a: Asset) returns (symbol: string, r: Option<Error>)
      ensures var f := live.FormatOutcome(a, true);
              (symbol, r) == if f.Ok? then (p.Format(f.value).String(), None) else (p.String(), Some(f.error))
    {
      var f := live.GetFormat(a, true);
      if f.Err? {
        return p.String(), Some(f.error);
      }
      return p.Format(f.value).String(), None;
    }

    /** Finds the available pair a symbol names, leaving out its first punctuation character if it has a delimiter. */
    method MatchSymbolWithAvailablePairs(symbol: string, a: Asset, hasDelimiter: bool) returns (r: Result<Pair, Error>)
      requires Valid()
      ensures r == live.MatchOutcome(if hasDelimiter then WithoutPunct(symbol) else symbol, a)
    {
      var name := symbol;
      if hasDelimiter {
        var x := FindPunct(symbol);
        if x < |symbol| {
          name := symbol[..x] + symbol[x + 1..];
        }
      }
      r := live.Match(name, a);
    }

    method StoreInBoth(a: Asset, list: Pairs, enabled: bool) returns (r: Option<Error>)
      requires Valid() && IsValid(a)
      modifies live, config
      ensures Valid() && r == None
      ensures live.pairs == StoredPairs(old(live.pairs), a, list, enabled)
      ensures config.pairs == StoredPairs(old(config.pairs), a, list, enabled)
    {
      r := config.StorePairs(a, list, enabled);
      r := live.StorePairs(a, list, enabled);
    }

    method UpdatePairs(incoming: Pairs, a: Asset, enabled: bool, force: bool, random: nat) returns (r: Option<Error>)
      requires Valid()
      modifies live, config
      ensures Valid()
      ensures old(live.FormatOutcome(a, false)).Err? ==>
                r == Some(old(live.FormatOutcome(a, false)).error) && live.pairs == old(live.pairs) &&
                config.pairs == old(config.pairs)
      ensures old(live.FormatOutcome(a, false)).Ok? ==>
                Update(live.pairs, config.pairs, r) ==
                UpdateOutcome(old(live.pairs), old(config.pairs), a, old(live.FormatOutcome(a, false)).value,
                              bypassConfigFormatUpgrades, incoming, enabled, force, random)
    {
      var f := live.GetFormat(a, false);
      if f.Err? {
        return Some(f.error);
      }
      var conformed := ValidateAndConform(incoming, f.value, bypassConfigFormatUpgrades);
      if conformed.Err? {
        return Some(conformed.error);
      }
      var oldPairs, error := live.GetPairs(a, enabled);
      if error.Some? {
        return error;
      }
      var diff := FindDifferences(oldPairs, conformed.value, f.value);
      if diff.Err? {
        return Some(diff.error);
      }
      if force || |diff.value.added| != 0 || |diff.value.removed| != 0 || diff.value.formatDifference {
        r := StoreInBoth(a, conformed.value, enabled);
      }
      if enabled {
        return None;
      }
      r := RepairEnabled(conformed.value, a, f.value, random);
    }

    method RepairEnabled(incoming: Pairs, a: Asset, f: PairFormat, random: nat) returns (r: Option<Error>)
      requires Valid() && IsValid(a)
      modifies live, config
      ensures Valid()
      ensures Update(live.pairs, config.pairs, r)
           == RepairOutcome(Update(old(live.pairs), old(config.pairs), None), a, incoming, f, random)
    {
      var enabledPairs, error := live.GetPairs(a, true);
      if error.Some? && error.value != NotAvailable && error.value != Duplication {
        return error;
      }
      var formatDiff := HasFormatDifference(enabledPairs, f);
      if error.None? && !formatDiff {
        return None;
      }
      var diff := FindDifferences(enabledPairs, incoming, f);
      if diff.Err? {
        return Some(diff.error);
      }
      enabledPairs := Repair(enabledPairs, diff.value.removed, incoming, f, random);
      r := StoreInBoth(a, enabledPairs, true);
    }
  }

  method Repair(enabled: Pairs, removed: Pairs, incoming: Pairs, f: PairFormat, random: nat) returns (list: Pairs)
    ensures list == Repaired(enabled, removed, incoming, f, random)
  {
    var a := new Pair[|enabled|](i requires 0 <= i < |enabled| => enabled[i]);
    assert a[..] == enabled;
    var target := Compact(a, incoming, removed, f);
    list := a[..target];
    if |list| == 0 && |incoming| > 0 {
      list := [incoming[random % |incoming|]];
    }
  }

  method HasFormatDifference(ps: Pairs, f: PairFormat) returns (r: bool)
    ensures r == AnyFormatDifference(ps, f)
  {
    for i := 0 to |ps|
      invariant !AnyFormatDifference(ps[..i], f)
    {
      if ps[i].HasFormatDifference(f) {
        return true;
      }
      Extend(ps, i);
      FormatSnoc(ps[..i], ps[i], f);
    }
    assert ps[..|ps|] == ps;
    return false;
  }
}
