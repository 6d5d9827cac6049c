/** Differences between pair lists, lookup by symbol, and validation with formatting. */
module PairChanges {
  import opened Wrappers
  import opened Currency
  import opened Pairs

  function Keys(ps: Pairs): (r: seq<PairKey>)
    ensures |r| == |ps|
  {
    seq(|ps|, i requires 0 <= i < |ps| => ps[i].Key())
  }

  lemma KeysSnoc(ps: Pairs, p: Pair)
    ensures Keys(ps + [p]) == Keys(ps) + [p.Key()]
  {
  }

  lemma ContainsKey(ps: Pairs, p: Pair)
    ensures Contains(ps, p, true) <==> p.Key() in Keys(ps)
  {
    if Contains(ps, p, true) {
      var i :| 0 <= i < |ps| && Matches(ps[i], p, true);
      assert Keys(ps)[i] == p.Key();
    }
    if p.Key() in Keys(ps) {
      var i :| 0 <= i < |ps| && Keys(ps)[i] == p.Key();
      assert Matches(ps[i], p, true);
    }
  }

  predicate AnyFormatDifference(ps: Pairs, f: PairFormat) {
    exists i :: 0 <= i < |ps| && ps[i].HasFormatDifference(f)
  }

  /** No pair of a list differs from a format exactly when all are in it. */
  lemma AllInFormat(ps: Pairs, f: PairFormat)
    ensures AnyFormatDifference(ps, f) <==> exists p :: p in ps && !InFormat(p, f)
  {
    forall i | 0 <= i < |ps| ensures ps[i].HasFormatDifference(f) <==> !InFormat(ps[i], f) {
      DiffersIff(ps[i], f);
    }
  }

  // ----- FindDifferences

  datatype Difference = Difference(added: Pairs, removed: Pairs, formatDifference: bool)

  /** The first empty or repeated pair of a list, scanning from the front. */
  function IncomingError(ps: Pairs): Option<Error> {
    if ps == [] then None
    else
      var before := IncomingError(ps[..|ps| - 1]);
      var last := ps[|ps| - 1];
      if before.Some? then before
      else if last.IsEmpty() then Some(PairEmpty)
      else if last.Key() in Keys(ps[..|ps| - 1]) then Some(Duplication)
      else None
  }

  predicate AnyEmpty(ps: Pairs) {
    exists i :: 0 <= i < |ps| && ps[i].IsEmpty()
  }

  function AddedPairs(existing: Pairs, incoming: Pairs): Pairs {
    if incoming == [] then []
    else
      var last := incoming[|incoming| - 1];
      AddedPairs(existing, incoming[..|incoming| - 1]) + if last.Key() in Keys(existing) then [] else [last]
  }

  /** A pair goes when it is not incoming, or when it repeats an earlier one. */
  function RemovedPairs(existing: Pairs, incoming: Pairs): Pairs {
    if existing == [] then []
    else
      var front, last := existing[..|existing| - 1], existing[|existing| - 1];
      RemovedPairs(front, incoming) +
      if last.Key() !in Keys(incoming) || last.Key() in Keys(front) then [last] else []
  }

  function DifferencesOutcome(existing: Pairs, incoming: Pairs, f: PairFormat): Result<Difference, Error> {
    if IncomingError(incoming).Some? then Err(IncomingError(incoming).value)
    else if AnyEmpty(existing) then Err(PairEmpty)
    else Ok(Difference(AddedPairs(existing, incoming), RemovedPairs(existing, incoming),
                       AnyFormatDifference(incoming, f) || AnyFormatDifference(existing, f)))
  }

  lemma {:induction false} ErrorSticks(ps: Pairs, n: nat)
    requires n <= |ps| && IncomingError(ps[..n]).Some?
    ensures IncomingError(ps) == IncomingError(ps[..n])
    decreases |ps| - n
  {
    if n < |ps| {
      assert ps[..n + 1][..n] == ps[..n];
      ErrorSticks(ps, n + 1);
    } else {
      assert ps[..n] == ps;
    }
  }

  method FindDifferences(existing: Pairs, incoming: Pairs, f: PairFormat) returns (r: Result<Difference, Error>)
    ensures r == DifferencesOutcome(existing, incoming, f)
  {
    var newPairs: Pairs := [];
    var check: set<PairKey> := {};
    var formatDiff := false;
    for x := 0 to |incoming|
      invariant newPairs == AddedPairs(existing, incoming[..x])
      invariant forall k :: k in check <==> k in Keys(incoming[..x])
      invariant formatDiff == AnyFormatDifference(incoming[..x], f)
      invariant IncomingError(incoming[..x]) == None
    {
      Extend(incoming, x);
      FormatSnoc(incoming[..x], incoming[x], f);
      if incoming[x].IsEmpty() {
        ErrorSticks(incoming, x + 1);
        return Err(PairEmpty);
      }
      if !formatDiff {
        formatDiff := incoming[x].HasFormatDifference(f);
      }
      if incoming[x].Key() in check {
        ErrorSticks(incoming, x + 1);
        return Err(Duplication);
      }
      check := check + {incoming[x].Key()};
      var known := ContainsPair(existing, incoming[x], true);
      ContainsKey(existing, incoming[x]);
      if !known {
        newPairs := newPairs + [incoming[x]];
      }
    }
    assert incoming[..|incoming|] == incoming;
    var removedPairs: Pairs := [];
    check := {};
    for x := 0 to |existing|
      invariant removedPairs == RemovedPairs(existing[..x], incoming)
      invariant forall k :: k in check <==> k in Keys(existing[..x])
      invariant formatDiff == (AnyFormatDifference(incoming, f) || AnyFormatDifference(existing[..x], f))
      invariant !AnyEmpty(existing[..x])
    {
      Extend(existing, x);
      FormatSnoc(existing[..x], existing[x], f);
      if existing[x].IsEmpty() {
        return Err(PairEmpty);
      }
      if !formatDiff {
        formatDiff := existing[x].HasFormatDifference(f);
      }
      var kept := ContainsPair(incoming, existing[x], true);
      ContainsKey(incoming, existing[x]);
      if !kept || existing[x].Key() in check {
        removedPairs := removedPairs + [existing[x]];
      }
      check := check + {existing[x].Key()};
    }
    assert existing[..|existing|] == existing;
    return Ok(Difference(newPairs, removedPairs, formatDiff));
  }

  lemma Extend(ps: Pairs, x: nat)
    requires x < |ps|
    ensures ps[..x + 1] == ps[..x] + [ps[x]] && ps[..x + 1][..x] == ps[..x]
    ensures Keys(ps[..x + 1]) == Keys(ps[..x]) + [ps[x].Key()]
  {
  }

  lemma FormatSnoc(ps: Pairs, p: Pair, f: PairFormat)
    ensures AnyFormatDifference(ps + [p], f) <==> AnyFormatDifference(ps, f) || p.HasFormatDifference(f)
  {
    var all := ps + [p];
    if p.HasFormatDifference(f) {
      assert all[|ps|].HasFormatDifference(f);
    }
    if AnyFormatDifference(ps, f) {
      var i :| 0 <= i < |ps| && ps[i].HasFormatDifference(f);
      assert all[i].HasFormatDifference(f);
    }
  }

  /** A format difference is reported exactly when some pair of either list is not in the format. */
  lemma FormatDifferenceMeans(existing: Pairs, incoming: Pairs, f: PairFormat)
    requires DifferencesOutcome(existing, incoming, f).Ok?
    ensures DifferencesOutcome(existing, incoming, f).value.formatDifference <==>
            exists p :: (p in incoming || p in existing) && !InFormat(p, f)
  {
    AllInFormat(incoming, f);
    AllInFormat(existing, f);
  }

  function Count(ps: Pairs, k: PairKey): nat {
    multiset(Keys(ps))[k]
  }

  lemma CountPush(ps: Pairs, p: Pair, k: PairKey)
    ensures Count(ps + [p], k) == Count(ps, k) + if p.Key() == k then 1 else 0
  {
    KeysSnoc(ps, p);
  }

  lemma {:induction false} AddedCount(existing: Pairs, incoming: Pairs, k: PairKey)
    ensures Count(AddedPairs(existing, incoming), k) == if k in Keys(existing) then 0 else Count(incoming, k)
  {
    if incoming != [] {
      var front, last := incoming[..|incoming| - 1], incoming[|incoming| - 1];
      AddedCount(existing, front, k);
      CountPush(front, last, k);
      CountPush(AddedPairs(existing, front), last, k);
      assert incoming == front + [last];
      assert AddedPairs(existing, front) + [] == AddedPairs(existing, front);
    }
  }

  lemma {:induction false} RemovedCount(existing: Pairs, incoming: Pairs, k: PairKey)
    ensures Count(RemovedPairs(existing, incoming), k)
         == if k in Keys(incoming) && k in Keys(existing) then Count(existing, k) - 1 else Count(existing, k)
  {
    if existing != [] {
      var front, last := existing[..|existing| - 1], existing[|existing| - 1];
      RemovedCount(front, incoming, k);
      CountPush(front, last, k);
      KeysSnoc(front, last);
      CountPush(RemovedPairs(front, incoming), last, k);
      assert existing == front + [last];
      assert RemovedPairs(front, incoming) + [] == RemovedPairs(front, incoming);
    }
  }

  lemma AnyEmptySnoc(ps: Pairs, p: Pair)
    ensures AnyEmpty(ps + [p]) <==> AnyEmpty(ps) || p.IsEmpty()
  {
    var all := ps + [p];
    if p.IsEmpty() {
      assert all[|ps|].IsEmpty();
    }
    if AnyEmpty(ps) {
      var i :| 0 <= i < |ps| && ps[i].IsEmpty();
      assert all[i].IsEmpty();
    }
  }

  lemma DistinctSnoc<T>(s: seq<T>, x: T)
    ensures Distinct(s + [x]) <==> Distinct(s) && x !in s
  {
    var all := s + [x];
    assert forall i :: 0 <= i < |s| ==> all[i] == s[i];
    assert all[|s|] == x;
  }

  lemma {:induction false} NoErrorMeans(ps: Pairs)
    ensures IncomingError(ps) == None <==> !AnyEmpty(ps) && Distinct(Keys(ps))
  {
    if ps != [] {
      var front, last := ps[..|ps| - 1], ps[|ps| - 1];
      NoErrorMeans(front);
      Extend(ps, |ps| - 1);
      assert ps[..|ps|] == ps;
      AnyEmptySnoc(front, last);
      DistinctSnoc(Keys(front), last.Key());
    }
  }

  lemma KeyConserved(existing: Pairs, incoming: Pairs, k: PairKey)
    requires Distinct(Keys(incoming))
    ensures Count(existing, k) + Count(AddedPairs(existing, incoming), k)
         == Count(RemovedPairs(existing, incoming), k) + Count(incoming, k)
  {
    AddedCount(existing, incoming, k);
    RemovedCount(existing, incoming, k);
    DistinctCount(Keys(incoming), k);
  }

  lemma SameSums(a: multiset<PairKey>, b: multiset<PairKey>, c: multiset<PairKey>, d: multiset<PairKey>)
    requires forall k :: a[k] + b[k] == c[k] + d[k]
    ensures a + b == c + d
  {
    assert forall k :: (a + b)[k] == a[k] + b[k];
  }

  /** The keys of the old list and of the added pairs are those of the removed pairs and the incoming list. */
  lemma DifferencesConserve(existing: Pairs, incoming: Pairs, f: PairFormat)
    requires DifferencesOutcome(existing, incoming, f).Ok?
    ensures var d := DifferencesOutcome(existing, incoming, f).value;
            multiset(Keys(existing)) + multiset(Keys(d.added)) == multiset(Keys(d.removed)) + multiset(Keys(incoming))
  {
    var d := DifferencesOutcome(existing, incoming, f).value;
    NoErrorMeans(incoming);
    var a, b := multiset(Keys(existing)), multiset(Keys(d.added));
    var removed, kept := multiset(Keys(d.removed)), multiset(Keys(incoming));
    forall k: PairKey ensures a[k] + b[k] == removed[k] + kept[k] {
      KeyConserved(existing, incoming, k);
    }
    SameSums(a, b, removed, kept);
  }

  lemma {:induction false} DistinctCount<T>(s: seq<T>, x: T)
    requires Distinct(s)
    ensures multiset(s)[x] == if x in s then 1 else 0
  {
    if s != [] {
      DistinctCount(s[1..], x);
      assert s == [s[0]] + s[1..];
      assert multiset(s) == multiset{s[0]} + multiset(s[1..]);
    }
  }

  /** The pairs added are, as they came, the incoming ones whose currencies are new. */
  lemma {:induction false} AddedMembers(existing: Pairs, incoming: Pairs)
    ensures forall p :: p in AddedPairs(existing, incoming) <==> p in incoming && p.Key() !in Keys(existing)
  {
    if incoming != [] {
      var front, last := incoming[..|incoming| - 1], incoming[|incoming| - 1];
      AddedMembers(existing, front);
      assert incoming == front + [last];
    }
  }

  /** The pairs removed are existing ones, among them all whose currencies are not incoming. */
  lemma {:induction false} RemovedMembers(existing: Pairs, incoming: Pairs)
    ensures forall p :: p in RemovedPairs(existing, incoming) ==> p in existing
    ensures forall p :: p in existing && p.Key() !in Keys(incoming) ==> p in RemovedPairs(existing, incoming)
  {
    if existing != [] {
      var front, last := existing[..|existing| - 1], existing[|existing| - 1];
      RemovedMembers(front, incoming);
      assert existing == front + [last];
    }
  }

  /** The error is for the first pair that is empty or repeats one before it, and says which of the two. */
  lemma {:induction false} IncomingErrorMeans(ps: Pairs)
    ensures IncomingError(ps).Some? ==>
              exists n :: 0 <= n < |ps| && IncomingError(ps[..n]) == None &&
                IncomingError(ps) == Some(if ps[n].IsEmpty() then PairEmpty else Duplication) &&
                (ps[n].IsEmpty() || ps[n].Key() in Keys(ps[..n]))
  {
    if ps != [] {
      var m := |ps| - 1;
      if IncomingError(ps[..m]).Some? {
        IncomingErrorMeans(ps[..m]);
        var n :| 0 <= n < m && IncomingError(ps[..m][..n]) == None &&
                 IncomingError(ps[..m]) == Some(if ps[..m][n].IsEmpty() then PairEmpty else Duplication) &&
                 (ps[..m][n].IsEmpty() || ps[..m][n].Key() in Keys(ps[..m][..n]));
        assert ps[..m][..n] == ps[..n] && ps[..m][n] == ps[n];
      }
    }
  }

  /** Lists are compared unless a pair of either is empty or the incoming list repeats one. */
  lemma ComparesIff(existing: Pairs, incoming: Pairs, f: PairFormat)
    ensures DifferencesOutcome(existing, incoming, f).Ok? <==>
            !AnyEmpty(existing) && !AnyEmpty(incoming) && Distinct(Keys(incoming))
    ensures IncomingError(incoming) == None && AnyEmpty(existing) ==> DifferencesOutcome(existing, incoming, f) == Err(PairEmpty)
    ensures IncomingError(incoming).Some? ==> DifferencesOutcome(existing, incoming, f) == Err(IncomingError(incoming).value)
  {
    NoErrorMeans(incoming);
  }
}
