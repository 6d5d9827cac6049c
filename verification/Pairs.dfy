/** Lists of currency pairs: inclusion, differences, lookup by symbol and validation. */
module Pairs {
  import opened Wrappers
  import opened Currency

  type Pairs = seq<Pair>

  datatype Error =
    | NoPairs
    | PairEmpty
    | Duplication
    | NotAvailable
    | SymbolEmpty
    | NotFound
    | AssetNotSupported
    | AssetNotFound
    | StoreIsNil
    | MatcherIsNil
    | FormatIsNil
    | NotInitialised
    | AlreadyEnabled

  predicate Matches(p: Pair, q: Pair, exact: bool) {
    if exact then p.Equal(q) else p.EqualIncludeReciprocal(q)
  }

  predicate Contains(ps: Pairs, check: Pair, exact: bool) {
    exists i :: 0 <= i < |ps| && Matches(ps[i], check, exact)
  }

  method ContainsPair(ps: Pairs, check: Pair, exact: bool) returns (found: bool)
    ensures found == Contains(ps, check, exact)
  {
    for i := 0 to |ps|
      invariant forall j :: 0 <= j < i ==> !Matches(ps[j], check, exact)
    {
      if (exact && ps[i].Equal(check)) || (!exact && ps[i].EqualIncludeReciprocal(check)) {
        assert Matches(ps[i], check, exact);
        return true;
      }
    }
    return false;
  }

  // ----- ContainsAll is inclusion of multisets

  /** Two pairs match exactly when these keys are equal: ordered, or unordered when the reciprocal counts. */
  datatype MatchKey = Ordered(key: PairKey) | Unordered(items: multiset<Item?>)

  function MatchKeyOf(p: Pair, exact: bool): MatchKey {
    if exact then Ordered(p.Key()) else Unordered(multiset{p.base.item, p.quote.item})
  }

  lemma MatchIsKeyEquality(p: Pair, q: Pair, exact: bool)
    ensures Matches(p, q, exact) <==> MatchKeyOf(p, exact) == MatchKeyOf(q, exact)
  {
    var a, b := multiset{p.base.item, p.quote.item}, multiset{q.base.item, q.quote.item};
    if !exact && a == b {
      assert p.base.item in b && p.quote.item in b;
      assert a[p.base.item] == b[p.base.item];
    }
  }

  function MatchKeys(ps: Pairs, exact: bool): (r: seq<MatchKey>)
    ensures |r| == |ps|
  {
    seq(|ps|, i requires 0 <= i < |ps| => MatchKeyOf(ps[i], exact))
  }

  /** How many of the keys can be taken out of the multiset one after the other. */
  function Taken(have: multiset<MatchKey>, check: seq<MatchKey>): (n: nat)
    ensures n <= |check|
  {
    if check == [] || check[0] !in have then 0 else 1 + Taken(have - multiset{check[0]}, check[1..])
  }

  lemma {:induction false} TakenMeans(have: multiset<MatchKey>, check: seq<MatchKey>)
    ensures var n := Taken(have, check);
            multiset(check[..n]) <= have && (n < |check| ==> !(multiset(check[..n + 1]) <= have))
  {
    var n := Taken(have, check);
    if check == [] {
    } else if check[0] !in have {
      assert check[..n + 1] == [check[0]];
      assert check[0] in multiset(check[..n + 1]);
    } else {
      var rest := have - multiset{check[0]};
      TakenMeans(rest, check[1..]);
      FirstOff(check, n, have);
      if n < |check| {
        FirstOff(check, n + 1, have);
      }
    }
  }

  lemma FirstOff(check: seq<MatchKey>, n: nat, have: multiset<MatchKey>)
    requires 1 <= n <= |check| && check[0] in have
    ensures multiset(check[..n]) <= have <==> multiset(check[1..][..n - 1]) <= have - multiset{check[0]}
  {
    assert check[..n] == [check[0]] + check[1..][..n - 1];
    assert multiset(check[..n]) == multiset{check[0]} + multiset(check[1..][..n - 1]);
  }

  function ContainsAllOutcome(ps: Pairs, check: Pairs, exact: bool): Option<Error> {
    var n := Taken(multiset(MatchKeys(ps, exact)), MatchKeys(check, exact));
    if check == [] then Some(NoPairs)
    else if n == |check| then None
    else if Contains(ps, check[n], exact) then Some(Duplication)
    else Some(NotAvailable)
  }

  /** The first pair of the list that matches. */
  method FindMatch(ps: Pairs, check: Pair, exact: bool) returns (y: Option<nat>)
    ensures y.Some? ==> y.value < |ps| && Matches(check, ps[y.value], exact)
    ensures y.None? ==> MatchKeyOf(check, exact) !in multiset(MatchKeys(ps, exact))
  {
    for j := 0 to |ps|
      invariant forall k :: 0 <= k < j ==> !Matches(check, ps[k], exact)
    {
      if (exact && check.Equal(ps[j])) || (!exact && check.EqualIncludeReciprocal(ps[j])) {
        return Some(j);
      }
    }
    NothingMatches(ps, check, exact);
    return None;
  }

  /** Crosses matched pairs off a copy of the list, the last pair filling each gap. */
  method ContainsAll(ps: Pairs, check: Pairs, exact: bool) returns (r: Option<Error>)
    ensures r == ContainsAllOutcome(ps, check, exact)
  {
    if |check| == 0 {
      return Some(NoPairs);
    }
    ghost var have, want := multiset(MatchKeys(ps, exact)), MatchKeys(check, exact);
    ghost var left := have;
    var comparative := ps;
    for x := 0 to |check|
      invariant multiset(MatchKeys(comparative, exact)) == left
      invariant Taken(have, want) == x + Taken(left, want[x..])
    {
      TakeOne(left, want, x);
      assert want[x] == MatchKeyOf(check[x], exact);
      var y := FindMatch(comparative, check[x], exact);
      if y.None? {
        assert Taken(have, want) == x;
        var duplicate := ContainsPair(ps, check[x], exact);
        return Some(if duplicate then Duplication else NotAvailable);
      }
      CrossOff(comparative, y.value, check[x], exact);
      comparative := SwapRemove(comparative, y.value);
      left := left - multiset{want[x]};
    }
    assert want[|check|..] == [];
    return None;
  }

  lemma TakeOne(left: multiset<MatchKey>, want: seq<MatchKey>, x: nat)
    requires x < |want|
    ensures Taken(left, want[x..]) == if want[x] in left then 1 + Taken(left - multiset{want[x]}, want[x + 1..]) else 0
  {
    assert want[x..][0] == want[x] && want[x..][1..] == want[x + 1..];
  }

  lemma CrossOff(ps: Pairs, y: nat, check: Pair, exact: bool)
    requires y < |ps| && Matches(check, ps[y], exact)
    ensures var keys := multiset(MatchKeys(ps, exact));
            MatchKeyOf(check, exact) in keys &&
            multiset(MatchKeys(SwapRemove(ps, y), exact)) == keys - multiset{MatchKeyOf(check, exact)}
  {
    MatchIsKeyEquality(check, ps[y], exact);
    var keys := MatchKeys(ps, exact);
    assert keys[y] == MatchKeyOf(check, exact);
    SwapRemoveMultiset(keys, y);
    assert MatchKeys(SwapRemove(ps, y), exact) == SwapRemove(keys, y);
  }

  lemma NothingMatches(ps: Pairs, check: Pair, exact: bool)
    requires forall j :: 0 <= j < |ps| ==> !Matches(check, ps[j], exact)
    ensures MatchKeyOf(check, exact) !in multiset(MatchKeys(ps, exact))
  {
    forall j | 0 <= j < |ps| ensures MatchKeys(ps, exact)[j] != MatchKeyOf(check, exact) {
      MatchIsKeyEquality(check, ps[j], exact);
    }
  }

  lemma ContainsIsKey(ps: Pairs, check: Pair, exact: bool)
    ensures Contains(ps, check, exact) <==> MatchKeyOf(check, exact) in MatchKeys(ps, exact)
  {
    forall j | 0 <= j < |ps|
      ensures Matches(ps[j], check, exact) <==> MatchKeys(ps, exact)[j] == MatchKeyOf(check, exact)
    {
      MatchIsKeyEquality(ps[j], check, exact);
    }
  }

  /**
  ContainsAll succeeds exactly when the checked list is non-empty and included, as a multiset modulo
  the chosen equality; otherwise it blames the first pair that exceeds the list, for duplication
  exactly when the pair does occur in it.
  */
  lemma ContainsAllIsInclusion(ps: Pairs, check: Pairs, exact: bool)
    ensures var have, want := MatchKeys(ps, exact), MatchKeys(check, exact);
            var r := ContainsAllOutcome(ps, check, exact);
            (r == None <==> check != [] && multiset(want) <= multiset(have)) &&
            (r == Some(NoPairs) <==> check == []) &&
            (r.Some? && check != [] ==>
               exists n :: 0 <= n < |check| && multiset(want[..n]) <= multiset(have) &&
                           !(multiset(want[..n + 1]) <= multiset(have)) &&
                           (r == Some(Duplication) <==> want[n] in have) &&
                           (r == Some(NotAvailable) <==> want[n] !in have))
  {
    var have, want := MatchKeys(ps, exact), MatchKeys(check, exact);
    var n := Taken(multiset(have), want);
    TakenMeans(multiset(have), want);
    if n < |check| {
      ContainsIsKey(ps, check[n], exact);
      assert want[n] == MatchKeyOf(check[n], exact);
      PrefixIncluded(want, n + 1, multiset(have));
    } else {
      assert want[..n] == want;
    }
  }

  lemma PrefixIncluded(want: seq<MatchKey>, n: nat, have: multiset<MatchKey>)
    requires n <= |want|
    ensures multiset(want) <= have ==> multiset(want[..n]) <= have
  {
    assert want == want[..n] + want[n..];
    assert multiset(want) == multiset(want[..n]) + multiset(want[n..]);
  }

  // ----- adding and removing

  function AddAll(ps: Pairs, extra: Pairs): Pairs {
    if extra == [] then ps
    else
      var before := AddAll(ps, extra[..|extra| - 1]);
      var p := extra[|extra| - 1];
      if Contains(before, p, true) then before else before + [p]
  }

  method Add(ps: Pairs, extra: Pairs) returns (n: Pairs)
    ensures n == AddAll(ps, extra)
  {
    n := ps;
    for i := 0 to |extra|
      invariant n == AddAll(ps, extra[..i])
    {
      assert extra[..i + 1][..i] == extra[..i];
      var present := ContainsPair(n, extra[i], true);
      if !present {
        n := n + [extra[i]];
      }
    }
    assert extra[..|extra|] == extra;
  }

  function Without(ps: Pairs, rem: Pairs): Pairs {
    if ps == [] then []
    else
      var before := Without(ps[..|ps| - 1], rem);
      if Contains(rem, ps[|ps| - 1], true) then before else before + [ps[|ps| - 1]]
  }

  method Remove(ps: Pairs, rem: Pairs) returns (n: Pairs)
    ensures n == Without(ps, rem)
  {
    n := [];
    for i := 0 to |ps|
      invariant n == Without(ps[..i], rem)
    {
      assert ps[..i + 1][..i] == ps[..i];
      var gone := ContainsPair(rem, ps[i], true);
      if !gone {
        n := n + [ps[i]];
      }
    }
    assert ps[..|ps|] == ps;
  }

  lemma {:induction false} WithoutContains(ps: Pairs, rem: Pairs, p: Pair)
    ensures Contains(Without(ps, rem), p, true) <==> Contains(ps, p, true) && !Contains(rem, p, true)
    ensures |Without(ps, rem)| <= |ps| && (|Without(ps, rem)| == |ps| ==> Without(ps, rem) == ps)
  {
    if ps != [] {
      var front, last := ps[..|ps| - 1], ps[|ps| - 1];
      WithoutContains(front, rem, p);
      ContainsSnoc(front, last, p);
      ContainsSnoc(Without(front, rem), last, p);
      assert ps == front + [last];
      if last.Equal(p) {
        assert forall i :: 0 <= i < |rem| ==> rem[i].Equal(p) == rem[i].Equal(last);
        assert Contains(rem, last, true) == Contains(rem, p, true);
      }
    }
  }

  lemma ContainsSnoc(ps: Pairs, last: Pair, p: Pair)
    ensures Contains(ps + [last], p, true) <==> Contains(ps, p, true) || last.Equal(p)
  {
    var all := ps + [last];
    if last.Equal(p) {
      assert Matches(all[|ps|], p, true);
    }
    if Contains(ps, p, true) {
      var i :| 0 <= i < |ps| && Matches(ps[i], p, true);
      assert Matches(all[i], p, true);
    }
  }

  lemma {:induction false} AddAllContains(ps: Pairs, extra: Pairs, p: Pair)
    ensures Contains(AddAll(ps, extra), p, true) <==> Contains(ps, p, true) || Contains(extra, p, true)
  {
    if extra != [] {
      var front, last := extra[..|extra| - 1], extra[|extra| - 1];
      AddAllContains(ps, front, p);
      ContainsSnoc(front, last, p);
      ContainsSnoc(AddAll(ps, front), last, p);
      assert extra == front + [last];
      if last.Equal(p) && Contains(AddAll(ps, front), last, true) {
        var i :| 0 <= i < |AddAll(ps, front)| && Matches(AddAll(ps, front)[i], last, true);
        assert Matches(AddAll(ps, front)[i], p, true);
      }
    }
  }

  /** Adding leaves the list as it is and appends pairs of the other list, none of them present before. */
  lemma {:induction false} AddAllAppends(ps: Pairs, extra: Pairs)
    ensures ps <= AddAll(ps, extra)
    ensures forall i :: |ps| <= i < |AddAll(ps, extra)| ==>
              AddAll(ps, extra)[i] in extra && !Contains(AddAll(ps, extra)[..i], AddAll(ps, extra)[i], true)
  {
    if extra != [] {
      var front, last := extra[..|extra| - 1], extra[|extra| - 1];
      AddAllAppends(ps, front);
      var before, r := AddAll(ps, front), AddAll(ps, extra);
      forall i | |ps| <= i < |r| ensures r[i] in extra && !Contains(r[..i], r[i], true) {
        assert r[..i] == before[..i];
        if i < |before| {
          assert r[i] == before[i] && before[i] in front;
        } else {
          assert before[..i] == before;
        }
      }
    }
  }

  /** Removing goes pair by pair, in order: each one stays as it is, or goes when the other list contains it. */
  lemma {:induction false} WithoutConcat(a: Pairs, b: Pairs, rem: Pairs)
    ensures Without(a + b, rem) == Without(a, rem) + Without(b, rem)
    ensures forall p :: Without([p], rem) == if Contains(rem, p, true) then [] else [p]
  {
    forall p ensures Without([p], rem) == if Contains(rem, p, true) then [] else [p] {
      assert [p][..0] == [] && Without([], rem) == [];
    }
    if b == [] {
      assert a + b == a;
    } else {
      var front, last := b[..|b| - 1], b[|b| - 1];
      WithoutConcat(a, front, rem);
      assert (a + b)[..|a + b| - 1] == a + front && (a + b)[|a + b| - 1] == last;
    }
  }
}
