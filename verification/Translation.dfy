/** Matching the pairs of two exchanges that may name currencies differently. */
module Translation {
  import opened Wrappers
  import opened Currency
  import opened Pairs

  type Translations = map<Item?, Code>

  /** A code that is not translated stands for itself. */
  function Translate(t: Translations, incoming: Code): Code {
    if |t| == 0 then incoming else if incoming.item !in t then incoming else t[incoming.item]
  }

  datatype PairsWithTranslation = PairsWithTranslation(pairs: Pairs, translator: Option<Translations>)

  /** The key under which a pair is compared with those of the other exchange. */
  function CommonKey(p: Pair, translator: Option<Translations>): PairKey {
    match translator
    case None => p.Key()
    case Some(t) => PairKey(Translate(t, p.base).item, Translate(t, p.quote).item)
  }

  /** The last pair of the list with the key. */
  function LastWith(ps: Pairs, translator: Option<Translations>, k: PairKey): (r: Option<Pair>)
    ensures r.Some? ==> r.value in ps && CommonKey(r.value, translator) == k
    ensures r.None? ==> forall p :: p in ps ==> CommonKey(p, translator) != k
  {
    if ps == [] then None
    else if CommonKey(ps[|ps| - 1], translator) == k then Some(ps[|ps| - 1])
    else LastWith(ps[..|ps| - 1], translator, k)
  }

  /** The pair with the key after which no other has it is the one found. */
  lemma {:induction false} LastWithIs(ps: Pairs, translator: Option<Translations>, k: PairKey, i: nat)
    requires i < |ps| && CommonKey(ps[i], translator) == k
    requires forall j :: i < j < |ps| ==> CommonKey(ps[j], translator) != k
    ensures LastWith(ps, translator, k) == Some(ps[i])
  {
    if i < |ps| - 1 {
      LastWithIs(ps[..|ps| - 1], translator, k, i);
    }
  }

  /** The join of two lists: p of the one belongs to q of the other when both are the last of a common key. */
  ghost predicate Joined(left: PairsWithTranslation, right: PairsWithTranslation, p: Pair, q: Pair) {
    LastWith(left.pairs, left.translator, CommonKey(p, left.translator)) == Some(p) &&
    LastWith(right.pairs, right.translator, CommonKey(p, left.translator)) == Some(q)
  }

  /** The map relates exactly the joined pairs. */
  ghost predicate IsJoin(m: map<Pair, Pair>, left: PairsWithTranslation, right: PairsWithTranslation) {
    (forall p :: p in m ==> Joined(left, right, p, m[p])) &&
    (forall p, q :: p in left.pairs && q in right.pairs && Joined(left, right, p, q) ==> p in m && m[p] == q)
  }

  lemma JoinIsUnique(m: map<Pair, Pair>, n: map<Pair, Pair>, left: PairsWithTranslation, right: PairsWithTranslation)
    requires IsJoin(m, left, right) && IsJoin(n, left, right)
    ensures m == n
  {
    forall p | p in m ensures p in n && n[p] == m[p] {
      assert Joined(left, right, p, m[p]);
    }
    forall p | p in n ensures p in m {
      assert Joined(left, right, p, n[p]);
    }
  }

  /** Indexes a list by its common keys, later pairs replacing earlier ones. */
  method IndexByKey(list: PairsWithTranslation) returns (lookup: map<PairKey, Pair>)
    ensures forall k: PairKey :: (if k in lookup then Some(lookup[k]) else None)
                               == LastWith(list.pairs, list.translator, k)
  {
    lookup := map[];
    for i := 0 to |list.pairs|
      invariant forall k: PairKey :: (if k in lookup then Some(lookup[k]) else None)
                                  == LastWith(list.pairs[..i], list.translator, k)
    {
      assert list.pairs[..i + 1][..i] == list.pairs[..i];
      lookup := lookup[CommonKey(list.pairs[i], list.translator) := list.pairs[i]];
    }
    assert list.pairs[..|list.pairs|] == list.pairs;
  }

  method FindMatchingPairsBetween(left: PairsWithTranslation, right: PairsWithTranslation)
    returns (outgoing: map<Pair, Pair>)
    ensures IsJoin(outgoing, left, right)
  {
    var lookup := IndexByKey(left);
    outgoing := map[];
    for i := 0 to |right.pairs|
      invariant IsJoin(outgoing, left, PairsWithTranslation(right.pairs[..i], right.translator))
    {
      var q := right.pairs[i];
      var k := CommonKey(q, right.translator);
      assert (if k in lookup then Some(lookup[k]) else None) == LastWith(left.pairs, left.translator, k);
      JoinNext(outgoing, left, right, i);
      if k in lookup {
        outgoing := outgoing[lookup[k] := q];
      }
    }
    assert right.pairs[..|right.pairs|] == right.pairs;
  }

  lemma JoinNext(m: map<Pair, Pair>, left: PairsWithTranslation, right: PairsWithTranslation, i: nat)
    requires i < |right.pairs| && IsJoin(m, left, PairsWithTranslation(right.pairs[..i], right.translator))
    ensures var q := right.pairs[i];
            var p := LastWith(left.pairs, left.translator, CommonKey(q, right.translator));
            IsJoin(if p.Some? then m[p.value := q] else m, left,
                   PairsWithTranslation(right.pairs[..i + 1], right.translator))
  {
    var before := PairsWithTranslation(right.pairs[..i], right.translator);
    var after := PairsWithTranslation(right.pairs[..i + 1], right.translator);
    assert after.pairs[..i] == before.pairs && after.pairs[i] == right.pairs[i];
    var q := right.pairs[i];
    var k := CommonKey(q, right.translator);
    var p := LastWith(left.pairs, left.translator, k);
    var n := if p.Some? then m[p.value := q] else m;
    forall r: PairKey
      ensures LastWith(after.pairs, right.translator, r)
           == if r == k then Some(q) else LastWith(before.pairs, right.translator, r)
    {
    }
    forall x | x in n ensures Joined(left, after, x, n[x]) {
      if x in m {
        assert Joined(left, before, x, m[x]);
      }
    }
    forall x, y | x in left.pairs && y in after.pairs && Joined(left, after, x, y) ensures x in n && n[x] == y {
      if CommonKey(x, left.translator) != k {
        assert Joined(left, before, x, y);
        assert y in before.pairs;
      }
    }
  }

  ghost predicate DistinctKeys(list: PairsWithTranslation) {
    forall i, j :: 0 <= i < j < |list.pairs| ==>
      CommonKey(list.pairs[i], list.translator) != CommonKey(list.pairs[j], list.translator)
  }

  lemma DistinctIsLast(list: PairsWithTranslation, p: Pair)
    requires DistinctKeys(list) && p in list.pairs
    ensures LastWith(list.pairs, list.translator, CommonKey(p, list.translator)) == Some(p)
  {
  }

  /** With distinct keys on each side, each key present on both sides joins its two pairs. */
  lemma JoinOfDistinct(m: map<Pair, Pair>, left: PairsWithTranslation, right: PairsWithTranslation)
    requires IsJoin(m, left, right) && DistinctKeys(left) && DistinctKeys(right)
    ensures forall p, q :: p in left.pairs && q in right.pairs ==>
              ((p in m && m[p] == q) <==> CommonKey(p, left.translator) == CommonKey(q, right.translator))
  {
    forall p, q | p in left.pairs && q in right.pairs
      ensures (p in m && m[p] == q) <==> CommonKey(p, left.translator) == CommonKey(q, right.translator)
    {
      DistinctIsLast(left, p);
      DistinctIsLast(right, q);
      assert p in m ==> Joined(left, right, p, m[p]);
    }
  }

  /** The item the table gives an item, or the item itself when the table has none for it. */
  ghost predicate StandsFor(t: Translations, item: Item?, common: Item?) {
    if item in t then common == t[item].item else common == item
  }

  /**
  Translating the pairs of the left side only, pairs with distinct translations are joined exactly
  when the table takes both currencies of the one to those of the other.
  */
  lemma TranslatedPairsJoin(m: map<Pair, Pair>, left: PairsWithTranslation, right: PairsWithTranslation, p: Pair, q: Pair)
    requires IsJoin(m, left, right) && DistinctKeys(left) && DistinctKeys(right)
    requires left.translator.Some? && right.translator.None? && p in left.pairs && q in right.pairs
    ensures (p in m && m[p] == q) <==>
            StandsFor(left.translator.value, p.base.item, q.base.item) &&
            StandsFor(left.translator.value, p.quote.item, q.quote.item)
  {
    JoinOfDistinct(m, left, right);
  }

  /** A pair is under the key of what the table gives its two currencies, or of the currencies themselves without a table. */
  lemma CommonKeyMeans(p: Pair, translator: Option<Translations>, base: Item?, quote: Item?)
    ensures CommonKey(p, translator) == PairKey(base, quote) <==>
            match translator
            case None => base == p.base.item && quote == p.quote.item
            case Some(t) => StandsFor(t, p.base.item, base) && StandsFor(t, p.quote.item, quote)
  {
  }

  /** With distinct keys on each side, swapping the sides inverts the map. */
  lemma SwapInverts(m: map<Pair, Pair>, n: map<Pair, Pair>, left: PairsWithTranslation, right: PairsWithTranslation)
    requires IsJoin(m, left, right) && IsJoin(n, right, left) && DistinctKeys(left) && DistinctKeys(right)
    ensures forall p :: p in m ==> m[p] in n && n[m[p]] == p
    ensures forall q :: q in n ==> n[q] in m && m[n[q]] == q
  {
    JoinOfDistinct(m, left, right);
    JoinOfDistinct(n, right, left);
    forall p | p in m ensures m[p] in n && n[m[p]] == p {
      assert Joined(left, right, p, m[p]);
      assert p in left.pairs && m[p] in right.pairs;
    }
    forall q | q in n ensures n[q] in m && m[n[q]] == q {
      assert Joined(right, left, q, n[q]);
      assert q in right.pairs && n[q] in left.pairs;
    }
  }
}
