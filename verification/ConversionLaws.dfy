/** When an update of the exchange table succeeds, and what its rates then satisfy. */
module ConversionLaws {
  import opened Wrappers
  import opened Currency
  import opened CrossRates
  import opened Conversion

  /** The two currencies are quoted against each other, one way or the other. */
  ghost predicate Quoted(a: Item?, b: Item?, quotes: set<Quote>) {
    exists q :: q in quotes && ((q.from == a && q.to == b) || (q.from == b && q.to == a))
  }

  ghost predicate AllQuoted(quotes: set<Quote>) {
    forall a, b :: a in Mentioned(quotes) && b in Mentioned(quotes) && a != b ==> Quoted(a, b, quotes)
  }

  ghost predicate QuotedAgainst(main: Item?, quotes: set<Quote>) {
    forall x :: x in Mentioned(quotes) && x != main ==> Quoted(main, x, quotes)
  }

  lemma DirectIffQuoted(direct: Table<Item?>, listed: set<Item?>, quotes: set<Quote>, a: Item?, b: Item?)
    requires ReadFrom(direct, listed, quotes) && a != b
    ensures (a, b) in direct <==> Quoted(a, b, quotes)
  {
    if (a, b) in direct {
      assert Explained(a, b, direct[(a, b)], quotes);
      var q :| q in quotes && Explains(q, a, b, direct[(a, b)]);
    }
    if Quoted(a, b, quotes) {
      var q :| q in quotes && ((q.from == a && q.to == b) || (q.from == b && q.to == a));
      assert (q.from, q.to) in direct && InverseAt(direct, q.from, q.to);
    }
  }

  /** What a complete reading of the quotes leaves. */
  lemma ReadAll(quotes: map<string, real>, order: seq<string>, fiat: string -> Item?)
    requires Readable(quotes) && IsOrder(order, quotes)
    ensures ReadFrom(DirectAfter(quotes, order, fiat), ListedAfter(quotes, order, fiat), AllQuotes(quotes, fiat))
    ensures exists q :: q in AllQuotes(quotes, fiat) && q.from == MainOf(quotes, order, fiat)
    ensures ListedAfter(quotes, order, fiat) == Mentioned(AllQuotes(quotes, fiat))
  {
    var all := AllQuotes(quotes, fiat);
    assert QuotesAt(quotes, order, fiat) == all;
    ReadInOrder(quotes, order, fiat);
    assert order[0] in quotes && QuoteOf(order[0], quotes[order[0]], fiat) in all;
  }

  // ----- when an update succeeds

  lemma AllDirectIff(direct: Table<Item?>, listed: set<Item?>, quotes: set<Quote>)
    requires ReadFrom(direct, listed, quotes)
    ensures AllDirect(direct, listed) <==> AllQuoted(quotes)
  {
    forall a, b | a in listed && b in listed && a != b ensures (a, b) in direct <==> Quoted(a, b, quotes) {
      DirectIffQuoted(direct, listed, quotes, a, b);
    }
  }

  lemma StarIff(direct: Table<Item?>, listed: set<Item?>, quotes: set<Quote>, main: Item?)
    requires ReadFrom(direct, listed, quotes)
    ensures Star(direct, main, listed) <==> QuotedAgainst(main, quotes)
  {
    forall x | x in listed && x != main ensures (main, x) in direct <==> Quoted(main, x, quotes) {
      DirectIffQuoted(direct, listed, quotes, main, x);
    }
  }

  /**
  With the quotes met in a given order, the update succeeds if and only if all mentioned currencies
  are quoted against each other, or all of them against the main one, the first currency met.
  */
  lemma SucceedsIff(quotes: map<string, real>, order: seq<string>, fiat: string -> Item?)
    requires Readable(quotes) && IsOrder(order, quotes)
    ensures TableAfter(quotes, order, fiat).Some? <==>
            AllQuoted(AllQuotes(quotes, fiat)) || QuotedAgainst(MainOf(quotes, order, fiat), AllQuotes(quotes, fiat))
  {
    var direct, listed := DirectAfter(quotes, order, fiat), ListedAfter(quotes, order, fiat);
    var main, all := MainOf(quotes, order, fiat), AllQuotes(quotes, fiat);
    ReadAll(quotes, order, fiat);
    FillableIff(direct, main, listed);
    AllDirectIff(direct, listed, all);
    StarIff(direct, listed, all, main);
  }

  /** Some order lists the keys of a set. */
  lemma {:induction false} OrderOf(keys: set<string>) returns (order: seq<string>)
    ensures Distinct(order) && forall key :: key in order <==> key in keys
    decreases keys
  {
    order := [];
    if keys != {} {
      var key :| key in keys;
      var rest := OrderOf(keys - {key});
      order := rest + [key];
    }
  }

  /** Any quote can be met first, since any key can. */
  lemma OrderStartingWith(quotes: map<string, real>, fiat: string -> Item?, q: Quote) returns (order: seq<string>)
    requires Readable(quotes) && q in AllQuotes(quotes, fiat)
    ensures IsOrder(order, quotes) && MainOf(quotes, order, fiat) == q.from
  {
    var key :| key in quotes && QuoteOf(key, quotes[key], fiat) == q;
    var rest := OrderOf(quotes.Keys - {key});
    order := [key] + rest;
  }

  /**
  An update succeeds whatever the order of the quotes if and only if all mentioned currencies are
  quoted against each other, or the first currency of every quote is quoted against all others.
  */
  lemma SucceedsInEveryOrderIff(quotes: map<string, real>, fiat: string -> Item?)
    requires Readable(quotes)
    ensures var all := AllQuotes(quotes, fiat);
            (forall order :: IsOrder(order, quotes) ==> TableAfter(quotes, order, fiat).Some?) <==>
            AllQuoted(all) || forall q :: q in all ==> QuotedAgainst(q.from, all)
  {
    var all := AllQuotes(quotes, fiat);
    forall order | IsOrder(order, quotes)
      ensures AllQuoted(all) || (forall q :: q in all ==> QuotedAgainst(q.from, all)) ==>
                TableAfter(quotes, order, fiat).Some?
    {
      SucceedsIff(quotes, order, fiat);
      ReadAll(quotes, order, fiat);
    }
    if !AllQuoted(all) && exists q :: q in all && !QuotedAgainst(q.from, all) {
      var q :| q in all && !QuotedAgainst(q.from, all);
      var order := OrderStartingWith(quotes, fiat, q);
      SucceedsIff(quotes, order, fiat);
    }
  }

  /**
  An update succeeds in some order of the quotes, of which there is at least one, if and only if all
  mentioned currencies are quoted against each other, or the first currency of some quote is quoted
  against all others.
  */
  lemma SucceedsInSomeOrderIff(quotes: map<string, real>, fiat: string -> Item?)
    requires Readable(quotes) && quotes != map[]
    ensures var all := AllQuotes(quotes, fiat);
            (exists order :: IsOrder(order, quotes) && TableAfter(quotes, order, fiat).Some?) <==>
            AllQuoted(all) || exists q :: q in all && QuotedAgainst(q.from, all)
  {
    var all := AllQuotes(quotes, fiat);
    if order :| IsOrder(order, quotes) && TableAfter(quotes, order, fiat).Some? {
      SucceedsIff(quotes, order, fiat);
      ReadAll(quotes, order, fiat);
    }
    if AllQuoted(all) || exists q :: q in all && QuotedAgainst(q.from, all) {
      var key :| key in quotes;
      var first := QuoteOf(key, quotes[key], fiat);
      assert first in all;
      var q := if AllQuoted(all) then first else var r :| r in all && QuotedAgainst(r.from, all); r;
      var order := OrderStartingWith(quotes, fiat, q);
      SucceedsIff(quotes, order, fiat);
    }
  }

  lemma TwoQuotes(a: Item?, b: Item?, c: Item?, ab: Quote, ca: Quote)
    requires a != b && b != c && c != a && ab.from == a && ab.to == b && ca.from == c && ca.to == a
    ensures QuotedAgainst(a, {ab, ca}) && !QuotedAgainst(c, {ab, ca}) && !AllQuoted({ab, ca})
  {
    var all := {ab, ca};
    assert ab in all && ca in all;
    assert b in Mentioned(all) && c in Mentioned(all) && !Quoted(c, b, all);
  }

  lemma QuotesOfTwo(k: string, x: real, l: string, y: real, fiat: string -> Item?)
    requires |k| >= 3 && |l| >= 3 && k != l
    ensures Readable(map[k := x, l := y])
    ensures AllQuotes(map[k := x, l := y], fiat) == {QuoteOf(k, x, fiat), QuoteOf(l, y, fiat)}
    ensures IsOrder([k, l], map[k := x, l := y])
  {
    var quotes := map[k := x, l := y];
    assert k in quotes && l in quotes;
    assert [k, l][0] == k && [k, l][1] == l;
  }

  /** Two quotes of which the order decides: A is quoted against B, and C against A. */
  lemma OrderMatters(fiat: string -> Item?)
    requires fiat("AAA") != fiat("BBB") && fiat("BBB") != fiat("CCC") && fiat("CCC") != fiat("AAA")
    ensures var quotes := map["AAABBB" := 2.0, "CCCAAA" := 4.0];
            Readable(quotes) &&
            IsOrder(["AAABBB", "CCCAAA"], quotes) && TableAfter(quotes, ["AAABBB", "CCCAAA"], fiat).Some? &&
            IsOrder(["CCCAAA", "AAABBB"], quotes) && TableAfter(quotes, ["CCCAAA", "AAABBB"], fiat).None?
  {
    var quotes := map["AAABBB" := 2.0, "CCCAAA" := 4.0];
    assert "AAABBB"[..3] == "AAA" && "AAABBB"[3..] == "BBB" && "CCCAAA"[..3] == "CCC" && "CCCAAA"[3..] == "AAA";
    QuotesOfTwo("AAABBB", 2.0, "CCCAAA", 4.0, fiat);
    QuotesOfTwo("CCCAAA", 4.0, "AAABBB", 2.0, fiat);
    assert quotes == map["CCCAAA" := 4.0, "AAABBB" := 2.0];
    TwoQuotes(fiat("AAA"), fiat("BBB"), fiat("CCC"), QuoteOf("AAABBB", 2.0, fiat), QuoteOf("CCCAAA", 4.0, fiat));
    SucceedsIff(quotes, ["AAABBB", "CCCAAA"], fiat);
    SucceedsIff(quotes, ["CCCAAA", "AAABBB"], fiat);
  }

  // ----- mutually inverse rates

  /** A successful update rates all pairs of mentioned currencies and no others. */
  lemma TableIsComplete(quotes: map<string, real>, order: seq<string>, fiat: string -> Item?)
    requires Readable(quotes) && IsOrder(order, quotes) && TableAfter(quotes, order, fiat).Some?
    ensures var t, listed := TableAfter(quotes, order, fiat).value, Mentioned(AllQuotes(quotes, fiat));
            IsFilled(t, DirectAfter(quotes, order, fiat), MainOf(quotes, order, fiat), listed) && Inverse(t)
  {
    var direct, main := DirectAfter(quotes, order, fiat), MainOf(quotes, order, fiat);
    var listed := ListedAfter(quotes, order, fiat);
    ReadAll(quotes, order, fiat);
    FilledIsFilled(direct, main, listed);
    FilledInverse(Filled(direct, main, listed), direct, main, listed);
  }

  ghost predicate NoZeroQuote(quotes: set<Quote>) {
    forall q :: q in quotes ==> q.rate != 0.0
  }

  lemma TableHasNoZero(quotes: map<string, real>, order: seq<string>, fiat: string -> Item?)
    requires Readable(quotes) && IsOrder(order, quotes) && TableAfter(quotes, order, fiat).Some?
    requires NoZeroQuote(AllQuotes(quotes, fiat))
    ensures NoZero(DirectAfter(quotes, order, fiat)) && NoZero(TableAfter(quotes, order, fiat).value)
  {
    var direct := DirectAfter(quotes, order, fiat);
    ReadAll(quotes, order, fiat);
    forall k | k in direct ensures direct[k] != 0.0 {
      assert Explained(k.0, k.1, direct[k], AllQuotes(quotes, fiat));
    }
    TableIsComplete(quotes, order, fiat);
    FilledNoZero(TableAfter(quotes, order, fiat).value, direct, MainOf(quotes, order, fiat),
                 Mentioned(AllQuotes(quotes, fiat)));
  }

  /** Any successful update of quotes without a zero gives rates that multiply to one with their opposites. */
  lemma UpdatedInverse(quotes: map<string, real>, order: seq<string>, fiat: string -> Item?, a: Item?, b: Item?)
    requires Readable(quotes) && IsOrder(order, quotes) && TableAfter(quotes, order, fiat).Some?
    requires a in Mentioned(AllQuotes(quotes, fiat)) && b in Mentioned(AllQuotes(quotes, fiat))
    requires NoZeroQuote(AllQuotes(quotes, fiat))
    ensures var t := TableAfter(quotes, order, fiat).value;
            RateOf(t, a, b).Ok? && RateOf(t, b, a).Ok? && Times(RateOf(t, a, b).value, RateOf(t, b, a).value) == 1.0
  {
    var t := TableAfter(quotes, order, fiat).value;
    TableIsComplete(quotes, order, fiat);
    TableHasNoZero(quotes, order, fiat);
    if a != b {
      assert (a, b) in t && InverseAt(t, a, b);
      OverTimes(t[(a, b)]);
    }
  }

  // ----- when the order of the quotes does not matter

  /** No two quotes disagree on the rate between the same two currencies. */
  ghost predicate NoConflict(quotes: set<Quote>) {
    forall q, r, x, y ::
      q in quotes && r in quotes && q.from != q.to && Explains(q, q.from, q.to, x) && Explains(r, q.from, q.to, y)
      ==> x == y
  }

  /** The two main currencies derive the same rates for the currencies that are not quoted against each other. */
  ghost predicate SameCross(m: Item?, n: Item?, quotes: set<Quote>) {
    forall a, b, v, w, v', w' ::
      a in Mentioned(quotes) && b in Mentioned(quotes) && a != b && !Quoted(a, b, quotes) &&
      Explained(m, a, v, quotes) && Explained(m, b, w, quotes) && Explained(n, a, v', quotes) && Explained(n, b, w', quotes)
      ==> Over(w, v) == Over(w', v')
  }

  /** Every main currency fills the matrix, and all of them in the same way. */
  ghost predicate MainsAgree(quotes: set<Quote>) {
    (forall q :: q in quotes ==> QuotedAgainst(q.from, quotes)) &&
    forall q, r :: q in quotes && r in quotes ==> SameCross(q.from, r.from, quotes)
  }

  /** No order of the quotes lets the update succeed. */
  ghost predicate Hopeless(quotes: set<Quote>) {
    !AllQuoted(quotes) && forall q :: q in quotes ==> !QuotedAgainst(q.from, quotes)
  }

  lemma ExplainedOnce(a: Item?, b: Item?, x: real, y: real, quotes: set<Quote>)
    requires NoConflict(quotes) && a != b && Explained(a, b, x, quotes) && Explained(a, b, y, quotes)
    ensures x == y
  {
    var q :| q in quotes && Explains(q, a, b, x);
    var r :| r in quotes && Explains(r, a, b, y);
    if q.from == a {
      assert Explains(r, q.from, q.to, y);
    } else {
      OverTimes(x);
      OverTimes(y);
      OverTimes(q.rate);
      OverTimes(r.rate);
      assert Explains(q, q.from, q.to, Over(1.0, x)) && Explains(r, q.from, q.to, Over(1.0, y));
    }
  }

  /** The rate that one order of the quotes gives is the one any other order gives. */
  lemma AgreedRate(quotes: map<string, real>, o1: seq<string>, o2: seq<string>, fiat: string -> Item?, a: Item?,
                   b: Item?)
    requires Readable(quotes) && IsOrder(o1, quotes) && IsOrder(o2, quotes) && NoConflict(AllQuotes(quotes, fiat))
    requires AllQuoted(AllQuotes(quotes, fiat)) || MainsAgree(AllQuotes(quotes, fiat))
    requires a in Mentioned(AllQuotes(quotes, fiat)) && b in Mentioned(AllQuotes(quotes, fiat)) && a != b
    ensures Cross(DirectAfter(quotes, o1, fiat), MainOf(quotes, o1, fiat), a, b)
         == Cross(DirectAfter(quotes, o2, fiat), MainOf(quotes, o2, fiat), a, b)
  {
    var all := AllQuotes(quotes, fiat);
    var d1, d2 := DirectAfter(quotes, o1, fiat), DirectAfter(quotes, o2, fiat);
    var m1, m2 := MainOf(quotes, o1, fiat), MainOf(quotes, o2, fiat);
    ReadAll(quotes, o1, fiat);
    ReadAll(quotes, o2, fiat);
    DirectIffQuoted(d1, Mentioned(all), all, a, b);
    DirectIffQuoted(d2, Mentioned(all), all, a, b);
    if Quoted(a, b, all) {
      assert Explained(a, b, d1[(a, b)], all) && Explained(a, b, d2[(a, b)], all);
      ExplainedOnce(a, b, d1[(a, b)], d2[(a, b)], all);
    } else {
      MainRates(d1, all, m1, a, b);
      MainRates(d2, all, m2, a, b);
      assert SameCross(m1, m2, all);
    }
  }

  lemma QuotedSymmetric(a: Item?, b: Item?, quotes: set<Quote>)
    ensures Quoted(a, b, quotes) <==> Quoted(b, a, quotes)
  {
  }

  lemma MainRates(direct: Table<Item?>, quotes: set<Quote>, main: Item?, a: Item?, b: Item?)
    requires ReadFrom(direct, Mentioned(quotes), quotes) && QuotedAgainst(main, quotes)
    requires a in Mentioned(quotes) && b in Mentioned(quotes) && a != b && !Quoted(a, b, quotes)
    ensures (main, a) in direct && (main, b) in direct
    ensures Explained(main, a, direct[(main, a)], quotes) && Explained(main, b, direct[(main, b)], quotes)
  {
    QuotedSymmetric(a, b, quotes);
    assert main != a && main != b;
    DirectIffQuoted(direct, Mentioned(quotes), quotes, main, a);
    DirectIffQuoted(direct, Mentioned(quotes), quotes, main, b);
    assert (main, a) in direct && (main, b) in direct;
  }

  lemma AgreedTable(quotes: map<string, real>, o1: seq<string>, o2: seq<string>, fiat: string -> Item?)
    requires Readable(quotes) && IsOrder(o1, quotes) && IsOrder(o2, quotes) && NoConflict(AllQuotes(quotes, fiat))
    requires AllQuoted(AllQuotes(quotes, fiat)) || MainsAgree(AllQuotes(quotes, fiat))
    ensures TableAfter(quotes, o1, fiat) == TableAfter(quotes, o2, fiat)
  {
    var all := AllQuotes(quotes, fiat);
    ReadAll(quotes, o1, fiat);
    ReadAll(quotes, o2, fiat);
    forall a, b | a in Mentioned(all) && b in Mentioned(all) && a != b
      ensures Cross(DirectAfter(quotes, o1, fiat), MainOf(quotes, o1, fiat), a, b)
           == Cross(DirectAfter(quotes, o2, fiat), MainOf(quotes, o2, fiat), a, b)
    {
      AgreedRate(quotes, o1, o2, fiat, a, b);
    }
    FilledSame(DirectAfter(quotes, o1, fiat), MainOf(quotes, o1, fiat),
               DirectAfter(quotes, o2, fiat), MainOf(quotes, o2, fiat), Mentioned(all));
  }

  lemma FilledSame(d1: Table<Item?>, m1: Item?, d2: Table<Item?>, m2: Item?, listed: set<Item?>)
    requires forall a, b :: a in listed && b in listed && a != b ==> Cross(d1, m1, a, b) == Cross(d2, m2, a, b)
    ensures Fillable(d1, m1, listed) == Fillable(d2, m2, listed)
    ensures Fillable(d1, m1, listed) ==> Filled(d1, m1, listed) == Filled(d2, m2, listed)
  {
  }

  /** Any quote can be met last. */
  lemma OrderEndingWith(quotes: map<string, real>, fiat: string -> Item?, q: Quote) returns (order: seq<string>)
    requires Readable(quotes) && q in AllQuotes(quotes, fiat) && q.from != q.to
    ensures IsOrder(order, quotes)
    ensures var direct := DirectAfter(quotes, order, fiat);
            (q.from, q.to) in direct && direct[(q.from, q.to)] == q.rate &&
            (q.to, q.from) in direct && direct[(q.to, q.from)] == Over(1.0, q.rate)
  {
    var key :| key in quotes && QuoteOf(key, quotes[key], fiat) == q;
    var rest := OrderOf(quotes.Keys - {key});
    order := rest + [key];
    assert order[..|order| - 1] == rest && order[|order| - 1] == key;
  }

  /** When all orders give the same table, no two quotes disagree. */
  lemma SameTablesNoConflict(quotes: map<string, real>, fiat: string -> Item?)
    requires Readable(quotes) && !Hopeless(AllQuotes(quotes, fiat))
    requires forall o1, o2 :: IsOrder(o1, quotes) && IsOrder(o2, quotes) ==>
               TableAfter(quotes, o1, fiat) == TableAfter(quotes, o2, fiat)
    ensures NoConflict(AllQuotes(quotes, fiat))
    ensures forall order :: IsOrder(order, quotes) ==> TableAfter(quotes, order, fiat).Some?
  {
    var all := AllQuotes(quotes, fiat);
    if quotes != map[] {
      SucceedsInSomeOrderIff(quotes, fiat);
      if AllQuoted(all) {
        SucceedsInEveryOrderIff(quotes, fiat);
      }
    }
    forall q, r, x, y | q in all && r in all && q.from != q.to && Explains(q, q.from, q.to, x) && Explains(r, q.from, q.to, y)
      ensures x == y
    {
      var o1 := OrderEndingWith(quotes, fiat, q);
      var o2 := OrderEndingWith(quotes, fiat, r);
      InTable(quotes, o1, fiat, q.from, q.to);
      InTable(quotes, o2, fiat, q.from, q.to);
    }
  }

  /** A direct rate is in the table as it is. */
  lemma InTable(quotes: map<string, real>, order: seq<string>, fiat: string -> Item?, a: Item?, b: Item?)
    requires Readable(quotes) && IsOrder(order, quotes) && TableAfter(quotes, order, fiat).Some?
    requires (a, b) in DirectAfter(quotes, order, fiat)
    ensures var t := TableAfter(quotes, order, fiat).value;
            (a, b) in t && t[(a, b)] == DirectAfter(quotes, order, fiat)[(a, b)]
  {
    var direct := DirectAfter(quotes, order, fiat);
    ReadAll(quotes, order, fiat);
    TableIsComplete(quotes, order, fiat);
    assert InverseAt(direct, (a, b).0, (a, b).1);
    assert HasCross(TableAfter(quotes, order, fiat).value, direct, MainOf(quotes, order, fiat), a, b);
  }

  lemma DerivedInTable(quotes: map<string, real>, order: seq<string>, fiat: string -> Item?, a: Item?, b: Item?,
                       v: real, w: real)
    requires Readable(quotes) && IsOrder(order, quotes) && TableAfter(quotes, order, fiat).Some?
    requires var all := AllQuotes(quotes, fiat);
             NoConflict(all) && QuotedAgainst(MainOf(quotes, order, fiat), all) &&
             a in Mentioned(all) && b in Mentioned(all) && a != b && !Quoted(a, b, all) &&
             Explained(MainOf(quotes, order, fiat), a, v, all) && Explained(MainOf(quotes, order, fiat), b, w, all)
    ensures (a, b) in TableAfter(quotes, order, fiat).value && TableAfter(quotes, order, fiat).value[(a, b)] == Over(w, v)
  {
    var all := AllQuotes(quotes, fiat);
    var direct, main := DirectAfter(quotes, order, fiat), MainOf(quotes, order, fiat);
    ReadAll(quotes, order, fiat);
    TableIsComplete(quotes, order, fiat);
    MainRates(direct, all, main, a, b);
    DirectIffQuoted(direct, Mentioned(all), all, a, b);
    assert InverseAt(direct, main, a) && InverseAt(direct, main, b);
    ExplainedOnce(main, a, v, direct[(main, a)], all);
    ExplainedOnce(main, b, w, direct[(main, b)], all);
    assert HasCross(TableAfter(quotes, order, fiat).value, direct, main, a, b);
  }

  lemma SameTablesMainsAgree(quotes: map<string, real>, fiat: string -> Item?)
    requires Readable(quotes) && NoConflict(AllQuotes(quotes, fiat)) && !AllQuoted(AllQuotes(quotes, fiat))
    requires forall order :: IsOrder(order, quotes) ==> TableAfter(quotes, order, fiat).Some?
    requires forall o1, o2 :: IsOrder(o1, quotes) && IsOrder(o2, quotes) ==>
               TableAfter(quotes, o1, fiat) == TableAfter(quotes, o2, fiat)
    ensures MainsAgree(AllQuotes(quotes, fiat))
  {
    var all := AllQuotes(quotes, fiat);
    SucceedsInEveryOrderIff(quotes, fiat);
    forall q, r | q in all && r in all ensures SameCross(q.from, r.from, all) {
      var o1 := OrderStartingWith(quotes, fiat, q);
      var o2 := OrderStartingWith(quotes, fiat, r);
      forall a, b, v, w, v', w' | a in Mentioned(all) && b in Mentioned(all) && a != b && !Quoted(a, b, all) &&
          Explained(q.from, a, v, all) && Explained(q.from, b, w, all) &&
          Explained(r.from, a, v', all) && Explained(r.from, b, w', all)
        ensures Over(w, v) == Over(w', v')
      {
        DerivedInTable(quotes, o1, fiat, a, b, v, w);
        DerivedInTable(quotes, o2, fiat, a, b, v', w');
      }
    }
  }

  /**
  All orders of the quotes give the same outcome if and only if the update fails in all of them, or no
  two quotes disagree and either all currencies are quoted against each other or every possible main
  currency derives the same rates.
  */
  lemma SameInEveryOrderIff(quotes: map<string, real>, fiat: string -> Item?)
    requires Readable(quotes)
    ensures var all := AllQuotes(quotes, fiat);
            (forall o1, o2 :: IsOrder(o1, quotes) && IsOrder(o2, quotes) ==>
               TableAfter(quotes, o1, fiat) == TableAfter(quotes, o2, fiat)) <==>
            Hopeless(all) || (NoConflict(all) && (AllQuoted(all) || MainsAgree(all)))
  {
    var all := AllQuotes(quotes, fiat);
    forall o1, o2 | IsOrder(o1, quotes) && IsOrder(o2, quotes)
      ensures Hopeless(all) || (NoConflict(all) && (AllQuoted(all) || MainsAgree(all))) ==>
                TableAfter(quotes, o1, fiat) == TableAfter(quotes, o2, fiat)
    {
      if Hopeless(all) {
        HopelessFails(quotes, o1, fiat);
        HopelessFails(quotes, o2, fiat);
      } else if NoConflict(all) && (AllQuoted(all) || MainsAgree(all)) {
        AgreedTable(quotes, o1, o2, fiat);
      }
    }
    if (forall o1, o2 :: IsOrder(o1, quotes) && IsOrder(o2, quotes) ==>
          TableAfter(quotes, o1, fiat) == TableAfter(quotes, o2, fiat)) && !Hopeless(all)
    {
      SameTablesNoConflict(quotes, fiat);
      if !AllQuoted(all) {
        SameTablesMainsAgree(quotes, fiat);
      }
    }
  }

  lemma HopelessFails(quotes: map<string, real>, order: seq<string>, fiat: string -> Item?)
    requires Readable(quotes) && IsOrder(order, quotes) && Hopeless(AllQuotes(quotes, fiat))
    ensures TableAfter(quotes, order, fiat).None?
  {
    ReadAll(quotes, order, fiat);
    SucceedsIff(quotes, order, fiat);
  }

  // ----- quotes that share one base currency

  /** All quotes are from one base currency, none is zero, and no two give another currency different rates. */
  ghost predicate OneBase(base: Item?, quotes: set<Quote>) {
    NoZeroQuote(quotes) && (forall q :: q in quotes ==> q.from == base) &&
    forall q, r :: q in quotes && r in quotes && q.to == r.to && q.to != base ==> q.rate == r.rate
  }

  lemma OneBaseDirect(direct: Table<Item?>, listed: set<Item?>, base: Item?, quotes: set<Quote>)
    requires ReadFrom(direct, listed, quotes) && OneBase(base, quotes)
    ensures Star(direct, base, listed) && (listed != {} ==> base in listed) && NoZero(direct) && Consistent(direct, base)
    ensures forall q :: q in quotes && q.to != base ==> (base, q.to) in direct && direct[(base, q.to)] == q.rate
  {
    forall k | k in direct ensures (k.0 == base || k.1 == base) && direct[k] != 0.0 {
      assert Explained(k.0, k.1, direct[k], quotes);
    }
    OneBaseIsConsistent(direct, base);
    forall x | x in listed ensures base in listed && (x != base ==> (base, x) in direct) {
      var q :| q in quotes && q.from != q.to && (x == q.from || x == q.to);
      assert (q.from, q.to) in direct;
    }
    forall q | q in quotes && q.to != base ensures (base, q.to) in direct && direct[(base, q.to)] == q.rate {
      assert Explained(base, q.to, direct[(base, q.to)], quotes);
      var r :| r in quotes && Explains(r, base, q.to, direct[(base, q.to)]);
    }
  }

  /** The worth of one unit of the base currency in another, as the quotes give it. */
  ghost predicate IsWorth(base: Item?, x: Item?, w: real, quotes: set<Quote>) {
    if x == base then w == 1.0 else exists q :: q in quotes && q.to == x && q.rate == w
  }

  lemma WorthIff(direct: Table<Item?>, listed: set<Item?>, base: Item?, quotes: set<Quote>, x: Item?, w: real)
    requires ReadFrom(direct, listed, quotes) && OneBase(base, quotes)
    ensures IsWorth(base, x, w, quotes) <==> (x == base || x in listed) && w == Worth(direct, base, x)
  {
    OneBaseDirect(direct, listed, base, quotes);
    if x != base && x in listed {
      var q :| q in quotes && q.from != q.to && (x == q.from || x == q.to);
      assert q.to == x;
    }
  }

  /**
  Quotes from one base currency: the update succeeds in every order, and the table it makes has no
  arbitrage and consists of exactly the quotients of the quoted rates.
  */
  lemma OneBaseUpdate(quotes: map<string, real>, order: seq<string>, fiat: string -> Item?, base: Item?)
    requires Readable(quotes) && IsOrder(order, quotes) && OneBase(base, AllQuotes(quotes, fiat))
    ensures MainOf(quotes, order, fiat) == base && TableAfter(quotes, order, fiat).Some?
    ensures ArbitrageFree(TableAfter(quotes, order, fiat).value)
    ensures var t, all := TableAfter(quotes, order, fiat).value, AllQuotes(quotes, fiat);
            forall a, b, v, w :: a != b && IsWorth(base, a, v, all) && IsWorth(base, b, w, all) ==>
              v != 0.0 && (a, b) in t && t[(a, b)] == w / v
  {
    var all := AllQuotes(quotes, fiat);
    var direct, listed := DirectAfter(quotes, order, fiat), ListedAfter(quotes, order, fiat);
    ReadAll(quotes, order, fiat);
    OneBaseDirect(direct, listed, base, all);
    FillableIff(direct, base, listed);
    TableIsComplete(quotes, order, fiat);
    var t := TableAfter(quotes, order, fiat).value;
    if listed == {} {
      assert t == map[];
    } else {
      ArbitrageFreeIff(t, direct, base, listed);
    }
    forall a, b, v, w | a != b && IsWorth(base, a, v, all) && IsWorth(base, b, w, all)
      ensures v != 0.0 && (a, b) in t && t[(a, b)] == w / v
    {
      WorthIff(direct, listed, base, all, a, v);
      WorthIff(direct, listed, base, all, b, w);
      assert base in listed;
      CrossIsRatio(direct, base, listed, a, b);
      assert HasCross(t, direct, base, a, b);
    }
  }

  lemma OneBaseRate(quotes: map<string, real>, order: seq<string>, fiat: string -> Item?, base: Item?,
                    a: Item?, b: Item?, v: real, w: real)
    requires Readable(quotes) && IsOrder(order, quotes) && OneBase(base, AllQuotes(quotes, fiat)) && a != b
    requires IsWorth(base, a, v, AllQuotes(quotes, fiat)) && IsWorth(base, b, w, AllQuotes(quotes, fiat))
    ensures var r := TableAfter(quotes, order, fiat);
            r.Some? && v != 0.0 && (a, b) in r.value && r.value[(a, b)] == w / v
  {
    OneBaseUpdate(quotes, order, fiat, base);
  }

  /** The order in which quotes from one base currency are met does not matter. */
  lemma OneBaseOrderIrrelevant(quotes: map<string, real>, o1: seq<string>, o2: seq<string>, fiat: string -> Item?,
                               base: Item?)
    requires Readable(quotes) && IsOrder(o1, quotes) && IsOrder(o2, quotes) && OneBase(base, AllQuotes(quotes, fiat))
    ensures TableAfter(quotes, o1, fiat) == TableAfter(quotes, o2, fiat)
  {
    OneBaseSucceeds(quotes, o1, fiat, base);
    OneBaseSucceeds(quotes, o2, fiat, base);
    SameRates(quotes, o1, o2, fiat, base);
    SameRates(quotes, o2, o1, fiat, base);
    SameTables(TableAfter(quotes, o1, fiat), TableAfter(quotes, o2, fiat));
  }

  lemma SameTables(t: Option<Table<Item?>>, u: Option<Table<Item?>>)
    requires t.Some? && u.Some? && (forall k :: k in t.value ==> k in u.value && t.value[k] == u.value[k])
    requires forall k :: k in u.value ==> k in t.value
    ensures t == u
  {
    assert t.value == u.value;
  }

  lemma OneBaseSucceeds(quotes: map<string, real>, order: seq<string>, fiat: string -> Item?, base: Item?)
    requires Readable(quotes) && IsOrder(order, quotes) && OneBase(base, AllQuotes(quotes, fiat))
    ensures TableAfter(quotes, order, fiat).Some?
  {
    OneBaseUpdate(quotes, order, fiat, base);
  }

  lemma SameRates(quotes: map<string, real>, o1: seq<string>, o2: seq<string>, fiat: string -> Item?, base: Item?)
    requires Readable(quotes) && IsOrder(o1, quotes) && IsOrder(o2, quotes) && OneBase(base, AllQuotes(quotes, fiat))
    requires TableAfter(quotes, o1, fiat).Some? && TableAfter(quotes, o2, fiat).Some?
    ensures var t1, t2 := TableAfter(quotes, o1, fiat).value, TableAfter(quotes, o2, fiat).value;
            forall k :: k in t1 ==> k in t2 && t1[k] == t2[k]
  {
    var all := AllQuotes(quotes, fiat);
    var t1, t2 := TableAfter(quotes, o1, fiat).value, TableAfter(quotes, o2, fiat).value;
    TableIsComplete(quotes, o1, fiat);
    forall k | k in t1 ensures k in t2 && t1[k] == t2[k] {
      assert HasCross(t1, DirectAfter(quotes, o1, fiat), MainOf(quotes, o1, fiat), k.0, k.1);
      MentionedHasWorth(base, k.0, all);
      MentionedHasWorth(base, k.1, all);
      var v :| IsWorth(base, k.0, v, all);
      var w :| IsWorth(base, k.1, w, all);
      OneBaseRate(quotes, o1, fiat, base, k.0, k.1, v, w);
      OneBaseRate(quotes, o2, fiat, base, k.0, k.1, v, w);
    }
  }

  // ----- what lookups look up

  /** A lookup treats tether as the dollar and the old rouble as the new one, on either side. */
  lemma StandIns(c: ConversionRates, x: Item?)
    requires c.CodesDiffer()
    ensures c.Lookup(c.usdt, x) == c.Lookup(c.usd, x) && c.Lookup(x, c.usdt) == c.Lookup(x, c.usd)
    ensures c.Lookup(c.rur, x) == c.Lookup(c.rub, x) && c.Lookup(x, c.rur) == c.Lookup(x, c.rub)
  {
  }

  /** Of other currencies a lookup finds the rate in the table, and one between equal ones. */
  lemma PlainLookup(c: ConversionRates, a: Item?, b: Item?)
    requires a != c.usdt && a != c.rur && b != c.usdt && b != c.rur
    ensures c.Lookup(a, b) == RateOf(c.Rates(), a, b)
    ensures a == b ==> c.Lookup(a, b) == Ok(1.0)
    ensures a != b && (a, b) in c.m ==> c.Lookup(a, b) == Ok(c.m[(a, b)].rate)
    ensures a != b && (a, b) !in c.m ==> c.Lookup(a, b) == Err(RateNotFound)
  {
  }

  // ----- lookups after an update

  /** A lookup finds a rate exactly when both currencies stand for the same one, or for mentioned ones. */
  lemma LookupFoundIff(c: ConversionRates, quotes: map<string, real>, order: seq<string>, fiat: string -> Item?,
                       from: Item?, to: Item?)
    requires Readable(quotes) && IsOrder(order, quotes) && Answers(None, c.Rates(), TableAfter(quotes, order, fiat))
    ensures c.Lookup(from, to).Ok? <==>
            c.Alias(from) == c.Alias(to) ||
            (c.Alias(from) in Mentioned(AllQuotes(quotes, fiat)) && c.Alias(to) in Mentioned(AllQuotes(quotes, fiat)))
  {
    TableIsComplete(quotes, order, fiat);
    assert c.Rates() == TableAfter(quotes, order, fiat).value;
  }

  /** What the mentioned currencies stand for is mentioned too. */
  ghost predicate AliasesMentioned(c: ConversionRates, quotes: set<Quote>) {
    forall x :: x in Mentioned(quotes) ==> c.Alias(x) in Mentioned(quotes)
  }

  /** After an update all lookups of mentioned currencies succeed if and only if what they stand for is mentioned. */
  lemma AllLookupsSucceedIff(c: ConversionRates, quotes: map<string, real>, order: seq<string>, fiat: string -> Item?)
    requires c.Valid() && Readable(quotes) && IsOrder(order, quotes)
    requires Answers(None, c.Rates(), TableAfter(quotes, order, fiat))
    ensures var all := AllQuotes(quotes, fiat);
            (forall a, b :: a in Mentioned(all) && b in Mentioned(all) ==> c.Lookup(a, b).Ok?) <==> AliasesMentioned(c, all)
  {
    var all := AllQuotes(quotes, fiat);
    forall a, b | a in Mentioned(all) && b in Mentioned(all)
      ensures AliasesMentioned(c, all) ==> c.Lookup(a, b).Ok?
    {
      LookupFoundIff(c, quotes, order, fiat, a, b);
    }
    if !AliasesMentioned(c, all) {
      var x :| x in Mentioned(all) && c.Alias(x) !in Mentioned(all);
      var q :| q in all && q.from != q.to && (x == q.from || x == q.to);
      var y := if x == q.from then q.to else q.from;
      assert y in Mentioned(all) && c.Alias(x) != c.Alias(y);
      LookupFoundIff(c, quotes, order, fiat, x, y);
    }
  }

  /** Lookups in opposite directions find inverse rates, in any table that updates have made. */
  lemma LookupsInverse(c: ConversionRates, a: Item?, b: Item?)
    requires c.Valid() && c.Lookup(a, b).Ok?
    ensures c.Lookup(b, a) == Ok(Over(1.0, c.Lookup(a, b).value))
  {
    var x, y := c.Alias(a), c.Alias(b);
    if x != y {
      assert InverseAt(c.Rates(), x, y);
    }
  }

  /** The lookups from a to b and from b to d find rates, and their product is what the lookup from a to d finds. */
  ghost predicate Multiply(c: ConversionRates, a: Item?, b: Item?, d: Item?)
    reads c, c.Cells()
  {
    c.Lookup(a, b).Ok? && c.Lookup(b, d).Ok? && c.Lookup(a, d) == Ok(Times(c.Lookup(a, b).value, c.Lookup(b, d).value))
  }

  /** In a table without arbitrage and zeros, two lookups in a row that succeed multiply. */
  lemma LookupsMultiply(c: ConversionRates, quotes: map<string, real>, order: seq<string>, fiat: string -> Item?,
                        a: Item?, b: Item?, d: Item?)
    requires c.Valid() && Readable(quotes) && IsOrder(order, quotes)
    requires Answers(None, c.Rates(), TableAfter(quotes, order, fiat)) && ArbitrageFree(c.Rates()) && NoZero(c.Rates())
    requires c.Lookup(a, b).Ok? && c.Lookup(b, d).Ok?
    ensures Multiply(c, a, b, d)
  {
    var t := c.Rates();
    var x, y, z := c.Alias(a), c.Alias(b), c.Alias(d);
    LookupFoundIff(c, quotes, order, fiat, a, d);
    LookupFoundIff(c, quotes, order, fiat, a, b);
    LookupFoundIff(c, quotes, order, fiat, b, d);
    if x != y && y != z {
      if x == z {
        assert InverseAt(t, x, y);
        OverTimes(t[(x, y)]);
      } else {
        assert RoundTrip(t, (x, y).0, (x, y).1, (y, z).1);
      }
    }
  }

  /**
  No arbitrage: after an update from one base currency, all lookups of mentioned currencies succeed
  and multiply along any three of them, if and only if what they stand for is mentioned too.
  */
  lemma NoArbitrageIff(c: ConversionRates, quotes: map<string, real>, order: seq<string>, fiat: string -> Item?,
                       base: Item?)
    requires c.Valid() && Readable(quotes) && IsOrder(order, quotes) && OneBase(base, AllQuotes(quotes, fiat))
    requires Answers(None, c.Rates(), TableAfter(quotes, order, fiat))
    ensures var all := AllQuotes(quotes, fiat);
            (forall a, b, d :: a in Mentioned(all) && b in Mentioned(all) && d in Mentioned(all) ==> Multiply(c, a, b, d)) <==>
            AliasesMentioned(c, all)
  {
    var all := AllQuotes(quotes, fiat);
    AllLookupsSucceedIff(c, quotes, order, fiat);
    OneBaseUpdate(quotes, order, fiat, base);
    TableHasNoZero(quotes, order, fiat);
    forall a, b, d | a in Mentioned(all) && b in Mentioned(all) && d in Mentioned(all)
      ensures AliasesMentioned(c, all) ==> Multiply(c, a, b, d)
    {
      if AliasesMentioned(c, all) {
        LookupsMultiply(c, quotes, order, fiat, a, b, d);
      }
    }
    if forall a, b, d :: a in Mentioned(all) && b in Mentioned(all) && d in Mentioned(all) ==> Multiply(c, a, b, d) {
      forall a, b | a in Mentioned(all) && b in Mentioned(all) ensures c.Lookup(a, b).Ok? {
        assert Multiply(c, a, b, b);
      }
    }
  }

  /**
  What a lookup finds after an update from one base currency: one between currencies that stand for
  the same, and else the quotient of the quoted rates of what the two stand for.
  */
  lemma OneBaseLookup(c: ConversionRates, quotes: map<string, real>, order: seq<string>, fiat: string -> Item?,
                      base: Item?, from: Item?, to: Item?, rate: real)
    requires Readable(quotes) && IsOrder(order, quotes) && OneBase(base, AllQuotes(quotes, fiat))
    requires Answers(None, c.Rates(), TableAfter(quotes, order, fiat))
    ensures var all := AllQuotes(quotes, fiat);
            c.Lookup(from, to) == Ok(rate) <==>
            if c.Alias(from) == c.Alias(to) then rate == 1.0
            else exists v, w :: IsWorth(base, c.Alias(from), v, all) && IsWorth(base, c.Alias(to), w, all) && Times(rate, v) == w
  {
    var all := AllQuotes(quotes, fiat);
    var x, y := c.Alias(from), c.Alias(to);
    OneBaseUpdate(quotes, order, fiat, base);
    if x != y {
      if v, w :| IsWorth(base, x, v, all) && IsWorth(base, y, w, all) {
        assert (x, y) in c.Rates() && c.Rates()[(x, y)] == w / v;
        QuotientIff(rate, v, w);
        OnlyOneWorth(base, x, all);
        OnlyOneWorth(base, y, all);
      } else {
        LookupFoundIff(c, quotes, order, fiat, from, to);
        if x in Mentioned(all) && y in Mentioned(all) {
          MentionedHasWorth(base, x, all);
          MentionedHasWorth(base, y, all);
        }
      }
    }
  }

  lemma QuotientIff(rate: real, v: real, w: real)
    requires v != 0.0
    ensures rate == w / v <==> Times(rate, v) == w
  {
    if Times(rate, v) == w {
      assert rate == w / v;
    } else {
      assert (w / v) * v == w;
    }
  }

  lemma OnlyOneWorth(base: Item?, x: Item?, quotes: set<Quote>)
    requires OneBase(base, quotes)
    ensures forall v, w :: IsWorth(base, x, v, quotes) && IsWorth(base, x, w, quotes) ==> v == w
  {
  }

  lemma MentionedHasWorth(base: Item?, x: Item?, quotes: set<Quote>)
    requires OneBase(base, quotes) && x in Mentioned(quotes)
    ensures exists w :: IsWorth(base, x, w, quotes)
  {
    if x == base {
      assert IsWorth(base, x, 1.0, quotes);
    } else {
      var q :| q in quotes && q.from != q.to && (x == q.from || x == q.to);
      assert IsWorth(base, x, q.rate, quotes);
    }
  }

  /**
  The lookup of a quoted pair finds the quoted rate if and only if the quotes give what the two
  currencies stand for that same ratio; so it does for currencies that stand for themselves.
  */
  lemma QuotedRateFoundIff(c: ConversionRates, quotes: map<string, real>, order: seq<string>, fiat: string -> Item?,
                           base: Item?, q: Quote)
    requires c.CodesDiffer() && Readable(quotes) && IsOrder(order, quotes) && OneBase(base, AllQuotes(quotes, fiat))
    requires Answers(None, c.Rates(), TableAfter(quotes, order, fiat))
    requires q in AllQuotes(quotes, fiat) && q.to != base
    ensures var all := AllQuotes(quotes, fiat);
            c.Lookup(base, q.to) == Ok(q.rate) <==>
            exists v, w :: IsWorth(base, c.Alias(base), v, all) && IsWorth(base, c.Alias(q.to), w, all) && Times(q.rate, v) == w
    ensures c.Alias(base) == base && c.Alias(q.to) == q.to ==> c.Lookup(base, q.to) == Ok(q.rate)
  {
    var all := AllQuotes(quotes, fiat);
    var x, y := c.Alias(base), c.Alias(q.to);
    OneBaseLookup(c, quotes, order, fiat, base, base, q.to, q.rate);
    assert IsWorth(base, base, 1.0, all) && IsWorth(base, q.to, q.rate, all);
    if x == y {
      assert x == base || x == q.to;
      var v := if x == base then 1.0 else q.rate;
      assert IsWorth(base, x, v, all);
      OnlyOneWorth(base, x, all);
      TimesItself(q.rate, v);
    }
  }

  lemma TimesItself(rate: real, v: real)
    requires v != 0.0
    ensures Times(rate, v) == v <==> rate == 1.0
  {
    QuotientIff(rate, v, v);
    assert v / v == 1.0;
  }

  /** The old code of the rouble is listed and rated, and yet a lookup does not find it. */
  lemma OldRoubleNotFound(c: ConversionRates, fiat: string -> Item?, order: seq<string>)
    requires c.CodesDiffer() && fiat("USD") == c.usd && fiat("RUR") == c.rur
    requires fiat("EUR") != c.usd && fiat("EUR") != c.rur && fiat("EUR") != c.rub
    requires IsOrder(order, map["USDRUR" := 70.0, "USDEUR" := 0.9])
    ensures Readable(map["USDRUR" := 70.0, "USDEUR" := 0.9])
    ensures TableAfter(map["USDRUR" := 70.0, "USDEUR" := 0.9], order, fiat).Some?
    ensures Answers(None, c.Rates(), TableAfter(map["USDRUR" := 70.0, "USDEUR" := 0.9], order, fiat)) ==>
              RateOf(c.Rates(), c.usd, c.rur) == Ok(70.0) && c.Lookup(c.usd, c.rur) == Err(RateNotFound)
  {
    var quotes := map["USDRUR" := 70.0, "USDEUR" := 0.9];
    assert "USDRUR"[..3] == "USD" && "USDRUR"[3..] == "RUR" && "USDEUR"[..3] == "USD" && "USDEUR"[3..] == "EUR";
    QuotesOfTwo("USDRUR", 70.0, "USDEUR", 0.9, fiat);
    var q, r := QuoteOf("USDRUR", 70.0, fiat), QuoteOf("USDEUR", 0.9, fiat);
    var all := AllQuotes(quotes, fiat);
    assert all == {q, r} && q in all && r in all;
    assert OneBase(c.usd, all);
    assert IsWorth(c.usd, c.usd, 1.0, all) && IsWorth(c.usd, c.rur, 70.0, all);
    OneBaseRate(quotes, order, fiat, c.usd, c.usd, c.rur, 1.0, 70.0);
    assert c.rub !in Mentioned(all);
    if Answers(None, c.Rates(), TableAfter(quotes, order, fiat)) {
      LookupFoundIff(c, quotes, order, fiat, c.usd, c.rur);
    }
  }

  lemma RegisteredRates(c: ConversionRates, from: Item?, to: Item?, conversion: Conversion)
    requires (from, to) in c.m && c.m[(from, to)] == conversion.rate
    requires (to, from) in c.m && c.m[(to, from)] == conversion.inverseRate
    ensures c.Rates()[(from, to)] == conversion.rate.rate && c.Rates()[(to, from)] == conversion.inverseRate.rate
  {
  }

  /**
  A conversion registered after an update from one base currency turns amounts of the base into the
  quoted rate times the amount, and its inverse divides them by it.
  */
  lemma ConvertsAtQuotedRate(c: ConversionRates, quotes: map<string, real>, order: seq<string>, fiat: string -> Item?,
                             base: Item?, q: Quote, conversion: Conversion, amount: real)
    requires Readable(quotes) && IsOrder(order, quotes) && OneBase(base, AllQuotes(quotes, fiat))
    requires Answers(None, c.Rates(), TableAfter(quotes, order, fiat))
    requires q in AllQuotes(quotes, fiat) && q.to != base
    requires conversion.from.item == base && conversion.to.item == q.to && !conversion.IsInvalid() && conversion.IsFiat()
    requires (base, q.to) in c.m && c.m[(base, q.to)] == conversion.rate
    requires (q.to, base) in c.m && c.m[(q.to, base)] == conversion.inverseRate
    ensures conversion.Convert(amount) == Ok(Times(q.rate, amount))
    ensures q.rate != 0.0 && conversion.ConvertInverse(amount) == Ok(Times(1.0 / q.rate, amount))
  {
    var all := AllQuotes(quotes, fiat);
    assert IsWorth(base, base, 1.0, all) && IsWorth(base, q.to, q.rate, all);
    OneBaseRate(quotes, order, fiat, base, base, q.to, 1.0, q.rate);
    OneBaseRate(quotes, order, fiat, base, q.to, base, q.rate, 1.0);
    RegisteredRates(c, base, q.to, conversion);
    assert q.rate / 1.0 == q.rate;
  }
}
