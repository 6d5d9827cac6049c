/** The foreign exchange table and the conversions registered from it. Rates are real numbers. */
module Conversion {
  import opened Wrappers
  import opened Currency
  import opened CrossRates

  datatype Error = NoData | ValueNotFound | RateNotFound | IsCrypto | NotFiat

  datatype Quote = Quote(from: Item?, to: Item?, rate: real)

  /** A quote's key holds the three letters of one currency and then the other; fiat resolves a code. */
  function QuoteOf(key: string, rate: real, fiat: string -> Item?): Quote
    requires |key| >= 3
  {
    Quote(fiat(key[..3]), fiat(key[3..]), rate)
  }

  predicate Explains(q: Quote, a: Item?, b: Item?, rate: real) {
    (q.from == a && q.to == b && rate == q.rate) || (q.from == b && q.to == a && rate == Over(1.0, q.rate))
  }

  ghost predicate Explained(a: Item?, b: Item?, rate: real, quotes: set<Quote>) {
    exists q :: q in quotes && Explains(q, a, b, rate)
  }

  /** The currencies that some quote relates to another one. */
  ghost function Mentioned(quotes: set<Quote>): set<Item?> {
    (set q | q in quotes && q.from != q.to :: q.from) + (set q | q in quotes && q.from != q.to :: q.to)
  }

  ghost predicate AllExplained(direct: Table<Item?>, quotes: set<Quote>) {
    forall k :: k in direct ==> Explained(k.0, k.1, direct[k], quotes)
  }

  ghost predicate AllRated(direct: Table<Item?>, quotes: set<Quote>) {
    forall q :: q in quotes && q.from != q.to ==> (q.from, q.to) in direct
  }

  /** What reading some of the quotes, in any order, leaves: each direct rate comes from a quote, and each quote has a rate. */
  ghost predicate ReadFrom(direct: Table<Item?>, listed: set<Item?>, quotes: set<Quote>) {
    Inverse(direct) && Covers(direct, listed) && AllExplained(direct, quotes) && AllRated(direct, quotes) &&
    listed == Mentioned(quotes)
  }

  function Members(list: seq<Item?>): set<Item?> {
    set x | x in list
  }

  function AddQuote(direct: Table<Item?>, q: Quote): Table<Item?> {
    direct[(q.from, q.to) := q.rate][(q.to, q.from) := Over(1.0, q.rate)]
  }

  lemma AddQuoteInverse(direct: Table<Item?>, q: Quote)
    requires Inverse(direct) && q.from != q.to
    ensures Inverse(AddQuote(direct, q))
  {
    var t := AddQuote(direct, q);
    OverTimes(q.rate);
    forall k | k in t ensures InverseAt(t, k.0, k.1) {
      if k != (q.from, q.to) && k != (q.to, q.from) {
        assert InverseAt(direct, k.0, k.1);
      }
    }
  }

  lemma ExplainedOne(direct: Table<Item?>, quotes: set<Quote>, q: Quote)
    requires AllExplained(direct, quotes)
    ensures AllExplained(direct, quotes + {q})
    ensures q.from != q.to ==> AllExplained(AddQuote(direct, q), quotes + {q})
  {
    forall k | k in direct ensures Explained(k.0, k.1, direct[k], quotes + {q}) {
      var r :| r in quotes && Explains(r, k.0, k.1, direct[k]);
      assert r in quotes + {q};
    }
    var t := AddQuote(direct, q);
    forall k | k in t && q.from != q.to ensures Explained(k.0, k.1, t[k], quotes + {q}) {
      if k == (q.from, q.to) || k == (q.to, q.from) {
        assert q in quotes + {q} && Explains(q, k.0, k.1, t[k]);
      }
    }
  }

  lemma MentionedOne(quotes: set<Quote>, q: Quote)
    ensures Mentioned(quotes + {q}) == Mentioned(quotes) + if q.from == q.to then {} else {q.from, q.to}
  {
    if q.from != q.to {
      assert q in quotes + {q};
    }
  }

  lemma RatedOne(direct: Table<Item?>, quotes: set<Quote>, q: Quote)
    requires AllRated(direct, quotes)
    ensures if q.from == q.to then AllRated(direct, quotes + {q}) else AllRated(AddQuote(direct, q), quotes + {q})
  {
  }

  lemma ReadOne(direct: Table<Item?>, listed: set<Item?>, quotes: set<Quote>, q: Quote)
    requires ReadFrom(direct, listed, quotes)
    ensures if q.from == q.to then ReadFrom(direct, listed, quotes + {q})
            else ReadFrom(AddQuote(direct, q), listed + {q.from, q.to}, quotes + {q})
  {
    ExplainedOne(direct, quotes, q);
    MentionedOne(quotes, q);
    RatedOne(direct, quotes, q);
    if q.from != q.to {
      AddQuoteInverse(direct, q);
    }
  }

  /** The rate derived for one direction is the inverse of that for the other. */
  lemma CrossSwap(direct: Table<Item?>, main: Item?, a: Item?, b: Item?)
    requires Inverse(direct) && Cross(direct, main, a, b).Some?
    ensures Cross(direct, main, b, a) == Some(Over(1.0, Cross(direct, main, a, b).value))
  {
    assert (b, a) in direct ==> InverseAt(direct, b, a);
    CrossInverse(direct, main, a, b);
  }

  /** A rate of the main currency is direct or absent. */
  lemma MainIsDirect(direct: Table<Item?>, main: Item?, x: Item?)
    requires Inverse(direct) && Cross(direct, main, main, x).Some?
    ensures (main, x) in direct
  {
    assert (main, main) in direct ==> InverseAt(direct, main, main);
  }

  /** A matrix that is being filled. */
  predicate Partial(t: Table<Item?>, direct: Table<Item?>, main: Item?, listed: set<Item?>) {
    (forall k :: k in direct ==> k in t && t[k] == direct[k]) &&
    forall k :: k in t ==> k.0 in listed && k.1 in listed && HasCross(t, direct, main, k.0, k.1)
  }

  predicate RowDone(t: Table<Item?>, a: Item?, list: seq<Item?>, n: nat)
    requires n <= |list|
  {
    forall j :: 0 <= j < n && a != list[j] ==> (a, list[j]) in t
  }

  /** The rate to put in one missing place, derived from the matrix as filled so far. */
  method DeriveRate(t: Table<Item?>, ghost direct: Table<Item?>, main: Item?, base: Item?, term: Item?,
                    ghost listed: set<Item?>) returns (rate: Option<real>)
    requires Inverse(direct) && Partial(t, direct, main, listed)
    requires base in listed && term in listed && base != term && (base, term) !in t
    ensures rate == Cross(direct, main, base, term)
  {
    if (term, base) in t {
      assert HasCross(t, direct, main, term, base);
      CrossSwap(direct, main, term, base);
      return Some(Over(1.0, t[(term, base)]));
    }
    if (main, base) !in t {
      return None;
    }
    if (main, term) !in t {
      return None;
    }
    assert HasCross(t, direct, main, main, base) && HasCross(t, direct, main, main, term);
    MainIsDirect(direct, main, base);
    MainIsDirect(direct, main, term);
    return Some(Over(t[(main, term)], t[(main, base)]));
  }

  /** Fills one row; None when a value is not found. */
  method FillRow(t: Table<Item?>, ghost direct: Table<Item?>, list: seq<Item?>, main: Item?, base: Item?,
                 ghost listed: set<Item?>) returns (r: Option<Table<Item?>>)
    requires listed == Members(list) && base in listed && Inverse(direct) && Partial(t, direct, main, listed)
    ensures r.None? ==> !Fillable(direct, main, listed)
    ensures r.Some? ==> Partial(r.value, direct, main, listed) && RowDone(r.value, base, list, |list|)
    ensures r.Some? ==> forall k :: k in t ==> k in r.value
  {
    var solid := t;
    for j := 0 to |list|
      invariant Partial(solid, direct, main, listed) && RowDone(solid, base, list, j)
      invariant forall k :: k in t ==> k in solid
    {
      if base != list[j] && (base, list[j]) !in solid {
        var rate := DeriveRate(solid, direct, main, base, list[j], listed);
        if rate.None? {
          return None;
        }
        FillOne(solid, direct, main, listed, base, list[j], rate.value);
        solid := solid[(base, list[j]) := rate.value];
      }
    }
    return Some(solid);
  }

  predicate RowsDone(t: Table<Item?>, list: seq<Item?>, n: nat)
    requires n <= |list|
  {
    forall a :: 0 <= a < n ==> RowDone(t, list[a], list, |list|)
  }

  lemma NextRow(t: Table<Item?>, u: Table<Item?>, list: seq<Item?>, n: nat)
    requires n < |list| && RowsDone(t, list, n) && RowDone(u, list[n], list, |list|)
    requires forall k :: k in t ==> k in u
    ensures RowsDone(u, list, n + 1)
  {
    forall a | 0 <= a < n ensures RowDone(u, list[a], list, |list|) {
      assert RowDone(t, list[a], list, |list|);
    }
  }

  /** Fills the matrix row by row, reading what it has filled already; None when a value is not found. */
  method FillMatrix(direct: Table<Item?>, list: seq<Item?>, main: Item?) returns (r: Option<Table<Item?>>)
    requires Inverse(direct) && Covers(direct, Members(list))
    ensures r.Some? <==> Fillable(direct, main, Members(list))
    ensures r.Some? ==> IsFilled(r.value, direct, main, Members(list))
  {
    ghost var listed := Members(list);
    var solid := direct;
    StartPartial(direct, main, listed);
    for i := 0 to |list|
      invariant Partial(solid, direct, main, listed) && RowsDone(solid, list, i)
    {
      var row := FillRow(solid, direct, list, main, list[i], listed);
      if row.None? {
        return None;
      }
      NextRow(solid, row.value, list, i);
      solid := row.value;
    }
    PartialIsFilled(solid, direct, main, list);
    return Some(solid);
  }

  lemma StartPartial(direct: Table<Item?>, main: Item?, listed: set<Item?>)
    requires Inverse(direct) && Covers(direct, listed)
    ensures Partial(direct, direct, main, listed)
  {
    forall k | k in direct ensures HasCross(direct, direct, main, k.0, k.1) {
      assert InverseAt(direct, k.0, k.1);
    }
  }

  lemma PartialIsFilled(t: Table<Item?>, direct: Table<Item?>, main: Item?, list: seq<Item?>)
    requires Partial(t, direct, main, Members(list)) && RowsDone(t, list, |list|)
    ensures IsFilled(t, direct, main, Members(list)) && Fillable(direct, main, Members(list))
  {
    AllRows(t, list);
    forall a, b | a in Members(list) && b in Members(list) && a != b ensures Cross(direct, main, a, b).Some? {
      assert HasCross(t, direct, main, a, b);
    }
  }

  lemma AllRows(t: Table<Item?>, list: seq<Item?>)
    requires RowsDone(t, list, |list|)
    ensures forall a, b :: a in list && b in list && a != b ==> (a, b) in t
  {
  }

  lemma FillOne(t: Table<Item?>, direct: Table<Item?>, main: Item?, listed: set<Item?>, a: Item?, b: Item?, rate: real)
    requires Partial(t, direct, main, listed) && a in listed && b in listed && a != b && (a, b) !in t
    requires Cross(direct, main, a, b) == Some(rate)
    ensures Partial(t[(a, b) := rate], direct, main, listed)
  {
    var t' := t[(a, b) := rate];
    forall k | k in t' ensures k.0 in listed && k.1 in listed && HasCross(t', direct, main, k.0, k.1) {
      if k != (a, b) {
        assert HasCross(t, direct, main, k.0, k.1);
      }
    }
  }

  /** The rate the table gives: one for equal currencies. */
  function RateOf(t: Table<Item?>, from: Item?, to: Item?): Result<real, Error> {
    if from == to then Ok(1.0) else if (from, to) in t then Ok(t[(from, to)]) else Err(RateNotFound)
  }

  // ----- the heap form

  /** A rate that registered conversions share. */
  class Cell {
    var rate: real

    constructor (rate: real)
      ensures this.rate == rate
    {
      this.rate := rate;
    }
  }

  /** A registered conversion keeps the two cells it was given. */
  datatype Conversion = Conversion(from: Code, to: Code, rate: Cell, inverseRate: Cell) {
    predicate IsInvalid() {
      from.item == null || to.item == null || from.item == to.item
    }

    predicate IsFiat()
      reads from.item, to.item
    {
      from.item != null && from.item.role == FIAT && to.item != null && to.item.role == FIAT
    }

    function Convert(amount: real): Result<real, Error>
      reads from.item, to.item, rate
    {
      if IsInvalid() then Ok(amount) else if !IsFiat() then Err(NotFiat) else Ok(Times(rate.rate, amount))
    }

    function ConvertInverse(amount: real): Result<real, Error>
      reads from.item, to.item, inverseRate
    {
      if IsInvalid() then Ok(amount) else if !IsFiat() then Err(NotFiat) else Ok(Times(inverseRate.rate, amount))
    }

    predicate Mutual()
      reads rate, inverseRate
    {
      inverseRate.rate == Over(1.0, rate.rate)
    }
  }

  lemma TimesBack(x: real, y: real, amount: real)
    requires Times(x, y) == 1.0
    ensures Times(y, Times(x, amount)) == amount
  {
    assert y * (x * amount) == (x * y) * amount;
  }

  /** Converting there and back at a rate that is not zero, or between equal currencies, returns the amount. */
  lemma ConvertBack(c: Conversion, amount: real)
    requires c.Mutual() && (c.IsInvalid() || c.rate.rate != 0.0) && c.Convert(amount).Ok?
    ensures c.ConvertInverse(c.Convert(amount).value) == Ok(amount)
  {
    if !c.IsInvalid() {
      OverTimes(c.rate.rate);
      TimesBack(c.rate.rate, c.inverseRate.rate, amount);
    }
  }

  class ConversionRates {
    const usd: Item
    const usdt: Item
    const rub: Item
    const rur: Item
    var m: map<(Item?, Item?), Cell>

    constructor (usd: Item, usdt: Item, rub: Item, rur: Item)
      requires usd != usdt && usd != rub && usd != rur && usdt != rub && usdt != rur && rub != rur
      ensures m == map[] && Valid()
      ensures this.usd == usd && this.usdt == usdt && this.rub == rub && this.rur == rur
    {
      this.usd, this.usdt, this.rub, this.rur := usd, usdt, rub, rur;
      m := map[];
    }

    ghost function Cells(): set<Cell>
      reads this
    {
      set k | k in m :: m[k]
    }

    ghost function Rates(): Table<Item?>
      reads this, Cells()
    {
      map k | k in m :: m[k].rate
    }

    predicate CodesDiffer() {
      usd != usdt && usd != rub && usd != rur && usdt != rub && usdt != rur && rub != rur
    }

    ghost predicate Valid()
      reads this, Cells()
    {
      CodesDiffer() && Inverse(Rates())
    }

    /** Tether stands for the dollar, and the old code of the rouble for the new one. */
    function Alias(i: Item?): Item? {
      var j := if i == usdt then usd else i;
      if j == rur then rub else j
    }

    /** The answer of a lookup: the rate the table gives for what the currencies stand for. */
    ghost function Lookup(from: Item?, to: Item?): Result<real, Error>
      reads this, Cells()
    {
      RateOf(Rates(), Alias(from), Alias(to))
    }

    method GetRate(from: Code, to: Code) returns (r: Result<real, Error>)
      ensures r == Lookup(from.item, to.item)
      // Currencies that stand for themselves are looked up as they are.
      ensures from.item != usdt && from.item != rur && to.item != usdt && to.item != rur ==>
                if from.item == to.item then r == Ok(1.0)
                else if (from.item, to.item) in m then r == Ok(m[(from.item, to.item)].rate)
                else r == Err(RateNotFound)
    {
      var f, t := from.item, to.item;
      if f == usdt {
        f := usd;
      }
      if t == usdt {
        t := usd;
      }
      if f == rur {
        f := rub;
      }
      if t == rur {
        t := rub;
      }
      if f == t {
        return Ok(1.0);
      }
      if (f, t) !in m {
        return Err(RateNotFound);
      }
      return Ok(m[(f, t)].rate);
    }

    /** Registers a conversion: it gets the table's own cells, whose rates are mutually inverse. */
    method Register(from: Code, to: Code) returns (r: Result<Conversion, Error>)
      requires Valid()
      ensures from.IsCryptocurrency() || to.IsCryptocurrency() ==> r == Err(IsCrypto)
      ensures !from.IsCryptocurrency() && !to.IsCryptocurrency() ==>
                (r.Ok? <==> (from.item, to.item) in m) &&
                (r.Err? ==> r.error == RateNotFound)
      ensures r.Ok? ==> r.value.from == from && r.value.to == to && r.value.Mutual() &&
                        m[(from.item, to.item)] == r.value.rate && m[(to.item, from.item)] == r.value.inverseRate
    {
      if from.IsCryptocurrency() || to.IsCryptocurrency() {
        return Err(IsCrypto);
      }
      var f, t := from.item, to.item;
      if (f, t) !in m {
        return Err(RateNotFound);
      }
      assert (f, t) in Rates() && InverseAt(Rates(), f, t);
      if (t, f) !in m {
        return Err(RateNotFound);
      }
      return Ok(Conversion(from, to, m[(f, t)], m[(t, f)]));
    }

    /** Puts the rates into new cells. */
    method AllocateCells(table: Table<Item?>)
      requires CodesDiffer() && Inverse(table)
      modifies this
      ensures Valid() && Rates() == table && fresh(Cells())
    {
      m := map[];
      var left := table.Keys;
      while left != {}
        invariant left <= table.Keys && m.Keys == table.Keys - left
        invariant forall k :: k in m ==> fresh(m[k]) && m[k].rate == table[k]
        decreases left
      {
        var k :| k in left;
        var cell := new Cell(table[k]);
        m := m[k := cell];
        left := left - {k};
      }
    }

    /** Puts a table in place, or answers that a value has not been found. */
    method Install(table: Option<Table<Item?>>) returns (r: Option<Error>)
      requires Valid() && (table.Some? ==> Inverse(table.value))
      modifies this
      ensures Valid() && Answers(r, Rates(), table)
      ensures r.Some? ==> m == old(m)
      ensures r.None? ==> fresh(Cells())
    {
      if table.None? {
        return Some(ValueNotFound);
      }
      AllocateCells(table.value);
      return None;
    }

    /**
    Replaces the table by the cross rates of the quotes, read in some order. On an error the old table
    stays; old cells, and with them the conversions registered before, keep their rates in either case.
    */
    method Update(quotes: map<string, real>, fiat: string -> Item?) returns (r: Option<Error>, ghost order: seq<string>)
      requires Valid() && Readable(quotes) && Resolves(fiat)
      modifies this
      ensures Valid()
      ensures quotes == map[] ==> r == Some(NoData)
      ensures quotes != map[] ==> IsOrder(order, quotes) && Answers(r, Rates(), TableAfter(quotes, order, fiat))
      ensures r.Some? ==> m == old(m)
      ensures r.None? ==> fresh(Cells())
      ensures forall c: Cell :: old(allocated(c)) ==> c.rate == old(c.rate)
    {
      order := [];
      if |quotes| == 0 {
        assert quotes == map[];
        return Some(NoData), order;
      }
      var table: Option<Table<Item?>>;
      table, order := ComputeTable(quotes, fiat);
      r := Install(table);
    }
  }

  /** What an update answers and the rates it leaves, given the table it computes. */
  ghost predicate Answers(r: Option<Error>, rates: Table<Item?>, table: Option<Table<Item?>>) {
    if table.Some? then r == None && rates == table.value else r == Some(ValueNotFound)
  }

  // ----- reading the quotes

  /** A key has the three letters of its first currency. */
  predicate Readable(quotes: map<string, real>) {
    forall key :: key in quotes ==> |key| >= 3
  }

  /** A code names a currency unless it is empty. */
  ghost predicate Resolves(fiat: string -> Item?) {
    forall code :: fiat(code) == null <==> code == ""
  }

  /** An order in which the keys can be met. */
  ghost predicate IsOrder(order: seq<string>, quotes: map<string, real>) {
    order != [] && Distinct(order) && forall key :: key in order <==> key in quotes
  }

  ghost predicate KeysOf(keys: seq<string>, quotes: map<string, real>) {
    forall key :: key in keys ==> key in quotes
  }

  /** The quotes of some of the keys. */
  ghost function QuotesAt(quotes: map<string, real>, keys: seq<string>, fiat: string -> Item?): set<Quote>
    requires Readable(quotes)
  {
    set key | key in keys && key in quotes :: QuoteOf(key, quotes[key], fiat)
  }

  ghost function AllQuotes(quotes: map<string, real>, fiat: string -> Item?): set<Quote>
    requires Readable(quotes)
  {
    set key | key in quotes :: QuoteOf(key, quotes[key], fiat)
  }

  /** The direct rates after the quotes of some keys have been read one after the other. */
  ghost function DirectAfter(quotes: map<string, real>, keys: seq<string>, fiat: string -> Item?): Table<Item?>
    requires Readable(quotes) && KeysOf(keys, quotes)
  {
    if keys == [] then map[]
    else
      var n := |keys| - 1;
      var q := QuoteOf(keys[n], quotes[keys[n]], fiat);
      var before := DirectAfter(quotes, keys[..n], fiat);
      if q.from == q.to then before else AddQuote(before, q)
  }

  /** The currencies listed by then. */
  ghost function ListedAfter(quotes: map<string, real>, keys: seq<string>, fiat: string -> Item?): set<Item?>
    requires Readable(quotes) && KeysOf(keys, quotes)
  {
    if keys == [] then {}
    else
      var n := |keys| - 1;
      var q := QuoteOf(keys[n], quotes[keys[n]], fiat);
      var before := ListedAfter(quotes, keys[..n], fiat);
      if q.from == q.to then before else before + {q.from, q.to}
  }

  /** The first currency of the first key. */
  ghost function MainOf(quotes: map<string, real>, order: seq<string>, fiat: string -> Item?): Item?
    requires Readable(quotes) && IsOrder(order, quotes)
  {
    fiat(order[0][..3])
  }

  /** The table that an update makes when it meets the quotes in the given order, if it makes one. */
  ghost function TableAfter(quotes: map<string, real>, order: seq<string>, fiat: string -> Item?): Option<Table<Item?>>
    requires Readable(quotes) && IsOrder(order, quotes)
  {
    var direct := DirectAfter(quotes, order, fiat);
    var listed := ListedAfter(quotes, order, fiat);
    var main := MainOf(quotes, order, fiat);
    if Fillable(direct, main, listed) then Some(Filled(direct, main, listed)) else None
  }

  lemma QuotesOneMore(quotes: map<string, real>, keys: seq<string>, fiat: string -> Item?)
    requires Readable(quotes) && KeysOf(keys, quotes) && keys != []
    ensures var n := |keys| - 1;
            QuotesAt(quotes, keys, fiat) == QuotesAt(quotes, keys[..n], fiat) + {QuoteOf(keys[n], quotes[keys[n]], fiat)}
  {
    var n := |keys| - 1;
    assert keys == keys[..n] + [keys[n]];
    assert forall key :: key in keys <==> key in keys[..n] || key == keys[n];
  }

  /** Reading keeps the direct rates inverse to each other, and the quotes account for all of them. */
  lemma {:induction false} ReadInOrder(quotes: map<string, real>, keys: seq<string>, fiat: string -> Item?)
    requires Readable(quotes) && KeysOf(keys, quotes)
    ensures ReadFrom(DirectAfter(quotes, keys, fiat), ListedAfter(quotes, keys, fiat), QuotesAt(quotes, keys, fiat))
  {
    if keys != [] {
      var n := |keys| - 1;
      ReadInOrder(quotes, keys[..n], fiat);
      QuotesOneMore(quotes, keys, fiat);
      ReadOne(DirectAfter(quotes, keys[..n], fiat), ListedAfter(quotes, keys[..n], fiat),
              QuotesAt(quotes, keys[..n], fiat), QuoteOf(keys[n], quotes[keys[n]], fiat));
    }
  }

  /** Enters one quote and its inverse, and lists its currencies. */
  method EnterQuote(direct: Table<Item?>, list: seq<Item?>, q: Quote) returns (direct': Table<Item?>, list': seq<Item?>)
    ensures direct' == (if q.from == q.to then direct else AddQuote(direct, q))
    ensures Members(list') == if q.from == q.to then Members(list) else Members(list) + {q.from, q.to}
  {
    if q.from == q.to {
      return direct, list;
    }
    list' := list;
    if q.from !in list' {
      list' := list' + [q.from];
    }
    if q.to !in list' {
      list' := list' + [q.to];
    }
    assert Members(list') == Members(list) + {q.from, q.to};
    direct' := AddQuote(direct, q);
  }

  /** Reads the quotes in any order; the first one met gives the main currency. */
  method ReadQuotes(quotes: map<string, real>, fiat: string -> Item?)
    returns (direct: Table<Item?>, list: seq<Item?>, main: Item?, ghost order: seq<string>)
    requires quotes != map[] && Readable(quotes) && Resolves(fiat)
    ensures IsOrder(order, quotes) && main == MainOf(quotes, order, fiat)
    ensures direct == DirectAfter(quotes, order, fiat) && Members(list) == ListedAfter(quotes, order, fiat)
  {
    direct, list, main, order := map[], [], null, [];
    var left := quotes.Keys;
    while left != {}
      invariant left <= quotes.Keys && Distinct(order) && KeysOf(order, quotes)
      invariant forall key :: key in order <==> key in quotes && key !in left
      invariant direct == DirectAfter(quotes, order, fiat) && Members(list) == ListedAfter(quotes, order, fiat)
      invariant if order == [] then main == null else main != null && main == fiat(order[0][..3])
      decreases left
    {
      var key :| key in left;
      left := left - {key};
      var code1 := fiat(key[..3]);
      if main == null {
        main := code1;
      }
      var q := Quote(code1, fiat(key[3..]), quotes[key]);
      ghost var before := order;
      order := order + [key];
      assert order[..|order| - 1] == before;
      direct, list := EnterQuote(direct, list, q);
    }
    assert exists key :: key in quotes;
  }

  /** Reads the quotes and fills the matrix. */
  method ComputeTable(quotes: map<string, real>, fiat: string -> Item?)
    returns (r: Option<Table<Item?>>, ghost order: seq<string>)
    requires quotes != map[] && Readable(quotes) && Resolves(fiat)
    ensures IsOrder(order, quotes) && r == TableAfter(quotes, order, fiat)
    ensures r.Some? ==> Inverse(r.value)
  {
    var direct, list, main;
    direct, list, main, order := ReadQuotes(quotes, fiat);
    ReadInOrder(quotes, order, fiat);
    r := FillMatrix(direct, list, main);
    if r.Some? {
      FilledInverse(r.value, direct, main, Members(list));
      FilledIsFilled(direct, main, Members(list));
      OnlyOneFilled(r.value, Filled(direct, main, Members(list)), direct, main, Members(list));
    }
  }

  /** An amount stays as it is between equal or missing currencies; otherwise both have to be fiat currencies. */
  lemma ConvertCases(c: Conversion, amount: real)
    ensures c.from.item == null || c.to.item == null || c.from.item == c.to.item ==>
              c.Convert(amount) == c.ConvertInverse(amount) == Ok(amount)
    ensures c.from.item != null && c.to.item != null && c.from.item != c.to.item ==>
              if c.from.item.role == 1 && c.to.item.role == 1
              then c.Convert(amount) == Ok(Times(c.rate.rate, amount)) &&
                   c.ConvertInverse(amount) == Ok(Times(c.inverseRate.rate, amount))
              else c.Convert(amount) == c.ConvertInverse(amount) == Err(NotFiat)
  {
  }
}
