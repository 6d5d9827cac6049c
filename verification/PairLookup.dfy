/** Finding a pair by its symbol string, and conforming a list to one format without repeated names. */
module PairLookup {
  import opened Wrappers
  import opened Currency
  import opened Pairs
  import opened PairChanges

  function Names(ps: Pairs): (r: seq<string>)
    ensures |r| == |ps|
  {
    seq(|ps|, i requires 0 <= i < |ps| => ps[i].Stripped())
  }

  /** The first pair with a stripped name. */
  function FirstNamed(ps: Pairs, name: string): (r: Option<Pair>)
    ensures r.Some? ==> r.value in ps && r.value.Stripped() == name
    ensures r.None? <==> name !in Names(ps)
  {
    if ps == [] then None
    else if ps[0].Stripped() == name then
      assert Names(ps)[0] == name;
      Some(ps[0])
    else
      assert Names(ps) == [ps[0].Stripped()] + Names(ps[1..]);
      FirstNamed(ps[1..], name)
  }

  /** The pair with the name before which no other has it is the one found. */
  lemma {:induction false} FirstNamedIs(ps: Pairs, name: string, i: nat)
    requires i < |ps| && ps[i].Stripped() == name && forall j :: 0 <= j < i ==> ps[j].Stripped() != name
    ensures FirstNamed(ps, name) == Some(ps[i])
  {
    if i > 0 {
      FirstNamedIs(ps[1..], name, i - 1);
    }
  }

  function DeriveOutcome(ps: Pairs, symbol: string): Result<Pair, Error> {
    if ps == [] then Err(NoPairs)
    else if symbol == "" then Err(SymbolEmpty)
    else
      match FirstNamed(ps, ToLower(symbol))
      case None => Err(NotFound)
      case Some(p) => Ok(p)
  }

  /** Compares a part with the characters of the symbol from an offset on. */
  method PartMatches(part: string, symbol: string, offset: nat) returns (same: bool)
    requires offset + |part| <= |symbol|
    ensures same == (symbol[offset..offset + |part|] == part)
  {
    for y := 0 to |part|
      invariant part[..y] == symbol[offset..offset + y]
    {
      if part[y] != symbol[offset + y] {
        assert symbol[offset..offset + |part|][y] != part[y];
        return false;
      }
    }
    assert part[..|part|] == part;
    return true;
  }

  lemma SpelledInParts(base: string, quote: string, symbol: string)
    requires |base| + |quote| == |symbol|
    ensures base + quote == symbol <==> symbol[0..0 + |base|] == base && symbol[|base|..|base| + |quote|] == quote
  {
    assert symbol == symbol[0..0 + |base|] + symbol[|base|..|base| + |quote|];
    assert (base + quote)[0..0 + |base|] == base && (base + quote)[|base|..|base| + |quote|] == quote;
  }

  /** Compares lengths, then base, then quote with the symbol. */
  method Spells(p: Pair, symbol: string) returns (same: bool)
    ensures same == (p.Stripped() == symbol)
  {
    if |p.base.String()| + |p.quote.String()| != |symbol| {
      return false;
    }
    var base, quote := p.base.Name(), p.quote.Name();
    SpelledInParts(base, quote, symbol);
    same := PartMatches(base, symbol, 0);
    if same {
      same := PartMatches(quote, symbol, |base|);
    }
  }

  method DeriveFrom(ps: Pairs, symbol: string) returns (r: Result<Pair, Error>)
    ensures r == DeriveOutcome(ps, symbol)
    ensures r.Ok? ==> exists i :: 0 <= i < |ps| && r.value == ps[i] && ToLower(symbol) == ps[i].Stripped() &&
                                  forall j :: 0 <= j < i ==> ps[j].Stripped() != ToLower(symbol)
    ensures ps == [] ==> r == Err(NoPairs)
    ensures ps != [] && symbol == "" ==> r == Err(SymbolEmpty)
    ensures ps != [] && symbol != "" ==> (r == Err(NotFound) <==> ToLower(symbol) !in Names(ps))
  {
    if |ps| == 0 {
      return Err(NoPairs);
    }
    if symbol == "" {
      return Err(SymbolEmpty);
    }
    var lower := ToLower(symbol);
    for x := 0 to |ps|
      invariant FirstNamed(ps, lower) == FirstNamed(ps[x..], lower)
      invariant forall j :: 0 <= j < x ==> ps[j].Stripped() != lower
    {
      assert ps[x..][0] == ps[x] && ps[x..][1..] == ps[x + 1..];
      var same := Spells(ps[x], lower);
      if same {
        return Ok(ps[x]);
      }
    }
    return Err(NotFound);
  }

  // ----- ValidateAndConform

  /** The first pair, scanning from the front, that is empty or repeats a stripped name. */
  function ConformError(ps: Pairs): Option<Error> {
    if ps == [] then None
    else
      var front, last := ps[..|ps| - 1], ps[|ps| - 1];
      if ConformError(front).Some? then ConformError(front)
      else if last.IsEmpty() then Some(PairEmpty)
      else if last.Stripped() in Names(front) then Some(Duplication)
      else None
  }

  function Conformed(ps: Pairs, f: PairFormat, bypass: bool): (r: Pairs)
    ensures |r| == |ps|
  {
    seq(|ps|, i requires 0 <= i < |ps| => if bypass then ps[i] else ps[i].Format(f))
  }

  function ConformOutcome(ps: Pairs, f: PairFormat, bypass: bool): Result<Pairs, Error> {
    match ConformError(ps)
    case Some(e) => Err(e)
    case None => Ok(Conformed(ps, f, bypass))
  }

  lemma {:induction false} ConformErrorSticks(ps: Pairs, n: nat)
    requires n <= |ps| && ConformError(ps[..n]).Some?
    ensures ConformError(ps) == ConformError(ps[..n])
    decreases |ps| - n
  {
    if n < |ps| {
      assert ps[..n + 1][..n] == ps[..n];
      ConformErrorSticks(ps, n + 1);
    } else {
      assert ps[..n] == ps;
    }
  }

  method ValidateAndConform(ps: Pairs, f: PairFormat, bypass: bool) returns (r: Result<Pairs, Error>)
    ensures r == ConformOutcome(ps, f, bypass)
  {
    var processed: set<string> := {};
    var formatted: Pairs := [];
    for x := 0 to |ps|
      invariant ConformError(ps[..x]) == None
      invariant forall n :: n in processed <==> n in Names(ps[..x])
      invariant formatted == Conformed(ps[..x], f, bypass)
    {
      Extend(ps, x);
      assert Names(ps[..x + 1]) == Names(ps[..x]) + [ps[x].Stripped()];
      if ps[x].IsEmpty() {
        ConformErrorSticks(ps, x + 1);
        return Err(PairEmpty);
      }
      FormatKeeps(ps[x], f);
      var stripped := ps[x].Format(EMPTY_FORMAT).String();
      if stripped in processed {
        ConformErrorSticks(ps, x + 1);
        return Err(Duplication);
      }
      processed := processed + {stripped};
      formatted := formatted + [if bypass then ps[x] else ps[x].Format(f)];
    }
    assert ps[..|ps|] == ps;
    return Ok(formatted);
  }

  /** A list conforms exactly when it has no empty pair and no two pairs with the same stripped name. */
  lemma {:induction false} ConformMeans(ps: Pairs)
    ensures ConformError(ps) == None <==> !AnyEmpty(ps) && Distinct(Names(ps))
  {
    if ps != [] {
      var front, last := ps[..|ps| - 1], ps[|ps| - 1];
      ConformMeans(front);
      assert ps == front + [last];
      assert Names(ps) == Names(front) + [last.Stripped()];
      AnyEmptySnoc(front, last);
      DistinctSnoc(Names(front), last.Stripped());
    }
  }

  /** The error is for the first pair that is empty or repeats a name before it, and says which of the two. */
  lemma {:induction false} ConformErrorMeans(ps: Pairs)
    ensures ConformError(ps).Some? ==>
              exists n :: 0 <= n < |ps| && ConformError(ps[..n]) == None &&
                ConformError(ps) == Some(if ps[n].IsEmpty() then PairEmpty else Duplication) &&
                (ps[n].IsEmpty() || ps[n].Stripped() in Names(ps[..n]))
  {
    if ps != [] {
      var m := |ps| - 1;
      if ConformError(ps[..m]).Some? {
        ConformErrorMeans(ps[..m]);
        var n :| 0 <= n < m && ConformError(ps[..m][..n]) == None &&
                 ConformError(ps[..m]) == Some(if ps[..m][n].IsEmpty() then PairEmpty else Duplication) &&
                 (ps[..m][n].IsEmpty() || ps[..m][n].Stripped() in Names(ps[..m][..n]));
        assert ps[..m][..n] == ps[..n] && ps[..m][n] == ps[n];
      }
    }
  }

  /** Conforming keeps currencies and names; it puts every pair in the format, or, bypassed, leaves the list as it is. */
  lemma ConformedKeeps(ps: Pairs, f: PairFormat, bypass: bool)
    ensures var r := Conformed(ps, f, bypass);
            Keys(r) == Keys(ps) && Names(r) == Names(ps) && (AnyEmpty(r) <==> AnyEmpty(ps)) &&
            (!bypass ==> !AnyFormatDifference(r, f)) && (bypass ==> r == ps)
  {
    var r := Conformed(ps, f, bypass);
    forall i | 0 <= i < |ps|
      ensures r[i].Key() == ps[i].Key() && r[i].Stripped() == ps[i].Stripped()
      ensures r[i].IsEmpty() <==> ps[i].IsEmpty()
      ensures !bypass ==> !r[i].HasFormatDifference(f)
    {
      FormatKeeps(ps[i], f);
    }

  }

  /** Distinct names make distinct currencies, and pairs of equal key have equal names. */
  lemma NameOfKey(p: Pair, q: Pair)
    requires p.Key() == q.Key()
    ensures p.Stripped() == q.Stripped()
  {
  }

  lemma DistinctNamesDistinctKeys(ps: Pairs)
    requires Distinct(Names(ps))
    ensures Distinct(Keys(ps))
  {
    forall i, j | 0 <= i < j < |ps| ensures Keys(ps)[i] != Keys(ps)[j] {
      assert Names(ps)[i] != Names(ps)[j];
    }
  }
}
