/** Printing pairs to a string and parsing them back, with the registry supplying the codes. */
module PairParsing {
  import opened Wrappers
  import opened Currency
  import opened Registry
  import P = Pairs

  datatype ParseError = TooShort | BlankInBase | BlankInQuote | NoDelimiter

  /** The ASCII punctuation characters; $ + < = > ^ ` | ~ are symbols. */
  predicate IsPunct(c: char) {
    ('!' <= c <= '/' && c != '$' && c != '+') || c == ':' || c == ';' || c == '?' || c == '@' ||
    '[' <= c <= ']' || c == '_' || c == '{' || c == '}'
  }

  const PUNCTUATION := "!\"#%&'()*,-./:;?@[\\]_{}"

  /** Of the printable characters exactly these count as punctuation. */
  lemma PunctuationIs(c: char)
    requires ' ' <= c <= '~'
    ensures IsPunct(c) <==> c in PUNCTUATION
  {
    var s := PUNCTUATION;
    assert s[0] == '!' && s[1] == '"' && s[2] == '#' && s[3] == '%' && s[4] == '&' && s[5] == '\'' && s[6] == '(';
    assert s[7] == ')' && s[8] == '*' && s[9] == ',' && s[10] == '-' && s[11] == '.' && s[12] == '/' && s[13] == ':';
    assert s[14] == ';' && s[15] == '?' && s[16] == '@' && s[17] == '[' && s[18] == '\\' && s[19] == ']';
    assert s[20] == '_' && s[21] == '{' && s[22] == '}';
  }

  predicate IsAlphanumeric(s: string) {
    forall i :: 0 <= i < |s| ==> 'A' <= s[i] <= 'Z' || 'a' <= s[i] <= 'z' || '0' <= s[i] <= '9'
  }

  /** The index of the first punctuation character, or the length. */
  function FirstPunct(s: string): (x: nat)
    ensures x <= |s| && (forall i :: 0 <= i < x ==> !IsPunct(s[i])) && (x < |s| ==> IsPunct(s[x]))
  {
    if s == "" then 0 else if IsPunct(s[0]) then 0 else 1 + FirstPunct(s[1..])
  }

  datatype RawPair = RawPair(base: string, delimiter: string, quote: string)

  function SplitPair(s: string): Result<RawPair, ParseError> {
    if |s| < 3 then Err(TooShort)
    else
      var x := FirstPunct(s);
      if x < |s| then Ok(RawPair(s[..x], [s[x]], s[x + 1..]))
      else if ' ' in s[..3] then Err(BlankInBase)
      else if ' ' in s[3..] then Err(BlankInQuote)
      else Ok(RawPair(s[..3], "", s[3..]))
  }

  /** A symbol of two names with one of the usual delimiters between them. */
  predicate IsDelimited(s: string, base: string, d: char, quote: string) {
    s == base + [d] + quote && |s| >= 3 && IsAlphanumeric(base) && (d == '-' || d == '_' || d == '/' || d == ':')
  }

  /** A delimited symbol splits at its delimiter, one of letters and digits alone after three characters. */
  lemma SplitsAsExpected(s: string)
    ensures forall base, d, quote :: IsDelimited(s, base, d, quote) ==> SplitPair(s) == Ok(RawPair(base, [d], quote))
    ensures |s| >= 3 && IsAlphanumeric(s) ==> SplitPair(s) == Ok(RawPair(s[..3], "", s[3..]))
    ensures SplitPair(s) == Err(TooShort) <==> |s| < 3
    ensures |s| >= 3 ==> (SplitPair(s).Err? <==> ' ' in s && forall i :: 0 <= i < |s| ==> !IsPunct(s[i]))
  {
    if |s| >= 3 {
      assert s == s[..3] + s[3..];
    }
    forall base, d, quote | IsDelimited(s, base, d, quote) ensures SplitPair(s) == Ok(RawPair(base, [d], quote)) {
      assert forall i :: 0 <= i < |base| ==> s[i] == base[i];
      assert s[|base|] == d && FirstPunct(s) == |base|;
      assert s[..|base|] == base && s[|base| + 1..] == quote;
    }
    if |s| >= 3 && IsAlphanumeric(s) {
      assert FirstPunct(s) == |s|;
      assert ' ' !in s;
    }
  }

  // ----- splitting and joining lists

  predicate IsAt(s: string, sep: string, i: nat) {
    i + |sep| <= |s| && s[i..i + |sep|] == sep
  }

  /** Where the separator is first found. */
  function IndexOf(s: string, sep: string): (r: Option<nat>)
    ensures r.Some? ==> IsAt(s, sep, r.value) && forall i :: 0 <= i < r.value ==> !IsAt(s, sep, i)
    ensures r.None? ==> forall i :: 0 <= i <= |s| ==> !IsAt(s, sep, i)
  {
    if |s| < |sep| then None
    else if s[..|sep|] == sep then Some(0)
    else
      assert forall i :: 0 < i <= |s| ==> (IsAt(s, sep, i) <==> IsAt(s[1..], sep, i - 1));
      match IndexOf(s[1..], sep)
      case None => None
      case Some(i) => Some(i + 1)
  }

  function Split(s: string, sep: string): (r: seq<string>)
    requires sep != ""
    ensures r != []
    decreases |s|
  {
    match IndexOf(s, sep)
    case None => [s]
    case Some(i) => [s[..i]] + Split(s[i + |sep|..], sep)
  }

  function Join(list: seq<string>): string {
    JoinWith(list, ",")
  }

  function JoinWith(list: seq<string>, sep: string): string {
    if list == [] then "" else if |list| == 1 then list[0] else list[0] + sep + JoinWith(list[1..], sep)
  }

  /** Joining the pieces gives the string back, and no piece has the separator in it. */
  lemma {:induction false} JoinSplit(s: string, sep: string)
    requires sep != ""
    ensures JoinWith(Split(s, sep), sep) == s
    ensures forall piece :: piece in Split(s, sep) ==> IndexOf(piece, sep) == None
    decreases |s|
  {
    var x := IndexOf(s, sep);
    if x.Some? {
      var i := x.value;
      var rest := s[i + |sep|..];
      JoinSplit(rest, sep);
      FirstPieceClean(s, sep, i);
      JoinFirst(s[..i], Split(rest, sep), sep);
      CutAt(s, sep, i);
    }
  }

  lemma JoinFirst(first: string, rest: seq<string>, sep: string)
    requires rest != []
    ensures JoinWith([first] + rest, sep) == first + sep + JoinWith(rest, sep)
  {
    assert ([first] + rest)[1..] == rest;
  }

  lemma CutAt(s: string, sep: string, i: nat)
    requires IsAt(s, sep, i)
    ensures s == s[..i] + sep + s[i + |sep|..]
  {
    assert s == s[..i] + s[i..i + |sep|] + s[i + |sep|..];
  }

  lemma FirstPieceClean(s: string, sep: string, i: nat)
    requires sep != "" && IndexOf(s, sep) == Some(i)
    ensures IndexOf(s[..i], sep) == None
  {
    var y := IndexOf(s[..i], sep);
    if y.Some? {
      assert IsAt(s[..i], sep, y.value);
      assert s[..i][y.value..y.value + |sep|] == s[y.value..y.value + |sep|];
      assert IsAt(s, sep, y.value);
    }
  }

  function Strings(ps: P.Pairs): seq<string> {
    seq(|ps|, i requires 0 <= i < |ps| => ps[i].String())
  }

  function Commas(s: string): nat {
    if s == "" then 0 else (if s[0] == ',' then 1 else 0) + Commas(s[1..])
  }

  lemma {:induction false} CommasConcat(a: string, b: string)
    ensures Commas(a + b) == Commas(a) + Commas(b)
  {
    if a == "" {
      assert a + b == b;
    } else {
      CommasConcat(a[1..], b);
      assert (a + b)[1..] == a[1..] + b;
    }
  }

  lemma {:induction false} IndexOfComma(s: string)
    ensures IndexOf(s, ",") == None <==> Commas(s) == 0
    ensures IndexOf(s, ",").Some? ==>
              var i := IndexOf(s, ",").value; s[i] == ',' && Commas(s[..i]) == 0 && Commas(s[i + 1..]) == Commas(s) - 1
  {
    if s != "" {
      assert s[..1] == [s[0]];
      if s[0] == ',' {
        assert s[..1] == ",";
      } else {
        assert s[..1][0] != ","[0];
        IndexOfComma(s[1..]);
        if IndexOf(s[1..], ",").Some? {
          var i := IndexOf(s[1..], ",").value;
          assert s[..i + 1][1..] == s[1..][..i] && s[1..][i + 1..] == s[i + 2..];
        }
      }
    }
  }

  /** Splitting at commas gives one piece more than there are commas. */
  lemma {:induction false} SplitCount(s: string)
    ensures |Split(s, ",")| == Commas(s) + 1
    decreases |s|
  {
    IndexOfComma(s);
    if IndexOf(s, ",").Some? {
      SplitCount(s[IndexOf(s, ",").value + 1..]);
    }
  }

  function TotalCommas(list: seq<string>): nat {
    if list == [] then 0 else Commas(list[0]) + TotalCommas(list[1..])
  }

  lemma {:induction false} JoinCommas(list: seq<string>)
    requires list != []
    ensures Commas(Join(list)) == |list| - 1 + TotalCommas(list)
  {
    if |list| > 1 {
      JoinCommas(list[1..]);
      CommasConcat(list[0] + ",", Join(list[1..]));
      CommasConcat(list[0], ",");
      assert Commas(",") == 1 + Commas(","[1..]);
    } else {
      assert list[1..] == [];
    }
  }

  /** Splitting undoes joining when no string holds a comma. */
  lemma {:induction false} SplitJoin(list: seq<string>)
    requires list != [] && TotalCommas(list) == 0
    ensures Split(Join(list), ",") == list
  {
    IndexOfComma(list[0]);
    if |list| == 1 {
      assert Split(list[0], ",") == [list[0]];
    } else {
      SplitJoin(list[1..]);
      FirstComma(list[0], Join(list[1..]));
      var s := list[0] + "," + Join(list[1..]);
      assert s[..|list[0]|] == list[0] && s[|list[0]| + 1..] == Join(list[1..]);
      assert list == [list[0]] + list[1..];
    }
  }

  lemma {:induction false} FirstComma(a: string, rest: string)
    requires Commas(a) == 0
    ensures IndexOf(a + "," + rest, ",") == Some(|a|)
  {
    var s := a + "," + rest;
    if a == "" {
      assert s[..1] == ",";
    } else {
      FirstComma(a[1..], rest);
      assert s[1..] == a[1..] + "," + rest;
      assert s[..1][0] == a[0] != ',';
    }
  }

  // ----- known codes

  /** The code a name is given when its symbol is registered already. */
  function Known(reg: Registry<Item>, name: string): Option<Code> {
    if name == "" then Some(EMPTY_CODE)
    else if At(reg, ToUpper(name)) == [] then None
    else Some(Code(At(reg, ToUpper(name))[0].item, HasUpperLetter(name)))
  }

  function KnownPair(reg: Registry<Item>, raw: RawPair): Option<Pair> {
    var base, quote := Known(reg, raw.base), Known(reg, raw.quote);
    if base.None? || quote.None? then None else Some(Pair(raw.delimiter, base.value, quote.value))
  }

  function ParseKnown(reg: Registry<Item>, s: string): Option<Pair> {
    match SplitPair(s)
    case Err(_) => None
    case Ok(raw) => KnownPair(reg, raw)
  }

  /** All the values, if every option has one. */
  function Collect<T>(xs: seq<Option<T>>): Option<seq<T>> {
    if xs == [] then Some([])
    else
      var front, last := Collect(xs[..|xs| - 1]), xs[|xs| - 1];
      if front.None? || last.None? then None else Some(front.value + [last.value])
  }

  lemma {:induction false} CollectAt<T>(xs: seq<Option<T>>)
    ensures Collect(xs).Some? <==> forall i :: 0 <= i < |xs| ==> xs[i].Some?
    ensures Collect(xs).Some? ==> |Collect(xs).value| == |xs|
    ensures Collect(xs).Some? ==> forall i :: 0 <= i < |xs| ==> xs[i] == Some(Collect(xs).value[i])
  {
    if xs != [] {
      var front := xs[..|xs| - 1];
      CollectAt(front);
      assert forall i :: 0 <= i < |front| ==> xs[i] == front[i];
    }
  }

  function Parses(reg: Registry<Item>, list: seq<string>): (r: seq<Option<Pair>>)
    ensures |r| == |list|
  {
    seq(|list|, i requires 0 <= i < |list| => ParseKnown(reg, list[i]))
  }

  function ParseAllKnown(reg: Registry<Item>, list: seq<string>): Option<P.Pairs> {
    Collect(Parses(reg, list))
  }

  /** The item is the first of its symbol, which is not empty. */
  predicate FirstRegistered(reg: Registry<Item>, code: Code) {
    code.item != null ==>
      code.item.symbol != "" && ToUpper(code.item.symbol) == code.item.symbol &&
      At(reg, code.item.symbol) != [] && At(reg, code.item.symbol)[0].item == code.item
  }

  /** Parsing a printed code finds its item again, and prints the same. */
  lemma KnownCode(reg: Registry<Item>, code: Code)
    requires FirstRegistered(reg, code)
    ensures var k := Known(reg, code.String());
            k.Some? && k.value.item == code.item && k.value.String() == code.String()
  {
    if code.item != null {
      var symbol := code.item.symbol;
      CaseFolds(symbol);
      assert |code.String()| == |symbol|;
      assert ToUpper(code.String()) == symbol;
      SameSpelling(symbol, code.String());
    }
  }

  /** A symbol and its lower-case form differ only if the symbol has an upper-case letter. */
  lemma SameSpelling(symbol: string, name: string)
    requires ToUpper(symbol) == symbol && (name == symbol || name == ToLower(symbol))
    ensures (if HasUpperLetter(name) then symbol else ToLower(symbol)) == name
  {
    assert !HasUpperLetter(ToLower(symbol));
    if !HasUpperLetter(name) && name == symbol {
      forall i | 0 <= i < |symbol| ensures ToLower(symbol)[i] == symbol[i] {
        assert !('A' <= name[i] <= 'Z');
      }
    }
  }

  /** The pairs whose printed form splits where they were put together. */
  predicate Parsable(p: Pair) {
    |p.String()| >= 3 &&
    ((|p.delimiter| == 1 && IsPunct(p.delimiter[0]) && FirstPunct(p.base.String()) == |p.base.String()|) ||
     (p.delimiter == "" && FirstPunct(p.String()) == |p.String()| && |p.base.String()| == 3 && ' ' !in p.String()))
  }

  lemma {:induction false} FirstPunctAfter(base: string, rest: string)
    requires FirstPunct(base) == |base| && rest != "" && IsPunct(rest[0])
    ensures FirstPunct(base + rest) == |base|
  {
    if base == "" {
      assert base + rest == rest;
    } else {
      FirstPunctAfter(base[1..], rest);
      assert (base + rest)[1..] == base[1..] + rest;
    }
  }

  lemma ParsableSplits(p: Pair)
    requires Parsable(p)
    ensures SplitPair(p.String()) == Ok(RawPair(p.base.String(), p.delimiter, p.quote.String()))
  {
    var s, base, quote := p.String(), p.base.String(), p.quote.String();
    assert s == base + (p.delimiter + quote);
    assert forall i :: 0 <= i < |base| ==> s[i] == base[i];
    if |p.delimiter| == 1 {
      var x := FirstPunct(s);
      assert s[|base|] == p.delimiter[0];
      assert x == |base|;
      assert s[x + 1..] == quote && [s[x]] == p.delimiter;
    } else {
      assert s[3..] == quote;
    }
  }

  lemma SplitsBack(p: Pair)
    ensures SplitPair(p.String()) == Ok(RawPair(p.base.String(), p.delimiter, p.quote.String())) <==> Parsable(p)
  {
    if Parsable(p) {
      ParsableSplits(p);
    }
    var s, base, quote := p.String(), p.base.String(), p.quote.String();
    if SplitPair(s) == Ok(RawPair(base, p.delimiter, quote)) {
      if FirstPunct(s) < |s| {
        assert forall i :: 0 <= i < |base| ==> s[i] == base[i];
        assert FirstPunct(base) == |base|;
      } else {
        assert s == s[..3] + s[3..];
      }
    }
  }

  /** What the round trip is for: the same currencies, printed the same. */
  predicate SameAs(q: Pair, p: Pair) {
    q.Equal(p) && q.String() == p.String()
  }

  /** Of first-registered codes, a printed pair parses to the same pair if and only if it is parsable. */
  lemma ParsePrinted(reg: Registry<Item>, p: Pair)
    requires RegInv(reg) && (forall symbol, i :: symbol in reg && 0 <= i < |reg[symbol]| ==> reg[symbol][i].item.symbol == symbol)
    requires FirstRegistered(reg, p.base) && FirstRegistered(reg, p.quote)
    ensures var q := ParseKnown(reg, p.String()); (q.Some? && SameAs(q.value, p)) <==> Parsable(p)
  {
    SplitsBack(p);
    KnownCode(reg, p.base);
    KnownCode(reg, p.quote);
    var q := ParseKnown(reg, p.String());
    if q.Some? && SameAs(q.value, p) {
      var raw := SplitPair(p.String()).value;
      SameLength(reg, raw.base, p.base);
      SameLength(reg, raw.quote, p.quote);
      SplitKeeps(p.String());
      SameCuts(raw, RawPair(p.base.String(), p.delimiter, p.quote.String()));
    }
  }

  lemma SplitKeeps(s: string)
    requires SplitPair(s).Ok?
    ensures var raw := SplitPair(s).value; raw.base + raw.delimiter + raw.quote == s
  {
  }

  lemma SameCuts(a: RawPair, b: RawPair)
    requires a.base + a.delimiter + a.quote == b.base + b.delimiter + b.quote
    requires |a.base| == |b.base| && |a.quote| == |b.quote|
    ensures a == b
  {
    var s := a.base + a.delimiter + a.quote;
    assert a.base == s[..|a.base|] == b.base;
    assert a.quote == s[|s| - |a.quote|..] == b.quote;
    assert a.delimiter == s[|a.base|..|s| - |a.quote|] == b.delimiter;
  }

  lemma SameLength(reg: Registry<Item>, name: string, code: Code)
    requires forall symbol, i :: symbol in reg && 0 <= i < |reg[symbol]| ==> reg[symbol][i].item.symbol == symbol
    requires Known(reg, name).Some? && Known(reg, name).value.item == code.item && FirstRegistered(reg, code)
    ensures |name| == |code.String()|
  {
  }

  // ----- lists

  lemma {:induction false} NoCommas(list: seq<string>)
    ensures TotalCommas(list) == 0 <==> forall i :: 0 <= i < |list| ==> Commas(list[i]) == 0
  {
    if list != [] {
      NoCommas(list[1..]);
      assert forall i :: 1 <= i < |list| ==> list[i] == list[1..][i - 1];
    }
  }

  predicate Filed(reg: Registry<Item>) {
    RegInv(reg) &&
    forall symbol, i :: symbol in reg && 0 <= i < |reg[symbol]| ==> reg[symbol][i].item.symbol == symbol
  }

  predicate SameList(qs: P.Pairs, ps: P.Pairs) {
    |qs| == |ps| && forall i :: 0 <= i < |ps| ==> SameAs(qs[i], ps[i])
  }

  /** The option holds the pair again. */
  predicate GivesBack(q: Option<Pair>, p: Pair) {
    q.Some? && SameAs(q.value, p)
  }

  lemma CollectSame(xs: seq<Option<Pair>>, ps: P.Pairs)
    ensures (Collect(xs).Some? && SameList(Collect(xs).value, ps)) <==>
              |xs| == |ps| && forall i :: 0 <= i < |ps| ==> GivesBack(xs[i], ps[i])
  {
    CollectAt(xs);
    if Collect(xs).Some? && SameList(Collect(xs).value, ps) {
      forall i | 0 <= i < |ps| ensures GivesBack(xs[i], ps[i]) {
        assert SameAs(Collect(xs).value[i], ps[i]);
      }
    }
  }

  predicate ListParsable(ps: P.Pairs) {
    ps != [] && forall i :: 0 <= i < |ps| ==> Parsable(ps[i]) && Commas(ps[i].String()) == 0
  }

  lemma JoinedPieces(ps: P.Pairs)
    requires ps != []
    ensures var pieces := Split(Join(Strings(ps)), ",");
            |pieces| == |ps| + TotalCommas(Strings(ps)) && (TotalCommas(Strings(ps)) == 0 ==> pieces == Strings(ps))
    ensures TotalCommas(Strings(ps)) == 0 <==> forall i :: 0 <= i < |ps| ==> Commas(ps[i].String()) == 0
  {
    var list := Strings(ps);
    JoinCommas(list);
    SplitCount(Join(list));
    NoCommas(list);
    if TotalCommas(list) == 0 {
      SplitJoin(list);
    }
    assert forall i :: 0 <= i < |ps| ==> list[i] == ps[i].String();
  }

  lemma ParseStrings(reg: Registry<Item>, ps: P.Pairs)
    requires Filed(reg)
    requires forall i :: 0 <= i < |ps| ==> FirstRegistered(reg, ps[i].base) && FirstRegistered(reg, ps[i].quote)
    ensures forall i :: 0 <= i < |ps| ==> (GivesBack(Parses(reg, Strings(ps))[i], ps[i]) <==> Parsable(ps[i]))
  {
    forall i | 0 <= i < |ps| ensures GivesBack(Parses(reg, Strings(ps))[i], ps[i]) <==> Parsable(ps[i]) {
      ParsePrinted(reg, ps[i]);
    }
  }

  lemma EmptyDoesNotParse(reg: Registry<Item>)
    ensures Parses(reg, Split(Join(Strings([])), ",")) == [None]
  {
    assert Split("", ",") == [""];
    assert ParseKnown(reg, "") == None;
  }

  /**
  Parsing undoes printing: of first-registered codes, the comma-joined list parses to the same pairs,
  printed the same, if and only if it is not empty and every pair is parsable and free of commas.
  */
  lemma ParseJoined(reg: Registry<Item>, ps: P.Pairs)
    requires Filed(reg)
    requires forall i :: 0 <= i < |ps| ==> FirstRegistered(reg, ps[i].base) && FirstRegistered(reg, ps[i].quote)
    ensures var r := ParseAllKnown(reg, Split(Join(Strings(ps)), ","));
            (r.Some? && SameList(r.value, ps)) <==> ListParsable(ps)
  {
    var pieces := Split(Join(Strings(ps)), ",");
    CollectSame(Parses(reg, pieces), ps);
    if ps == [] {
      EmptyDoesNotParse(reg);
    } else {
      JoinedPieces(ps);
      ParseStrings(reg, ps);
    }
  }

  // ----- the heap form

  /** The code that a name is registered as. */
  predicate IsNamed(code: Code, name: string) {
    if name == "" then code == EMPTY_CODE
    else code.item != null && code.item.symbol == ToUpper(name) && code.upperCase == HasUpperLetter(name)
  }

  predicate Splits(s: string) {
    SplitPair(s).Ok?
  }

  /** The pair has the delimiter that splits the string, and codes of the two names around it. */
  predicate Reads(p: Pair, s: string) {
    Splits(s) && p.delimiter == SplitPair(s).value.delimiter && IsNamed(p.base, SplitPair(s).value.base) &&
    IsNamed(p.quote, SplitPair(s).value.quote)
  }

  predicate AllSplit(list: seq<string>) {
    forall i :: 0 <= i < |list| ==> Splits(list[i])
  }

  method NewCode(codes: BaseCodes, name: string) returns (code: Code)
    requires codes.Valid()
    modifies codes, codes.Objects()
    ensures codes.Valid() && fresh(codes.Objects() - old(codes.Objects()))
    ensures IsNamed(code, name)
    ensures Known(old(codes.View()), name).Some? ==>
              code == Known(old(codes.View()), name).value && codes.View() == old(codes.View())
  {
    ghost var before := codes.View();
    code := codes.RegisterCode(name, UNSET);
    if name != "" && At(before, ToUpper(name)) != [] {
      assert before[ToUpper(name) := At(before, ToUpper(name))] == before;
    }
  }

  /** Parses a pair, splitting at the first punctuation character or else after three characters. */
  method NewPairFromString(codes: BaseCodes, s: string) returns (r: Result<Pair, ParseError>)
    requires codes.Valid()
    modifies codes, codes.Objects()
    ensures codes.Valid() && fresh(codes.Objects() - old(codes.Objects()))
    ensures r.Ok? <==> Splits(s)
    ensures r.Err? ==> r.error == SplitPair(s).error && codes.View() == old(codes.View())
    ensures r.Ok? ==> Reads(r.value, s)
    ensures forall base, d, quote :: IsDelimited(s, base, d, quote) ==>
              r.Ok? && r.value.delimiter == [d] && IsNamed(r.value.base, base) && IsNamed(r.value.quote, quote)
    ensures ParseKnown(old(codes.View()), s).Some? ==>
              r == Ok(ParseKnown(old(codes.View()), s).value) && codes.View() == old(codes.View())
  {
    SplitsAsExpected(s);
    var raw := SplitString(s);
    if raw.Err? {
      return Err(raw.error);
    }
    var pair := RegisterPair(codes, raw.value);
    return Ok(pair);
  }

  /** Finds the two names in a string before any code is registered. */
  method SplitString(s: string) returns (r: Result<RawPair, ParseError>)
    ensures r == SplitPair(s)
  {
    if |s| < 3 {
      return Err(TooShort);
    }
    var x := FindPunct(s);
    if x < |s| {
      return Ok(RawPair(s[..x], [s[x]], s[x + 1..]));
    }
    if ' ' in s[..3] {
      return Err(BlankInBase);
    }
    if ' ' in s[3..] {
      return Err(BlankInQuote);
    }
    return Ok(RawPair(s[..3], "", s[3..]));
  }

  method FindPunct(s: string) returns (x: nat)
    ensures x == FirstPunct(s)
  {
    for i := 0 to |s|
      invariant FirstPunct(s) >= i
    {
      if IsPunct(s[i]) {
        return i;
      }
    }
    return |s|;
  }

  /** Registers the base and then the quote of a split pair. */
  method RegisterPair(codes: BaseCodes, raw: RawPair) returns (p: Pair)
    requires codes.Valid()
    modifies codes, codes.Objects()
    ensures codes.Valid() && fresh(codes.Objects() - old(codes.Objects()))
    ensures p.delimiter == raw.delimiter && IsNamed(p.base, raw.base) && IsNamed(p.quote, raw.quote)
    ensures KnownPair(old(codes.View()), raw).Some? ==>
              p == KnownPair(old(codes.View()), raw).value && codes.View() == old(codes.View())
  {
    var base := NewCode(codes, raw.base);
    var quote := NewCode(codes, raw.quote);
    return Pair(raw.delimiter, base, quote);
  }

  method NewPairsFromStrings(codes: BaseCodes, list: seq<string>) returns (r: Result<P.Pairs, ParseError>)
    requires codes.Valid()
    modifies codes, codes.Objects()
    ensures codes.Valid() && fresh(codes.Objects() - old(codes.Objects()))
    ensures r.Ok? <==> AllSplit(list)
    ensures r.Ok? ==> |r.value| == |list| && forall i :: 0 <= i < |list| ==> Reads(r.value[i], list[i])
    ensures ParseAllKnown(old(codes.View()), list).Some? ==>
              r == Ok(ParseAllKnown(old(codes.View()), list).value) && codes.View() == old(codes.View())
  {
    ghost var reg := codes.View();
    ghost var now := reg;
    var pairs: P.Pairs := [];
    SoFarStart(reg, list);
    for i := 0 to |list|
      invariant codes.Valid() && fresh(codes.Objects() - old(codes.Objects()))
      invariant codes.View() == now && SoFar(reg, now, list, pairs, i)
    {
      var p := NewPairFromString(codes, list[i]);
      SoFarNext(reg, now, codes.View(), list, pairs, i, p);
      now := codes.View();
      if p.Err? {
        return Err(p.error);
      }
      pairs := pairs + [p.value];
    }
    SoFarEnd(reg, now, list, pairs);
    return Ok(pairs);
  }

  /** The first i strings split into pairs, which are the known ones if all of the list is known. */
  ghost predicate SoFar(reg: Registry<Item>, now: Registry<Item>, list: seq<string>, pairs: P.Pairs, i: nat) {
    i <= |list| && |pairs| == i && AllSplit(list[..i]) && (forall k :: 0 <= k < i ==> Reads(pairs[k], list[k])) &&
    (ParseAllKnown(reg, list).Some? ==> now == reg && pairs <= ParseAllKnown(reg, list).value)
  }

  lemma SoFarStart(reg: Registry<Item>, list: seq<string>)
    ensures SoFar(reg, reg, list, [], 0)
  {
  }

  lemma SoFarNext(reg: Registry<Item>, now: Registry<Item>, after: Registry<Item>, list: seq<string>, pairs: P.Pairs,
                  i: nat, p: Result<Pair, ParseError>)
    requires i < |list| && SoFar(reg, now, list, pairs, i)
    requires p.Ok? <==> Splits(list[i])
    requires p.Ok? ==> Reads(p.value, list[i])
    requires ParseKnown(now, list[i]).Some? ==> p == Ok(ParseKnown(now, list[i]).value) && after == now
    ensures p.Ok? ==> SoFar(reg, after, list, pairs + [p.value], i + 1)
    ensures p.Err? ==> !AllSplit(list) && ParseAllKnown(reg, list).None?
  {
    KnownAt(reg, list, i);
    AllSplitSnoc(list, i);
  }

  lemma KnownAt(reg: Registry<Item>, list: seq<string>, i: nat)
    requires i < |list|
    ensures var known := ParseAllKnown(reg, list);
            known.Some? ==> |known.value| == |list| && ParseKnown(reg, list[i]) == Some(known.value[i]) && Splits(list[i])
  {
    CollectAt(Parses(reg, list));
    assert Parses(reg, list)[i] == ParseKnown(reg, list[i]);
  }

  lemma AllSplitSnoc(list: seq<string>, i: nat)
    requires i < |list|
    ensures AllSplit(list[..i + 1]) <==> AllSplit(list[..i]) && Splits(list[i])
    ensures AllSplit(list) ==> Splits(list[i])
  {
    assert list[..i + 1] == list[..i] + [list[i]];
    assert forall k :: 0 <= k < i ==> list[..i + 1][k] == list[..i][k];
    assert list[..i + 1][i] == list[i];
  }

  lemma SoFarEnd(reg: Registry<Item>, now: Registry<Item>, list: seq<string>, pairs: P.Pairs)
    requires SoFar(reg, now, list, pairs, |list|)
    ensures AllSplit(list)
    ensures ParseAllKnown(reg, list).Some? ==> now == reg && ParseAllKnown(reg, list).value == pairs
  {
    CollectAt(Parses(reg, list));
    assert list[..|list|] == list;
  }

  /** Parses a list of pairs joined by a delimiter. */
  method NewPairsFromString(codes: BaseCodes, text: string, delimiter: string) returns (r: Result<P.Pairs, ParseError>)
    requires codes.Valid()
    modifies codes, codes.Objects()
    ensures codes.Valid()
    ensures delimiter == "" ==> r == Err(NoDelimiter)
    ensures delimiter != "" ==>
              (r.Ok? <==> AllSplit(Split(text, delimiter))) &&
              (r.Ok? ==> |r.value| == |Split(text, delimiter)| &&
                         forall i :: 0 <= i < |r.value| ==> Reads(r.value[i], Split(text, delimiter)[i]))
    ensures delimiter != "" && ParseAllKnown(old(codes.View()), Split(text, delimiter)).Some? ==>
              r == Ok(ParseAllKnown(old(codes.View()), Split(text, delimiter)).value) && codes.View() == old(codes.View())
  {
    if delimiter == "" {
      return Err(NoDelimiter);
    }
    r := NewPairsFromStrings(codes, Split(text, delimiter));
  }
}
