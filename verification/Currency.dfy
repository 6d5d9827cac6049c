/** Symbols, currency items, codes and pairs. Strings are ASCII. */
module Currency {
  import opened Wrappers

  function LowerChar(c: char): char {
    if 'A' <= c <= 'Z' then (c as int + 32) as char else c
  }

  function UpperChar(c: char): char {
    if 'a' <= c <= 'z' then (c as int - 32) as char else c
  }

  function ToLower(s: string): (r: string)
    ensures |r| == |s|
  {
    seq(|s|, i requires 0 <= i < |s| => LowerChar(s[i]))
  }

  function ToUpper(s: string): (r: string)
    ensures |r| == |s|
  {
    seq(|s|, i requires 0 <= i < |s| => UpperChar(s[i]))
  }

  predicate HasUpperLetter(s: string) {
    exists i :: 0 <= i < |s| && 'A' <= s[i] <= 'Z'
  }

  /** Letter case is all that upper- and lower-casing forget. */
  lemma CaseFolds(s: string)
    ensures ToUpper(ToUpper(s)) == ToUpper(s) && ToUpper(ToLower(s)) == ToUpper(s)
    ensures ToLower(ToLower(s)) == ToLower(s) && ToLower(ToUpper(s)) == ToLower(s)
  {
  }

  const UPPER_LETTERS := "ABCDEFGHIJKLMNOPQRSTUVWXYZ"
  const LOWER_LETTERS := "abcdefghijklmnopqrstuvwxyz"

  /** Casing exchanges the letters of the two alphabets, one for one, and leaves other characters alone. */
  lemma CasingIsOfLetters(c: char)
    ensures forall i :: 0 <= i < 26 ==> LowerChar(UPPER_LETTERS[i]) == LOWER_LETTERS[i]
    ensures forall i :: 0 <= i < 26 ==> UpperChar(LOWER_LETTERS[i]) == UPPER_LETTERS[i]
    ensures c !in UPPER_LETTERS ==> LowerChar(c) == c
    ensures c !in LOWER_LETTERS ==> UpperChar(c) == c
    ensures HasUpperLetter([c]) <==> c in UPPER_LETTERS
  {
    assert forall i :: 0 <= i < 26 ==> UPPER_LETTERS[i] as int == 65 + i && LOWER_LETTERS[i] as int == 97 + i;
    if 'A' <= c <= 'Z' {
      assert UPPER_LETTERS[c as int - 65] == c && [c][0] == c;
    }
    if 'a' <= c <= 'z' {
      assert LOWER_LETTERS[c as int - 97] == c;
    }
  }

  lemma LowerConcat(a: string, b: string)
    ensures ToLower(a + b) == ToLower(a) + ToLower(b)
  {
  }

  /** A role is a bit mask. */
  type Role = bv8
  const UNSET: Role := 0
  const FIAT: Role := 1
  const CRYPTOCURRENCY: Role := 2
  const TOKEN: Role := 4
  const CONTRACT: Role := 8
  const STABLE: Role := 16

  /** What an item records besides its symbol and role. */
  datatype Info = Info(id: int, fullName: string, assocChain: string)
  const NO_INFO := Info(0, "", "")

  /** A registered currency. Its symbol never changes, its role and details do; equality is identity. */
  class Item {
    const symbol: string
    var role: Role
    var info: Info

    constructor (symbol: string, role: Role, info: Info)
      ensures this.symbol == symbol && this.role == role && this.info == info
    {
      this.symbol := symbol;
      this.role := role;
      this.info := info;
    }

    function Lower(): string {
      ToLower(symbol)
    }
  }

  /** A code refers to an item and chooses how it prints. */
  datatype Code = Code(item: Item?, upperCase: bool) {
    function String(): string {
      if item == null then "" else if upperCase then item.symbol else item.Lower()
    }

    function WithCase(upper: bool): Code {
      if item == null then this else Code(item, upper)
    }

    predicate IsEmpty() {
      item == null || item.symbol == ""
    }

    predicate IsCaseSensitive() {
      item != null && item.symbol != item.Lower()
    }

    predicate IsCryptocurrency()
      reads item
    {
      item != null && item.role & (CRYPTOCURRENCY | STABLE) == item.role
    }

    /** The printed form without regard to case. */
    function Name(): string {
      WithCase(false).String()
    }
  }

  const EMPTY_CODE := Code(null, false)

  datatype PairFormat = PairFormat(uppercase: bool, delimiter: string)

  datatype Pair = Pair(delimiter: string, base: Code, quote: Code) {
    function String(): string {
      base.String() + delimiter + quote.String()
    }

    function Format(f: PairFormat): Pair {
      Pair(f.delimiter, base.WithCase(f.uppercase), quote.WithCase(f.uppercase))
    }

    predicate IsEmpty() {
      base.IsEmpty() && quote.IsEmpty()
    }

    predicate HasFormatDifference(f: PairFormat) {
      delimiter != f.delimiter ||
      (base.IsCaseSensitive() && base.upperCase != f.uppercase) ||
      (quote.IsCaseSensitive() && quote.upperCase != f.uppercase)
    }

    /** Lower-case base and quote with nothing between them: the name an index looks pairs up by. */
    function Stripped(): string {
      base.Name() + quote.Name()
    }

    /** What Equal compares. */
    function Key(): PairKey {
      PairKey(base.item, quote.item)
    }

    predicate Equal(other: Pair) {
      base.item == other.base.item && quote.item == other.quote.item
    }

    predicate EqualIncludeReciprocal(other: Pair) {
      (base.item == other.base.item && quote.item == other.quote.item) ||
      (base.item == other.quote.item && quote.item == other.base.item)
    }
  }

  datatype PairKey = PairKey(base: Item?, quote: Item?)

  const EMPTY_PAIR := Pair("", EMPTY_CODE, EMPTY_CODE)
  const EMPTY_FORMAT := PairFormat(false, "")

  /** Formatting keeps the currencies, and printing in the empty format is the stripped name. */
  lemma FormatKeeps(p: Pair, f: PairFormat)
    ensures p.Format(f).Equal(p) && p.Format(f).Stripped() == p.Stripped()
    ensures !p.Format(f).HasFormatDifference(f)
    ensures p.Format(EMPTY_FORMAT).String() == p.Stripped()
  {
    assert p.Format(EMPTY_FORMAT).String() == p.base.Name() + "" + p.quote.Name();
  }

  /** A pair is in a format when applying the format would not change how it prints. */
  predicate InFormat(p: Pair, f: PairFormat) {
    p.delimiter == f.delimiter && p.base.String() == p.Format(f).base.String() &&
    p.quote.String() == p.Format(f).quote.String()
  }

  /** A pair differs from a format exactly when its delimiter or the print of one of its codes does. */
  lemma DiffersIff(p: Pair, f: PairFormat)
    ensures p.HasFormatDifference(f) <==>
            p.delimiter != f.delimiter || p.Format(f).base.String() != p.base.String() ||
            p.Format(f).quote.String() != p.quote.String()
    ensures p.HasFormatDifference(f) <==> !InFormat(p, f)
  {
  }

  /** A symbol in the letter case of a format; nothing for a code without an item. */
  function Cased(item: Item?, uppercase: bool): string {
    if item == null then "" else if uppercase then item.symbol else ToLower(item.symbol)
  }

  /** A formatted pair prints the two symbols in the letter case and around the delimiter of the format. */
  lemma FormatPrints(p: Pair, f: PairFormat)
    ensures p.Format(f).String() == Cased(p.base.item, f.uppercase) + f.delimiter + Cased(p.quote.item, f.uppercase)
    ensures p.Format(f).base.item == p.base.item && p.Format(f).quote.item == p.quote.item
    ensures p.Format(f).delimiter == f.delimiter
  {
  }

  /** Equality is identity of both items, or of them crosswise; the key has what equality compares. */
  lemma EqualMeans(p: Pair, q: Pair)
    ensures p.Equal(q) <==> p.base.item == q.base.item && p.quote.item == q.quote.item
    ensures p.EqualIncludeReciprocal(q) <==> p.Equal(q) || p.Equal(Pair("", q.quote, q.base))
    ensures p.Key() == q.Key() <==> p.Equal(q)
    ensures p.IsEmpty() <==> p.base.String() == "" && p.quote.String() == ""
  {
  }

  /** Cryptocurrencies, stable coins, items with both roles and items without any count as cryptocurrencies. */
  lemma CryptocurrencyRoles(c: Code)
    requires c.item != null
    ensures c.IsCryptocurrency() <==> c.item.role == 0 || c.item.role == 2 || c.item.role == 16 || c.item.role == 18
  {
  }

  /** A pair that differs from the format is changed by applying it. */
  lemma FormatChanges(p: Pair, f: PairFormat)
    requires p.HasFormatDifference(f)
    ensures p.Format(f) != p
  {
  }
}
