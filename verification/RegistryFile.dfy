/** Dumping a registry to the currency file and loading it back. */
module RegistryFile {
  import opened Wrappers
  import opened Currency
  import opened Registry

  datatype Listed = Listed(symbol: string, role: Role, info: Info)

  /** Nanoseconds in a second. */
  const SECOND := 1_000_000_000

  /**
  The time of an update takes several forms in a file: a text, with the time it parses to if it does,
  a floating-point number of seconds, an integer number of seconds, or nothing.
  */
  datatype Stamp = Text(time: Option<int>) | Number(seconds: int) | Integer(seconds: int) | Missing

  datatype File = File(
    contracts: seq<Listed>, crypto: seq<Listed>, tokens: seq<Listed>,
    fiat: seq<Listed>, unset: seq<Listed>, stable: seq<Listed>, lastMainUpdate: Stamp)

  /** A file as it is read back after it has been written: every number then is a floating-point one. */
  function ReadBack(f: File): File {
    if f.lastMainUpdate.Integer? then f.(lastMainUpdate := Number(f.lastMainUpdate.seconds)) else f
  }

  function StampTime(s: Stamp): Result<int, Error> {
    match s
    case Text(time) => if time.Some? then Ok(time.value) else Err(TimeInvalid)
    case Number(seconds) => Ok(seconds * SECOND)
    case Integer(_) => Err(TimeUnhandled)
    case Missing => Err(TimeUnhandled)
  }

  datatype Loaded<T> = Loaded(reg: Registry<T>, error: Option<Error>)

  /** Loads one listed item, after filling and checking its role against the role of its list. */
  function LoadOne<T>(reg: Registry<T>, l: Listed, role: Role, item: T): Loaded<T> {
    var filled := if l.role == UNSET then role else l.role;
    if filled != role then Loaded(reg, Some(UnexpectedRole))
    else
      var op := Load(l.symbol, filled, l.info, item);
      Loaded(Apply(reg, op), OpError(op))
  }

  function LoadList<T>(reg: Registry<T>, list: seq<Listed>, role: Role, item: T): Loaded<T> {
    if list == [] then Loaded(reg, None)
    else
      var before := LoadList(reg, list[..|list| - 1], role, item);
      if before.error.Some? then before else LoadOne(before.reg, list[|list| - 1], role, item)
  }

  /**
  An item with another role than its list is refused. One without a role gets the role of its list, as if
  it had it from the start, and what is loaded without an error is then listed with that role.
  */
  lemma LoadOneMeans<T>(reg: Registry<T>, l: Listed, role: Role, item: T)
    ensures l.role != UNSET && l.role != role ==> LoadOne(reg, l, role, item) == Loaded(reg, Some(UnexpectedRole))
    ensures l.role == UNSET ==> LoadOne(reg, l, role, item) == LoadOne(reg, l.(role := role), role, item)
    ensures LoadOne(reg, l, role, item).error == None ==>
              HasRole(At(LoadOne(reg, l, role, item).reg, ToUpper(l.symbol)), role)
  {
    var r := LoadOne(reg, l, role, item);
    if r.error == None {
      var op := Load(l.symbol, role, l.info, item);
      ApplyWrites(reg, op);
      var x: nat :| WrittenAt(At(reg, ToUpper(l.symbol)), At(r.reg, ToUpper(l.symbol)), op, x);
      assert At(r.reg, ToUpper(l.symbol))[x].role == role;
    }
  }

  function Then<T>(before: Loaded<T>, list: seq<Listed>, role: Role, item: T): Loaded<T> {
    if before.error.Some? then before else LoadList(before.reg, list, role, item)
  }

  /** The order of the lists matters: items without a role come before the stable coins. */
  function LoadLists<T>(reg: Registry<T>, f: File, item: T): Loaded<T> {
    var a := LoadList(reg, f.contracts, CONTRACT, item);
    var b := Then(a, f.crypto, CRYPTOCURRENCY, item);
    var c := Then(b, f.tokens, TOKEN, item);
    var d := Then(c, f.fiat, FIAT, item);
    var e := Then(d, f.unset, UNSET, item);
    Then(e, f.stable, STABLE, item)
  }

  datatype LoadedFile<T> = LoadedFile(reg: Registry<T>, time: int, error: Option<Error>)

  /** Loading a file: its lists and then, unless one of them fails, the time of its last update. */
  function LoadFile<T>(reg: Registry<T>, time: int, f: File, item: T): LoadedFile<T> {
    var lists := LoadLists(reg, f, item);
    var t := StampTime(f.lastMainUpdate);
    if lists.error.Some? then LoadedFile(lists.reg, time, lists.error)
    else if t.Err? then LoadedFile(lists.reg, time, Some(t.error))
    else LoadedFile(lists.reg, t.value, None)
  }

  /** The first error ends the loading: nothing after it is loaded, and the time stays as it was. */
  lemma LoadingStops<T>(reg: Registry<T>, time: int, f: File, item: T)
    ensures LoadList(reg, f.contracts, CONTRACT, item).error.Some? ==>
              LoadLists(reg, f, item) == LoadList(reg, f.contracts, CONTRACT, item)
    ensures LoadLists(reg, f, item).error.Some? ==>
              LoadFile(reg, time, f, item) == LoadedFile(LoadLists(reg, f, item).reg, time, LoadLists(reg, f, item).error)
  {
  }

  function Content<T>(es: seq<Entry<T>>): set<(Role, Info)> {
    set i | 0 <= i < |es| :: (es[i].role, es[i].info)
  }

  /** The list holds exactly the registry's entries of one role. */
  ghost predicate Lists<T>(list: seq<Listed>, reg: Registry<T>, role: Role) {
    (forall l :: l in list ==> l.role == role && l.symbol in reg && (role, l.info) in Content(reg[l.symbol])) &&
    (forall symbol, i :: symbol in reg && 0 <= i < |reg[symbol]| && reg[symbol][i].role == role
                         ==> Listed(symbol, role, reg[symbol][i].info) in list)
  }

  ghost predicate IsDump<T>(f: File, reg: Registry<T>) {
    Lists(f.contracts, reg, CONTRACT) && Lists(f.crypto, reg, CRYPTOCURRENCY) && Lists(f.tokens, reg, TOKEN) &&
    Lists(f.fiat, reg, FIAT) && Lists(f.unset, reg, UNSET) && Lists(f.stable, reg, STABLE)
  }

  predicate NamedRole(role: Role) {
    role == UNSET || role == FIAT || role == CRYPTOCURRENCY || role == TOKEN || role == CONTRACT || role == STABLE
  }

  /** There is a list for no role, and for each of the five roles, which are single bits. */
  lemma NamedRolesAre(role: Role)
    ensures NamedRole(role) <==> role == 0 || role == 1 || role == 2 || role == 4 || role == 8 || role == 16
    ensures UNSET == 0 && FIAT == 1 && CRYPTOCURRENCY == 2 && TOKEN == 4 && CONTRACT == 8 && STABLE == 16
  {
  }

  predicate OnlyNamedRoles<T>(reg: Registry<T>) {
    forall symbol, i :: symbol in reg && 0 <= i < |reg[symbol]| ==> NamedRole(reg[symbol][i].role)
  }

  // ----- one symbol at a time

  /** The entry of a role, as loading writes it. */
  function Pick<T, U>(es: seq<Entry<T>>, role: Role, item: U): seq<Entry<U>> {
    if es == [] then [] else if es[0].role == role then [Entry(item, role, es[0].info)] else Pick(es[1..], role, item)
  }

  lemma ContentHead<T>(es: seq<Entry<T>>)
    requires es != []
    ensures Content(es) == {(es[0].role, es[0].info)} + Content(es[1..])
  {
    forall i | 0 <= i < |es| ensures (es[i].role, es[i].info) in {(es[0].role, es[0].info)} + Content(es[1..]) {
      if i > 0 {
        assert es[1..][i - 1] == es[i];
      }
    }
  }

  lemma HasRoleHead<T>(es: seq<Entry<T>>, role: Role)
    requires es != []
    ensures HasRole(es, role) <==> es[0].role == role || HasRole(es[1..], role)
  {
    if HasRole(es, role) && es[0].role != role {
      var i :| 0 <= i < |es| && es[i].role == role;
      assert es[1..][i - 1].role == role;
    }
  }

  lemma HeadRoleIsOnce<T>(es: seq<Entry<T>>)
    requires es != [] && Orderly(es)
    ensures forall x :: x in Content(es[1..]) ==> x.0 != es[0].role
  {
    forall x | x in Content(es[1..]) ensures x.0 != es[0].role {
      var i :| 0 <= i < |es[1..]| && (es[1..][i].role, es[1..][i].info) == x;
      assert es[1..][i] == es[i + 1];
    }
  }

  lemma {:induction false} PickContent<T, U>(es: seq<Entry<T>>, role: Role, item: U)
    requires es == [] || Orderly(es)
    ensures HasRole(es, role) <==> Pick(es, role, item) != []
    ensures forall r: Role, info: Info :: (r, info) in Content(Pick(es, role, item)) <==> r == role && (r, info) in Content(es)
    ensures |Pick(es, role, item)| <= 1 && forall e :: e in Pick(es, role, item) ==> e.role == role
  {
    if es != [] {
      PickContent(es[1..], role, item);
      ContentHead(es);
      HasRoleHead(es, role);
      HeadRoleIsOnce(es);
      if es[0].role == role {
        ContentHead([Entry(item, role, es[0].info)]);
        assert Content<U>([]) == {};
      }
    }
  }

  predicate Mentions(list: seq<Listed>, symbol: string) {
    exists i :: 0 <= i < |list| && list[i].symbol == symbol
  }

  lemma MentionsLast(list: seq<Listed>, symbol: string)
    requires list != []
    ensures Mentions(list, symbol) <==>
              Mentions(list[..|list| - 1], symbol) || list[|list| - 1].symbol == symbol
  {
    var n := |list| - 1;
    if list[n].symbol == symbol {
      assert Mentions(list, symbol);
    }
    if Mentions(list[..n], symbol) {
      var i :| 0 <= i < n && list[..n][i].symbol == symbol;
      assert list[i].symbol == symbol;
    }
    if Mentions(list, symbol) && list[n].symbol != symbol {
      var i :| 0 <= i < |list| && list[i].symbol == symbol;
      assert list[..n][i].symbol == symbol;
    }
  }

  /** A part of a dumped list: each of its entries is the registry's entry of the role. */
  ghost predicate PartOf<T>(list: seq<Listed>, reg: Registry<T>, role: Role) {
    forall l :: l in list ==> l.role == role && l.symbol in reg && (role, l.info) in Content(reg[l.symbol])
  }

  lemma PickedIs<T, U>(es: seq<Entry<T>>, role: Role, info: Info, item: U)
    requires Orderly(es) && (role, info) in Content(es)
    ensures Pick(es, role, item) == [Entry(item, role, info)]
  {
    var i :| 0 <= i < |es| && es[i].role == role && es[i].info == info;
    PickAt(es, i, item);
  }

  lemma {:induction false} PickAt<T, U>(es: seq<Entry<T>>, i: nat, item: U)
    requires Orderly(es) && i < |es|
    ensures Pick(es, es[i].role, item) == [Entry(item, es[i].role, es[i].info)]
    decreases i
  {
    if i > 0 {
      assert es[1..][i - 1] == es[i];
      PickAt(es[1..], i - 1, item);
    }
  }

  /**
  What a list of one role does to one symbol, when the role is not there yet and no unset entry
  stands in the way: it appends the symbol's entry of that role, once.
  */
  lemma {:induction false} ListAppends<T, U>(
    src: Registry<T>, reg: Registry<U>, list: seq<Listed>, role: Role, item: U, symbol: string)
    requires RegInv(src) && PartOf(list, src, role)
    requires !HasRole(At(reg, symbol), role) && (HasRole(At(reg, symbol), UNSET) ==> role == UNSET)
    ensures var r := LoadList(reg, list, role, item);
            r.error == None &&
            At(r.reg, symbol) == At(reg, symbol) + if Mentions(list, symbol) then Pick(At(src, symbol), role, item) else []
    decreases |list|
  {
    if list != [] {
      var n := |list| - 1;
      var l := list[n];
      ListAppends(src, reg, list[..n], role, item, symbol);
      MentionsLast(list, symbol);
      var before := LoadList(reg, list[..n], role, item).reg;
      LoadOneAt(src, before, l, role, item, symbol);
      if l.symbol == symbol {
        PickedIs(src[symbol], role, l.info, item);
        if Mentions(list[..n], symbol) {
          LoadAgain(At(reg, symbol), Entry(item, role, l.info), Load(symbol, role, l.info, item));
        } else {
          LoadNew(At(before, symbol), Load(symbol, role, l.info, item));
        }
      }
    }
  }

  lemma LoadNew<T>(es: seq<Entry<T>>, op: Op<T>)
    requires op.Load? && !HasRole(es, op.role) && !HasRole(es, UNSET)
    ensures AtAfter(es, op) == es + [Entry(op.item, op.role, op.info)]
  {
    assert FirstFor(es, op.role) == None;
  }

  lemma LoadAgain<T>(es: seq<Entry<T>>, e: Entry<T>, op: Op<T>)
    requires op.Load? && e.role == op.role && !HasRole(es, op.role) && (op.role != UNSET ==> !HasRole(es, UNSET))
    ensures AtAfter(es + [e], op) == es + [e]
  {
    var all := es + [e];
    var x := FirstFor(all, op.role);
    assert all[|es|].role == op.role;
    assert forall i :: 0 <= i < |es| ==> all[i] == es[i] && es[i].role != op.role && es[i].role != UNSET;
    assert x == Some(|es|);
  }

  /** Loading one dumped item raises no error and changes the list of its own symbol only. */
  lemma LoadOneAt<T, U>(src: Registry<T>, reg: Registry<U>, l: Listed, role: Role, item: U, symbol: string)
    requires RegInv(src) && l.role == role && l.symbol in src && (role, l.info) in Content(src[l.symbol])
    ensures var r := LoadOne(reg, l, role, item);
            r.error == None && r.reg == Apply(reg, Load(l.symbol, role, l.info, item)) &&
            At(r.reg, symbol) ==
            if l.symbol == symbol then AtAfter(At(reg, symbol), Load(symbol, role, l.info, item)) else At(reg, symbol)
    ensures ToUpper(l.symbol) == l.symbol && Orderly(src[l.symbol])
  {
  }

  lemma ListsSymbol<T>(list: seq<Listed>, src: Registry<T>, role: Role, symbol: string)
    requires Lists(list, src, role)
    ensures PartOf(list, src, role)
    ensures Mentions(list, symbol) <==> HasRole(At(src, symbol), role)
  {
    if HasRole(At(src, symbol), role) {
      var i :| 0 <= i < |src[symbol]| && src[symbol][i].role == role;
      var l := Listed(symbol, role, src[symbol][i].info);
      assert l in list;
      var k :| 0 <= k < |list| && list[k] == l;
      assert list[k].symbol == symbol;
    }
    if Mentions(list, symbol) {
      var k :| 0 <= k < |list| && list[k].symbol == symbol;
      assert list[k] in list;
    }
  }

  /** A dumped list appends to each symbol the entry it dumped for it. */
  lemma DumpedListAppends<T, U>(
    src: Registry<T>, reg: Registry<U>, list: seq<Listed>, role: Role, item: U, symbol: string)
    requires RegInv(src) && Lists(list, src, role)
    requires !HasRole(At(reg, symbol), role) && (HasRole(At(reg, symbol), UNSET) ==> role == UNSET)
    ensures var r := LoadList(reg, list, role, item);
            r.error == None && At(r.reg, symbol) == At(reg, symbol) + Pick(At(src, symbol), role, item)
  {
    ListsSymbol(list, src, role, symbol);
    ListAppends(src, reg, list, role, item, symbol);
    PickContent(At(src, symbol), role, item);
  }

  /** A stable entry takes the place of an unset one of the same symbol: the unset entry is lost. */
  lemma {:induction false} StableReplacesUnset<T, U>(
    src: Registry<T>, reg: Registry<U>, list: seq<Listed>, item: U, symbol: string)
    requires RegInv(src) && PartOf(list, src, STABLE)
    requires RegInv(reg) && !HasRole(At(reg, symbol), STABLE)
    ensures var r := LoadList(reg, list, STABLE, item);
            r.error == None && RegInv(r.reg) &&
            if Mentions(list, symbol)
            then HasRole(At(r.reg, symbol), STABLE) && !HasRole(At(r.reg, symbol), UNSET)
            else At(r.reg, symbol) == At(reg, symbol)
    decreases |list|
  {
    if list != [] {
      var n := |list| - 1;
      var l := list[n];
      StableReplacesUnset(src, reg, list[..n], item, symbol);
      MentionsLast(list, symbol);
      var before := LoadList(reg, list[..n], STABLE, item).reg;
      LoadOneAt(src, before, l, STABLE, item, symbol);
      var op := Load(l.symbol, STABLE, l.info, item);
      OpKeeps(before, op);
      if l.symbol == symbol {
        StableTakesOver(At(before, symbol), op);
      }
    }
  }

  lemma StableTakesOver<T>(es: seq<Entry<T>>, op: Op<T>)
    requires es == [] || Orderly(es)
    requires op.Load? && op.role == STABLE
    requires HasRole(es, STABLE) ==> !HasRole(es, UNSET)
    ensures HasRole(AtAfter(es, op), STABLE) && !HasRole(AtAfter(es, op), UNSET)
  {
    var after := AtAfter(es, op);
    var x := FirstFor(es, STABLE);
    assert after[if x.Some? then x.value else |es|].role == STABLE;
    forall i | 0 <= i < |after| ensures after[i].role != UNSET {
      if x.Some? && i != x.value {
        assert after[i] == es[i];
      } else if x.None? && i < |es| {
        assert after[i] == es[i];
      }
    }
  }

  // ----- the whole file

  lemma {:induction false} LoadListKeeps<T>(reg: Registry<T>, list: seq<Listed>, role: Role, item: T)
    requires RegInv(reg)
    ensures RegInv(LoadList(reg, list, role, item).reg)
    decreases |list|
  {
    if list != [] {
      var n := |list| - 1;
      LoadListKeeps(reg, list[..n], role, item);
      OpKeeps(LoadList(reg, list[..n], role, item).reg, Load(list[n].symbol, role, list[n].info, item));
    }
  }

  /** The entries of a symbol in the order in which the lists before the stable coins load them. */
  function Picks<T, U>(es: seq<Entry<T>>, roles: seq<Role>, item: U): seq<Entry<U>> {
    if roles == [] then [] else Picks(es, roles[..|roles| - 1], item) + Pick(es, roles[|roles| - 1], item)
  }

  /** The roles in the order of their lists, stable coins excepted. */
  const FIRST_ROLES: seq<Role> := [CONTRACT, CRYPTOCURRENCY]
  const THREE_ROLES: seq<Role> := FIRST_ROLES + [TOKEN]
  const FOUR_ROLES: seq<Role> := THREE_ROLES + [FIAT]
  const EARLY: seq<Role> := FOUR_ROLES + [UNSET]

  lemma {:induction false} PicksContent<T, U>(es: seq<Entry<T>>, roles: seq<Role>, item: U)
    requires es == [] || Orderly(es)
    ensures forall e :: e in Picks(es, roles, item) ==> e.role in roles && (e.role, e.info) in Content(es)
    ensures forall role: Role, info: Info ::
              (role, info) in Content(es) && role in roles ==> (role, info) in Content(Picks(es, roles, item))
    decreases |roles|
  {
    if roles != [] {
      var n := |roles| - 1;
      var before := Picks(es, roles[..n], item);
      var last := Pick(es, roles[n], item);
      PicksContent(es, roles[..n], item);
      PickContent(es, roles[n], item);
      ContentConcat(before, last);
      assert roles == roles[..n] + [roles[n]];
      forall e: Entry<U> | e in before + last ensures e.role in roles && (e.role, e.info) in Content(es) {
        if e in last {
          var i :| 0 <= i < |last| && last[i] == e;
          assert (e.role, e.info) in Content(last);
        }
      }
    }
  }

  lemma ContentConcat<T>(a: seq<Entry<T>>, b: seq<Entry<T>>)
    ensures Content(a + b) == Content(a) + Content(b)
  {
    forall x | x in Content(a) + Content(b) ensures x in Content(a + b) {
      if x in Content(a) {
        var i :| 0 <= i < |a| && (a[i].role, a[i].info) == x;
        assert (a + b)[i] == a[i];
      } else {
        var i :| 0 <= i < |b| && (b[i].role, b[i].info) == x;
        assert (a + b)[|a| + i] == b[i];
      }
    }
  }

  /** One of the early lists extends the picks of a symbol by one role. */
  lemma NextList<T, U>(src: Registry<T>, before: Loaded<U>, list: seq<Listed>,
                                   roles: seq<Role>, role: Role, item: U, symbol: string)
    requires RegInv(src) && Lists(list, src, role) && role !in roles && UNSET !in roles
    requires before.error == None && At(before.reg, symbol) == Picks(At(src, symbol), roles, item)
    ensures var r := Then(before, list, role, item);
            r.error == None && At(r.reg, symbol) == Picks(At(src, symbol), roles + [role], item)
  {
    var es := At(before.reg, symbol);
    PicksContent(At(src, symbol), roles, item);
    assert forall i :: 0 <= i < |es| ==> es[i] in Picks(At(src, symbol), roles, item);
    DumpedListAppends(src, before.reg, list, role, item, symbol);
    assert (roles + [role])[..|roles|] == roles;
  }

  /** The first three lists, and all the lists before the stable coins. */
  function LoadThree<T>(f: File, item: T): Loaded<T> {
    Then(Then(LoadList(map[], f.contracts, CONTRACT, item), f.crypto, CRYPTOCURRENCY, item), f.tokens, TOKEN, item)
  }

  function LoadEarly<T>(f: File, item: T): Loaded<T> {
    Then(Then(LoadThree(f, item), f.fiat, FIAT, item), f.unset, UNSET, item)
  }

  lemma EarlyKeeps<T>(f: File, item: T)
    ensures RegInv(LoadEarly(f, item).reg)
  {
    LoadListKeeps(map[], f.contracts, CONTRACT, item);
    var a := LoadList(map[], f.contracts, CONTRACT, item);
    LoadListKeeps(a.reg, f.crypto, CRYPTOCURRENCY, item);
    var b := Then(a, f.crypto, CRYPTOCURRENCY, item);
    LoadListKeeps(b.reg, f.tokens, TOKEN, item);
    var c := Then(b, f.tokens, TOKEN, item);
    LoadListKeeps(c.reg, f.fiat, FIAT, item);
    var d := Then(c, f.fiat, FIAT, item);
    LoadListKeeps(d.reg, f.unset, UNSET, item);
  }

  lemma ThreeLists<T, U>(src: Registry<T>, f: File, item: U, symbol: string)
    requires RegInv(src) && Lists(f.contracts, src, CONTRACT)
    requires Lists(f.crypto, src, CRYPTOCURRENCY) && Lists(f.tokens, src, TOKEN)
    ensures LoadThree(f, item).error == None
    ensures At(LoadThree(f, item).reg, symbol) == Picks(At(src, symbol), THREE_ROLES, item)
  {
    var a := Loaded(map[], None);
    NextList(src, a, f.contracts, [], CONTRACT, item, symbol);
    assert [] + [CONTRACT] == [CONTRACT];
    var b := Then(a, f.contracts, CONTRACT, item);
    NextList(src, b, f.crypto, [CONTRACT], CRYPTOCURRENCY, item, symbol);
    assert [CONTRACT] + [CRYPTOCURRENCY] == FIRST_ROLES;
    var c := Then(b, f.crypto, CRYPTOCURRENCY, item);
    NextList(src, c, f.tokens, FIRST_ROLES, TOKEN, item, symbol);
  }

  /** The lists before the stable coins load without error and never get in each other's way. */
  lemma EarlyLists<T, U>(src: Registry<T>, f: File, item: U, symbol: string)
    requires RegInv(src) && Lists(f.contracts, src, CONTRACT)
    requires Lists(f.crypto, src, CRYPTOCURRENCY) && Lists(f.tokens, src, TOKEN)
    requires Lists(f.fiat, src, FIAT) && Lists(f.unset, src, UNSET)
    ensures LoadEarly(f, item).error == None
    ensures At(LoadEarly(f, item).reg, symbol) == Picks(At(src, symbol), EARLY, item)
  {
    ThreeLists(src, f, item, symbol);
    var c := LoadThree(f, item);
    assert FIAT !in THREE_ROLES && UNSET !in THREE_ROLES && UNSET !in FOUR_ROLES;
    NextList(src, c, f.fiat, THREE_ROLES, FIAT, item, symbol);
    var d := Then(c, f.fiat, FIAT, item);
    NextList(src, d, f.unset, FOUR_ROLES, UNSET, item, symbol);
  }

  lemma EarlyContent<T, U>(es: seq<Entry<T>>, item: U)
    requires es == [] || Orderly(es)
    ensures !HasRole(Picks(es, EARLY, item), STABLE)
    ensures HasRole(Picks(es, EARLY, item), UNSET) ==> HasRole(es, UNSET)
    ensures forall x :: x in Content(Picks(es, EARLY, item)) ==> x in Content(es)
    ensures forall x :: x in Content(es) && NamedRole(x.0) && x.0 != STABLE ==> x in Content(Picks(es, EARLY, item))
  {
    PicksContent(es, EARLY, item);
    var picks := Picks(es, EARLY, item);
    forall i | 0 <= i < |picks| ensures picks[i].role != STABLE && (picks[i].role, picks[i].info) in Content(es) {
      assert picks[i] in picks;
    }
    forall x | x in Content(es) && NamedRole(x.0) && x.0 != STABLE ensures x in Content(picks) {
      assert x.0 in EARLY;
      assert (x.0, x.1) in Content(picks);
    }
  }

  lemma RolesNamed<T>(src: Registry<T>, symbol: string)
    requires OnlyNamedRoles(src)
    ensures forall x :: x in Content(At(src, symbol)) ==> NamedRole(x.0)
  {
  }

  /** A symbol with a stable entry and no unset one gets all its entries back. */
  lemma StableRestored<T, U>(src: Registry<T>, f: File, item: U, symbol: string)
    requires RegInv(src) && OnlyNamedRoles(src) && IsDump(f, src)
    requires HasRole(At(src, symbol), STABLE) && !HasRole(At(src, symbol), UNSET)
    ensures Content(At(LoadLists(map[], f, item).reg, symbol)) == Content(At(src, symbol))
  {
    var es := At(src, symbol);
    EarlyLists(src, f, item, symbol);
    EarlyContent(es, item);
    RolesNamed(src, symbol);
    DumpedListAppends(src, LoadEarly(f, item).reg, f.stable, STABLE, item, symbol);
    PickContent(es, STABLE, item);
    ContentConcat(Picks(es, EARLY, item), Pick(es, STABLE, item));
  }

  /** What the loaded file holds for one symbol, compared with the dumped registry. */
  lemma SymbolRestored<T, U>(src: Registry<T>, f: File, item: U, symbol: string)
    requires RegInv(src) && OnlyNamedRoles(src) && IsDump(f, src)
    ensures var r := LoadLists(map[], f, item);
            r.error == None &&
            (Content(At(r.reg, symbol)) == Content(At(src, symbol)) <==>
             !(HasRole(At(src, symbol), STABLE) && HasRole(At(src, symbol), UNSET)))
  {
    var es := At(src, symbol);
    EarlyLists(src, f, item, symbol);
    EarlyKeeps(f, item);
    EarlyContent(es, item);
    ListsSymbol(f.stable, src, STABLE, symbol);
    StableReplacesUnset(src, LoadEarly(f, item).reg, f.stable, item, symbol);
    var after := At(LoadLists(map[], f, item).reg, symbol);
    if HasRole(es, STABLE) && HasRole(es, UNSET) {
      var i :| 0 <= i < |es| && es[i].role == UNSET;
      assert (UNSET, es[i].info) in Content(es) && (UNSET, es[i].info) !in Content(after);
    } else if HasRole(es, STABLE) {
      StableRestored(src, f, item, symbol);
    } else {
      RolesNamed(src, symbol);
      assert forall x :: x in Content(es) ==> x.0 != STABLE;
    }
  }

  lemma ListsRestored<T, U>(src: Registry<T>, f: File, item: U)
    requires RegInv(src) && OnlyNamedRoles(src) && IsDump(f, src)
    ensures var r := LoadLists(map[], f, item);
            r.error == None &&
            ((forall symbol :: Content(At(r.reg, symbol)) == Content(At(src, symbol))) <==>
             (forall symbol :: !(HasRole(At(src, symbol), STABLE) && HasRole(At(src, symbol), UNSET))))
  {
    SymbolRestored(src, f, item, "");
    forall symbol
      ensures Content(At(LoadLists(map[], f, item).reg, symbol)) == Content(At(src, symbol)) <==>
              !(HasRole(At(src, symbol), STABLE) && HasRole(At(src, symbol), UNSET))
    {
      SymbolRestored(src, f, item, symbol);
    }
  }

  /** The dump of a registry with the time of its last update, in whole seconds. */
  ghost predicate IsTimedDump<T>(f: File, reg: Registry<T>, time: int) {
    IsDump(f, reg) && f.lastMainUpdate == Integer(time / SECOND)
  }

  lemma SameListsReadBack<T>(reg: Registry<T>, f: File, item: T)
    ensures LoadLists(reg, ReadBack(f), item) == LoadLists(reg, f, item)
  {
  }

  lemma WholeSeconds(time: int)
    ensures var whole := time / SECOND * SECOND;
            whole <= time < whole + SECOND && (whole == time <==> time % SECOND == 0)
  {
  }

  /**
  Loading a dumped registry into an empty one, after the dump has been written and read back, never
  fails, and restores exactly the same symbols with the same roles and details if and only if no
  symbol has both a stable and an unset entry; the time of the last update comes back exactly if and
  only if it was a whole second. A dump that has not been written and read back loads the same
  entries, but then always ends in an error and leaves the time as it was.
  */
  lemma DumpThenLoad<T, U>(src: Registry<T>, time: int, f: File, before: int, item: U)
    requires RegInv(src) && OnlyNamedRoles(src) && IsTimedDump(f, src, time)
    ensures var r := LoadFile(map[], before, ReadBack(f), item);
            r.error == None && (r.time == time <==> time % SECOND == 0) && r.time <= time < r.time + SECOND &&
            ((forall symbol :: Content(At(r.reg, symbol)) == Content(At(src, symbol))) <==>
             (forall symbol :: !(HasRole(At(src, symbol), STABLE) && HasRole(At(src, symbol), UNSET))))
    ensures LoadFile(map[], before, f, item)
         == LoadFile(map[], before, ReadBack(f), item).(time := before, error := Some(TimeUnhandled))
  {
    ListsRestored(src, f, item);
    SameListsReadBack<U>(map[], f, item);
    WholeSeconds(time);
  }

  /** Registering a stable coin and then loading the same symbol without a role reaches such a registry. */
  lemma ClashIsReachable<T>(item: T)
    ensures var reg := Run(map[], [Register("A", STABLE, item), Load("A", UNSET, NO_INFO, item)]);
            HasRole(At(reg, "A"), STABLE) && HasRole(At(reg, "A"), UNSET)
  {
    var op0 := Register("A", STABLE, item);
    var op1 := Load("A", UNSET, NO_INFO, item);
    assert ToUpper("A") == "A";
    var a := Apply(map[], op0);
    assert At(a, "A") == [Entry(item, STABLE, NO_INFO)];
    var b := Apply(a, op1);
    assert At(b, "A") == [Entry(item, STABLE, NO_INFO), Entry(item, UNSET, NO_INFO)];
    assert At(b, "A")[0].role == STABLE && At(b, "A")[1].role == UNSET;
    assert [op0, op1][1..] == [op1] && [op1][1..] == [];
    assert Run(b, []) == b;
    assert Run(a, [op1]) == b;
  }

  // ----- the heap form

  /** The registry with the items' identities forgotten, as a file keeps it. */
  function Erase<T>(reg: Registry<T>): Registry<()> {
    map symbol | symbol in reg :: EraseEntries(reg[symbol])
  }

  function EraseEntries<T>(es: seq<Entry<T>>): seq<Entry<()>> {
    seq(|es|, i requires 0 <= i < |es| => Entry((), es[i].role, es[i].info))
  }

  lemma {:induction false} EraseFirstFor<T>(es: seq<Entry<T>>, role: Role)
    ensures FirstFor(EraseEntries(es), role) == FirstFor(es, role)
  {
    if es != [] {
      EraseFirstFor(es[1..], role);
      assert EraseEntries(es)[1..] == EraseEntries(es[1..]);
    }
  }

  lemma EraseAtAfter<T>(es: seq<Entry<T>>, symbol: string, role: Role, info: Info, item: T)
    ensures EraseEntries(AtAfter(es, Load(symbol, role, info, item)))
         == AtAfter(EraseEntries(es), Load(symbol, role, info, ()))
  {
    EraseFirstFor(es, role);
  }

  /** Loading does not depend on identities. */
  lemma EraseLoad<T>(reg: Registry<T>, symbol: string, role: Role, info: Info, item: T)
    ensures Erase(Apply(reg, Load(symbol, role, info, item))) == Apply(Erase(reg), Load(symbol, role, info, ()))
  {
    var c := ToUpper(symbol);
    EraseAtAfter(At(reg, c), symbol, role, info, item);
    assert At(Erase(reg), c) == EraseEntries(At(reg, c));
    EraseUpdate(reg, c, AtAfter(At(reg, c), Load(symbol, role, info, item)));
  }

  lemma EraseUpdate<T>(reg: Registry<T>, c: string, es: seq<Entry<T>>)
    ensures Erase(reg[c := es]) == Erase(reg)[c := EraseEntries(es)]
  {
  }

  class Storage {
    const currencyCodes: BaseCodes

    constructor (codes: BaseCodes)
      ensures currencyCodes == codes
    {
      currencyCodes := codes;
    }

    method CheckFileCurrencyData(l: Listed, role: Role) returns (r: Option<Error>)
      requires currencyCodes.Valid()
      modifies currencyCodes`items, currencyCodes.Objects()
      ensures currencyCodes.Valid() && fresh(currencyCodes.Objects() - old(currencyCodes.Objects()))
      ensures Loaded(Erase(currencyCodes.View()), r) == LoadOne(Erase(old(currencyCodes.View())), l, role, ())
    {
      ghost var before := currencyCodes.View();
      var filled := if l.role == UNSET then role else l.role;
      if filled != role {
        return Some(UnexpectedRole);
      }
      var item := new Item(ToUpper(l.symbol), filled, l.info);
      r := currencyCodes.LoadItem(l.symbol, item);
      if r.None? {
        EraseLoad(before, l.symbol, filled, l.info, item);
      }
    }

    method LoadListed(list: seq<Listed>, role: Role) returns (r: Option<Error>)
      requires currencyCodes.Valid()
      modifies currencyCodes`items, currencyCodes.Objects()
      ensures currencyCodes.Valid() && fresh(currencyCodes.Objects() - old(currencyCodes.Objects()))
      ensures Loaded(Erase(currencyCodes.View()), r) == LoadList(Erase(old(currencyCodes.View())), list, role, ())
    {
      ghost var begin := Erase(currencyCodes.View());
      for i := 0 to |list|
        invariant currencyCodes.Valid() && fresh(currencyCodes.Objects() - old(currencyCodes.Objects()))
        invariant LoadList(begin, list[..i], role, ()) == Loaded(Erase(currencyCodes.View()), None)
      {
        r := CheckFileCurrencyData(list[i], role);
        assert list[..i + 1][..i] == list[..i];
        if r.Some? {
          LoadListStops(begin, list, i + 1, role, ());
          return;
        }
      }
      assert list[..|list|] == list;
      return None;
    }

    /** Loads the lists of a currency file into the registry, up to the first error. */
    method LoadAllLists(f: File) returns (r: Option<Error>)
      requires currencyCodes.Valid()
      modifies currencyCodes`items, currencyCodes.Objects()
      ensures currencyCodes.Valid()
      ensures Loaded(Erase(currencyCodes.View()), r) == LoadLists(Erase(old(currencyCodes.View())), f, ())
    {
      r := LoadListed(f.contracts, CONTRACT);
      if r.Some? {
        return;
      }
      r := LoadListed(f.crypto, CRYPTOCURRENCY);
      if r.Some? {
        return;
      }
      r := LoadListed(f.tokens, TOKEN);
      if r.Some? {
        return;
      }
      r := LoadListed(f.fiat, FIAT);
      if r.Some? {
        return;
      }
      r := LoadListed(f.unset, UNSET);
      if r.Some? {
        return;
      }
      r := LoadListed(f.stable, STABLE);
    }

    /** Loads a currency file: its lists, and then the time of its last update in any form it handles. */
    method LoadFileCurrencyData(f: File) returns (r: Option<Error>)
      requires currencyCodes.Valid()
      modifies currencyCodes, currencyCodes.Objects()
      ensures currencyCodes.Valid()
      ensures LoadedFile(Erase(currencyCodes.View()), currencyCodes.lastMainUpdate, r)
           == LoadFile(Erase(old(currencyCodes.View())), old(currencyCodes.lastMainUpdate), f, ())
    {
      r := LoadAllLists(f);
      if r.Some? {
        return;
      }
      r := SetLastMainUpdate(f.lastMainUpdate);
    }

    /** Sets the time of the last update from any form it handles. */
    method SetLastMainUpdate(stamp: Stamp) returns (r: Option<Error>)
      modifies currencyCodes`lastMainUpdate
      ensures r == if StampTime(stamp).Err? then Some(StampTime(stamp).error) else None
      ensures currencyCodes.lastMainUpdate == if r.Some? then old(currencyCodes.lastMainUpdate) else StampTime(stamp).value
      ensures stamp.Text? ==> (r == if stamp.time.Some? then None else Some(TimeInvalid)) &&
                              (stamp.time.Some? ==> currencyCodes.lastMainUpdate == stamp.time.value)
      ensures stamp.Number? ==> r == None && currencyCodes.lastMainUpdate == stamp.seconds * 1_000_000_000
      ensures stamp.Integer? || stamp.Missing? ==> r == Some(TimeUnhandled)
    {
      match stamp {
        case Text(time) =>
          if time.None? {
            return Some(TimeInvalid);
          }
          currencyCodes.lastMainUpdate := time.value;
        case Number(seconds) => currencyCodes.lastMainUpdate := seconds * SECOND;
        case _ => return Some(TimeUnhandled);
      }
      return None;
    }

    /** Dumps the registry, symbol by symbol in any order; fails on a role that has no list. */
    method GetFullCurrencyData() returns (file: File, r: Option<Error>)
      requires currencyCodes.Valid()
      ensures r == if OnlyNamedRoles(currencyCodes.View()) then None else Some(RoleUndefined)
      ensures r.None? ==> IsTimedDump(file, currencyCodes.View(), currencyCodes.lastMainUpdate)
      ensures r.None? ==>
                (forall l :: l in file.contracts ==> l.role == CONTRACT) && (forall l :: l in file.crypto ==> l.role == CRYPTOCURRENCY) &&
                (forall l :: l in file.tokens ==> l.role == TOKEN) && (forall l :: l in file.fiat ==> l.role == FIAT) &&
                (forall l :: l in file.unset ==> l.role == UNSET) && (forall l :: l in file.stable ==> l.role == STABLE)
    {
      ghost var reg := currencyCodes.View();
      file := File([], [], [], [], [], [], Missing);
      var left := currencyCodes.items.Keys;
      while left != {}
        invariant left <= reg.Keys && currencyCodes.View() == reg
        invariant DumpedSoFar(file, reg, left, None, 0)
        decreases left
      {
        var symbol :| symbol in left;
        var stored := currencyCodes.items[symbol];
        left := left - {symbol};
        for x := 0 to |stored|
          invariant DumpedSoFar(file, reg, left, Some(symbol), x)
        {
          assert reg[symbol][x] == Entry(stored[x], stored[x].role, stored[x].info);
          var l := Listed(symbol, stored[x].role, stored[x].info);
          if !NamedRole(l.role) {
            return file, Some(RoleUndefined);
          }
          Listing(file, reg, left, symbol, x);
          file := AddListed(file, l);
        }
      }
      DumpIsComplete(file, reg);
      file := file.(lastMainUpdate := Integer(currencyCodes.lastMainUpdate / SECOND));
      return file, None;
    }
  }

  lemma {:induction false} LoadListStops<T>(reg: Registry<T>, list: seq<Listed>, n: nat, role: Role, item: T)
    requires n <= |list| && LoadList(reg, list[..n], role, item).error.Some?
    ensures LoadList(reg, list, role, item) == LoadList(reg, list[..n], role, item)
    decreases |list| - n
  {
    if n < |list| {
      assert list[..n + 1][..n] == list[..n];
      LoadListStops(reg, list, n + 1, role, item);
    } else {
      assert list[..n] == list;
    }
  }

  function AddListed(f: File, l: Listed): File
    requires NamedRole(l.role)
  {
    if l.role == UNSET then f.(unset := f.unset + [l])
    else if l.role == FIAT then f.(fiat := f.fiat + [l])
    else if l.role == CRYPTOCURRENCY then f.(crypto := f.crypto + [l])
    else if l.role == TOKEN then f.(tokens := f.tokens + [l])
    else if l.role == CONTRACT then f.(contracts := f.contracts + [l])
    else f.(stable := f.stable + [l])
  }

  function ListOf(f: File, role: Role): seq<Listed>
    requires NamedRole(role)
  {
    if role == UNSET then f.unset else if role == FIAT then f.fiat else if role == CRYPTOCURRENCY then f.crypto
    else if role == TOKEN then f.tokens else if role == CONTRACT then f.contracts else f.stable
  }

  /** The dump of all symbols outside left, of the current one only the first n entries. */
  ghost predicate DumpedSoFar<T>(f: File, reg: Registry<T>, left: set<string>, current: Option<string>, n: nat) {
    (forall role :: NamedRole(role) ==> PartOf(ListOf(f, role), reg, role)) &&
    (forall s, i :: s in reg && s !in left && 0 <= i < |reg[s]| && (current == Some(s) ==> i < n)
                    ==> NamedRole(reg[s][i].role) &&
                        Listed(s, reg[s][i].role, reg[s][i].info) in ListOf(f, reg[s][i].role))
  }

  lemma Listing<T>(f: File, reg: Registry<T>, left: set<string>, symbol: string, n: nat)
    requires DumpedSoFar(f, reg, left, Some(symbol), n) && symbol in reg && n < |reg[symbol]|
    requires NamedRole(reg[symbol][n].role)
    ensures var e := reg[symbol][n];
            DumpedSoFar(AddListed(f, Listed(symbol, e.role, e.info)), reg, left, Some(symbol), n + 1)
  {
    var e := reg[symbol][n];
    var l := Listed(symbol, e.role, e.info);
    var g := AddListed(f, l);
    assert (e.role, e.info) in Content(reg[symbol]);
    forall role | NamedRole(role) ensures PartOf(ListOf(g, role), reg, role) {
      assert ListOf(g, role) == if role == e.role then ListOf(f, role) + [l] else ListOf(f, role);
      assert PartOf(ListOf(f, role), reg, role);
    }
    forall s, i | s in reg && s !in left && 0 <= i < |reg[s]| && (s == symbol ==> i < n + 1)
      ensures NamedRole(reg[s][i].role) && Listed(s, reg[s][i].role, reg[s][i].info) in ListOf(g, reg[s][i].role)
    {
      if s != symbol || i < n {
        assert Listed(s, reg[s][i].role, reg[s][i].info) in ListOf(f, reg[s][i].role);
      }
    }
  }

  lemma DumpIsComplete<T>(f: File, reg: Registry<T>)
    requires DumpedSoFar(f, reg, {}, None, 0)
    ensures OnlyNamedRoles(reg) && IsDump(f, reg)
  {
    assert PartOf(ListOf(f, CONTRACT), reg, CONTRACT) && PartOf(ListOf(f, CRYPTOCURRENCY), reg, CRYPTOCURRENCY);
    assert PartOf(ListOf(f, TOKEN), reg, TOKEN) && PartOf(ListOf(f, FIAT), reg, FIAT);
    assert PartOf(ListOf(f, UNSET), reg, UNSET) && PartOf(ListOf(f, STABLE), reg, STABLE);
  }
}
