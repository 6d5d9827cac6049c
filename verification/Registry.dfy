/**
The currency registry: for every upper-case symbol an append-only list of entries with their
roles. The identity type T of the entries is a heap item in the program; the laws do not depend on it.
*/
module Registry {
  import opened Wrappers
  import opened Currency

  datatype Entry<T> = Entry(item: T, role: Role, info: Info)
  type Registry<T> = map<string, seq<Entry<T>>>

  function At<T>(reg: Registry<T>, symbol: string): seq<Entry<T>> {
    if symbol in reg then reg[symbol] else []
  }

  predicate HasRole<T>(es: seq<Entry<T>>, role: Role) {
    exists i :: 0 <= i < |es| && es[i].role == role
  }

  /** The first entry that has the role or, having none yet, can take it. */
  function FirstFor<T>(es: seq<Entry<T>>, role: Role): (r: Option<nat>)
    ensures r.Some? ==>
              r.value < |es| && (es[r.value].role == UNSET || es[r.value].role == role) &&
              forall i :: 0 <= i < r.value ==> es[i].role != UNSET && es[i].role != role
    ensures r.None? ==> forall i :: 0 <= i < |es| ==> es[i].role != UNSET && es[i].role != role
  {
    if es == [] then None
    else if es[0].role == UNSET || es[0].role == role then Some(0)
    else
      var rest := FirstFor(es[1..], role);
      if rest.None? then None else Some(rest.value + 1)
  }

  /** Without a role a registration takes the first entry, whatever its role. */
  function RegisterIndex<T>(es: seq<Entry<T>>, role: Role): Option<nat> {
    if role == UNSET then (if es == [] then None else Some(0)) else FirstFor(es, role)
  }

  function Overlay(existing: Info, update: Info): Info {
    Info(if update.id != 0 then update.id else existing.id,
         if update.fullName != "" then update.fullName else existing.fullName,
         if update.assocChain != "" then update.assocChain else existing.assocChain)
  }

  /** An operation, with the item that would be stored if it appends one. */
  datatype Op<T> =
    | Register(symbol: string, role: Role, item: T)
    | Update(symbol: string, role: Role, info: Info, item: T)
    | Load(symbol: string, role: Role, info: Info, item: T)

  function AtAfter<T>(es: seq<Entry<T>>, op: Op<T>): seq<Entry<T>> {
    match op
    case Register(_, role, item) =>
      var x := RegisterIndex(es, role);
      if x.None? then es + [Entry(item, role, NO_INFO)]
      else if role == UNSET then es
      else es[x.value := es[x.value].(role := role)]
    case Update(_, role, info, item) =>
      var x := FirstFor(es, role);
      if x.None? then es + [Entry(item, role, info)]
      else es[x.value := es[x.value].(role := role, info := Overlay(es[x.value].info, info))]
    case Load(_, role, info, item) =>
      var x := FirstFor(es, role);
      if x.None? then es + [Entry(item, role, info)] else es[x.value := es[x.value].(role := role)]
  }

  datatype Error = SymbolEmpty | RoleUnset | ItemNil | ItemEmpty | UnexpectedRole | RoleUndefined | TimeInvalid | TimeUnhandled

  function OpError<T>(op: Op<T>): Option<Error> {
    match op
    case Register(_, _, _) => None
    case Update(symbol, role, _, _) =>
      if symbol == "" then Some(SymbolEmpty) else if role == UNSET then Some(RoleUnset) else None
    case Load(symbol, role, info, _) =>
      if symbol == "" && role == UNSET && info == NO_INFO then Some(ItemEmpty) else None
  }

  function Apply<T>(reg: Registry<T>, op: Op<T>): Registry<T> {
    if OpError(op).Some? || (op.Register? && op.symbol == "") then reg
    else reg[ToUpper(op.symbol) := AtAfter(At(reg, ToUpper(op.symbol)), op)]
  }

  function IndexFor<T>(es: seq<Entry<T>>, op: Op<T>): Option<nat> {
    if op.Register? then RegisterIndex(es, op.role) else FirstFor(es, op.role)
  }

  function NewInfo<T>(op: Op<T>): Info {
    if op.Register? then NO_INFO else op.info
  }

  /** An operation that finds no entry for its role appends one. */
  lemma MissingAfter<T>(reg: Registry<T>, op: Op<T>)
    requires OpError(op).None? && (op.Register? ==> op.symbol != "")
    requires IndexFor(At(reg, ToUpper(op.symbol)), op).None?
    ensures var c := ToUpper(op.symbol); Apply(reg, op) == reg[c := At(reg, c) + [Entry(op.item, op.role, NewInfo(op))]]
  {
  }

  /** An operation other than an update that finds an entry sets its role and keeps its details. */
  lemma FoundAfter<T>(reg: Registry<T>, op: Op<T>, x: nat)
    requires OpError(op).None? && !op.Update? && (op.Register? ==> op.symbol != "" && op.role != UNSET)
    requires IndexFor(At(reg, ToUpper(op.symbol)), op) == Some(x)
    ensures var c := ToUpper(op.symbol);
            var es := At(reg, c);
            x < |es| && Apply(reg, op) == reg[c := es[x := Entry(es[x].item, op.role, es[x].info)]]
  {
  }

  function Run<T>(reg: Registry<T>, ops: seq<Op<T>>): Registry<T>
    decreases |ops|
  {
    if ops == [] then reg else Run(Apply(reg, ops[0]), ops[1..])
  }

  /** Each detail is the given one, or as before when none is given. */
  predicate Merged(after: Info, given: Info, before: Info) {
    (if given.id != 0 then after.id == given.id else after.id == before.id) &&
    (if given.fullName != "" then after.fullName == given.fullName else after.fullName == before.fullName) &&
    (if given.assocChain != "" then after.assocChain == given.assocChain else after.assocChain == before.assocChain)
  }

  /** What an operation did at one place: nothing, or an entry of the role with the given item or details. */
  ghost predicate WrittenAt<T>(before: seq<Entry<T>>, after: seq<Entry<T>>, op: Op<T>, x: nat) {
    x < |after| && |after| == (if x < |before| then |before| else |before| + 1) &&
    (forall y :: 0 <= y < |before| && y != x ==> after[y] == before[y]) &&
    if x == |before| then
      after[x] == Entry(op.item, op.role, if op.Register? then Info(0, "", "") else op.info)
    else
      after[x].item == before[x].item &&
      (if op.Register? && op.role == UNSET then after[x].role == before[x].role else after[x].role == op.role) &&
      (if op.Update? then Merged(after[x].info, op.info, before[x].info) else after[x].info == before[x].info)
  }

  /**
  An operation without error writes one entry of its symbol: a new one, with the details given, or an
  old one, of which only an update changes details, and only those that are given.
  */
  lemma ApplyWrites<T>(reg: Registry<T>, op: Op<T>)
    requires OpError(op).None? && (op.Register? ==> op.symbol != "")
    ensures var c := ToUpper(op.symbol);
            exists x: nat :: WrittenAt(At(reg, c), At(Apply(reg, op), c), op, x)
    ensures forall d :: d != ToUpper(op.symbol) ==> At(Apply(reg, op), d) == At(reg, d)
  {
    var c := ToUpper(op.symbol);
    var es := At(reg, c);
    var found := IndexFor(es, op);
    var x := if found.None? then |es| else found.value;
    assert WrittenAt(es, At(Apply(reg, op), c), op, x);
  }

  // ----- what every reachable registry satisfies

  /** Roles are pairwise distinct, and an unset role can only be the last. */
  predicate Orderly<T>(es: seq<Entry<T>>) {
    es != [] && forall i, j :: 0 <= i < j < |es| ==> es[i].role != es[j].role && es[i].role != UNSET
  }

  predicate RegInv<T>(reg: Registry<T>) {
    forall symbol :: symbol in reg ==>
      Orderly(reg[symbol]) && ToUpper(symbol) == symbol &&
      (symbol == "" ==> forall i :: 0 <= i < |reg[symbol]| ==> reg[symbol][i].role != UNSET || reg[symbol][i].info != NO_INFO)
  }

  lemma AtAfterOrderly<T>(es: seq<Entry<T>>, op: Op<T>)
    requires es == [] || Orderly(es)
    requires op.Update? ==> op.role != UNSET
    ensures Orderly(AtAfter(es, op))
  {
  }

  /** One operation keeps the registry in order. */
  lemma OpKeeps<T>(reg: Registry<T>, op: Op<T>)
    requires RegInv(reg)
    ensures RegInv(Apply(reg, op))
  {
    CaseFolds(op.symbol);
    if OpError(op).None? {
      AtAfterOrderly(At(reg, ToUpper(op.symbol)), op);
    }
  }

  /** Every registry reached from the empty one has distinct roles per symbol, with an unset role only last. */
  lemma {:induction false} RunKeeps<T>(reg: Registry<T>, ops: seq<Op<T>>)
    requires RegInv(reg)
    ensures RegInv(Run(reg, ops))
    decreases |ops|
  {
    if ops != [] {
      OpKeeps(reg, ops[0]);
      RunKeeps(Apply(reg, ops[0]), ops[1..]);
    }
  }

  /** Items stay where they are, and a role that is set stays as it is. */
  predicate Extends<T(==)>(a: seq<Entry<T>>, b: seq<Entry<T>>) {
    |a| <= |b| &&
    forall i :: 0 <= i < |a| ==> a[i].item == b[i].item && (a[i].role != UNSET ==> b[i].role == a[i].role)
  }

  /** No run removes or reorders an item, and each role changes at most once, from unset. */
  lemma {:induction false} RunExtends<T>(reg: Registry<T>, ops: seq<Op<T>>, symbol: string)
    ensures Extends(At(reg, symbol), At(Run(reg, ops), symbol))
    decreases |ops|
  {
    if ops != [] {
      var next := Apply(reg, ops[0]);
      assert Extends(At(reg, symbol), At(next, symbol));
      RunExtends(next, ops[1..], symbol);
    }
  }

  /** What Register returns: None for the empty string, else the item of the code. */
  function Registered<T>(reg: Registry<T>, symbol: string, role: Role, item: T): Option<T> {
    if symbol == "" then None
    else
      var es := At(reg, ToUpper(symbol));
      var x := RegisterIndex(es, role);
      if x.None? then Some(item) else Some(es[x.value].item)
  }

  /**
  Once a symbol has been registered, by whatever operation, registering it again without a role
  returns the same item after any further run and for any letter case.
  */
  lemma SameItemForever<T>(reg: Registry<T>, ops: seq<Op<T>>, c: string, again: string, f: T, g: T)
    requires c != "" && ToUpper(c) == ToUpper(again)
    ensures var first := Apply(reg, Register(c, UNSET, f));
            Registered(Run(first, ops), again, UNSET, g) == Registered(reg, c, UNSET, f)
  {
    var first := Apply(reg, Register(c, UNSET, f));
    RunExtends(first, ops, ToUpper(c));
    assert again != "";
  }

  /** The entry that has a role is the one a registration with that role finds. */
  lemma RoleIsFound<T>(es: seq<Entry<T>>, x: nat)
    requires Orderly(es) && x < |es| && es[x].role != UNSET
    ensures RegisterIndex(es, es[x].role) == Some(x)
  {
    assert forall i :: 0 <= i < x ==> es[i].role != UNSET && es[i].role != es[x].role;
  }

  /**
  Once a symbol has been registered with a role, registering it again with that role returns the
  same item after any further run and for any letter case.
  */
  lemma SameRoleItemForever<T>(reg: Registry<T>, ops: seq<Op<T>>, c: string, again: string, role: Role, f: T, g: T)
    requires RegInv(reg) && c != "" && ToUpper(c) == ToUpper(again) && role != UNSET
    ensures var first := Apply(reg, Register(c, role, f));
            Registered(Run(first, ops), again, role, g) == Registered(reg, c, role, f)
  {
    var op := Register(c, role, f);
    var first := Apply(reg, op);
    var before := At(reg, ToUpper(c));
    var x := if RegisterIndex(before, role).None? then |before| else RegisterIndex(before, role).value;
    assert At(first, ToUpper(c))[x].role == role;
    OpKeeps(reg, op);
    RunKeeps(first, ops);
    RunExtends(first, ops, ToUpper(c));
    RoleIsFound(At(Run(first, ops), ToUpper(c)), x);
    assert again != "";
  }

  // ----- the heap form

  class BaseCodes {
    var items: map<string, seq<Item>>
    /** When the currencies were last updated, in nanoseconds. */
    var lastMainUpdate: int

    constructor (lastMainUpdate: int)
      ensures items == map[] && Valid() && this.lastMainUpdate == lastMainUpdate
    {
      items, this.lastMainUpdate := map[], lastMainUpdate;
    }

    /** Items are shared by no two places, and each is listed under its own symbol. */
    ghost predicate Valid()
      reads this
    {
      (forall c, i :: c in items && 0 <= i < |items[c]| ==> items[c][i].symbol == c) &&
      (forall c :: c in items ==> Distinct(items[c]))
    }

    ghost function Objects(): set<Item>
      reads this
    {
      ObjectsOf(items)
    }

    ghost function View(): Registry<Item>
      reads this, Objects()
    {
      map c | c in items :: Entries(items[c])
    }

    static ghost function Entries(list: seq<Item>): seq<Entry<Item>>
      reads list
    {
      seq(|list|, i requires 0 <= i < |list| reads list => Entry(list[i], list[i].role, list[i].info))
    }

    /** Scans a list for the first entry of the role, or without one. */
    method Find(c: string, role: Role) returns (x: Option<nat>)
      requires Valid()
      ensures x == FirstFor(At(View(), c), role)
    {
      if c !in items {
        return None;
      }
      var stored := items[c];
      for k := 0 to |stored|
        invariant forall j :: 0 <= j < k ==> stored[j].role != UNSET && stored[j].role != role
      {
        if stored[k].role == UNSET || stored[k].role == role {
          return Some(k);
        }
      }
      return None;
    }

    /** Appends an item to the list of its symbol. */
    method Append(item: Item)
      requires Valid() && item !in Objects()
      modifies this`items
      ensures Valid() && Objects() == old(Objects()) + {item}
      ensures items == old(items)[item.symbol := (if item.symbol in old(items) then old(items)[item.symbol] else []) + [item]]
      ensures View() == old(View())[item.symbol := At(old(View()), item.symbol) + [Entry(item, item.role, item.info)]]
    {
      ghost var reg := View();
      var c := item.symbol;
      var list := if c in items then items[c] else [];
      assert At(reg, c) == Entries(list);
      items := items[c := list + [item]];
      ObjectsAppended(old(items), c, item);
      assert Entries(items[c]) == At(reg, c) + [Entry(item, item.role, item.info)];
      assert forall d :: d in items && d != c ==> Entries(items[d]) == reg[d];
    }

    static ghost function ObjectsOf(lists: map<string, seq<Item>>): set<Item> {
      set c, i | c in lists && 0 <= i < |lists[c]| :: lists[c][i]
    }

    static lemma ObjectsAppended(lists: map<string, seq<Item>>, c: string, item: Item)
      ensures ObjectsOf(lists[c := (if c in lists then lists[c] else []) + [item]]) == ObjectsOf(lists) + {item}
    {
      var list := if c in lists then lists[c] else [];
      var after := lists[c := list + [item]];
      forall x | x in ObjectsOf(lists) + {item} ensures x in ObjectsOf(after) {
        if x == item {
          assert after[c][|list|] == x;
        } else {
          var d, i :| d in lists && 0 <= i < |lists[d]| && lists[d][i] == x;
          assert after[d][i] == x;
        }
      }
    }

    /** Sets role and details of one stored item. */
    method Set(c: string, x: nat, role: Role, info: Info)
      requires Valid() && c in items && x < |items[c]|
      modifies items[c][x]
      ensures Valid() && items[c][x].role == role && items[c][x].info == info
      ensures View() == old(View())[c := At(old(View()), c)[x := Entry(items[c][x], role, info)]]
    {
      var item := items[c][x];
      item.role := role;
      item.info := info;
      assert forall j :: 0 <= j < |items[c]| && j != x ==> items[c][j] != item;
      assert Entries(items[c]) == old(Entries(items[c]))[x := Entry(item, role, info)];
      forall d | d in items && d != c ensures Entries(items[d]) == old(Entries(items[d])) {
        assert forall j :: 0 <= j < |items[d]| ==> items[d][j].symbol == d;
      }
    }

    /** Without a role the first entry will do. */
    method FindRegistered(c: string, newRole: Role) returns (x: Option<nat>)
      requires Valid()
      ensures x == RegisterIndex(At(View(), c), newRole)
    {
      if newRole == UNSET {
        x := if c in items && |items[c]| > 0 then Some(0) else None;
      } else {
        x := Find(c, newRole);
      }
    }

    method RegisterCode(name: string, newRole: Role) returns (code: Code)
      requires Valid()
      modifies this`items, Objects()
      ensures Valid() && fresh(Objects() - old(Objects()))
      ensures name == "" ==> code == EMPTY_CODE && View() == old(View())
      ensures name != "" ==>
                code.item != null && code.item.symbol == ToUpper(name) && code.upperCase == HasUpperLetter(name) &&
                Some(code.item) == Registered(old(View()), name, newRole, code.item) &&
                View() == Apply(old(View()), Register(name, newRole, code.item))
    {
      if name == "" {
        return EMPTY_CODE;
      }
      var isUpperCase := HasUpperLetter(name);
      var c := ToUpper(name);
      var x := FindRegistered(c, newRole);
      if x.None? {
        var item := new Item(c, newRole, NO_INFO);
        MissingAfter(View(), Register(name, newRole, item));
        Append(item);
        return Code(item, isUpperCase);
      }
      var stored := items[c][x.value];
      assert stored in Objects();
      if newRole != UNSET {
        FillFound(c, x.value, newRole, Register(name, newRole, stored));
      }
      return Code(stored, isUpperCase);
    }

    /** An item that is stored is found, since it is stored under its symbol and has its own role. */
    lemma StoredIsFound(item: Item)
      requires Valid() && item in Objects()
      ensures FirstFor(At(View(), item.symbol), item.role).Some?
    {
      var c, i :| c in items && 0 <= i < |items[c]| && items[c][i] == item;
      assert At(View(), c)[i].role == item.role;
    }

    /** Carries out an operation that finds no entry: its item, which cannot be stored already, is appended. */
    method StoreMissing(item: Item, ghost op: Op<Item>)
      requires Valid() && FirstFor(At(View(), item.symbol), item.role).None?
      requires OpError(op).None? && !op.Register?
      requires ToUpper(op.symbol) == item.symbol && op.role == item.role && op.info == item.info && op.item == item
      modifies this`items
      ensures Valid() && Objects() == old(Objects()) + {item} && View() == Apply(old(View()), op)
    {
      if item in Objects() {
        StoredIsFound(item);
      }
      MissingAfter(View(), op);
      Append(item);
    }

    /** Carries out an operation that finds an entry: the entry gets its role. */
    method FillFound(c: string, x: nat, role: Role, ghost op: Op<Item>)
      requires Valid() && IndexFor(At(View(), c), op) == Some(x)
      requires OpError(op).None? && !op.Update? && (op.Register? ==> op.symbol != "" && op.role != UNSET)
      requires ToUpper(op.symbol) == c && op.role == role
      modifies Objects()
      ensures Valid() && View() == Apply(old(View()), op)
    {
      FoundAfter(View(), op, x);
      assert items[c][x] in Objects();
      Set(c, x, role, items[c][x].info);
    }

    /**
    Updates a currency, or stores the given item. The name is the symbol as the caller has it; the item
    has it in upper case, as the program sets it.
    */
    method UpdateCurrency(name: string, update: Item?) returns (r: Option<Error>)
      requires Valid() && (update != null ==> update.symbol == ToUpper(name))
      modifies this`items, Objects()
      ensures Valid() && Objects() <= old(Objects()) + {update}
      ensures r == if update == null then Some(ItemNil)
                   else if name == "" then Some(SymbolEmpty)
                   else if old(update.role) == UNSET then Some(RoleUnset)
                   else None
      ensures r.Some? ==> View() == old(View())
      ensures r.None? ==> View() == Apply(old(View()), Update(name, old(update.role), old(update.info), update))
    {
      if update == null {
        return Some(ItemNil);
      }
      if name == "" {
        return Some(SymbolEmpty);
      }
      if update.role == UNSET {
        return Some(RoleUnset);
      }
      var x := Find(update.symbol, update.role);
      if x.None? {
        StoreMissing(update, Update(name, update.role, update.info, update));
        return None;
      }
      var stored := items[update.symbol][x.value];
      assert stored in Objects();
      Set(update.symbol, x.value, update.role, Overlay(stored.info, update.info));
      return None;
    }

    /** Loads an item from a file: fills an unset role, or stores the item if its role is missing. */
    method LoadItem(name: string, item: Item?) returns (r: Option<Error>)
      requires Valid() && (item != null ==> item.symbol == ToUpper(name))
      modifies this`items, Objects()
      ensures Valid() && Objects() <= old(Objects()) + {item}
      ensures r == if item == null then Some(ItemNil)
                   else if name == "" && old(item.role) == UNSET && old(item.info) == NO_INFO then Some(ItemEmpty)
                   else None
      ensures r.Some? ==> View() == old(View())
      ensures r.None? ==> View() == Apply(old(View()), Load(name, old(item.role), old(item.info), item))
    {
      if item == null {
        return Some(ItemNil);
      }
      if name == "" && item.role == UNSET && item.info == NO_INFO {
        return Some(ItemEmpty);
      }
      var x := Find(item.symbol, item.role);
      ghost var op := Load(name, item.role, item.info, item);
      if x.None? {
        StoreMissing(item, op);
      } else {
        FillFound(item.symbol, x.value, item.role, op);
      }
      return None;
    }
  }
}
