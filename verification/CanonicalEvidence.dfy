/** The canonical form that stored evidence is digested in (`canonical_evidence`). */
module CanonicalEvidence {
  import opened CanonicalNumber

  /** An evidence candidate: stored JSON with its markers, and the Python values a candidate may also hold. */
  datatype Value =
    | Null
    | Bool(b: bool)
    | Num(n: Number)
    | NonFinite(spelling: string)
    | Text(s: string)
    | Document(text: string)
    | Uuid(spelling: string)
    | Instant(iso: string)
    | LocalTime(iso: string)
    | EnumMember(inner: Value)
    | Dict(items: seq<Item>)
    | List(elements: seq<Value>)

  datatype Item = Item(name: string, value: Value)

  /** A canonical form: JSON without numbers, so its text with sorted keys is unique. */
  datatype Canon =
    | CNull
    | CBool(b: bool)
    | CText(s: string)
    | CObject(fields: map<string, Canon>)
    | CArray(items: seq<Canon>)

  const NUMBER_TAG := "$json_number"
  const DOCUMENT_TAG := "$json_document"
  const DATETIME_TAG := "$datetime"
  const FLOAT_TAG := "$float"

  /** What the decoder guarantees: dictionary keys are distinct and numbers are well formed, at every level. */
  predicate WellFormed(v: Value) {
    match v
    case Num(n) => n.Valid()
    case EnumMember(inner) => WellFormed(inner)
    case Dict(items) =>
      && DistinctNames(items)
      && forall i :: 0 <= i < |items| ==> WellFormed(items[i].value)
    case List(elements) => forall i :: 0 <= i < |elements| ==> WellFormed(elements[i])
    case _ => true
  }

  function Escape(name: string): string {
    if name != "" && name[0] == '$' then "$" + name else name
  }

  function Tagged(tag: string, text: string): Canon {
    CObject(map[tag := CText(text)])
  }

  /** `_canonical_scalar`. */
  function Scalar(v: Value): Canon
    requires WellFormed(v) && !v.Dict? && !v.List? && !v.EnumMember?
  {
    match v
    case Document(text) => Tagged(DOCUMENT_TAG, text)
    case Uuid(spelling) => CText(spelling)
    case Instant(iso) => CText(iso)
    case LocalTime(iso) => Tagged(DATETIME_TAG, iso)
    case NonFinite(spelling) => Tagged(FLOAT_TAG, spelling)
    case Num(n) => Tagged(NUMBER_TAG, NumberText(n))
    case Null => CNull
    case Bool(b) => CBool(b)
    case Text(s) => CText(s)
  }

  /** The canonical form, by recursion on the value. */
  function Form(v: Value): Canon
    requires WellFormed(v)
  {
    match v
    case EnumMember(inner) => Form(inner)
    case Dict(items) => CObject(FormItems(items))
    case List(elements) => CArray(seq(|elements|, i requires 0 <= i < |elements| => Form(elements[i])))
    case _ => Scalar(v)
  }

  function FormItems(items: seq<Item>): map<string, Canon>
    requires forall i :: 0 <= i < |items| ==> WellFormed(items[i].value)
  {
    if items == [] then map[]
    else
      var last := |items| - 1;
      FormItems(items[..last])[Escape(items[last].name) := Form(items[last].value)]
  }

  lemma EscapeInjective(m: string, n: string)
    requires Escape(m) == Escape(n)
    ensures m == n
  {
    if m != "" && m[0] == '$' {
      assert Escape(m)[1..] == m;
    }
    if n != "" && n[0] == '$' {
      assert Escape(n)[1..] == n;
    }
  }

  /** No dictionary key can pass for one of the tags. */
  lemma EscapeAvoidsTags(name: string)
    ensures Escape(name) !in {NUMBER_TAG, DOCUMENT_TAG, DATETIME_TAG, FLOAT_TAG}
  {
    if name != "" && name[0] == '$' {
      assert Escape(name)[1] == '$';
    }
  }

  predicate DistinctNames(items: seq<Item>) {
    forall i, j :: 0 <= i < j < |items| ==> items[i].name != items[j].name
  }

  function EscapedNames(items: seq<Item>): (names: seq<string>)
    ensures |names| == |items| && forall i :: 0 <= i < |items| ==> names[i] == Escape(items[i].name)
  {
    seq(|items|, i requires 0 <= i < |items| => Escape(items[i].name))
  }

  lemma {:induction false} FormItemsKeys(items: seq<Item>)
    requires forall i :: 0 <= i < |items| ==> WellFormed(items[i].value)
    requires DistinctNames(items)
    ensures forall n :: n in FormItems(items) ==> n in EscapedNames(items)
    ensures |FormItems(items)| == |items|
  {
    hide Form, Escape;
    if items != [] {
      var last := |items| - 1;
      var init := items[..last];
      FormItemsKeys(init);
      var key := Escape(items[last].name);
      if key in FormItems(init) {
        var i :| 0 <= i < |init| && EscapedNames(init)[i] == key;
        EscapeInjective(init[i].name, items[last].name);
        assert false;
      }
      assert EscapedNames(items) == EscapedNames(init) + [key];
    }
  }

  lemma {:induction false} FormItemsAt(items: seq<Item>, i: nat)
    requires forall k :: 0 <= k < |items| ==> WellFormed(items[k].value)
    requires DistinctNames(items) && i < |items|
    ensures Escape(items[i].name) in FormItems(items)
    ensures FormItems(items)[Escape(items[i].name)] == Form(items[i].value)
  {
    hide Form, Escape, WellFormed;
    var last := |items| - 1;
    if i < last {
      FormItemsAt(items[..last], i);
      if Escape(items[i].name) == Escape(items[last].name) {
        EscapeInjective(items[i].name, items[last].name);
        assert false;
      }
    }
  }

  // ---- the explicit-stack rewrite ----

  /** A position in a container under construction: `parent[key]`. */
  datatype Key = Name(name: string) | Index(index: nat)

  /** What a position holds: nothing yet, a finished scalar, or the address of another container. */
  datatype Slot = Empty | Leaf(canon: Canon) | Ref(address: nat)

  /** The mutable containers the loop creates, addressed by creation order. */
  datatype Cell = DictCell(fields: map<string, Slot>) | ListCell(slots: seq<Slot>)

  datatype Pending = Pending(item: Value, parent: nat, key: Key)

  function Get(cell: Cell, key: Key): Slot {
    match (cell, key)
    case (DictCell(fields), Name(n)) => if n in fields then fields[n] else Empty
    case (ListCell(slots), Index(i)) => if i < |slots| then slots[i] else Empty
    case _ => Empty
  }

  /** `parent[key] = slot`. */
  function Put(cell: Cell, key: Key, slot: Slot): Cell {
    match (cell, key)
    case (DictCell(fields), Name(n)) => DictCell(fields[n := slot])
    case (ListCell(slots), Index(i)) => if i < |slots| then ListCell(slots[i := slot]) else cell
    case _ => cell
  }

  /** The finished object graph, read as a tree. References always point to younger containers. */
  function ReadCell(cells: seq<Cell>, a: nat): Canon
    requires a < |cells|
    decreases |cells| - a, 1
  {
    match cells[a]
    case DictCell(fields) => CObject(map n | n in fields :: ReadSlot(cells, a, fields[n]))
    case ListCell(slots) => CArray(seq(|slots|, i requires 0 <= i < |slots| => ReadSlot(cells, a, slots[i])))
  }

  function ReadSlot(cells: seq<Cell>, a: nat, slot: Slot): Canon
    requires a < |cells|
    decreases |cells| - a, 0
  {
    match slot
    case Empty => CNull
    case Leaf(canon) => canon
    case Ref(b) => if a < b < |cells| then ReadCell(cells, b) else CNull
  }

  function Unwrap(v: Value): (r: Value)
    ensures !r.EnumMember?
    ensures WellFormed(v) ==> WellFormed(r) && Form(r) == Form(v)
  {
    if v.EnumMember? then Unwrap(v.inner) else v
  }

  // Children of a container by position, the same for dictionaries and lists.

  function Arity(v: Value): nat {
    match v case Dict(items) => |items| case List(elements) => |elements| case _ => 0
  }

  function ChildAt(v: Value, i: nat): Value
    requires i < Arity(v)
  {
    match v case Dict(items) => items[i].value case List(elements) => elements[i]
  }

  function KeyAt(v: Value, i: nat): Key
    requires i < Arity(v)
  {
    match v case Dict(items) => Name(Escape(items[i].name)) case List(_) => Index(i)
  }

  lemma KeyAtInjective(v: Value, i: nat, j: nat)
    requires WellFormed(v) && i < Arity(v) && j < Arity(v) && i != j
    ensures KeyAt(v, i) != KeyAt(v, j)
  {
    if v.Dict? && KeyAt(v, i) == KeyAt(v, j) {
      EscapeInjective(v.items[i].name, v.items[j].name);
    }
  }

  function NewCell(v: Value): Cell
    requires v.Dict? || v.List?
  {
    if v.Dict? then DictCell(map[]) else ListCell(seq(|v.elements|, _ => Empty))
  }

  /** The work a container leaves behind, in iteration order. */
  function Work(v: Value, address: nat): (w: seq<Pending>)
    requires v.Dict? || v.List?
    ensures |w| == Arity(v)
    ensures forall i :: 0 <= i < |w| ==> w[i] == Pending(ChildAt(v, i), address, KeyAt(v, i))
  {
    seq(Arity(v), i requires 0 <= i < Arity(v) => Pending(ChildAt(v, i), address, KeyAt(v, i)))
  }

  // ---- termination: the nodes still to visit ----

  function Size(v: Value): nat {
    match v
    case EnumMember(inner) => 1 + Size(inner)
    case Dict(items) => 1 + SizeItems(items)
    case List(elements) => 1 + SizeElements(elements)
    case _ => 1
  }

  function SizeItems(items: seq<Item>): nat {
    if items == [] then 0 else Size(items[0].value) + SizeItems(items[1..])
  }

  function SizeElements(elements: seq<Value>): nat {
    if elements == [] then 0 else Size(elements[0]) + SizeElements(elements[1..])
  }

  function Load(pending: seq<Pending>): nat {
    if pending == [] then 0 else Load(pending[..|pending| - 1]) + Size(pending[|pending| - 1].item)
  }

  lemma {:induction false} LoadConcat(p: seq<Pending>, q: seq<Pending>)
    ensures Load(p + q) == Load(p) + Load(q)
  {
    if q == [] {
      assert p + q == p;
    } else {
      LoadConcat(p, q[..|q| - 1]);
      assert (p + q)[..|p + q| - 1] == p + q[..|q| - 1];
    }
  }

  lemma {:induction false} LoadPrepend(p: Pending, q: seq<Pending>)
    ensures Load([p] + q) == Size(p.item) + Load(q)
  {
    LoadConcat([p], q);
    assert [p][..0] == [];
  }

  lemma {:induction false} LoadWork(v: Value, address: nat)
    requires v.Dict? || v.List?
    ensures Load(Work(v, address)) + 1 == Size(v)
    decreases Arity(v)
  {
    if Arity(v) > 0 {
      if v.Dict? {
        var rest := Dict(v.items[1..]);
        LoadWork(rest, address);
        LoadPrepend(Work(v, address)[0], Work(rest, address));
        assert Work(v, address) == [Work(v, address)[0]] + Work(rest, address);
      } else {
        LoadElements(v.elements, v.elements, 0, address);
        assert Work(v, address)[0..] == Work(v, address);
      }
    }
  }

  lemma {:induction false} LoadElements(all: seq<Value>, rest: seq<Value>, from: nat, address: nat)
    requires from <= |all| && rest == all[from..]
    ensures Load(Work(List(all), address)[from..]) == SizeElements(rest)
    decreases |rest|
  {
    var work := Work(List(all), address);
    if rest != [] {
      LoadElements(all, rest[1..], from + 1, address);
      LoadPrepend(work[from], work[from + 1..]);
      assert work[from..] == [work[from]] + work[from + 1..];
    }
  }

  lemma {:induction false} UnwrapShrinks(v: Value)
    ensures Size(Unwrap(v)) <= Size(v)
  {
    if v.EnumMember? {
      UnwrapShrinks(v.inner);
    }
  }

  // ---- the loop invariant ----

  /** Position i of container a is filled with what its child becomes. */
  ghost predicate Filled(cells: seq<Cell>, source: seq<Value>, a: nat, i: nat)
    requires |cells| == |source|
  {
    && a < |source| && i < Arity(source[a])
    && WellFormed(ChildAt(source[a], i))
    && match Get(cells[a], KeyAt(source[a], i))
       case Empty => false
       case Leaf(canon) => canon == Form(ChildAt(source[a], i))
       case Ref(b) => a < b < |cells| && source[b] == Unwrap(ChildAt(source[a], i))
  }

  /** The k-th pending entry is the one that will fill position i of container a. */
  ghost predicate Awaits(pending: seq<Pending>, where: seq<nat>, k: nat, a: nat, i: nat) {
    k < |pending| == |where| && pending[k].parent == a && where[k] == i
  }

  ghost predicate Waiting(pending: seq<Pending>, where: seq<nat>, a: nat, i: nat) {
    exists k: nat :: Awaits(pending, where, k, a, i)
  }

  ghost predicate CellShape(cell: Cell, v: Value) {
    match v
    case Dict(items) =>
      && cell.DictCell?
      && forall n :: n in cell.fields ==> n in EscapedNames(items)
    case List(elements) => cell.ListCell? && |cell.slots| == |elements|
    case _ => false
  }

  ghost predicate PendingSound(source: seq<Value>, p: Pending, i: nat) {
    && p.parent < |source|
    && i < Arity(source[p.parent])
    && p.item == ChildAt(source[p.parent], i)
    && p.key == KeyAt(source[p.parent], i)
  }

  /** `source[a]` is the value container a is built from; `where[k]` the position entry k fills. */
  ghost predicate Inv(cells: seq<Cell>, source: seq<Value>, pending: seq<Pending>, where: seq<nat>) {
    && |cells| == |source| && |where| == |pending|
    && (forall a :: 0 <= a < |source| ==> WellFormed(source[a]) && CellShape(cells[a], source[a]))
    && (forall k :: 0 <= k < |pending| ==> PendingSound(source, pending[k], where[k]))
    && (forall a: nat, i: nat :: a < |source| && i < Arity(source[a]) ==>
          Filled(cells, source, a, i) || Waiting(pending, where, a, i))
  }

  lemma ChildWellFormed(v: Value, i: nat)
    requires WellFormed(v) && i < Arity(v)
    ensures WellFormed(ChildAt(v, i))
  {
  }

  /** Assigning one position of a container leaves every other position as it was. */
  lemma PutElsewhere(cell: Cell, v: Value, i: nat, j: nat, slot: Slot)
    requires WellFormed(v) && CellShape(cell, v) && i < Arity(v) && j < Arity(v)
    ensures Get(Put(cell, KeyAt(v, i), slot), KeyAt(v, j)) == if i == j then slot else Get(cell, KeyAt(v, j))
    ensures CellShape(Put(cell, KeyAt(v, i), slot), v)
  {
    if i != j {
      KeyAtInjective(v, i, j);
    }
  }

  /** The extra work fills exactly the positions of the extra containers. */
  ghost predicate WorkFor(source: seq<Value>, extra: seq<Value>, work: seq<Pending>, places: seq<nat>) {
    var all := source + extra;
    && |work| == |places|
    && (forall k :: 0 <= k < |work| ==> PendingSound(all, work[k], places[k]))
    && (forall a: nat, i: nat :: |source| <= a < |all| && i < Arity(all[a]) ==> Waiting(work, places, a, i))
  }

  /** Taking the top entry and filling its position keeps the invariant, whatever containers are added. */
  lemma StepKeepsInv(
    cells: seq<Cell>, source: seq<Value>, pending: seq<Pending>, where: seq<nat>, top: Pending, at: nat, slot: Slot,
    newCells: seq<Cell>, newSource: seq<Value>, work: seq<Pending>, places: seq<nat>)
    requires Inv(cells, source, pending + [top], where + [at]) && top.parent < |cells|
    requires |newCells| == |newSource|
    requires forall b :: 0 <= b < |newCells| ==> WellFormed(newSource[b]) && CellShape(newCells[b], newSource[b])
    requires WorkFor(source, newSource, work, places)
    requires match slot
      case Empty => false
      case Leaf(canon) => WellFormed(top.item) && canon == Form(top.item)
      case Ref(b) => b == |cells| && newSource == [Unwrap(top.item)]
    ensures Inv(cells[top.parent := Put(cells[top.parent], top.key, slot)] + newCells, source + newSource,
                pending + work, where + places)
  {
    hide Form, WellFormed, CellShape, KeyAt, ChildAt, Put, Get, Unwrap;
    var cells', source' := cells[top.parent := Put(cells[top.parent], top.key, slot)] + newCells, source + newSource;
    var pending', where' := pending + work, where + places;
    assert (pending + [top])[|pending|] == top && (where + [at])[|pending|] == at;
    assert PendingSound(source, top, at);
    forall a: nat | a < |source'|
      ensures WellFormed(source'[a]) && CellShape(cells'[a], source'[a])
    {
      if a == top.parent {
        PutElsewhere(cells[a], source[a], at, at, slot);
      }
    }
    forall k: nat | k < |pending'|
      ensures PendingSound(source', pending'[k], where'[k])
    {
      if k < |pending| {
        assert PendingSound(source, (pending + [top])[k], (where + [at])[k]);
      }
    }
    forall a: nat, i: nat | a < |source'| && i < Arity(source'[a])
      ensures Filled(cells', source', a, i) || Waiting(pending', where', a, i)
    {
      if a >= |source| {
        assert Waiting(work, places, a, i);
        var k: nat :| Awaits(work, places, k, a, i);
        assert Awaits(pending', where', |pending| + k, a, i);
      } else {
        ChildWellFormed(source[a], i);
        if a == top.parent {
          PutElsewhere(cells[a], source[a], at, i, slot);
        }
        if !(a == top.parent && i == at) {
          if Filled(cells, source, a, i) {
            assert Filled(cells', source', a, i);
          } else {
            var k: nat :| Awaits(pending + [top], where + [at], k, a, i);
            assert Awaits(pending', where', k, a, i);
          }
        }
      }
    }
  }

  /** When nothing is pending, every container reads as the canonical form of its source. */
  lemma {:induction false} FinishedReads(cells: seq<Cell>, source: seq<Value>, a: nat)
    requires Inv(cells, source, [], []) && a < |cells|
    ensures ReadCell(cells, a) == Form(source[a])
    decreases |cells| - a
  {
    var v := source[a];
    forall i: nat | i < Arity(v)
      ensures WellFormed(ChildAt(v, i))
      ensures ReadSlot(cells, a, Get(cells[a], KeyAt(v, i))) == Form(ChildAt(v, i))
      ensures !Get(cells[a], KeyAt(v, i)).Empty?
    {
      ChildWellFormed(v, i);
      assert Filled(cells, source, a, i) || Waiting([], [], a, i);
      var slot := Get(cells[a], KeyAt(v, i));
      if slot.Ref? {
        FinishedReads(cells, source, slot.address);
      }
    }
    if v.Dict? {
      FinishedDict(cells, a, v.items);
    } else {
      var read := ReadCell(cells, a).items;
      forall i | 0 <= i < |read| ensures read[i] == Form(v).items[i] {
        assert KeyAt(v, i) == Index(i);
      }
    }
  }

  lemma FinishedDict(cells: seq<Cell>, a: nat, items: seq<Item>)
    requires a < |cells| && WellFormed(Dict(items)) && CellShape(cells[a], Dict(items))
    requires forall i: nat :: i < |items| ==>
      && WellFormed(items[i].value)
      && !Get(cells[a], KeyAt(Dict(items), i)).Empty?
      && ReadSlot(cells, a, Get(cells[a], KeyAt(Dict(items), i))) == Form(items[i].value)
    ensures ReadCell(cells, a) == Form(Dict(items))
  {
    hide Form, FormItems, ReadSlot, Escape;
    var fields, expected, names := cells[a].fields, FormItems(items), EscapedNames(items);
    FormItemsKeys(items);
    forall i | 0 <= i < |names|
      ensures names[i] in fields && names[i] in expected && expected[names[i]] == ReadSlot(cells, a, fields[names[i]])
    {
      FormItemsAt(items, i);
      assert KeyAt(Dict(items), i) == Name(names[i]);
    }
    var read := map n | n in fields :: ReadSlot(cells, a, fields[n]);
    assert read == expected;
    FormOfDict(items);
  }

  lemma FormOfDict(items: seq<Item>)
    requires WellFormed(Dict(items))
    ensures Form(Dict(items)) == CObject(FormItems(items))
  {
  }

  lemma TopIsSound(cells: seq<Cell>, source: seq<Value>, pending: seq<Pending>, where: seq<nat>, top: Pending, at: nat)
    requires Inv(cells, source, pending + [top], where + [at])
    ensures |cells| == |source| && |where| == |pending|
    ensures top.parent < |cells| && WellFormed(top.item)
  {
    assert (pending + [top])[|pending|] == top && (where + [at])[|pending|] == at;
    assert PendingSound(source, top, at);
    ChildWellFormed(source[top.parent], at);
  }

  /** A scalar fills its position. */
  lemma LeafStep(cells: seq<Cell>, source: seq<Value>, pending: seq<Pending>, where: seq<nat>, top: Pending, at: nat)
    requires Inv(cells, source, pending + [top], where + [at])
    requires top.parent < |cells| && WellFormed(top.item) && !Unwrap(top.item).Dict? && !Unwrap(top.item).List?
    ensures Inv(cells[top.parent := Put(cells[top.parent], top.key, Leaf(Scalar(Unwrap(top.item))))], source, pending, where)
    ensures Load(pending) < Load(pending + [top])
  {
    hide Inv, Put, Form, Scalar, Load, WellFormed, Size;
    UnwrappedScalar(top.item);
    var slot := Leaf(Scalar(Unwrap(top.item)));
    var cells' := cells[top.parent := Put(cells[top.parent], top.key, slot)];
    StepKeepsInv(cells, source, pending, where, top, at, slot, [], [], [], []);
    assert cells' + [] == cells' && source + [] == source && pending + [] == pending && where + [] == where;
    LoadTop(pending, top);
    SizePositive(top.item);
  }

  lemma InvLengths(cells: seq<Cell>, source: seq<Value>, pending: seq<Pending>, where: seq<nat>)
    requires Inv(cells, source, pending, where)
    ensures |cells| == |source| && |where| == |pending|
  {
  }

  /** A container fills its position with an empty container and leaves its children as work. */
  lemma ContainerStep(cells: seq<Cell>, source: seq<Value>, pending: seq<Pending>, where: seq<nat>, top: Pending, at: nat)
    requires Inv(cells, source, pending + [top], where + [at]) && |cells| == |source|
    requires top.parent < |cells| && WellFormed(top.item) && (Unwrap(top.item).Dict? || Unwrap(top.item).List?)
    ensures var item := Unwrap(top.item);
      && Inv(cells[top.parent := Put(cells[top.parent], top.key, Ref(|cells|))] + [NewCell(item)], source + [item],
             pending + Work(item, |cells|), where + Positions(item))
      && Load(pending + Work(item, |cells|)) < Load(pending + [top])
  {
    hide Inv, Put, NewCell, Load, WellFormed, CellShape, WorkFor, Work, Positions, Size;
    var item := Unwrap(top.item);
    UnwrapWellFormed(top.item);
    NewCellShape(item);
    NewWork(source, item);
    StepKeepsInv(cells, source, pending, where, top, at, Ref(|cells|),
                 [NewCell(item)], [item], Work(item, |cells|), Positions(item));
    LoadTop(pending, top);
    UnwrapShrinks(top.item);
    LoadWork(item, |cells|);
    LoadConcat(pending, Work(item, |cells|));
  }

  lemma SizePositive(v: Value)
    ensures Size(v) > 0
  {
  }

  lemma UnwrappedScalar(v: Value)
    requires WellFormed(v) && !Unwrap(v).Dict? && !Unwrap(v).List?
    ensures WellFormed(Unwrap(v)) && Scalar(Unwrap(v)) == Form(v)
  {
  }

  lemma UnwrapWellFormed(v: Value)
    requires WellFormed(v)
    ensures WellFormed(Unwrap(v))
  {
  }

  lemma LoadTop(pending: seq<Pending>, top: Pending)
    ensures Load(pending + [top]) == Load(pending) + Size(top.item)
  {
    assert (pending + [top])[..|pending|] == pending;
  }

  ghost function Positions(v: Value): (p: seq<nat>)
    ensures |p| == Arity(v) && forall i :: 0 <= i < |p| ==> p[i] == i
  {
    seq(Arity(v), i requires 0 <= i < Arity(v) => i)
  }

  /** The loop visits every node once and builds the canonical form in place. */
  method Canonicalize(value: Value) returns (result: Canon)
    requires WellFormed(value)
    ensures result == Form(value)
  {
    var cells := [ListCell([Empty])];
    var pending := [Pending(value, 0, Index(0))];
    ghost var source := [List([value])];
    ghost var where: seq<nat> := [0];
    assert Awaits(pending, where, 0, 0, 0);
    assert Inv(cells, source, pending, where);
    hide Inv, Form, Put, Load;
    while pending != []
      invariant Inv(cells, source, pending, where)
      invariant |source| > 0 && source[0] == List([value])
      decreases Load(pending)
    {
      var top := pending[|pending| - 1];
      InvLengths(cells, source, pending, where);
      ghost var at := where[|pending| - 1];
      ghost var rest := where[..|pending| - 1];
      assert pending == pending[..|pending| - 1] + [top] && where == rest + [at];
      pending := pending[..|pending| - 1];
      TopIsSound(cells, source, pending, rest, top, at);
      var item := top.item;
      while item.EnumMember?
        invariant Unwrap(item) == Unwrap(top.item)
        decreases item
      {
        item := item.inner;
      }
      if item.Dict? || item.List? {
        ContainerStep(cells, source, pending, rest, top, at);
        var mapped := |cells|;
        cells := cells[top.parent := Put(cells[top.parent], top.key, Ref(mapped))] + [NewCell(item)];
        pending := pending + Work(item, mapped);
        source, where := source + [item], rest + Positions(item);
      } else {
        LeafStep(cells, source, pending, rest, top, at);
        cells := cells[top.parent := Put(cells[top.parent], top.key, Leaf(Scalar(item)))];
        where := rest;
      }
    }
    InvLengths(cells, source, pending, where);
    RootReads(cells, source, value);
    result := ReadSlot(cells, 0, Get(cells[0], Index(0)));
  }

  lemma RootReads(cells: seq<Cell>, source: seq<Value>, value: Value)
    requires Inv(cells, source, [], []) && |source| == |cells| > 0 && source[0] == List([value])
    requires WellFormed(value)
    ensures ReadSlot(cells, 0, Get(cells[0], Index(0))) == Form(value)
  {
    FinishedReads(cells, source, 0);
    assert ReadCell(cells, 0).items[0] == Form(source[0]).items[0];
  }

  lemma NewWork(source: seq<Value>, v: Value)
    requires v.Dict? || v.List?
    ensures WorkFor(source, [v], Work(v, |source|), Positions(v))
  {
    forall i: nat | i < Arity(v) ensures Waiting(Work(v, |source|), Positions(v), |source|, i) {
      assert Awaits(Work(v, |source|), Positions(v), i, |source|, i);
    }
  }

  lemma NewCellShape(v: Value)
    requires v.Dict? || v.List?
    ensures CellShape(NewCell(v), v)
  {
  }

  // ---- equal forms, equal values ----

  /** A value as the store holds it: no enum, UUID or datetime, which only candidates carry. */
  predicate Stored(v: Value) {
    match v
    case Uuid(_) => false
    case Instant(_) => false
    case LocalTime(_) => false
    case EnumMember(_) => false
    case Dict(items) => forall i :: 0 <= i < |items| ==> Stored(items[i].value)
    case List(elements) => forall i :: 0 <= i < |elements| ==> Stored(elements[i])
    case _ => true
  }

  /** Equality of stored JSON: numbers by exact value, dictionaries by key whatever their order. */
  predicate Same(v: Value, w: Value)
    requires WellFormed(v) && WellFormed(w)
  {
    match v
    case Num(n) => w.Num? && SameValue(n, w.n)
    case List(elements) =>
      && w.List? && |elements| == |w.elements|
      && forall i :: 0 <= i < |elements| ==> Same(elements[i], w.elements[i])
    case Dict(items) =>
      && w.Dict? && |items| == |w.items|
      && forall i :: 0 <= i < |items| ==>
           exists j :: 0 <= j < |w.items| && items[i].name == w.items[j].name && Same(items[i].value, w.items[j].value)
    case _ => v == w
  }

  lemma TagsDiffer()
    ensures NUMBER_TAG != DOCUMENT_TAG && NUMBER_TAG != FLOAT_TAG && DOCUMENT_TAG != FLOAT_TAG
  {
    assert NUMBER_TAG[1] == 'j' && FLOAT_TAG[1] == 'f' && |NUMBER_TAG| == 12 && |DOCUMENT_TAG| == 14;
  }

  lemma TaggedEqual(tag: string, text: string, tag': string, text': string)
    ensures Tagged(tag, text) == Tagged(tag', text') <==> tag == tag' && text == text'
  {
    var m, m' := map[tag := CText(text)], map[tag' := CText(text')];
    if m == m' {
      assert tag in m' && m[tag] == m'[tag];
    }
  }

  /** A dictionary's form is never the form of a tagged scalar. */
  lemma DictIsNotTagged(items: seq<Item>, tag: string, text: string)
    requires WellFormed(Dict(items)) && tag in {NUMBER_TAG, DOCUMENT_TAG, FLOAT_TAG}
    ensures CObject(FormItems(items)) != Tagged(tag, text)
  {
    var tagged := map[tag := CText(text)];
    if FormItems(items) == tagged {
      assert tag in FormItems(items);
      FormItemsKeys(items);
      var i :| 0 <= i < |items| && EscapedNames(items)[i] == tag;
      EscapeAvoidsTags(items[i].name);
      assert false;
    }
  }

  /** Some entry of ys has x's name and a value of the same form. */
  predicate HasTwin(x: Item, ys: seq<Item>)
    requires WellFormed(x.value) && forall j :: 0 <= j < |ys| ==> WellFormed(ys[j].value)
  {
    exists j :: 0 <= j < |ys| && x.name == ys[j].name && Form(x.value) == Form(ys[j].value)
  }

  lemma TwinHasSameField(x: Item, ys: seq<Item>)
    requires WellFormed(x.value) && WellFormed(Dict(ys))
    ensures HasTwin(x, ys) <==> Escape(x.name) in FormItems(ys) && FormItems(ys)[Escape(x.name)] == Form(x.value)
  {
    hide Form, FormItems, Escape;
    FormItemsKeys(ys);
    if HasTwin(x, ys) {
      var j :| 0 <= j < |ys| && x.name == ys[j].name && Form(x.value) == Form(ys[j].value);
      FormItemsAt(ys, j);
    }
    if Escape(x.name) in FormItems(ys) {
      var j :| 0 <= j < |ys| && EscapedNames(ys)[j] == Escape(x.name);
      EscapeInjective(ys[j].name, x.name);
      FormItemsAt(ys, j);
    }
  }

  lemma SameDictForms(xs: seq<Item>, ys: seq<Item>)
    requires WellFormed(Dict(xs)) && WellFormed(Dict(ys))
    ensures FormItems(xs) == FormItems(ys) <==> |xs| == |ys| && forall i :: 0 <= i < |xs| ==> HasTwin(xs[i], ys)
  {
    hide Form, FormItems, Escape, HasTwin;
    FormItemsKeys(xs);
    FormItemsKeys(ys);
    var names := EscapedNames(xs);
    forall i | 0 <= i < |xs|
      ensures names[i] in FormItems(xs)
      ensures HasTwin(xs[i], ys) <==> names[i] in FormItems(ys) && FormItems(ys)[names[i]] == FormItems(xs)[names[i]]
    {
      FormItemsAt(xs, i);
      TwinHasSameField(xs[i], ys);
    }
    SameMaps(FormItems(xs), FormItems(ys), names);
  }

  lemma SameMaps(m: map<string, Canon>, n: map<string, Canon>, names: seq<string>)
    requires forall k :: k in m ==> k in names
    requires forall i :: 0 <= i < |names| ==> names[i] in m
    ensures m == n <==> |m| == |n| && forall i :: 0 <= i < |names| ==> names[i] in n && n[names[i]] == m[names[i]]
  {
    if |m| == |n| && forall i :: 0 <= i < |names| ==> names[i] in n && n[names[i]] == m[names[i]] {
      SameKeysBySize(m, n);
    }
  }

  lemma SameKeysBySize(m: map<string, Canon>, n: map<string, Canon>)
    requires forall k :: k in m ==> k in n && n[k] == m[k]
    requires |m| == |n|
    ensures m == n
  {
    assert m.Keys <= n.Keys && |m.Keys| == |n.Keys|;
    if k :| k in n.Keys && k !in m.Keys {
      assert m.Keys <= n.Keys - {k} && |n.Keys - {k}| == |n.Keys| - 1;
      SubsetSize(m.Keys, n.Keys - {k});
    }
  }

  lemma {:induction false} SubsetSize(s: set<string>, t: set<string>)
    requires s <= t
    ensures |s| <= |t|
  {
    if s != {} {
      var x :| x in s;
      SubsetSize(s - {x}, t - {x});
    }
  }

  lemma SameListForms(xs: seq<Value>, ys: seq<Value>)
    requires WellFormed(List(xs)) && WellFormed(List(ys))
    ensures Form(List(xs)) == Form(List(ys)) <==>
      |xs| == |ys| && forall i :: 0 <= i < |xs| ==> Form(xs[i]) == Form(ys[i])
  {
    var f, g := Form(List(xs)).items, Form(List(ys)).items;
    if f == g {
      forall i | 0 <= i < |xs| ensures Form(xs[i]) == Form(ys[i]) {
        assert f[i] == g[i];
      }
    }
  }

  /** Two stored values have the same canonical form exactly when they are equal JSON. */
  lemma {:induction false} FormIffSame(v: Value, w: Value)
    requires WellFormed(v) && WellFormed(w) && Stored(v) && Stored(w)
    ensures Form(v) == Form(w) <==> Same(v, w)
    decreases v
  {
    if v.Dict? && w.Dict? {
      forall i, j | 0 <= i < |v.items| && 0 <= j < |w.items|
        ensures Form(v.items[i].value) == Form(w.items[j].value) <==> Same(v.items[i].value, w.items[j].value)
      {
        FormIffSame(v.items[i].value, w.items[j].value);
      }
      DictFormIffSame(v.items, w.items);
    } else if v.List? && w.List? {
      forall i | 0 <= i < |v.elements| && i < |w.elements|
        ensures Form(v.elements[i]) == Form(w.elements[i]) <==> Same(v.elements[i], w.elements[i])
      {
        FormIffSame(v.elements[i], w.elements[i]);
      }
      SameListForms(v.elements, w.elements);
    } else {
      DifferentShapes(v, w);
    }
  }

  lemma DictFormIffSame(xs: seq<Item>, ys: seq<Item>)
    requires WellFormed(Dict(xs)) && WellFormed(Dict(ys))
    requires forall i, j :: 0 <= i < |xs| && 0 <= j < |ys| ==>
      (Form(xs[i].value) == Form(ys[j].value) <==> Same(xs[i].value, ys[j].value))
    ensures Form(Dict(xs)) == Form(Dict(ys)) <==> Same(Dict(xs), Dict(ys))
  {
    SameDictForms(xs, ys);
    FormOfDict(xs);
    FormOfDict(ys);
    hide Form, FormItems, WellFormed;
    assert forall i :: 0 <= i < |xs| ==>
      (HasTwin(xs[i], ys)
       <==> exists j :: 0 <= j < |ys| && xs[i].name == ys[j].name && Same(xs[i].value, ys[j].value));
  }

  lemma DifferentShapes(v: Value, w: Value)
    requires WellFormed(v) && WellFormed(w) && Stored(v) && Stored(w)
    requires !(v.Dict? && w.Dict?) && !(v.List? && w.List?)
    ensures Form(v) == Form(w) <==> Same(v, w)
  {
    if v.Dict? || w.Dict? {
      DictAgainstOther(if v.Dict? then v else w, if v.Dict? then w else v);
    } else if !v.List? && !w.List? {
      ScalarForms(v, w);
    }
  }

  function TagOf(v: Value): string {
    match v case Num(_) => NUMBER_TAG case NonFinite(_) => FLOAT_TAG case _ => DOCUMENT_TAG
  }

  function TaggedText(v: Value): string
    requires WellFormed(v)
  {
    match v
    case Num(n) => NumberText(n)
    case NonFinite(spelling) => spelling
    case Document(text) => text
    case _ => ""
  }

  predicate IsTagged(v: Value) {
    v.Num? || v.NonFinite? || v.Document?
  }

  lemma DictAgainstOther(d: Value, w: Value)
    requires WellFormed(d) && WellFormed(w) && Stored(w) && d.Dict? && !w.Dict?
    ensures Form(d) != Form(w)
  {
    if IsTagged(w) {
      DictIsNotTagged(d.items, TagOf(w), TaggedText(w));
    }
  }

  lemma ScalarForms(v: Value, w: Value)
    requires WellFormed(v) && WellFormed(w) && Stored(v) && Stored(w)
    requires !v.Dict? && !w.Dict? && !v.List? && !w.List?
    ensures Form(v) == Form(w) <==> Same(v, w)
  {
    hide NumberText, SameValue;
    if IsTagged(v) && IsTagged(w) {
      TagsDiffer();
      TaggedEqual(TagOf(v), TaggedText(v), TagOf(w), TaggedText(w));
      assert Form(v) == Tagged(TagOf(v), TaggedText(v)) && Form(w) == Tagged(TagOf(w), TaggedText(w));
      if v.Num? && w.Num? {
        CanonicalIffSameValue(v.n, w.n);
      }
    }
  }
}
