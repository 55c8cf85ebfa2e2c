/** Flattening of nested proto declarations into a registry keyed by fully-qualified names. */
module Parser {
  import opened DottedNames
  import opened Proto
  import opened Selections
  import Resolve

  /** Elements of a parsed proto file, as far as the collector looks at them. */
  datatype Element =
    | PackageDecl(name: string)
    | MessageDecl(name: string, comment: string, elements: seq<Element>)
    | EnumDecl(name: string, values: seq<EnumElement>)
    | NormalField(name: string, typ: string, repeated: bool, comment: string)
    | MapField(name: string, keyType: string, valueType: string)
    | OneofDecl(members: seq<OneofElement>)
    | OtherElement

  datatype EnumElement = EnumField(name: string) | OtherEnumElement

  datatype OneofElement = OneofField(name: string, typ: string, comment: string) | OtherOneofElement

  function Qualify(name: string, pkg: string, parent: string): string {
    if parent != "" then parent + "." + name
    else if pkg != "" then pkg + "." + name
    else name
  }

  // ----- The registry entries of a declaration tree, in the order in which they are written -----

  datatype Entry = MessageEntry(fqn: string, msg: Message) | EnumEntry(fqn: string, enum: Enum)

  function FieldsOf(e: Element): seq<Field> {
    match e
    case NormalField(name, typ, repeated, comment) => [Field(name, typ, repeated, "", "", comment)]
    case MapField(name, keyType, valueType) => [Field(name, "map", false, keyType, valueType, "")]
    case OneofDecl(members) => OneofFields(members)
    case _ => []
  }

  function OneofFields(members: seq<OneofElement>): seq<Field> {
    if members == [] then []
    else
      var m := members[|members| - 1];
      OneofFields(members[..|members| - 1]) +
      if m.OneofField? then [Field(m.name, m.typ, false, "", "", m.comment)] else []
  }

  function AllFields(elements: seq<Element>): seq<Field> {
    if elements == [] then []
    else AllFields(elements[..|elements| - 1]) + FieldsOf(elements[|elements| - 1])
  }

  function EnumValues(values: seq<EnumElement>): seq<string> {
    if values == [] then []
    else
      var v := values[|values| - 1];
      EnumValues(values[..|values| - 1]) + if v.EnumField? then [v.name] else []
  }

  function MessageOf(e: Element, pkg: string, fqn: string): Message
    requires e.MessageDecl?
  {
    Message(fqn, e.name, pkg, AllFields(e.elements), e.comment)
  }

  function Entries(elements: seq<Element>, pkg: string, parent: string): seq<Entry>
    decreases elements, 0
  {
    if elements == [] then []
    else Entries(elements[..|elements| - 1], pkg, parent) + EntriesOf(elements[|elements| - 1], pkg, parent)
  }

  function EntriesOf(e: Element, pkg: string, parent: string): seq<Entry>
    decreases e, 1
  {
    match e
    case MessageDecl(name, _, elements) =>
      var fqn := Qualify(name, pkg, parent);
      [MessageEntry(fqn, MessageOf(e, pkg, fqn))] + Entries(elements, pkg, fqn)
    case EnumDecl(name, values) =>
      var fqn := Qualify(name, pkg, parent);
      [EnumEntry(fqn, Enum(fqn, EnumValues(values)))]
    case _ => []
  }

  function Put(reg: Registry, e: Entry): Registry {
    match e
    case MessageEntry(fqn, msg) => reg.(messages := reg.messages[fqn := msg])
    case EnumEntry(fqn, enum) => reg.(enums := reg.enums[fqn := enum])
  }

  function PutAll(reg: Registry, es: seq<Entry>): Registry {
    if es == [] then reg else Put(PutAll(reg, es[..|es| - 1]), es[|es| - 1])
  }

  lemma {:induction false} PutAllAppend(reg: Registry, a: seq<Entry>, b: seq<Entry>)
    ensures PutAll(reg, a + b) == PutAll(PutAll(reg, a), b)
  {
    if b == [] {
      assert a + b == a;
    } else {
      assert (a + b)[..|a + b| - 1] == a + b[..|b| - 1];
      PutAllAppend(reg, a, b[..|b| - 1]);
    }
  }

  lemma PutFirst(reg: Registry, e: Entry, rest: seq<Entry>)
    ensures PutAll(reg, [e] + rest) == PutAll(Put(reg, e), rest)
  {
    assert [e][..0] == [];
    assert PutAll(reg, [e]) == Put(reg, e);
    PutAllAppend(reg, [e], rest);
  }

  lemma OneMoreElement(reg: Registry, elements: seq<Element>, pkg: string, parent: string, i: nat)
    requires i < |elements|
    ensures PutAll(reg, Entries(elements[..i + 1], pkg, parent))
            == PutAll(PutAll(reg, Entries(elements[..i], pkg, parent)), EntriesOf(elements[i], pkg, parent))
  {
    assert elements[..i + 1][..i] == elements[..i];
    PutAllAppend(reg, Entries(elements[..i], pkg, parent), EntriesOf(elements[i], pkg, parent));
  }

  // ----- The collector -----

  class Collector {
    var messages: map<string, Message>
    var enums: map<string, Enum>

    ghost function Value(): Registry
      reads this
    {
      Registry(messages, enums)
    }

    constructor ()
      ensures Value() == Registry(map[], map[])
    {
      messages, enums := map[], map[];
    }

    method CollectElements(elements: seq<Element>, pkg: string, parent: string)
      modifies this
      ensures Value() == PutAll(old(Value()), Entries(elements, pkg, parent))
      decreases elements, 0
    {
      for i := 0 to |elements|
        invariant Value() == PutAll(old(Value()), Entries(elements[..i], pkg, parent))
      {
        CollectElement(elements[i], pkg, parent);
        OneMoreElement(old(Value()), elements, pkg, parent, i);
      }
      assert elements[..|elements|] == elements;
    }

    /** One turn of the loop: the type switch on an element. */
    method CollectElement(e: Element, pkg: string, parent: string)
      modifies this
      ensures Value() == PutAll(old(Value()), EntriesOf(e, pkg, parent))
      decreases e, 1
    {
      match e {
        case MessageDecl(name, comment, nested) =>
          var fqn := Qualify(name, pkg, parent);
          var fields := CollectFields(nested);
          messages := messages[fqn := Message(fqn, name, pkg, fields, comment)];
          CollectElements(nested, pkg, fqn);
          PutFirst(old(Value()), MessageEntry(fqn, MessageOf(e, pkg, fqn)), Entries(nested, pkg, fqn));
        case EnumDecl(name, values) =>
          var fqn := Qualify(name, pkg, parent);
          var names := CollectValues(values);
          enums := enums[fqn := Enum(fqn, names)];
          PutFirst(old(Value()), EnumEntry(fqn, Enum(fqn, names)), []);
        case _ =>
      }
    }

    /** A file: its package is the first package declaration, if there is one. */
    method ParseFile(elements: seq<Element>)
      modifies this
      ensures Value() == PutAll(old(Value()), FileEntries(elements))
      ensures old(Value()) == Registry(map[], map[]) && WellNamed(elements) ==> Lossless(elements, Value())
    {
      if WellNamed(elements) {
        FlatteningIsLossless(elements);
      }
      var pkg := "";
      for i := 0 to |elements|
        invariant PackageOf(elements) == PackageOf(elements[i..]) && pkg == ""
      {
        if elements[i].PackageDecl? {
          pkg := elements[i].name;
          break;
        }
        assert elements[i..][1..] == elements[i + 1..];
      }
      CollectElements(elements, pkg, "");
    }
  }

  method CollectFields(elements: seq<Element>) returns (fields: seq<Field>)
    ensures fields == AllFields(elements)
    ensures FieldsAre(elements, fields)
  {
    FieldsDescribed(elements);
    fields := [];
    for i := 0 to |elements|
      invariant fields == AllFields(elements[..i])
    {
      assert elements[..i + 1][..i] == elements[..i];
      var more := FieldsIn(elements[i]);
      fields := fields + more;
    }
    assert elements[..|elements|] == elements;
  }

  method FieldsIn(e: Element) returns (fields: seq<Field>)
    ensures fields == FieldsOf(e)
  {
    match e {
      case NormalField(name, typ, repeated, comment) =>
        fields := [Field(name, typ, repeated, "", "", comment)];
      case MapField(name, keyType, valueType) =>
        fields := [Field(name, "map", false, keyType, valueType, "")];
      case OneofDecl(members) =>
        fields := CollectOneof(members);
      case _ =>
        fields := [];
    }
  }

  method CollectOneof(members: seq<OneofElement>) returns (fields: seq<Field>)
    ensures fields == OneofFields(members)
  {
    fields := [];
    for j := 0 to |members|
      invariant fields == OneofFields(members[..j])
    {
      assert members[..j + 1][..j] == members[..j];
      if members[j].OneofField? {
        fields := fields + [Field(members[j].name, members[j].typ, false, "", "", members[j].comment)];
      }
    }
    assert members[..|members|] == members;
  }

  method CollectValues(values: seq<EnumElement>) returns (names: seq<string>)
    ensures names == EnumValues(values)
    ensures ValuesAre(values, names)
  {
    ValuesDescribed(values);
    names := [];
    for i := 0 to |values|
      invariant names == EnumValues(values[..i])
    {
      assert values[..i + 1][..i] == values[..i];
      if values[i].EnumField? {
        names := names + [values[i].name];
      }
    }
    assert values[..|values|] == values;
  }

  function PackageOf(elements: seq<Element>): string {
    if elements == [] then ""
    else if elements[0].PackageDecl? then elements[0].name
    else PackageOf(elements[1..])
  }

  function FileEntries(elements: seq<Element>): seq<Entry> {
    Entries(elements, PackageOf(elements), "")
  }

  // ----- What the fields, values and package of a declaration are, position by position -----

  /** A field among the elements of a message: of an element itself, or of a member of a oneof. */
  datatype Spot = Spot(element: nat, member: nat)

  predicate IsField(elements: seq<Element>, p: Spot) {
    p.element < |elements| &&
    match elements[p.element]
    case NormalField(_, _, _, _) => p.member == 0
    case MapField(_, _, _) => p.member == 0
    case OneofDecl(members) => p.member < |members| && members[p.member].OneofField?
    case _ => false
  }

  /** The stored field is the declared one. */
  predicate Stores(elements: seq<Element>, p: Spot, f: Field)
    requires IsField(elements, p)
  {
    match elements[p.element]
    case NormalField(name, typ, repeated, comment) =>
      && f.name == name && f.typ == typ && f.repeated == repeated && f.comment == comment
      && f.mapKey == "" && f.mapValue == ""
    case MapField(name, keyType, valueType) =>
      && f.name == name && f.typ == "map" && f.mapKey == keyType && f.mapValue == valueType
      && !f.repeated && f.comment == ""
    case OneofDecl(members) =>
      var m := members[p.member];
      && f.name == m.name && f.typ == m.typ && f.comment == m.comment
      && !f.repeated && f.mapKey == "" && f.mapValue == ""
  }

  predicate Earlier(p: Spot, q: Spot) {
    p.element < q.element || (p.element == q.element && p.member < q.member)
  }

  /** In order, each spot has the field stored for it. */
  ghost predicate StoredInOrder(elements: seq<Element>, ps: seq<Spot>, fields: seq<Field>) {
    && |ps| == |fields|
    && (forall n | 0 <= n < |ps| :: IsField(elements, ps[n]) && Stores(elements, ps[n], fields[n]))
    && (forall m, n | 0 <= m < n < |ps| :: Earlier(ps[m], ps[n]))
  }

  /** The fields are, in order, exactly one for each declared field. */
  ghost predicate FieldsAre(elements: seq<Element>, fields: seq<Field>) {
    exists ps :: StoredInOrder(elements, ps, fields) && forall p :: IsField(elements, p) ==> p in ps
  }

  lemma StoredAppend(elements: seq<Element>, ps: seq<Spot>, fields: seq<Field>, qs: seq<Spot>, more: seq<Field>)
    requires StoredInOrder(elements, ps, fields) && StoredInOrder(elements, qs, more)
    requires forall p, q :: p in ps && q in qs ==> Earlier(p, q)
    ensures StoredInOrder(elements, ps + qs, fields + more)
  {
    forall m, n | 0 <= m < n < |ps + qs| ensures Earlier((ps + qs)[m], (ps + qs)[n]) {
      if m < |ps| <= n {
        assert ps[m] in ps && qs[n - |ps|] in qs;
      }
    }
  }

  lemma {:induction false} MembersStored(elements: seq<Element>, e: nat, k: nat) returns (ps: seq<Spot>)
    requires e < |elements| && elements[e].OneofDecl? && k <= |elements[e].members|
    ensures StoredInOrder(elements, ps, OneofFields(elements[e].members[..k]))
    ensures forall p :: p in ps <==> IsField(elements, p) && p.element == e && p.member < k
  {
    ps := [];
    if k > 0 {
      var members := elements[e].members;
      ps := MembersStored(elements, e, k - 1);
      assert members[..k][..k - 1] == members[..k - 1];
      if members[k - 1].OneofField? {
        var m, p := members[k - 1], Spot(e, k - 1);
        StoredAppend(elements, ps, OneofFields(members[..k - 1]),
                     [p], [Field(m.name, m.typ, false, "", "", m.comment)]);
        ps := ps + [p];
      }
    }
  }

  lemma {:induction false} ElementStored(elements: seq<Element>, e: nat) returns (ps: seq<Spot>)
    requires e < |elements|
    ensures StoredInOrder(elements, ps, FieldsOf(elements[e]))
    ensures forall p :: p in ps <==> IsField(elements, p) && p.element == e
  {
    match elements[e]
    case NormalField(_, _, _, _) => ps := [Spot(e, 0)];
    case MapField(_, _, _) => ps := [Spot(e, 0)];
    case OneofDecl(members) =>
      ps := MembersStored(elements, e, |members|);
      assert members[..|members|] == members;
    case _ => ps := [];
  }

  lemma {:induction false} FieldsStored(elements: seq<Element>, n: nat) returns (ps: seq<Spot>)
    requires n <= |elements|
    ensures StoredInOrder(elements, ps, AllFields(elements[..n]))
    ensures forall p :: p in ps <==> IsField(elements, p) && p.element < n
  {
    ps := [];
    if n > 0 {
      ps := FieldsStored(elements, n - 1);
      var more := ElementStored(elements, n - 1);
      assert elements[..n][..n - 1] == elements[..n - 1];
      StoredAppend(elements, ps, AllFields(elements[..n - 1]), more, FieldsOf(elements[n - 1]));
      ps := ps + more;
    }
  }

  lemma {:induction false} FieldsDescribed(elements: seq<Element>)
    ensures FieldsAre(elements, AllFields(elements))
  {
    var ps := FieldsStored(elements, |elements|);
    assert elements[..|elements|] == elements;
  }

  function IsValue(): EnumElement -> bool {
    (v: EnumElement) => v.EnumField?
  }

  /** The values are the names of the enum's fields, in order. */
  ghost predicate ValuesAre(values: seq<EnumElement>, names: seq<string>) {
    exists vs :: Selected(values, IsValue(), vs) && NamesOf(vs, names)
  }

  predicate NamesOf(vs: seq<EnumElement>, names: seq<string>) {
    |vs| == |names| && forall i | 0 <= i < |vs| :: vs[i].EnumField? && names[i] == vs[i].name
  }

  lemma {:induction false} ValuesDescribed(values: seq<EnumElement>)
    ensures ValuesAre(values, EnumValues(values))
  {
    if values == [] {
      NothingSelected(IsValue());
      assert NamesOf([], []);
    } else {
      var n := |values| - 1;
      ValuesDescribed(values[..n]);
      NextValue(values[..n], EnumValues(values[..n]), values[n]);
      assert values == values[..n] + [values[n]];
    }
  }

  lemma {:induction false} NextValue(values: seq<EnumElement>, names: seq<string>, v: EnumElement)
    requires ValuesAre(values, names)
    ensures ValuesAre(values + [v], names + if v.EnumField? then [v.name] else [])
  {
    var vs :| Selected(values, IsValue(), vs) && NamesOf(vs, names);
    SelectNext(values, IsValue(), vs, v);
    if v.EnumField? {
      assert NamesOf(vs + [v], names + [v.name]);
    } else {
      assert vs + [] == vs && names + [] == names;
    }
  }

  /** The first package declaration has the name; without any, the name is empty. */
  ghost predicate IsPackage(elements: seq<Element>, pkg: string) {
    if exists i | 0 <= i < |elements| :: elements[i].PackageDecl?
    then exists i | 0 <= i < |elements| ::
           && elements[i].PackageDecl? && elements[i].name == pkg
           && forall j | 0 <= j < i :: !elements[j].PackageDecl?
    else pkg == ""
  }

  lemma {:induction false} PackageDescribed(elements: seq<Element>)
    ensures IsPackage(elements, PackageOf(elements))
  {
    if elements != [] && !elements[0].PackageDecl? {
      var rest := elements[1..];
      PackageDescribed(rest);
      if exists i | 0 <= i < |rest| :: rest[i].PackageDecl? {
        var i :| 0 <= i < |rest| && rest[i].PackageDecl? && rest[i].name == PackageOf(rest)
                 && forall j | 0 <= j < i :: !rest[j].PackageDecl?;
        forall j | 0 <= j < i + 1 ensures !elements[j].PackageDecl? {
          assert j > 0 ==> elements[j] == rest[j - 1];
        }
        assert elements[i + 1] == rest[i];
      } else {
        assert forall j | 0 <= j < |elements| :: !elements[j].PackageDecl? by {
          forall j | 0 <= j < |elements| ensures !elements[j].PackageDecl? {
            assert j > 0 ==> elements[j] == rest[j - 1];
          }
        }
      }
    }
  }

  // ----- Flattening loses nothing -----

  predicate IsType(e: Element) {
    e.MessageDecl? || e.EnumDecl?
  }

  /** Identifiers as names, and no two types of one name side by side, at every depth. */
  ghost predicate WellNamed(elements: seq<Element>)
    decreases elements
  {
    && (forall i | 0 <= i < |elements| && IsType(elements[i]) :: Identifier(elements[i].name))
    && (forall i, j | 0 <= i < j < |elements| && IsType(elements[i]) && IsType(elements[j]) ::
        elements[i].name != elements[j].name)
    && (forall i | 0 <= i < |elements| && elements[i].MessageDecl? :: WellNamed(elements[i].elements))
  }

  /** What a qualified name starts with before the simple name. */
  function Base(pkg: string, parent: string): string {
    if parent != "" then parent + "."
    else if pkg != "" then pkg + "."
    else ""
  }

  lemma QualifyIsBase(name: string, pkg: string, parent: string)
    ensures Qualify(name, pkg, parent) == Base(pkg, parent) + name
  {
  }

  lemma {:induction false} EntriesAt(elements: seq<Element>, pkg: string, parent: string, x: Entry)
    requires x in Entries(elements, pkg, parent)
    ensures exists i | 0 <= i < |elements| :: x in EntriesOf(elements[i], pkg, parent)
    decreases |elements|
  {
    var init, last := elements[..|elements| - 1], elements[|elements| - 1];
    if x in Entries(init, pkg, parent) {
      EntriesAt(init, pkg, parent, x);
      var i :| 0 <= i < |init| && x in EntriesOf(init[i], pkg, parent);
      assert elements[i] == init[i];
    } else {
      assert x in EntriesOf(last, pkg, parent);
    }
  }

  lemma {:induction false} EntriesHold(elements: seq<Element>, pkg: string, parent: string, i: nat, x: Entry)
    requires i < |elements| && x in EntriesOf(elements[i], pkg, parent)
    ensures x in Entries(elements, pkg, parent)
    decreases |elements|
  {
    if i < |elements| - 1 {
      EntriesHold(elements[..|elements| - 1], pkg, parent, i, x);
    }
  }

  /** Every entry of a type lies in the scope of the type's own qualified name, the nested ones strictly. */
  lemma {:induction false} EntriesInScope(e: Element, pkg: string, parent: string, x: Entry)
    requires IsType(e) && Identifier(e.name) && (e.MessageDecl? ==> WellNamed(e.elements))
    requires x in EntriesOf(e, pkg, parent)
    ensures Scope(Qualify(e.name, pkg, parent), x.fqn)
    ensures e.MessageDecl? && x in Entries(e.elements, pkg, Qualify(e.name, pkg, parent)) ==>
            x.fqn != Qualify(e.name, pkg, parent)
    decreases e
  {
    var fqn := Qualify(e.name, pkg, parent);
    if e.MessageDecl? && x in Entries(e.elements, pkg, fqn) {
      EntriesAt(e.elements, pkg, fqn, x);
      var i :| 0 <= i < |e.elements| && x in EntriesOf(e.elements[i], pkg, fqn);
      EntriesInScope(e.elements[i], pkg, fqn, x);
      ScopeTransitive(fqn, fqn + "." + e.elements[i].name, x.fqn);
    }
  }

  ghost predicate Distinct(es: seq<Entry>) {
    forall i, j | 0 <= i < j < |es| :: es[i].fqn != es[j].fqn
  }

  lemma DistinctAppend(a: seq<Entry>, b: seq<Entry>)
    requires Distinct(a) && Distinct(b)
    requires forall x, y :: x in a && y in b ==> x.fqn != y.fqn
    ensures Distinct(a + b)
  {
    forall i, j | 0 <= i < j < |a + b| ensures (a + b)[i].fqn != (a + b)[j].fqn {
      if i < |a| <= j {
        assert a[i] in a && b[j - |a|] in b;
      }
    }
  }

  /** No declaration overwrites another: all qualified names of a tree are different. */
  lemma {:induction false} EntriesDistinct(elements: seq<Element>, pkg: string, parent: string)
    requires WellNamed(elements)
    ensures Distinct(Entries(elements, pkg, parent))
    decreases elements, 0
  {
    if elements != [] {
      var init, last := elements[..|elements| - 1], elements[|elements| - 1];
      assert WellNamed(init);
      EntriesDistinct(init, pkg, parent);
      EntriesOfDistinct(last, pkg, parent);
      forall x, y | x in Entries(init, pkg, parent) && y in EntriesOf(last, pkg, parent) ensures x.fqn != y.fqn {
        EntriesAt(init, pkg, parent, x);
        var i :| 0 <= i < |init| && x in EntriesOf(init[i], pkg, parent);
        SiblingEntriesDiffer(elements, i, |elements| - 1, pkg, parent, x, y);
      }
      DistinctAppend(Entries(init, pkg, parent), EntriesOf(last, pkg, parent));
    }
  }

  lemma SiblingEntriesDiffer(elements: seq<Element>, i: nat, j: nat, pkg: string, parent: string, x: Entry, y: Entry)
    requires WellNamed(elements) && i < j < |elements|
    requires x in EntriesOf(elements[i], pkg, parent) && y in EntriesOf(elements[j], pkg, parent)
    ensures x.fqn != y.fqn
  {
    var a, b := elements[i], elements[j];
    EntriesInScope(a, pkg, parent, x);
    EntriesInScope(b, pkg, parent, y);
    QualifyIsBase(a.name, pkg, parent);
    QualifyIsBase(b.name, pkg, parent);
    if x.fqn == y.fqn {
      SiblingScopesDiffer(Base(pkg, parent), a.name, b.name, x.fqn);
    }
  }

  lemma {:induction false} EntriesOfDistinct(e: Element, pkg: string, parent: string)
    requires IsType(e) ==> Identifier(e.name)
    requires e.MessageDecl? ==> WellNamed(e.elements)
    ensures Distinct(EntriesOf(e, pkg, parent))
    decreases e, 1
  {
    if e.MessageDecl? {
      var fqn := Qualify(e.name, pkg, parent);
      var own, nested := [MessageEntry(fqn, MessageOf(e, pkg, fqn))], Entries(e.elements, pkg, fqn);
      EntriesDistinct(e.elements, pkg, fqn);
      forall x, y | x in own && y in nested ensures x.fqn != y.fqn {
        assert y in EntriesOf(e, pkg, parent);
        EntriesInScope(e, pkg, parent, y);
      }
      DistinctAppend(own, nested);
    }
  }

  /** Entries of one name are the same entry, so that the order of writing does not show. */
  ghost predicate Consistent(es: seq<Entry>) {
    forall x, y :: x in es && y in es && x.fqn == y.fqn ==> x == y
  }

  /** The registry holds each of the entries, and nothing else. */
  ghost predicate Holds(reg: Registry, es: seq<Entry>) {
    && (forall k :: k in reg.messages ==> MessageEntry(k, reg.messages[k]) in es)
    && (forall k :: k in reg.enums ==> EnumEntry(k, reg.enums[k]) in es)
    && (forall x :: x in es ==> match x
                                case MessageEntry(fqn, msg) => fqn in reg.messages && reg.messages[fqn] == msg
                                case EnumEntry(fqn, enum) => fqn in reg.enums && reg.enums[fqn] == enum)
  }

  lemma {:induction false} PutAllHolds(es: seq<Entry>)
    requires Consistent(es)
    ensures Holds(PutAll(Registry(map[], map[]), es), es)
  {
    if es != [] {
      var init, last := es[..|es| - 1], es[|es| - 1];
      assert es == init + [last];
      PutAllHolds(init);
      assert Holds(Put(PutAll(Registry(map[], map[]), init), last), es);
    }
  }

  /** How many messages, or else enums, a declaration tree has. */
  function Declarations(elements: seq<Element>, messages: bool): nat
    decreases elements
  {
    if elements == [] then 0
    else
      var e := elements[|elements| - 1];
      Declarations(elements[..|elements| - 1], messages) +
      match e
      case MessageDecl(_, _, nested) => Declarations(nested, messages) + if messages then 1 else 0
      case EnumDecl(_, _) => if messages then 0 else 1
      case _ => 0
  }

  lemma {:induction false} CountAppend(a: seq<Entry>, b: seq<Entry>, messages: bool)
    ensures Count(a + b, messages) == Count(a, messages) + Count(b, messages)
  {
    if b == [] {
      assert a + b == a;
    } else {
      assert (a + b)[..|a + b| - 1] == a + b[..|b| - 1];
      CountAppend(a, b[..|b| - 1], messages);
    }
  }

  lemma {:induction false} CountIsDeclarations(elements: seq<Element>, pkg: string, parent: string, messages: bool)
    ensures Count(Entries(elements, pkg, parent), messages) == Declarations(elements, messages)
    decreases elements
  {
    if elements != [] {
      var init, e := elements[..|elements| - 1], elements[|elements| - 1];
      CountIsDeclarations(init, pkg, parent, messages);
      CountAppend(Entries(init, pkg, parent), EntriesOf(e, pkg, parent), messages);
      if e.MessageDecl? {
        var fqn := Qualify(e.name, pkg, parent);
        CountIsDeclarations(e.elements, pkg, fqn, messages);
        var own := [MessageEntry(fqn, MessageOf(e, pkg, fqn))];
        CountAppend(own, Entries(e.elements, pkg, fqn), messages);
        assert Count(own, messages) == if messages then 1 else 0;
      }
    }
  }

  function Count(es: seq<Entry>, messages: bool): nat {
    if es == [] then 0
    else Count(es[..|es| - 1], messages) + if es[|es| - 1].MessageEntry? == messages then 1 else 0
  }

  lemma {:induction false} PutAllCounts(es: seq<Entry>)
    requires Distinct(es)
    ensures var reg := PutAll(Registry(map[], map[]), es);
            |reg.messages| == Count(es, true) && |reg.enums| == Count(es, false)
  {
    if es != [] {
      var init, last := es[..|es| - 1], es[|es| - 1];
      PutAllCounts(init);
      DistinctIsConsistent(init);
      PutAllHolds(init);
      var before := PutAll(Registry(map[], map[]), init);
      assert last.fqn !in before.messages && last.fqn !in before.enums;
    }
  }

  lemma DistinctIsConsistent(es: seq<Entry>)
    requires Distinct(es)
    ensures Consistent(es)
  {
  }

  /** The declaration `e` is reached from `elements` through nested messages with the given names. */
  ghost predicate DeclaredAt(elements: seq<Element>, path: seq<string>, e: Element)
    decreases path
  {
    && path != []
    && exists i | 0 <= i < |elements| ::
         && IsType(elements[i]) && elements[i].name == path[0]
         && if |path| == 1 then e == elements[i]
            else elements[i].MessageDecl? && DeclaredAt(elements[i].elements, path[1..], e)
  }

  /** The entry that a declaration gives rise to under a given name. */
  function EntryOf(e: Element, pkg: string, fqn: string): Entry
    requires IsType(e)
  {
    if e.MessageDecl? then MessageEntry(fqn, MessageOf(e, pkg, fqn))
    else EnumEntry(fqn, Enum(fqn, EnumValues(e.values)))
  }

  lemma {:induction false} DeclaredIsType(elements: seq<Element>, path: seq<string>, e: Element)
    requires DeclaredAt(elements, path, e)
    ensures IsType(e)
    decreases |path|
  {
    if |path| > 1 {
      var i :| 0 <= i < |elements| && elements[i].MessageDecl? && DeclaredAt(elements[i].elements, path[1..], e);
      DeclaredIsType(elements[i].elements, path[1..], e);
    }
  }

  lemma {:induction false} DeclaredIsEntered(elements: seq<Element>, path: seq<string>, e: Element, pkg: string,
                                             parent: string)
    requires WellNamed(elements) && DeclaredAt(elements, path, e) && IsType(e)
    ensures EntryOf(e, pkg, Base(pkg, parent) + Join(path)) in Entries(elements, pkg, parent)
    decreases |path|
  {
    var i :| 0 <= i < |elements| && IsType(elements[i]) && elements[i].name == path[0] &&
      if |path| == 1 then e == elements[i]
      else elements[i].MessageDecl? && DeclaredAt(elements[i].elements, path[1..], e);
    var fqn := Qualify(path[0], pkg, parent);
    PathName(path, pkg, parent);
    var x := EntryOf(e, pkg, Base(pkg, parent) + Join(path));
    if |path| > 1 {
      DeclaredIsEntered(elements[i].elements, path[1..], e, pkg, fqn);
      NestedEntry(elements[i], pkg, parent, x);
    } else {
      OwnEntry(e, pkg, parent);
    }
    EntriesHold(elements, pkg, parent, i, x);
  }

  lemma {:induction false} PathName(path: seq<string>, pkg: string, parent: string)
    requires path != [] && path[0] != ""
    ensures |path| == 1 ==> Base(pkg, parent) + Join(path) == Qualify(path[0], pkg, parent)
    ensures |path| > 1 ==> Base(pkg, parent) + Join(path) == Base(pkg, Qualify(path[0], pkg, parent)) + Join(path[1..])
  {
    var base, fqn := Base(pkg, parent), Qualify(path[0], pkg, parent);
    QualifyIsBase(path[0], pkg, parent);
    assert fqn != "";
    if |path| > 1 {
      assert base + (path[0] + "." + Join(path[1..])) == base + path[0] + "." + Join(path[1..]);
    }
  }

  lemma OwnEntry(e: Element, pkg: string, parent: string)
    requires IsType(e)
    ensures EntryOf(e, pkg, Qualify(e.name, pkg, parent)) in EntriesOf(e, pkg, parent)
  {
  }

  lemma NestedEntry(e: Element, pkg: string, parent: string, x: Entry)
    requires e.MessageDecl? && x in Entries(e.elements, pkg, Qualify(e.name, pkg, parent))
    ensures x in EntriesOf(e, pkg, parent)
  {
  }

  /** The stored full name of every entry is its key, and its package is the file's. */
  lemma {:induction false} EntriesSelfNamed(elements: seq<Element>, pkg: string, parent: string, x: Entry)
    requires x in Entries(elements, pkg, parent)
    ensures x.MessageEntry? ==> x.msg.fullName == x.fqn && x.msg.pkg == pkg
    ensures x.EnumEntry? ==> x.enum.fullName == x.fqn
    decreases elements, 0
  {
    EntriesAt(elements, pkg, parent, x);
    var i :| 0 <= i < |elements| && x in EntriesOf(elements[i], pkg, parent);
    if elements[i].MessageDecl? {
      var fqn := Qualify(elements[i].name, pkg, parent);
      if x in Entries(elements[i].elements, pkg, fqn) {
        EntriesSelfNamed(elements[i].elements, pkg, fqn, x);
      }
    }
  }

  /** A stored message is the declaration: its names, comment and fields. */
  ghost predicate StoredMessage(e: Element, pkg: string, fqn: string, m: Message)
    requires e.MessageDecl?
  {
    && m.fullName == fqn && m.name == e.name && m.pkg == pkg && m.comment == e.comment
    && FieldsAre(e.elements, m.fields)
  }

  ghost predicate StoredEnum(e: Element, fqn: string, enum: Enum)
    requires e.EnumDecl?
  {
    enum.fullName == fqn && ValuesAre(e.values, enum.values)
  }

  /** The key of the declaration that a path of names leads to. */
  function DottedPath(pkg: string, path: seq<string>): string {
    if pkg != "" then pkg + "." + Join(path) else Join(path)
  }

  /** Every declaration is stored under its dotted path, and nothing else is stored. */
  ghost predicate Lossless(file: seq<Element>, reg: Registry) {
    exists pkg :: IsPackage(file, pkg) && LosslessIn(file, pkg, reg)
  }

  ghost predicate LosslessIn(file: seq<Element>, pkg: string, reg: Registry) {
    && |reg.messages| == Declarations(file, true) && |reg.enums| == Declarations(file, false)
    && (forall k :: k in reg.messages ==> reg.messages[k].fullName == k && reg.messages[k].pkg == pkg)
    && (forall k :: k in reg.enums ==> reg.enums[k].fullName == k)
    && (forall path, e :: DeclaredAt(file, path, e) ==> StoredAt(e, pkg, DottedPath(pkg, path), reg))
  }

  ghost predicate StoredAt(e: Element, pkg: string, fqn: string, reg: Registry) {
    && (e.MessageDecl? ==> fqn in reg.messages && StoredMessage(e, pkg, fqn, reg.messages[fqn]))
    && (e.EnumDecl? ==> fqn in reg.enums && StoredEnum(e, fqn, reg.enums[fqn]))
  }

  /**
   * Flattening is lossless: for a tree of any depth, each declaration is stored, with its names, comment
   * and fields or values, under the dotted path that leads to it from the first package declaration;
   * every stored name equals its key, no two declarations share a key, and there are as many entries as
   * declarations.
   */
  lemma {:induction false} FlatteningIsLossless(file: seq<Element>)
    requires WellNamed(file)
    ensures Distinct(FileEntries(file))
    ensures Lossless(file, PutAll(Registry(map[], map[]), FileEntries(file)))
  {
    var pkg, es := PackageOf(file), FileEntries(file);
    var reg := PutAll(Registry(map[], map[]), es);
    EntriesDistinct(file, pkg, "");
    PutAllCounts(es);
    CountIsDeclarations(file, pkg, "", true);
    CountIsDeclarations(file, pkg, "", false);
    DistinctIsConsistent(es);
    PutAllHolds(es);
    KeysAreNames(file, pkg, reg);
    forall path, e | DeclaredAt(file, path, e) ensures StoredAt(e, pkg, DottedPath(pkg, path), reg) {
      DeclaredIsType(file, path, e);
      DeclaredIsEntered(file, path, e, pkg, "");
      assert Base(pkg, "") + Join(path) == DottedPath(pkg, path);
      EntryStored(e, pkg, DottedPath(pkg, path), es, reg);
    }
    PackageDescribed(file);
    assert LosslessIn(file, pkg, reg);
  }

  lemma {:induction false} KeysAreNames(file: seq<Element>, pkg: string, reg: Registry)
    requires Holds(reg, Entries(file, pkg, ""))
    ensures forall k :: k in reg.messages ==> reg.messages[k].fullName == k && reg.messages[k].pkg == pkg
    ensures forall k :: k in reg.enums ==> reg.enums[k].fullName == k
  {
    forall k | k in reg.messages ensures reg.messages[k].fullName == k && reg.messages[k].pkg == pkg {
      EntriesSelfNamed(file, pkg, "", MessageEntry(k, reg.messages[k]));
    }
    forall k | k in reg.enums ensures reg.enums[k].fullName == k {
      EntriesSelfNamed(file, pkg, "", EnumEntry(k, reg.enums[k]));
    }
  }

  lemma {:induction false} EntryStored(e: Element, pkg: string, fqn: string, es: seq<Entry>, reg: Registry)
    requires IsType(e) && EntryOf(e, pkg, fqn) in es
    requires Holds(reg, es)
    ensures StoredAt(e, pkg, fqn, reg)
  {
    if e.MessageDecl? {
      FieldsDescribed(e.elements);
    } else {
      ValuesDescribed(e.values);
    }
  }

  // ----- Several files -----

  function AllEntries(files: seq<seq<Element>>): seq<Entry> {
    if files == [] then [] else AllEntries(files[..|files| - 1]) + FileEntries(files[|files| - 1])
  }

  function ParseAll(files: seq<seq<Element>>): Registry {
    PutAll(Registry(map[], map[]), AllEntries(files))
  }

  lemma {:induction false} AllEntriesAt(files: seq<seq<Element>>, x: Entry)
    ensures x in AllEntries(files) <==> exists f :: f in files && x in FileEntries(f)
  {
    if files != [] {
      var init, last := files[..|files| - 1], files[|files| - 1];
      assert files == init + [last];
      AllEntriesAt(init, x);
    }
  }

  /** No qualified name is declared in two places of the file list. */
  ghost predicate DisjointFiles(files: seq<seq<Element>>) {
    forall i, j, x, y | 0 <= i < j < |files| && x in FileEntries(files[i]) && y in FileEntries(files[j]) ::
      x.fqn != y.fqn
  }

  lemma DisjointFilesAreConsistent(files: seq<seq<Element>>)
    requires DisjointFiles(files) && forall f :: f in files ==> WellNamed(f)
    ensures Consistent(AllEntries(files))
  {
    forall x, y | x in AllEntries(files) && y in AllEntries(files) && x.fqn == y.fqn ensures x == y {
      AllEntriesAt(files, x);
      AllEntriesAt(files, y);
      var f :| f in files && x in FileEntries(f);
      var g :| g in files && y in FileEntries(g);
      var i :| 0 <= i < |files| && files[i] == f;
      var j :| 0 <= j < |files| && files[j] == g;
      if i == j {
        EntriesDistinct(f, PackageOf(f), "");
        DistinctIsConsistent(FileEntries(f));
      }
    }
  }

  /** Files with disjoint qualified names may be collected in any order. */
  lemma {:induction false} FileOrderIrrelevant(a: seq<seq<Element>>, b: seq<seq<Element>>)
    requires multiset(a) == multiset(b)
    requires DisjointFiles(a) && forall f :: f in a ==> WellNamed(f)
    ensures ParseAll(a) == ParseAll(b)
  {
    DisjointFilesAreConsistent(a);
    SameEntries(a, b);
    assert Consistent(AllEntries(b));
    SameRegistry(AllEntries(a), AllEntries(b));
  }

  lemma SameRegistry(a: seq<Entry>, b: seq<Entry>)
    requires Consistent(a) && Consistent(b) && forall x :: x in a <==> x in b
    ensures PutAll(Registry(map[], map[]), a) == PutAll(Registry(map[], map[]), b)
  {
    var p, q := PutAll(Registry(map[], map[]), a), PutAll(Registry(map[], map[]), b);
    PutAllHolds(a);
    PutAllHolds(b);
    MoreEntries(p, q, a, b);
    MoreEntries(q, p, b, a);
    SameBothWays(p, q);
  }

  ghost predicate Included(p: Registry, q: Registry) {
    && (forall k :: k in p.messages ==> k in q.messages && q.messages[k] == p.messages[k])
    && (forall k :: k in p.enums ==> k in q.enums && q.enums[k] == p.enums[k])
  }

  lemma SameBothWays(p: Registry, q: Registry)
    requires Included(p, q) && Included(q, p)
    ensures p == q
  {
    assert p.messages == q.messages && p.enums == q.enums;
  }

  lemma MoreEntries(p: Registry, q: Registry, a: seq<Entry>, b: seq<Entry>)
    requires Holds(p, a) && Holds(q, b) && forall x :: x in a ==> x in b
    ensures Included(p, q)
  {
    forall k | k in p.messages ensures k in q.messages && q.messages[k] == p.messages[k] {
      assert MessageEntry(k, p.messages[k]) in b;
    }
    forall k | k in p.enums ensures k in q.enums && q.enums[k] == p.enums[k] {
      assert EnumEntry(k, p.enums[k]) in b;
    }
  }

  lemma SameEntries(a: seq<seq<Element>>, b: seq<seq<Element>>)
    requires multiset(a) == multiset(b)
    ensures forall x :: x in AllEntries(a) <==> x in AllEntries(b)
  {
    forall f ensures f in a <==> f in b {
      assert f in multiset(a) <==> f in multiset(b);
    }
    forall x ensures x in AllEntries(a) <==> x in AllEntries(b) {
      AllEntriesAt(a, x);
      AllEntriesAt(b, x);
    }
  }

  /** Every registered message has the names that make the package walk of name resolution redundant. */
  lemma {:induction false} RegisteredNames(files: seq<seq<Element>>, key: string)
    requires DisjointFiles(files) && forall f :: f in files ==> WellNamed(f)
    requires forall f :: f in files ==> PackageOf(f) == "" || PackageOf(f)[0] != '.'
    requires key in ParseAll(files).messages
    ensures var m := ParseAll(files).messages[key];
            m.fullName == key && Resolve.ParserNames(key, m.pkg, ParseAll(files))
  {
    var reg := ParseAll(files);
    DisjointFilesAreConsistent(files);
    PutAllHolds(AllEntries(files));
    forall name | InRegistry(name, reg) ensures name != "" && name[0] != '.' {
      var x := if name in reg.messages then MessageEntry(name, reg.messages[name])
               else EnumEntry(name, reg.enums[name]);
      AllEntriesAt(files, x);
      var f :| f in files && x in FileEntries(f);
      FileNames(f, x);
    }
    var x := MessageEntry(key, reg.messages[key]);
    AllEntriesAt(files, x);
    var f :| f in files && x in FileEntries(f);
    FileNames(f, x);
    EntriesSelfNamed(f, PackageOf(f), "", x);
  }

  /** In a parsed registry a field's type name resolves innermost-first unless a bare name hides an inner one. */
  lemma {:induction false} ParsedNamesResolve(files: seq<seq<Element>>, key: string, typeName: string)
    requires DisjointFiles(files) && forall f :: f in files ==> WellNamed(f)
    requires forall f :: f in files ==> PackageOf(f) == "" || PackageOf(f)[0] != '.'
    requires key in ParseAll(files).messages
    ensures var reg, m := ParseAll(files), ParseAll(files).messages[key];
            Resolve.InnermostFirst(Resolve.ResolveFQN(typeName, m.pkg, m.fullName, reg), typeName, key, reg)
            <==> !InRegistry(typeName, reg) || Resolve.NoCandidate(typeName, key, reg)
  {
    RegisteredNames(files, key);
    var reg := ParseAll(files);
    Resolve.ResolveIsInnermostFirst(typeName, reg.messages[key].pkg, key, reg);
  }

  lemma FileNames(file: seq<Element>, x: Entry)
    requires WellNamed(file) && x in FileEntries(file)
    requires PackageOf(file) == "" || PackageOf(file)[0] != '.'
    ensures x.fqn != "" && x.fqn[0] != '.'
    ensures PackageOf(file) == "" || Scope(PackageOf(file), x.fqn)
  {
    var pkg := PackageOf(file);
    EntriesAt(file, pkg, "", x);
    var i :| 0 <= i < |file| && x in EntriesOf(file[i], pkg, "");
    EntriesInScope(file[i], pkg, "", x);
    var fqn := Qualify(file[i].name, pkg, "");
    assert fqn != "" && x.fqn[0] == fqn[0];
    if pkg != "" {
      ScopeTransitive(pkg, fqn, x.fqn);
    }
  }
}
