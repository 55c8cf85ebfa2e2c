/**
 * The compiler as it runs: schema nodes on the heap, one shared table of well-known nodes that
 * field comments are written through, and visited maps that are cloned and marked in place.
 */
module SchemaHeap {
  import opened Options
  import opened Proto
  import opened Resolve
  import opened JsonSchema
  import opened Compiler
  import opened Expansion
  import opened Comments

  /** JSONSchemaProps without Description; sub-schemas are pointers, properties are held by value. */
  datatype Core = Core(
    typ: string, format: string, properties: map<string, Copy>, additional: Node?, items: Node?,
    enums: seq<string>, preserve: bool)

  /** A JSONSchemaProps held by value: what `*fs` copies. */
  datatype Copy = Copy(description: string, core: Core)

  class Node {
    var description: string
    var core: Core

    constructor (core: Core, description: string)
      ensures this.core == core && this.description == description
    {
      this.core := core;
      this.description := description;
    }

    ghost function Value(): Copy
      reads `description, `core
    {
      Copy(description, core)
    }
  }

  function PlainCore(typ: string, format: string): Core {
    Core(typ, format, map[], null, null, [], false)
  }

  /**
   * The node value `c`, with everything it points to, is `d`: Descriptions included, and pointers to
   * table entries are pointers to the very nodes of the table. Other pointers are into `own`, or
   * below an entry.
   */
  ghost predicate Shows(c: Copy, d: Doc, own: set<Node>, table: WellKnowns)
    reads own`description, own`core, table.inner`description, table.inner`core
    decreases d
  {
    && d.Own? && c.description == d.text
    && c.core.typ == d.typ && c.core.format == d.format && c.core.enums == d.enums && c.core.preserve == d.preserve
    && PointsTo(c.core.items, d.items, own, table)
    && PointsTo(c.core.additional, d.additional, own, table)
    && c.core.properties.Keys == d.properties.Keys
    && forall k | k in d.properties :: Shows(c.core.properties[k], d.properties[k], own, table)
  }

  ghost predicate PointsTo(p: Node?, d: Option<Doc>, own: set<Node>, table: WellKnowns)
    reads own`description, own`core, table.inner`description, table.inner`core
    decreases d
  {
    match d
    case None => p == null
    case Some(Shared(name)) => p != null && name in table.entries && p == table.entries[name]
    case Some(target) => p != null && (p in own || p in table.inner) && Shows(p.Value(), target, own, table)
  }

  /** A node that a method returns: one of the table, or one with `own` below it. */
  ghost predicate Heads(s: Node, d: Doc, own: set<Node>, table: WellKnowns)
    reads s`description, s`core, own`description, own`core, table.inner`description, table.inner`core
  {
    match d
    case Shared(name) => name in table.entries && s == table.entries[name]
    case Own(_, _, _, _, _, _, _, _) => s !in own && Shows(s.Value(), d, own, table)
  }

  /** What a pointer to the node may reach. */
  ghost function Reach(s: Node, d: Doc, own: set<Node>): set<Node> {
    if d.Own? then own + {s} else own
  }

  lemma {:induction false} Widen(c: Copy, d: Doc, a: set<Node>, b: set<Node>, table: WellKnowns)
    requires a <= b && Shows(c, d, a, table)
    ensures Shows(c, d, b, table)
    decreases d
  {
    WidenPointer(c.core.items, d.items, a, b, table);
    WidenPointer(c.core.additional, d.additional, a, b, table);
    forall k | k in d.properties ensures Shows(c.core.properties[k], d.properties[k], b, table) {
      Widen(c.core.properties[k], d.properties[k], a, b, table);
    }
  }

  lemma {:induction false} WidenPointer(p: Node?, d: Option<Doc>, a: set<Node>, b: set<Node>, table: WellKnowns)
    requires a <= b && PointsTo(p, d, a, table)
    ensures PointsTo(p, d, b, table)
    decreases d
  {
    if d.Some? && d.value.Own? {
      Widen(p.Value(), d.value, a, b, table);
    }
  }

  lemma PointAt(s: Node, d: Doc, own: set<Node>, table: WellKnowns)
    requires Heads(s, d, own, table)
    ensures PointsTo(s, Some(d), Reach(s, d, own), table)
  {
    if d.Own? {
      Widen(s.Value(), d, own, own + {s}, table);
    }
  }

  /** The names set in a `map[string]bool` whose values are all true. */
  class Visited {
    var marked: set<string>

    constructor (marked: set<string>)
      ensures this.marked == marked
    {
      this.marked := marked;
    }
  }

  method CloneVisited(v: Visited) returns (c: Visited)
    ensures fresh(c) && c.marked == v.marked
  {
    c := new Visited({});
    var rest := v.marked;
    while rest != {}
      invariant rest <= v.marked && c.marked == v.marked - rest && v.marked == old(v.marked)
      decreases |rest|
    {
      var k :| k in rest;
      c.marked := c.marked + {k};
      rest := rest - {k};
    }
  }

  /** The `wellKnownSchemas` table, which nothing adds to: `shared` are its nodes, `inner` those they point to. */
  class WellKnowns {
    const entries: map<string, Node>
    ghost const shared: set<Node>
    ghost const inner: set<Node>
    ghost const cores: map<string, Core>
    /** The Descriptions that the entries have now. */
    ghost var texts: Texts

    /** The entries are those of the well-known types, each still with its schema. */
    ghost predicate Valid()
      reads `texts, shared`description, shared`core, inner`description, inner`core
    {
      && (forall t {:trigger WellKnownSchema(t)} :: t in entries <==> WellKnownSchema(t).Some?)
      && Separate(entries, shared, inner) && Schemas(entries, cores, inner)
      && Described(entries, shared, cores, texts) && Items(inner)
    }

    constructor ()
      ensures Valid() && Blank(texts) && fresh(shared) && fresh(inner)
    {
      var es, nodes, below, values, blank := BuildTable();
      entries, shared, inner, cores, texts := es, nodes, below, values, blank;
    }
  }

  /** The composite literal that the table is initialised with. */
  method BuildTable() returns (es: map<string, Node>, ghost shared: set<Node>, ghost inner: set<Node>,
                               ghost cores: map<string, Core>, ghost texts: Texts)
    ensures forall t {:trigger WellKnownSchema(t)} :: t in es <==> WellKnownSchema(t).Some?
    ensures Separate(es, shared, inner) && Schemas(es, cores, inner) && Items(inner)
    ensures Described(es, shared, cores, texts) && Blank(texts)
    ensures fresh(shared) && fresh(inner)
  {
    es, shared, inner, cores, texts := map[], {}, {}, map[], map[];
    for i := 0 to |GOOGLE_NAMES|
      invariant TableOf(GOOGLE_NAMES[..i], es, shared, inner, cores, texts)
      invariant fresh(shared) && fresh(inner)
    {
      es, shared, inner, cores := AddEntry(GOOGLE_NAMES[i], es, shared, inner, cores, texts);
      texts := texts[GOOGLE + GOOGLE_NAMES[i] := ""];
      OneMoreName(i);
    }
    assert GOOGLE_NAMES[..|GOOGLE_NAMES|] == GOOGLE_NAMES;
    ExactlyTheWellKnown();
  }

  /** A table of the entries for some names, without Descriptions. */
  ghost predicate TableOf(names: seq<string>, es: map<string, Node>, shared: set<Node>, inner: set<Node>,
                          cores: map<string, Core>, texts: Texts)
    reads shared`description, shared`core, inner`description, inner`core
  {
    && es.Keys == Qualified(names) && Separate(es, shared, inner) && Schemas(es, cores, inner) && Items(inner)
    && Described(es, shared, cores, texts) && Blank(texts)
  }

  /** The entries are different nodes, and none is reached from another. */
  ghost predicate Separate(entries: map<string, Node>, shared: set<Node>, inner: set<Node>) {
    && shared !! inner && (forall t | t in entries :: entries[t] in shared)
    && (forall s, t | s in entries && t in entries && entries[s] == entries[t] :: s == t)
  }

  /** A node value with the schema of a table entry; its items, if it has any, are a node of the table. */
  ghost predicate IsEntry(core: Core, s: Schema, inner: set<Node>) {
    && core == PlainCore(s.typ, s.format).(items := core.items, preserve := s.preserve)
    && (core.items != null <==> s.items.Some?)
    && (core.items != null ==> core.items in inner)
  }

  const ITEM := PlainCore("", "").(preserve := true)

  ghost predicate Schemas(entries: map<string, Node>, cores: map<string, Core>, inner: set<Node>) {
    cores.Keys == entries.Keys && forall t {:trigger Known(t)} | t in cores :: IsEntry(cores[t], Known(t), inner)
  }

  ghost predicate Described(entries: map<string, Node>, shared: set<Node>, cores: map<string, Core>, texts: Texts)
    reads shared`description, shared`core
  {
    && texts.Keys == entries.Keys == cores.Keys
    && forall t | t in entries ::
         entries[t] in shared && entries[t].description == texts[t] && entries[t].core == cores[t]
  }

  ghost predicate Items(inner: set<Node>)
    reads inner`description, inner`core
  {
    forall n | n in inner :: n.description == "" && n.core == ITEM
  }

  /** An entry shows the schema of its name. */
  lemma EntryShows(text: string, name: string, own: set<Node>, table: WellKnowns)
    requires table.Valid() && name in table.entries
    ensures Shows(Copy(text, table.entries[name].core), EntryDoc(name, text), own, table)
  {
    var core := table.entries[name].core;
    assert IsEntry(core, Known(name), table.inner);
    if GOOGLE <= name {
      GoogleFields(name[|GOOGLE|..]);
    }
    if core.items != null {
      assert Shows(core.items.Value(), Lift(FreeForm("")), own, table);
    }
  }

  method AddEntry(name: string, es: map<string, Node>, ghost shared: set<Node>, ghost inner: set<Node>,
                  ghost cores: map<string, Core>, ghost texts: Texts)
    returns (more: map<string, Node>, ghost nodes: set<Node>, ghost below: set<Node>, ghost values: map<string, Core>)
    requires Separate(es, shared, inner) && Schemas(es, cores, inner) && Items(inner)
    requires Described(es, shared, cores, texts) && name in GOOGLE_NAMES
    ensures Separate(more, nodes, below) && Schemas(more, values, below) && Items(below)
    ensures Described(more, nodes, values, texts[GOOGLE + name := ""])
    ensures fresh(nodes - shared) && fresh(below - inner)
    ensures more.Keys == es.Keys + {GOOGLE + name}
  {
    var fqn := GOOGLE + name;
    assert fqn[|GOOGLE|..] == name;
    var node, item := EntryNode(name);
    more, nodes, below, values := es[fqn := node], shared + {node}, inner + item, cores[fqn := node.core];
  }

  const GOOGLE_NAMES: seq<string> := [
    "Any", "Struct", "Value", "Duration", "Timestamp", "Empty", "StringValue", "BoolValue", "Int32Value",
    "UInt32Value", "Int64Value", "UInt64Value", "FloatValue", "DoubleValue", "BytesValue", "ListValue"]

  lemma AllNamesListed(t: string)
    ensures GoogleSchema(t).Some? <==> t in GOOGLE_NAMES
  {
  }

  function Qualified(names: seq<string>): set<string> {
    set name | name in names :: GOOGLE + name
  }

  lemma OneMoreName(i: nat)
    requires i < |GOOGLE_NAMES|
    ensures Qualified(GOOGLE_NAMES[..i + 1]) == Qualified(GOOGLE_NAMES[..i]) + {GOOGLE + GOOGLE_NAMES[i]}
  {
    assert GOOGLE_NAMES[..i + 1] == GOOGLE_NAMES[..i] + [GOOGLE_NAMES[i]];
  }

  lemma ExactlyTheWellKnown()
    ensures forall t {:trigger WellKnownSchema(t)} :: t in Qualified(GOOGLE_NAMES) <==> WellKnownSchema(t).Some?
  {
    forall t ensures t in Qualified(GOOGLE_NAMES) <==> WellKnownSchema(t).Some? {
      AllQualified(t);
    }
  }

  lemma AllQualified(t: string)
    ensures t in Qualified(GOOGLE_NAMES) <==> WellKnownSchema(t).Some?
  {
    if GOOGLE <= t {
      AllNamesListed(t[|GOOGLE|..]);
      assert t == GOOGLE + t[|GOOGLE|..];
    }
    forall name | name in GOOGLE_NAMES && t == GOOGLE + name ensures WellKnownSchema(t).Some? {
      AllNamesListed(name);
      assert t[|GOOGLE|..] == name;
    }
  }

  /** One entry of the table, with the node its items point to if it has items. */
  method EntryNode(t: string) returns (node: Node, ghost below: set<Node>)
    requires t in GOOGLE_NAMES
    ensures fresh(node) && fresh(below) && node !in below && node.description == ""
    ensures GoogleSchema(t).Some? && IsEntry(node.core, GoogleSchema(t).value, below)
    ensures forall n <- below :: n.description == "" && n.core == ITEM
  {
    AllNamesListed(t);
    GoogleFields(t);
    var s := GoogleSchema(t).value;
    var core := PlainCore(s.typ, s.format).(preserve := s.preserve);
    below := {};
    if s.items.Some? {
      var item := new Node(ITEM, "");
      core := core.(items := item);
      below := {item};
    }
    node := new Node(core, "");
  }

  method FreeFormNode(ghost table: WellKnowns) returns (s: Node)
    ensures fresh(s) && Heads(s, Lift(FreeForm("object")), {}, table)
  {
    s := new Node(PlainCore("object", "").(preserve := true), "");
  }

  method EnumNode(enum: Enum, ghost table: WellKnowns) returns (s: Node)
    ensures fresh(s) && Heads(s, Lift(EnumSchema(enum.values)), {}, table)
    ensures |s.core.enums| == |enum.values|
    ensures forall i | 0 <= i < |enum.values| :: s.core.enums[i] == "\"" + enum.values[i] + "\""
  {
    s := new Node(PlainCore("string", ""), "");
    for i := 0 to |enum.values|
      invariant s.core == PlainCore("string", "").(enums := QuotedAll(enum.values[..i])) && s.description == ""
    {
      assert enum.values[..i + 1][..i] == enum.values[..i];
      s.core := s.core.(enums := s.core.enums + [Quoted(enum.values[i])]);
    }
    assert enum.values[..|enum.values|] == enum.values;
  }

  /** An array schema around a node. */
  method ArrayOfNode(element: Node, ghost d: Doc, ghost own: set<Node>, ghost table: WellKnowns)
    returns (s: Node, ghost all: set<Node>)
    requires Heads(element, d, own, table)
    ensures fresh(s) && all == Reach(element, d, own) && Heads(s, ArrayDoc(d), all, table)
  {
    PointAt(element, d, own, table);
    s := new Node(PlainCore("array", "").(items := element), "");
    all := Reach(element, d, own);
  }

  /** An object schema whose values are the node. */
  method MapOfNode(value: Node, ghost d: Doc, ghost own: set<Node>, ghost table: WellKnowns)
    returns (s: Node, ghost all: set<Node>)
    requires Heads(value, d, own, table)
    ensures fresh(s) && all == Reach(value, d, own) && Heads(s, MapDoc(d), all, table)
  {
    PointAt(value, d, own, table);
    s := new Node(PlainCore("object", "").(additional := value), "");
    all := Reach(value, d, own);
  }

  lemma Deeper(path: seq<string>, fqn: string, reg: Registry)
    requires Chain(path, reg) && fqn in reg.messages && fqn !in Marked(path)
    ensures Chain(path + [fqn], reg) && Marked(path + [fqn]) == Marked(path) + {fqn}
    ensures |Unexpanded(reg, Marked(path + [fqn]))| < |Unexpanded(reg, Marked(path))|
  {
    ExtendChain(path, fqn, reg);
    ExpansionShrinks(reg, Marked(path), fqn);
  }

  /** Marking a message and expanding it. */
  method ExpandedNode(fqn: string, reg: Registry, visited: Visited, table: WellKnowns, ghost path: seq<string>)
    returns (s: Node, ghost own: set<Node>)
    requires table.Valid()
    requires Chain(path, reg) && visited.marked == Marked(path)
    requires fqn in reg.messages && fqn !in visited.marked
    modifies visited, table`texts, table.shared`description
    ensures table.Valid()
    ensures fresh(s) && fresh(own)
    ensures Heads(s, MsgDoc(reg.messages[fqn], reg, Marked(path) + {fqn}, old(table.texts)), own, table)
    ensures table.texts == Written(old(table.texts), MsgWrites(reg.messages[fqn], reg, Marked(path) + {fqn}))
    ensures visited.marked == old(visited.marked) + {fqn}
    decreases |Unexpanded(reg, Marked(path))|, 0
  {
    Deeper(path, fqn, reg);
    visited.marked := visited.marked + {fqn};
    s, own := MsgSchemaNode(reg.messages[fqn], reg, visited, table, path + [fqn]);
  }

  /** The part of `resolveMessageOrEnum` after the well-known types. */
  method NamedNode(fqn: string, reg: Registry, visited: Visited, table: WellKnowns, ghost path: seq<string>)
    returns (s: Node, ghost own: set<Node>)
    requires table.Valid()
    requires Chain(path, reg) && visited.marked == Marked(path)
    modifies visited, table`texts, table.shared`description
    ensures table.Valid()
    ensures fresh(s) && fresh(own)
    ensures Heads(s, NamedDoc(fqn, reg, Marked(path), old(table.texts)), own, table)
    ensures table.texts == Written(old(table.texts), NamedWrites(fqn, reg, Marked(path)))
    ensures visited.marked == old(visited.marked) + if fqn in reg.messages then {fqn} else {}
    decreases |Unexpanded(reg, Marked(path))|, 1
  {
    own := {};
    if fqn in visited.marked {
      s := FreeFormNode(table);
    } else if fqn in reg.messages {
      s, own := ExpandedNode(fqn, reg, visited, table, path);
    } else if fqn in reg.enums {
      s := EnumNode(reg.enums[fqn], table);
    } else {
      s := FreeFormNode(table);
    }
  }

  method ResolveMessageOrEnum(t: string, msg: Message, reg: Registry, visited: Visited, table: WellKnowns,
                              ghost path: seq<string>)
    returns (s: Node, ghost own: set<Node>)
    requires table.Valid()
    requires Chain(path, reg) && visited.marked == Marked(path)
    modifies visited, table`texts, table.shared`description
    ensures table.Valid()
    ensures fresh(own)
    ensures TrimDot(t) in table.entries ==> s == table.entries[TrimDot(t)] && table.texts == old(table.texts)
    ensures TrimDot(t) !in table.entries ==>
              && fresh(s)
              && Heads(s, NamedDoc(RefName(t, msg, reg), reg, Marked(path), old(table.texts)), own, table)
              && table.texts == Written(old(table.texts), NamedWrites(RefName(t, msg, reg), reg, Marked(path)))
    ensures visited.marked == old(visited.marked)
              + if TrimDot(t) in table.entries || RefName(t, msg, reg) !in reg.messages then {}
                else {RefName(t, msg, reg)}
    decreases |Unexpanded(reg, Marked(path))|, 2
  {
    var name := TrimDot(t);
    if name in table.entries {
      return table.entries[name], {};
    }
    var fqn := ResolveName(name, msg.pkg, msg.fullName, reg);
    s, own := NamedNode(fqn, reg, visited, table, path);
  }

  method ScalarNode(t: string, ghost table: WellKnowns) returns (s: Node?)
    ensures s == null <==> ScalarSchema(t).None?
    ensures s != null ==> fresh(s) && Heads(s, Lift(ScalarSchema(t).value), {}, table)
  {
    var schema := ScalarSchema(t);
    match schema
    case None => s := null;
    case Some(plain) => s := new Node(PlainCore(plain.typ, plain.format), "");
  }

  method ElementNode(t: string, msg: Message, reg: Registry, visited: Visited, table: WellKnowns,
                     ghost path: seq<string>)
    returns (s: Node, ghost own: set<Node>)
    requires table.Valid()
    requires Chain(path, reg) && visited.marked == Marked(path)
    modifies visited, table`texts, table.shared`description
    ensures table.Valid()
    ensures fresh(own)
    ensures Heads(s, TypeDoc(t, msg, reg, Marked(path), old(table.texts)), own, table)
    ensures TypeDoc(t, msg, reg, Marked(path), old(table.texts)).Own? ==> fresh(s)
    ensures table.texts == Written(old(table.texts), TypeWrites(t, msg, reg, Marked(path)))
    decreases |Unexpanded(reg, Marked(path))|, 3
  {
    var scalar := ScalarNode(t, table);
    if scalar == null {
      s, own := ResolveMessageOrEnum(t, msg, reg, visited, table, path);
    } else {
      s := scalar;
      own := {};
    }
  }

  method ResolveType(t: string, repeated: bool, msg: Message, reg: Registry, visited: Visited, table: WellKnowns,
                     ghost path: seq<string>)
    returns (s: Node, ghost own: set<Node>)
    requires table.Valid()
    requires Chain(path, reg) && visited.marked == Marked(path)
    modifies visited, table`texts, table.shared`description
    ensures table.Valid()
    ensures fresh(own)
    ensures var d := TypeDoc(t, msg, reg, Marked(path), old(table.texts));
            && Heads(s, if repeated then ArrayDoc(d) else d, own, table)
            && (repeated || d.Own? ==> fresh(s))
    ensures table.texts == Written(old(table.texts), TypeWrites(t, msg, reg, Marked(path)))
    decreases |Unexpanded(reg, Marked(path))|, 4
  {
    s, own := ElementNode(t, msg, reg, visited, table, path);
    if repeated {
      s, own := ArrayOfNode(s, TypeDoc(t, msg, reg, Marked(path), old(table.texts)), own, table);
    }
  }

  /** The schema of one field, before its comment is written into it. */
  method UncommentedField(f: Field, msg: Message, reg: Registry, visited: Visited, table: WellKnowns,
                          ghost path: seq<string>)
    returns (fs: Node, ghost own: set<Node>)
    requires table.Valid()
    requires Chain(path, reg) && visited.marked == Marked(path)
    modifies table`texts, table.shared`description
    ensures table.Valid()
    ensures fresh(own)
    ensures Heads(fs, BareDoc(f, msg, reg, Marked(path), old(table.texts)), own, table)
    ensures BareDoc(f, msg, reg, Marked(path), old(table.texts)).Own? ==> fresh(fs)
    ensures table.texts == Written(old(table.texts), TypeWrites(ElementType(f), msg, reg, Marked(path)))
    decreases |Unexpanded(reg, Marked(path))|, 5
  {
    var mine := CloneVisited(visited);
    if f.typ == "map" {
      var value, before := ResolveType(f.mapValue, false, msg, reg, mine, table, path);
      fs, own := MapOfNode(value, TypeDoc(f.mapValue, msg, reg, Marked(path), old(table.texts)), before, table);
    } else {
      fs, own := ResolveType(f.typ, f.repeated, msg, reg, mine, table, path);
    }
  }

  /** One turn of the loop over the fields, up to the copy into the properties. */
  method FieldNode(f: Field, msg: Message, reg: Registry, visited: Visited, table: WellKnowns, ghost path: seq<string>)
    returns (fs: Node, ghost nodes: set<Node>)
    requires table.Valid()
    requires Chain(path, reg) && visited.marked == Marked(path)
    modifies table`texts, table.shared`description
    ensures table.Valid()
    ensures fresh(nodes)
    ensures Shows(fs.Value(), FieldDoc(f, msg, reg, Marked(path), old(table.texts)), nodes, table)
    ensures if SharedField(f) then TrimDot(f.typ) in table.entries && fs == table.entries[TrimDot(f.typ)]
            else fresh(fs) && fs !in nodes
    ensures table.texts == Written(old(table.texts), FieldWrites(f, msg, reg, Marked(path)))
    decreases |Unexpanded(reg, Marked(path))|, 6
  {
    fs, nodes := UncommentedField(f, msg, reg, visited, table, path);
    ghost var bare := BareDoc(f, msg, reg, Marked(path), old(table.texts));
    SharedIsBare(f, msg, reg, Marked(path), old(table.texts));
    FieldTexts(f, msg, reg, Marked(path), old(table.texts));
    nodes := CommentedField(fs, f, bare, nodes, table);
  }

  /** The Descriptions of the table when a field of the given schema has been commented. */
  ghost function Commented(texts: Texts, f: Field, bare: Doc): Texts {
    if f.comment != "" && bare.Shared? then texts[bare.name := f.comment] else texts
  }

  /** The value to be copied once the comment is written. */
  lemma CommentedShows(fs: Node, f: Field, bare: Doc, own: set<Node>, table: WellKnowns)
    requires table.Valid() && Heads(fs, bare, own, table)
    ensures Shows(Copy(if f.comment != "" then f.comment else fs.description, fs.core),
                  Copied(f, bare, Commented(table.texts, f, bare)), if bare.Own? then own else {}, table)
  {
    if bare.Shared? {
      EntryShows(if f.comment != "" then f.comment else fs.description, bare.name, {}, table);
    }
  }

  /** Writing the comment of a field into the node of its schema, which may be one of the table. */
  method WriteComment(fs: Node, f: Field, ghost bare: Doc, ghost own: set<Node>, table: WellKnowns)
    requires table.Valid() && Heads(fs, bare, own, table)
    requires bare.Own? ==> fs !in table.shared && fs !in table.inner
    modifies fs`description, table`texts
    ensures table.Valid() && table.texts == Commented(old(table.texts), f, bare)
    ensures fs.description == if f.comment != "" then f.comment else old(fs.description)
  {
    if f.comment != "" {
      fs.description := f.comment;
    }
    table.texts := Commented(table.texts, f, bare);
  }

  method CommentedField(fs: Node, f: Field, ghost bare: Doc, ghost own: set<Node>,
                        table: WellKnowns)
    returns (ghost nodes: set<Node>)
    requires table.Valid() && Heads(fs, bare, own, table) && own !! table.shared
    requires bare.Own? ==> fs !in table.shared && fs !in table.inner
    modifies fs`description, table`texts
    ensures table.Valid() && table.texts == Commented(old(table.texts), f, bare)
    ensures nodes == (if bare.Own? then own else {}) && Shows(fs.Value(), Copied(f, bare, table.texts), nodes, table)
  {
    nodes := if bare.Own? then own else {};
    assert fs !in nodes && fs !in table.inner;
    CommentedShows(fs, f, bare, own, table);
    WriteComment(fs, f, bare, own, table);
  }

  lemma FieldTexts(f: Field, msg: Message, reg: Registry, visited: set<string>, texts: Texts)
    ensures var bare := BareDoc(f, msg, reg, visited, texts);
            Commented(Written(texts, TypeWrites(ElementType(f), msg, reg, visited)), f, bare)
            == Written(texts, FieldWrites(f, msg, reg, visited))
  {
    SharedIsBare(f, msg, reg, visited, texts);
    WrittenAppend(texts, TypeWrites(ElementType(f), msg, reg, visited), OwnWrite(f));
  }

  lemma SharedIsBare(f: Field, msg: Message, reg: Registry, visited: set<string>, texts: Texts)
    ensures SharedField(f) <==> BareDoc(f, msg, reg, visited, texts).Shared?
    ensures SharedField(f) ==> BareDoc(f, msg, reg, visited, texts) == Shared(TrimDot(f.typ))
  {
    if f.typ != "map" && !f.repeated {
      assert BareDoc(f, msg, reg, visited, texts) == TypeDoc(f.typ, msg, reg, visited, texts);
    }
  }

  /** `s.Properties[field.Name] = *fs`. */
  method StoreProperty(s: Node, name: string, fs: Copy, ghost text: string, ghost docs: map<string, Doc>, ghost d: Doc,
                       ghost own: set<Node>, ghost more: set<Node>, ghost table: WellKnowns)
    requires table.Valid() && s !in own && s !in more && s !in table.inner && s !in table.shared
    requires Shows(s.Value(), ObjectDoc(text, docs), own, table) && Shows(fs, d, more, table)
    modifies s`core
    ensures table.Valid() && Shows(s.Value(), ObjectDoc(text, docs[name := d]), own + more, table)
  {
    ghost var before := s.Value();
    Widen(before, ObjectDoc(text, docs), own, own + more, table);
    Widen(fs, d, more, own + more, table);
    s.core := s.core.(properties := s.core.properties[name := fs]);
    forall k | k in docs[name := d] ensures Shows(s.core.properties[k], docs[name := d][k], own + more, table) {
      if k != name {
        assert s.core.properties[k] == before.core.properties[k];
      }
    }
  }

  /** The node after the first `i` fields, and the table as they left it. */
  ghost predicate Converted(s: Node, i: nat, msg: Message, reg: Registry, visited: set<string>, texts: Texts,
                            own: set<Node>, table: WellKnowns, now: Texts)
    requires i <= |msg.fields|
    reads s`description, s`core, own`description, own`core, table.inner`description, table.inner`core
  {
    && s !in own
    && now == Written(texts, WritesOf(msg.fields[..i], msg, reg, visited))
    && Shows(s.Value(), ObjectDoc(msg.comment, PropertyDocs(msg.fields[..i], msg, reg, visited, texts)), own, table)
  }

  /** One turn of the loop over the fields: `s.Properties[field.Name] = *fs` for field `i`. */
  method AddField(s: Node, i: nat, msg: Message, reg: Registry, visited: Visited, table: WellKnowns,
                  ghost path: seq<string>, ghost texts: Texts, ghost own: set<Node>)
    returns (ghost more: set<Node>)
    requires table.Valid() && s !in table.shared && s !in table.inner && own !! table.shared
    requires Chain(path, reg) && visited.marked == Marked(path)
    requires i < |msg.fields| && Converted(s, i, msg, reg, Marked(path), texts, own, table, table.texts)
    modifies s`core, table`texts, table.shared`description
    ensures table.Valid() && fresh(more)
    ensures Converted(s, i + 1, msg, reg, Marked(path), texts, own + more, table, table.texts)
    decreases |Unexpanded(reg, Marked(path))|, 7
  {
    var f := msg.fields[i];
    ghost var now, docs := table.texts, PropertyDocs(msg.fields[..i], msg, reg, Marked(path), texts);
    var fs;
    fs, more := FieldNode(f, msg, reg, visited, table, path);
    StoreProperty(s, f.name, Copy(fs.description, fs.core), msg.comment, docs,
                  FieldDoc(f, msg, reg, Marked(path), now), own, more, table);
    NextConverted(s, i, msg, reg, Marked(path), texts, now, own + more, table);
  }

  lemma NextConverted(s: Node, i: nat, msg: Message, reg: Registry, visited: set<string>, texts: Texts, now: Texts,
                      own: set<Node>, table: WellKnowns)
    requires i < |msg.fields| && s !in own && now == Written(texts, WritesOf(msg.fields[..i], msg, reg, visited))
    requires var f := msg.fields[i];
             var docs := PropertyDocs(msg.fields[..i], msg, reg, visited, texts);
             var more := docs[f.name := FieldDoc(f, msg, reg, visited, now)];
             && Shows(s.Value(), ObjectDoc(msg.comment, more), own, table)
             && table.texts == Written(now, FieldWrites(f, msg, reg, visited))
    ensures Converted(s, i + 1, msg, reg, visited, texts, own, table, table.texts)
  {
    NextField(msg, reg, visited, i, texts);
  }

  method MsgSchemaNode(msg: Message, reg: Registry, visited: Visited, table: WellKnowns, ghost path: seq<string>)
    returns (s: Node, ghost own: set<Node>)
    requires table.Valid()
    requires Chain(path, reg) && visited.marked == Marked(path)
    modifies table`texts, table.shared`description
    ensures table.Valid()
    ensures fresh(s) && fresh(own)
    ensures Heads(s, MsgDoc(msg, reg, Marked(path), old(table.texts)), own, table)
    ensures table.texts == Written(old(table.texts), MsgWrites(msg, reg, Marked(path)))
    decreases |Unexpanded(reg, Marked(path))|, 8
  {
    s := new Node(PlainCore("object", ""), msg.comment);
    own := {};
    for i := 0 to |msg.fields|
      invariant table.Valid() && fresh(own) && fresh(s)
      invariant Converted(s, i, msg, reg, Marked(path), old(table.texts), own, table, table.texts)
    {
      ghost var more := AddField(s, i, msg, reg, visited, table, path, old(table.texts), own);
      own := own + more;
    }
    assert msg.fields[..|msg.fields|] == msg.fields;
    Complete(s.Value(), msg, reg, Marked(path), old(table.texts), own, table);
    OpenIfEmpty(s, MsgDoc(msg, reg, Marked(path), old(table.texts)), own, table);
  }

  /** A message without fields accepts anything. */
  method OpenIfEmpty(s: Node, ghost d: Doc, ghost own: set<Node>, ghost table: WellKnowns)
    requires table.Valid() && s !in own && s !in table.inner && s !in table.shared && !s.core.preserve
    requires Shows(s.Value().(core := s.core.(preserve := |s.core.properties| == 0)), d, own, table)
    modifies s`core
    ensures table.Valid() && Shows(s.Value(), d, own, table)
  {
    if |s.core.properties| == 0 {
      s.core := s.core.(preserve := true);
    }
  }

  lemma Complete(c: Copy, msg: Message, reg: Registry, visited: set<string>, texts: Texts, own: set<Node>,
                 table: WellKnowns)
    requires Shows(c, ObjectDoc(msg.comment, PropertyDocs(msg.fields, msg, reg, visited, texts)), own, table)
    ensures Shows(c.(core := c.core.(preserve := |c.core.properties| == 0)),
                  MsgDoc(msg, reg, visited, texts), own, table)
    ensures !c.core.preserve
  {
    SameSize(c.core.properties, PropertyDocs(msg.fields, msg, reg, visited, texts));
  }

  lemma NextField(msg: Message, reg: Registry, visited: set<string>, i: nat, texts: Texts)
    requires i < |msg.fields|
    ensures var init, all, f := msg.fields[..i], msg.fields[..i + 1], msg.fields[i];
            var now := Written(texts, WritesOf(init, msg, reg, visited));
            && PropertyDocs(all, msg, reg, visited, texts)
               == PropertyDocs(init, msg, reg, visited, texts)[f.name := FieldDoc(f, msg, reg, visited, now)]
            && Written(texts, WritesOf(all, msg, reg, visited)) == Written(now, FieldWrites(f, msg, reg, visited))
  {
    var all := msg.fields[..i + 1];
    assert all[..i] == msg.fields[..i];
    OneMoreDoc(all, msg, reg, visited, texts);
    WrittenAppend(texts, WritesOf(msg.fields[..i], msg, reg, visited), FieldWrites(msg.fields[i], msg, reg, visited));
  }

  lemma SameSize<X, Y>(a: map<string, X>, b: map<string, Y>)
    requires a.Keys == b.Keys
    ensures |a| == |b|
  {
    assert |a| == |a.Keys| && |b| == |b.Keys|;
  }

  method MessageToSchemaNode(msg: Message, reg: Registry, table: WellKnowns) returns (s: Node, ghost own: set<Node>)
    requires table.Valid()
    modifies table`texts, table.shared`description
    ensures table.Valid()
    ensures fresh(s) && fresh(own)
    ensures Heads(s, MsgDoc(msg, reg, {}, old(table.texts)), own, table)
    ensures table.texts == Written(old(table.texts), MsgWrites(msg, reg, {}))
  {
    var visited := new Visited({});
    assert Marked([]) == {};
    s, own := MsgSchemaNode(msg, reg, visited, table, []);
  }

  /** Each output is its own message's schema, with the Descriptions that the run up to it explains. */
  ghost predicate AllShow(outputs: seq<Node>, msgs: seq<Message>, reg: Registry, texts: Texts, nodes: set<Node>,
                          table: WellKnowns)
    reads nodes`description, nodes`core, table.inner`description, table.inner`core
  {
    |outputs| <= |msgs| && forall i | 0 <= i < |outputs| ::
      outputs[i] in nodes && Shows(outputs[i].Value(), OutputDoc(msgs, i, reg, texts), nodes, table)
  }

  /** The table and the outputs after the first |outputs| conversions of a run. */
  ghost predicate RunTo(outputs: seq<Node>, msgs: seq<Message>, reg: Registry, texts: Texts, nodes: set<Node>,
                        table: WellKnowns)
    reads table`texts, nodes`description, nodes`core, table.inner`description, table.inner`core
  {
    && AllShow(outputs, msgs, reg, texts, nodes, table)
    && table.texts == Written(texts, RunWrites(msgs[..|outputs|], reg))
  }

  lemma OneMoreOutput(outputs: seq<Node>, s: Node, msgs: seq<Message>, reg: Registry, texts: Texts,
                      a: set<Node>, b: set<Node>, table: WellKnowns)
    requires AllShow(outputs, msgs, reg, texts, a, table) && |outputs| < |msgs|
    requires Shows(s.Value(), OutputDoc(msgs, |outputs|, reg, texts), b, table)
    ensures AllShow(outputs + [s], msgs, reg, texts, a + (b + {s}), table)
  {
    var all := a + (b + {s});
    forall i | 0 <= i < |outputs| ensures Shows(outputs[i].Value(), OutputDoc(msgs, i, reg, texts), all, table) {
      Widen(outputs[i].Value(), OutputDoc(msgs, i, reg, texts), a, all, table);
    }
    Widen(s.Value(), OutputDoc(msgs, |outputs|, reg, texts), b, all, table);
  }

  lemma Advance(outputs: seq<Node>, s: Node, msgs: seq<Message>, reg: Registry, texts: Texts, nodes: set<Node>,
                own: set<Node>, table: WellKnowns)
    requires |outputs| < |msgs| && AllShow(outputs, msgs, reg, texts, nodes, table)
    requires Shows(s.Value(), OutputDoc(msgs, |outputs|, reg, texts), own, table)
    requires table.texts == Written(Written(texts, RunWrites(msgs[..|outputs|], reg)),
                                    MsgWrites(msgs[|outputs|], reg, {}))
    ensures RunTo(outputs + [s], msgs, reg, texts, nodes + (own + {s}), table)
  {
    OneMoreOutput(outputs, s, msgs, reg, texts, nodes, own, table);
    NextMessage(msgs, |outputs|, reg, texts);
  }

  /** The conversion of message `j`, with the table as the conversions before have left it. */
  method ConvertOne(msgs: seq<Message>, j: nat, reg: Registry, table: WellKnowns, ghost texts: Texts)
    returns (s: Node, ghost own: set<Node>)
    requires table.Valid() && j < |msgs| && table.texts == Written(texts, RunWrites(msgs[..j], reg))
    modifies table`texts, table.shared`description
    ensures table.Valid() && fresh(s) && fresh(own)
    ensures Shows(s.Value(), OutputDoc(msgs, j, reg, texts), own, table)
    ensures table.texts == Written(Written(texts, RunWrites(msgs[..j], reg)), MsgWrites(msgs[j], reg, {}))
  {
    s, own := MessageToSchemaNode(msgs[j], reg, table);
  }

  /** One more conversion of a run. */
  method ConvertNext(outputs: seq<Node>, msgs: seq<Message>, reg: Registry, table: WellKnowns, ghost texts: Texts,
                     ghost nodes: set<Node>)
    returns (s: Node, ghost own: set<Node>)
    requires table.Valid() && |outputs| < |msgs| && nodes !! table.shared
    requires RunTo(outputs, msgs, reg, texts, nodes, table)
    modifies table`texts, table.shared`description
    ensures table.Valid() && fresh(s) && fresh(own)
    ensures RunTo(outputs + [s], msgs, reg, texts, nodes + (own + {s}), table)
  {
    s, own := ConvertOne(msgs, |outputs|, reg, table, texts);
    assert AllShow(outputs, msgs, reg, texts, nodes, table);
    Advance(outputs, s, msgs, reg, texts, nodes, own, table);
  }

  /**
   * A whole run of the tool. Conversions share the table and write comments through it: every
   * output is the function of its own message, the registry and the comments written before, and
   * the table ends with the last comments written.
   */
  method ConvertAll(msgs: seq<Message>, reg: Registry, table: WellKnowns)
    returns (outputs: seq<Node>, ghost nodes: set<Node>)
    requires table.Valid()
    modifies table`texts, table.shared`description
    ensures table.Valid() && |outputs| == |msgs| && fresh(nodes)
    ensures RunTo(outputs, msgs, reg, old(table.texts), nodes, table)
  {
    outputs, nodes := [], {};
    while |outputs| < |msgs|
      invariant table.Valid() && |outputs| <= |msgs| && fresh(nodes)
      invariant RunTo(outputs, msgs, reg, old(table.texts), nodes, table)
    {
      var s, own := ConvertNext(outputs, msgs, reg, table, old(table.texts), nodes);
      outputs, nodes := outputs + [s], nodes + (own + {s});
    }
  }
}
