/**
 * The proto-to-schema compiler as a function of the registry and of the set of messages that are
 * being expanded. Descriptions do not appear here; Comments has them.
 */
module Compiler {
  import opened Options
  import opened DottedNames
  import opened Proto
  import opened Resolve
  import opened JsonSchema

  function ScalarSchema(t: string): Option<Schema> {
    match t
    case "string" => Some(Plain("string", ""))
    case "bytes" => Some(Plain("string", "byte"))
    case "bool" => Some(Plain("boolean", ""))
    case "int32" => Some(Plain("integer", "int32"))
    case "sint32" => Some(Plain("integer", "int32"))
    case "sfixed32" => Some(Plain("integer", "int32"))
    case "int64" => Some(Plain("integer", "int64"))
    case "sint64" => Some(Plain("integer", "int64"))
    case "sfixed64" => Some(Plain("integer", "int64"))
    case "uint32" => Some(Plain("integer", "int32"))
    case "fixed32" => Some(Plain("integer", "int32"))
    case "uint64" => Some(Plain("integer", "int64"))
    case "fixed64" => Some(Plain("integer", "int64"))
    case "float" => Some(Plain("number", "float"))
    case "double" => Some(Plain("number", "double"))
    case _ => None
  }

  const GOOGLE := "google.protobuf."

  function WellKnownSchema(t: string): Option<Schema> {
    if GOOGLE <= t then GoogleSchema(t[|GOOGLE|..]) else None
  }

  /** The table of well-known types, keyed by the name within `google.protobuf`. */
  function GoogleSchema(t: string): Option<Schema> {
    match t
    case "Any" => Some(FreeForm("object"))
    case "Struct" => Some(FreeForm("object"))
    case "Value" => Some(FreeForm(""))
    case "Duration" => Some(Plain("string", ""))
    case "Timestamp" => Some(Plain("string", "date-time"))
    case "Empty" => Some(Plain("object", ""))
    case "StringValue" => Some(Plain("string", ""))
    case "BoolValue" => Some(Plain("boolean", ""))
    case "Int32Value" => Some(Plain("integer", "int32"))
    case "UInt32Value" => Some(Plain("integer", "int32"))
    case "Int64Value" => Some(Plain("integer", "int64"))
    case "UInt64Value" => Some(Plain("integer", "int64"))
    case "FloatValue" => Some(Plain("number", "float"))
    case "DoubleValue" => Some(Plain("number", "double"))
    case "BytesValue" => Some(Plain("string", "byte"))
    case "ListValue" => Some(ArrayOf(FreeForm("")))
    case _ => None
  }

  function ArrayOf(s: Schema): Schema {
    Plain("array", "").(items := Some(s))
  }

  function MapOf(s: Schema): Schema {
    Plain("object", "").(additional := Some(s))
  }

  function EnumSchema(values: seq<string>): Schema {
    Plain("string", "").(enums := QuotedAll(values))
  }

  function QuotedAll(values: seq<string>): (r: seq<string>)
    ensures |r| == |values| && forall i | 0 <= i < |r| :: r[i] == Quoted(values[i])
  {
    if values == [] then [] else QuotedAll(values[..|values| - 1]) + [Quoted(values[|values| - 1])]
  }

  function TrimDot(t: string): string {
    if t != "" && t[0] == '.' then t[1..] else t
  }

  /** The name under which a type that is neither scalar nor well known is looked up. */
  function RefName(t: string, msg: Message, reg: Registry): string {
    ResolveFQN(TrimDot(t), msg.pkg, msg.fullName, reg)
  }

  /**
   * An absolute name is looked up as the name itself exactly when that is registered or no enclosing
   * scope defines the name without its dot; otherwise the nearest such scope wins.
   */
  lemma AbsoluteNameResolves(t: string, msg: Message, reg: Registry)
    requires t != "" && t[0] == '.' && ParserNames(msg.fullName, msg.pkg, reg)
    ensures RefName(t, msg, reg) == t[1..] <==> InRegistry(t[1..], reg) || NoCandidate(t[1..], msg.fullName, reg)
    ensures !InRegistry(t[1..], reg) ==> InnermostFirst(RefName(t, msg, reg), t[1..], msg.fullName, reg)
  {
    var name := t[1..];
    WalkScopeIsInnermost(name, msg.fullName, reg);
    ResolveIsInnermostFirst(name, msg.pkg, msg.fullName, reg);
    if !InRegistry(name, reg) {
      if NoCandidate(name, msg.fullName, reg) {
        PackageWalkIsRedundant(name, msg.pkg, msg.fullName, reg);
      } else {
        forall p ensures name != p + "." + name {
          assert |name| < |p + "." + name|;
        }
      }
    }
  }

  const INNER := Message("p.M", "M", "p", [], "")

  /** The message `p.M` and the enum `p.T`, and no global `T`. */
  const SIBLINGS := Registry(map["p.M" := INNER], map["p.T" := Enum("p.T", [])])

  /** Inside `p.M`, with no global `T` registered, the absolute name `.T` is taken for the sibling `p.T`. */
  lemma AbsoluteNameTakenAsRelative()
    ensures ParserNames(INNER.fullName, INNER.pkg, SIBLINGS)
    ensures !InRegistry("T", SIBLINGS) && RefName(".T", INNER, SIBLINGS) == "p.T"
  {
    SiblingIsInnermost();
    assert ".T"[0] == '.' && ".T"[1..] == "T";
    AbsoluteNameResolves(".T", INNER, SIBLINGS);
    InnermostUnique(RefName(".T", INNER, SIBLINGS), "p.T", "T", "p.M", SIBLINGS);
  }

  lemma SiblingIsInnermost()
    ensures ParserNames("p.M", "p", SIBLINGS)
    ensures !InRegistry("T", SIBLINGS) && InnermostFirst("p.T", "T", "p.M", SIBLINGS)
  {
    assert |"T"| == 1 && |"p.M"| == 3 && |"p.T"| == 3;
    assert Scope("p", "p.M") && "p" + "." + "T" == "p.T";
    forall q | Scope(q, "p.M") && |q| > 1 ensures !InRegistry(q + "." + "T", SIBLINGS) {
      assert |q + "." + "T"| >= 4;
    }
    assert NoneInside("p", "T", "p.M", SIBLINGS);
    assert InnermostCandidate("p.T", "T", "p.M", SIBLINGS);
  }

  /** Registered messages that may still be expanded: each expansion makes this set smaller. */
  function Unexpanded(reg: Registry, visited: set<string>): set<string> {
    reg.messages.Keys - visited
  }

  lemma ExpansionShrinks(reg: Registry, visited: set<string>, fqn: string)
    requires fqn in reg.messages && fqn !in visited
    ensures |Unexpanded(reg, visited + {fqn})| < |Unexpanded(reg, visited)|
  {
    assert Unexpanded(reg, visited) == Unexpanded(reg, visited + {fqn}) + {fqn};
  }

  function MessageToSchema(msg: Message, reg: Registry): Schema {
    MsgSchema(msg, reg, {})
  }

  function MsgSchema(msg: Message, reg: Registry, visited: set<string>): Schema
    decreases |Unexpanded(reg, visited)|, 5
  {
    var properties := Properties(msg.fields, msg, reg, visited);
    Plain("object", "").(properties := properties, preserve := |properties| == 0)
  }

  /** The properties after the loop has seen `fields`: a later field replaces an earlier namesake. */
  function Properties(fields: seq<Field>, msg: Message, reg: Registry, visited: set<string>): map<string, Schema>
    decreases |Unexpanded(reg, visited)|, 4, |fields|
  {
    if fields == [] then map[]
    else
      var f := fields[|fields| - 1];
      Properties(fields[..|fields| - 1], msg, reg, visited)[f.name := FieldSchema(f, msg, reg, visited)]
  }

  /** The type that decides what is expanded for a field. */
  function ElementType(f: Field): string {
    if f.typ == "map" then f.mapValue else f.typ
  }

  function FieldSchema(f: Field, msg: Message, reg: Registry, visited: set<string>): Schema
    decreases |Unexpanded(reg, visited)|, 3
  {
    if f.typ == "map" then MapOf(TypeSchema(f.mapValue, msg, reg, visited))
    else if f.repeated then ArrayOf(TypeSchema(f.typ, msg, reg, visited))
    else TypeSchema(f.typ, msg, reg, visited)
  }

  function TypeSchema(t: string, msg: Message, reg: Registry, visited: set<string>): Schema
    decreases |Unexpanded(reg, visited)|, 2
  {
    if ScalarSchema(t).Some? then ScalarSchema(t).value else ReferenceSchema(t, msg, reg, visited)
  }

  /** A type name that is no scalar: a well-known type, else a registered or unknown one. */
  function ReferenceSchema(t: string, msg: Message, reg: Registry, visited: set<string>): Schema
    decreases |Unexpanded(reg, visited)|, 1
  {
    if WellKnownSchema(TrimDot(t)).Some? then WellKnownSchema(TrimDot(t)).value
    else NamedSchema(RefName(t, msg, reg), reg, visited)
  }

  function NamedSchema(fqn: string, reg: Registry, visited: set<string>): Schema
    decreases |Unexpanded(reg, visited)|, 0
  {
    if fqn in visited then FreeForm("object")
    else if fqn in reg.messages then
      ExpansionShrinks(reg, visited, fqn);
      MsgSchema(reg.messages[fqn], reg, visited + {fqn})
    else if fqn in reg.enums then EnumSchema(reg.enums[fqn].values)
    else FreeForm("object")
  }

  /** The field that decides the property `name`: the last of that name. */
  function LastField(fields: seq<Field>, name: string): (r: Option<Field>)
    ensures r.None? <==> forall f <- fields :: f.name != name
    ensures r.Some? ==> r.value in fields && r.value.name == name
  {
    if fields == [] then None
    else if fields[|fields| - 1].name == name then Some(fields[|fields| - 1])
    else LastField(fields[..|fields| - 1], name)
  }

  /** Properties are exactly the declared names, each compiled with the visited set of the message. */
  lemma {:induction false} PropertiesByName(fields: seq<Field>, msg: Message, reg: Registry, visited: set<string>,
                                            name: string)
    ensures name in Properties(fields, msg, reg, visited) <==> LastField(fields, name).Some?
    ensures LastField(fields, name).Some? ==>
              Properties(fields, msg, reg, visited)[name]
                == FieldSchema(LastField(fields, name).value, msg, reg, visited)
    decreases |fields|
  {
    if fields != [] {
      PropertiesByName(fields[..|fields| - 1], msg, reg, visited, name);
    }
  }

  ghost predicate DistinctNames(fields: seq<Field>) {
    forall i, j | 0 <= i < j < |fields| :: fields[i].name != fields[j].name
  }

  /** The same declaration with its fields in another order; field names are distinct. */
  ghost predicate Reordered(a: Message, b: Message) {
    && a.pkg == b.pkg && a.fullName == b.fullName
    && DistinctNames(a.fields) && DistinctNames(b.fields)
    && forall f :: f in a.fields <==> f in b.fields
  }

  /** Two registries of the same declarations, whose fields may come in different orders. */
  ghost predicate SameUpToFieldOrder(p: Registry, q: Registry) {
    && p.enums == q.enums && p.messages.Keys == q.messages.Keys
    && forall fqn | fqn in p.messages :: Reordered(p.messages[fqn], q.messages[fqn])
  }

  /** Reordering the fields of any declarations, the reachable ones included, does not change the schema. */
  lemma {:induction false} FieldOrderIrrelevant(a: Message, b: Message, p: Registry, q: Registry, visited: set<string>)
    requires Reordered(a, b) && SameUpToFieldOrder(p, q)
    ensures MsgSchema(a, p, visited) == MsgSchema(b, q, visited)
    decreases |Unexpanded(p, visited)|, 2
  {
    var here, there := Properties(a.fields, a, p, visited), Properties(b.fields, b, q, visited);
    forall name ensures name in here <==> name in there ensures name in here ==> here[name] == there[name] {
      PropertiesByName(a.fields, a, p, visited, name);
      PropertiesByName(b.fields, b, q, visited, name);
      SameLastField(a, b, name);
      var f := LastField(a.fields, name);
      if f.Some? {
        OrderIrrelevantInType(f.value.typ, a, b, p, q, visited);
        OrderIrrelevantInType(f.value.mapValue, a, b, p, q, visited);
      }
    }
    assert here == there;
  }

  lemma SameLastField(a: Message, b: Message, name: string)
    requires Reordered(a, b)
    ensures LastField(a.fields, name) == LastField(b.fields, name)
  {
  }

  lemma {:induction false} OrderIrrelevantInType(t: string, a: Message, b: Message, p: Registry, q: Registry,
                                                 visited: set<string>)
    requires Reordered(a, b) && SameUpToFieldOrder(p, q)
    ensures TypeSchema(t, a, p, visited) == TypeSchema(t, b, q, visited)
    decreases |Unexpanded(p, visited)|, 1
  {
    SameResolution(TrimDot(t), a.pkg, a.fullName, p, q);
    var fqn := RefName(t, a, p);
    if fqn !in visited && fqn in p.messages {
      ExpansionShrinks(p, visited, fqn);
      FieldOrderIrrelevant(p.messages[fqn], q.messages[fqn], p, q, visited + {fqn});
    }
    assert NamedSchema(fqn, p, visited) == NamedSchema(fqn, q, visited);
    assert ReferenceSchema(t, a, p, visited) == ReferenceSchema(t, b, q, visited);
  }
}
