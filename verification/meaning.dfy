/**
 * What a compiled schema means, stated on values and proto types without mentioning schemas:
 * which values it accepts (`FitsMsg`), which values pruning leaves alone (`TightMsg`), and that
 * both hold of every value in the JSON mapping of the message (`ConformsMsg`).
 */
module Meaning {
  import opened Options
  import opened Proto
  import opened JsonValue
  import opened JsonSchema
  import opened Compiler

  /** JSON shapes of the types that need no registry. */
  datatype Shape =
    | Text | Base64 | DateTime | Boolean | Floating(wide: bool)
    | Signed(wide: bool) | Unsigned(wide: bool)
    | AnyObject | AnyValue | NoMembers | AnyList

  function ScalarShape(t: string): Option<Shape> {
    match t
    case "string" => Some(Text)
    case "bytes" => Some(Base64)
    case "bool" => Some(Boolean)
    case "int32" => Some(Signed(false))
    case "sint32" => Some(Signed(false))
    case "sfixed32" => Some(Signed(false))
    case "int64" => Some(Signed(true))
    case "sint64" => Some(Signed(true))
    case "sfixed64" => Some(Signed(true))
    case "uint32" => Some(Unsigned(false))
    case "fixed32" => Some(Unsigned(false))
    case "uint64" => Some(Unsigned(true))
    case "fixed64" => Some(Unsigned(true))
    case "float" => Some(Floating(false))
    case "double" => Some(Floating(true))
    case _ => None
  }

  function WellKnownShape(t: string): Option<Shape> {
    if GOOGLE <= t then GoogleShape(t[|GOOGLE|..]) else None
  }

  function GoogleShape(t: string): Option<Shape> {
    match t
    case "Any" => Some(AnyObject)
    case "Struct" => Some(AnyObject)
    case "Value" => Some(AnyValue)
    case "Duration" => Some(Text)
    case "Timestamp" => Some(DateTime)
    case "Empty" => Some(NoMembers)
    case "StringValue" => Some(Text)
    case "BoolValue" => Some(Boolean)
    case "Int32Value" => Some(Signed(false))
    case "UInt32Value" => Some(Unsigned(false))
    case "Int64Value" => Some(Signed(true))
    case "UInt64Value" => Some(Unsigned(true))
    case "FloatValue" => Some(Floating(false))
    case "DoubleValue" => Some(Floating(true))
    case "BytesValue" => Some(Base64)
    case "ListValue" => Some(AnyList)
    case _ => None
  }

  /** The shape of a type name that names no declared message or enum. */
  function ShapeOf(t: string): Option<Shape> {
    if ScalarShape(t).Some? then ScalarShape(t) else WellKnownShape(TrimDot(t))
  }

  function SignedLimit(wide: bool): real {
    if wide then INT64_LIMIT else INT32_LIMIT
  }

  predicate InSignedRange(wide: bool, n: real) {
    -SignedLimit(wide) <= n < SignedLimit(wide)
  }

  /** Values of a shape in the JSON mapping of proto, with 64-bit integers as numbers. */
  predicate ShapeConforms(check: (string, string) -> bool, shape: Shape, v: Json) {
    match shape
    case Text => v.Str?
    case Base64 => v.Str? && check("byte", v.s)
    case DateTime => v.Str? && check("date-time", v.s)
    case Boolean => v.Bool?
    case Floating(_) => v.Num?
    case Signed(wide) => v.Num? && Integral(v.n) && InSignedRange(wide, v.n)
    case Unsigned(wide) => v.Num? && Integral(v.n) && 0.0 <= v.n < 2.0 * SignedLimit(wide)
    case AnyObject => v.Obj?
    case AnyValue => true
    case NoMembers => v == Obj(map[])
    case AnyList => v.Arr?
  }

  /** Values of a shape that validation accepts: unsigned types get the signed range instead. */
  predicate ShapeFits(check: (string, string) -> bool, shape: Shape, v: Json) {
    match shape
    case Unsigned(wide) => v.Num? && Integral(v.n) && InSignedRange(wide, v.n)
    case NoMembers => v.Obj?
    case _ => ShapeConforms(check, shape, v)
  }

  /** Values of a shape that pruning leaves alone. */
  predicate ShapeTight(shape: Shape, v: Json) {
    match shape
    case AnyObject => true
    case AnyValue => true
    case AnyList => v.Obj? ==> v.members == map[]
    case _ => Bare(v)
  }

  /** The schemas that stand for a shape. */
  predicate Renders(s: Schema, shape: Shape) {
    match shape
    case Text => s == Plain("string", "")
    case Base64 => s == Plain("string", "byte")
    case DateTime => s == Plain("string", "date-time")
    case Boolean => s == Plain("boolean", "")
    case Floating(wide) => s == Plain("number", if wide then "double" else "float")
    case Signed(wide) => s == Plain("integer", if wide then "int64" else "int32")
    case Unsigned(wide) => s == Plain("integer", if wide then "int64" else "int32")
    case AnyObject => s == FreeForm("object")
    case AnyValue => s == FreeForm("")
    case NoMembers => s == Plain("object", "")
    case AnyList => s == ArrayOf(FreeForm(""))
  }

  lemma ScalarsRenderTheirShape(t: string)
    ensures ScalarSchema(t).Some? <==> ScalarShape(t).Some?
    ensures ScalarSchema(t).Some? ==> Renders(ScalarSchema(t).value, ScalarShape(t).value)
  {
  }

  lemma WellKnownsRenderTheirShape(t: string)
    ensures GoogleSchema(t).Some? <==> GoogleShape(t).Some?
    ensures GoogleSchema(t).Some? ==> Renders(GoogleSchema(t).value, GoogleShape(t).value)
  {
  }

  lemma FreeFormKeepsAll(typ: string, v: Json)
    ensures Prune(FreeForm(typ), v) == v
  {
    PruneFixed(FreeForm(typ), v);
  }

  lemma RenderedAccepts(check: (string, string) -> bool, s: Schema, shape: Shape, v: Json)
    requires Renders(s, shape)
    ensures Accepts(check, s, v) <==> ShapeFits(check, shape, v)
  {
  }

  lemma RenderedPrunes(s: Schema, shape: Shape, v: Json)
    requires Renders(s, shape)
    ensures Prune(s, v) == v <==> ShapeTight(shape, v)
  {
    PruneFixed(s, v);
    if v.Arr? {
      forall i | 0 <= i < |v.elems| ensures Prune(FreeForm(""), v.elems[i]) == v.elems[i] {
        FreeFormKeepsAll("", v.elems[i]);
      }
    }
  }

  /** A type with a shape is compiled to a schema that stands for the shape. */
  lemma ShapedTypeRenders(t: string, msg: Message, reg: Registry, visited: set<string>)
    ensures ShapeOf(t).Some? <==> ScalarSchema(t).Some? || WellKnownSchema(TrimDot(t)).Some?
    ensures ShapeOf(t).Some? ==> Renders(TypeSchema(t, msg, reg, visited), ShapeOf(t).value)
  {
    ScalarsRenderTheirShape(t);
    var name := TrimDot(t);
    if GOOGLE <= name {
      WellKnownsRenderTheirShape(name[|GOOGLE|..]);
    }
  }

  // ----- What the schema accepts -----

  predicate FitsMsg(check: (string, string) -> bool, reg: Registry, visited: set<string>, msg: Message, v: Json)
    decreases v, 0
  {
    v.Obj? && forall k | k in v.members ::
      var f := LastField(msg.fields, k);
      f.Some? ==> FitsField(check, reg, visited, msg, f.value, v.members[k])
  }

  predicate FitsField(check: (string, string) -> bool, reg: Registry, visited: set<string>, msg: Message, f: Field,
                      v: Json)
    decreases v, 2
  {
    if f.typ == "map" then
      v.Obj? && forall k | k in v.members :: FitsType(check, reg, visited, msg, f.mapValue, v.members[k])
    else if f.repeated then
      v.Arr? && forall i | 0 <= i < |v.elems| :: FitsType(check, reg, visited, msg, f.typ, v.elems[i])
    else
      FitsType(check, reg, visited, msg, f.typ, v)
  }

  predicate FitsType(check: (string, string) -> bool, reg: Registry, visited: set<string>, msg: Message, t: string,
                     v: Json)
    decreases v, 1
  {
    if ShapeOf(t).Some? then ShapeFits(check, ShapeOf(t).value, v)
    else
      var fqn := RefName(t, msg, reg);
      if fqn in visited then v.Obj?
      else if fqn in reg.messages then FitsMsg(check, reg, visited + {fqn}, reg.messages[fqn], v)
      else if fqn in reg.enums then v.Str? && (reg.enums[fqn].values == [] || v.s in reg.enums[fqn].values)
      else v.Obj?
  }

  lemma {:induction false} QuotedMember(values: seq<string>, s: string)
    ensures Quoted(s) in QuotedAll(values) <==> s in values
  {
    if Quoted(s) in QuotedAll(values) {
      var i :| 0 <= i < |values| && QuotedAll(values)[i] == Quoted(s);
      assert Quoted(values[i])[1..|values[i]| + 1] == values[i];
      assert Quoted(s)[1..|s| + 1] == s;
    }
    if s in values {
      var i :| 0 <= i < |values| && values[i] == s;
      assert QuotedAll(values)[i] == Quoted(s);
    }
  }

  /** A compiled message accepts exactly the values that fit it. */
  lemma {:induction false} AcceptsMsg(check: (string, string) -> bool, reg: Registry, visited: set<string>,
                                      msg: Message, v: Json)
    ensures Accepts(check, MsgSchema(msg, reg, visited), v) <==> FitsMsg(check, reg, visited, msg, v)
    decreases v, 0
  {
    if v.Obj? {
      forall k | k in v.members
        ensures LastField(msg.fields, k).Some? <==> k in MsgSchema(msg, reg, visited).properties
        ensures LastField(msg.fields, k).Some? ==>
                  (Accepts(check, MsgSchema(msg, reg, visited).properties[k], v.members[k])
                   <==> FitsField(check, reg, visited, msg, LastField(msg.fields, k).value, v.members[k]))
      {
        PropertiesByName(msg.fields, msg, reg, visited, k);
        if LastField(msg.fields, k).Some? {
          AcceptsField(check, reg, visited, msg, LastField(msg.fields, k).value, v.members[k]);
        }
      }
    }
  }

  lemma {:induction false} AcceptsField(check: (string, string) -> bool, reg: Registry, visited: set<string>,
                                        msg: Message, f: Field, v: Json)
    ensures Accepts(check, FieldSchema(f, msg, reg, visited), v) <==> FitsField(check, reg, visited, msg, f, v)
    decreases v, 2
  {
    if f.typ == "map" {
      if v.Obj? {
        forall k | k in v.members
          ensures Accepts(check, TypeSchema(f.mapValue, msg, reg, visited), v.members[k])
                  <==> FitsType(check, reg, visited, msg, f.mapValue, v.members[k])
        {
          AcceptsType(check, reg, visited, msg, f.mapValue, v.members[k]);
        }
      }
    } else if f.repeated {
      if v.Arr? {
        forall i | 0 <= i < |v.elems|
          ensures Accepts(check, TypeSchema(f.typ, msg, reg, visited), v.elems[i])
                  <==> FitsType(check, reg, visited, msg, f.typ, v.elems[i])
        {
          AcceptsType(check, reg, visited, msg, f.typ, v.elems[i]);
        }
      }
    } else {
      AcceptsType(check, reg, visited, msg, f.typ, v);
    }
  }

  lemma {:induction false} AcceptsType(check: (string, string) -> bool, reg: Registry, visited: set<string>,
                                       msg: Message, t: string, v: Json)
    ensures Accepts(check, TypeSchema(t, msg, reg, visited), v) <==> FitsType(check, reg, visited, msg, t, v)
    decreases v, 1
  {
    ShapedTypeRenders(t, msg, reg, visited);
    if ShapeOf(t).Some? {
      RenderedAccepts(check, TypeSchema(t, msg, reg, visited), ShapeOf(t).value, v);
    } else {
      var fqn := RefName(t, msg, reg);
      assert ReferenceSchema(t, msg, reg, visited) == NamedSchema(fqn, reg, visited);
      if fqn !in visited && fqn in reg.messages {
        AcceptsMsg(check, reg, visited + {fqn}, reg.messages[fqn], v);
      } else if fqn !in visited && fqn in reg.enums {
        if v.Str? {
          QuotedMember(reg.enums[fqn].values, v.s);
        }
      }
    }
  }

  // ----- What pruning leaves alone -----

  /** Every object that stands for the message has only declared members; no other object has any. */
  predicate TightMsg(reg: Registry, visited: set<string>, msg: Message, v: Json)
    decreases v, 0
  {
    match v
    case Obj(members) =>
      msg.fields == [] || forall k | k in members ::
        var f := LastField(msg.fields, k);
        f.Some? && TightField(reg, visited, msg, f.value, members[k])
    case Arr(elems) => msg.fields == [] || Bare(v)
    case _ => true
  }

  predicate TightField(reg: Registry, visited: set<string>, msg: Message, f: Field, v: Json)
    decreases v, 2
  {
    if f.typ == "map" then
      match v
      case Obj(members) => forall k | k in members :: TightType(reg, visited, msg, f.mapValue, members[k])
      case _ => Bare(v)
    else if f.repeated then
      match v
      case Arr(elems) => forall i | 0 <= i < |elems| :: TightType(reg, visited, msg, f.typ, elems[i])
      case _ => Bare(v)
    else
      TightType(reg, visited, msg, f.typ, v)
  }

  predicate TightType(reg: Registry, visited: set<string>, msg: Message, t: string, v: Json)
    decreases v, 1
  {
    if ShapeOf(t).Some? then ShapeTight(ShapeOf(t).value, v)
    else
      var fqn := RefName(t, msg, reg);
      if fqn in visited then true
      else if fqn in reg.messages then TightMsg(reg, visited + {fqn}, reg.messages[fqn], v)
      else if fqn in reg.enums then Bare(v)
      else true
  }

  /** Pruning by a compiled message leaves exactly the tight values alone. */
  lemma {:induction false} PruneFixesMsg(reg: Registry, visited: set<string>, msg: Message, v: Json)
    ensures Prune(MsgSchema(msg, reg, visited), v) == v <==> TightMsg(reg, visited, msg, v)
    decreases v, 0
  {
    var s := MsgSchema(msg, reg, visited);
    PruneFixed(s, v);
    PreserveIffFieldless(msg, reg, visited);
    if v.Obj? {
      forall k | k in v.members
        ensures LastField(msg.fields, k).Some? <==> k in s.properties
        ensures LastField(msg.fields, k).Some? ==>
                  (Prune(s.properties[k], v.members[k]) == v.members[k]
                   <==> TightField(reg, visited, msg, LastField(msg.fields, k).value, v.members[k]))
      {
        PropertiesByName(msg.fields, msg, reg, visited, k);
        if LastField(msg.fields, k).Some? {
          PruneFixesField(reg, visited, msg, LastField(msg.fields, k).value, v.members[k]);
        }
      }
    }
  }

  lemma PreserveIffFieldless(msg: Message, reg: Registry, visited: set<string>)
    ensures MsgSchema(msg, reg, visited).preserve <==> msg.fields == []
  {
    var properties := Properties(msg.fields, msg, reg, visited);
    if msg.fields != [] {
      assert msg.fields[|msg.fields| - 1].name in properties;
    }
  }

  lemma {:induction false} PruneFixesField(reg: Registry, visited: set<string>, msg: Message, f: Field, v: Json)
    ensures Prune(FieldSchema(f, msg, reg, visited), v) == v <==> TightField(reg, visited, msg, f, v)
    decreases v, 2
  {
    PruneFixed(FieldSchema(f, msg, reg, visited), v);
    if f.typ == "map" {
      if v.Obj? {
        forall k | k in v.members
          ensures Prune(TypeSchema(f.mapValue, msg, reg, visited), v.members[k]) == v.members[k]
                  <==> TightType(reg, visited, msg, f.mapValue, v.members[k])
        {
          PruneFixesType(reg, visited, msg, f.mapValue, v.members[k]);
        }
      }
    } else if f.repeated {
      if v.Arr? {
        forall i | 0 <= i < |v.elems|
          ensures Prune(TypeSchema(f.typ, msg, reg, visited), v.elems[i]) == v.elems[i]
                  <==> TightType(reg, visited, msg, f.typ, v.elems[i])
        {
          PruneFixesType(reg, visited, msg, f.typ, v.elems[i]);
        }
      }
    } else {
      PruneFixesType(reg, visited, msg, f.typ, v);
    }
  }

  lemma {:induction false} PruneFixesType(reg: Registry, visited: set<string>, msg: Message, t: string, v: Json)
    ensures Prune(TypeSchema(t, msg, reg, visited), v) == v <==> TightType(reg, visited, msg, t, v)
    decreases v, 1
  {
    ShapedTypeRenders(t, msg, reg, visited);
    if ShapeOf(t).Some? {
      RenderedPrunes(TypeSchema(t, msg, reg, visited), ShapeOf(t).value, v);
    } else {
      var fqn := RefName(t, msg, reg);
      assert ReferenceSchema(t, msg, reg, visited) == NamedSchema(fqn, reg, visited);
      if fqn !in visited && fqn in reg.messages {
        PruneFixesMsg(reg, visited + {fqn}, reg.messages[fqn], v);
      } else {
        PruneFixed(NamedSchema(fqn, reg, visited), v);
      }
    }
  }

  /** Whatever the value, after pruning no undeclared member is left outside free-form positions. */
  lemma {:induction false} PruningIsTight(reg: Registry, visited: set<string>, msg: Message, v: Json)
    ensures TightMsg(reg, visited, msg, Prune(MsgSchema(msg, reg, visited), v))
  {
    PruneIdempotent(MsgSchema(msg, reg, visited), v);
    PruneFixesMsg(reg, visited, msg, Prune(MsgSchema(msg, reg, visited), v));
  }

  // ----- Values of the message, by the JSON mapping of proto -----

  /**
   * `full` selects the whole unsigned ranges; otherwise unsigned numbers stay below the signed
   * limit. No visited set: a recursive message means the same at every depth.
   */
  predicate ConformsMsg(check: (string, string) -> bool, full: bool, reg: Registry, msg: Message, v: Json)
    decreases v, 0
  {
    v.Obj? && forall k | k in v.members ::
      && (exists f <- msg.fields :: f.name == k)
      && (forall f <- msg.fields :: f.name == k ==> ConformsField(check, full, reg, msg, f, v.members[k]))
  }

  predicate ConformsField(check: (string, string) -> bool, full: bool, reg: Registry, msg: Message, f: Field, v: Json)
    decreases v, 2
  {
    if f.typ == "map" then
      v.Obj? && forall k | k in v.members :: ConformsType(check, full, reg, msg, f.mapValue, v.members[k])
    else if f.repeated then
      v.Arr? && forall i | 0 <= i < |v.elems| :: ConformsType(check, full, reg, msg, f.typ, v.elems[i])
    else
      ConformsType(check, full, reg, msg, f.typ, v)
  }

  predicate ConformsType(check: (string, string) -> bool, full: bool, reg: Registry, msg: Message, t: string, v: Json)
    decreases v, 1
  {
    if ShapeOf(t).Some? then
      ShapeConforms(check, ShapeOf(t).value, v) && (full || ShapeFits(check, ShapeOf(t).value, v))
    else
      var fqn := RefName(t, msg, reg);
      if fqn in reg.messages then ConformsMsg(check, full, reg, reg.messages[fqn], v)
      else if fqn in reg.enums then v.Str? && v.s in reg.enums[fqn].values
      else v.Obj?
  }

  ghost predicate MessageNames(reg: Registry, visited: set<string>) {
    visited <= reg.messages.Keys
  }

  lemma {:induction false} ConformingMsgFits(check: (string, string) -> bool, reg: Registry, visited: set<string>,
                                             msg: Message, v: Json)
    requires MessageNames(reg, visited) && ConformsMsg(check, false, reg, msg, v)
    ensures FitsMsg(check, reg, visited, msg, v) && TightMsg(reg, visited, msg, v)
    decreases v, 0
  {
    forall k | k in v.members
      ensures var f := LastField(msg.fields, k);
              && f.Some? && FitsField(check, reg, visited, msg, f.value, v.members[k])
              && TightField(reg, visited, msg, f.value, v.members[k])
    {
      ConformingFieldFits(check, reg, visited, msg, LastField(msg.fields, k).value, v.members[k]);
    }
  }

  lemma {:induction false} ConformingFieldFits(check: (string, string) -> bool, reg: Registry, visited: set<string>,
                                               msg: Message, f: Field, v: Json)
    requires MessageNames(reg, visited) && ConformsField(check, false, reg, msg, f, v)
    ensures FitsField(check, reg, visited, msg, f, v) && TightField(reg, visited, msg, f, v)
    decreases v, 2
  {
    if f.typ == "map" {
      forall k | k in v.members
        ensures FitsType(check, reg, visited, msg, f.mapValue, v.members[k])
                && TightType(reg, visited, msg, f.mapValue, v.members[k])
      {
        ConformingTypeFits(check, reg, visited, msg, f.mapValue, v.members[k]);
      }
    } else if f.repeated {
      forall i | 0 <= i < |v.elems|
        ensures FitsType(check, reg, visited, msg, f.typ, v.elems[i]) && TightType(reg, visited, msg, f.typ, v.elems[i])
      {
        ConformingTypeFits(check, reg, visited, msg, f.typ, v.elems[i]);
      }
    } else {
      ConformingTypeFits(check, reg, visited, msg, f.typ, v);
    }
  }

  lemma {:induction false} ConformingTypeFits(check: (string, string) -> bool, reg: Registry, visited: set<string>,
                                              msg: Message, t: string, v: Json)
    requires MessageNames(reg, visited) && ConformsType(check, false, reg, msg, t, v)
    ensures FitsType(check, reg, visited, msg, t, v) && TightType(reg, visited, msg, t, v)
    decreases v, 1
  {
    if ShapeOf(t).None? {
      var fqn := RefName(t, msg, reg);
      assert ReferenceSchema(t, msg, reg, visited) == NamedSchema(fqn, reg, visited);
      if fqn !in visited && fqn in reg.messages {
        ConformingMsgFits(check, reg, visited + {fqn}, reg.messages[fqn], v);
      }
    }
  }

  /**
   * Compilation preserves meaning: for every registry, cyclic or not, every value of the message
   * is accepted by the compiled schema and survives pruning unchanged.
   */
  lemma {:induction false} SchemaPreservesMeaning(check: (string, string) -> bool, reg: Registry,
                                                  visited: set<string>, msg: Message, v: Json)
    requires MessageNames(reg, visited)
    requires ConformsMsg(check, false, reg, msg, v)
    ensures Accepts(check, MsgSchema(msg, reg, visited), v)
    ensures Prune(MsgSchema(msg, reg, visited), v) == v
  {
    ConformingMsgFits(check, reg, visited, msg, v);
    AcceptsMsg(check, reg, visited, msg, v);
    PruneFixesMsg(reg, visited, msg, v);
  }

  /** Over the whole unsigned range, an unsigned number is accepted exactly below the signed limit. */
  lemma {:induction false} UnsignedAcceptedBelowSignedLimit(check: (string, string) -> bool, reg: Registry,
                                                            visited: set<string>, msg: Message, t: string, v: Json)
    requires ShapeOf(t).Some? && ShapeOf(t).value.Unsigned?
    requires ConformsType(check, true, reg, msg, t, v)
    ensures Accepts(check, TypeSchema(t, msg, reg, visited), v)
            <==> v.n < if ShapeOf(t).value.wide then 9223372036854775808.0 else 2147483648.0
  {
    AcceptsType(check, reg, visited, msg, t, v);
  }

  /** In every message that has a lone uint32 field, the value 3000000000 is one its own schema rejects. */
  lemma {:induction false} LargeUnsignedRejected(check: (string, string) -> bool, reg: Registry, msg: Message, f: Field)
    requires msg.fields == [f] && f.typ == "uint32" && !f.repeated
    ensures var v := Obj(map[f.name := Num(3000000000.0)]);
            ConformsMsg(check, true, reg, msg, v) && !Accepts(check, MessageToSchema(msg, reg), v)
  {
    var v := Obj(map[f.name := Num(3000000000.0)]);
    LargeUnsigned(check, reg, msg, f);
    assert f.name in v.members && LastField(msg.fields, f.name) == Some(f);
    AcceptsMsg(check, reg, {}, msg, v);
  }

  lemma LargeUnsigned(check: (string, string) -> bool, reg: Registry, msg: Message, f: Field)
    requires f.typ == "uint32" && !f.repeated
    ensures ConformsField(check, true, reg, msg, f, Num(3000000000.0))
    ensures !FitsField(check, reg, {}, msg, f, Num(3000000000.0))
  {
    assert ShapeOf(f.typ) == Some(Unsigned(false));
    assert Integral(3000000000.0);
  }
}
