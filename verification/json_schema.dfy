/** Structural schemas, and what the API server does with a value and its schema. */
module JsonSchema {
  import opened Options
  import opened JsonValue

  /** The part of JSONSchemaProps that the compiler sets, apart from Description. */
  datatype Schema = Schema(
    typ: string, format: string, properties: map<string, Schema>, additional: Option<Schema>,
    items: Option<Schema>, enums: seq<string>, preserve: bool)

  /** A schema that constrains only the type and the format. */
  function Plain(typ: string, format: string): Schema {
    Schema(typ, format, map[], None, None, [], false)
  }

  /** A schema with `x-kubernetes-preserve-unknown-fields` and nothing declared. */
  function FreeForm(typ: string): Schema {
    Plain(typ, "").(preserve := true)
  }

  const INT32_LIMIT: real := 2147483648.0
  const INT64_LIMIT: real := 9223372036854775808.0

  predicate Integral(n: real) {
    n.Floor as real == n
  }

  predicate TypeOk(typ: string, v: Json) {
    match typ
    case "" => true
    case "object" => v.Obj?
    case "array" => v.Arr?
    case "string" => v.Str?
    case "boolean" => v.Bool?
    case "integer" => v.Num? && Integral(v.n)
    case "number" => v.Num?
    case _ => false
  }

  /** `check(format, text)` stands for the validator's test of string formats. */
  predicate FormatOk(check: (string, string) -> bool, format: string, v: Json) {
    match v
    case Num(n) =>
      && (format == "int32" ==> -INT32_LIMIT <= n < INT32_LIMIT)
      && (format == "int64" ==> -INT64_LIMIT <= n < INT64_LIMIT)
    case Str(s) => format == "byte" || format == "date-time" ==> check(format, s)
    case _ => true
  }

  /** JSON text of a string without characters that need escaping. */
  function Quoted(s: string): string {
    "\"" + s + "\""
  }

  predicate EnumOk(enums: seq<string>, v: Json) {
    enums == [] || (v.Str? && Quoted(v.s) in enums)
  }

  /** Structural validation of a value; it says nothing about undeclared members. */
  predicate Accepts(check: (string, string) -> bool, s: Schema, v: Json)
    decreases v
  {
    && TypeOk(s.typ, v)
    && FormatOk(check, s.format, v)
    && EnumOk(s.enums, v)
    && (v.Obj? ==> forall k | k in v.members ::
          && (k in s.properties ==> Accepts(check, s.properties[k], v.members[k]))
          && (k !in s.properties && s.additional.Some? ==> Accepts(check, s.additional.value, v.members[k])))
    && (v.Arr? && s.items.Some? ==> forall i | 0 <= i < |v.elems| :: Accepts(check, s.items.value, v.elems[i]))
  }

  /** Pruning of a value that no schema describes: every object loses all of its members. */
  function Strip(v: Json): Json
    decreases v
  {
    match v
    case Obj(_) => Obj(map[])
    case Arr(elems) => Arr(seq(|elems|, i requires 0 <= i < |elems| => Strip(elems[i])))
    case _ => v
  }

  predicate Keeps(s: Schema, k: string) {
    k in s.properties || s.additional.Some? || s.preserve
  }

  /** Structural pruning: undeclared members go, unless the schema preserves unknown fields. */
  function Prune(s: Schema, v: Json): Json
    decreases v
  {
    match v
    case Obj(members) =>
      Obj(map k | k in members && Keeps(s, k) ::
            if k in s.properties then Prune(s.properties[k], members[k])
            else if s.additional.Some? then Prune(s.additional.value, members[k])
            else members[k])
    case Arr(elems) =>
      Arr(seq(|elems|, i requires 0 <= i < |elems| =>
            if s.items.Some? then Prune(s.items.value, elems[i])
            else if s.preserve then elems[i]
            else Strip(elems[i])))
    case _ => v
  }

  /** No object in the value has a member. */
  predicate Bare(v: Json)
    decreases v
  {
    match v
    case Obj(members) => members == map[]
    case Arr(elems) => forall i | 0 <= i < |elems| :: Bare(elems[i])
    case _ => true
  }

  lemma {:induction false} StripIsBare(v: Json)
    ensures Bare(Strip(v))
    ensures Strip(v) == v <==> Bare(v)
    decreases v
  {
    if v.Arr? {
      forall i | 0 <= i < |v.elems|
        ensures Bare(Strip(v.elems[i])) && (Strip(v.elems[i]) == v.elems[i] <==> Bare(v.elems[i]))
      {
        StripIsBare(v.elems[i]);
      }
      if Bare(v) {
        assert Strip(v).elems == v.elems;
      }
    }
  }

  /** When pruning leaves a value alone, in terms of its parts. */
  lemma PruneFixed(s: Schema, v: Json)
    ensures v.Obj? ==>
              (Prune(s, v) == v <==> forall k | k in v.members ::
                   && Keeps(s, k)
                   && (k in s.properties ==> Prune(s.properties[k], v.members[k]) == v.members[k])
                   && (k !in s.properties && s.additional.Some? ==>
                       Prune(s.additional.value, v.members[k]) == v.members[k]))
    ensures v.Arr? ==>
              (Prune(s, v) == v <==> forall i | 0 <= i < |v.elems| ::
                   if s.items.Some? then Prune(s.items.value, v.elems[i]) == v.elems[i]
                   else s.preserve || Bare(v.elems[i]))
  {
    if v.Obj? {
      var p := Prune(s, v).members;
      assert p.Keys <= v.members.Keys;
      if Prune(s, v) == v {
        forall k | k in v.members
          ensures && Keeps(s, k)
                  && (k in s.properties ==> Prune(s.properties[k], v.members[k]) == v.members[k])
                  && (k !in s.properties && s.additional.Some? ==>
                      Prune(s.additional.value, v.members[k]) == v.members[k])
        {
          assert k in p && p[k] == v.members[k];
        }
      }
    }
    if v.Arr? {
      var p := Prune(s, v).elems;
      forall i | 0 <= i < |v.elems| ensures Strip(v.elems[i]) == v.elems[i] <==> Bare(v.elems[i]) {
        StripIsBare(v.elems[i]);
      }
      if p == v.elems {
        assert forall i | 0 <= i < |v.elems| :: p[i] == v.elems[i];
      }
    }
  }

  /** Pruning twice is pruning once, for every schema and value. */
  lemma {:induction false} PruneIdempotent(s: Schema, v: Json)
    ensures Prune(s, Prune(s, v)) == Prune(s, v)
    decreases v
  {
    var p := Prune(s, v);
    PruneFixed(s, p);
    match v
    case Obj(members) =>
      forall k | k in p.members
        ensures && Keeps(s, k)
                && (k in s.properties ==> Prune(s.properties[k], p.members[k]) == p.members[k])
                && (k !in s.properties && s.additional.Some? ==>
                    Prune(s.additional.value, p.members[k]) == p.members[k])
      {
        if k in s.properties {
          PruneIdempotent(s.properties[k], members[k]);
        } else if s.additional.Some? {
          PruneIdempotent(s.additional.value, members[k]);
        }
      }
    case Arr(elems) =>
      forall i | 0 <= i < |elems|
        ensures if s.items.Some? then Prune(s.items.value, p.elems[i]) == p.elems[i] else s.preserve || Bare(p.elems[i])
      {
        if s.items.Some? {
          PruneIdempotent(s.items.value, elems[i]);
        } else {
          StripIsBare(elems[i]);
        }
      }
    case _ =>
  }
}
