/** Parsed proto definitions, as the parser hands them to the schema compiler. */
module Proto {
  /** One field: `typ` is "map" exactly for map fields, whose value type is `mapValue`. */
  datatype Field = Field(
    name: string, typ: string, repeated: bool, mapKey: string, mapValue: string, comment: string)

  datatype Message = Message(fullName: string, name: string, pkg: string, fields: seq<Field>, comment: string)

  datatype Enum = Enum(fullName: string, values: seq<string>)

  datatype Registry = Registry(messages: map<string, Message>, enums: map<string, Enum>)

  predicate InRegistry(name: string, reg: Registry) {
    name in reg.messages || name in reg.enums
  }
}
