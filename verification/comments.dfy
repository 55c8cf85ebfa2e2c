/**
 * Descriptions of compiled schemas. The nodes of well-known types are shared and field comments are
 * written through them, so what a Description says can depend on what was converted before.
 */
module Comments {
  import opened Options
  import opened Proto
  import opened JsonSchema
  import opened Compiler
  import opened Expansion

  /** A compiled schema with Descriptions: nodes of its own, and pointers to the nodes of the shared table. */
  datatype Doc =
    | Own(text: string, typ: string, format: string, properties: map<string, Doc>, additional: Option<Doc>,
          items: Option<Doc>, enums: seq<string>, preserve: bool)
    | Shared(name: string)

  /** The schema of a table entry. */
  function Known(name: string): Schema {
    match WellKnownSchema(name)
    case Some(s) => s
    case None => FreeForm("object")
  }

  /** The schema that is left when Descriptions are erased and pointers to the table are followed. */
  function Erase(d: Doc): Schema
    decreases d
  {
    match d
    case Shared(name) => Known(name)
    case Own(_, typ, format, properties, additional, items, enums, preserve) =>
      Schema(typ, format, map k | k in properties :: Erase(properties[k]),
             if additional.Some? then Some(Erase(additional.value)) else None,
             if items.Some? then Some(Erase(items.value)) else None, enums, preserve)
  }

  function MapDoc(d: Doc): Doc {
    Own("", "object", "", map[], Some(d), None, [], false)
  }

  function ArrayDoc(d: Doc): Doc {
    Own("", "array", "", map[], None, Some(d), [], false)
  }

  function ObjectDoc(text: string, properties: map<string, Doc>): Doc {
    Own(text, "object", "", properties, None, None, [], false)
  }

  /** A schema that has at most items, as a fresh node without Descriptions. */
  function Lift(s: Schema): (d: Doc)
    ensures d.Own? && d.text == ""
  {
    Own("", s.typ, s.format, map[], None,
        if s.items.Some? then Some(Lift(s.items.value)) else None, s.enums, s.preserve)
  }

  /** A copy of a table entry. */
  function EntryDoc(name: string, text: string): (d: Doc)
    ensures d.Own?
  {
    var d := Lift(Known(name));
    d.(text := text)
  }

  /** Well-known name to present Description of the shared node. */
  type Texts = map<string, string>

  function TextOf(texts: Texts, name: string): string {
    if name in texts then texts[name] else ""
  }

  /** The comment of a field, written into the shared node of a well-known type. */
  datatype Write = Write(name: string, comment: string)

  function Written(texts: Texts, ws: seq<Write>): Texts {
    if ws == [] then texts
    else Written(texts, ws[..|ws| - 1])[ws[|ws| - 1].name := ws[|ws| - 1].comment]
  }

  /** A field whose schema is the shared node itself. */
  predicate SharedField(f: Field) {
    f.typ != "map" && !f.repeated && ScalarSchema(f.typ).None? && WellKnownSchema(TrimDot(f.typ)).Some?
  }

  /** No comment is empty, and each goes to an entry of the table. */
  predicate ProperWrites(ws: seq<Write>) {
    forall w <- ws :: w.comment != "" && WellKnownSchema(w.name).Some?
  }

  // ----- The comments that a conversion writes into shared nodes, in order -----

  function OwnWrite(f: Field): (ws: seq<Write>)
    ensures ProperWrites(ws)
  {
    if f.comment != "" && SharedField(f) then [Write(TrimDot(f.typ), f.comment)] else []
  }

  function MsgWrites(msg: Message, reg: Registry, visited: set<string>): (ws: seq<Write>)
    ensures ProperWrites(ws)
    decreases |Unexpanded(reg, visited)|, 4
  {
    WritesOf(msg.fields, msg, reg, visited)
  }

  function WritesOf(fields: seq<Field>, msg: Message, reg: Registry, visited: set<string>): (ws: seq<Write>)
    ensures ProperWrites(ws)
    decreases |Unexpanded(reg, visited)|, 3, |fields|
  {
    if fields == [] then []
    else WritesOf(fields[..|fields| - 1], msg, reg, visited) + FieldWrites(fields[|fields| - 1], msg, reg, visited)
  }

  function FieldWrites(f: Field, msg: Message, reg: Registry, visited: set<string>): (ws: seq<Write>)
    ensures ProperWrites(ws)
    decreases |Unexpanded(reg, visited)|, 2
  {
    TypeWrites(ElementType(f), msg, reg, visited) + OwnWrite(f)
  }

  function TypeWrites(t: string, msg: Message, reg: Registry, visited: set<string>): (ws: seq<Write>)
    ensures ProperWrites(ws)
    decreases |Unexpanded(reg, visited)|, 1
  {
    if ScalarSchema(t).Some? || WellKnownSchema(TrimDot(t)).Some? then []
    else NamedWrites(RefName(t, msg, reg), reg, visited)
  }

  function NamedWrites(fqn: string, reg: Registry, visited: set<string>): (ws: seq<Write>)
    ensures ProperWrites(ws)
    decreases |Unexpanded(reg, visited)|, 0
  {
    if fqn !in visited && fqn in reg.messages then
      ExpansionShrinks(reg, visited, fqn);
      MsgWrites(reg.messages[fqn], reg, visited + {fqn})
    else []
  }

  // ----- The conversion with Descriptions; `texts` are those of the shared nodes when it starts -----

  function MsgDoc(msg: Message, reg: Registry, visited: set<string>, texts: Texts): (d: Doc)
    ensures d.Own?
    decreases |Unexpanded(reg, visited)|, 5
  {
    var properties := PropertyDocs(msg.fields, msg, reg, visited, texts);
    ObjectDoc(msg.comment, properties).(preserve := |properties| == 0)
  }

  /** Each field finds the shared nodes as the fields before it left them. */
  function PropertyDocs(fields: seq<Field>, msg: Message, reg: Registry, visited: set<string>,
                        texts: Texts): map<string, Doc>
    decreases |Unexpanded(reg, visited)|, 4, |fields|
  {
    if fields == [] then map[]
    else
      var init, f := fields[..|fields| - 1], fields[|fields| - 1];
      PropertyDocs(init, msg, reg, visited, texts)
      [f.name := FieldDoc(f, msg, reg, visited, Written(texts, WritesOf(init, msg, reg, visited)))]
  }

  function FieldDoc(f: Field, msg: Message, reg: Registry, visited: set<string>, texts: Texts): (d: Doc)
    ensures d.Own?
    decreases |Unexpanded(reg, visited)|, 3
  {
    Copied(f, BareDoc(f, msg, reg, visited, texts), Written(texts, FieldWrites(f, msg, reg, visited)))
  }

  /** What `*fs` copies: for a shared node, with the Description it has at that moment. */
  function Copied(f: Field, bare: Doc, texts: Texts): (d: Doc)
    ensures d.Own?
  {
    match bare
    case Shared(name) => EntryDoc(name, TextOf(texts, name))
    case Own(text, _, _, _, _, _, _, _) => bare.(text := if f.comment != "" then f.comment else text)
  }

  /** The schema of a field before its comment is written into it. */
  function BareDoc(f: Field, msg: Message, reg: Registry, visited: set<string>, texts: Texts): Doc
    decreases |Unexpanded(reg, visited)|, 2
  {
    var element := TypeDoc(ElementType(f), msg, reg, visited, texts);
    if f.typ == "map" then MapDoc(element)
    else if f.repeated then ArrayDoc(element)
    else element
  }

  function TypeDoc(t: string, msg: Message, reg: Registry, visited: set<string>, texts: Texts): Doc
    decreases |Unexpanded(reg, visited)|, 1
  {
    if ScalarSchema(t).Some? then Lift(ScalarSchema(t).value)
    else if WellKnownSchema(TrimDot(t)).Some? then Shared(TrimDot(t))
    else NamedDoc(RefName(t, msg, reg), reg, visited, texts)
  }

  function NamedDoc(fqn: string, reg: Registry, visited: set<string>, texts: Texts): (d: Doc)
    ensures d.Own?
    decreases |Unexpanded(reg, visited)|, 0
  {
    if fqn in visited then Lift(FreeForm("object"))
    else if fqn in reg.messages then
      ExpansionShrinks(reg, visited, fqn);
      MsgDoc(reg.messages[fqn], reg, visited + {fqn}, texts)
    else if fqn in reg.enums then Lift(EnumSchema(reg.enums[fqn].values))
    else Lift(FreeForm("object"))
  }

  // ----- Descriptions erased, this is the compiler -----

  lemma KnownErased(name: string)
    ensures Erase(Lift(Known(name))) == Known(name)
  {
    var s := Known(name);
    if GOOGLE <= name {
      GoogleFields(name[|GOOGLE|..]);
    }
    if s.items.Some? {
      assert Erase(Lift(FreeForm(""))) == FreeForm("");
    }
  }

  lemma GoogleFields(t: string)
    ensures GoogleSchema(t).Some? ==>
              var s := GoogleSchema(t).value;
              s == Plain(s.typ, s.format).(preserve := s.preserve) || s == ArrayOf(FreeForm(""))
  {
  }

  lemma {:induction false} EraseMsg(msg: Message, reg: Registry, visited: set<string>, texts: Texts)
    ensures Erase(MsgDoc(msg, reg, visited, texts)) == MsgSchema(msg, reg, visited)
    decreases |Unexpanded(reg, visited)|, 4
  {
    EraseProperties(msg.fields, msg, reg, visited, texts);
    var docs, schemas := PropertyDocs(msg.fields, msg, reg, visited, texts), Properties(msg.fields, msg, reg, visited);
    assert (map k | k in docs :: Erase(docs[k])) == schemas;
    assert |docs| == |docs.Keys| && |schemas| == |schemas.Keys|;
  }

  lemma {:induction false} EraseProperties(fields: seq<Field>, msg: Message, reg: Registry, visited: set<string>,
                                           texts: Texts)
    ensures var docs, schemas := PropertyDocs(fields, msg, reg, visited, texts), Properties(fields, msg, reg, visited);
            docs.Keys == schemas.Keys && forall k | k in docs :: Erase(docs[k]) == schemas[k]
    decreases |Unexpanded(reg, visited)|, 3, |fields|
  {
    if fields != [] {
      var init, f := fields[..|fields| - 1], fields[|fields| - 1];
      EraseProperties(init, msg, reg, visited, texts);
      EraseField(f, msg, reg, visited, Written(texts, WritesOf(init, msg, reg, visited)));
    }
  }

  lemma {:induction false} EraseField(f: Field, msg: Message, reg: Registry, visited: set<string>, texts: Texts)
    ensures Erase(FieldDoc(f, msg, reg, visited, texts)) == FieldSchema(f, msg, reg, visited)
    decreases |Unexpanded(reg, visited)|, 2
  {
    EraseType(ElementType(f), msg, reg, visited, texts);
    var bare := BareDoc(f, msg, reg, visited, texts);
    EraseBare(f, msg, reg, visited, texts);
    EraseCopied(f, bare, Written(texts, FieldWrites(f, msg, reg, visited)));
  }

  lemma EraseBare(f: Field, msg: Message, reg: Registry, visited: set<string>, texts: Texts)
    requires Erase(TypeDoc(ElementType(f), msg, reg, visited, texts)) == TypeSchema(ElementType(f), msg, reg, visited)
    ensures Erase(BareDoc(f, msg, reg, visited, texts)) == FieldSchema(f, msg, reg, visited)
  {
  }

  lemma EraseCopied(f: Field, bare: Doc, texts: Texts)
    ensures Erase(Copied(f, bare, texts)) == Erase(bare)
  {
    if bare.Shared? {
      KnownErased(bare.name);
    }
  }

  lemma {:induction false} EraseType(t: string, msg: Message, reg: Registry, visited: set<string>, texts: Texts)
    ensures Erase(TypeDoc(t, msg, reg, visited, texts)) == TypeSchema(t, msg, reg, visited)
    decreases |Unexpanded(reg, visited)|, 1
  {
    if ScalarSchema(t).Some? {
      ScalarErased(t);
    } else if WellKnownSchema(TrimDot(t)).None? {
      EraseNamed(RefName(t, msg, reg), reg, visited, texts);
    }
    assert ScalarSchema(t).None? ==> TypeSchema(t, msg, reg, visited) == ReferenceSchema(t, msg, reg, visited);
  }

  lemma ScalarErased(t: string)
    requires ScalarSchema(t).Some?
    ensures Erase(Lift(ScalarSchema(t).value)) == ScalarSchema(t).value
  {
  }

  lemma {:induction false} EraseNamed(fqn: string, reg: Registry, visited: set<string>, texts: Texts)
    ensures Erase(NamedDoc(fqn, reg, visited, texts)) == NamedSchema(fqn, reg, visited)
    decreases |Unexpanded(reg, visited)|, 0
  {
    if fqn !in visited && fqn in reg.messages {
      ExpansionShrinks(reg, visited, fqn);
      EraseMsg(reg.messages[fqn], reg, visited + {fqn}, texts);
    }
  }

  // ----- Which comment a Description shows -----

  /** The comment of the last write to a name. */
  function LastWrite(ws: seq<Write>, name: string): (r: Option<string>)
    ensures r.None? <==> forall w <- ws :: w.name != name
    ensures r.Some? ==> Write(name, r.value) in ws
  {
    if ws == [] then None
    else if ws[|ws| - 1].name == name then Some(ws[|ws| - 1].comment)
    else LastWrite(ws[..|ws| - 1], name)
  }

  lemma {:induction false} ShowsLastWrite(texts: Texts, ws: seq<Write>, name: string)
    ensures TextOf(Written(texts, ws), name) ==
            if LastWrite(ws, name).Some? then LastWrite(ws, name).value else TextOf(texts, name)
  {
    if ws != [] {
      ShowsLastWrite(texts, ws[..|ws| - 1], name);
    }
  }

  lemma {:induction false} WrittenAppend(texts: Texts, a: seq<Write>, b: seq<Write>)
    ensures Written(texts, a + b) == Written(Written(texts, a), b)
  {
    if b == [] {
      assert a + b == a;
    } else {
      WrittenAppend(texts, a, b[..|b| - 1]);
      assert (a + b)[..|a + b| - 1] == a + b[..|b| - 1];
    }
  }

  lemma {:induction false} LastWriteAppend(a: seq<Write>, b: seq<Write>, name: string)
    ensures LastWrite(a + b, name) == if LastWrite(b, name).Some? then LastWrite(b, name) else LastWrite(a, name)
  {
    if b == [] {
      assert a + b == a;
    } else {
      LastWriteAppend(a, b[..|b| - 1], name);
      assert (a + b)[..|a + b| - 1] == a + b[..|b| - 1];
    }
  }

  /** A field whose schema is a fresh expansion of a message, with that message's comment. */
  predicate MessageField(f: Field, msg: Message, reg: Registry, visited: set<string>) {
    && f.typ != "map" && !f.repeated && ScalarSchema(f.typ).None? && WellKnownSchema(TrimDot(f.typ)).None?
    && RefName(f.typ, msg, reg) !in visited && RefName(f.typ, msg, reg) in reg.messages
  }

  /** The message that the field expands to has a comment. */
  predicate Inherits(f: Field, msg: Message, reg: Registry, visited: set<string>) {
    MessageField(f, msg, reg, visited) && reg.messages[RefName(f.typ, msg, reg)].comment != ""
  }

  ghost predicate Blank(texts: Texts) {
    forall name | name in texts :: texts[name] == ""
  }

  ghost predicate WrittenBefore(ws: seq<Write>, name: string) {
    exists w :: w in ws && w.name == name
  }

  /**
   * The Description of a property is not its field's comment exactly when the field has none and
   * takes over another: the comment of the message it expands to, or, for a well-known type, the
   * comment that some field converted before wrote into the shared node.
   */
  lemma {:induction false} DescriptionDiffersIff(f: Field, msg: Message, reg: Registry, visited: set<string>,
                                                 texts: Texts, before: seq<Write>)
    requires Blank(texts) && ProperWrites(before)
    ensures FieldDoc(f, msg, reg, visited, Written(texts, before)).text != f.comment
       <==> f.comment == ""
            && if SharedField(f) then WrittenBefore(before, TrimDot(f.typ)) else Inherits(f, msg, reg, visited)
  {
    var now := Written(texts, before);
    if SharedField(f) {
      SharedDescription(f, msg, reg, visited, texts, before);
      LastWriteAppend(before, OwnWrite(f), TrimDot(f.typ));
    } else {
      FreshText(f, msg, reg, visited, now);
    }
  }

  /** A property of a well-known type shows the last comment written to the shared node, its own included. */
  lemma {:induction false} SharedDescription(f: Field, msg: Message, reg: Registry, visited: set<string>,
                                             texts: Texts, before: seq<Write>)
    requires SharedField(f)
    ensures var last := LastWrite(before + OwnWrite(f), TrimDot(f.typ));
            FieldDoc(f, msg, reg, visited, Written(texts, before)).text
            == if last.Some? then last.value else TextOf(texts, TrimDot(f.typ))
  {
    var now := Written(texts, before);
    assert BareDoc(f, msg, reg, visited, now) == Shared(TrimDot(f.typ));
    assert FieldWrites(f, msg, reg, visited) == OwnWrite(f);
    WrittenAppend(texts, before, OwnWrite(f));
    ShowsLastWrite(texts, before + OwnWrite(f), TrimDot(f.typ));
  }

  lemma FreshText(f: Field, msg: Message, reg: Registry, visited: set<string>, texts: Texts)
    requires !SharedField(f)
    ensures FieldDoc(f, msg, reg, visited, texts).text
            == if f.comment == "" && MessageField(f, msg, reg, visited)
              then reg.messages[RefName(f.typ, msg, reg)].comment else f.comment
  {
    var bare, fqn := BareDoc(f, msg, reg, visited, texts), RefName(f.typ, msg, reg);
    if f.typ == "map" || f.repeated {
      assert bare.Own? && bare.text == "";
    } else if ScalarSchema(f.typ).Some? {
      assert bare == TypeDoc(f.typ, msg, reg, visited, texts) == Lift(ScalarSchema(f.typ).value);
    } else {
      assert bare == TypeDoc(f.typ, msg, reg, visited, texts) == NamedDoc(fqn, reg, visited, texts);
      if MessageField(f, msg, reg, visited) {
        assert bare == MsgDoc(reg.messages[fqn], reg, visited + {fqn}, texts);
      }
    }
  }

  /**
   * A comment written to a shared node is not the one it shows in the end exactly when a later write
   * differs and is the last.
   */
  lemma {:induction false} CommentDisplacedIff(texts: Texts, ws: seq<Write>, i: nat)
    requires i < |ws|
    ensures var last := LastWrite(ws[i + 1..], ws[i].name);
            TextOf(Written(texts, ws), ws[i].name) != ws[i].comment <==> last.Some? && last.value != ws[i].comment
  {
    var upTo, after := ws[..i + 1], ws[i + 1..];
    assert ws == upTo + after;
    ShowsLastWrite(texts, ws, ws[i].name);
    LastWriteAppend(upTo, after, ws[i].name);
  }

  // ----- A whole run of the tool -----

  /** The writes of the conversions of some messages, one after the other. */
  function RunWrites(msgs: seq<Message>, reg: Registry): (ws: seq<Write>)
    ensures ProperWrites(ws)
  {
    if msgs == [] then [] else RunWrites(msgs[..|msgs| - 1], reg) + MsgWrites(msgs[|msgs| - 1], reg, {})
  }

  /** The output for message `j` of a run that starts with a table without Descriptions. */
  function OutputDoc(msgs: seq<Message>, j: nat, reg: Registry, texts: Texts): Doc
    requires j < |msgs|
  {
    MsgDoc(msgs[j], reg, {}, Written(texts, RunWrites(msgs[..j], reg)))
  }

  lemma NextMessage(msgs: seq<Message>, i: nat, reg: Registry, texts: Texts)
    requires i < |msgs|
    ensures Written(texts, RunWrites(msgs[..i + 1], reg))
            == Written(Written(texts, RunWrites(msgs[..i], reg)), MsgWrites(msgs[i], reg, {}))
  {
    assert msgs[..i + 1][..i] == msgs[..i];
    WrittenAppend(texts, RunWrites(msgs[..i], reg), MsgWrites(msgs[i], reg, {}));
  }

  /** Descriptions erased, an output is the function of its own message and the registry alone. */
  lemma {:induction false} OutputErased(msgs: seq<Message>, j: nat, reg: Registry, texts: Texts)
    requires j < |msgs|
    ensures Erase(OutputDoc(msgs, j, reg, texts)) == MessageToSchema(msgs[j], reg)
  {
    EraseMsg(msgs[j], reg, {}, Written(texts, RunWrites(msgs[..j], reg)));
  }

  /** A property is the copy of the last field of its name, made with what the fields before it had written. */
  lemma {:induction false} PropertyDocAt(fields: seq<Field>, i: nat, msg: Message, reg: Registry,
                                         visited: set<string>, texts: Texts)
    requires i < |fields| && forall m | i < m < |fields| :: fields[m].name != fields[i].name
    ensures var docs := PropertyDocs(fields, msg, reg, visited, texts);
            && fields[i].name in docs
            && docs[fields[i].name] == FieldDoc(fields[i], msg, reg, visited,
                                                Written(texts, WritesOf(fields[..i], msg, reg, visited)))
    decreases |fields|
  {
    var n := |fields| - 1;
    var init := fields[..n];
    OneMoreDoc(fields, msg, reg, visited, texts);
    if i < n {
      PropertyDocAt(init, i, msg, reg, visited, texts);
      assert init[..i] == fields[..i] && init[i] == fields[i];
    }
  }

  lemma OneMoreDoc(fields: seq<Field>, msg: Message, reg: Registry, visited: set<string>, texts: Texts)
    requires fields != []
    ensures var init, f := fields[..|fields| - 1], fields[|fields| - 1];
            PropertyDocs(fields, msg, reg, visited, texts)
            == PropertyDocs(init, msg, reg, visited, texts)
               [f.name := FieldDoc(f, msg, reg, visited, Written(texts, WritesOf(init, msg, reg, visited)))]
    ensures WritesOf(fields, msg, reg, visited)
            == WritesOf(fields[..|fields| - 1], msg, reg, visited)
              + FieldWrites(fields[|fields| - 1], msg, reg, visited)
  {
  }

  // ----- Properties at any depth -----

  /** The message that a field of `msg` expands to, by name. */
  function Target(f: Field, msg: Message, reg: Registry): string {
    RefName(ElementType(f), msg, reg)
  }

  /**
   * A way from `msg` down to a property of its schema: on each level the position of a field, the last
   * of its name, that is expanded there, and on the last level the position of the field itself.
   */
  ghost predicate Reaches(msg: Message, reg: Registry, visited: set<string>, path: seq<nat>)
    decreases |path|
  {
    && path != [] && path[0] < |msg.fields|
    && (forall m | path[0] < m < |msg.fields| :: msg.fields[m].name != msg.fields[path[0]].name)
    && (|path| > 1 ==>
          var fqn := Target(msg.fields[path[0]], msg, reg);
          && ExpandsTo(msg.fields[path[0]], msg, reg, visited, fqn)
          && Reaches(reg.messages[fqn], reg, visited + {fqn}, path[1..]))
  }

  /** A field, the message it is declared in, and the messages being expanded there. */
  datatype Place = Place(field: Field, msg: Message, visited: set<string>)

  ghost function PlaceAt(msg: Message, reg: Registry, visited: set<string>, path: seq<nat>): Place
    requires Reaches(msg, reg, visited, path)
    decreases |path|
  {
    var f := msg.fields[path[0]];
    var fqn := Target(f, msg, reg);
    if |path| == 1 then Place(f, msg, visited) else PlaceAt(reg.messages[fqn], reg, visited + {fqn}, path[1..])
  }

  /** What a conversion has written into shared nodes before the field: on each level, by the fields before. */
  ghost function WritesBefore(msg: Message, reg: Registry, visited: set<string>, path: seq<nat>): (ws: seq<Write>)
    requires Reaches(msg, reg, visited, path)
    ensures ProperWrites(ws)
    decreases |path|
  {
    var fqn := Target(msg.fields[path[0]], msg, reg);
    WritesOf(msg.fields[..path[0]], msg, reg, visited)
    + if |path| == 1 then [] else WritesBefore(reg.messages[fqn], reg, visited + {fqn}, path[1..])
  }

  /** The property within the output, through maps and arrays on the way. */
  ghost function PropertyAt(d: Doc, msg: Message, reg: Registry, visited: set<string>, path: seq<nat>): Option<Doc>
    requires Reaches(msg, reg, visited, path)
    decreases |path|
  {
    var f := msg.fields[path[0]];
    if d.Shared? || f.name !in d.properties then None
    else if |path| == 1 then Some(d.properties[f.name])
    else
      var fqn, element := Target(f, msg, reg), ElementOf(f, d.properties[f.name]);
      if element.None? then None
      else PropertyAt(element.value, reg.messages[fqn], reg, visited + {fqn}, path[1..])
  }

  /** The schema of the field's element type within the schema of the field. */
  function ElementOf(f: Field, d: Doc): Option<Doc> {
    if d.Shared? then None else if f.typ == "map" then d.additional else if f.repeated then d.items else Some(d)
  }

  /** Inside the schema of an expanded field is the schema of the message, with the Description aside. */
  lemma {:induction false} ExpandedElement(f: Field, msg: Message, reg: Registry, visited: set<string>, texts: Texts)
    requires ExpandsTo(f, msg, reg, visited, Target(f, msg, reg))
    ensures var fqn := Target(f, msg, reg);
            var inner := MsgDoc(reg.messages[fqn], reg, visited + {fqn}, texts);
            var element := ElementOf(f, FieldDoc(f, msg, reg, visited, texts));
            element.Some? && element.value.Own? && element.value.properties == inner.properties
  {
    var fqn := Target(f, msg, reg);
    var inner := MsgDoc(reg.messages[fqn], reg, visited + {fqn}, texts);
    assert NamedDoc(fqn, reg, visited, texts) == inner;
    assert TypeDoc(ElementType(f), msg, reg, visited, texts) == inner;
    var bare := BareDoc(f, msg, reg, visited, texts);
    assert bare == if f.typ == "map" then MapDoc(inner) else if f.repeated then ArrayDoc(inner) else inner;
  }

  /** A property at any depth is the copy of its field, made with what was written before it. */
  lemma {:induction false} NestedProperty(msg: Message, reg: Registry, visited: set<string>, texts: Texts,
                                          path: seq<nat>)
    requires Reaches(msg, reg, visited, path)
    ensures var at, now := PlaceAt(msg, reg, visited, path), Written(texts, WritesBefore(msg, reg, visited, path));
            PropertyAt(MsgDoc(msg, reg, visited, texts), msg, reg, visited, path)
            == Some(FieldDoc(at.field, at.msg, reg, at.visited, now))
    decreases |path|
  {
    var here := WritesOf(msg.fields[..path[0]], msg, reg, visited);
    var now := Written(texts, here);
    if |path| == 1 {
      PropertyDocAt(msg.fields, path[0], msg, reg, visited, texts);
      assert here + [] == here;
    } else {
      var fqn := Target(msg.fields[path[0]], msg, reg);
      NestedProperty(reg.messages[fqn], reg, visited + {fqn}, now, path[1..]);
      StepDown(msg, reg, visited, texts, path);
      WritesDown(msg, reg, visited, texts, path);
    }
  }

  /** The place and the writes before it are those of the next level, after the writes of this one. */
  lemma {:induction false} WritesDown(msg: Message, reg: Registry, visited: set<string>, texts: Texts, path: seq<nat>)
    requires Reaches(msg, reg, visited, path) && |path| > 1
    ensures var fqn := Target(msg.fields[path[0]], msg, reg);
            var now := Written(texts, WritesOf(msg.fields[..path[0]], msg, reg, visited));
            && PlaceAt(msg, reg, visited, path) == PlaceAt(reg.messages[fqn], reg, visited + {fqn}, path[1..])
            && Written(texts, WritesBefore(msg, reg, visited, path))
               == Written(now, WritesBefore(reg.messages[fqn], reg, visited + {fqn}, path[1..]))
  {
    var fqn := Target(msg.fields[path[0]], msg, reg);
    WrittenAppend(texts, WritesOf(msg.fields[..path[0]], msg, reg, visited),
                  WritesBefore(reg.messages[fqn], reg, visited + {fqn}, path[1..]));
  }

  /** The way to a nested property leads through the schema of the message on the next level. */
  lemma {:induction false} StepDown(msg: Message, reg: Registry, visited: set<string>, texts: Texts, path: seq<nat>)
    requires Reaches(msg, reg, visited, path) && |path| > 1
    ensures var fqn := Target(msg.fields[path[0]], msg, reg);
            var now := Written(texts, WritesOf(msg.fields[..path[0]], msg, reg, visited));
            PropertyAt(MsgDoc(msg, reg, visited, texts), msg, reg, visited, path)
            == PropertyAt(MsgDoc(reg.messages[fqn], reg, visited + {fqn}, now), reg.messages[fqn], reg,
                          visited + {fqn}, path[1..])
  {
    var f := msg.fields[path[0]];
    var fqn, now := Target(f, msg, reg), Written(texts, WritesOf(msg.fields[..path[0]], msg, reg, visited));
    PropertyDocAt(msg.fields, path[0], msg, reg, visited, texts);
    ExpandedElement(f, msg, reg, visited, now);
    SamePropertiesSameAt(ElementOf(f, FieldDoc(f, msg, reg, visited, now)).value,
                         MsgDoc(reg.messages[fqn], reg, visited + {fqn}, now), reg.messages[fqn], reg,
                         visited + {fqn}, path[1..]);
  }

  lemma SamePropertiesSameAt(a: Doc, b: Doc, msg: Message, reg: Registry, visited: set<string>, path: seq<nat>)
    requires Reaches(msg, reg, visited, path) && a.Own? && b.Own? && a.properties == b.properties
    ensures PropertyAt(a, msg, reg, visited, path) == PropertyAt(b, msg, reg, visited, path)
  {
  }

  /** What was written in a run before the property at the given place of message `j`. */
  ghost function EarlierWrites(msgs: seq<Message>, j: nat, reg: Registry, path: seq<nat>): seq<Write>
    requires j < |msgs| && Reaches(msgs[j], reg, {}, path)
  {
    RunWrites(msgs[..j], reg) + WritesBefore(msgs[j], reg, {}, path)
  }

  lemma {:induction false} OutputProperty(msgs: seq<Message>, j: nat, reg: Registry, texts: Texts, path: seq<nat>)
    requires j < |msgs| && Reaches(msgs[j], reg, {}, path)
    ensures var at := PlaceAt(msgs[j], reg, {}, path);
            PropertyAt(OutputDoc(msgs, j, reg, texts), msgs[j], reg, {}, path)
            == Some(FieldDoc(at.field, at.msg, reg, at.visited, Written(texts, EarlierWrites(msgs, j, reg, path))))
  {
    var earlier := RunWrites(msgs[..j], reg);
    NestedProperty(msgs[j], reg, {}, Written(texts, earlier), path);
    WrittenAppend(texts, earlier, WritesBefore(msgs[j], reg, {}, path));
  }

  /**
   * Over a run, at any depth of any output, a property's Description is not its field's comment exactly
   * when the field has none and takes over another: for a well-known type, exactly when any earlier
   * field of the run wrote to the same node.
   */
  lemma {:induction false} BorrowedInRunIff(msgs: seq<Message>, j: nat, reg: Registry, texts: Texts, path: seq<nat>)
    requires Blank(texts) && j < |msgs| && Reaches(msgs[j], reg, {}, path)
    ensures var at := PlaceAt(msgs[j], reg, {}, path);
            var p := PropertyAt(OutputDoc(msgs, j, reg, texts), msgs[j], reg, {}, path);
            && p.Some? && p.value.Own?
            && (p.value.text != at.field.comment
                <==> at.field.comment == ""
                     && if SharedField(at.field)
                        then WrittenBefore(EarlierWrites(msgs, j, reg, path), TrimDot(at.field.typ))
                        else Inherits(at.field, at.msg, reg, at.visited))
  {
    var at := PlaceAt(msgs[j], reg, {}, path);
    OutputProperty(msgs, j, reg, texts, path);
    DescriptionDiffersIff(at.field, at.msg, reg, at.visited, texts, EarlierWrites(msgs, j, reg, path));
  }

  /**
   * The values of a map, or the items of an array, of a well-known type are the shared node, at any
   * depth: when the output is written out, right after its conversion, they have a Description exactly
   * when some field of the run so far wrote one.
   */
  lemma {:induction false} PointedDescriptionIff(msgs: seq<Message>, j: nat, reg: Registry, texts: Texts,
                                                 path: seq<nat>)
    requires Blank(texts) && j < |msgs| && Reaches(msgs[j], reg, {}, path)
    requires var f := PlaceAt(msgs[j], reg, {}, path).field;
             && (f.typ == "map" || f.repeated)
             && ScalarSchema(ElementType(f)).None? && WellKnownSchema(TrimDot(ElementType(f))).Some?
    ensures var f := PlaceAt(msgs[j], reg, {}, path).field;
            var p := PropertyAt(OutputDoc(msgs, j, reg, texts), msgs[j], reg, {}, path);
            var name, ws := TrimDot(ElementType(f)), RunWrites(msgs[..j + 1], reg);
            && p.Some? && ElementOf(f, p.value) == Some(Shared(name))
            && (TextOf(Written(texts, ws), name) != "" <==> WrittenBefore(ws, name))
  {
    var at := PlaceAt(msgs[j], reg, {}, path);
    var f, now := at.field, Written(texts, EarlierWrites(msgs, j, reg, path));
    OutputProperty(msgs, j, reg, texts, path);
    var element := TypeDoc(ElementType(f), at.msg, reg, at.visited, now);
    assert element == Shared(TrimDot(ElementType(f)));
    assert BareDoc(f, at.msg, reg, at.visited, now) == if f.typ == "map" then MapDoc(element) else ArrayDoc(element);
    ShowsLastWrite(texts, RunWrites(msgs[..j + 1], reg), TrimDot(ElementType(f)));
  }

  /**
   * Both effects of the sharing in one message: the value schema of a map field that comes earlier
   * points to the node that ends with the comment of a field of that type, and the property of an
   * uncommented field that comes later is a copy with that comment.
   */
  lemma {:induction false} CommentShowsElsewhere(earlier: Field, commented: Field, later: Field, msg: Message,
                                                 reg: Registry, texts: Texts)
    requires msg.fields == [earlier, commented, later]
    requires earlier.name != commented.name && earlier.name != later.name && commented.name != later.name
    requires SharedField(commented) && commented.comment != ""
    requires earlier.typ == "map" && earlier.mapValue == commented.typ
    requires SharedField(later) && later.typ == commented.typ && later.comment == ""
    ensures var d, name := MsgDoc(msg, reg, {}, texts), TrimDot(commented.typ);
            && earlier.name in d.properties && later.name in d.properties
            && d.properties[earlier.name].Own? && d.properties[earlier.name].additional == Some(Shared(name))
            && TextOf(Written(texts, MsgWrites(msg, reg, {})), name) == commented.comment
            && d.properties[later.name].Own? && d.properties[later.name].text == commented.comment
  {
    var name := TrimDot(commented.typ);
    FirstWrites(earlier, commented, later, msg, reg);
    PropertyDocAt(msg.fields, 0, msg, reg, {}, texts);
    PropertyDocAt(msg.fields, 2, msg, reg, {}, texts);
    MapOfShared(earlier, msg, reg, Written(texts, WritesOf(msg.fields[..0], msg, reg, {})));
    SharedDescription(later, msg, reg, {}, texts, [Write(name, commented.comment)]);
    ShowsLastWrite(texts, [Write(name, commented.comment)], name);
  }

  lemma MapOfShared(f: Field, msg: Message, reg: Registry, texts: Texts)
    requires f.typ == "map" && ScalarSchema(f.mapValue).None? && WellKnownSchema(TrimDot(f.mapValue)).Some?
    ensures FieldDoc(f, msg, reg, {}, texts).additional == Some(Shared(TrimDot(f.mapValue)))
  {
    assert BareDoc(f, msg, reg, {}, texts) == MapDoc(TypeDoc(f.mapValue, msg, reg, {}, texts));
  }

  lemma FirstWrites(earlier: Field, commented: Field, later: Field, msg: Message, reg: Registry)
    requires msg.fields == [earlier, commented, later]
    requires SharedField(commented) && commented.comment != ""
    requires earlier.typ == "map" && earlier.mapValue == commented.typ
    requires SharedField(later) && later.comment == ""
    ensures var fs, w := msg.fields, Write(TrimDot(commented.typ), commented.comment);
            WritesOf(fs[..2], msg, reg, {}) == [w] && WritesOf(fs, msg, reg, {}) == [w]
  {
    var fs := msg.fields;
    assert fs[..2][..1] == fs[..1] && fs[..1][..0] == [];
    assert FieldWrites(earlier, msg, reg, {}) == [];
    assert FieldWrites(commented, msg, reg, {}) == OwnWrite(commented);
    assert FieldWrites(later, msg, reg, {}) == [];
    assert WritesOf(fs[..1], msg, reg, {}) == [];
    assert WritesOf(fs[..2], msg, reg, {}) == OwnWrite(commented);
  }
}
