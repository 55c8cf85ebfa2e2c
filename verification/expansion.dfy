/** How far the compiler unfolds a message graph, cyclic or not. */
module Expansion {
  import opened Proto
  import opened JsonSchema
  import opened Compiler
  import opened Sets

  /** A chain of nested expansions below the root message, outermost first. */
  ghost predicate Chain(path: seq<string>, reg: Registry) {
    && (forall i | 0 <= i < |path| :: path[i] in reg.messages)
    && (forall i, j | 0 <= i < j < |path| :: path[i] != path[j])
  }

  /** The messages of a chain, which is what the visited map has to hold. */
  ghost function Marked(path: seq<string>): set<string> {
    set i | 0 <= i < |path| :: path[i]
  }

  lemma ExtendChain(path: seq<string>, fqn: string, reg: Registry)
    requires Chain(path, reg) && fqn in reg.messages && fqn !in Marked(path)
    ensures Chain(path + [fqn], reg) && Marked(path + [fqn]) == Marked(path) + {fqn}
  {
    var longer := path + [fqn];
    assert longer[|path|] == fqn;
    assert forall i | 0 <= i < |path| :: longer[i] == path[i];
    forall x | x in Marked(path) ensures x in Marked(longer) {
      var i :| 0 <= i < |path| && path[i] == x;
      assert longer[i] == x;
    }
  }

  lemma {:induction false} ChainSize(path: seq<string>, reg: Registry)
    requires Chain(path, reg)
    ensures |Marked(path)| == |path| && Marked(path) <= reg.messages.Keys
  {
    if path != [] {
      var init, last := path[..|path| - 1], path[|path| - 1];
      ChainSize(init, reg);
      ExtendChain(init, last, reg);
      assert init + [last] == path;
    }
  }

  /** Compiling the field makes the compiler mark and expand the message `fqn`. */
  predicate ExpandsTo(f: Field, msg: Message, reg: Registry, visited: set<string>, fqn: string) {
    var t := ElementType(f);
    && ScalarSchema(t).None? && WellKnownSchema(TrimDot(t)).None? && RefName(t, msg, reg) == fqn
    && fqn !in visited && fqn in reg.messages
  }

  /** Nested expansions below `msg`, outermost first: each is caused by a field of the one before. */
  ghost predicate Expands(msg: Message, reg: Registry, visited: set<string>, path: seq<string>)
    decreases |path|
  {
    path == []
    || ((exists f :: f in msg.fields && ExpandsTo(f, msg, reg, visited, path[0]))
        && Expands(reg.messages[path[0]], reg, visited + {path[0]}, path[1..]))
  }

  /** The compiler expands a message for a field exactly then, and otherwise the field's type adds no properties. */
  lemma {:induction false} ExpandsToIsCompiled(f: Field, msg: Message, reg: Registry, visited: set<string>)
    ensures var t, fqn := ElementType(f), RefName(ElementType(f), msg, reg);
            if ExpandsTo(f, msg, reg, visited, fqn)
            then TypeSchema(t, msg, reg, visited) == MsgSchema(reg.messages[fqn], reg, visited + {fqn})
            else TypeSchema(t, msg, reg, visited).properties == map[]
  {
    var t := ElementType(f);
    if ScalarSchema(t).Some? {
      ScalarLeaf(t);
    } else if WellKnownSchema(TrimDot(t)).Some? {
      WellKnownLeaf(TrimDot(t));
      assert TypeSchema(t, msg, reg, visited) == ReferenceSchema(t, msg, reg, visited);
    } else {
      assert TypeSchema(t, msg, reg, visited) == ReferenceSchema(t, msg, reg, visited);
      assert ReferenceSchema(t, msg, reg, visited) == NamedSchema(RefName(t, msg, reg), reg, visited);
    }
  }

  lemma ScalarLeaf(t: string)
    ensures ScalarSchema(t).Some? ==> ScalarSchema(t).value.properties == map[]
  {
  }

  lemma WellKnownLeaf(t: string)
    ensures WellKnownSchema(t).Some? ==> WellKnownSchema(t).value.properties == map[]
  {
  }

  /** Nested expansions are of registered messages, no two alike and none that was being expanded. */
  lemma {:induction false} ExpandsIsChain(msg: Message, reg: Registry, visited: set<string>, path: seq<string>)
    requires Expands(msg, reg, visited, path)
    ensures Chain(path, reg) && Marked(path) !! visited
    decreases |path|
  {
    if path != [] {
      ExpandsIsChain(reg.messages[path[0]], reg, visited + {path[0]}, path[1..]);
      forall i | 1 <= i < |path| ensures path[i] in reg.messages && path[i] != path[0] && path[i] !in visited {
        assert path[1..][i - 1] == path[i];
        assert path[i] in Marked(path[1..]);
      }
      forall i, j | 1 <= i < j < |path| ensures path[i] != path[j] {
        assert path[1..][i - 1] == path[i] && path[1..][j - 1] == path[j];
      }
    }
  }

  /**
   * On the way from the root to any point of the output, a message other than the root is
   * expanded at most once, the root at most twice, and there are at most |Messages| + 1 expansions.
   */
  lemma {:induction false} ExpansionsBounded(root: Message, path: seq<string>, reg: Registry)
    requires Expands(root, reg, {}, path)
    ensures |[root.fullName] + path| <= |reg.messages| + 1
    ensures forall name :: multiset([root.fullName] + path)[name] <= if name == root.fullName then 2 else 1
  {
    ExpandsIsChain(root, reg, {}, path);
    ChainSize(path, reg);
    SubsetSize(Marked(path), reg.messages.Keys);
    forall name ensures multiset(path)[name] <= 1 {
      ChainCountsOnce(path, reg, name);
    }
  }

  lemma {:induction false} ChainCountsOnce(path: seq<string>, reg: Registry, name: string)
    requires Chain(path, reg)
    ensures multiset(path)[name] <= 1
  {
    if path != [] {
      var init, last := path[..|path| - 1], path[|path| - 1];
      ChainCountsOnce(init, reg, name);
      assert path == init + [last];
      assert forall i | 0 <= i < |init| :: init[i] != last;
      assert last !in multiset(init);
    }
  }

  /** No path of sub-schemas is longer than `n`. */
  predicate DepthAtMost(s: Schema, n: nat)
    decreases s
  {
    && (s.properties != map[] || s.additional.Some? || s.items.Some? ==> n > 0)
    && (forall k | k in s.properties :: DepthAtMost(s.properties[k], n - 1))
    && (s.additional.Some? ==> DepthAtMost(s.additional.value, n - 1))
    && (s.items.Some? ==> DepthAtMost(s.items.value, n - 1))
  }

  lemma {:induction false} DeeperIsFine(s: Schema, m: nat, n: nat)
    requires DepthAtMost(s, m) && m <= n
    ensures DepthAtMost(s, n)
    decreases s
  {
    forall k | k in s.properties ensures DepthAtMost(s.properties[k], n - 1) {
      DeeperIsFine(s.properties[k], m - 1, n - 1);
    }
    if s.additional.Some? {
      DeeperIsFine(s.additional.value, m - 1, n - 1);
    }
    if s.items.Some? {
      DeeperIsFine(s.items.value, m - 1, n - 1);
    }
  }

  /** Each expansion adds at most two levels: the property, and the array or map around it. */
  function DepthBound(reg: Registry, visited: set<string>): nat {
    2 * |Unexpanded(reg, visited)| + 3
  }

  /** The compiled tree is finite and shallow: its depth is linear in the unexpanded messages. */
  lemma {:induction false} MsgDepth(msg: Message, reg: Registry, visited: set<string>)
    ensures DepthAtMost(MsgSchema(msg, reg, visited), DepthBound(reg, visited))
    decreases |Unexpanded(reg, visited)|, 3
  {
    var s, n := MsgSchema(msg, reg, visited), DepthBound(reg, visited);
    forall k | k in s.properties ensures DepthAtMost(s.properties[k], n - 1) {
      PropertiesByName(msg.fields, msg, reg, visited, k);
      FieldDepth(LastField(msg.fields, k).value, msg, reg, visited);
    }
  }

  lemma {:induction false} FieldDepth(f: Field, msg: Message, reg: Registry, visited: set<string>)
    ensures DepthAtMost(FieldSchema(f, msg, reg, visited), DepthBound(reg, visited) - 1)
    decreases |Unexpanded(reg, visited)|, 2
  {
    var t := if f.typ == "map" then f.mapValue else f.typ;
    var inner, n := TypeSchema(t, msg, reg, visited), DepthBound(reg, visited);
    TypeDepth(t, msg, reg, visited);
    WrappedDepth(inner, n - 2);
    DeeperIsFine(inner, n - 2, n - 1);
  }

  lemma WrappedDepth(inner: Schema, n: nat)
    requires DepthAtMost(inner, n)
    ensures DepthAtMost(MapOf(inner), n + 1) && DepthAtMost(ArrayOf(inner), n + 1)
  {
  }

  lemma ScalarDepth(t: string)
    ensures ScalarSchema(t).Some? ==> DepthAtMost(ScalarSchema(t).value, 1)
  {
  }

  lemma GoogleDepth(t: string)
    ensures GoogleSchema(t).Some? ==> DepthAtMost(GoogleSchema(t).value, 1)
  {
  }

  lemma {:induction false} TypeDepth(t: string, msg: Message, reg: Registry, visited: set<string>)
    ensures DepthAtMost(TypeSchema(t, msg, reg, visited), DepthBound(reg, visited) - 2)
    decreases |Unexpanded(reg, visited)|, 1
  {
    var name, n := TrimDot(t), DepthBound(reg, visited) - 2;
    if ScalarSchema(t).Some? {
      ScalarDepth(t);
      DeeperIsFine(ScalarSchema(t).value, 1, n);
    } else if WellKnownSchema(name).Some? {
      GoogleDepth(name[|GOOGLE|..]);
      DeeperIsFine(WellKnownSchema(name).value, 1, n);
    } else {
      NamedDepth(RefName(t, msg, reg), reg, visited);
    }
  }

  lemma {:induction false} NamedDepth(fqn: string, reg: Registry, visited: set<string>)
    ensures DepthAtMost(NamedSchema(fqn, reg, visited), DepthBound(reg, visited) - 2)
    decreases |Unexpanded(reg, visited)|, 0
  {
    if fqn !in visited && fqn in reg.messages {
      ExpansionShrinks(reg, visited, fqn);
      MsgDepth(reg.messages[fqn], reg, visited + {fqn});
      DeeperIsFine(MsgSchema(reg.messages[fqn], reg, visited + {fqn}),
                   DepthBound(reg, visited + {fqn}), DepthBound(reg, visited) - 2);
    }
  }

  /**
   * The bound on the root is reached: the root is not marked at the start, so a field of the
   * root's own type is expanded once more, and only inside that is it cut off.
   */
  lemma RootExpandsTwice(root: Message, f: Field, reg: Registry)
    requires root.fullName in reg.messages && reg.messages[root.fullName] == root && root.fields == [f]
    requires f.typ != "map" && !f.repeated && ScalarSchema(f.typ).None? && WellKnownSchema(TrimDot(f.typ)).None?
    requires RefName(f.typ, root, reg) == root.fullName
    ensures var outer := MessageToSchema(root, reg);
            && outer.properties.Keys == {f.name}
            && outer.properties[f.name] == MsgSchema(root, reg, {root.fullName})
            && outer.properties[f.name].properties == map[f.name := FreeForm("object")]
    ensures Expands(root, reg, {}, [root.fullName])
  {
    var name := root.fullName;
    assert ExpandsTo(f, root, reg, {}, name) && f in root.fields;
    assert Expands(root, reg, {} + {name}, [name][1..]);
    LoneProperty(f, root, reg, {});
    LoneProperty(f, root, reg, {name});
    assert ReferenceSchema(f.typ, root, reg, {}) == NamedSchema(name, reg, {});
    assert ReferenceSchema(f.typ, root, reg, {name}) == NamedSchema(name, reg, {name});
    assert {} + {name} == {name};
  }

  lemma LoneProperty(f: Field, msg: Message, reg: Registry, visited: set<string>)
    ensures Properties([f], msg, reg, visited) == map[f.name := FieldSchema(f, msg, reg, visited)]
  {
    assert [f][..0] == [];
  }
}
