/** Resolution of a possibly relative type name against the scopes that enclose its use. */
module Resolve {
  import opened Options
  import opened DottedNames
  import opened Proto

  /** Candidates under the first `i` parts of a scope, then under fewer parts. */
  function Walk(typeName: string, parts: seq<string>, i: nat, reg: Registry): (r: Option<string>)
    requires i <= |parts|
  {
    if i == 0 then None
    else
      var candidate := Join(parts[..i]) + "." + typeName;
      if InRegistry(candidate, reg) then Some(candidate) else Walk(typeName, parts, i - 1, reg)
  }

  function WalkScope(typeName: string, scope: string, reg: Registry): (r: Option<string>) {
    Walk(typeName, Split(scope), |Split(scope)|, reg)
  }

  /** What `resolveFQN` computes: bare name, then message scopes, then package scopes. */
  function ResolveFQN(typeName: string, pkg: string, msgFQN: string, reg: Registry): (fqn: string) {
    if InRegistry(typeName, reg) then typeName
    else
      var inner := if msgFQN != "" then WalkScope(typeName, msgFQN, reg) else None;
      if inner.Some? then inner.value
      else
        var outer := WalkScope(typeName, pkg, reg);
        if outer.Some? then outer.value else typeName
  }

  /** The two loops of `resolveFQN`. */
  method ResolveName(typeName: string, pkg: string, msgFQN: string, reg: Registry) returns (fqn: string)
    ensures fqn == ResolveFQN(typeName, pkg, msgFQN, reg)
  {
    if InRegistry(typeName, reg) {
      return typeName;
    }
    if msgFQN != "" {
      var parts := Split(msgFQN);
      var i := |parts|;
      while i > 0
        invariant 0 <= i <= |parts|
        invariant WalkScope(typeName, msgFQN, reg) == Walk(typeName, parts, i, reg)
      {
        var candidate := Join(parts[..i]) + "." + typeName;
        if InRegistry(candidate, reg) {
          return candidate;
        }
        i := i - 1;
      }
    }
    var parts := Split(pkg);
    var i := |parts|;
    while i > 0
      invariant 0 <= i <= |parts|
      invariant WalkScope(typeName, pkg, reg) == Walk(typeName, parts, i, reg)
    {
      var candidate := Join(parts[..i]) + "." + typeName;
      if InRegistry(candidate, reg) {
        return candidate;
      }
      i := i - 1;
    }
    return typeName;
  }

  /** Resolution depends on a registry only through the names in it. */
  lemma SameResolution(typeName: string, pkg: string, msgFQN: string, p: Registry, q: Registry)
    requires forall name :: InRegistry(name, p) <==> InRegistry(name, q)
    ensures ResolveFQN(typeName, pkg, msgFQN, p) == ResolveFQN(typeName, pkg, msgFQN, q)
  {
    SameWalk(typeName, Split(msgFQN), |Split(msgFQN)|, p, q);
    SameWalk(typeName, Split(pkg), |Split(pkg)|, p, q);
  }

  lemma {:induction false} SameWalk(typeName: string, parts: seq<string>, i: nat, p: Registry, q: Registry)
    requires i <= |parts| && forall name :: InRegistry(name, p) <==> InRegistry(name, q)
    ensures Walk(typeName, parts, i, p) == Walk(typeName, parts, i, q)
  {
    if i > 0 {
      SameWalk(typeName, parts, i - 1, p, q);
    }
  }

  /** `fqn` is the registered candidate under the longest scope of `scope` that has one. */
  ghost predicate InnermostCandidate(fqn: string, typeName: string, scope: string, reg: Registry) {
    exists p :: Scope(p, scope) && fqn == p + "." + typeName && InRegistry(fqn, reg)
                && NoneInside(p, typeName, scope, reg)
  }

  ghost predicate NoneInside(p: string, typeName: string, scope: string, reg: Registry) {
    forall q :: Scope(q, scope) && |q| > |p| ==> !InRegistry(q + "." + typeName, reg)
  }

  ghost predicate NoCandidate(typeName: string, scope: string, reg: Registry) {
    forall q :: Scope(q, scope) ==> !InRegistry(q + "." + typeName, reg)
  }

  /** The innermost-first rule: nearest enclosing scope that defines the name, else the global scope. */
  ghost predicate InnermostFirst(fqn: string, typeName: string, scope: string, reg: Registry) {
    || InnermostCandidate(fqn, typeName, scope, reg)
    || (NoCandidate(typeName, scope, reg) && fqn == typeName)
  }

  lemma {:induction false} WalkFindsLongest(typeName: string, parts: seq<string>, i: nat, reg: Registry)
    requires i <= |parts|
    ensures match Walk(typeName, parts, i, reg)
            case None => forall j :: 1 <= j <= i ==> !InRegistry(Join(parts[..j]) + "." + typeName, reg)
            case Some(fqn) => exists j :: 1 <= j <= i && fqn == Join(parts[..j]) + "." + typeName
                                          && InRegistry(fqn, reg)
                                          && forall k ::
                                            j < k <= i ==> !InRegistry(Join(parts[..k]) + "." + typeName, reg)
  {
    if i > 0 && !InRegistry(Join(parts[..i]) + "." + typeName, reg) {
      WalkFindsLongest(typeName, parts, i - 1, reg);
    }
  }

  /** A walk over a scope is the innermost-first search of that scope. */
  lemma WalkScopeIsInnermost(typeName: string, scope: string, reg: Registry)
    ensures match WalkScope(typeName, scope, reg)
            case None => NoCandidate(typeName, scope, reg)
            case Some(fqn) => InnermostCandidate(fqn, typeName, scope, reg) && !NoCandidate(typeName, scope, reg)
  {
    var parts := Split(scope);
    WalkFindsLongest(typeName, parts, |parts|, reg);
    match WalkScope(typeName, scope, reg)
    case None =>
      forall q | Scope(q, scope) ensures !InRegistry(q + "." + typeName, reg) {
        ScopeIsJoinedParts(q, scope);
      }
    case Some(fqn) =>
      var j :| 1 <= j <= |parts| && fqn == Join(parts[..j]) + "." + typeName && InRegistry(fqn, reg)
               && forall k :: j < k <= |parts| ==> !InRegistry(Join(parts[..k]) + "." + typeName, reg);
      var p := Join(parts[..j]);
      JoinedPartsAreScope(scope, j);
      forall q | Scope(q, scope) && |q| > |p| ensures !InRegistry(q + "." + typeName, reg) {
        ScopeIsJoinedParts(q, scope);
        var k := |Split(q)|;
        if k < j {
          MorePartsAreLonger(parts, k, j);
        }
      }
      assert NoneInside(p, typeName, scope, reg);
  }

  lemma InnermostUnique(a: string, b: string, typeName: string, scope: string, reg: Registry)
    requires InnermostFirst(a, typeName, scope, reg) && InnermostFirst(b, typeName, scope, reg)
    ensures a == b
  {
    if InnermostCandidate(a, typeName, scope, reg) && InnermostCandidate(b, typeName, scope, reg) {
      var p :| Scope(p, scope) && a == p + "." + typeName && InRegistry(a, reg) && NoneInside(p, typeName, scope, reg);
      var q :| Scope(q, scope) && b == q + "." + typeName && InRegistry(b, reg) && NoneInside(q, typeName, scope, reg);
      assert |p| == |q|;
      assert p == scope[..|p|] == q;
    }
  }

  /** The name facts that the parser establishes for each message it registers. */
  ghost predicate ParserNames(msgFQN: string, pkg: string, reg: Registry) {
    && msgFQN != ""
    && (pkg == "" || Scope(pkg, msgFQN))
    && forall name :: InRegistry(name, reg) ==> name != "" && name[0] != '.'
  }

  /** For parser-built names the package walk finds nothing that the message walk missed. */
  lemma PackageWalkIsRedundant(typeName: string, pkg: string, msgFQN: string, reg: Registry)
    requires ParserNames(msgFQN, pkg, reg)
    requires NoCandidate(typeName, msgFQN, reg)
    ensures WalkScope(typeName, pkg, reg) == None
  {
    WalkScopeIsInnermost(typeName, pkg, reg);
    forall q | Scope(q, pkg) ensures !InRegistry(q + "." + typeName, reg) {
      if pkg == "" {
        assert q == "";
        assert ("" + "." + typeName)[0] == '.';
      } else {
        ScopeTransitive(q, pkg, msgFQN);
      }
    }
  }

  /**
   * For any names: the bare name if it is registered, else the innermost candidate among the scopes of the
   * message, if it has a name, else that among the scopes of the package, else the bare name.
   */
  lemma ResolveDescribed(typeName: string, pkg: string, msgFQN: string, reg: Registry)
    ensures var fqn := ResolveFQN(typeName, pkg, msgFQN, reg);
            if InRegistry(typeName, reg) then fqn == typeName
            else if msgFQN != "" && !NoCandidate(typeName, msgFQN, reg)
            then InnermostCandidate(fqn, typeName, msgFQN, reg)
            else if !NoCandidate(typeName, pkg, reg) then InnermostCandidate(fqn, typeName, pkg, reg)
            else fqn == typeName
  {
    WalkScopeIsInnermost(typeName, msgFQN, reg);
    WalkScopeIsInnermost(typeName, pkg, reg);
  }

  /**
   * For parser-built names `resolveFQN` follows the innermost-first rule exactly when the bare
   * name is unregistered or no enclosing scope defines the name.
   */
  lemma ResolveIsInnermostFirst(typeName: string, pkg: string, msgFQN: string, reg: Registry)
    requires ParserNames(msgFQN, pkg, reg)
    ensures InnermostFirst(ResolveFQN(typeName, pkg, msgFQN, reg), typeName, msgFQN, reg)
            <==> !InRegistry(typeName, reg) || NoCandidate(typeName, msgFQN, reg)
  {
    WalkScopeIsInnermost(typeName, msgFQN, reg);
    if InRegistry(typeName, reg) {
      forall p ensures typeName != p + "." + typeName {
        assert |typeName| < |p + "." + typeName|;
      }
    } else if NoCandidate(typeName, msgFQN, reg) {
      PackageWalkIsRedundant(typeName, pkg, msgFQN, reg);
    }
  }

  /** A registry in which trying the bare name first picks the outer `T` over the sibling `p.T`. */
  lemma BareNameShadowsInnerScope()
    ensures exists reg: Registry, m: Message :: && m in reg.messages.Values && ParserNames(m.fullName, m.pkg, reg)
                             && ResolveFQN("T", m.pkg, m.fullName, reg) == "T"
                             && InnermostFirst("p.T", "T", m.fullName, reg)
  {
    var m := Message("p.M", "M", "p", [], "");
    var reg := Registry(map["p.M" := m, "T" := Message("T", "T", "", [], "")], map["p.T" := Enum("p.T", [])]);
    assert reg.messages["p.M"] == m;
    assert Scope("p", "p.M");
    assert "p" + "." + "T" == "p.T";
    assert NoneInside("p", "T", "p.M", reg) by {
      forall q | Scope(q, "p.M") && |q| > 1 ensures !InRegistry(q + "." + "T", reg) {
        assert |q| >= 2;
        assert |q + "." + "T"| >= 4;
        assert |"p.M"| == 3 && |"p.T"| == 3 && |"T"| == 1;
      }
    }
    assert InnermostCandidate("p.T", "T", "p.M", reg);
  }
}
