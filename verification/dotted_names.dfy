/** Fully-qualified proto names: strings of identifiers separated by dots. */
module DottedNames {

  /** Go's `strings.Split(s, ".")`: never empty, and empty parts are kept. */
  function Split(s: string): (parts: seq<string>)
    ensures |parts| >= 1
  {
    if s == "" then [""] else Push(s[0], Split(s[1..]))
  }

  function Push(c: char, parts: seq<string>): (r: seq<string>)
    requires |parts| >= 1
    ensures |r| >= 1
  {
    if c == '.' then [""] + parts else [[c] + parts[0]] + parts[1..]
  }

  /** Go's `strings.Join(parts, ".")`. */
  function Join(parts: seq<string>): (s: string) {
    if |parts| == 0 then ""
    else if |parts| == 1 then parts[0]
    else parts[0] + "." + Join(parts[1..])
  }

  predicate DotFree(s: string) {
    '.' !in s
  }

  /** A simple proto identifier, as far as name building is concerned. */
  predicate Identifier(s: string) {
    s != "" && DotFree(s)
  }

  /** `p` is `s` itself or an enclosing scope of `s`: a prefix that ends at a dot of `s`. */
  predicate Scope(p: string, s: string) {
    |p| <= |s| && s[..|p|] == p && (|p| < |s| ==> s[|p|] == '.')
  }

  lemma {:induction false} JoinSplit(s: string)
    ensures Join(Split(s)) == s
  {
    if s != "" {
      JoinSplit(s[1..]);
      var rest := Split(s[1..]);
      if s[0] == '.' {
        assert ([""] + rest)[1..] == rest;
      } else {
        assert ([[s[0]] + rest[0]] + rest[1..])[1..] == rest[1..];
      }
    }
  }

  lemma PushAppend(c: char, a: seq<string>, b: seq<string>)
    requires |a| >= 1
    ensures Push(c, a + b) == Push(c, a) + b
  {
    assert (a + b)[1..] == a[1..] + b;
  }

  lemma {:induction false} SplitAtDot(p: string, q: string)
    ensures Split(p + "." + q) == Split(p) + Split(q)
  {
    var s := p + "." + q;
    if p == "" {
      assert s[1..] == q;
    } else {
      assert s[0] == p[0] && s[1..] == p[1..] + "." + q;
      SplitAtDot(p[1..], q);
      PushAppend(p[0], Split(p[1..]), Split(q));
    }
  }

  lemma {:induction false} JoinAt(parts: seq<string>, i: nat)
    requires 0 < i < |parts|
    ensures Join(parts) == Join(parts[..i]) + "." + Join(parts[i..])
  {
    if i == 1 {
      assert parts[..1] == [parts[0]];
    } else {
      JoinAt(parts[1..], i - 1);
      assert parts[..i][1..] == parts[1..][..i - 1];
      assert parts[1..][i - 1..] == parts[i..];
    }
  }

  /** Joining the first `i` parts yields a scope of the name ... */
  lemma JoinedPartsAreScope(s: string, i: nat)
    requires 1 <= i <= |Split(s)|
    ensures Scope(Join(Split(s)[..i]), s)
  {
    var parts := Split(s);
    JoinSplit(s);
    if i < |parts| {
      JoinAt(parts, i);
    } else {
      assert parts[..i] == parts;
    }
  }

  /** ... and every scope of the name arises in that way, from as many parts as it has itself. */
  lemma {:induction false} ScopeIsJoinedParts(p: string, s: string)
    requires Scope(p, s)
    ensures |Split(p)| <= |Split(s)|
    ensures Split(s)[..|Split(p)|] == Split(p)
    ensures Join(Split(p)) == p
  {
    JoinSplit(p);
    if |p| < |s| {
      assert s == p + "." + s[|p| + 1..];
      SplitAtDot(p, s[|p| + 1..]);
    } else {
      assert p == s;
    }
  }

  lemma {:induction false} MorePartsAreLonger(parts: seq<string>, i: nat, j: nat)
    requires 1 <= i < j <= |parts|
    ensures |Join(parts[..i])| < |Join(parts[..j])|
  {
    JoinAt(parts[..j], i);
    assert parts[..j][..i] == parts[..i];
  }

  lemma ScopeTransitive(p: string, q: string, s: string)
    requires Scope(p, q) && Scope(q, s)
    ensures Scope(p, s)
  {
    assert s[..|p|] == q[..|p|];
  }

  lemma ShorterSiblingEndsAtDot(base: string, a: string, b: string, s: string)
    requires |a| < |b| && Scope(base + a, s) && Scope(base + b, s)
    ensures b[|a|] == '.'
  {
    assert s[|base + a|] == (base + b)[|base| + |a|] == b[|a|];
  }

  /** Two dot-free names extending one base cannot both be scopes of the same name. */
  lemma SiblingScopesDiffer(base: string, a: string, b: string, s: string)
    requires DotFree(a) && DotFree(b)
    requires Scope(base + a, s) && Scope(base + b, s)
    ensures a == b
  {
    if |a| < |b| {
      ShorterSiblingEndsAtDot(base, a, b, s);
    } else if |b| < |a| {
      ShorterSiblingEndsAtDot(base, b, a, s);
    }
    assert a == s[|base|..|base| + |a|];
    assert b == s[|base|..|base| + |b|];
  }
}
