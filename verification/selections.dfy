/** What it means that one sequence is a selection from another: by positions, in order, leaving none out. */
module Selections {

  /** `l` has, in order, exactly the elements of `s` at the positions `ps`, which are those to keep. */
  ghost predicate Picks<T(!new)>(s: seq<T>, keep: T -> bool, ps: seq<nat>, l: seq<T>) {
    && |ps| == |l|
    && (forall n | 0 <= n < |ps| :: ps[n] < |s| && keep(s[ps[n]]) && l[n] == s[ps[n]])
    && (forall m, n | 0 <= m < n < |ps| :: ps[m] < ps[n])
    && (forall i: nat {:trigger i in ps} | i < |s| && keep(s[i]) :: i in ps)
  }

  ghost predicate Selected<T(!new)>(s: seq<T>, keep: T -> bool, l: seq<T>) {
    exists ps: seq<nat> :: Picks(s, keep, ps, l)
  }

  lemma NothingSelected<T(!new)>(keep: T -> bool)
    ensures Selected([], keep, [])
  {
    assert Picks([], keep, [], []);
  }

  lemma {:induction false} SelectNext<T(!new)>(s: seq<T>, keep: T -> bool, l: seq<T>, x: T)
    requires Selected(s, keep, l)
    ensures Selected(s + [x], keep, l + if keep(x) then [x] else [])
  {
    var ps: seq<nat> :| Picks(s, keep, ps, l);
    if keep(x) {
      PickOneMore(s, keep, ps, l, x);
    } else {
      PickNoMore(s, keep, ps, l, x);
      assert l + [] == l;
    }
  }

  lemma {:induction false} PickOneMore<T(!new)>(s: seq<T>, keep: T -> bool, ps: seq<nat>, l: seq<T>, x: T)
    requires Picks(s, keep, ps, l) && keep(x)
    ensures Picks(s + [x], keep, ps + [|s|], l + [x])
  {
    var all, qs := s + [x], ps + [|s|];
    forall n | 0 <= n < |qs| ensures qs[n] < |all| && keep(all[qs[n]]) && (l + [x])[n] == all[qs[n]] {
      if n < |ps| {
        assert all[ps[n]] == s[ps[n]];
      }
    }
    forall i: nat | i < |all| && keep(all[i]) ensures i in qs {
      if i < |s| {
        assert s[i] == all[i];
        assert i in ps;
      } else {
        assert qs[|ps|] == i;
      }
    }
  }

  lemma {:induction false} PickNoMore<T(!new)>(s: seq<T>, keep: T -> bool, ps: seq<nat>, l: seq<T>, x: T)
    requires Picks(s, keep, ps, l) && !keep(x)
    ensures Picks(s + [x], keep, ps, l)
  {
    var all := s + [x];
    forall i: nat | i < |all| && keep(all[i]) ensures i in ps {
      assert s[i] == all[i];
    }
    forall n | 0 <= n < |ps| ensures all[ps[n]] == s[ps[n]] {
    }
  }

  lemma {:induction false} SameElements<T(!new)>(s: seq<T>, keep: T -> bool, l: seq<T>, x: T)
    requires Selected(s, keep, l)
    ensures x in l <==> x in s && keep(x)
  {
    var ps: seq<nat> :| Picks(s, keep, ps, l);
    if x in s && keep(x) {
      var i: nat :| i < |s| && s[i] == x;
      assert i in ps;
      var n :| 0 <= n < |ps| && ps[n] == i;
      assert l[n] == x;
    }
  }

  /** The selection is determined by what is kept. */
  lemma {:induction false} SelectionUnique<T(!new)>(s: seq<T>, keep: T -> bool, a: seq<T>, b: seq<T>)
    requires Selected(s, keep, a) && Selected(s, keep, b)
    ensures a == b
  {
    var ps: seq<nat> :| Picks(s, keep, ps, a);
    var qs: seq<nat> :| Picks(s, keep, qs, b);
    IncreasingUnique(ps, qs);
  }

  ghost predicate Increasing(ps: seq<nat>) {
    forall m, n | 0 <= m < n < |ps| :: ps[m] < ps[n]
  }

  lemma {:induction false} IncreasingUnique(ps: seq<nat>, qs: seq<nat>)
    requires Increasing(ps) && Increasing(qs) && forall i :: i in ps <==> i in qs
    ensures ps == qs
  {
    if ps != [] && qs != [] {
      var m, n := |ps| - 1, |qs| - 1;
      LastIsLargest(ps, qs[n]);
      LastIsLargest(qs, ps[m]);
      forall i ensures i in ps[..m] <==> i in qs[..n] {
        InInit(ps, i);
        InInit(qs, i);
      }
      IncreasingUnique(ps[..m], qs[..n]);
      assert ps == ps[..m] + [ps[m]] && qs == qs[..n] + [qs[n]];
    } else {
      FirstIsIn(ps);
      FirstIsIn(qs);
    }
  }

  lemma FirstIsIn(ps: seq<nat>)
    ensures ps != [] ==> ps[0] in ps
  {
  }

  lemma LastIsLargest(ps: seq<nat>, i: nat)
    requires ps != [] && Increasing(ps) && i in ps
    ensures i <= ps[|ps| - 1] && ps[|ps| - 1] in ps
  {
  }

  lemma InInit(ps: seq<nat>, i: nat)
    requires ps != [] && Increasing(ps)
    ensures i in ps[..|ps| - 1] <==> i in ps && i != ps[|ps| - 1]
  {
  }
}
