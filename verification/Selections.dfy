/**
  What it means that one list holds, in order, something for each entry of another that passes a test.
 */
module Selections {

  /** `r` is what f makes of the entries of s that pass the test, at the positions `at`, from front to back:
      every entry that passes is there, as often as it is listed, and no other. */
  ghost predicate Selects<T(!new), U(!new)>(s: seq<T>, p: T -> bool, f: T -> U, at: seq<nat>, r: seq<U>) {
    && |at| == |r|
    && (forall k :: 0 <= k < |at| ==> at[k] < |s| && r[k] == f(s[at[k]]))
    && (forall j, k :: 0 <= j < k < |at| ==> at[j] < at[k])
    && (forall i: nat :: i < |s| ==> (p(s[i]) <==> i in at))
  }

  // What is selected is taken as it is.
  function Same<T>(x: T): T { x }

  lemma NoEntries<T(!new), U(!new)>(p: T -> bool, f: T -> U)
    ensures Selects([], p, f, [], [])
  {
  }

  lemma OneMoreEntry<T(!new), U(!new)>(s: seq<T>, x: T, p: T -> bool, f: T -> U, at: seq<nat>, r: seq<U>)
    requires Selects(s, p, f, at, r)
    ensures Selects(s + [x], p, f, if p(x) then at + [|s|] else at, if p(x) then r + [f(x)] else r)
  {
    var t, bt := s + [x], if p(x) then at + [|s|] else at;
    assert forall i :: 0 <= i < |s| ==> t[i] == s[i];
    forall i: nat | i < |t| ensures p(t[i]) <==> i in bt {
      if i == |s| {
        assert p(x) ==> bt[|at|] == i;
      } else {
        assert i in at <==> i in bt;
      }
    }
  }

  // Tests that agree on a list select the same of it.
  lemma SameTest<T(!new), U(!new)>(s: seq<T>, p: T -> bool, q: T -> bool, f: T -> U, at: seq<nat>, r: seq<U>)
    requires Selects(s, p, f, at, r) && forall x :: x in s ==> (p(x) <==> q(x))
    ensures Selects(s, q, f, at, r)
  {
  }

  // Selecting from a selection.
  lemma SelectsTwice<T(!new)>(s: seq<T>, p: T -> bool, at: seq<nat>, t: seq<T>,
                              q: T -> bool, bt: seq<nat>, r: seq<T>) returns (ct: seq<nat>)
    requires Selects(s, p, Same, at, t) && Selects(t, q, Same, bt, r)
    ensures Selects(s, (x: T) => p(x) && q(x), Same, ct, r)
  {
    ct := seq(|bt|, k requires 0 <= k < |bt| => at[bt[k]]);
    forall k | 0 <= k < |ct| ensures ct[k] < |s| && p(s[ct[k]]) && q(s[ct[k]]) && r[k] == s[ct[k]] {
      assert bt[k] in bt && at[bt[k]] in at && t[bt[k]] == s[ct[k]];
    }
    forall i: nat | i < |s| && p(s[i]) && q(s[i]) ensures i in ct {
      var j: nat :| j < |at| && at[j] == i;
      assert t[j] == s[i] && j in bt;
      var k: nat :| k < |bt| && bt[k] == j;
      assert ct[k] == i;
    }
  }
}
