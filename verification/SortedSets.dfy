/** Sets of numbers as ordered lists. */
module SortedSets {
  import opened Wrappers

  ghost predicate IsLeast(m: Option<nat>, s: set<nat>) {
    if m.Some? then m.value in s && forall x :: x in s ==> m.value <= x else s == {}
  }

  ghost function Least(s: set<nat>): (m: Option<nat>)
    ensures IsLeast(m, s)
  {
    if s == {} then None
    else
      var x :| x in s;
      var rest := Least(s - {x});
      assert s == s - {x} + {x};
      if rest.Some? && rest.value < x then rest else Some(x)
  }

  lemma LeastUnique(a: Option<nat>, b: Option<nat>, s: set<nat>)
    requires IsLeast(a, s) && IsLeast(b, s)
    ensures a == b
  {
  }

  /** The keys of a map in increasing order, as iteration over an ordered map yields them. */
  method SortedKeys(keys: set<nat>) returns (ks: seq<nat>)
    ensures forall i, j :: 0 <= i < j < |ks| ==> ks[i] < ks[j]
    ensures forall k: nat :: k in ks <==> k in keys
  {
    ks := [];
    var rest := keys;
    while rest != {}
      invariant rest <= keys
      invariant forall i, j :: 0 <= i < j < |ks| ==> ks[i] < ks[j]
      invariant forall k: nat :: k in ks <==> k in keys - rest
      invariant forall i, k: nat :: 0 <= i < |ks| && k in rest ==> ks[i] < k
      decreases rest
    {
      var least := LeastKey(rest);
      ks := ks + [least];
      rest := rest - {least};
    }
  }

  method LeastKey(keys: set<nat>) returns (m: nat)
    requires keys != {}
    ensures m in keys && forall k: nat :: k in keys ==> m <= k
  {
    m :| m in keys;
    var rest := keys - {m};
    while rest != {}
      invariant rest <= keys && m in keys
      invariant forall k: nat :: k in keys && k !in rest ==> m <= k
      decreases rest
    {
      var k :| k in rest;
      if k < m {
        m := k;
      }
      rest := rest - {k};
    }
  }
}
