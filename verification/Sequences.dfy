/** Facts about sequences and finite sets that several components share. */
module Sequences {

  /** No element occurs twice. */
  ghost predicate NoDup<T>(s: seq<T>) {
    forall i, j :: 0 <= i < j < |s| ==> s[i] != s[j]
  }

  lemma NoDupConcat<T>(a: seq<T>, b: seq<T>)
    requires NoDup(a) && NoDup(b)
    requires forall x :: x in a ==> x !in b
    ensures NoDup(a + b)
  {
    forall i, j | 0 <= i < j < |a + b| ensures (a + b)[i] != (a + b)[j] {
      if i < |a| <= j { assert a[i] in a && b[j - |a|] in b; }
    }
  }

  /** A duplicate-free sequence drawn from another is no longer than it. */
  lemma {:induction false} NoDupFitsIn<T>(s: seq<T>, t: seq<T>)
    requires NoDup(s)
    requires forall x :: x in s ==> x in t
    ensures |s| <= |t|
  {
    if s != [] {
      assert s[0] in t;
      var k :| 0 <= k < |t| && t[k] == s[0];
      var rest := t[..k] + t[k + 1..];
      assert t == t[..k] + [t[k]] + t[k + 1..];
      forall x | x in s[1..] ensures x in rest {
        var i :| 0 <= i < |s[1..]| && s[1..][i] == x;
        assert s[i + 1] == x && x != s[0];
        assert x in t;
      }
      NoDupFitsIn(s[1..], rest);
    }
  }

  /** The same for a set: at most |t| distinct things lie in t. */
  lemma {:induction false} NoDupFitsInSet<T>(s: seq<T>, t: set<T>)
    requires NoDup(s)
    requires forall x :: x in s ==> x in t
    ensures |s| <= |t|
  {
    if s != [] {
      assert s[0] in s;
      forall x | x in s[1..] ensures x in t - {s[0]} {
        var i :| 0 <= i < |s[1..]| && s[1..][i] == x;
        assert s[i + 1] == x && x != s[0];
      }
      NoDupFitsInSet(s[1..], t - {s[0]});
    }
  }

  ghost function Pick<T>(s: set<T>): (x: T)
    requires s != {}
    ensures x in s
  {
    var x :| x in s; x
  }

  ghost function KeyOf<K, V>(m: map<K, V>, v: V): (k: K)
    requires v in m.Values
    ensures k in m && m[k] == v
  {
    var k :| k in m && m[k] == v; k
  }

  /** A finite set of ids never exhausts the ids: the database can always pick a new one. */
  lemma {:induction false} FreshIdExists(used: set<int>)
    ensures exists id: int :: id !in used
  {
    assert UpperBound(used) !in used;
  }

  ghost function UpperBound(used: set<int>): (top: nat)
    ensures forall x :: x in used ==> x < top
  {
    if used == {} then 0
    else
      var x := Pick(used);
      var rest := UpperBound(used - {x});
      assert forall y :: y in used ==> y == x || y in used - {x};
      if rest <= x then x + 1 else rest
  }
}
