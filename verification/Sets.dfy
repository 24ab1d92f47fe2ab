// Least and greatest elements and cardinality of finite sets of integers.
module Sets {

  ghost predicate IsLeast(k: int, s: set<int>) {
    k in s && forall j :: j in s ==> k <= j
  }

  ghost predicate IsGreatest(k: int, s: set<int>) {
    k in s && forall j :: j in s ==> j <= k
  }

  lemma Inhabited(s: set<int>)
    ensures s == {} || exists x :: x in s
  {
    if !exists x :: x in s {
      assert s == {};
    }
  }

  ghost function Least(s: set<int>): (k: int)
    requires s != {}
    ensures IsLeast(k, s)
  {
    Inhabited(s);
    var x :| x in s;
    if s == {x} then x
    else
      var y := Least(s - {x});
      assert s == s - {x} + {x};
      if x < y then x else y
  }

  ghost function Greatest(s: set<int>): (k: int)
    requires s != {}
    ensures IsGreatest(k, s)
  {
    Inhabited(s);
    var x :| x in s;
    if s == {x} then x
    else
      var y := Greatest(s - {x});
      assert s == s - {x} + {x};
      if x > y then x else y
  }

  lemma LeastUnique(k: int, s: set<int>)
    requires IsLeast(k, s)
    ensures Least(s) == k
  {
  }

  lemma {:induction false} SubsetSize<T>(a: set<T>, b: set<T>)
    requires a <= b
    ensures |a| <= |b|
  {
    if a == {} {
    } else {
      var x :| x in a;
      SubsetSize(a - {x}, b - {x});
    }
  }
}
