// Facts about finite sets that the proofs share.

module Sets {
  ghost function Any<X>(s: set<X>): (x: X)
    requires s != {}
    ensures x in s
  {
    var x :| x in s; x
  }

  // A subset as large as the whole set is the whole set.
  lemma SubsetOfSameSize<X>(a: set<X>, b: set<X>)
    requires a <= b && |a| >= |b|
    ensures a == b
  {
    if b - a != {} {
      var x := Any(b - a);
      assert a <= b - {x};
      SizeOfSubset(a, b - {x});
    }
    assert forall x :: x in b ==> x in a || x in b - a;
  }

  lemma SizeOfSubset<X>(a: set<X>, b: set<X>)
    requires a <= b
    ensures |a| <= |b|
  {
    assert b == a + (b - a);
  }

  lemma SomeLeft<X>(a: set<X>, b: set<X>)
    requires a < b
    ensures b - a != {}
  {
    var x :| x in b && x !in a;
    assert x in b - a;
  }

  // ---------- counting the values of a function ----------

  ghost function Image(f: nat -> nat, n: nat): set<nat> {
    if n == 0 then {} else Image(f, n - 1) + {f(n - 1)}
  }

  lemma {:induction false} ImageSource(f: nat -> nat, n: nat, j: nat) returns (i: nat)
    requires j in Image(f, n)
    ensures i < n && f(i) == j
  {
    if f(n - 1) == j {
      i := n - 1;
    } else {
      i := ImageSource(f, n - 1, j);
    }
  }

  ghost function Below(n: nat): (s: set<nat>)
    ensures forall j :: j in s <==> 0 <= j < n
    ensures |s| == n
  {
    if n == 0 then {} else Below(n - 1) + {n - 1}
  }

  ghost predicate Injective(f: nat -> nat, n: nat) {
    forall i: nat, j: nat :: i < j < n ==> f(i) != f(j)
  }

  lemma {:induction false} ImageSize(f: nat -> nat, n: nat)
    requires Injective(f, n)
    ensures |Image(f, n)| == n
  {
    if n == 0 {
      assert Image(f, n) == {};
    } else {
      ImageSize(f, n - 1);
      if f(n - 1) in Image(f, n - 1) {
        var i := ImageSource(f, n - 1, f(n - 1));
        assert false;
      }
    }
  }

  // An injective function from the numbers below n to themselves is onto.
  lemma Onto(f: nat -> nat, n: nat, j: nat) returns (i: nat)
    requires Injective(f, n) && j < n && forall i: nat :: i < n ==> f(i) < n
    ensures i < n && f(i) == j
  {
    ImageSize(f, n);
    forall x | x in Image(f, n) ensures x in Below(n) {
      var i := ImageSource(f, n, x);
    }
    SubsetOfSameSize(Image(f, n), Below(n));
    i := ImageSource(f, n, j);
  }
}
