// The probe sequences of src/targetset.c: double hashing on the address of a target
// in a table whose size is a power of two.

module Probing {
  import opened Sets

  // A target is a positive address, NULL is 0.  The C code truncates both parts of
  // the hash to int; as sizes divide 2^32, that changes no slot number.
  type Key = nat

  ghost predicate PowerOfTwo(n: nat) {
    n == 1 || (n > 1 && n % 2 == 0 && PowerOfTwo(n / 2))
  }

  lemma Doubled(n: nat)
    requires PowerOfTwo(n)
    ensures PowerOfTwo(n * 2) && n >= 1
  {
    assert (n * 2) / 2 == n;
  }

  // a & b, bit by bit.
  function BitAnd(a: nat, b: nat): nat {
    if a == 0 || b == 0 then 0
    else 2 * BitAnd(a / 2, b / 2) + if a % 2 == 1 && b % 2 == 1 then 1 else 0
  }

  // Hash & Mask for a table of the given size.  Written as repeated subtraction, which
  // keeps bits and products out of the proofs; MaskedIsAnd and MaskedIsRemainder say
  // what it computes.
  function Masked(x: nat, size: nat): (j: nat)
    requires size > 0
    ensures j < size
  {
    if x < size then x else Masked(x - size, size)
  }

  lemma {:induction false} MaskedHalves(x: nat, half: nat)
    requires half > 0
    ensures Masked(x, 2 * half) == 2 * Masked(x / 2, half) + x % 2
    decreases x
  {
    if x < 2 * half {
      assert x / 2 < half;
    } else {
      MaskedHalves(x - 2 * half, half);
      assert (x - 2 * half) / 2 == x / 2 - half;
    }
  }

  lemma {:induction false} MaskedByOne(x: nat)
    ensures Masked(x, 1) == 0
  {
    if x == 0 {
    } else {
      MaskedByOne(x - 1);
    }
  }

  // With a power of two, the bits below it are what is left.
  lemma {:induction false} MaskedIsAnd(x: nat, size: nat)
    requires PowerOfTwo(size)
    ensures Masked(x, size) == BitAnd(x, size - 1)
    decreases size
  {
    if size == 1 {
      MaskedByOne(x);
    } else {
      var half := size / 2;
      assert (size - 1) / 2 == half - 1 && (size - 1) % 2 == 1;
      MaskedIsAnd(x / 2, half);
      MaskedHalves(x, half);
    }
  }

  lemma MaskedIsRemainder(x: nat, size: nat)
    requires size > 0
    ensures Masked(x, size) == x % size
  {
    Divided(x, size);
    assert x == (x / size) * size + x % size;
    UniqueRemainder(size, x / size, x % size, Quotient(x, size), Masked(x, size));
  }

  lemma UniqueRemainder(n: nat, p: int, m: nat, q: int, r: nat)
    requires m < n && r < n && p * n + m == q * n + r
    ensures m == r
  {
    Distribute(p, q, n);
    MultipleAtLeast(p - q, n);
  }

  lemma MultipleAtLeast(e: int, n: nat)
    ensures e >= 1 ==> e * n >= n
    ensures e <= -1 ==> e * n <= -(n as int)
  {
    if e >= 1 {
      Distribute(e - 1, 1, n);
    } else {
      Distribute(e + 1, 1, n);
    }
  }

  function Home(k: Key, size: nat): nat
    requires size > 0
  {
    Masked(k / 16, size)
  }

  // (address >> 8) | 1
  function Stride(k: Key): (stride: nat)
    ensures stride % 2 == 1
  {
    var s := k / 256;
    if s % 2 == 0 then s + 1 else s
  }

  // The slot the search for k looks at after i steps.
  function Probe(k: Key, size: nat, i: nat): (j: nat)
    requires size > 0
    ensures j < size
  {
    if i == 0 then Home(k, size) else Masked(Probe(k, size, i - 1) + Stride(k), size)
  }

  // How often the first i steps have wrapped round the end of the table.
  ghost function Wraps(k: Key, size: nat, i: nat): int
    requires size > 0
  {
    if i == 0 then 0 else Wraps(k, size, i - 1) + Quotient(Probe(k, size, i - 1) + Stride(k), size)
  }

  ghost function Quotient(x: nat, size: nat): nat
    requires size > 0
  {
    if x < size then 0 else Quotient(x - size, size) + 1
  }

  lemma Distribute(a: int, b: int, c: int)
    ensures (a + b) * c == a * c + b * c
    ensures (a - b) * c == a * c - b * c
  {}

  lemma {:induction false} Divided(x: nat, size: nat)
    requires size > 0
    ensures x == Quotient(x, size) * size + Masked(x, size)
    decreases x
  {
    if x < size {
    } else {
      Divided(x - size, size);
      Distribute(Quotient(x - size, size), 1, size);
    }
  }

  lemma {:induction false} ProbeClosed(k: Key, size: nat, i: nat)
    requires size > 0
    ensures Probe(k, size, i) + Wraps(k, size, i) * size == Home(k, size) + i * Stride(k)
  {
    if i == 0 {
    } else {
      ProbeClosed(k, size, i - 1);
      var x := Probe(k, size, i - 1) + Stride(k);
      Divided(x, size);
      Distribute(Wraps(k, size, i - 1), Quotient(x, size), size);
      Distribute(i - 1, 1, Stride(k));
    }
  }

  // The slot after i steps: the hash is the address without its last four bits, the
  // increment the address without its last eight, made odd.
  lemma ProbeIs(k: Key, size: nat, i: nat)
    requires size > 0
    ensures Probe(k, size, i) == (k / 16 + i * (2 * (k / 512) + 1)) % size
  {
    var a, b := k / 16, i * Stride(k);
    StrideIs(k);
    ProbeClosed(k, size, i);
    Divided(a, size);
    Distribute(Quotient(a, size), Wraps(k, size, i), size);
    RemainderIs(a + b, size, Quotient(a, size) + Wraps(k, size, i), Probe(k, size, i));
  }

  lemma StrideIs(k: Key)
    ensures Stride(k) == 2 * (k / 512) + 1
  {}

  lemma RemainderIs(x: nat, size: nat, q: int, r: nat)
    requires size > 0 && r < size && q * size + r == x
    ensures r == x % size
  {
    assert x == (x / size) * size + x % size;
    UniqueRemainder(size, x / size, x % size, q, r);
  }

  lemma OddProduct(e: int, f: int)
    ensures (2 * e + 1) * (2 * f + 1) == 2 * (2 * (e * f) + e + f) + 1
  {}

  lemma EvenFactor(d: int, s: nat, m: int)
    requires s % 2 == 1 && d * s == 2 * m
    ensures d == 2 * (d / 2)
  {
    var e, f := d / 2, s / 2;
    if d == 2 * e + 1 {
      OddProduct(e, f);
      assert false;
    }
  }

  // An odd factor does not help to divide by a power of two.
  lemma {:induction false} OddFactor(size: nat, d: int, s: nat, q: int) returns (e: int)
    requires PowerOfTwo(size) && s % 2 == 1 && d * s == q * size
    ensures d == e * size
    decreases size
  {
    if size == 1 {
      e := d;
    } else {
      var h := size / 2;
      assert q * size == 2 * (q * h);
      EvenFactor(d, s, q * h);
      assert d * s == 2 * ((d / 2) * s);
      e := OddFactor(h, d / 2, s, q);
      assert e * size == 2 * (e * h);
    }
  }

  lemma DifferentSlots(size: nat, home: int, stride: nat, a: int, b: int, i: nat, j: nat, wi: int, wj: int)
    requires PowerOfTwo(size) && stride % 2 == 1 && i < j < size
    requires a + wi * size == home + i * stride
    requires b + wj * size == home + j * stride
    ensures a != b
  {
    Distribute(j, i, stride);
    Distribute(wj, wi, size);
    if a == b {
      var e := OddFactor(size, j - i, stride, wj - wi);
      MultipleAtLeast(e, size);
      assert false;
    }
  }

  // No slot is looked at twice in the first size steps.
  lemma ProbeInjective(k: Key, size: nat, i: nat, j: nat)
    requires PowerOfTwo(size) && i < j < size
    ensures Probe(k, size, i) != Probe(k, size, j)
  {
    ProbeClosed(k, size, i);
    ProbeClosed(k, size, j);
    DifferentSlots(size, Home(k, size), Stride(k), Probe(k, size, i), Probe(k, size, j), i, j, Wraps(k, size, i), Wraps(k, size, j));
  }

  // Every slot is looked at in the first size steps.
  lemma ProbeReaches(k: Key, size: nat, j: nat)
    requires PowerOfTwo(size) && j < size
    ensures exists i: nat :: i < size && Probe(k, size, i) == j
  {
    var f: nat -> nat := i => Probe(k, size, i);
    forall i: nat, l: nat | i < l < size ensures f(i) != f(l) {
      ProbeInjective(k, size, i, l);
    }
    var i := Onto(f, size, j);
    assert Probe(k, size, i) == j;
  }

  // The step at which the search for k looks at slot j.
  ghost function Depth(k: Key, size: nat, j: nat): (i: nat)
    requires PowerOfTwo(size) && j < size
    ensures i < size && Probe(k, size, i) == j
  {
    ProbeReaches(k, size, j);
    var i: nat :| i < size && Probe(k, size, i) == j;
    i
  }

  lemma DepthUnique(k: Key, size: nat, i: nat)
    requires PowerOfTwo(size) && i < size
    ensures Depth(k, size, Probe(k, size, i)) == i
  {
    var d := Depth(k, size, Probe(k, size, i));
    if d < i {
      ProbeInjective(k, size, d, i);
    } else if i < d {
      ProbeInjective(k, size, i, d);
    }
  }
}
