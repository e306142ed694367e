/**
 Linear steps over an exclusive-or like operation: feeding items one by one equals combining one look-up per item.
 Used by module Crc32c.
 */
module Additive {
  function Iter<T>(f: T -> T, n: nat, x: T): T {
    if n == 0 then x else Iter(f, n - 1, f(x))
  }

  /** f distributes over op, as a matrix over GF(2) does over exclusive or. */
  ghost predicate Linear<T(!new)>(f: T -> T, op: (T, T) -> T) {
    forall x, y :: f(op(x, y)) == op(f(x), f(y))
  }

  ghost predicate Commutes<T(!new)>(op: (T, T) -> T) {
    forall x, y :: op(x, y) == op(y, x)
  }

  ghost predicate Associates<T(!new)>(op: (T, T) -> T) {
    forall x, y, z :: op(op(x, y), z) == op(x, op(y, z))
  }

  /** The operands may be combined in any order. */
  ghost predicate AnyOrder<T(!new)>(op: (T, T) -> T) {
    Commutes(op) && Associates(op)
  }

  lemma {:induction false} Regroup<T(!new)>(op: (T, T) -> T, a: T, b: T, c: T, d: T, e: T, f: T, g: T, h: T)
    requires Associates(op)
    ensures op(op(op(op(op(op(op(a, b), c), d), e), f), g), h) == op(a, op(b, op(c, op(d, op(e, op(f, op(g, h)))))))
  {
    var l2 := op(a, b);
    var l3 := op(l2, c);
    var l4 := op(l3, d);
    var l5 := op(l4, e);
    var l6 := op(l5, f);
    assert op(op(l6, g), h) == op(l6, op(g, h));
    assert op(op(l5, f), op(g, h)) == op(l5, op(f, op(g, h)));
    assert op(op(l4, e), op(f, op(g, h))) == op(l4, op(e, op(f, op(g, h))));
    assert op(op(l3, d), op(e, op(f, op(g, h)))) == op(l3, op(d, op(e, op(f, op(g, h)))));
    assert op(op(l2, c), op(d, op(e, op(f, op(g, h))))) == op(l2, op(c, op(d, op(e, op(f, op(g, h))))));
  }

  lemma {:induction false} IterLinear<T(!new)>(f: T -> T, op: (T, T) -> T, n: nat, x: T, y: T)
    requires Linear(f, op)
    ensures Iter(f, n, op(x, y)) == op(Iter(f, n, x), Iter(f, n, y))
    decreases n
  {
    if n > 0 {
      IterLinear(f, op, n - 1, f(x), f(y));
    }
  }

  lemma {:induction false} IterAdd<T>(f: T -> T, m: nat, n: nat, x: T)
    ensures Iter(f, m + n, x) == Iter(f, n, Iter(f, m, x))
    decreases m
  {
    if m > 0 {
      IterAdd(f, m - 1, n, f(x));
    }
  }

  /** Feeding items one by one: each is mixed into the state, which is then moved by k steps. */
  function Fold<T>(f: T -> T, op: (T, T) -> T, k: nat, c: T, items: seq<T>): T
    decreases |items|
  {
    if items == [] then c else Fold(f, op, k, Iter(f, k, op(c, items[0])), items[1..])
  }

  /** The same from one look-up per item: an item is moved by k steps for itself and every later item. */
  function Lookups<T>(f: T -> T, op: (T, T) -> T, k: nat, c: T, items: seq<T>): T
    decreases |items|
  {
    if items == [] then c else op(Iter(f, k * |items|, items[0]), Lookups(f, op, k, c, items[1..]))
  }

  lemma {:induction false} FoldAppend<T>(f: T -> T, op: (T, T) -> T, k: nat, c: T, x: seq<T>, y: seq<T>)
    ensures Fold(f, op, k, c, x + y) == Fold(f, op, k, Fold(f, op, k, c, x), y)
    decreases |x|
  {
    if x == [] {
      assert x + y == y;
    } else {
      assert (x + y)[1..] == x[1..] + y;
      FoldAppend(f, op, k, Iter(f, k, op(c, x[0])), x[1..], y);
    }
  }

  lemma {:induction false} Times(k: nat, n: nat)
    requires n > 0
    ensures k * n == k + k * (n - 1) && k * (n - 1) >= 0
  {
  }

  /** Slicing: feeding equals combining the look-ups with the moved initial state. */
  lemma {:induction false} FoldIsLookups<T(!new)>(f: T -> T, op: (T, T) -> T, k: nat, c: T, items: seq<T>)
    requires Linear(f, op) && AnyOrder(op)
    ensures k * |items| >= 0
    ensures Fold(f, op, k, c, items) == Lookups(f, op, k, Iter(f, k * |items|, c), items)
    decreases |items|
  {
    if items != [] {
      var n := |items|;
      var x, rest := items[0], items[1..];
      Times(k, n);
      IterAdd(f, k, k * (n - 1), op(c, x));
      IterLinear(f, op, k * n, c, x);
      FoldIsLookups(f, op, k, Iter(f, k, op(c, x)), rest);
      LookupsOp(f, op, k, Iter(f, k * n, c), Iter(f, k * n, x), rest);
    }
  }

  lemma {:induction false} LookupsOp<T(!new)>(f: T -> T, op: (T, T) -> T, k: nat, c: T, d: T, items: seq<T>)
    requires AnyOrder(op)
    ensures Lookups(f, op, k, op(c, d), items) == op(d, Lookups(f, op, k, c, items))
    decreases |items|
  {
    if items != [] {
      LookupsOp(f, op, k, c, d, items[1..]);
      var a, b := Iter(f, k * |items|, items[0]), Lookups(f, op, k, c, items[1..]);
      assert op(a, op(d, b)) == op(op(a, d), b) == op(op(d, a), b) == op(d, op(a, b));
    }
  }
}
