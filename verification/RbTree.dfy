/**
 The red-black tree of src/kernel/rbtree.c, pointers and all.

 A node is named by its address (a positive number, NIL being the null pointer) and the
 fields of the node structs in memory are maps from addresses, so every pointer store of
 the C code is one map update here and aliasing is visible.  `Tree` is the mathematical
 tree that the pointers are proved to represent, and `Path` is what lies above one of its
 subtrees: the way the fix-up loops walk towards the root.
 The C code writes every case twice, once for each side; here a `Side` picks the branch.
 */
module RbTree {
  type Ref = nat
  const NIL: Ref := 0

  datatype Side = L | R

  function Flip(d: Side): Side {
    if d.L? then R else L
  }

  /** The address of a child pointer, as in &node->rb_left. */
  datatype Slot = Slot(node: Ref, side: Side)

  /** The pointer fields of struct rb_node, for every node in memory. */
  datatype Links = Links(parent: map<Ref, Ref>, child: map<Slot, Ref>) {
    predicate Has(n: Ref) {
      n in parent && Slot(n, L) in child && Slot(n, R) in child
    }

    function Child(d: Side, n: Ref): Ref
      requires Has(n)
    {
      assert Slot(n, d) in child by { if d.L? { } }
      child[Slot(n, d)]
    }

    function SetChild(d: Side, n: Ref, v: Ref): Links {
      this.(child := child[Slot(n, d) := v])
    }

    function SetParent(n: Ref, v: Ref): Links {
      this.(parent := parent[n := v])
    }
  }

  // ----- the represented tree -----

  datatype Tree = Leaf | Node(left: Tree, id: Ref, right: Tree)

  /** The surroundings of a subtree: it hangs on `side` of node `id`, whose other child is `sib`. */
  datatype Path = Top | Step(side: Side, id: Ref, sib: Tree, up: Path)

  function Root(t: Tree): Ref {
    if t.Leaf? then NIL else t.id
  }

  function Head(p: Path): Ref {
    if p.Top? then NIL else p.id
  }

  function Join(d: Side, t: Tree, id: Ref, s: Tree): Tree {
    if d.L? then Node(t, id, s) else Node(s, id, t)
  }

  function Plug(p: Path, t: Tree): Tree
    decreases p
  {
    if p.Top? then t else Plug(p.up, Join(p.side, t, p.id, p.sib))
  }

  function Append(p: Path, q: Path): Path {
    if p.Top? then q else Step(p.side, p.id, p.sib, Append(p.up, q))
  }

  /** In-order sequence of the nodes. */
  function Order(t: Tree): seq<Ref> {
    if t.Leaf? then [] else Order(t.left) + [t.id] + Order(t.right)
  }

  function Before(p: Path): seq<Ref> {
    if p.Top? then []
    else if p.side.L? then Before(p.up)
    else Before(p.up) + Order(p.sib) + [p.id]
  }

  function After(p: Path): seq<Ref> {
    if p.Top? then []
    else if p.side.R? then After(p.up)
    else [p.id] + Order(p.sib) + After(p.up)
  }

  lemma {:induction false} OrderPlug(p: Path, t: Tree)
    ensures Order(Plug(p, t)) == Before(p) + Order(t) + After(p)
    decreases p
  {
    if p.Step? {
      OrderPlug(p.up, Join(p.side, t, p.id, p.sib));
    }
  }

  function Ids(t: Tree): set<Ref> {
    if t.Leaf? then {} else Ids(t.left) + {t.id} + Ids(t.right)
  }

  function PathIds(p: Path): set<Ref> {
    if p.Top? then {} else {p.id} + Ids(p.sib) + PathIds(p.up)
  }

  ghost predicate Uniq(t: Tree) {
    t.Leaf? ||
    (t.id !in Ids(t.left) && t.id !in Ids(t.right) && Ids(t.left) !! Ids(t.right) && Uniq(t.left) && Uniq(t.right))
  }

  /** No node of the path occurs twice, nor among the nodes `below` it. */
  ghost predicate PathUniq(p: Path, below: set<Ref>) {
    p.Top? ||
    (p.id !in below && p.id !in Ids(p.sib) && Ids(p.sib) !! below && Uniq(p.sib)
     && PathUniq(p.up, below + {p.id} + Ids(p.sib)))
  }

  lemma {:induction false} PathUniqDisjoint(p: Path, below: set<Ref>)
    requires PathUniq(p, below)
    ensures PathIds(p) !! below
    decreases p
  {
    if p.Step? {
      PathUniqDisjoint(p.up, below + {p.id} + Ids(p.sib));
    }
  }

  lemma {:induction false} PathUniqLess(p: Path, below: set<Ref>, less: set<Ref>)
    requires PathUniq(p, below) && less <= below
    ensures PathUniq(p, less)
    decreases p
  {
    if p.Step? {
      PathUniqLess(p.up, below + {p.id} + Ids(p.sib), less + {p.id} + Ids(p.sib));
    }
  }

  lemma {:induction false} PathUniqMore(p: Path, below: set<Ref>, n: Ref)
    requires PathUniq(p, below) && n !in PathIds(p)
    ensures PathUniq(p, below + {n})
    decreases p
  {
    if p.Step? {
      PathUniqMore(p.up, below + {p.id} + Ids(p.sib), n);
      assert below + {n} + {p.id} + Ids(p.sib) == below + {p.id} + Ids(p.sib) + {n};
    }
  }

  // ----- pointers represent trees -----

  ghost predicate ParentIs(t: Tree, q: Ref, h: Links) {
    t.Node? ==> t.id in h.parent && h.parent[t.id] == q
  }

  /** The pointers below the root of t are those of t (the root's own parent is not looked at). */
  ghost predicate Shape(t: Tree, h: Links) {
    t.Leaf? ||
    (t.id != NIL && h.Has(t.id)
     && h.Child(L, t.id) == Root(t.left) && h.Child(R, t.id) == Root(t.right)
     && ParentIs(t.left, t.id, h) && ParentIs(t.right, t.id, h)
     && Shape(t.left, h) && Shape(t.right, h))
  }

  ghost predicate PathShape(p: Path, hole: Ref, root: Ref, h: Links) {
    match p
    case Top => root == hole
    case Step(d, id, s, up) =>
      id != NIL && h.Has(id)
      && h.Child(d, id) == hole && h.Child(Flip(d), id) == Root(s)
      && ParentIs(s, id, h) && Shape(s, h)
      && h.parent[id] == Head(up)
      && PathShape(up, id, root, h)
  }

  /** Memory h with root pointer `root` holds Plug(p, t). */
  ghost predicate At(p: Path, t: Tree, root: Ref, h: Links) {
    Shape(t, h) && ParentIs(t, Head(p), h) && PathShape(p, Root(t), root, h)
    && Uniq(t) && PathUniq(p, Ids(t))
  }

  lemma {:induction false} JoinIds(d: Side, t: Tree, id: Ref, s: Tree)
    ensures Ids(Join(d, t, id, s)) == Ids(t) + {id} + Ids(s)
  {
  }

  lemma {:induction false} JoinShape(d: Side, t: Tree, id: Ref, s: Tree, h: Links)
    ensures Shape(Join(d, t, id, s), h) <==>
            id != NIL && h.Has(id) && h.Child(d, id) == Root(t) && h.Child(Flip(d), id) == Root(s)
            && ParentIs(t, id, h) && ParentIs(s, id, h) && Shape(t, h) && Shape(s, h)
    ensures Ids(Join(d, t, id, s)) == Ids(t) + {id} + Ids(s)
    ensures Uniq(Join(d, t, id, s)) <==>
            id !in Ids(t) && id !in Ids(s) && Ids(t) !! Ids(s) && Uniq(t) && Uniq(s)
  {
  }

  /** Moving the focus one step up or down. */
  lemma {:induction false} Refocus(d: Side, id: Ref, s: Tree, up: Path, t: Tree, root: Ref, h: Links)
    ensures At(Step(d, id, s, up), t, root, h) <==> At(up, Join(d, t, id, s), root, h)
  {
    JoinIds(d, t, id, s);
    assert Ids(t) + {id} + Ids(s) == Ids(Join(d, t, id, s));
  }

  lemma {:induction false} RefocusAll(p: Path, q: Path, t: Tree, root: Ref, h: Links)
    ensures At(Append(p, q), t, root, h) <==> At(q, Plug(p, t), root, h)
    decreases p
  {
    if p.Step? {
      Refocus(p.side, p.id, p.sib, Append(p.up, q), t, root, h);
      RefocusAll(p.up, q, Join(p.side, t, p.id, p.sib), root, h);
    }
  }

  lemma {:induction false} AppendTop(p: Path)
    ensures Append(p, Top) == p
  {
    if p.Step? {
      AppendTop(p.up);
    }
  }

  lemma {:induction false} PlugAppend(p: Path, q: Path, t: Tree)
    ensures Plug(Append(p, q), t) == Plug(q, Plug(p, t))
    decreases p
  {
    if p.Step? {
      PlugAppend(p.up, q, Join(p.side, t, p.id, p.sib));
    }
  }

  lemma {:induction false} ShapeFrame(t: Tree, h: Links, h': Links)
    requires Shape(t, h) && Uniq(t)
    requires forall n :: n in Ids(t) ==> h.Has(n) && h'.Has(n) && h'.Child(L, n) == h.Child(L, n)
                                         && h'.Child(R, n) == h.Child(R, n)
                                         && (n != Root(t) ==> h'.parent[n] == h.parent[n])
    ensures Shape(t, h')
  {
    if t.Node? {
      assert t.left.Node? ==> t.left.id in Ids(t.left);
      assert t.right.Node? ==> t.right.id in Ids(t.right);
      ShapeFrame(t.left, h, h');
      ShapeFrame(t.right, h, h');
    }
  }

  lemma {:induction false} ShapeHas(t: Tree, h: Links)
    requires Shape(t, h)
    ensures forall n :: n in Ids(t) ==> h.Has(n) && n != NIL
  {
    if t.Node? {
      ShapeHas(t.left, h);
      ShapeHas(t.right, h);
    }
  }

  lemma {:induction false} PathShapeHas(p: Path, hole: Ref, root: Ref, h: Links)
    requires PathShape(p, hole, root, h)
    ensures forall n :: n in PathIds(p) ==> h.Has(n) && n != NIL
    decreases p
  {
    if p.Step? {
      ShapeHas(p.sib, h);
      PathShapeHas(p.up, p.id, root, h);
    }
  }

  ghost predicate Same(h: Links, h': Links, n: Ref) {
    h.Has(n) && h'.Has(n) && h'.parent[n] == h.parent[n] && h'.Child(L, n) == h.Child(L, n)
    && h'.Child(R, n) == h.Child(R, n)
  }

  lemma {:induction false} PathFrame(p: Path, hole: Ref, root: Ref, below: set<Ref>, h: Links, h': Links)
    requires PathShape(p, hole, root, h) && PathUniq(p, below)
    requires forall n :: n in PathIds(p) ==> Same(h, h', n)
    ensures PathShape(p, hole, root, h')
    decreases p
  {
    if p.Step? {
      assert Same(h, h', p.id);
      assert p.sib.Node? ==> p.sib.id in Ids(p.sib);
      forall n | n in Ids(p.sib) ensures Same(h, h', n) {
      }
      ShapeFrame(p.sib, h, h');
      PathFrame(p.up, p.id, root, below + {p.id} + Ids(p.sib), h, h');
    }
  }

  /** Stores that touch the path only at the pointer to the subtree hang `hole'` there instead. */
  lemma {:induction false} Rehang(p: Path, hole: Ref, root: Ref, below: set<Ref>, h: Links, hole': Ref, root': Ref,
                                  h': Links)
    requires PathShape(p, hole, root, h) && PathUniq(p, below)
    requires forall n :: n in PathIds(p) && n != Head(p) ==> Same(h, h', n)
    requires p.Top? ==> root' == hole'
    requires p.Step? ==> root' == root && h'.Has(p.id) && h'.parent[p.id] == h.parent[p.id]
                         && h'.Child(p.side, p.id) == hole'
                         && h'.Child(Flip(p.side), p.id) == h.Child(Flip(p.side), p.id)
    ensures PathShape(p, hole', root', h')
  {
    if p.Step? {
      PathUniqDisjoint(p.up, below + {p.id} + Ids(p.sib));
      assert p.sib.Node? ==> p.sib.id in Ids(p.sib) && Same(h, h', p.sib.id);
      forall n | n in Ids(p.sib) ensures Same(h, h', n) {
      }
      ShapeFrame(p.sib, h, h');
      PathFrame(p.up, p.id, root, below + {p.id} + Ids(p.sib), h, h');
    }
  }

  // ----- colours -----

  predicate IsRed(n: Ref, red: map<Ref, bool>) {
    n != NIL && n in red && red[n]
  }

  /** No red node has a red child and every path to a leaf passes k black nodes. */
  ghost predicate Rb(t: Tree, red: map<Ref, bool>, k: nat) {
    match t
    case Leaf => k == 0
    case Node(l, id, r) =>
      id != NIL && id in red &&
      if red[id] then !IsRed(Root(l), red) && !IsRed(Root(r), red) && Rb(l, red, k) && Rb(r, red, k)
      else k > 0 && Rb(l, red, k - 1) && Rb(r, red, k - 1)
  }

  /** The path is fine around a black subtree with k black nodes on every way down. */
  ghost predicate PathRb(p: Path, red: map<Ref, bool>, k: nat) {
    match p
    case Top => true
    case Step(d, id, s, up) =>
      id != NIL && id in red && Rb(s, red, k)
      && (red[id] ==> !IsRed(Root(s), red) && up.Step? && !IsRed(up.id, red))
      && PathRb(up, red, if red[id] then k else k + 1)
  }

  lemma {:induction false} RbFrame(t: Tree, red: map<Ref, bool>, k: nat, red': map<Ref, bool>)
    requires Rb(t, red, k)
    requires forall n :: n in Ids(t) && n in red ==> n in red' && red'[n] == red[n]
    ensures Rb(t, red', k)
  {
    if t.Node? {
      assert t.left.Node? ==> t.left.id in Ids(t.left);
      assert t.right.Node? ==> t.right.id in Ids(t.right);
      var k' := if red[t.id] then k else k - 1;
      RbFrame(t.left, red, k', red');
      RbFrame(t.right, red, k', red');
    }
  }

  lemma {:induction false} PathRbFrame(p: Path, red: map<Ref, bool>, k: nat, red': map<Ref, bool>)
    requires PathRb(p, red, k)
    requires forall n :: n in PathIds(p) && n in red ==> n in red' && red'[n] == red[n]
    ensures PathRb(p, red', k)
    decreases p
  {
    if p.Step? {
      assert p.sib.Node? ==> p.sib.id in Ids(p.sib);
      RbFrame(p.sib, red, k, red');
      PathRbFrame(p.up, red, if red[p.id] then k else k + 1, red');
    }
  }

  lemma {:induction false} RbKeep(t: Tree, red: map<Ref, bool>, k: nat, n: Ref, v: bool)
    requires Rb(t, red, k) && n !in Ids(t)
    ensures Rb(t, red[n := v], k)
    ensures IsRed(Root(t), red[n := v]) == IsRed(Root(t), red)
  {
    RbFrame(t, red, k, red[n := v]);
    assert t.Node? ==> t.id in Ids(t);
  }

  lemma {:induction false} PathRbKeep(p: Path, red: map<Ref, bool>, k: nat, n: Ref, v: bool)
    requires PathRb(p, red, k) && n !in PathIds(p)
    ensures PathRb(p, red[n := v], k)
    ensures IsRed(Head(p), red[n := v]) == IsRed(Head(p), red)
  {
    PathRbFrame(p, red, k, red[n := v]);
    assert p.Step? ==> p.id in PathIds(p);
  }

  lemma {:induction false} Assemble(p: Path, t: Tree, red: map<Ref, bool>, k: nat) returns (height: nat)
    requires Rb(t, red, k) && PathRb(p, red, k)
    requires IsRed(Root(t), red) ==> p.Step? && !IsRed(p.id, red)
    ensures Rb(Plug(p, t), red, height) && !IsRed(Root(Plug(p, t)), red)
    ensures t.Node? ==> Plug(p, t).Node?
    decreases p
  {
    if p.Top? {
      height := k;
    } else {
      height := Assemble(p.up, Join(p.side, t, p.id, p.sib), red, if red[p.id] then k else k + 1);
    }
  }

  lemma {:induction false} OrderSame(p: Path, t: Tree, t': Tree)
    requires Order(t) == Order(t')
    ensures Order(Plug(p, t)) == Order(Plug(p, t'))
  {
    OrderPlug(p, t);
    OrderPlug(p, t');
  }

  lemma {:induction false} Rotated5(a: seq<Ref>, n: Ref, b: seq<Ref>, m: Ref, c: seq<Ref>)
    ensures a + [n] + (b + [m] + c) == (a + [n] + b) + [m] + c
  {
  }

  lemma {:induction false} RotateOrder(d: Side, p: Path, a: Tree, n: Ref, m: Ref, b: Tree, c: Tree)
    ensures Order(Plug(p, Join(d, Join(d, a, n, b), m, c))) == Order(Plug(p, Join(d, a, n, Join(d, b, m, c))))
  {
    Rotated5(Order(a), n, Order(b), m, Order(c));
    Rotated5(Order(c), m, Order(b), n, Order(a));
    OrderSame(p, Join(d, Join(d, a, n, b), m, c), Join(d, a, n, Join(d, b, m, c)));
  }

  function Depth(p: Path): nat {
    if p.Top? then 0 else 1 + Depth(p.up)
  }

  lemma {:induction false} Disassemble(p: Path, t: Tree, red: map<Ref, bool>, height: nat) returns (k: nat)
    requires Rb(Plug(p, t), red, height) && !IsRed(Root(Plug(p, t)), red)
    ensures Rb(t, red, k) && PathRb(p, red, k)
    ensures IsRed(Root(t), red) ==> p.Step? && !IsRed(p.id, red)
    decreases p
  {
    if p.Top? {
      k := height;
    } else {
      k := Disassemble(p.up, Join(p.side, t, p.id, p.sib), red, height);
      k := if red[p.id] then k else k - 1;
    }
  }

  /** The subtree rooted at n and the path to it. */
  lemma {:induction false} Locate(t: Tree, n: Ref) returns (p: Path, s: Tree)
    requires n in Ids(t)
    ensures Plug(p, s) == t && s.Node? && s.id == n
  {
    if t.id == n {
      p, s := Top, t;
    } else if n in Ids(t.left) {
      p, s := Locate(t.left, n);
      PlugAppend(p, Step(L, t.id, t.right, Top), s);
      p := Append(p, Step(L, t.id, t.right, Top));
    } else {
      p, s := Locate(t.right, n);
      PlugAppend(p, Step(R, t.id, t.left, Top), s);
      p := Append(p, Step(R, t.id, t.left, Top));
    }
  }

  /** Locate, in memory. */
  lemma {:induction false} Focus(t: Tree, n: Ref, root: Ref, h: Links) returns (p: Path, s: Tree)
    requires At(Top, t, root, h) && n in Ids(t)
    ensures At(p, s, root, h) && Plug(p, s) == t && s.Node? && s.id == n
    ensures Order(t) == Before(p) + Order(s.left) + [n] + Order(s.right) + After(p)
  {
    p, s := Locate(t, n);
    RefocusAll(p, Top, s, root, h);
    AppendTop(p);
    OrderPlug(p, s);
    assert Before(p) + (Order(s.left) + [n] + Order(s.right)) + After(p)
        == Before(p) + Order(s.left) + [n] + Order(s.right) + After(p);
  }

  lemma {:induction false} SplitOrder(p: Path, s: Tree) returns (pos: nat)
    requires s.Node?
    ensures var o := Order(Plug(p, s));
            pos == |Before(p) + Order(s.left)| && pos < |o| && o[pos] == s.id
            && Before(p) + (Order(s.left) + Order(s.right)) + After(p) == o[..pos] + o[pos + 1..]
  {
    hide Order;
    hide Before;
    hide After;
    hide Plug;
    OrderAround(p, s);
    pos := |Before(p) + Order(s.left)|;
    Middle(Before(p) + Order(s.left), s.id, Order(s.right) + After(p));
    Join4(Before(p), Order(s.left), Order(s.right), After(p));
  }

  lemma {:induction false} Middle(a: seq<Ref>, x: Ref, b: seq<Ref>)
    ensures var o := a + [x] + b; |o| == |a| + 1 + |b| && o[|a|] == x && o[..|a|] == a && o[|a| + 1..] == b
    ensures var o := a + [x] + b; (b != [] ==> o[|a| + 1] == b[0]) && (a != [] ==> o[|a| - 1] == a[|a| - 1])
  {
  }

  lemma {:induction false} Join4(a: seq<Ref>, b: seq<Ref>, c: seq<Ref>, d: seq<Ref>)
    ensures a + (b + c) + d == (a + b) + (c + d)
  {
  }

  /** The neighbour of the root of s is the extreme node of its child, or else the first one beyond the path. */
  lemma {:induction false} NeighborOrder(d: Side, p: Path, s: Tree, pos: nat)
    requires s.Node? && pos == |Before(p) + Order(s.left)|
    ensures var o := Order(Plug(p, s));
            d.R? ==> (if pos + 1 < |o| then o[pos + 1] else NIL)
                     == var b := Order(s.right) + After(p); if |b| > 0 then b[0] else NIL
    ensures var o := Order(Plug(p, s));
            d.L? ==> (if 0 < pos <= |o| then o[pos - 1] else NIL)
                     == var a := Before(p) + Order(s.left); if |a| > 0 then a[|a| - 1] else NIL
  {
    hide Order;
    hide Before;
    hide After;
    hide Plug;
    OrderAround(p, s);
    Middle(Before(p) + Order(s.left), s.id, Order(s.right) + After(p));
  }

  lemma {:induction false} Extreme(d: Side, q: Path, u: Tree)
    requires u.Node? && (if d.L? then u.left == Leaf && Before(q) == [] else u.right == Leaf && After(q) == [])
    ensures var o := Order(Plug(q, u)); |o| > 0 && (if d.L? then o[0] else o[|o| - 1]) == u.id
  {
    OrderPlug(q, u);
  }

  lemma {:induction false} UpdateMiddle(a: seq<Ref>, x: Ref, b: seq<Ref>, y: Ref)
    ensures (a + [x] + b)[|a| := y] == a + [y] + b
  {
  }

  lemma {:induction false} SwapOrder(p: Path, s: Tree, y: Ref, pos: nat)
    requires s.Node? && pos == |Before(p) + Order(s.left)| && pos < |Order(Plug(p, s))|
    ensures Order(Plug(p, Node(s.left, y, s.right))) == Order(Plug(p, s))[pos := y]
  {
    hide Order;
    hide Before;
    hide After;
    hide Plug;
    OrderAround(p, s);
    OrderAround(p, Node(s.left, y, s.right));
    var a, b := Before(p) + Order(s.left), Order(s.right) + After(p);
    UpdateMiddle(a, s.id, b, y);
  }

  // ----- insertion -----

  /** The stores of rb_link_node make the new node a red leaf at the end of the path. */
  lemma {:induction false} LinkMemory(d: Side, hp: Ref, n: Ref, h: Links, h': Links)
    requires n != NIL && n != hp && (hp != NIL ==> h.Has(hp))
    requires var h1 := h.SetParent(n, hp).SetChild(L, n, NIL).SetChild(R, n, NIL);
             h' == if hp == NIL then h1 else h1.SetChild(d, hp, n)
    ensures forall x :: h.Has(x) && x != hp && x != n ==> Same(h, h', x)
    ensures h'.Has(n) && h'.parent[n] == hp && h'.Child(L, n) == NIL && h'.Child(R, n) == NIL
    ensures hp != NIL ==> h'.Has(hp) && h'.parent[hp] == h.parent[hp] && h'.Child(d, hp) == n
                          && h'.Child(Flip(d), hp) == h.Child(Flip(d), hp)
  {
  }

  lemma {:induction false} LinkAt(p: Path, n: Ref, root: Ref, h: Links, root': Ref, h': Links)
    requires At(p, Leaf, root, h) && n != NIL && n !in PathIds(p)
    requires p.Step? ==> h.Has(p.id)
    requires var h1 := h.SetParent(n, Head(p)).SetChild(L, n, NIL).SetChild(R, n, NIL);
             h' == if p.Top? then h1 else h1.SetChild(p.side, p.id, n)
    requires root' == if p.Top? then n else root
    ensures At(p, Node(Leaf, n, Leaf), root', h')
  {
    PathShapeHas(p, NIL, root, h);
    assert p.Step? ==> p.id in PathIds(p);
    LinkMemory(if p.Step? then p.side else L, Head(p), n, h, h');
    Rehang(p, NIL, root, {}, h, n, root', h');
    PathUniqMore(p, {}, n);
    assert {} + {n} == Ids(Node(Leaf, n, Leaf));
  }

  /** All is well except that the red root of t may hang below a red node. */
  ghost predicate Pending(p: Path, t: Tree, red: map<Ref, bool>, k: nat) {
    t.Node? && IsRed(t.id, red)
    && Rb(t.left, red, k) && Rb(t.right, red, k) && !IsRed(Root(t.left), red) && !IsRed(Root(t.right), red)
    && PathRb(p, red, k)
  }

  /** What the pointers say about the parent and the grandparent. */
  lemma {:induction false} Ancestors(p: Path, t: Tree, root: Ref, h: Links)
    requires At(p, t, root, h) && t.Node? && p.Step? && p.up.Step?
    ensures h.Has(t.id) && h.parent[t.id] == p.id && h.Has(p.id) && h.parent[p.id] == p.up.id && h.Has(p.up.id)
    ensures p.id != NIL && p.up.id != NIL
    ensures (h.Child(L, p.up.id) == p.id) == p.up.side.L?
    ensures h.Child(Flip(p.up.side), p.up.id) == Root(p.up.sib)
    ensures At(p.up.up, Join(p.up.side, Join(p.side, t, p.id, p.sib), p.up.id, p.up.sib), root, h)
    ensures Depth(p) == 2 + Depth(p.up.up)
  {
    Refocus(p.side, p.id, p.sib, p.up, t, root, h);
    Refocus(p.up.side, p.up.id, p.up.sib, p.up.up, Join(p.side, t, p.id, p.sib), root, h);
    JoinIds(p.side, t, p.id, p.sib);
    assert p.id in Ids(Join(p.side, t, p.id, p.sib));
    assert p.up.sib.Node? ==> p.up.sib.id in Ids(p.up.sib);
  }

  lemma {:induction false} InsertRecolor(p: Path, t: Tree, root: Ref, h: Links, red: map<Ref, bool>, k: nat,
                                         red': map<Ref, bool>)
    requires Pending(p, t, red, k) && At(p, t, root, h)
    requires p.Step? && IsRed(p.id, red) && p.up.Step? && IsRed(Root(p.up.sib), red)
    requires red' == red[Root(p.up.sib) := false][p.id := false][p.up.id := true]
    ensures Pending(p.up.up, Join(p.up.side, Join(p.side, t, p.id, p.sib), p.up.id, p.up.sib), red', k + 1)
  {
    var y, s, g, u, up := p.id, p.sib, p.up.id, p.up.sib, p.up.up;
    var v := Join(p.side, t, y, s);
    Ancestors(p, t, root, h);
    JoinShape(p.side, t, y, s, h);
    JoinShape(p.up.side, v, g, u, h);
    PathUniqDisjoint(up, Ids(Join(p.up.side, v, g, u)));
    assert PathRb(p.up, red, k);
    RecolorTriple(p.side, p.up.side, t, y, s, g, u, up, red, k);
  }

  lemma {:induction false} RecolorTriple(d: Side, e: Side, t: Tree, y: Ref, s: Tree, g: Ref, u: Tree, up: Path,
                                         red: map<Ref, bool>, k: nat)
    requires Rb(t, red, k) && Rb(s, red, k) && Rb(u, red, k) && PathRb(up, red, k + 1) && u.Node? && IsRed(u.id, red)
    requires y != NIL && g != NIL && u.id != y && u.id != g && y != g
    requires u.id !in Ids(t) && u.id !in Ids(s) && u.id !in Ids(u.left) && u.id !in Ids(u.right) && u.id !in PathIds(up)
    requires y !in Ids(t) && y !in Ids(s) && y !in Ids(u) && y !in PathIds(up)
    requires g !in Ids(t) && g !in Ids(s) && g !in Ids(u) && g !in PathIds(up)
    ensures Pending(up, Join(e, Join(d, t, y, s), g, u), red[u.id := false][y := false][g := true], k + 1)
  {
    var r1 := red[u.id := false];
    var r2 := r1[y := false];
    var r3 := r2[g := true];
    RbKeep(t, red, k, u.id, false);
    RbKeep(t, r1, k, y, false);
    RbKeep(t, r2, k, g, true);
    RbKeep(s, red, k, u.id, false);
    RbKeep(s, r1, k, y, false);
    RbKeep(s, r2, k, g, true);
    RbKeep(u.left, red, k, u.id, false);
    RbKeep(u.right, red, k, u.id, false);
    RbKeep(u, r1, k + 1, y, false);
    RbKeep(u, r2, k + 1, g, true);
    PathRbKeep(up, red, k + 1, u.id, false);
    PathRbKeep(up, r1, k + 1, y, false);
    PathRbKeep(up, r2, k + 1, g, true);
    assert Rb(Join(d, t, y, s), r3, k + 1);
  }

  /** Two red nodes in a row: the root of outer and, above it, y, with inner as other child of y. */
  ghost predicate RedPair(outer: Tree, y: Ref, inner: Tree, red: map<Ref, bool>, k: nat) {
    outer.Node? && IsRed(outer.id, red) && Rb(outer.left, red, k) && Rb(outer.right, red, k)
    && !IsRed(Root(outer.left), red) && !IsRed(Root(outer.right), red)
    && Rb(inner, red, k) && !IsRed(Root(inner), red) && IsRed(y, red)
  }

  lemma {:induction false} InsertApart(d: Side, outer: Tree, inner: Tree, y: Ref, g: Ref, u: Tree, up: Path, root: Ref,
                                       h: Links)
    requires At(Step(d, g, u, up), Join(d, outer, y, inner), root, h)
    ensures At(up, Join(Flip(d), u, g, Join(Flip(d), inner, y, outer)), root, h)
    ensures y != NIL && g != NIL && y != g
    ensures y !in Ids(outer) && y !in Ids(inner) && y !in Ids(u) && y !in PathIds(up)
    ensures g !in Ids(outer) && g !in Ids(inner) && g !in Ids(u) && g !in PathIds(up)
  {
    var t := Join(d, outer, y, inner);
    Refocus(d, g, u, up, t, root, h);
    JoinShape(d, outer, y, inner, h);
    JoinShape(d, t, g, u, h);
    PathUniqDisjoint(up, Ids(Join(d, t, g, u)));
    assert g in Ids(Join(d, t, g, u)) && y in Ids(Join(d, t, g, u));
  }

  /** The final rotation of an insertion, with y the d child of the black g and the uncle u black. */
  lemma {:induction false} InsertRotate(d: Side, outer: Tree, inner: Tree, y: Ref, g: Ref, u: Tree, up: Path,
                     root: Ref, h: Links, red: map<Ref, bool>, k: nat)
    requires RedPair(outer, y, inner, red, k) && PathRb(Step(d, g, u, up), red, k)
    requires !IsRed(Root(u), red) && !IsRed(g, red)
    requires At(Step(d, g, u, up), Join(d, outer, y, inner), root, h)
    ensures var red' := red[y := false][g := true];
            Pending(Step(d, y, Join(Flip(d), u, g, inner), up), outer, red', k)
    ensures At(up, Join(Flip(d), u, g, Join(Flip(d), inner, y, outer)), root, h)
  {
    InsertApart(d, outer, inner, y, g, u, up, root, h);
    var r1 := red[y := false];
    var r2 := r1[g := true];
    assert Rb(outer, red, k);
    RbKeep(outer, red, k, y, false);
    RbKeep(outer, r1, k, g, true);
    RbKeep(inner, red, k, y, false);
    RbKeep(inner, r1, k, g, true);
    RbKeep(u, red, k, y, false);
    RbKeep(u, r1, k, g, true);
    PathRbKeep(up, red, k + 1, y, false);
    PathRbKeep(up, r1, k + 1, g, true);
    assert Rb(Join(Flip(d), u, g, inner), r2, k);
  }

  /** Blackening the root ends the fix-up. */
  lemma {:induction false} Finish(p: Path, t: Tree, root: Ref, h: Links, red: map<Ref, bool>, k: nat)
    returns (height: nat)
    requires At(p, t, root, h) && t.Node? && PathRb(p, red, k)
    requires p.Step? ==> Rb(t, red, k) && (IsRed(Root(t), red) ==> !IsRed(Head(p), red))
    requires p.Top? ==> t.id in red && Rb(t.left, red, k) && Rb(t.right, red, k)
    ensures At(Top, Plug(p, t), root, h)
    ensures Rb(Plug(p, t), red[root := false], height)
  {
    AppendTop(p);
    RefocusAll(p, Top, t, root, h);
    if p.Top? {
      RbFrame(t.left, red, k, red[root := false]);
      RbFrame(t.right, red, k, red[root := false]);
      height := k + 1;
    } else {
      height := Assemble(p, t, red, k);
      assert red[root := false] == red;
    }
  }

  // ----- rotations -----

  /** What the pointers say around a node about to be rotated. */
  lemma {:induction false} RotateFocus(d: Side, p: Path, a: Tree, n: Ref, m: Ref, b: Tree, c: Tree, root: Ref, h: Links)
    requires At(p, Join(d, a, n, Join(d, b, m, c)), root, h)
    ensures h.Has(n) && h.Has(m) && n != NIL && m != NIL && n != m
    ensures h.Child(Flip(d), n) == m && h.Child(d, m) == Root(b) && h.parent[n] == Head(p) && h.parent[m] == n
    ensures h.Child(d, n) == Root(a) && h.Child(Flip(d), m) == Root(c)
    ensures b.Node? ==> h.Has(b.id) && b.id != n && b.id != m && b.id != NIL
    ensures p.Step? ==> h.Has(p.id) && p.id !in {n, m, Root(b), NIL} && h.Child(p.side, p.id) == n
                        && h.Child(Flip(p.side), p.id) != n
  {
    var t := Join(d, b, m, c);
    JoinShape(d, a, n, t, h);
    JoinShape(d, b, m, c, h);
    ShapeHas(b, h);
    PathUniqDisjoint(p, Ids(Join(d, a, n, t)));
    assert b.Node? ==> b.id in Ids(b);
    assert p.Step? && p.sib.Node? ==> p.sib.id in Ids(p.sib);
  }

  /**
   Which child of q is n, as the code decides it: side d, which the code looks at, if that matches, else the other.
   */
  function SideOf(d: Side, q: Ref, n: Ref, h: Links): Side
    requires h.Has(q)
  {
    if h.Child(d, q) == n then d else Flip(d)
  }

  /** The pointer to n in its parent q now points to m (the root pointer is not part of Links). */
  function Repoint(d: Side, q: Ref, n: Ref, m: Ref, h: Links): Links
    requires q != NIL ==> h.Has(q)
  {
    if q == NIL then h else h.SetChild(SideOf(d, q, n, h), q, m)
  }

  /** The parent pointer of n, if there is such a node, becomes q. */
  function Reparent(n: Ref, q: Ref, h: Links): Links {
    if n == NIL then h else h.SetParent(n, q)
  }

  /** The memory after a rotation of n over m, whose inner child is b, below q. */
  function Rotated(d: Side, n: Ref, m: Ref, b: Ref, q: Ref, h: Links): Links
    requires q != NIL ==> h.Has(q) && q != n && q != m
  {
    var h1 := Reparent(b, n, h.SetChild(Flip(d), n, b)).SetChild(d, m, n).SetParent(m, q);
    Repoint(d, q, n, m, h1).SetParent(n, m)
  }

  lemma {:induction false} RotatedElsewhere(d: Side, n: Ref, m: Ref, b: Ref, q: Ref, h: Links, x: Ref)
    requires q != NIL ==> h.Has(q) && q != n && q != m
    requires h.Has(x) && x != n && x != m && x != q && x != NIL
    ensures var h' := Rotated(d, n, m, b, q, h);
            h'.Has(x) && h'.Child(L, x) == h.Child(L, x) && h'.Child(R, x) == h.Child(R, x)
            && h'.parent[x] == if x == b then n else h.parent[x]
  {
  }

  lemma {:induction false} RotatedHere(d: Side, n: Ref, m: Ref, b: Ref, q: Ref, h: Links)
    requires h.Has(n) && h.Has(m) && n != m && n != NIL && m != NIL && b != n && b != m
    requires q != NIL ==> h.Has(q) && q != n && q != m && q != b
    ensures var h' := Rotated(d, n, m, b, q, h);
            h'.Has(n) && h'.Child(d, n) == h.Child(d, n) && h'.Child(Flip(d), n) == b && h'.parent[n] == m
            && h'.Has(m) && h'.Child(d, m) == n && h'.Child(Flip(d), m) == h.Child(Flip(d), m) && h'.parent[m] == q
  {
  }

  lemma {:induction false} RotatedAbove(d: Side, n: Ref, m: Ref, b: Ref, q: Ref, s: Side, h: Links)
    requires q != NIL && h.Has(q) && q != n && q != m && q != b
    requires h.Child(s, q) == n && h.Child(Flip(s), q) != n
    ensures var h' := Rotated(d, n, m, b, q, h);
            h'.Has(q) && h'.Child(s, q) == m && h'.Child(Flip(s), q) == h.Child(Flip(s), q)
            && h'.parent[q] == h.parent[q]
  {
  }

  /** What a rotation of n over m at the end of path p leaves in memory. */
  ghost predicate RotatedAt(d: Side, p: Path, a: Tree, n: Ref, m: Ref, b: Tree, c: Tree, h: Links, h': Links) {
    && h'.Has(n) && h'.Child(d, n) == Root(a) && h'.Child(Flip(d), n) == Root(b) && h'.parent[n] == m
    && h'.Has(m) && h'.Child(d, m) == n && h'.Child(Flip(d), m) == Root(c) && h'.parent[m] == Head(p)
    && (forall x :: x in Ids(a) || x in Ids(b) || x in Ids(c) ==> Kept(h, h', x, Root(b), n))
    && (forall x :: x in PathIds(p) && x != Head(p) ==> Same(h, h', x))
    && (p.Step? ==> h.Has(p.id) && h'.Has(p.id) && h'.parent[p.id] == h.parent[p.id]
                    && h'.Child(p.side, p.id) == m && h'.Child(Flip(p.side), p.id) == h.Child(Flip(p.side), p.id))
  }

  lemma {:induction false} RotateFacts(d: Side, p: Path, a: Tree, n: Ref, m: Ref, b: Tree, c: Tree, root: Ref, h: Links)
    requires At(p, Join(d, a, n, Join(d, b, m, c)), root, h)
    requires p.Step? ==> h.Has(p.id) && p.id != n && p.id != m
    ensures RotatedAt(d, p, a, n, m, b, c, h, Rotated(d, n, m, Root(b), Head(p), h))
  {
    var t := Join(d, a, n, Join(d, b, m, c));
    RotateFocus(d, p, a, n, m, b, c, root, h);
    JoinShape(d, a, n, Join(d, b, m, c), h);
    JoinShape(d, b, m, c, h);
    ShapeHas(t, h);
    PathShapeHas(p, n, root, h);
    PathUniqDisjoint(p, Ids(t));
    RotatedHere(d, n, m, Root(b), Head(p), h);
    var h' := Rotated(d, n, m, Root(b), Head(p), h);
    assert p.Step? ==> p.id in PathIds(p);
    assert b.Node? ==> b.id in Ids(b);
    forall x | x in Ids(a) || x in Ids(b) || x in Ids(c) ensures Kept(h, h', x, Root(b), n) {
      RotatedElsewhere(d, n, m, Root(b), Head(p), h, x);
    }
    forall x | x in PathIds(p) && x != Head(p) ensures Same(h, h', x) {
      RotatedElsewhere(d, n, m, Root(b), Head(p), h, x);
    }
    if p.Step? {
      RotatedAbove(d, n, m, Root(b), Head(p), p.side, h);
    }
  }

  lemma {:induction false} RotateAt(d: Side, p: Path, a: Tree, n: Ref, m: Ref, b: Tree, c: Tree, root: Ref, h: Links,
                                    root': Ref, h': Links)
    requires At(p, Join(d, a, n, Join(d, b, m, c)), root, h)
    requires RotatedAt(d, p, a, n, m, b, c, h, h')
    requires root' == if p.Top? then m else root
    ensures At(p, Join(d, Join(d, a, n, b), m, c), root', h')
  {
    RotateShape(d, a, n, m, b, c, h, h');
    hide Shape;
    hide Uniq;
    hide PathShape;
    hide PathUniq;
    hide Kept;
    hide Same;
    Rehang(p, n, root, Ids(Join(d, a, n, Join(d, b, m, c))), h, m, root', h');
  }

  ghost predicate Kept(h: Links, h': Links, x: Ref, b: Ref, n: Ref) {
    h.Has(x) && h'.Has(x) && h'.Child(L, x) == h.Child(L, x) && h'.Child(R, x) == h.Child(R, x)
    && h'.parent[x] == if x == b then n else h.parent[x]
  }

  lemma {:induction false} RotateShape(d: Side, a: Tree, n: Ref, m: Ref, b: Tree, c: Tree, h: Links, h': Links)
    requires Shape(Join(d, a, n, Join(d, b, m, c)), h) && Uniq(Join(d, a, n, Join(d, b, m, c)))
    requires forall x :: x in Ids(a) || x in Ids(b) || x in Ids(c) ==> Kept(h, h', x, Root(b), n)
    requires h'.Has(n) && h'.Child(d, n) == Root(a) && h'.Child(Flip(d), n) == Root(b) && h'.parent[n] == m
    requires h'.Has(m) && h'.Child(d, m) == n && h'.Child(Flip(d), m) == Root(c)
    ensures Shape(Join(d, Join(d, a, n, b), m, c), h')
    ensures Uniq(Join(d, Join(d, a, n, b), m, c))
    ensures Ids(Join(d, Join(d, a, n, b), m, c)) == Ids(Join(d, a, n, Join(d, b, m, c)))
  {
    JoinShape(d, a, n, Join(d, b, m, c), h);
    JoinShape(d, b, m, c, h);
    ShapeHas(a, h);
    ShapeHas(c, h);
    assert b.Node? ==> b.id in Ids(b);
    KeptShape(a, Root(b), n, h, h');
    KeptShape(b, Root(b), n, h, h');
    KeptShape(c, Root(b), n, h, h');
    JoinShape(d, a, n, b, h');
    JoinShape(d, Join(d, a, n, b), m, c, h');
  }

  lemma {:induction false} KeptShape(t: Tree, b: Ref, n: Ref, h: Links, h': Links)
    requires Shape(t, h) && Uniq(t)
    requires forall x :: x in Ids(t) ==> Kept(h, h', x, b, n)
    requires b == Root(t) || b !in Ids(t)
    ensures Shape(t, h')
    ensures t.Node? ==> t.id in Ids(t)
  {
    ShapeFrame(t, h, h');
  }

  /** The path to an empty child slot. */
  lemma {:induction false} SlotPath(parent: Ref, side: Side, t: Tree, root: Ref, h: Links, red: map<Ref, bool>,
                                    height: nat)
    returns (path: Path)
    requires At(Top, t, root, h) && Rb(t, red, height) && !IsRed(root, red)
    requires if parent == NIL then root == NIL else parent in Ids(t) && h.Has(parent) && h.Child(side, parent) == NIL
    ensures At(path, Leaf, root, h) && Plug(path, Leaf) == t && PathRb(path, red, 0)
    ensures Head(path) == parent && (path.Step? ==> path.side == side)
    ensures PathIds(path) == Ids(t)
  {
    if parent == NIL {
      ShapeHas(t, h);
      assert t == Leaf;
      path := Top;
    } else {
      var p, s := Focus(t, parent, root, h);
      var near, far := if side.L? then s.left else s.right, if side.L? then s.right else s.left;
      assert s == Join(side, near, parent, far);
      JoinShape(side, near, parent, far, h);
      ShapeHas(near, h);
      assert near == Leaf;
      path := Step(side, parent, far, p);
      Refocus(side, parent, far, p, Leaf, root, h);
    }
    var k := Disassemble(path, Leaf, red, height);
    PlugIds(path, Leaf);
  }

  lemma {:induction false} SlotOrder(path: Path, node: Ref) returns (pos: nat)
    ensures var o := Order(Plug(path, Leaf));
            pos <= |o| && Before(path) + [node] + After(path) == o[..pos] + [node] + o[pos..]
            && (path.Top? ==> o == [])
            && (path.Step? && path.side.L? ==> pos < |o| && o[pos] == path.id)
            && (path.Step? && path.side.R? ==> 0 < pos && o[pos - 1] == path.id)
  {
    OrderPlug(path, Leaf);
    pos := |Before(path)|;
  }

  lemma {:induction false} PlugIds(p: Path, t: Tree)
    ensures Ids(Plug(p, t)) == PathIds(p) + Ids(t)
    decreases p
  {
    if p.Step? {
      PlugIds(p.up, Join(p.side, t, p.id, p.sib));
      JoinIds(p.side, t, p.id, p.sib);
    }
  }

  // ----- erasure -----

  /** Like Rb, but a red root may have red children. */
  ghost predicate Loose(t: Tree, red: map<Ref, bool>, k: nat) {
    match t
    case Leaf => k == 0
    case Node(l, id, r) =>
      id != NIL && id in red &&
      if red[id] then Rb(l, red, k) && Rb(r, red, k)
      else k > 0 && Rb(l, red, k - 1) && Rb(r, red, k - 1)
  }

  /** t is one black node short of what the path expects. */
  ghost predicate Short(p: Path, t: Tree, red: map<Ref, bool>, k: nat) {
    Loose(t, red, k) && PathRb(p, red, k + 1)
  }

  function Work(p: Path, node: Ref, red: map<Ref, bool>): nat {
    if IsRed(node, red) then 0 else 1 + Depth(p)
  }

  lemma {:induction false} RootInPath(p: Path, hole: Ref, root: Ref, h: Links)
    requires PathShape(p, hole, root, h) && p.Step?
    ensures root in PathIds(p)
    decreases p
  {
    if p.up.Step? {
      RootInPath(p.up, p.id, root, h);
    }
  }

  /** The sibling of a short subtree exists, and the code finds its side. */
  lemma {:induction false} Sibling(p: Path, t: Tree, root: Ref, h: Links, red: map<Ref, bool>, k: nat)
    requires At(p, t, root, h) && Short(p, t, red, k) && p.Step?
    ensures p.sib.Node? && p.sib.id != NIL && p.sib.id in red && h.Has(p.sib.id)
    ensures h.Has(p.id) && p.id != NIL && p.id in red
    ensures (h.Child(L, p.id) == Root(t)) == p.side.L?
    ensures h.Child(Flip(p.side), p.id) == p.sib.id
    ensures h.parent[p.id] == Head(p.up)
  {
    assert p.sib.id in Ids(p.sib);
    assert t.Node? ==> t.id in Ids(t);
  }

  lemma {:induction false} NotIn(p: Path, t: Tree, root: Ref, h: Links)
    requires At(p, t, root, h) && p.Step?
    ensures p.id != Root(t) && (p.sib.Node? ==> p.sib.id != Root(t) && p.sib.id != p.id)
  {
    assert t.Node? ==> t.id in Ids(t);
    assert p.sib.Node? ==> p.sib.id in Ids(p.sib);
  }

  /** The pointers tell on which side of its parent a node is. */
  lemma {:induction false} SideCheck(p: Path, t: Tree, root: Ref, h: Links)
    requires At(p, t, root, h) && p.Step? && t.Node?
    ensures h.Has(p.id) && h.Child(p.side, p.id) == t.id && h.Child(Flip(p.side), p.id) != t.id
    ensures h.Has(t.id) && h.parent[t.id] == p.id && p.id != NIL
  {
    assert t.id in Ids(t);
    assert p.sib.Node? ==> p.sib.id in Ids(p.sib);
  }

  /** The nephews: the child of the sibling on the side of the short subtree, and the other one. */
  function Near(d: Side, s: Tree): Tree
    requires s.Node?
  {
    if d.L? then s.left else s.right
  }

  function Far(d: Side, s: Tree): Tree
    requires s.Node?
  {
    Near(Flip(d), s)
  }

  lemma {:induction false} NearIds(p: Path, t: Tree, root: Ref, h: Links)
    requires At(p, t, root, h) && p.Step? && p.sib.Node?
    ensures Near(p.side, p.sib).Node? ==> Near(p.side, p.sib).id !in {NIL, Root(t), p.id, p.sib.id}
    ensures Far(p.side, p.sib).Node? ==> Far(p.side, p.sib).id !in {NIL, Root(t), p.id, p.sib.id}
  {
    var b, c := Near(p.side, p.sib), Far(p.side, p.sib);
    assert p.sib == Join(p.side, b, p.sib.id, c);
    JoinShape(p.side, b, p.sib.id, c, h);
    ShapeHas(p.sib, h);
    assert b.Node? ==> b.id in Ids(b);
    assert c.Node? ==> c.id in Ids(c);
    assert t.Node? ==> t.id in Ids(t);
  }

  /** Red sibling: after recolouring and rotation the short subtree has a black sibling. */
  lemma {:induction false} RedSibling(p: Path, t: Tree, root: Ref, h: Links, red: map<Ref, bool>, k: nat)
    requires At(p, t, root, h) && Short(p, t, red, k) && p.Step? && p.sib.Node? && IsRed(p.sib.id, red)
    ensures At(p.up, Join(p.side, t, p.id, Join(p.side, Near(p.side, p.sib), p.sib.id, Far(p.side, p.sib))), root, h)
    ensures var red' := red[p.sib.id := false][p.id := true];
            Short(Step(p.side, p.id, Near(p.side, p.sib), Step(p.side, p.sib.id, Far(p.side, p.sib), p.up)), t, red', k)
  {
    var d, y, o, b, c, up := p.side, p.id, p.sib.id, Near(p.side, p.sib), Far(p.side, p.sib), p.up;
    var red' := red[o := false][y := true];
    assert p.sib == Join(d, b, o, c);
    Refocus(d, y, p.sib, up, t, root, h);
    JoinShape(d, b, o, c, h);
    JoinShape(d, t, y, p.sib, h);
    PathUniqDisjoint(up, Ids(Join(d, t, y, p.sib)));
    assert !IsRed(y, red);
    RedSiblingColors(d, t, y, o, b, c, up, red, k);
  }

  lemma {:induction false} LooseKeep(t: Tree, red: map<Ref, bool>, k: nat, n: Ref, v: bool)
    requires Loose(t, red, k) && n !in Ids(t)
    ensures Loose(t, red[n := v], k)
  {
    if t.Node? {
      RbKeep(t.left, red, if red[t.id] then k else k - 1, n, v);
      RbKeep(t.right, red, if red[t.id] then k else k - 1, n, v);
    }
  }

  lemma {:induction false} RedSiblingColors(d: Side, t: Tree, y: Ref, o: Ref, b: Tree, c: Tree, up: Path,
                                            red: map<Ref, bool>, k: nat)
    requires Loose(t, red, k) && Rb(b, red, k + 1) && Rb(c, red, k + 1) && !IsRed(Root(b), red)
    requires PathRb(up, red, k + 2)
    requires o != NIL && y != NIL && o != y
    requires o !in Ids(t) && o !in Ids(b) && o !in Ids(c) && o !in PathIds(up)
    requires y !in Ids(t) && y !in Ids(b) && y !in Ids(c) && y !in PathIds(up)
    ensures Short(Step(d, y, b, Step(d, o, c, up)), t, red[o := false][y := true], k)
  {
    var r1 := red[o := false];
    var r2 := r1[y := true];
    LooseKeep(t, red, k, o, false);
    LooseKeep(t, r1, k, y, true);
    RbKeep(b, red, k + 1, o, false);
    RbKeep(b, r1, k + 1, y, true);
    RbKeep(c, red, k + 1, o, false);
    RbKeep(c, r1, k + 1, y, true);
    PathRbKeep(up, red, k + 2, o, false);
    PathRbKeep(up, r1, k + 2, y, true);
    assert PathRb(Step(d, o, c, up), r2, k + 1);
  }

  lemma {:induction false} SinkApart(p: Path, t: Tree, root: Ref, h: Links)
    requires At(p, t, root, h) && p.Step? && p.sib.Node?
    ensures At(p.up, Join(p.side, t, p.id, p.sib), root, h)
    ensures var o := p.sib.id;
            o != NIL && o != p.id && o !in Ids(t) && o !in Ids(p.sib.left) && o !in Ids(p.sib.right)
            && o !in PathIds(p.up)
  {
    Refocus(p.side, p.id, p.sib, p.up, t, root, h);
    JoinShape(p.side, t, p.id, p.sib, h);
    PathUniqDisjoint(p.up, Ids(Join(p.side, t, p.id, p.sib)));
    assert p.sib.id in Ids(p.sib);
  }

  /** Black nephews: the sibling turns red and the parent's subtree is the short one. */
  lemma {:induction false} SinkSibling(p: Path, t: Tree, root: Ref, h: Links, red: map<Ref, bool>, k: nat)
    requires At(p, t, root, h) && Short(p, t, red, k) && !IsRed(Root(t), red) && p.Step? && p.sib.Node?
    requires !IsRed(p.sib.id, red) && !IsRed(Root(p.sib.left), red) && !IsRed(Root(p.sib.right), red)
    ensures At(p.up, Join(p.side, t, p.id, p.sib), root, h)
    ensures p.id in red
    ensures Short(p.up, Join(p.side, t, p.id, p.sib), red[p.sib.id := true], if red[p.id] then k else k + 1)
  {
    var o := p.sib.id;
    SinkApart(p, t, root, h);
    hide At;
    hide Ids;
    hide PathIds;
    RbKeep(t, red, k, o, true);
    RbKeep(p.sib.left, red, k, o, true);
    RbKeep(p.sib.right, red, k, o, true);
    assert Rb(p.sib, red[o := true], k);
    PathRbKeep(p.up, red, if red[p.id] then k + 1 else k + 2, o, true);
  }

  lemma {:induction false} Across(d: Side, y: Ref, s: Tree, up: Path, t: Tree, root: Ref, h: Links)
    ensures At(Step(d, y, s, up), t, root, h) <==> At(Step(Flip(d), y, t, up), s, root, h)
  {
    Refocus(d, y, s, up, t, root, h);
    Refocus(Flip(d), y, t, up, s, root, h);
  }

  /** Only the near nephew is red: recolouring and rotating the sibling makes the far one red. */
  lemma {:induction false} NearNephew(d: Side, t: Tree, y: Ref, b1: Tree, bn: Ref, b2: Tree, o: Ref, c: Tree, up: Path,
                                      root: Ref, h: Links, red: map<Ref, bool>, k: nat)
    requires At(Step(d, y, Join(d, Join(d, b1, bn, b2), o, c), up), t, root, h)
    requires Short(Step(d, y, Join(d, Join(d, b1, bn, b2), o, c), up), t, red, k)
    requires !IsRed(o, red) && IsRed(bn, red) && !IsRed(Root(c), red)
    ensures Short(Step(d, y, Join(d, b1, bn, Join(d, b2, o, c)), up), t, red[bn := false][o := true], k)
    ensures bn != NIL && o != NIL && bn != o
  {
    NephewsApart(d, t, y, b1, bn, b2, o, c, up, root, h);
    NephewsBlack(d, t, y, Join(d, b1, bn, b2), o, c, up, red, k);
    hide At;
    hide Ids;
    hide PathIds;
    assert Rb(b1, red, k) && Rb(b2, red, k) && !IsRed(Root(b2), red);
    NearNephewColors(d, t, y, b1, bn, b2, o, c, up, red, k);
  }

  lemma {:induction false} NephewsBlack(d: Side, t: Tree, y: Ref, b: Tree, o: Ref, c: Tree, up: Path,
                                        red: map<Ref, bool>, k: nat)
    requires Short(Step(d, y, Join(d, b, o, c), up), t, red, k) && !IsRed(o, red) && o != NIL
    ensures Loose(t, red, k) && y != NIL && y in red && Rb(b, red, k) && Rb(c, red, k)
    ensures (red[y] ==> up.Step? && !IsRed(up.id, red)) && PathRb(up, red, if red[y] then k + 1 else k + 2)
  {
  }

  lemma {:induction false} NephewsApart(d: Side, t: Tree, y: Ref, b1: Tree, bn: Ref, b2: Tree, o: Ref, c: Tree,
                                        up: Path, root: Ref, h: Links)
    requires At(Step(d, y, Join(d, Join(d, b1, bn, b2), o, c), up), t, root, h)
    ensures y != bn && y != o && bn != o && bn != NIL && o != NIL
    ensures o !in Ids(t) && o !in Ids(b1) && o !in Ids(b2) && o !in Ids(c) && o !in PathIds(up)
    ensures bn !in Ids(t) && bn !in Ids(b1) && bn !in Ids(b2) && bn !in Ids(c) && bn !in PathIds(up)
  {
    var b := Join(d, b1, bn, b2);
    var s := Join(d, b, o, c);
    JoinShape(d, b1, bn, b2, h);
    JoinShape(d, b, o, c, h);
    Refocus(d, y, s, up, t, root, h);
    JoinShape(d, t, y, s, h);
    PathUniqDisjoint(up, Ids(Join(d, t, y, s)));
  }

  lemma {:induction false} NearNephewColors(d: Side, t: Tree, y: Ref, b1: Tree, bn: Ref, b2: Tree, o: Ref, c: Tree,
                                            up: Path,
                                            red: map<Ref, bool>, k: nat)
    requires Loose(t, red, k) && y != NIL && y in red && y != bn && y != o && bn != o && bn != NIL && o != NIL
    requires Rb(b1, red, k) && Rb(b2, red, k) && Rb(c, red, k)
    requires !IsRed(Root(b2), red) && !IsRed(Root(c), red)
    requires red[y] ==> up.Step? && !IsRed(up.id, red)
    requires PathRb(up, red, if red[y] then k + 1 else k + 2)
    requires o !in Ids(t) && o !in Ids(b1) && o !in Ids(b2) && o !in Ids(c) && o !in PathIds(up)
    requires bn !in Ids(t) && bn !in Ids(b1) && bn !in Ids(b2) && bn !in Ids(c) && bn !in PathIds(up)
    ensures Short(Step(d, y, Join(d, b1, bn, Join(d, b2, o, c)), up), t, red[bn := false][o := true], k)
  {
    var r1 := red[bn := false];
    var r2 := r1[o := true];
    LooseKeep(t, red, k, bn, false);
    LooseKeep(t, r1, k, o, true);
    RbKeep(b1, red, k, bn, false);
    RbKeep(b1, r1, k, o, true);
    RbKeep(b2, red, k, bn, false);
    RbKeep(b2, r1, k, o, true);
    RbKeep(c, red, k, bn, false);
    RbKeep(c, r1, k, o, true);
    PathRbKeep(up, red, if red[y] then k + 1 else k + 2, bn, false);
    PathRbKeep(up, r1, if red[y] then k + 1 else k + 2, o, true);
    assert Rb(Join(d, b2, o, c), r2, k);
    assert Rb(Join(d, b1, bn, Join(d, b2, o, c)), r2, k + 1);
  }

  /** The far nephew is red: one recolouring and one rotation restore the tree. */
  lemma {:induction false} FarNephew(d: Side, t: Tree, y: Ref, b: Tree, o: Ref, c: Tree, up: Path,
                                     root: Ref, h: Links, red: map<Ref, bool>, k: nat) returns (k': nat)
    requires At(Step(d, y, Join(d, b, o, c), up), t, root, h) && Short(Step(d, y, Join(d, b, o, c), up), t, red, k)
    requires !IsRed(o, red) && IsRed(Root(c), red) && !IsRed(Root(t), red)
    ensures y in red && At(up, Join(d, t, y, Join(d, b, o, c)), root, h)
    ensures var red' := red[o := red[y]][y := false][c.id := false];
            Rb(Join(d, Join(d, t, y, b), o, c), red', k') && PathRb(up, red', k')
            && (IsRed(o, red') ==> up.Step? && !IsRed(up.id, red'))
  {
    var s := Join(d, b, o, c);
    JoinShape(d, b, o, c, h);
    Refocus(d, y, s, up, t, root, h);
    JoinShape(d, t, y, s, h);
    PathUniqDisjoint(up, Ids(Join(d, t, y, s)));
    assert c.id in Ids(c);
    k' := FarNephewColors(d, t, y, b, o, c, up, red, k);
  }

  lemma {:induction false} FarNephewColors(d: Side, t: Tree, y: Ref, b: Tree, o: Ref, c: Tree, up: Path,
                                           red: map<Ref, bool>, k: nat) returns (k': nat)
    requires Rb(t, red, k) && Rb(b, red, k) && Rb(c, red, k) && c.Node? && IsRed(c.id, red) && !IsRed(Root(t), red)
    requires y in red && o in red && y != NIL && o != NIL && y != o && c.id != y && c.id != o
    requires red[y] ==> up.Step? && !IsRed(up.id, red)
    requires PathRb(up, red, if red[y] then k + 1 else k + 2)
    requires o !in Ids(t) && o !in Ids(b) && o !in Ids(c) && o !in PathIds(up)
    requires y !in Ids(t) && y !in Ids(b) && y !in Ids(c) && y !in PathIds(up)
    requires c.id !in Ids(t) && c.id !in Ids(b) && c.id !in Ids(c.left) && c.id !in Ids(c.right) && c.id !in PathIds(up)
    ensures var red' := red[o := red[y]][y := false][c.id := false];
            Rb(Join(d, Join(d, t, y, b), o, c), red', k') && PathRb(up, red', k')
            && (IsRed(o, red') ==> up.Step? && !IsRed(up.id, red'))
  {
    var ky := if red[y] then k + 1 else k + 2;
    var r1 := red[o := red[y]];
    var r2 := r1[y := false];
    var r3 := r2[c.id := false];
    RbKeep(t, red, k, o, red[y]);
    RbKeep(t, r1, k, y, false);
    RbKeep(t, r2, k, c.id, false);
    RbKeep(b, red, k, o, red[y]);
    RbKeep(b, r1, k, y, false);
    RbKeep(b, r2, k, c.id, false);
    RbKeep(c, red, k, o, red[y]);
    RbKeep(c, r1, k, y, false);
    RbKeep(c.left, r2, k, c.id, false);
    RbKeep(c.right, r2, k, c.id, false);
    PathRbKeep(up, red, ky, o, red[y]);
    PathRbKeep(up, r1, ky, y, false);
    PathRbKeep(up, r2, ky, c.id, false);
    assert Rb(Join(d, t, y, b), r3, k + 1) && Rb(c, r3, k + 1);
    k' := ky;
  }

  lemma {:induction false} RootLoose(t: Tree, red: map<Ref, bool>, k: nat) returns (k': nat)
    requires Rb(t, red, k)
    ensures Short(Top, t, red, k')
  {
    k' := k;
  }

  /** Only the child's parent and the parent's child differ. */
  lemma {:induction false} SpliceMemory(d: Side, hp: Ref, x: Ref, c: Ref, h: Links, h': Links)
    requires (hp != NIL ==> h.Has(hp) && hp != c && h.Child(d, hp) == x && h.Child(Flip(d), hp) != x)
    requires (c != NIL ==> h.Has(c))
    requires h' == Repoint(L, hp, x, c, Reparent(c, hp, h))
    ensures forall n :: h.Has(n) && n != hp && n != c ==> Same(h, h', n)
    ensures forall n :: h.Has(n) && n != hp ==> h'.Has(n) && h'.Child(L, n) == h.Child(L, n)
                                                && h'.Child(R, n) == h.Child(R, n)
    ensures forall n :: h.Has(n) && n != c ==> h'.Has(n) && h'.parent[n] == h.parent[n]
    ensures hp != NIL ==> h'.Child(d, hp) == c && h'.Child(Flip(d), hp) == h.Child(Flip(d), hp)
  {
  }

  /** Unlinking a node with at most one child: its child hangs in its place. */
  lemma {:induction false} SpliceAt(s: Side, p: Path, x: Ref, ch: Tree, root: Ref, h: Links, root': Ref, h': Links)
    requires At(p, Join(s, ch, x, Leaf), root, h)
    requires p.Step? ==> h.Has(p.id)
    requires h' == Repoint(L, Head(p), x, Root(ch), Reparent(Root(ch), Head(p), h))
    requires root' == if p.Top? then Root(ch) else root
    ensures At(p, ch, root', h')
  {
    var t := Join(s, ch, x, Leaf);
    JoinShape(s, ch, x, Leaf, h);
    PathUniqDisjoint(p, Ids(t));
    PathShapeHas(p, x, root, h);
    ShapeHas(t, h);
    assert p.Step? ==> p.id in PathIds(p);
    assert p.Step? && p.sib.Node? ==> p.sib.id in Ids(p.sib);
    assert ch.Node? ==> ch.id in Ids(ch);
    SpliceMemory(if p.Step? then p.side else L, Head(p), x, Root(ch), h, h');
    Rehang(p, x, root, Ids(t), h, Root(ch), root', h');
    ShapeFrame(ch, h, h');
    PathUniqLess(p, Ids(t), Ids(ch));
  }

  /** Memory h' is h with node y put in the place of x. */
  ghost predicate SwappedAt(p: Path, l: Tree, x: Ref, r: Tree, y: Ref, h: Links, h': Links) {
    && h'.Has(y) && h'.Child(L, y) == Root(l) && h'.Child(R, y) == Root(r) && h'.parent[y] == Head(p)
    && (forall n :: n in Ids(l) || n in Ids(r) ==>
          h.Has(n) && h'.Has(n) && h'.Child(L, n) == h.Child(L, n) && h'.Child(R, n) == h.Child(R, n)
          && h'.parent[n] == if n == Root(l) || n == Root(r) then y else h.parent[n])
    && (forall n :: n in PathIds(p) && n != Head(p) ==> Same(h, h', n))
    && (p.Step? ==> h.Has(p.id) && h'.Has(p.id) && h'.parent[p.id] == h.parent[p.id]
                    && h'.Child(p.side, p.id) == y && h'.Child(Flip(p.side), p.id) == h.Child(Flip(p.side), p.id))
  }

  lemma {:induction false} SwapAt(p: Path, l: Tree, x: Ref, r: Tree, y: Ref, root: Ref, h: Links, root': Ref, h': Links)
    requires At(p, Node(l, x, r), root, h)
    requires y != NIL && y !in Ids(l) && y !in Ids(r) && y !in PathIds(p)
    requires SwappedAt(p, l, x, r, y, h, h')
    requires root' == if p.Top? then y else root
    ensures At(p, Node(l, y, r), root', h')
  {
    var t := Node(l, x, r);
    assert l.Node? ==> l.id in Ids(l);
    assert r.Node? ==> r.id in Ids(r);
    ShapeHas(l, h);
    ShapeHas(r, h);
    ShapeFrame(l, h, h');
    ShapeFrame(r, h, h');
    Rehang(p, x, root, Ids(t), h, y, root', h');
    PathUniqMore(p, Ids(t), y);
    PathUniqLess(p, Ids(t) + {y}, Ids(Node(l, y, r)));
  }

  /** The stores that rb_erase and rb_replace_node use to put y in the place of x. */
  function Swapped(l: Ref, x: Ref, r: Ref, y: Ref, q: Ref, h: Links): Links
    requires q != NIL ==> h.Has(q) && q != y
  {
    var h1 := h.SetParent(y, q).SetChild(R, y, r).SetChild(L, y, l);
    Reparent(r, y, Reparent(l, y, Repoint(L, q, x, y, h1)))
  }

  lemma {:induction false} SwappedElsewhere(l: Ref, x: Ref, r: Ref, y: Ref, q: Ref, h: Links, n: Ref)
    requires q != NIL ==> h.Has(q) && q != y
    requires h.Has(n) && n != y && n != q && n != NIL
    ensures var h' := Swapped(l, x, r, y, q, h);
            h'.Has(n) && h'.Child(L, n) == h.Child(L, n) && h'.Child(R, n) == h.Child(R, n)
            && h'.parent[n] == if n == l || n == r then y else h.parent[n]
  {
  }

  lemma {:induction false} SwappedHere(l: Ref, x: Ref, r: Ref, y: Ref, q: Ref, h: Links)
    requires q != NIL ==> h.Has(q) && q != y
    requires y != NIL && y != l && y != r
    ensures var h' := Swapped(l, x, r, y, q, h);
            h'.Has(y) && h'.Child(L, y) == l && h'.Child(R, y) == r && h'.parent[y] == q
  {
  }

  lemma {:induction false} SwappedAbove(l: Ref, x: Ref, r: Ref, y: Ref, q: Ref, s: Side, h: Links)
    requires q != NIL && h.Has(q) && q != y && q != l && q != r
    requires h.Child(s, q) == x && h.Child(Flip(s), q) != x
    ensures var h' := Swapped(l, x, r, y, q, h);
            h'.Has(q) && h'.Child(s, q) == y && h'.Child(Flip(s), q) == h.Child(Flip(s), q)
            && h'.parent[q] == h.parent[q]
  {
  }

  lemma {:induction false} SwapFacts(p: Path, l: Tree, x: Ref, r: Tree, y: Ref, root: Ref, h: Links)
    requires At(p, Node(l, x, r), root, h)
    requires y != NIL && y !in Ids(l) && y !in Ids(r) && y !in PathIds(p)
    requires p.Step? ==> h.Has(p.id) && p.id != y
    ensures SwappedAt(p, l, x, r, y, h, Swapped(Root(l), x, Root(r), y, Head(p), h))
  {
    var t := Node(l, x, r);
    var h' := Swapped(Root(l), x, Root(r), y, Head(p), h);
    PathUniqDisjoint(p, Ids(t));
    PathShapeHas(p, x, root, h);
    ShapeHas(t, h);
    assert x in Ids(t);
    assert l.Node? ==> l.id in Ids(l);
    assert r.Node? ==> r.id in Ids(r);
    assert p.Step? ==> p.id in PathIds(p);
    assert p.Step? && p.sib.Node? ==> p.sib.id in Ids(p.sib);
    SwappedHere(Root(l), x, Root(r), y, Head(p), h);
    forall n | n in Ids(l) || n in Ids(r)
      ensures h.Has(n) && h'.Has(n) && h'.Child(L, n) == h.Child(L, n) && h'.Child(R, n) == h.Child(R, n)
              && h'.parent[n] == if n == Root(l) || n == Root(r) then y else h.parent[n]
    {
      SwappedElsewhere(Root(l), x, Root(r), y, Head(p), h, n);
    }
    forall n | n in PathIds(p) && n != Head(p) ensures Same(h, h', n) {
      SwappedElsewhere(Root(l), x, Root(r), y, Head(p), h, n);
    }
    if p.Step? {
      SwappedAbove(Root(l), x, Root(r), y, Head(p), p.side, h);
    }
  }

  lemma {:induction false} AppendIds(q: Path, base: Path)
    ensures PathIds(Append(q, base)) == PathIds(q) + PathIds(base)
  {
    if q.Step? {
      AppendIds(q.up, base);
    }
  }

  /** Putting y, with the colour of x, in the place of x. */
  lemma {:induction false} RenameRb(q: Path, x: Ref, y: Ref, l: Tree, p: Path, red: map<Ref, bool>, k: nat)
    requires PathRb(Append(q, Step(R, x, l, p)), red, k) && y != NIL && x in red
    requires y !in PathIds(q) && y !in Ids(l) && y !in PathIds(p)
    ensures PathRb(Append(q, Step(R, y, l, p)), red[y := red[x]], k)
    ensures IsRed(Head(Append(q, Step(R, y, l, p))), red[y := red[x]]) == IsRed(Head(Append(q, Step(R, x, l, p))), red)
    decreases q
  {
    var r := red[y := red[x]];
    if q.Top? {
      RbKeep(l, red, k, y, red[x]);
      PathRbKeep(p, red, if red[x] then k else k + 1, y, red[x]);
    } else {
      RbKeep(q.sib, red, k, y, red[x]);
      RenameRb(q.up, x, y, l, p, red, if red[q.id] then k else k + 1);
      assert Append(q.up, Step(R, x, l, p)).Step? && Append(q.up, Step(R, y, l, p)).Step?;
    }
  }

  lemma {:induction false} ReplaceRb(p: Path, l: Tree, x: Ref, r: Tree, y: Ref, red: map<Ref, bool>, k: nat)
    requires Rb(Node(l, x, r), red, k) && PathRb(p, red, k) && (IsRed(x, red) ==> p.Step? && !IsRed(p.id, red))
    requires y != NIL && y !in Ids(l) && y !in Ids(r) && y !in PathIds(p)
    ensures var red' := red[y := red[x]];
            Rb(Node(l, y, r), red', k) && PathRb(p, red', k) && (IsRed(y, red') ==> p.Step? && !IsRed(p.id, red'))
  {
    var k' := if red[x] then k else k - 1;
    RbKeep(l, red, k', y, red[x]);
    RbKeep(r, red, k', y, red[x]);
    PathRbKeep(p, red, k, y, red[x]);
  }

  /** The leftmost node y of a right subtree, reached by the path q of left turns. */
  lemma {:induction false} Successor(q: Path, x: Ref, y: Ref, yr: Tree, l: Tree, p: Path, root: Ref, h: Links)
    requires At(Append(q, Step(R, x, l, p)), Node(Leaf, y, yr), root, h) && Before(q) == []
    ensures y != NIL && y != x && y !in Ids(l) && y !in PathIds(p) && y !in PathIds(q) && y !in Ids(Plug(q, yr))
    ensures y !in Ids(yr)
    ensures Order(Plug(q, Node(Leaf, y, yr))) == [y] + Order(Plug(q, yr))
    ensures q.Step? ==> q.id != x
  {
    if q.Step? {
      PathUniqDisjoint(Append(q.up, Step(R, x, l, p)), Ids(Node(Leaf, y, yr)) + {q.id} + Ids(q.sib));
      AppendIds(q.up, Step(R, x, l, p));
    }
    var base := Step(R, x, l, p);
    PathUniqDisjoint(Append(q, base), Ids(Node(Leaf, y, yr)));
    assert y in Ids(Node(Leaf, y, yr));
    AppendIds(q, base);
    PlugIds(q, yr);
    LeftmostOrder(q, y, yr);
  }

  lemma {:induction false} LeftmostOrder(q: Path, y: Ref, yr: Tree)
    requires Before(q) == []
    ensures Order(Plug(q, Node(Leaf, y, yr))) == [y] + Order(Plug(q, yr))
  {
    OrderPlug(q, Node(Leaf, y, yr));
    OrderPlug(q, yr);
  }

  lemma {:induction false} SuccessorOrder(q: Path, y: Ref, yr: Tree, l: Tree, r: Tree, p: Path)
    requires r == Plug(q, Node(Leaf, y, yr)) && Order(r) == [y] + Order(Plug(q, yr))
    ensures Order(Plug(p, Node(l, y, Plug(q, yr)))) == Before(p) + (Order(l) + Order(r)) + After(p)
  {
    OrderPlug(p, Node(l, y, Plug(q, yr)));
    OrderNode(l, y, Plug(q, yr));
    hide Order;
    hide Plug;
    hide Before;
    hide After;
    Regroup3(Order(l), y, Order(Plug(q, yr)));
  }

  lemma {:induction false} OrderNode(l: Tree, y: Ref, r: Tree)
    ensures Order(Node(l, y, r)) == Order(l) + [y] + Order(r)
  {
  }

  lemma {:induction false} Regroup3(a: seq<Ref>, y: Ref, b: seq<Ref>)
    ensures a + [y] + b == a + ([y] + b)
  {
  }

  lemma {:induction false} RootOf(p: Path, t: Tree, root: Ref, h: Links)
    requires At(p, t, root, h)
    ensures root == Root(Plug(p, t))
  {
    AppendTop(p);
    RefocusAll(p, Top, t, root, h);
  }

  lemma {:induction false} PathRbIds(q: Path, x: Ref, l: Tree, p: Path, red: map<Ref, bool>, k: nat)
    requires PathRb(Append(q, Step(R, x, l, p)), red, k)
    ensures x in red
    decreases q
  {
    if q.Step? {
      PathRbIds(q.up, x, l, p, red, if red[q.id] then k else k + 1);
    }
  }

  /** The same memory seen from x and from the end of the path below it. */
  lemma {:induction false} Reseat(q: Path, x: Ref, l: Tree, p: Path, t: Tree, root: Ref, h: Links)
    ensures At(Append(q, Step(R, x, l, p)), t, root, h) <==> At(p, Node(l, x, Plug(q, t)), root, h)
    ensures Plug(Append(q, Step(R, x, l, p)), t) == Plug(p, Node(l, x, Plug(q, t)))
  {
    RefocusAll(q, Step(R, x, l, p), t, root, h);
    Refocus(R, x, l, p, Plug(q, t), root, h);
    PlugAppend(q, Step(R, x, l, p), t);
  }

  /** Blackening the short subtree, or reaching the root, ends the fix-up. */
  lemma {:induction false} EraseFinish(p: Path, t: Tree, root: Ref, h: Links, red: map<Ref, bool>, k: nat)
    returns (height: nat)
    requires At(p, t, root, h) && Short(p, t, red, k)
    requires IsRed(Root(t), red) || Root(t) == root
    ensures At(Top, Plug(p, t), root, h)
    ensures var red' := if t.Leaf? then red else red[t.id := false];
            Rb(Plug(p, t), red', height) && !IsRed(root, red')
  {
    AppendTop(p);
    RefocusAll(p, Top, t, root, h);
    PathUniqDisjoint(p, Ids(t));
    if p.Step? {
      RootInPath(p, Root(t), root, h);
      PathShapeHas(p, Root(t), root, h);
    }
    assert t.Node? ==> t.id in Ids(t);
    if t.Leaf? {
      height := k;
    } else {
      var k' := if red[t.id] then k else k - 1;
      RbKeep(t.left, red, k', t.id, false);
      RbKeep(t.right, red, k', t.id, false);
      var r := red[t.id := false];
      assert Rb(t, r, k' + 1);
      PathRbKeep(p, red, k + 1, t.id, false);
      if p.Top? {
        height := k' + 1;
      } else {
        height := Assemble(p, t, r, k + 1);
      }
    }
  }

  // ----- the code -----

  /** The in-order sequence lists every node once. */
  lemma {:induction false} OrderIds(t: Tree, n: Ref)
    ensures n in Order(t) <==> n in Ids(t)
    decreases t
  {
    if t.Node? {
      OrderIds(t.left, n);
      OrderIds(t.right, n);
    }
  }

  lemma {:induction false} OrderDistinct(t: Tree, i: nat, j: nat)
    requires Uniq(t) && i < j < |Order(t)|
    ensures Order(t)[i] != Order(t)[j]
    decreases t
  {
    if t.Node? {
      var k := |Order(t.left)|;
      OrderIds(t.left, Order(t)[i]);
      OrderIds(t.right, Order(t)[j]);
      if j < k {
        OrderDistinct(t.left, i, j);
      } else if i > k {
        OrderDistinct(t.right, i - k - 1, j - k - 1);
      } else if i < k {
        assert Order(t)[i] in Order(t.left);
        assert j > k ==> Order(t)[j] in Order(t.right);
      } else {
        assert Order(t)[j] in Order(t.right);
      }
    }
  }

  function First(s: seq<Ref>): Ref {
    if s == [] then NIL else s[0]
  }

  function Last(s: seq<Ref>): Ref {
    if s == [] then NIL else s[|s| - 1]
  }

  /** The neighbour on side d of the node at position i, or null. */
  function Beside(d: Side, o: seq<Ref>, i: nat): Ref
    requires i < |o|
  {
    if d.R? then if i + 1 < |o| then o[i + 1] else NIL else if i > 0 then o[i - 1] else NIL
  }

  lemma {:induction false} OnlyThere(t: Tree, pos: nat)
    requires Uniq(t) && pos < |Order(t)|
    ensures forall i :: 0 <= i < |Order(t)| && Order(t)[i] == Order(t)[pos] ==> i == pos
  {
    forall i | 0 <= i < |Order(t)| && i != pos
      ensures Order(t)[i] != Order(t)[pos]
    {
      if i < pos {
        OrderDistinct(t, i, pos);
      } else {
        OrderDistinct(t, pos, i);
      }
    }
  }

  lemma {:induction false} OrderAround(p: Path, u: Tree)
    requires u.Node?
    ensures Order(Plug(p, u)) == (Before(p) + Order(u.left)) + [u.id] + (Order(u.right) + After(p))
  {
    OrderPlug(p, u);
  }

  /** A node with one child leaves the child's order. */
  lemma {:induction false} OuterOrder(d: Side, s: Tree)
    requires s.Node? && Near(Flip(d), s) == Leaf
    ensures Order(Near(d, s)) == Order(s.left) + Order(s.right)
  {
  }

  class RbRoot {
    var root: Ref
    var links: Links
    var red: map<Ref, bool>
    ghost var tree: Tree
    ghost var height: nat

    /** The pointers hold `tree`, which is a red-black tree. */
    ghost predicate Valid()
      reads this
    {
      At(Top, tree, root, links) && Rb(tree, red, height) && !IsRed(root, red)
    }

    constructor ()
      ensures Valid() && Order(tree) == []
    {
      root := NIL;
      links := Links(map[], map[]);
      red := map[];
      tree := Leaf;
      height := 0;
    }

    /** __rb_rotate_left (d == L) and __rb_rotate_right (d == R) */
    method Rotate(d: Side, n: Ref, ghost p: Path, ghost a: Tree, ghost m: Ref, ghost b: Tree, ghost c: Tree)
      requires At(p, Join(d, a, n, Join(d, b, m, c)), root, links)
      modifies this`root, this`links
      ensures At(p, Join(d, Join(d, a, n, b), m, c), root, links)
      ensures Order(Plug(p, Join(d, Join(d, a, n, b), m, c))) == Order(Plug(p, Join(d, a, n, Join(d, b, m, c))))
    {
      RotateOrder(d, p, a, n, m, b, c);
      RotateFocus(d, p, a, n, m, b, c, root, links);
      var right := links.Child(Flip(d), n);
      var inner := links.Child(d, right);
      links := links.SetChild(Flip(d), n, inner);
      links := Reparent(inner, n, links);
      links := links.SetChild(d, right, n);
      var q := links.parent[n];
      links := links.SetParent(right, q);
      links := Repoint(d, q, n, right, links);
      if q == NIL {
        root := right;
      }
      links := links.SetParent(n, right);
      RotateFacts(d, p, a, n, m, b, c, old(root), old(links));
      RotateAt(d, p, a, n, m, b, c, old(root), old(links), root, links);
    }

    /** The first rotation of rb_insert_color: turns an inner red grandchild into an outer one. */
    method InsertStraighten(d: Side, node: Ref, parent: Ref, ghost p: Path, ghost t: Tree, ghost k: nat)
      returns (x: Ref, y: Ref, ghost outer: Tree, ghost inner: Tree)
      requires At(p, t, root, links) && Pending(p, t, red, k) && Root(t) == node
      requires p.Step? && IsRed(p.id, red) && p.id == parent
      modifies this`root, this`links
      ensures At(p.up, Join(d, outer, y, inner), root, links)
      ensures RedPair(outer, y, inner, red, k) && outer.id == x
      ensures Order(Plug(p.up, Join(d, outer, y, inner))) == Order(Plug(p, t))
    {
      Refocus(p.side, p.id, p.sib, p.up, t, root, links);
      assert p.sib.Node? ==> p.sib.id in Ids(p.sib);
      assert t.id in Ids(t);
      x, y, outer, inner := node, parent, t, p.sib;
      if links.Child(Flip(d), parent) == node {
        assert p.side == Flip(d);
        ghost var td, te := if d.L? then t.left else t.right, if d.L? then t.right else t.left;
        assert t == Join(d, td, node, te);
        Rotate(d, parent, p.up, p.sib, node, td, te);
        x, y, outer, inner := parent, node, Join(d, p.sib, parent, td), te;
      }
    }

    /** The rotating part of a round of rb_insert_color: the uncle is black. */
    method InsertTurn(d: Side, node: Ref, parent: Ref, gparent: Ref, ghost p: Path, ghost t: Tree, ghost k: nat)
      returns (node': Ref, ghost p': Path, ghost t': Tree)
      requires At(p, t, root, links) && Pending(p, t, red, k) && Root(t) == node
      requires p.Step? && IsRed(p.id, red) && p.id == parent && p.up.Step? && p.up.id == gparent && p.up.side == d
      requires !IsRed(Root(p.up.sib), red)
      modifies this`root, this`links, this`red
      ensures At(p', t', root, links) && Pending(p', t', red, k) && Root(t') == node'
      ensures Depth(p') < Depth(p) && p'.Step? && !IsRed(p'.id, red)
      ensures Order(Plug(p', t')) == Order(Plug(p, t))
    {
      ghost var up, u := p.up.up, p.up.sib;
      var e := Flip(d);
      var x, y;
      ghost var outer, inner;
      x, y, outer, inner := InsertStraighten(d, node, parent, p, t, k);
      InsertRotate(d, outer, inner, y, gparent, u, up, root, links, red, k);
      red := red[y := false];
      red := red[gparent := true];
      Rotate(e, gparent, up, u, y, inner, outer);
      node', p', t' := x, Step(d, y, Join(e, u, gparent, inner), up), outer;
      Refocus(d, y, Join(e, u, gparent, inner), up, outer, root, links);
    }

    /** One round of rb_insert_color, at a red node below a red parent. */
    method InsertRound(node: Ref, ghost p: Path, ghost t: Tree, ghost k: nat)
      returns (node': Ref, ghost p': Path, ghost t': Tree, ghost k': nat)
      requires At(p, t, root, links) && Pending(p, t, red, k) && Root(t) == node && p.Step? && IsRed(p.id, red)
      modifies this`root, this`links, this`red
      ensures At(p', t', root, links) && Pending(p', t', red, k') && Root(t') == node'
      ensures Order(Plug(p', t')) == Order(Plug(p, t)) && Depth(p') < Depth(p)
    {
      Ancestors(p, t, root, links);
      var parent := links.parent[node];
      var gparent := links.parent[parent];
      var d := if links.Child(L, gparent) == parent then L else R;
      var uncle := links.Child(Flip(d), gparent);
      if IsRed(uncle, red) {
        InsertRecolor(p, t, root, links, red, k, red[uncle := false][parent := false][gparent := true]);
        red := red[uncle := false];
        red := red[parent := false];
        red := red[gparent := true];
        node' := gparent;
        p', t', k' := p.up.up, Join(p.up.side, Join(p.side, t, p.id, p.sib), p.up.id, p.up.sib), k + 1;
      } else {
        node', p', t' := InsertTurn(d, node, parent, gparent, p, t, k);
        k' := k;
      }
    }

    /** rb_insert_color, for a node that rb_link_node has just hung at the end of the path */
    method InsertColor(inserted: Ref, ghost path: Path)
      requires At(path, Node(Leaf, inserted, Leaf), root, links)
      requires Pending(path, Node(Leaf, inserted, Leaf), red, 0)
      modifies this
      ensures Valid() && Order(tree) == Before(path) + [inserted] + After(path)
    {
      var node := inserted;
      ghost var p, t, k := path, Node(Leaf, inserted, Leaf), 0;
      OrderPlug(p, t);
      while links.parent[node] != NIL && red[links.parent[node]]
        invariant At(p, t, root, links) && Pending(p, t, red, k) && Root(t) == node
        invariant links.Has(node) && (links.parent[node] != NIL ==> links.parent[node] in red)
        invariant Order(Plug(p, t)) == Before(path) + [inserted] + After(path)
        decreases Depth(p)
      {
        node, p, t, k := InsertRound(node, p, t, k);
      }
      height := Finish(p, t, root, links, red, k);
      red := red[root := false];
      tree := Plug(p, t);
    }

    /**
     rb_link_node followed by rb_insert_color: the node is hung on an empty child slot (or
     becomes the root), and ends up next to the slot's owner in the in-order sequence.
     */
    method Insert(node: Ref, parent: Ref, side: Side) returns (ghost pos: nat)
      requires Valid() && node != NIL && node !in Ids(tree)
      requires if parent == NIL then root == NIL
               else parent in Ids(tree) && links.Has(parent) && links.Child(side, parent) == NIL
      modifies this
      ensures Valid()
      ensures pos <= |old(Order(tree))|
      ensures Order(tree) == old(Order(tree))[..pos] + [node] + old(Order(tree))[pos..]
      ensures parent == NIL ==> old(Order(tree)) == []
      ensures parent != NIL && side.L? ==> pos < |old(Order(tree))| && old(Order(tree))[pos] == parent
      ensures parent != NIL && side.R? ==> 0 < pos && old(Order(tree))[pos - 1] == parent
    {
      ghost var path := SlotPath(parent, side, tree, root, links, red, height);
      pos := SlotOrder(path, node);
      links := links.SetParent(node, parent);
      red := red[node := true];
      links := links.SetChild(L, node, NIL);
      links := links.SetChild(R, node, NIL);
      if parent == NIL {
        root := node;
      } else {
        links := links.SetChild(side, parent, node);
      }
      LinkAt(path, node, old(root), old(links), root, links);
      PathRbFrame(path, old(red), 0, red);
      InsertColor(node, path);
    }

    /** The part of __rb_erase_color for a red sibling. */
    method EraseRedSibling(d: Side, parent: Ref, sibling: Ref, ghost p: Path, ghost t: Tree, ghost k: nat)
      returns (sibling': Ref, ghost p': Path)
      requires At(p, t, root, links) && Short(p, t, red, k) && p.Step? && p.side == d && p.id == parent
      requires p.sib.Node? && p.sib.id == sibling && IsRed(sibling, red)
      modifies this`root, this`links, this`red
      ensures At(p', t, root, links) && Short(p', t, red, k) && p'.Step? && p'.side == d && p'.id == parent
      ensures p'.sib.Node? && p'.sib.id == sibling' && !IsRed(sibling', red)
      ensures IsRed(parent, red)
      ensures Order(Plug(p', t)) == Order(Plug(p, t)) && IsRed(Root(t), red) == old(IsRed(Root(t), red))
    {
      ghost var b, c := Near(d, p.sib), Far(d, p.sib);
      assert p.sib == Join(d, b, sibling, c);
      RedSibling(p, t, root, links, red, k);
      NotIn(p, t, root, links);
      red := red[sibling := false];
      red := red[parent := true];
      Rotate(d, parent, p.up, t, sibling, b, c);
      p' := Step(d, parent, b, Step(d, sibling, c, p.up));
      Refocus(d, sibling, c, p.up, Join(d, t, parent, b), root, links);
      Refocus(d, parent, b, Step(d, sibling, c, p.up), t, root, links);
      Sibling(p', t, root, links, red, k);
      sibling' := links.Child(Flip(d), parent);
    }

    /** The rotation of __rb_erase_color that makes the far nephew red. */
    method EraseNearNephew(d: Side, parent: Ref, sibling: Ref, ghost p: Path, ghost t: Tree, ghost k: nat)
      returns (sibling': Ref, ghost p': Path)
      requires At(p, t, root, links) && Short(p, t, red, k) && p.Step? && p.side == d && p.id == parent
      requires p.sib.Node? && p.sib.id == sibling && !IsRed(sibling, red)
      requires IsRed(Root(Near(d, p.sib)), red) && !IsRed(Root(Far(d, p.sib)), red)
      modifies this`root, this`links, this`red
      ensures At(p', t, root, links) && Short(p', t, red, k) && p'.Step? && p'.side == d && p'.id == parent
      ensures p'.up == p.up
      ensures p'.sib.Node? && p'.sib.id == sibling' && !IsRed(sibling', red) && IsRed(Root(Far(d, p'.sib)), red)
      ensures Order(Plug(p', t)) == Order(Plug(p, t)) && IsRed(Root(t), red) == old(IsRed(Root(t), red))
    {
      ghost var b, c, e := Near(d, p.sib), Far(d, p.sib), Flip(d);
      ghost var b1, b2 := Near(d, b), Far(d, b);
      assert p.sib == Join(d, Join(d, b1, b.id, b2), sibling, c);
      NearNephew(d, t, parent, b1, b.id, b2, sibling, c, p.up, root, links, red, k);
      Sibling(p, t, root, links, red, k);
      NotIn(p, t, root, links);
      Across(d, parent, p.sib, p.up, t, root, links);
      JoinShape(d, b, sibling, c, links);
      NearIds(p, t, root, links);
      var near := links.Child(d, sibling);
      red := red[near := false];
      red := red[sibling := true];
      assert p.sib == Join(e, c, sibling, Join(e, b2, b.id, b1));
      Rotate(Flip(d), sibling, Step(e, parent, t, p.up), c, b.id, b2, b1);
      ghost var s' := Join(d, b1, b.id, Join(d, b2, sibling, c));
      assert s' == Join(e, Join(e, c, sibling, b2), b.id, b1);
      p' := Step(d, parent, s', p.up);
      Across(d, parent, s', p.up, t, root, links);
      Sibling(p', t, root, links, red, k);
      sibling' := links.Child(Flip(d), parent);
    }

    /** The last rotation of __rb_erase_color: the far nephew is red. */
    method EraseFarNephew(d: Side, parent: Ref, sibling: Ref, ghost p: Path, ghost t: Tree, ghost k: nat)
      returns (ghost t': Tree, ghost k': nat)
      requires At(p, t, root, links) && Short(p, t, red, k) && p.Step? && p.side == d && p.id == parent
      requires p.sib.Node? && p.sib.id == sibling && !IsRed(sibling, red) && !IsRed(Root(t), red)
      requires IsRed(Root(Far(d, p.sib)), red)
      modifies this`root, this`links, this`red
      ensures At(Top, t', root, links) && Rb(t', red, k') && !IsRed(root, red)
      ensures Order(t') == Order(Plug(p, t))
    {
      ghost var b, c := Near(d, p.sib), Far(d, p.sib);
      assert p.sib == Join(d, b, sibling, c);
      k' := FarNephew(d, t, parent, b, sibling, c, p.up, root, links, red, k);
      JoinShape(d, b, sibling, c, links);
      NotIn(p, t, root, links);
      NearIds(p, t, root, links);
      var far := links.Child(Flip(d), sibling);
      red := red[sibling := red[parent]];
      red := red[parent := false];
      red := red[far := false];
      Rotate(d, parent, p.up, t, sibling, b, c);
      t' := Join(d, Join(d, t, parent, b), sibling, c);
      AppendTop(p.up);
      RefocusAll(p.up, Top, t', root, links);
      k' := Assemble(p.up, t', red, k');
      t' := Plug(p.up, t');
    }

    /** The part of a round of __rb_erase_color for a black sibling; `done` is its break. */
    method EraseBlackSibling(d: Side, parent: Ref, other: Ref, ghost q: Path, ghost t: Tree, ghost k: nat)
      returns (node': Ref, parent': Ref, done: bool, ghost p': Path, ghost t': Tree, ghost k': nat)
      requires At(q, t, root, links) && Short(q, t, red, k) && !IsRed(Root(t), red)
      requires q.Step? && q.id == parent && q.side == d && q.sib.Node? && q.sib.id == other && !IsRed(other, red)
      modifies this`root, this`links, this`red
      ensures At(p', t', root, links) && Short(p', t', red, k') && Root(t') == node' && Head(p') == parent'
      ensures Order(Plug(p', t')) == Order(Plug(q, t))
      ensures done ==> p'.Top?
      ensures !done ==> p' == q.up && node' == parent && IsRed(parent, red) == old(IsRed(parent, red))
    {
      Sibling(q, t, root, links, red, k);
      ghost var b, c := Near(d, q.sib), Far(d, q.sib);
      assert q.sib == Join(d, b, other, c);
      JoinShape(d, b, other, c, links);
      var near, far := links.Child(d, other), links.Child(Flip(d), other);
      if !IsRed(near, red) && !IsRed(far, red) {
        SinkSibling(q, t, root, links, red, k);
        NotIn(q, t, root, links);
        red := red[other := true];
        node' := parent;
        parent' := links.parent[node'];
        done := false;
        p', t', k' := q.up, Join(d, t, parent, q.sib), if red[parent] then k else k + 1;
      } else {
        var sibling := other;
        ghost var p := q;
        if !IsRed(far, red) {
          sibling, p := EraseNearNephew(d, parent, sibling, q, t, k);
        }
        t', k' := EraseFarNephew(d, parent, sibling, p, t, k);
        node', parent', done, p' := root, NIL, true, Top;
        k' := RootLoose(t', red, k');
      }
    }

    /** One round of __rb_erase_color. */
    method EraseRound(node: Ref, parent: Ref, ghost p: Path, ghost t: Tree, ghost k: nat)
      returns (node': Ref, parent': Ref, done: bool, ghost p': Path, ghost t': Tree, ghost k': nat)
      requires At(p, t, root, links) && Short(p, t, red, k) && Root(t) == node && p.Step? && p.id == parent
      requires !IsRed(node, red)
      modifies this`root, this`links, this`red
      ensures At(p', t', root, links) && Short(p', t', red, k') && Root(t') == node' && Head(p') == parent'
      ensures Order(Plug(p', t')) == Order(Plug(p, t))
      ensures done ==> p'.Top?
      ensures !done ==> Work(p', node', red) < old(Work(p, node, red))
    {
      Sibling(p, t, root, links, red, k);
      var d := if links.Child(L, parent) == node then L else R;
      var sibling := links.Child(Flip(d), parent);
      ghost var q := p;
      if red[sibling] {
        sibling, q := EraseRedSibling(d, parent, sibling, p, t, k);
      }
      node', parent', done, p', t', k' := EraseBlackSibling(d, parent, sibling, q, t, k);
    }

    /** __rb_erase_color */
    method EraseColor(child: Ref, childParent: Ref, ghost path: Path, ghost sub: Tree, ghost short: nat)
      requires At(path, sub, root, links) && Short(path, sub, red, short) && Root(sub) == child
      requires Head(path) == childParent
      modifies this
      ensures Valid() && Order(tree) == Order(Plug(path, sub))
    {
      var node, parent := child, childParent;
      ghost var p, t, k := path, sub, short;
      while !IsRed(node, red) && node != root
        invariant At(p, t, root, links) && Short(p, t, red, k) && Root(t) == node && Head(p) == parent
        invariant Order(Plug(p, t)) == Order(Plug(path, sub))
        decreases Work(p, node, red)
      {
        var done;
        node, parent, done, p, t, k := EraseRound(node, parent, p, t, k);
        if done {
          break;
        }
      }
      Blacken(node, p, t, k);
    }

    /** The end of __rb_erase_color: the node where the loop stopped becomes black. */
    method Blacken(node: Ref, ghost p: Path, ghost t: Tree, ghost k: nat)
      requires At(p, t, root, links) && Short(p, t, red, k) && Root(t) == node && (IsRed(node, red) || node == root)
      modifies this`red, this`tree, this`height
      ensures Valid() && tree == Plug(p, t)
    {
      height := EraseFinish(p, t, root, links, red, k);
      if node != NIL {
        red := red[node := false];
      }
      tree := Plug(p, t);
    }

    /** The stores of rb_erase that take out a node with at most one child. */
    method Splice(x: Ref, child: Ref, s: Side, ghost p: Path, ghost ch: Tree) returns (parent: Ref)
      requires At(p, Join(s, ch, x, Leaf), root, links) && Root(ch) == child
      modifies this`root, this`links
      ensures At(p, ch, root, links) && parent == Head(p)
      ensures links.Has(x) && links.parent[x] == parent
    {
      JoinShape(s, ch, x, Leaf, links);
      PathShapeHas(p, x, root, links);
      assert p.Step? ==> p.id in PathIds(p);
      assert ch.Node? ==> ch.id in Ids(ch);
      parent := links.parent[x];
      links := Reparent(child, parent, links);
      links := Repoint(L, parent, x, child, links);
      if parent == NIL {
        root := child;
      }
      SpliceAt(s, p, x, ch, old(root), old(links), root, links);
    }

    /** The stores of rb_erase that put its successor y in the place of x. */
    method TakePlace(x: Ref, y: Ref, ghost p: Path, ghost l: Tree, ghost r: Tree)
      requires At(p, Node(l, x, r), root, links)
      requires y != NIL && y !in Ids(l) && y !in Ids(r) && y !in PathIds(p)
      modifies this`root, this`links
      ensures At(p, Node(l, y, r), root, links)
    {
      PathShapeHas(p, x, root, links);
      assert p.Step? ==> p.id in PathIds(p);
      SwapFacts(p, l, x, r, y, root, links);
      var q, left, right := links.parent[x], links.Child(L, x), links.Child(R, x);
      links := links.SetParent(y, q);
      links := links.SetChild(R, y, right);
      links := links.SetChild(L, y, left);
      links := Repoint(L, q, x, y, links);
      if q == NIL {
        root := y;
      }
      links := Reparent(left, y, links);
      links := Reparent(right, y, links);
      SwapAt(p, l, x, r, y, old(root), old(links), root, links);
    }

    /** The end of rb_erase: after a black node has been taken out the colours are fixed. */
    method EraseEnd(child: Ref, parent: Ref, wasRed: bool, ghost p: Path, ghost t: Tree, ghost k: nat)
      requires At(p, t, root, links) && Root(t) == child && Head(p) == parent && PathRb(p, red, k)
      requires wasRed ==> Rb(t, red, k) && !IsRed(child, red)
      requires !wasRed ==> k > 0 && Rb(t, red, k - 1)
      modifies this
      ensures Valid() && Order(tree) == Order(Plug(p, t))
    {
      if !wasRed {
        assert Loose(t, red, k - 1);
        EraseColor(child, parent, p, t, k - 1);
      } else {
        AppendTop(p);
        RefocusAll(p, Top, t, root, links);
        height := Assemble(p, t, red, k);
        tree := Plug(p, t);
      }
    }

    /** Following the child pointers on side d to the end. */
    method Descend(d: Side, start: Ref, ghost base: Path, ghost t: Tree) returns (y: Ref, ghost q: Path, ghost u: Tree)
      requires At(base, t, root, links) && t.Node? && t.id == start
      ensures At(Append(q, base), u, root, links) && u.Node? && u.id == y && Near(d, u) == Leaf
      ensures Plug(q, u) == t && if d.L? then Before(q) == [] else After(q) == []
    {
      y, q, u := start, Top, t;
      while links.Child(d, y) != NIL
        invariant At(Append(q, base), u, root, links) && u.Node? && u.id == y && links.Has(y)
        invariant Plug(q, u) == t && if d.L? then Before(q) == [] else After(q) == []
        decreases u
      {
        y := links.Child(d, y);
        Refocus(d, u.id, Far(d, u), Append(q, base), Near(d, u), root, links);
        q, u := Step(d, u.id, Far(d, u), q), Near(d, u);
      }
      ShapeHas(u, links);
    }

    /** rb_erase for a node with two children: its successor is taken out and put in its place. */
    method EraseInner(node: Ref, ghost p: Path, ghost l: Tree, ghost r: Tree)
      requires At(p, Node(l, node, r), root, links) && r.Node?
      requires Rb(Plug(p, Node(l, node, r)), red, height) && !IsRed(root, red)
      modifies this
      ensures Valid() && Order(tree) == Before(p) + (Order(l) + Order(r)) + After(p)
    {
      ghost var base := Step(R, node, l, p);
      Reseat(Top, node, l, p, r, root, links);
      var y;
      ghost var q, u;
      y, q, u := Descend(L, links.Child(R, node), base, r);
      Successor(q, node, y, u.right, l, p, root, links);
      SuccessorOrder(q, y, u.right, l, r, p);
      Reseat(q, node, l, p, u, root, links);
      RootOf(Append(q, base), u, root, links);
      ghost var k := Disassemble(Append(q, base), u, red, height);
      PathRbIds(q, node, l, p, red, k);
      EraseSuccessor(node, y, p, l, q, u.right, k);
    }

    method EraseSuccessor(node: Ref, y: Ref, ghost p: Path, ghost l: Tree, ghost q: Path, ghost yr: Tree, ghost k: nat)
      requires At(Append(q, Step(R, node, l, p)), Node(Leaf, y, yr), root, links) && Before(q) == []
      requires Rb(Node(Leaf, y, yr), red, k) && PathRb(Append(q, Step(R, node, l, p)), red, k) && node in red
      modifies this
      ensures Valid() && Order(tree) == Order(Plug(p, Node(l, y, Plug(q, yr))))
    {
      ghost var base, base' := Step(R, node, l, p), Step(R, y, l, p);
      Successor(q, node, y, yr, l, p, root, links);
      var child := links.Child(R, y);
      var wasRed := red[y];
      var parent := Splice(y, child, R, Append(q, base), yr);
      if links.parent[y] == node {
        parent := y;
      }
      Settle(node, y, p, l, q, yr, k, child, parent, wasRed);
    }

    /** The successor y, already taken out, takes the place and the colour of the node. */
    method Settle(node: Ref, y: Ref, ghost p: Path, ghost l: Tree, ghost q: Path, ghost yr: Tree, ghost k: nat,
                  child: Ref, parent: Ref, wasRed: bool)
      requires At(Append(q, Step(R, node, l, p)), yr, root, links) && Root(yr) == child
      requires parent == (if q.Top? then y else Head(q)) && y in red && wasRed == red[y] && node in red
      requires y != NIL && y !in Ids(l) && y !in PathIds(p) && y !in PathIds(q) && y !in Ids(Plug(q, yr))
      requires y !in Ids(yr)
      requires if wasRed then Rb(yr, red, k) else k > 0 && Rb(yr, red, k - 1)
      requires PathRb(Append(q, Step(R, node, l, p)), red, k)
      requires wasRed ==> !IsRed(Root(yr), red)
      modifies this
      ensures Valid() && Order(tree) == Order(Plug(p, Node(l, y, Plug(q, yr))))
    {
      ghost var base' := Step(R, y, l, p);
      Reseat(q, node, l, p, yr, root, links);
      TakePlace(node, y, p, l, Plug(q, yr));
      Reseat(q, y, l, p, yr, root, links);
      RenameRb(q, node, y, l, p, red, k);
      RbKeep(yr, red, if wasRed then k else k - 1, y, red[node]);
      red := red[y := red[node]];
      EraseEnd(child, parent, wasRed, Append(q, base'), yr, k);
    }

    /** rb_erase: exactly that node leaves the in-order sequence. */
    method Erase(node: Ref) returns (ghost pos: nat)
      requires Valid() && node in Ids(tree)
      modifies this
      ensures Valid()
      ensures pos < |old(Order(tree))| && old(Order(tree))[pos] == node
      ensures Order(tree) == old(Order(tree))[..pos] + old(Order(tree))[pos + 1..]
    {
      ghost var p, s := Focus(tree, node, root, links);
      ghost var k := Disassemble(p, s, red, height);
      pos := SplitOrder(p, s);
      var left, right := links.Child(L, node), links.Child(R, node);
      ShapeHas(s, links);
      if left == NIL || right == NIL {
        var d := if left == NIL then R else L;
        EraseOuter(node, d, p, s, k);
      } else {
        EraseInner(node, p, s.left, s.right);
      }
    }

    /** rb_erase for a node without a child on the side opposite to d. */
    method EraseOuter(node: Ref, d: Side, ghost p: Path, ghost s: Tree, ghost k: nat)
      requires At(p, s, root, links) && s.Node? && s.id == node && Near(Flip(d), s) == Leaf
      requires Rb(s, red, k) && PathRb(p, red, k)
      modifies this
      ensures Valid() && Order(tree) == Before(p) + (Order(s.left) + Order(s.right)) + After(p)
    {
      ghost var ch := Near(d, s);
      assert s == Join(d, ch, node, Leaf);
      JoinShape(d, ch, node, Leaf, links);
      var child := links.Child(d, node);
      var wasRed := red[node];
      var parent := Splice(node, child, d, p, ch);
      EraseEnd(child, parent, wasRed, p, ch, k);
      OrderPlug(p, ch);
      OuterOrder(d, s);
    }

    /** rb_replace_node: the new node takes the place and the colour of the victim. */
    method ReplaceNode(victim: Ref, newnode: Ref) returns (ghost pos: nat)
      requires Valid() && victim in Ids(tree) && newnode != NIL && newnode !in Ids(tree)
      modifies this
      ensures Valid()
      ensures pos < |old(Order(tree))| && old(Order(tree))[pos] == victim
      ensures Order(tree) == old(Order(tree))[pos := newnode]
    {
      ghost var p, s := Focus(tree, victim, root, links);
      ghost var k := Disassemble(p, s, red, height);
      ghost var l, r := s.left, s.right;
      pos := SplitOrder(p, s);
      SwapOrder(p, s, newnode, pos);
      PlugIds(p, s);
      assert s == Node(l, victim, r);
      TakePlace(victim, newnode, p, l, r);
      ReplaceRb(p, l, victim, r, newnode, red, k);
      red := red[newnode := red[victim]];
      AppendTop(p);
      RefocusAll(p, Top, Node(l, newnode, r), root, links);
      height := Assemble(p, Node(l, newnode, r), red, k);
      tree := Plug(p, Node(l, newnode, r));
    }

    /** rb_next (d == R) and rb_prev (d == L): the neighbour in the in-order sequence, or null. */
    method Neighbor(d: Side, node: Ref) returns (n: Ref)
      requires Valid() && node in Ids(tree)
      ensures node in Order(tree)
      ensures forall i :: 0 <= i < |Order(tree)| && Order(tree)[i] == node ==> n == Beside(d, Order(tree), i)
    {
      hide Order;
      hide Before;
      hide After;
      hide Plug;
      ghost var p, s := Focus(tree, node, root, links);
      ghost var pos := SplitOrder(p, s);
      n := Nearest(d, node, p, s);
      NeighborOrder(d, p, s, pos);
      OnlyThere(tree, pos);
    }

    /** The first node behind, or the last one in front of, the node at the end of the path */
    method Nearest(d: Side, node: Ref, ghost p: Path, ghost s: Tree) returns (n: Ref)
      requires At(p, s, root, links) && s.Node? && s.id == node
      ensures d.R? ==> n == var b := Order(s.right) + After(p); if |b| > 0 then b[0] else NIL
      ensures d.L? ==> n == var a := Before(p) + Order(s.left); if |a| > 0 then a[|a| - 1] else NIL
    {
      var child := links.Child(d, node);
      if child != NIL {
        n := EndBelow(d, node, child, p, s);
      } else {
        ShapeHas(s, links);
        n := Climb(d, node, p, s);
      }
    }

    method EndBelow(d: Side, node: Ref, child: Ref, ghost p: Path, ghost s: Tree) returns (n: Ref)
      requires At(p, s, root, links) && s.Node? && s.id == node && child == links.Child(d, node) && child != NIL
      ensures var o := Order(Near(d, s)); |o| > 0 && n == if d.R? then o[0] else o[|o| - 1]
    {
      ghost var q, u;
      Refocus(d, node, Far(d, s), p, Near(d, s), root, links);
      hide Order;
      n, q, u := Descend(Flip(d), child, Step(d, node, Far(d, s), p), Near(d, s));
      Extreme(Flip(d), q, u);
    }

    /** Climbing while the node is the child of its parent on side d. */
    method Climb(d: Side, start: Ref, ghost path: Path, ghost sub: Tree) returns (n: Ref)
      requires At(path, sub, root, links) && sub.Node? && sub.id == start
      ensures d.R? ==> n == if |After(path)| > 0 then After(path)[0] else NIL
      ensures d.L? ==> n == if |Before(path)| > 0 then Before(path)[|Before(path)| - 1] else NIL
    {
      var node := start;
      ghost var p, t := path, sub;
      while links.parent[node] != NIL && node == links.Child(d, links.parent[node])
        invariant At(p, t, root, links) && t.Node? && t.id == node && links.Has(node)
        invariant links.parent[node] != NIL ==> links.Has(links.parent[node])
        invariant if d.R? then After(p) == After(path) else Before(p) == Before(path)
        decreases p
      {
        SideCheck(p, t, root, links);
        node := links.parent[node];
        Refocus(p.side, p.id, p.sib, p.up, t, root, links);
        p, t := p.up, Join(p.side, t, p.id, p.sib);
      }
      if p.Step? {
        SideCheck(p, t, root, links);
      }
      n := links.parent[node];
    }
  }
}
