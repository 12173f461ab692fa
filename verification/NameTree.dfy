/**
 The binary search tree of function names that dbug_analyze keeps in an array:
 node k holds the name of module k, child index MAXPROCS means no child.
 */
module NameTree {

  const MAXPROCS := 10000

  // --- strcmp order ---

  predicate Less(a: string, b: string) {
    if b == "" then false
    else if a == "" then true
    else a[0] < b[0] || (a[0] == b[0] && Less(a[1..], b[1..]))
  }

  lemma {:induction false} LessIsTotal(a: string, b: string)
    ensures Less(a, b) || a == b || Less(b, a)
    ensures !(Less(a, b) && Less(b, a)) && !Less(a, a)
    decreases |a|
  {
    if a != "" && b != "" {
      LessIsTotal(a[1..], b[1..]);
      if a[0] == b[0] && a[1..] == b[1..] {
        assert a == [a[0]] + a[1..] == b;
      }
    }
    if a != "" {
      LessIsTotal(a[1..], a[1..]);
    }
  }

  /** The first k characters agree, and then a ends or has the smaller one. */
  predicate SmallerAt(a: string, b: string, k: nat) {
    k <= |a| && k < |b| && a[..k] == b[..k] && (k == |a| || a[k] < b[k])
  }

  /** A prefix comes before what it starts, otherwise the first difference decides. */
  lemma {:induction false} LessIff(a: string, b: string)
    ensures Less(a, b) <==> exists k: nat :: SmallerAt(a, b, k)
    decreases |a|
  {
    if Less(a, b) {
      if a == "" || a[0] < b[0] {
        assert SmallerAt(a, b, 0);
      } else {
        LessIff(a[1..], b[1..]);
        var k: nat :| SmallerAt(a[1..], b[1..], k);
        assert a[..k + 1] == [a[0]] + a[1..][..k] && b[..k + 1] == [b[0]] + b[1..][..k];
        assert SmallerAt(a, b, k + 1);
      }
    }
    forall k: nat | SmallerAt(a, b, k)
      ensures Less(a, b)
    {
      if k > 0 {
        assert a[0] == a[..k][0] == b[..k][0] == b[0];
        assert a[1..][..k - 1] == a[..k][1..] && b[1..][..k - 1] == b[..k][1..];
        assert SmallerAt(a[1..], b[1..], k - 1);
        LessIff(a[1..], b[1..]);
      }
    }
  }

  lemma {:induction false} LessTrans(a: string, b: string, c: string)
    requires Less(a, b) && Less(b, c)
    ensures Less(a, c)
    decreases |a|
  {
    if a != "" && a[0] == b[0] == c[0] {
      LessTrans(a[1..], b[1..], c[1..]);
    }
  }

  // --- trees ---

  datatype Tree = Leaf | Node(idx: nat, left: Tree, right: Tree)

  ghost function Elements(t: Tree): set<nat> {
    if t.Leaf? then {} else Elements(t.left) + {t.idx} + Elements(t.right)
  }

  function Inorder(t: Tree): seq<nat> {
    if t.Leaf? then [] else Inorder(t.left) + [t.idx] + Inorder(t.right)
  }

  /** Names below a node are smaller on the left and larger on the right. */
  ghost predicate Ordered(names: seq<string>, t: Tree) {
    t.Node? ==>
      && t.idx < |names|
      && (forall i :: i in Elements(t.left) ==> i < |names| && Less(names[i], names[t.idx]))
      && (forall i :: i in Elements(t.right) ==> i < |names| && Less(names[t.idx], names[i]))
      && Ordered(names, t.left) && Ordered(names, t.right)
  }

  /** Where a new node n for the name goes. */
  function Insert(t: Tree, names: seq<string>, name: string, n: nat): Tree {
    if t.Leaf? then Node(n, Leaf, Leaf)
    else if t.idx < |names| && Less(name, names[t.idx]) then Node(t.idx, Insert(t.left, names, name, n), t.right)
    else Node(t.idx, t.left, Insert(t.right, names, name, n))
  }

  /** The subtree `sub` is reached on the way from t to the place of the name. */
  ghost predicate OnPath(t: Tree, names: seq<string>, name: string, sub: Tree) {
    || t == sub
    || (t.Node? && t.idx < |names|
        && if Less(name, names[t.idx]) then OnPath(t.left, names, name, sub) else OnPath(t.right, names, name, sub))
  }

  lemma {:induction false} PathGoesOn(t: Tree, names: seq<string>, name: string, sub: Tree)
    requires OnPath(t, names, name, sub) && sub.Node? && sub.idx < |names|
    ensures OnPath(t, names, name, if Less(name, names[sub.idx]) then sub.left else sub.right)
    decreases t
  {
    if t != sub {
      if Less(name, names[t.idx]) {
        PathGoesOn(t.left, names, name, sub);
      } else {
        PathGoesOn(t.right, names, name, sub);
      }
    }
  }

  lemma {:induction false} InsertElements(t: Tree, names: seq<string>, name: string, n: nat)
    ensures Elements(Insert(t, names, name, n)) == Elements(t) + {n}
    decreases t
  {
    if t.Node? {
      InsertElements(t.left, names, name, n);
      InsertElements(t.right, names, name, n);
    }
  }

  lemma {:induction false} OrderedExtends(names: seq<string>, t: Tree, name: string)
    requires Ordered(names, t)
    ensures Ordered(names + [name], t)
    decreases t
  {
    if t.Node? {
      OrderedExtends(names, t.left, name);
      OrderedExtends(names, t.right, name);
    }
  }

  lemma {:induction false} InsertOrdered(t: Tree, names: seq<string>, name: string)
    requires Ordered(names, t) && forall i :: i in Elements(t) ==> i < |names| && names[i] != name
    ensures Ordered(names + [name], Insert(t, names, name, |names|))
    decreases t
  {
    if t.Node? {
      var n := |names|;
      LessIsTotal(name, names[t.idx]);
      OrderedExtends(names, t, name);
      if Less(name, names[t.idx]) {
        InsertOrdered(t.left, names, name);
        InsertElements(t.left, names, name, n);
      } else {
        InsertOrdered(t.right, names, name);
        InsertElements(t.right, names, name, n);
      }
    }
  }

  // --- the array ---

  datatype Bnode = Bnode(lchild: nat, rchild: nat)

  ghost predicate Stored(table: seq<Bnode>, root: nat, t: Tree)
    decreases t
  {
    match t
    case Leaf => root == MAXPROCS
    case Node(i, l, r) =>
      && root == i && i < |table| && i != MAXPROCS
      && Stored(table, table[i].lchild, l) && Stored(table, table[i].rchild, r)
  }

  /** A subtree does not notice changes elsewhere in the array. */
  lemma {:induction false} StoredElsewhere(table: seq<Bnode>, table': seq<Bnode>, root: nat, t: Tree)
    requires Stored(table, root, t)
    requires forall i :: i in Elements(t) ==> i < |table| && i < |table'| && table[i] == table'[i]
    ensures Stored(table', root, t)
    decreases t
  {
    if t.Node? {
      StoredElsewhere(table, table', table[t.idx].lchild, t.left);
      StoredElsewhere(table, table', table[t.idx].rchild, t.right);
    }
  }

  /** The array after node n was linked below node k. */
  function Linked(table: seq<Bnode>, k: nat, left: bool): seq<Bnode>
    requires k < |table|
  {
    table[k := if left then table[k].(lchild := |table|) else table[k].(rchild := |table|)]
    + [Bnode(MAXPROCS, MAXPROCS)]
  }

  /** Elements of both subtrees of an ordered tree differ from each other and from the root. */
  lemma SubtreesDisjoint(names: seq<string>, t: Tree)
    requires Ordered(names, t) && t.Node?
    ensures t.idx !in Elements(t.left) && t.idx !in Elements(t.right) && Elements(t.left) !! Elements(t.right)
  {
    LessIsTotal(names[t.idx], names[t.idx]);
    forall i | i in Elements(t.left)
      ensures i !in Elements(t.right)
    {
      LessIsTotal(names[i], names[t.idx]);
    }
  }

  lemma {:induction false} OnPathIsElement(t: Tree, names: seq<string>, name: string, sub: Tree)
    requires OnPath(t, names, name, sub) && sub.Node?
    ensures sub.idx in Elements(t)
    decreases t
  {
    if t != sub {
      if Less(name, names[t.idx]) {
        OnPathIsElement(t.left, names, name, sub);
      } else {
        OnPathIsElement(t.right, names, name, sub);
      }
    }
  }

  lemma {:induction false} StoredInRange(table: seq<Bnode>, root: nat, t: Tree)
    requires Stored(table, root, t)
    ensures forall i :: i in Elements(t) ==> i < |table|
    decreases t
  {
    if t.Node? {
      StoredInRange(table, table[t.idx].lchild, t.left);
      StoredInRange(table, table[t.idx].rchild, t.right);
    }
  }

  /** Linking the new node below the last node of the search path is insertion. */
  lemma {:induction false} LinkIsInsert(table: seq<Bnode>, root: nat, t: Tree, names: seq<string>, name: string,
                                        sub: Tree)
    requires Stored(table, root, t) && Ordered(names, t) && |names| == |table| < MAXPROCS
    requires OnPath(t, names, name, sub) && sub.Node? && sub.idx < |table|
    requires if Less(name, names[sub.idx]) then sub.left.Leaf? else sub.right.Leaf?
    ensures Stored(Linked(table, sub.idx, Less(name, names[sub.idx])), root, Insert(t, names, name, |table|))
    decreases t
  {
    var k := sub.idx;
    var table' := Linked(table, k, Less(name, names[k]));
    StoredInRange(table, root, t);
    OnPathIsElement(t, names, name, sub);
    SubtreesDisjoint(names, t);
    if t == sub {
      StoredElsewhere(table, table', table[k].lchild, t.left);
      StoredElsewhere(table, table', table[k].rchild, t.right);
    } else if Less(name, names[t.idx]) {
      OnPathIsElement(t.left, names, name, sub);
      LinkIsInsert(table, table[t.idx].lchild, t.left, names, name, sub);
      StoredElsewhere(table, table', table[t.idx].rchild, t.right);
    } else {
      OnPathIsElement(t.right, names, name, sub);
      LinkIsInsert(table, table[t.idx].rchild, t.right, names, name, sub);
      StoredElsewhere(table, table', table[t.idx].lchild, t.left);
    }
  }

  // --- the report order ---

  lemma {:induction false} InorderMembers(t: Tree)
    ensures forall i :: i in Inorder(t) <==> i in Elements(t)
    decreases t
  {
    if t.Node? {
      InorderMembers(t.left);
      InorderMembers(t.right);
    }
  }

  /** The in-order listing is strictly increasing by name, so every name appears once. */
  lemma {:induction false} InorderSorted(names: seq<string>, t: Tree)
    requires Ordered(names, t)
    ensures forall a :: 0 <= a < |Inorder(t)| ==> Inorder(t)[a] < |names|
    ensures forall a, b :: 0 <= a < b < |Inorder(t)| ==> Less(names[Inorder(t)[a]], names[Inorder(t)[b]])
    decreases t
  {
    if t.Node? {
      InorderSorted(names, t.left);
      InorderSorted(names, t.right);
      InorderMembers(t.left);
      InorderMembers(t.right);
      var s, l := Inorder(t), Inorder(t.left);
      forall a, b | 0 <= a < b < |s|
        ensures Less(names[s[a]], names[s[b]])
      {
        assert a < |l| ==> s[a] in Elements(t.left);
        assert b > |l| ==> s[b] in Elements(t.right);
        if a < |l| && b > |l| {
          LessTrans(names[s[a]], names[t.idx], names[s[b]]);
        }
      }
    }
  }
}
