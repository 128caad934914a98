/**
 * The object graph of live mapper instances, as an arena: every instance is a
 * node under a reference, and a nested mapper is stored as the reference of
 * its node. A child is always made after its parent, so it has a larger
 * reference; `Wf` states that and the back-links the engine keeps
 * (`_pm_private_parent`, `_pm_private_attr_name`).
 *
 * `Abs` reads the tree of values below a node, so the heap can be compared
 * with the pure construction in module Objects.
 */
module Heaps {
  import opened RawData
  import opened Schema
  import opened MapperRules
  import opened Objects

  type Ref = nat

  /** What an instance stores in `_<name>`: None, a bool, an adapter value, a nested instance, or a list of those. */
  datatype Val =
    | VNone
    | VBool(b: bool)
    | VScalar(adapter: string, v: Raw)
    | VRef(ref: Ref)
    | VList(items: seq<Val>)

  /**
   * One instance: its class, the fields set on it, `unknown_params`, the
   * changed flag, and the parent and attribute name it was built under.
   */
  datatype Node = Node(
    cls: MapperClass,
    fields: map<string, Val>,
    unknown: map<string, Raw>,
    changed: bool,
    parent: Option<Ref>,
    attrName: Option<string>)

  /** `getattr(self, '_' + name, None)`: the plain accessor of a field. */
  function Stored(n: Node, f: string): Val
  {
    if f in n.fields then n.fields[f] else VNone
  }

  /** The stored value holds a reference to `c`, directly or as a list item. */
  ghost predicate Holds(v: Val, c: Ref)
    decreases v
  {
    match v
    case VRef(d) => d == c
    case VList(xs) => exists i :: 0 <= i < |xs| && Holds(xs[i], c)
    case _ => false
  }

  /** Every instance `v` holds was built under `n` and field `f`, after `n`. */
  ghost predicate Linked(ns: map<Ref, Node>, b: nat, n: Ref, f: string, v: Val)
  {
    forall c: Ref :: Holds(v, c) ==> n < c < b && c in ns && ns[c].parent == Some(n) && ns[c].attrName == Some(f)
  }

  /** The arena invariant: references `0 .. b-1` are allocated, parents come first, children are linked back. */
  ghost predicate Wf(ns: map<Ref, Node>, b: nat)
  {
    (forall n: Ref :: n in ns <==> n < b) &&
    (forall n: Ref :: n in ns && ns[n].parent.Some? ==> ns[n].parent.value < n) &&
    (forall n: Ref, f :: n in ns && f in ns[n].fields ==> Linked(ns, b, n, f, ns[n].fields[f]))
  }

  // ---------------------------------------------------------------------
  // The tree of values below a node

  ghost function Abs(ns: map<Ref, Node>, b: nat, r: Ref): Tree
    decreases b - r, 1
  {
    if r !in ns then Tree(MapperOf(Env(map[], map[]), ""), map[], map[])
    else
      var n := ns[r];
      Tree(n.cls, map f | f in n.fields :: AbsVal(ns, b, r, n.fields[f]), n.unknown)
  }

  ghost function AbsVal(ns: map<Ref, Node>, b: nat, r: Ref, v: Val): TVal
    decreases b - r, 0, v
  {
    match v
    case VNone => TNone
    case VBool(x) => TBool(x)
    case VScalar(a, p) => TScalar(a, p)
    case VRef(c) => if r < c < b then TObj(Abs(ns, b, c)) else TNone
    case VList(xs) => TList(seq(|xs|, i requires 0 <= i < |xs| => AbsVal(ns, b, r, xs[i])))
  }

  /** The two heaps hold the same nodes from `lo` up to `b`. */
  ghost predicate Agree(ns1: map<Ref, Node>, ns2: map<Ref, Node>, lo: nat, b: nat)
  {
    forall k: Ref :: lo <= k < b ==> k in ns1 && k in ns2 && ns1[k] == ns2[k]
  }

  /** From `lo` on, every node refers only to later nodes below `b`. */
  ghost predicate ClosedFrom(ns: map<Ref, Node>, lo: nat, b: nat)
  {
    forall k: Ref, f, c: Ref :: lo <= k && k in ns && f in ns[k].fields && Holds(ns[k].fields[f], c) ==> k < c < b
  }

  /** The old nodes are all still there, unchanged. */
  ghost predicate Grows(ns1: map<Ref, Node>, b1: nat, ns2: map<Ref, Node>, b2: nat)
  {
    b1 <= b2 && forall k: Ref :: k in ns1 ==> k in ns2 && ns2[k] == ns1[k]
  }

  /** The old nodes are all still there, with the same class and back-links. */
  ghost predicate Keeps(ns1: map<Ref, Node>, ns2: map<Ref, Node>)
  {
    forall k: Ref :: k in ns1 ==>
      k in ns2 && ns2[k].cls == ns1[k].cls && ns2[k].parent == ns1[k].parent && ns2[k].attrName == ns1[k].attrName
  }

  /** Rewriting one node with its class and links kept keeps every node. */
  lemma KeepsWrite(ns: map<Ref, Node>, m: Ref, node: Node)
    requires m in ns && node.cls == ns[m].cls && node.parent == ns[m].parent && node.attrName == ns[m].attrName
    ensures Keeps(ns, ns[m := node])
  {
  }

  lemma KeepsTrans(ns1: map<Ref, Node>, ns2: map<Ref, Node>, ns3: map<Ref, Node>)
    requires Keeps(ns1, ns2) && Keeps(ns2, ns3)
    ensures Keeps(ns1, ns3)
  {
  }

  /** The tree below `r` depends only on the nodes from `r` on. */
  lemma {:induction false} AbsFrame(ns1: map<Ref, Node>, b1: nat, ns2: map<Ref, Node>, b2: nat, lo: nat, r: Ref)
    requires b1 <= b2 && lo <= r < b1
    requires Agree(ns1, ns2, lo, b1) && ClosedFrom(ns1, lo, b1)
    ensures Abs(ns1, b1, r) == Abs(ns2, b2, r)
    decreases b1 - r, 1
  {
    var n := ns1[r];
    forall f | f in n.fields
      ensures AbsVal(ns1, b1, r, n.fields[f]) == AbsVal(ns2, b2, r, n.fields[f])
    {
      AbsValFrame(ns1, b1, ns2, b2, lo, r, n.fields[f]);
    }
  }

  lemma {:induction false} AbsValFrame(ns1: map<Ref, Node>, b1: nat, ns2: map<Ref, Node>, b2: nat, lo: nat, r: Ref, v: Val)
    requires b1 <= b2 && lo <= r + 1
    requires Agree(ns1, ns2, lo, b1) && ClosedFrom(ns1, lo, b1)
    requires forall c: Ref :: Holds(v, c) ==> r < c < b1
    ensures AbsVal(ns1, b1, r, v) == AbsVal(ns2, b2, r, v)
    decreases b1 - r, 0, v
  {
    match v
    case VRef(c) =>
      assert Holds(v, c);
      AbsFrame(ns1, b1, ns2, b2, lo, c);
    case VList(xs) =>
      forall i | 0 <= i < |xs|
        ensures AbsVal(ns1, b1, r, xs[i]) == AbsVal(ns2, b2, r, xs[i])
      {
        forall c: Ref | Holds(xs[i], c)
          ensures r < c < b1
        {
          assert Holds(v, c);
        }
        AbsValFrame(ns1, b1, ns2, b2, lo, r, xs[i]);
      }
    case _ =>
  }

  // ---------------------------------------------------------------------
  // Keeping the arena invariant

  /** Allocating a node with no fields, whose parent already exists, keeps the invariant. */
  lemma WfAlloc(ns: map<Ref, Node>, b: nat, node: Node)
    requires Wf(ns, b)
    requires node.fields == map[] && (node.parent.Some? ==> node.parent.value < b)
    ensures Wf(ns[b := node], b + 1)
    ensures Grows(ns, b, ns[b := node], b + 1)
  {
    var ns' := ns[b := node];
    forall n: Ref, f | n in ns' && f in ns'[n].fields
      ensures Linked(ns', b + 1, n, f, ns'[n].fields[f])
    {
      assert n in ns && Linked(ns, b, n, f, ns[n].fields[f]);
    }
  }

  /** Rewriting a node's fields, unknown params and flag keeps the invariant when its fields are linked. */
  lemma WfUpdate(ns: map<Ref, Node>, b: nat, n: Ref, node: Node)
    requires Wf(ns, b) && n in ns
    requires node.parent == ns[n].parent && node.attrName == ns[n].attrName
    requires forall f :: f in node.fields ==> Linked(ns, b, n, f, node.fields[f])
    ensures Wf(ns[n := node], b)
    ensures Keeps(ns, ns[n := node]) || node.cls != ns[n].cls
  {
    var ns' := ns[n := node];
    forall m: Ref, f | m in ns' && f in ns'[m].fields
      ensures Linked(ns', b, m, f, ns'[m].fields[f])
    {
      if m == n {
        assert Linked(ns, b, n, f, node.fields[f]);
      } else {
        assert Linked(ns, b, m, f, ns[m].fields[f]);
      }
    }
  }

  /** Writing node `r` changes its tree only through the node itself: the trees of its children stay. */
  lemma AbsWritten(ns: map<Ref, Node>, b: nat, r: Ref, node: Node)
    requires Wf(ns, b) && r in ns
    requires forall f :: f in node.fields ==> Linked(ns, b, r, f, node.fields[f])
    ensures Abs(ns[r := node], b, r) ==
      Tree(node.cls, map f | f in node.fields :: AbsVal(ns, b, r, node.fields[f]), node.unknown)
  {
    var ns' := ns[r := node];
    WfClosed(ns, b, r + 1);
    assert Agree(ns, ns', r + 1, b);
    FieldTreesKept(ns, ns', b, r, node.fields);
  }

  /** Field values linked below `r` have the same trees in two heaps that agree above `r`. */
  lemma FieldTreesKept(ns: map<Ref, Node>, ns': map<Ref, Node>, b: nat, r: Ref, fields: map<string, Val>)
    requires Agree(ns, ns', r + 1, b) && ClosedFrom(ns, r + 1, b)
    requires forall f :: f in fields ==> Linked(ns, b, r, f, fields[f])
    ensures (map f | f in fields :: AbsVal(ns', b, r, fields[f])) == (map f | f in fields :: AbsVal(ns, b, r, fields[f]))
  {
    forall f | f in fields
      ensures AbsVal(ns', b, r, fields[f]) == AbsVal(ns, b, r, fields[f])
    {
      assert Linked(ns, b, r, f, fields[f]);
      AbsValFrame(ns, b, ns', b, r + 1, r, fields[f]);
    }
  }

  /** Rewriting a node made after `b1` keeps the old nodes. */
  lemma GrowsWrite(ns1: map<Ref, Node>, b1: nat, ns2: map<Ref, Node>, b2: nat, r: Ref, node: Node)
    requires Grows(ns1, b1, ns2, b2) && Wf(ns1, b1) && b1 <= r
    ensures Grows(ns1, b1, ns2[r := node], b2)
  {
  }

  /** The empty heap is well formed. */
  lemma WfEmpty()
    ensures Wf(map[], 0)
  {
  }

  /** A linked value stays linked while the old nodes keep their back-links. */
  lemma LinkedKept(ns1: map<Ref, Node>, b1: nat, ns2: map<Ref, Node>, b2: nat, n: Ref, f: string, v: Val)
    requires Linked(ns1, b1, n, f, v) && Keeps(ns1, ns2) && b1 <= b2
    ensures Linked(ns2, b2, n, f, v)
  {
  }

  /** A heap that only grew kept every back-link. */
  lemma GrowsKeeps(ns1: map<Ref, Node>, b1: nat, ns2: map<Ref, Node>, b2: nat)
    requires Grows(ns1, b1, ns2, b2)
    ensures Keeps(ns1, ns2)
  {
  }

  /** A well-formed heap is closed from any point on. */
  lemma WfClosed(ns: map<Ref, Node>, b: nat, lo: nat)
    requires Wf(ns, b)
    ensures ClosedFrom(ns, lo, b)
  {
    forall k: Ref, f, c: Ref | lo <= k && k in ns && f in ns[k].fields && Holds(ns[k].fields[f], c)
      ensures k < c < b
    {
      assert Linked(ns, b, k, f, ns[k].fields[f]);
    }
  }

  // ---------------------------------------------------------------------
  // Frames of a merge

  /** The slot of a declared field: its stored value, or None when `_<name>` was never set. */
  function FieldAt(n: Node, f: string): Option<Val>
  {
    if f in n.fields then Some(n.fields[f]) else None
  }

  /** The slot of an unknown param. */
  function UnknownAt(n: Node, f: string): Option<Raw>
  {
    if f in n.unknown then Some(n.unknown[f]) else None
  }

  /** Every field and unknown param outside `ks` is as it was. */
  ghost predicate SameSlots(a: Node, b: Node, ks: set<string>)
  {
    forall f :: f !in ks ==> FieldAt(b, f) == FieldAt(a, f) && UnknownAt(b, f) == UnknownAt(a, f)
  }

  /** A merge of key `k` into a node: class and links kept, only slot `k` touched, the flag only raised. */
  ghost predicate SlotOnly(a: Node, b: Node, k: string)
  {
    b.cls == a.cls && b.parent == a.parent && b.attrName == a.attrName &&
    SameSlots(a, b, {k}) && (a.changed ==> b.changed)
  }

  /**
   * A merge into node `n`: every old node keeps its class and links and its
   * flag only rises, and the nodes made before `n` are untouched.
   */
  ghost predicate MergeFrame(ns1: map<Ref, Node>, b1: nat, ns2: map<Ref, Node>, b2: nat, n: Ref)
  {
    b1 <= b2 && Keeps(ns1, ns2) &&
    (forall m: Ref :: m in ns1 && ns1[m].changed ==> m in ns2 && ns2[m].changed) &&
    (forall m: Ref :: m < n && m in ns1 ==> m in ns2 && ns2[m] == ns1[m])
  }

  lemma MergeFrameTrans(ns1: map<Ref, Node>, b1: nat, ns2: map<Ref, Node>, b2: nat, ns3: map<Ref, Node>, b3: nat, n: Ref)
    requires MergeFrame(ns1, b1, ns2, b2, n) && MergeFrame(ns2, b2, ns3, b3, n)
    ensures MergeFrame(ns1, b1, ns3, b3, n)
  {
  }

  /** A merge into a later node is a merge into an earlier one too. */
  lemma MergeFrameBelow(ns1: map<Ref, Node>, b1: nat, ns2: map<Ref, Node>, b2: nat, c: Ref, n: Ref)
    requires MergeFrame(ns1, b1, ns2, b2, c) && n <= c
    ensures MergeFrame(ns1, b1, ns2, b2, n)
  {
  }

  /** Growing the heap is a merge frame for any node. */
  lemma GrowsMergeFrame(ns1: map<Ref, Node>, b1: nat, ns2: map<Ref, Node>, b2: nat, n: Ref)
    requires Grows(ns1, b1, ns2, b2)
    ensures MergeFrame(ns1, b1, ns2, b2, n)
  {
  }

  /** Rewriting node `n` alone, with its class and links and a raised flag, is a merge frame for `n`. */
  lemma WriteMergeFrame(ns: map<Ref, Node>, b: nat, n: Ref, node: Node)
    requires n in ns && node.cls == ns[n].cls && node.parent == ns[n].parent && node.attrName == ns[n].attrName
    requires ns[n].changed ==> node.changed
    ensures MergeFrame(ns, b, ns[n := node], b, n)
  {
  }

  /** An instance listed in a stored list is held by it. */
  lemma HeldItem(xs: seq<Val>, i: nat)
    requires i < |xs| && xs[i].VRef?
    ensures Holds(VList(xs), xs[i].ref)
  {
    assert Holds(xs[i], xs[i].ref);
  }

  /** The instances of a list, in order. */
  function RefsOf(xs: seq<Val>): (ys: seq<Val>)
    ensures forall y :: y in ys <==> y in xs && y.VRef?
    ensures multiset(ys) <= multiset(xs)
  {
    if xs == [] then []
    else
      var front := xs[..|xs| - 1];
      assert xs == front + [xs[|xs| - 1]];
      RefsOf(front) + (if xs[|xs| - 1].VRef? then [xs[|xs| - 1]] else [])
  }

  lemma RefsOfAppend(xs: seq<Val>, x: Val)
    ensures RefsOf(xs + [x]) == RefsOf(xs) + (if x.VRef? then [x] else [])
  {
    assert (xs + [x])[..|xs|] == xs;
  }
}
