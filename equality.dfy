/**
 * Python's `==` as the engine meets it: on raw values, on stored field
 * values, between a stored value and a raw one, and inside `list.remove`.
 * A mapper instance is a `PropertyMapper`, whose `__eq__` always raises
 * AssertionError (see module Identity), so every comparison that reaches
 * an instance raises unless identity decides it first.
 */
module Equality {
  import opened RawData
  import opened Schema
  import opened MapperRules
  import opened Heaps

  // ---------------------------------------------------------------------
  // Stored values

  /** The raw value an adapter instance or a bool compares as (an adapter subclasses the builtin it wraps). */
  function Plain(v: Val): Raw
    requires v.VBool? || v.VScalar?
  {
    if v.VBool? then RBool(v.b) else v.v
  }

  /**
   * `a == b` on two stored values: an instance on either side raises, None
   * equals only None, lists compare item by item (an item identical to its
   * partner is equal without a call), scalars compare as their plain values.
   */
  function ValEq(a: Val, b: Val): (r: Result<bool>)
    ensures (a.VRef? || b.VRef?) ==> r == Err(AssertionError)
    decreases a, 1, 0
  {
    if a.VRef? || b.VRef? then Err(AssertionError)
    else if a.VNone? || b.VNone? then Ok(a == b)
    else if a.VList? && b.VList? then
      if |a.items| != |b.items| then Ok(false) else ItemsEq(a, b.items, 0)
    else if a.VList? || b.VList? then Ok(false)
    else Ok(PyEq(Plain(a), Plain(b)))
  }

  /** The items of the list `a` from `i` on against `ys`, stopping at the first unequal or failing pair. */
  function ItemsEq(a: Val, ys: seq<Val>, i: nat): Result<bool>
    requires a.VList? && |a.items| == |ys| && i <= |ys|
    decreases a, 0, |ys| - i
  {
    if i == |ys| then Ok(true)
    else match SameOrEq(a.items[i], ys[i])
      case Err(e) => Err(e)
      case Ok(false) => Ok(false)
      case Ok(true) => ItemsEq(a, ys, i + 1)
  }

  /** Python's identity-then-equality test (`PyObject_RichCompareBool`). */
  function SameOrEq(item: Val, x: Val): (r: Result<bool>)
    ensures item.VRef? && x.VRef? ==> (r.Ok? <==> item.ref == x.ref)
    decreases item, 1, 1
  {
    if item.VRef? && x.VRef? && item.ref == x.ref then Ok(true) else ValEq(item, x)
  }

  /**
   * `stored == raw`, a stored value against a value taken from the data:
   * an instance raises, lists compare item by item, scalars as plain values.
   */
  function ValRawEq(a: Val, b: Raw): (r: Result<bool>)
    ensures a.VRef? ==> r == Err(AssertionError)
    ensures a.VNone? ==> r == Ok(b.RNull?)
    ensures a.VBool? || a.VScalar? ==> r == Ok(PyEq(Plain(a), b))
    decreases a, 1
  {
    match a
    case VRef(_) => Err(AssertionError)
    case VNone => Ok(b.RNull?)
    case VList(xs) =>
      if !b.RArr? || |xs| != |b.items| then Ok(false) else ItemsRawEq(a, b.items, 0)
    case _ => Ok(PyEq(Plain(a), b))
  }

  function ItemsRawEq(a: Val, ys: seq<Raw>, i: nat): Result<bool>
    requires a.VList? && |a.items| == |ys| && i <= |ys|
    decreases a, 0, |ys| - i
  {
    if i == |ys| then Ok(true)
    else match ValRawEq(a.items[i], ys[i])
      case Err(e) => Err(e)
      case Ok(false) => Ok(false)
      case Ok(true) => ItemsRawEq(a, ys, i + 1)
  }

  /** Every stored value other than an instance equals itself; list items that are instances are equal by identity. */
  lemma {:induction false} ValEqReflexive(v: Val)
    requires !v.VRef?
    ensures ValEq(v, v) == Ok(true)
    decreases v, 1
  {
    match v
    case VList(xs) => ItemsEqReflexive(v, 0);
    case VBool(_) => PyEqReflexive(Plain(v));
    case VScalar(_, _) => PyEqReflexive(Plain(v));
    case VNone =>
  }

  lemma {:induction false} ItemsEqReflexive(v: Val, i: nat)
    requires v.VList? && i <= |v.items|
    ensures ItemsEq(v, v.items, i) == Ok(true)
    decreases v, 0, |v.items| - i
  {
    if i < |v.items| {
      var x := v.items[i];
      if !x.VRef? {
        ValEqReflexive(x);
      }
      ItemsEqReflexive(v, i + 1);
    }
  }

  // ---------------------------------------------------------------------
  // list.remove

  /**
   * `xs.remove(x)` as Python runs it: the first item identical or equal to
   * `x` goes; a comparison that raises stops the search, and no match
   * raises ValueError.
   */
  function ListRemove(xs: seq<Val>, x: Val): Result<seq<Val>>
    decreases |xs|
  {
    if xs == [] then Err(ValueError)
    else match SameOrEq(xs[0], x)
      case Err(e) => Err(e)
      case Ok(true) => Ok(xs[1..])
      case Ok(false) =>
        match ListRemove(xs[1..], x)
        case Err(e) => Err(e)
        case Ok(ys) => Ok([xs[0]] + ys)
  }

  /** The list without its item `i`, the others in order. */
  function RemoveAt(xs: seq<Val>, i: nat): (ys: seq<Val>)
    requires i < |xs|
    ensures |ys| == |xs| - 1
    ensures multiset(ys) + multiset{xs[i]} == multiset(xs)
    ensures forall j :: 0 <= j < |ys| ==> ys[j] == (if j < i then xs[j] else xs[j + 1])
  {
    assert xs == xs[..i] + [xs[i]] + xs[i + 1..];
    xs[..i] + xs[i + 1..]
  }

  /**
   * As written, `obj_list.remove(obj)` for an instance `obj` compares every
   * item before it with `obj`, and that comparison raises: the removal only
   * succeeds when `obj` is the first item.
   */
  lemma {:induction false} RemoveInstanceAsWritten(xs: seq<Val>, i: nat)
    requires i < |xs| && xs[i].VRef?
    requires forall j :: 0 <= j < i ==> xs[j] != xs[i]
    ensures i == 0 ==> ListRemove(xs, xs[i]) == Ok(RemoveAt(xs, i))
    ensures i > 0 ==> ListRemove(xs, xs[i]) == Err(AssertionError)
  {
    if i > 0 {
      assert SameOrEq(xs[0], xs[i]) == Err(AssertionError);
    } else {
      assert RemoveAt(xs, 0) == xs[1..];
    }
  }

  /** The smallest case: the second of two instances cannot be removed. */
  lemma SecondInstanceNotRemovable(c1: Ref, c2: Ref)
    requires c1 != c2
    ensures ListRemove([VRef(c1), VRef(c2)], VRef(c2)) == Err(AssertionError)
    ensures ListRemove([VRef(c2), VRef(c1)], VRef(c2)) == Ok([VRef(c1)])
  {
    RemoveInstanceAsWritten([VRef(c1), VRef(c2)], 1);
    RemoveInstanceAsWritten([VRef(c2), VRef(c1)], 0);
  }

  // ---------------------------------------------------------------------
  // is_equal_or_compat

  /**
   * `is_equal_or_compat` of the instance `n`: with a key field, its stored
   * key value against the data's (None when the data lacks it; a key field
   * the table does not declare, or data that is not a dict, raises
   * AttributeError); without one, `is_compat` of its class.
   */
  function EqualOrCompat(n: Node, data: Raw): Result<bool>
  {
    match n.cls.keyField
    case None => IsCompat(n.cls, data)
    case Some(kf) =>
      if kf !in n.cls.table || !data.RObj? then Err(AttributeError)
      else ValRawEq(Stored(n, kf), if kf in data.entries then data.entries[kf] else RNull)
  }

  /**
   * With a key field, the answer depends on the key values alone: two
   * instances of one class holding the same key value answer alike,
   * whatever else they hold.
   */
  lemma KeyFieldDecides(a: Node, b: Node, data: Raw)
    requires a.cls == b.cls && a.cls.keyField.Some?
    requires Stored(a, a.cls.keyField.value) == Stored(b, a.cls.keyField.value)
    ensures EqualOrCompat(a, data) == EqualOrCompat(b, data)
  {
  }

  /** An instance whose key field holds the data's key value, parsed unchanged, is the one the data is about. */
  lemma SameKeyIsEqual(n: Node, data: Raw, name: string, adapter: string)
    requires n.cls.keyField == Some(name) && name in n.cls.table
    requires data.RObj? && name in data.entries
    requires Stored(n, name) == VScalar(adapter, data.entries[name])
    ensures EqualOrCompat(n, data) == Ok(true)
  {
    PyEqReflexive(data.entries[name]);
  }

  /** Without a key field, it is the compatibility test of the class. */
  lemma NoKeyFieldIsCompat(n: Node, data: Raw)
    requires n.cls.keyField.None?
    ensures EqualOrCompat(n, data) == IsCompat(n.cls, data)
  {
  }
}
