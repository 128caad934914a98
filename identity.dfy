/**
 * `PropertyMapper.__eq__` (property_mapper/mapper.py): an assertion that
 * the other object is of the same class and not of a subclass, then a
 * comparison of the key field, or of every declared field in declaration
 * order, stopping at the first unequal one.
 */
module Identity {
  import opened RawData
  import opened Schema
  import opened Heaps
  import opened Equality

  /** `isinstance(other, cls)`: `cls` is among the classes of `other`. */
  predicate IsInstance(other: Node, cls: MapperClass)
  {
    cls.name in other.cls.classes
  }

  /** `issubclass(sub, cls)`: `cls` is among the classes `sub` derives from, itself included. */
  predicate IsSubclass(sub: MapperClass, cls: MapperClass)
  {
    cls.name in sub.classes
  }

  /** The asserted guard: `other` is an instance of the class of `self` whose class is not a subclass of it. */
  predicate EqGuard(self: Node, other: Node)
  {
    IsInstance(other, self.cls) && !IsSubclass(other.cls, self.cls)
  }

  /** `getattr(n, f)` for a field name: the accessor of a declared field, AttributeError for any other. */
  function Attr(n: Node, f: string): (r: Result<Val>)
    ensures r.Ok? <==> f in n.cls.table
  {
    if f in n.cls.table then Ok(Stored(n, f)) else Err(AttributeError)
  }

  /** The field loop: each name of `keys` in turn, `!=` on the two values, `False` at the first unequal pair. */
  function FieldsEq(self: Node, other: Node, keys: seq<string>): Result<bool>
    decreases |keys|
  {
    if keys == [] then Ok(true)
    else match Attr(self, keys[0])
      case Err(e) => Err(e)
      case Ok(x) =>
        match Attr(other, keys[0])
        case Err(e) => Err(e)
        case Ok(y) =>
          match ValEq(x, y)
          case Err(e) => Err(e)
          case Ok(false) => Ok(false)
          case Ok(true) => FieldsEq(self, other, keys[1..])
  }

  /**
   * The comparison after the assertion: the key field's values when the
   * class has one, otherwise the field loop over `keys`, the declared
   * names in the order of `_attrs_dict`.
   */
  function EqBody(self: Node, other: Node, keys: seq<string>): Result<bool>
  {
    match self.cls.keyField
    case Some(kf) =>
      (match Attr(self, kf)
       case Err(e) => Err(e)
       case Ok(x) =>
         match Attr(other, kf)
         case Err(e) => Err(e)
         case Ok(y) => ValEq(x, y))
    case None => FieldsEq(self, other, keys)
  }

  /** `self == other`. */
  function Eq(self: Node, other: Node, keys: seq<string>): Result<bool>
  {
    if EqGuard(self, other) then EqBody(self, other, keys) else Err(AssertionError)
  }

  /**
   * The guard contradicts itself: being an instance of a class and having
   * a class that is a subclass of it are the same thing, so every
   * comparison of two mapper instances raises AssertionError.
   */
  lemma EqAlwaysRaises(self: Node, other: Node, keys: seq<string>)
    ensures !EqGuard(self, other)
    ensures Eq(self, other, keys) == Err(AssertionError)
  {
  }

  /** With a key field, the key values alone decide: instances that agree on them compare alike. */
  lemma KeyFieldDecides(a: Node, b: Node, a2: Node, b2: Node, keys: seq<string>, keys2: seq<string>)
    requires a.cls.keyField.Some? && a2.cls.keyField == a.cls.keyField
    requires Attr(a, a.cls.keyField.value) == Attr(a2, a.cls.keyField.value)
    requires Attr(b, a.cls.keyField.value) == Attr(b2, a.cls.keyField.value)
    ensures EqBody(a, b, keys) == EqBody(a2, b2, keys2)
  {
  }

  /** Without a key field, the loop answers True exactly when every pair of field values is equal. */
  lemma {:induction false} FieldsEqAllEqual(self: Node, other: Node, keys: seq<string>)
    ensures FieldsEq(self, other, keys) == Ok(true) <==>
      forall i :: 0 <= i < |keys| ==>
        keys[i] in self.cls.table && keys[i] in other.cls.table &&
        ValEq(Stored(self, keys[i]), Stored(other, keys[i])) == Ok(true)
    decreases |keys|
  {
    if keys != [] {
      FieldsEqAllEqual(self, other, keys[1..]);
      assert forall i :: 1 <= i < |keys| ==> keys[i] == keys[1..][i - 1];
    }
  }

  /** The unknown params and the changed flag never affect the result. */
  lemma {:induction false} StateIgnored(self: Node, other: Node, keys: seq<string>, unknown: map<string, Raw>, changed: bool)
    ensures EqBody(self.(unknown := unknown, changed := changed), other, keys) == EqBody(self, other, keys)
    ensures EqBody(self, other.(unknown := unknown, changed := changed), keys) == EqBody(self, other, keys)
  {
    var s2 := self.(unknown := unknown, changed := changed);
    var o2 := other.(unknown := unknown, changed := changed);
    FieldsEqStateIgnored(self, other, keys, s2, o2);
  }

  lemma {:induction false} FieldsEqStateIgnored(self: Node, other: Node, keys: seq<string>, s2: Node, o2: Node)
    requires s2.cls == self.cls && s2.fields == self.fields
    requires o2.cls == other.cls && o2.fields == other.fields
    ensures FieldsEq(s2, other, keys) == FieldsEq(self, other, keys)
    ensures FieldsEq(self, o2, keys) == FieldsEq(self, other, keys)
    decreases |keys|
  {
    if keys != [] {
      FieldsEqStateIgnored(self, other, keys[1..], s2, o2);
    }
  }

  /**
   * An instance compares equal to one with the same class and fields as
   * long as no field holds an instance directly (an instance in a list is
   * equal to itself by identity).
   */
  lemma {:induction false} SameFieldsEqual(self: Node, other: Node, keys: seq<string>)
    requires other.cls == self.cls && other.fields == self.fields
    requires forall f :: f in self.fields ==> !self.fields[f].VRef?
    requires self.cls.keyField.Some? ==> self.cls.keyField.value in self.cls.table
    requires forall i :: 0 <= i < |keys| ==> keys[i] in self.cls.table
    ensures EqBody(self, other, keys) == Ok(true)
  {
    forall f
      ensures !Stored(self, f).VRef? && ValEq(Stored(self, f), Stored(other, f)) == Ok(true)
    {
      ValEqReflexive(Stored(self, f));
    }
    FieldsEqAllEqual(self, other, keys);
  }
}
