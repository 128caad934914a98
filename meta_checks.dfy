/**
 * The second copy of the hint validator, kept in property_mapper/mapper_meta.py
 * and used by the class compiler. It differs from the one in hints.py:
 *
 *  - a union collects the members that are not own classes and raises
 *    TypeError; a member that is not a class at all (a list, a union, a forward
 *    reference) makes `issubclass` raise TypeError first;
 *  - a list hint looks only at its first argument (extra arguments are
 *    ignored), and when that argument is a union it hands the LIST hint itself
 *    to the union check, whose only member is then the union: always TypeError;
 *  - nothing raises RecursionError.
 */
module MetaChecks {
  import opened RawData
  import opened Hints

  /** `issubclass(t, _own_types)` for a union member: TypeError unless `t` is a class. */
  predicate IsClassHint(h: Hint) { h.ClassHint? }

  /** `_check_union_hint`, stated over the members: every one an own class, or TypeError. */
  function MetaUnionOutcome(members: seq<Hint>): (o: Outcome)
  {
    if forall i :: 0 <= i < |members| ==> IsOwnClassHint(members[i]) then Pass else Fail(TypeError)
  }

  /**
   * `_check_union_hint` as written: walks the members, stops at the first one
   * `issubclass` cannot take, and collects the classes that are not own.
   */
  method CheckUnionMembers(members: seq<Hint>) returns (o: Outcome, wrong: seq<PyClass>)
    ensures o == MetaUnionOutcome(members)
    ensures o == Pass ==> wrong == []
    ensures forall k :: 0 <= k < |wrong| ==> !IsOwnClass(wrong[k])
  {
    wrong := [];
    var i := 0;
    while i < |members|
      invariant 0 <= i <= |members|
      invariant forall j :: 0 <= j < i ==> IsClassHint(members[j])
      invariant (wrong == []) <==> (forall j :: 0 <= j < i ==> IsOwnClassHint(members[j]))
      invariant forall k :: 0 <= k < |wrong| ==> !IsOwnClass(wrong[k])
    {
      var t := members[i];
      if !IsClassHint(t) {
        // `issubclass` raises before the collected list is looked at
        return Fail(TypeError), wrong;
      }
      if !IsOwnClass(t.cls) {
        wrong := wrong + [t.cls];
      }
      i := i + 1;
    }
    if wrong != [] {
      o := Fail(TypeError);
    } else {
      o := Pass;
    }
  }

  /** `_check_list_hint`: the first argument only; a union inside sends the list hint itself on. */
  function MetaCheckListHint(h: Hint): Outcome
    requires h.ListHint?
  {
    if |h.args| == 0 then Fail(IndexError)
    else if IsUnion(h.args[0]) then MetaUnionOutcome(h.args)
    else if IsOwnClassHint(h.args[0]) then Pass
    else Fail(TypeError)
  }

  /** `_check_hint_type` of mapper_meta.py: the same if/elif chain over the two helpers above. */
  function MetaCheckHintType(h: Hint): Outcome
  {
    match h
    case NoneHint => Fail(TypeError)
    case ClassHint(c) => if IsOwnClass(c) then Pass else Fail(TypeError)
    case FunctionHint => Fail(TypeError)
    case DictHint => Fail(TypeError)
    case BareList => Fail(TypeError)
    case ListHint(_) => MetaCheckListHint(h)
    case UnionHint(args) => MetaUnionOutcome(args)
    case _ => Pass
  }

  // ---------------------------------------------------------------------
  // How the two validators relate

  /** The compiler's validator only ever accepts or raises TypeError or IndexError. */
  lemma MetaErrors(h: Hint)
    ensures MetaCheckHintType(h) in {Pass, Fail(TypeError), Fail(IndexError)}
    ensures MetaCheckHintType(h) == Fail(IndexError) <==> h.ListHint? && h.args == []
  {
  }

  /** On hints that are neither lists nor unions both validators give the same outcome. */
  lemma SameOnLeaves(h: Hint)
    requires !IsList(h) && !IsUnion(h)
    ensures MetaCheckHintType(h) == CheckHintType(h)
  {
  }

  /** A union passes the compiler's validator exactly when every member is an own class. */
  lemma MetaUnionExact(h: Hint)
    requires h.UnionHint?
    ensures MetaCheckHintType(h) == Pass <==> forall i :: 0 <= i < |h.args| ==> IsOwnClassHint(h.args[i])
    ensures MetaCheckHintType(h) != Pass ==> MetaCheckHintType(h) == Fail(TypeError)
  {
  }

  /**
   * Whatever the compiler's validator accepts, the hints.py validator accepts
   * too, except a list hint with more than one argument.
   */
  lemma {:induction false} MetaPassImpliesHintsPass(h: Hint)
    requires !(h.ListHint? && |h.args| > 1)
    requires MetaCheckHintType(h) == Pass
    ensures CheckHintType(h) == Pass
  {
    match h
    case UnionHint(args) =>
      assert MembersAccepted(args[0..]) by {
        forall i | 0 <= i < |args|
          ensures !IsList(args[i]) && !IsUnion(args[i]) && LeafAccepted(args[i])
        {
          assert IsOwnClassHint(args[i]);
        }
        assert args[0..] == args;
      }
      CheckMembersAccepts(h, 0);
    case ListHint(args) =>
      assert IsOwnClassHint(args[0]);
      assert CheckHintType(h) == CheckHintType(args[0]);
    case _ =>
  }

  /**
   * `list[Union[A, B]]` of own classes: hints.py accepts it, the compiler's
   * validator always rejects it, because it hands the list hint to the union check.
   */
  lemma {:induction false} ListOfUnionDiverges(a: PyClass, b: PyClass)
    requires IsOwnClass(a) && IsOwnClass(b)
    ensures CheckHintType(ListHint([UnionHint([ClassHint(a), ClassHint(b)])])) == Pass
    ensures MetaCheckHintType(ListHint([UnionHint([ClassHint(a), ClassHint(b)])])) == Fail(TypeError)
  {
    var u := UnionHint([ClassHint(a), ClassHint(b)]);
    var l := ListHint([u]);
    assert CheckMembers(u, 2) == Pass;
    assert CheckMembers(u, 1) == Pass;
    assert CheckMembers(u, 0) == Pass;
    assert CheckHintType(l) == CheckListHint(l);
    assert CheckListHint(l) == CheckUnionHint(u);
    assert !IsOwnClassHint(l.args[0]);
  }

  /** `list[A, B]`: hints.py raises TypeError, the compiler's validator looks at `A` only. */
  lemma ListExtraArgumentsDiverge(a: PyClass, b: Hint)
    requires IsOwnClass(a)
    ensures CheckHintType(ListHint([ClassHint(a), b])) == Fail(TypeError)
    ensures MetaCheckHintType(ListHint([ClassHint(a), b])) == Pass
  {
  }

  /**
   * A forward reference inside a union: hints.py never inspects it and
   * passes, the compiler's validator cannot take it to `issubclass`.
   */
  lemma {:induction false} ForwardReferenceInUnionDiverges(a: PyClass, name: string)
    requires IsOwnClass(a)
    ensures CheckHintType(UnionHint([ClassHint(a), TextHint(name)])) == Pass
    ensures MetaCheckHintType(UnionHint([ClassHint(a), TextHint(name)])) == Fail(TypeError)
  {
    var u := UnionHint([ClassHint(a), TextHint(name)]);
    assert CheckMembers(u, 2) == Pass;
    assert CheckMembers(u, 1) == Pass;
    assert CheckMembers(u, 0) == Pass;
    assert !IsOwnClassHint(u.args[1]);
  }

  /** A list nested in a list: RecursionError in hints.py, TypeError in the compiler's validator. */
  lemma NestedListDiverges(inner: seq<Hint>)
    ensures CheckHintType(ListHint([ListHint(inner)])) == Fail(RecursionError)
    ensures MetaCheckHintType(ListHint([ListHint(inner)])) == Fail(TypeError)
  {
  }
}
