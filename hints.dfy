/**
 * Declared type hints and the validator of property_mapper/hints.py.
 *
 * A hint is what a field annotation evaluates to in Python: None, a class,
 * a function, a dict, the bare `List`, `list[...]`, `Union[...]`, a list or
 * tuple literal, a string forward reference, or anything else. The checks
 * only accept (Pass) or raise (Fail); they change nothing.
 */
module Hints {
  import opened RawData

  /** A class used as a hint: the three own kinds, or any other class (`str`, `int`, `list`, ...). */
  datatype PyClass = MapperClass(name: string) | AdapterClass(name: string) | BoolClass | OtherClass(name: string)

  datatype Hint =
    | NoneHint
    | ClassHint(cls: PyClass)
    | FunctionHint
    | DictHint
    | BareList                  // `typing.List` without an argument
    | ListHint(args: seq<Hint>) // `list[...]` / `List[...]`
    | UnionHint(args: seq<Hint>) // `Union[...]` / `X | Y`
    | LiteralSeq(items: seq<Hint>) // a list or tuple literal such as `(A, B)`
    | TextHint(text: string)    // a string forward reference such as 'Test'
    | OtherHint

  /** `issubclass(c, own_types)`: a mapper, an adapter or bool. */
  predicate IsOwnClass(c: PyClass)
  {
    !c.OtherClass?
  }

  predicate IsOwnClassHint(h: Hint)
  {
    h.ClassHint? && IsOwnClass(h.cls)
  }

  /** `is_list`: a parameterised list alias. */
  predicate IsList(h: Hint) { h.ListHint? }

  /** `is_union`: `Union[...]` or `X | Y`. */
  predicate IsUnion(h: Hint) { h.UnionHint? }

  // ---------------------------------------------------------------------
  // check_hint_type, check_list_hint, check_union_hint

  /** `check_hint_type`: the if/elif chain has no else, so unmatched hints pass. */
  function CheckHintType(h: Hint): Outcome
    decreases h, 2, 0
  {
    match h
    case NoneHint => Fail(TypeError)
    case ClassHint(c) => if IsOwnClass(c) then Pass else Fail(TypeError)
    case FunctionHint => Fail(TypeError)
    case DictHint => Fail(TypeError)
    case BareList => Fail(TypeError)
    case ListHint(_) => CheckListHint(h)
    case UnionHint(_) => CheckUnionHint(h)
    case _ => Pass
  }

  /** `check_list_hint`: one argument, not itself a list; a union goes to the union check. */
  function CheckListHint(h: Hint): Outcome
    requires h.ListHint?
    decreases h, 1, 0
  {
    if |h.args| > 1 then Fail(TypeError)
    else if |h.args| == 0 then Fail(IndexError)
    else if IsList(h.args[0]) then Fail(RecursionError)
    else if IsUnion(h.args[0]) then CheckUnionHint(h.args[0])
    else CheckHintType(h.args[0])
  }

  /** `check_union_hint`: members in order; a list or union member raises RecursionError. */
  function CheckUnionHint(h: Hint): Outcome
    requires h.UnionHint?
    decreases h, 1, 0
  {
    CheckMembers(h, 0)
  }

  function CheckMembers(h: Hint, i: nat): Outcome
    requires h.UnionHint? && i <= |h.args|
    decreases h, 0, |h.args| - i
  {
    if i == |h.args| then Pass
    else if IsList(h.args[i]) || IsUnion(h.args[i]) then Fail(RecursionError)
    else match CheckHintType(h.args[i])
      case Fail(e) => Fail(e)
      case Pass => CheckMembers(h, i + 1)
  }

  // ---------------------------------------------------------------------
  // The accepted hints, stated without the checker

  /** A hint that is neither a list nor a union passes iff it is an own class or matches no branch. */
  predicate LeafAccepted(h: Hint)
  {
    match h
    case ClassHint(c) => IsOwnClass(c)
    case LiteralSeq(_) => true
    case TextHint(_) => true
    case OtherHint => true
    case _ => false
  }

  /** Union members: no list, no union, every member an accepted leaf. */
  predicate MembersAccepted(args: seq<Hint>)
  {
    forall i :: 0 <= i < |args| ==> !IsList(args[i]) && !IsUnion(args[i]) && LeafAccepted(args[i])
  }

  /** The shapes section 4.1 allows: a leaf, a list of one leaf or of a union, a union of leaves. */
  predicate Accepted(h: Hint)
  {
    match h
    case ListHint(args) =>
      |args| == 1 && !IsList(args[0]) &&
      (if IsUnion(args[0]) then MembersAccepted(args[0].args) else LeafAccepted(args[0]))
    case UnionHint(args) => MembersAccepted(args)
    case _ => LeafAccepted(h)
  }

  lemma {:induction false} CheckMembersAccepts(h: Hint, i: nat)
    requires h.UnionHint? && i <= |h.args|
    ensures CheckMembers(h, i) == Pass <==> MembersAccepted(h.args[i..])
    decreases |h.args| - i
  {
    if i < |h.args| {
      CheckMembersAccepts(h, i + 1);
      var m := h.args[i];
      assert h.args[i..] == [m] + h.args[i + 1..];
      if !IsList(m) && !IsUnion(m) {
        assert CheckHintType(m) == Pass <==> LeafAccepted(m);
      }
    }
  }

  /** The validator accepts exactly the hints `Accepted` describes. */
  lemma CheckHintTypeAccepts(h: Hint)
    ensures CheckHintType(h) == Pass <==> Accepted(h)
  {
    match h
    case ListHint(args) =>
      if |args| == 1 && !IsList(args[0]) {
        if IsUnion(args[0]) {
          assert CheckHintType(h) == CheckListHint(h);
          assert CheckListHint(h) == CheckUnionHint(args[0]);
          assert CheckUnionHint(args[0]) == CheckMembers(args[0], 0);
          CheckMembersAccepts(args[0], 0);
          assert args[0].args[0..] == args[0].args;
        } else {
          assert CheckHintType(h) == CheckHintType(args[0]);
        }
      }
    case UnionHint(args) =>
      CheckMembersAccepts(h, 0);
      assert args[0..] == args;
    case _ =>
  }

  /**
   * In a union the first member that is not accepted decides the error:
   * a nested list or union raises RecursionError, any other TypeError.
   */
  lemma {:induction false} FirstBadMemberDecides(h: Hint, i: nat, k: nat)
    requires h.UnionHint? && i <= k < |h.args|
    requires forall j :: i <= j < k ==> !IsList(h.args[j]) && !IsUnion(h.args[j]) && LeafAccepted(h.args[j])
    requires !(!IsList(h.args[k]) && !IsUnion(h.args[k]) && LeafAccepted(h.args[k]))
    ensures CheckMembers(h, i) ==
      (if IsList(h.args[k]) || IsUnion(h.args[k]) then Fail(RecursionError) else Fail(TypeError))
    decreases k - i
  {
    if i < k {
      var m := h.args[i];
      assert CheckHintType(m) == Pass;
      FirstBadMemberDecides(h, i + 1, k);
    }
  }

  /** A union of one forward reference and an adapter passes: the forward name is never checked. */
  lemma ForwardReferencePasses(name: string, adapter: string)
    ensures CheckHintType(TextHint(name)) == Pass
    ensures CheckHintType(UnionHint([ClassHint(AdapterClass(adapter)), TextHint(name)])) == Pass
    ensures CheckHintType(ListHint([TextHint(name)])) == Pass
  {
    var u := UnionHint([ClassHint(AdapterClass(adapter)), TextHint(name)]);
    assert CheckMembers(u, 2) == Pass;
    assert CheckHintType(u.args[1]) == Pass;
    assert CheckMembers(u, 1) == Pass;
    assert CheckHintType(u.args[0]) == Pass;
    assert CheckMembers(u, 0) == Pass;
  }
}
