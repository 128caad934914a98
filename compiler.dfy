/**
 * The attribute-table compiler of property_mapper/mapper_meta.py
 * (`PropertyMapperMeta.__new__`) and the class-level `add_property` /
 * `remove_property`.
 *
 * Reflection is replaced by explicit base descriptions: a compiled mapper
 * base carries its table, an interface base its type hints, and every base
 * the attribute names it has (its own and inherited ones).
 */
module Compiler {
  import opened RawData
  import opened Hints
  import opened MetaChecks
  import opened Schema

  /** One base class of the class being compiled. */
  datatype Base =
    | MapperBase(table: Table, attrs: set<string>)                      // a PropertyMapperBase subclass
    | InterfaceBase(hints: seq<(string, Hint)>, attrs: set<string>, scope: map<string, Hint>) // a MapperInterface subclass
    | PlainBase(attrs: set<string>)                                     // any other class

  /** How a field is read: `make_property` (the stored value or None) or `make_property_getter`. */
  datatype Accessor = Plain | Computed

  /** The compiler's result: the new `_attrs_dict` (None when it is never assigned) and the accessors it installs. */
  datatype Compiled = Compiled(table: Option<Table>, accessors: map<string, Accessor>)

  // ---------------------------------------------------------------------
  // The fold, stated as functions

  /** `name.rstrip('_')`. */
  function StripUnderscores(s: string): (t: string)
    ensures |t| <= |s| && t == s[..|t|]
    ensures t == [] || t[|t| - 1] != '_'
    ensures forall i :: |t| <= i < |s| ==> s[i] == '_'
    decreases |s|
  {
    if s != [] && s[|s| - 1] == '_' then StripUnderscores(s[..|s| - 1]) else s
  }

  function KindOf(c: PyClass): Kind
    requires IsOwnClass(c)
  {
    match c
    case MapperClass(n) => MapperKind(n)
    case AdapterClass(n) => AdapterKind(n)
    case BoolClass => BoolKind
  }

  /** The items of a list or tuple literal, each checked and required to be an own class. */
  function CompileItems(items: seq<Hint>): Result<seq<Kind>>
  {
    if items == [] then Ok([])
    else match MetaCheckHintType(items[0])
      case Fail(e) => Err(e)
      case Pass =>
        if !IsOwnClassHint(items[0]) then Err(TypeError)
        else match CompileItems(items[1..])
          case Err(e) => Err(e)
          case Ok(rest) => Ok([KindOf(items[0].cls)] + rest)
  }

  /** The names of the string forward references in a hint, also inside `list[...]` and `Union[...]`. */
  function ForwardNames(h: Hint): set<string>
    decreases h, 1
  {
    match h
    case TextHint(n) => {n}
    case ListHint(args) => ForwardNamesOf(args)
    case UnionHint(args) => ForwardNamesOf(args)
    case _ => {}
  }

  function ForwardNamesOf(args: seq<Hint>): set<string>
    decreases args, 0
  {
    if args == [] then {} else ForwardNames(args[0]) + ForwardNamesOf(args[1..])
  }

  /**
   * What `get_type_hints` makes of one annotation: every string forward
   * reference, also as an argument of `list[...]` or `Union[...]`, is
   * evaluated in `scope`, the names the module binds when the class
   * statement runs; a name not bound yet raises NameError. A list or tuple
   * literal keeps its strings.
   */
  function ResolveHint(scope: map<string, Hint>, h: Hint): (r: Result<Hint>)
    ensures r.Err? <==> !(ForwardNames(h) <= scope.Keys)
    ensures r.Err? ==> r.error == NameError
    ensures ForwardNames(h) == {} ==> r == Ok(h)
    decreases h, 1
  {
    match h
    case TextHint(n) => if n in scope then Ok(scope[n]) else Err(NameError)
    case ListHint(args) =>
      (match ResolveArgs(scope, args) case Err(e) => Err(e) case Ok(xs) => Ok(ListHint(xs)))
    case UnionHint(args) =>
      (match ResolveArgs(scope, args) case Err(e) => Err(e) case Ok(xs) => Ok(UnionHint(xs)))
    case _ => Ok(h)
  }

  function ResolveArgs(scope: map<string, Hint>, args: seq<Hint>): (r: Result<seq<Hint>>)
    ensures r.Err? <==> !(ForwardNamesOf(args) <= scope.Keys)
    ensures r.Err? ==> r.error == NameError
    ensures r.Ok? ==> |r.value| == |args|
    ensures ForwardNamesOf(args) == {} ==> r == Ok(args)
    decreases args, 0
  {
    if args == [] then Ok([])
    else match ResolveHint(scope, args[0])
      case Err(e) => Err(e)
      case Ok(x) =>
        match ResolveArgs(scope, args[1..])
        case Err(e) => Err(e)
        case Ok(xs) =>
          assert args == [args[0]] + args[1..];
          Ok([x] + xs)
  }

  /**
   * `get_type_hints(base)`: all annotations of an interface are evaluated
   * before any is compiled, so one unbound forward reference, even under a
   * name the base already defines, fails the whole base.
   */
  function ResolveHints(scope: map<string, Hint>, hints: seq<(string, Hint)>): (r: Result<seq<(string, Hint)>>)
    ensures r.Ok? ==>
      |r.value| == |hints| &&
      forall i :: 0 <= i < |hints| ==> r.value[i].0 == hints[i].0 && ResolveHint(scope, hints[i].1) == Ok(r.value[i].1)
    ensures r.Err? <==> exists i :: 0 <= i < |hints| && ResolveHint(scope, hints[i].1).Err?
    ensures r.Err? ==> r.error == NameError
    decreases |hints|
  {
    if hints == [] then Ok([])
    else match ResolveHint(scope, hints[0].1)
      case Err(e) => Err(e)
      case Ok(h) =>
        match ResolveHints(scope, hints[1..])
        case Err(e) =>
          assert exists i :: 0 <= i < |hints| && ResolveHint(scope, hints[i].1).Err? by {
            var i :| 0 <= i < |hints[1..]| && ResolveHint(scope, hints[1..][i].1).Err?;
            assert hints[1..][i] == hints[i + 1];
          }
          Err(e)
        case Ok(hs) =>
          assert forall i :: 1 <= i < |hints| ==> hints[i] == hints[1..][i - 1];
          Ok([(hints[0].0, h)] + hs)
  }

  /** One hint of an interface: checked, then stored as a class or as a list of classes. */
  function CompileHint(h: Hint): Result<Shape>
  {
    match MetaCheckHintType(h)
    case Fail(e) => Err(e)
    case Pass =>
      if IsOwnClassHint(h) then Ok(Leaf(KindOf(h.cls)))
      else if h.LiteralSeq? then
        match CompileItems(h.items)
        case Err(e) => Err(e)
        case Ok(ks) => Ok(ClassList(ks))
      else Err(TypeError)
  }

  /** The hints of one interface base, in order, over the table built so far. */
  function AddHints(t: Table, hints: seq<(string, Hint)>, attrs: set<string>): Result<Table>
    decreases |hints|
  {
    if hints == [] then Ok(t)
    else
      var name := StripUnderscores(hints[0].0);
      if name in attrs then AddHints(t, hints[1..], attrs)
      else match CompileHint(hints[0].1)
        case Err(e) => Err(e)
        case Ok(s) => AddHints(t[name := s], hints[1..], attrs)
  }

  function StepBase(t: Table, b: Base): Result<Table>
  {
    match b
    case MapperBase(bt, _) => Ok(t + bt)
    case InterfaceBase(hints, attrs, scope) =>
      (match ResolveHints(scope, hints)
       case Err(e) => Err(e)
       case Ok(hs) => AddHints(t, hs, attrs))
    case PlainBase(_) => Ok(t)
  }

  function FoldBases(t: Table, bases: seq<Base>): Result<Table>
    decreases |bases|
  {
    if bases == [] then Ok(t)
    else match StepBase(t, bases[0])
      case Err(e) => Err(e)
      case Ok(t') => FoldBases(t', bases[1..])
  }

  /** `_attrs_dict` is assigned inside the loop over the bases only. */
  function CompileTable(bases: seq<Base>): Result<Option<Table>>
  {
    if bases == [] then Ok(None)
    else match FoldBases(map[], bases)
      case Err(e) => Err(e)
      case Ok(t) => Ok(Some(t))
  }

  function GetterName(field: string): string { "_get_" + field }

  predicate SomeBaseHas(bases: seq<Base>, name: string)
  {
    exists i :: 0 <= i < |bases| && name in bases[i].attrs
  }

  /** The accessors installed for the fields of `t`. */
  function AccessorsFor(t: Table, bases: seq<Base>, body: set<string>): map<string, Accessor>
  {
    map f | f in t && (GetterName(f) in body || !SomeBaseHas(bases, GetterName(f))) ::
      if GetterName(f) in body then Computed else Plain
  }

  function CompileSpec(bases: seq<Base>, body: set<string>): Result<Compiled>
  {
    match CompileTable(bases)
    case Err(e) => Err(e)
    case Ok(None) => Ok(Compiled(None, map[]))
    case Ok(Some(t)) => Ok(Compiled(Some(t), AccessorsFor(t, bases, body)))
  }

  // ---------------------------------------------------------------------
  // `PropertyMapperMeta.__new__`

  function PrependKinds(kinds: seq<Kind>, r: Result<seq<Kind>>): Result<seq<Kind>>
  {
    match r
    case Err(e) => Err(e)
    case Ok(rest) => Ok(kinds + rest)
  }

  method CompileLiteral(items: seq<Hint>) returns (r: Result<seq<Kind>>)
    ensures r == CompileItems(items)
  {
    var kinds: seq<Kind> := [];
    var i := 0;
    assert items[0..] == items;
    match CompileItems(items) {
      case Err(_) =>
      case Ok(all) => assert [] + all == all;
    }
    while i < |items|
      invariant 0 <= i <= |items|
      invariant CompileItems(items) == PrependKinds(kinds, CompileItems(items[i..]))
    {
      assert items[i..][1..] == items[i + 1..];
      var item := items[i];
      var check := MetaCheckHintType(item);
      if check.Fail? {
        assert CompileItems(items[i..]) == Err(check.error);
        return Err(check.error);
      }
      if !IsOwnClassHint(item) {
        assert CompileItems(items[i..]) == Err(TypeError);
        return Err(TypeError);
      }
      var k := KindOf(item.cls);
      match CompileItems(items[i + 1..]) {
        case Err(_) =>
        case Ok(rest) => assert kinds + ([k] + rest) == (kinds + [k]) + rest;
      }
      kinds := kinds + [k];
      i := i + 1;
    }
    assert items[i..] == [];
    assert kinds + [] == kinds;
    r := Ok(kinds);
  }

  /** One interface base: its annotations resolved, then compiled one by one. */
  method CompileInterface(t0: Table, hints0: seq<(string, Hint)>, attrs: set<string>, scope: map<string, Hint>)
    returns (r: Result<Table>)
    ensures r == StepBase(t0, InterfaceBase(hints0, attrs, scope))
  {
    var resolved := ResolveHints(scope, hints0);
    if resolved.Err? {
      return Err(resolved.error);
    }
    var hints := resolved.value;
    var t := t0;
    var i := 0;
    while i < |hints|
      invariant 0 <= i <= |hints|
      invariant AddHints(t0, hints, attrs) == AddHints(t, hints[i..], attrs)
    {
      assert hints[i..][1..] == hints[i + 1..];
      var name := StripUnderscores(hints[i].0);
      if name !in attrs {
        var h := hints[i].1;
        var check := MetaCheckHintType(h);
        if check.Fail? {
          return Err(check.error);
        }
        if IsOwnClassHint(h) {
          t := t[name := Leaf(KindOf(h.cls))];
        } else if h.LiteralSeq? {
          var ks := CompileLiteral(h.items);
          if ks.Err? {
            return Err(ks.error);
          }
          t := t[name := ClassList(ks.value)];
        } else {
          return Err(TypeError);
        }
      }
      i := i + 1;
    }
    assert hints[i..] == [];
    r := Ok(t);
  }

  /** The loop over the bases: inherit, or read an interface's hints. */
  method FoldTable(bases: seq<Base>) returns (r: Result<Table>)
    ensures r == FoldBases(map[], bases)
  {
    var t: Table := map[];
    var i := 0;
    assert bases[0..] == bases;
    while i < |bases|
      invariant 0 <= i <= |bases|
      invariant FoldBases(map[], bases) == FoldBases(t, bases[i..])
    {
      assert bases[i..][1..] == bases[i + 1..];
      var b := bases[i];
      if b.MapperBase? {
        t := t + b.table;
      } else if b.InterfaceBase? {
        var res := CompileInterface(t, b.hints, b.attrs, b.scope);
        if res.Err? {
          return Err(res.error);
        }
        t := res.value;
      }
      i := i + 1;
    }
    assert bases[i..] == [];
    r := Ok(t);
  }

  /** `for base in bases: if hasattr(base, name): break`, with its else branch. */
  method AnyBaseHas(bases: seq<Base>, name: string) returns (found: bool)
    ensures found == SomeBaseHas(bases, name)
  {
    found := false;
    var j := 0;
    while j < |bases|
      invariant 0 <= j <= |bases|
      invariant !exists k :: 0 <= k < j && name in bases[k].attrs
    {
      if name in bases[j].attrs {
        return true;
      }
      j := j + 1;
    }
  }

  /** The loop over the table's fields choosing each accessor. */
  method InstallAccessors(t: Table, bases: seq<Base>, body: set<string>) returns (accessors: map<string, Accessor>)
    ensures accessors == AccessorsFor(t, bases, body)
  {
    accessors := map[];
    var todo := t.Keys;
    while todo != {}
      invariant todo <= t.Keys
      invariant forall f :: f in accessors <==> f in t.Keys - todo && f in AccessorsFor(t, bases, body)
      invariant forall f :: f in accessors ==> accessors[f] == AccessorsFor(t, bases, body)[f]
      decreases |todo|
    {
      var f :| f in todo;
      var getter := GetterName(f);
      if getter in body {
        accessors := accessors[f := Computed];
      } else {
        var found := AnyBaseHas(bases, getter);
        if !found {
          accessors := accessors[f := Plain];
        }
      }
      todo := todo - {f};
    }
  }

  /**
   * Compiles a class with the given bases and class-body names: the table
   * folded over the bases and one accessor per field.
   */
  method Compile(bases: seq<Base>, body: set<string>) returns (r: Result<Compiled>)
    ensures r == CompileSpec(bases, body)
  {
    if |bases| == 0 {
      return Ok(Compiled(None, map[]));
    }
    var t := FoldTable(bases);
    if t.Err? {
      return Err(t.error);
    }
    var accessors := InstallAccessors(t.value, bases, body);
    r := Ok(Compiled(Some(t.value), accessors));
  }

  // ---------------------------------------------------------------------
  // What the compiler guarantees

  /** The names a base contributes to the table when compiling succeeds. */
  function HintNames(hints: seq<(string, Hint)>, attrs: set<string>): set<string>
  {
    set i | 0 <= i < |hints| && StripUnderscores(hints[i].0) !in attrs :: StripUnderscores(hints[i].0)
  }

  function BaseNames(b: Base): set<string>
  {
    match b
    case MapperBase(bt, _) => bt.Keys
    case InterfaceBase(hints, attrs, _) => HintNames(hints, attrs)
    case PlainBase(_) => {}
  }

  lemma {:induction false} AddHintsKeys(t: Table, hints: seq<(string, Hint)>, attrs: set<string>)
    requires AddHints(t, hints, attrs).Ok?
    ensures AddHints(t, hints, attrs).value.Keys == t.Keys + HintNames(hints, attrs)
    decreases |hints|
  {
    if hints != [] {
      var name := StripUnderscores(hints[0].0);
      var rest := hints[1..];
      assert HintNames(hints, attrs) ==
        (if name in attrs then {} else {name}) + HintNames(rest, attrs)
      by {
        forall n | n in HintNames(hints, attrs)
          ensures n in (if name in attrs then {} else {name}) + HintNames(rest, attrs)
        {
          var i :| 0 <= i < |hints| && StripUnderscores(hints[i].0) !in attrs && n == StripUnderscores(hints[i].0);
          if i > 0 { assert hints[i] == rest[i - 1]; }
        }
        forall n | n in HintNames(rest, attrs) ensures n in HintNames(hints, attrs)
        {
          var i :| 0 <= i < |rest| && StripUnderscores(rest[i].0) !in attrs && n == StripUnderscores(rest[i].0);
          assert rest[i] == hints[i + 1];
        }
      }
      if name in attrs {
        AddHintsKeys(t, rest, attrs);
      } else {
        var s := CompileHint(hints[0].1).value;
        AddHintsKeys(t[name := s], rest, attrs);
      }
    }
  }

  /** Resolving forward references keeps the names of the hints. */
  lemma ResolvedHintNames(scope: map<string, Hint>, hints: seq<(string, Hint)>, attrs: set<string>)
    requires ResolveHints(scope, hints).Ok?
    ensures HintNames(ResolveHints(scope, hints).value, attrs) == HintNames(hints, attrs)
  {
    var hs := ResolveHints(scope, hints).value;
    forall n | n in HintNames(hs, attrs) ensures n in HintNames(hints, attrs) {
      var i :| 0 <= i < |hs| && StripUnderscores(hs[i].0) !in attrs && n == StripUnderscores(hs[i].0);
      assert hs[i].0 == hints[i].0;
    }
    forall n | n in HintNames(hints, attrs) ensures n in HintNames(hs, attrs) {
      var i :| 0 <= i < |hints| && StripUnderscores(hints[i].0) !in attrs && n == StripUnderscores(hints[i].0);
      assert hs[i].0 == hints[i].0;
    }
  }

  /** One base adds exactly its own names to the table. */
  lemma StepBaseKeys(t: Table, b: Base)
    requires StepBase(t, b).Ok?
    ensures StepBase(t, b).value.Keys == t.Keys + BaseNames(b)
  {
    if b.InterfaceBase? {
      var hs := ResolveHints(b.scope, b.hints).value;
      AddHintsKeys(t, hs, b.attrs);
      ResolvedHintNames(b.scope, b.hints, b.attrs);
    }
  }

  /** The names of all the bases: those of the first one and those of the rest. */
  function AllBaseNames(bases: seq<Base>): set<string>
  {
    set i, n | 0 <= i < |bases| && n in BaseNames(bases[i]) :: n
  }

  lemma AllBaseNamesSplit(bases: seq<Base>)
    requires bases != []
    ensures AllBaseNames(bases) == BaseNames(bases[0]) + AllBaseNames(bases[1..])
  {
    var rest := bases[1..];
    forall n | n in AllBaseNames(bases) ensures n in BaseNames(bases[0]) + AllBaseNames(rest) {
      var i :| 0 <= i < |bases| && n in BaseNames(bases[i]);
      if i > 0 { assert bases[i] == rest[i - 1]; }
    }
    forall n | n in AllBaseNames(rest) ensures n in AllBaseNames(bases) {
      var i :| 0 <= i < |rest| && n in BaseNames(rest[i]);
      assert rest[i] == bases[i + 1];
    }
  }

  /**
   * A successful compile yields exactly the fields of the mapper bases and
   * the stripped hint names the interfaces do not already define.
   */
  lemma {:induction false} FoldBasesKeys(t: Table, bases: seq<Base>)
    requires FoldBases(t, bases).Ok?
    ensures FoldBases(t, bases).value.Keys == t.Keys + AllBaseNames(bases)
    decreases |bases|
  {
    if bases != [] {
      var t' := StepBase(t, bases[0]).value;
      FoldBasesKeys(t', bases[1..]);
      StepBaseKeys(t, bases[0]);
      AllBaseNamesSplit(bases);
    }
  }

  /** A later mapper base overrides the entries an earlier base gave the same names. */
  lemma {:induction false} LaterMapperBaseWins(t: Table, bases: seq<Base>, last: Table, attrs: set<string>)
    requires FoldBases(t, bases).Ok?
    ensures FoldBases(t, bases + [MapperBase(last, attrs)]) == Ok(FoldBases(t, bases).value + last)
    decreases |bases|
  {
    if bases != [] {
      assert (bases + [MapperBase(last, attrs)])[1..] == bases[1..] + [MapperBase(last, attrs)];
      LaterMapperBaseWins(StepBase(t, bases[0]).value, bases[1..], last, attrs);
    }
  }

  /**
   * An interface whose annotations name a class not bound yet fails with
   * NameError as a whole, whatever its other annotations and even when that
   * name is one the base already defines.
   */
  lemma UnboundForwardRef(t: Table, hints: seq<(string, Hint)>, attrs: set<string>, scope: map<string, Hint>, i: nat)
    requires i < |hints| && !(ForwardNames(hints[i].1) <= scope.Keys)
    ensures StepBase(t, InterfaceBase(hints, attrs, scope)) == Err(NameError)
  {
    assert ResolveHint(scope, hints[i].1).Err?;
  }

  /**
   * A mapper referring to itself by a string before its own class statement
   * has finished: `Test` is not bound while `Test` is being created, so the
   * class cannot be compiled.
   */
  lemma SelfReferenceFails(ownTable: Table, ownAttrs: set<string>, attrs: set<string>, scope: map<string, Hint>)
    requires "Test" !in scope
    ensures
      var hints := [
        ("key", ClassHint(AdapterClass("Str"))),
        ("value", ClassHint(AdapterClass("Any"))),
        ("test", TextHint("Test")),
        ("tests", ListHint([TextHint("Test")])),
        ("any_of", UnionHint([ClassHint(AdapterClass("Str")), TextHint("Test")]))];
      FoldBases(map[], [MapperBase(ownTable, ownAttrs), InterfaceBase(hints, attrs, scope)]) == Err(NameError)
  {
    var hints := [
      ("key", ClassHint(AdapterClass("Str"))),
      ("value", ClassHint(AdapterClass("Any"))),
      ("test", TextHint("Test")),
      ("tests", ListHint([TextHint("Test")])),
      ("any_of", UnionHint([ClassHint(AdapterClass("Str")), TextHint("Test")]))];
    UnboundForwardRef(ownTable, hints, attrs, scope, 2);
    var rest := [InterfaceBase(hints, attrs, scope)];
    assert [MapperBase(ownTable, ownAttrs), InterfaceBase(hints, attrs, scope)][1..] == rest;
    assert rest[1..] == [];
  }

  /** A forward reference bound to an own class compiles to that class, as if it had been written directly. */
  lemma BoundForwardRef(t: Table, f: string, n: string, attrs: set<string>, scope: map<string, Hint>)
    requires n in scope && IsOwnClassHint(scope[n]) && StripUnderscores(f) !in attrs
    ensures StepBase(t, InterfaceBase([(f, TextHint(n))], attrs, scope)) == Ok(t[StripUnderscores(f) := Leaf(KindOf(scope[n].cls))])
  {
    var hs := ResolveHints(scope, [(f, TextHint(n))]).value;
    assert hs == [(f, scope[n])];
    assert hs[1..] == [];
    CompileHintShapes(scope[n]);
    var leaf := Leaf(KindOf(scope[n].cls));
    assert AddHints(t[StripUnderscores(f) := leaf], hs[1..], attrs) == Ok(t[StripUnderscores(f) := leaf]);
    assert AddHints(t, hs, attrs) == Ok(t[StripUnderscores(f) := leaf]);
  }

  /** A class without bases gets no table of its own. */
  lemma NoBasesNoTable(body: set<string>)
    ensures CompileSpec([], body) == Ok(Compiled(None, map[]))
  {
  }

  /**
   * The stored shapes: an own class becomes that class, a literal of own
   * classes a list of them; generic lists and unions are refused with
   * TypeError (IndexError for a list without arguments).
   */
  lemma CompileHintShapes(h: Hint)
    ensures IsOwnClassHint(h) ==> CompileHint(h) == Ok(Leaf(KindOf(h.cls)))
    ensures CompileHint(h).Ok? ==> IsOwnClassHint(h) || (h.LiteralSeq? && CompileHint(h).value.ClassList?)
    ensures h.ListHint? && h.args == [] ==> CompileHint(h) == Err(IndexError)
    ensures (h.ListHint? && h.args != []) || h.UnionHint? ==> CompileHint(h) == Err(TypeError)
    ensures h.TextHint? || h.OtherHint? ==> CompileHint(h) == Err(TypeError)
  {
  }

  lemma {:induction false} CompileItemsAllOwn(items: seq<Hint>)
    ensures CompileItems(items).Ok? <==> forall i :: 0 <= i < |items| ==> IsOwnClassHint(items[i])
    ensures CompileItems(items).Ok? ==> |CompileItems(items).value| == |items|
    decreases |items|
  {
    if items != [] {
      CompileItemsAllOwn(items[1..]);
      assert forall i :: 1 <= i < |items| ==> items[i] == items[1..][i - 1];
    }
  }

  /** Whatever the compiler stores, the hints.py validator accepts too. */
  lemma CompiledHintsAreAccepted(h: Hint)
    requires CompileHint(h).Ok?
    ensures CheckHintType(h) == Pass
  {
  }

  /** The three ways an accessor is chosen for a field of the table. */
  lemma AccessorChoice(t: Table, bases: seq<Base>, body: set<string>, f: string)
    requires f in t
    ensures GetterName(f) in body ==> AccessorsFor(t, bases, body)[f] == Computed
    ensures GetterName(f) !in body && !SomeBaseHas(bases, GetterName(f)) ==> AccessorsFor(t, bases, body)[f] == Plain
    ensures GetterName(f) !in body && SomeBaseHas(bases, GetterName(f)) ==> f !in AccessorsFor(t, bases, body)
  {
  }

  // ---------------------------------------------------------------------
  // `add_property` / `remove_property` on a compiled class

  /** A compiled mapper class: its table, the accessors in its own namespace, and the names its bases provide. */
  class MapperType {
    var table: Table
    var accessors: map<string, Accessor>
    const inherited: set<string>

    constructor (c: Compiled, bases: seq<Base>)
      requires c.table.Some?
      ensures table == c.table.value && accessors == c.accessors
      ensures inherited == set i, n | 0 <= i < |bases| && n in bases[i].attrs :: n
    {
      table := c.table.value;
      accessors := c.accessors;
      inherited := set i, n | 0 <= i < |bases| && n in bases[i].attrs :: n;
    }

    /** `add_property`: an existing name is only retyped; a new one also gets a plain accessor. */
    method AddProperty(name: string, shape: Shape)
      modifies this
      ensures table == old(table)[name := shape]
      ensures name in old(table) ==> accessors == old(accessors)
      ensures name !in old(table) ==> accessors == old(accessors)[name := Plain]
    {
      var justReplace := name in table;
      table := table[name := shape];
      if justReplace {
        return;
      }
      accessors := accessors[name := Plain];
    }

    /**
     * `remove_property`: a missing name is ignored; the accessor goes if the
     * class itself defines it, and `delattr` fails when only a base has it.
     */
    method RemoveProperty(name: string) returns (o: Outcome)
      modifies this
      ensures table == old(table) - {name}
      ensures name in old(accessors) ==> o == Pass && accessors == old(accessors) - {name}
      ensures name !in old(accessors) ==> accessors == old(accessors)
      ensures name !in old(accessors) && name in inherited ==> o == Fail(AttributeError)
      ensures name !in old(accessors) && name !in inherited ==> o == Pass
    {
      if name in table {
        table := table - {name};
      }
      if name in accessors {
        accessors := accessors - {name};
        o := Pass;
      } else if name in inherited {
        o := Fail(AttributeError);
      } else {
        o := Pass;
      }
    }
  }
}
