/**
 * A mapper instance seen as a value, and the pure specification of how one
 * is built from raw data (`__init__`, `_parse_json_data`, `_parse_list`,
 * `_select_type`, `_try_create_object` of property_mapper/mapper_base.py) and
 * turned back into raw data (`as_dict`). The engine's heap is proved to agree
 * with these functions.
 */
module Objects {
  import opened RawData
  import opened Schema
  import opened MapperRules

  /** A stored field value: None, a bool, an adapter's parsed value, a nested mapper, or a list of those. */
  datatype TVal =
    | TNone
    | TBool(b: bool)
    | TScalar(adapter: string, v: Raw)
    | TObj(obj: Tree)
    | TList(items: seq<TVal>)

  /** An instance as a value: its class, the fields that are set (`_<name>`) and `unknown_params`. */
  datatype Tree = Tree(cls: MapperClass, fields: map<string, TVal>, unknown: map<string, Raw>)

  // ---------------------------------------------------------------------
  // Construction

  /** The last step of `__init__`: with `pm_strict_check`, every declared field must have been set. */
  function Finish(cls: MapperClass, fields: map<string, TVal>, unknown: map<string, Raw>): Result<Tree>
  {
    if cls.strictCheck && !(cls.table.Keys <= fields.Keys) then Err(ValidationError)
    else Ok(Tree(cls, fields, unknown))
  }

  /**
   * `cls(data)`: the key check unless unknown keys are allowed, None read as
   * an empty dict, every declared key parsed, every other key kept verbatim,
   * then the strict check. Dict order is not modelled: when several fields
   * fail, the error is the one of some failing field.
   */
  ghost function BuildObject(env: Env, cls: MapperClass, data: Raw): Result<Tree>
    decreases data, 1
  {
    if !cls.allowUnknown && ValidateKeys(cls.table, data).Fail? then Err(ValidateKeys(cls.table, data).error)
    else if data.RNull? then Finish(cls, map[], map[])
    else if !data.RObj? then Err(AttributeError)
    else
      var e := data.entries;
      if exists k :: k in e && k in cls.table && BuildField(env, cls.table[k], e[k]).Err? then
        var k :| k in e && k in cls.table && BuildField(env, cls.table[k], e[k]).Err?;
        Err(BuildField(env, cls.table[k], e[k]).error)
      else
        Finish(cls, BuiltFields(env, cls.table, e), UnknownEntries(cls.table, e))
  }

  /** The declared keys of the data, each parsed by its shape. */
  ghost function BuiltFields(env: Env, table: Table, e: map<string, Raw>): map<string, TVal>
    requires forall k :: k in e && k in table ==> BuildField(env, table[k], e[k]).Ok?
    decreases RObj(e), 0
  {
    map k | k in e && k in table :: BuildField(env, table[k], e[k]).value
  }

  /** The keys of the data the table does not declare, stored verbatim. */
  function UnknownEntries(table: Table, e: map<string, Raw>): map<string, Raw>
  {
    map k | k in e && k !in table :: e[k]
  }

  /** One declared key of `_parse_json_data`: None is stored as None, anything else goes by the shape. */
  ghost function BuildField(env: Env, shape: Shape, v: Raw): Result<TVal>
    decreases v, 5
  {
    if v.RNull? then Ok(TNone)
    else match shape
      case Leaf(BoolKind) => Ok(TBool(Truthy(v)))
      case Leaf(AdapterKind(a)) =>
        (match FromData(AdapterOf(env, a), v)
         case None => Err(UnsupportedType)
         case Some(p) => Ok(TScalar(a, p)))
      case Leaf(MapperKind(n)) =>
        (match BuildObject(env, MapperOf(env, n), v)
         case Err(e) => Err(e)
         case Ok(t) => Ok(TObj(t)))
      case ListOf(elem) => ParseList(env, ElemKinds(elem), v)
      case UnionOf(ks) => SelectType(env, ks, v, 0)
      case ClassList(_) => Err(ValueError)
  }

  /**
   * `_try_create_object`: a bool for bool, a nested mapper from a compatible
   * dict, an adapter's value; None when the kind does not take the value.
   */
  ghost function TryCreate(env: Env, k: Kind, v: Raw): Result<Option<TVal>>
    decreases v, 2
  {
    match k
    case BoolKind => Ok(if v.RBool? then Some(TBool(v.b)) else None)
    case AdapterKind(a) =>
      Ok(match FromData(AdapterOf(env, a), v) case None => None case Some(p) => Some(TScalar(a, p)))
    case MapperKind(n) =>
      if !v.RObj? then Ok(None)
      else match IsCompat(MapperOf(env, n), v)
        case Err(e) => Err(e)
        case Ok(compatible) =>
          if !compatible then Ok(None)
          else match BuildObject(env, MapperOf(env, n), v)
            case Err(e) => Err(e)
            case Ok(t) => Ok(Some(TObj(t)))
  }

  /** `_select_type` from the `i`-th alternative on: the first one that takes the value. */
  ghost function SelectType(env: Env, ks: seq<Kind>, v: Raw, i: nat): Result<TVal>
    decreases v, 3, |ks| - i
  {
    if i >= |ks| then Err(UnsupportedType)
    else match TryCreate(env, ks[i], v)
      case Err(e) => Err(e)
      case Ok(None) => SelectType(env, ks, v, i + 1)
      case Ok(Some(t)) => Ok(t)
  }

  /** `_parse_list`: only a list is taken, and every item goes through `_select_type`. */
  ghost function ParseList(env: Env, ks: seq<Kind>, v: Raw): Result<TVal>
    decreases v, 4
  {
    if !v.RArr? then Err(WrongType)
    else match ParseItems(env, ks, v, 0)
      case Err(e) => Err(e)
      case Ok(ts) => Ok(TList(ts))
  }

  ghost function ParseItems(env: Env, ks: seq<Kind>, v: Raw, i: nat): Result<seq<TVal>>
    requires v.RArr?
    decreases v, 4, |v.items| - i
  {
    if i >= |v.items| then Ok([])
    else match SelectType(env, ks, v.items[i], 0)
      case Err(e) => Err(e)
      case Ok(t) =>
        match ParseItems(env, ks, v, i + 1)
        case Err(e) => Err(e)
        case Ok(ts) => Ok([t] + ts)
  }

  // ---------------------------------------------------------------------
  // as_dict

  /**
   * `as_dict(keys=keys)`: the declared fields that are set and not None,
   * restricted to `keys` when it is not empty. Unknown params are never emitted.
   */
  function Emit(env: Env, t: Tree, keys: seq<string>): map<string, Raw>
    decreases t, 1
  {
    map f | f in t.fields && f in t.cls.table && (keys == [] || f in keys) && !t.fields[f].TNone? ::
      EmitVal(env, t.fields[f])
  }

  /** One value of `as_dict`: a nested mapper recurses with no key filter, an adapter reverses, a list maps its items. */
  function EmitVal(env: Env, v: TVal): Raw
    decreases v, 0
  {
    match v
    case TNone => RNull
    case TBool(b) => RBool(b)
    case TScalar(a, p) => AdapterOf(env, a).reverse(p)
    case TObj(t) => RObj(Emit(env, t, []))
    case TList(xs) => RArr(seq(|xs|, i requires 0 <= i < |xs| => EmitVal(env, xs[i])))
  }

  // ---------------------------------------------------------------------
  // Properties of construction

  /** Without `pm_allow_unknown`, a dict with an undeclared key is refused with ValidationError. */
  lemma UnknownKeyRejected(env: Env, cls: MapperClass, data: Raw, k: string)
    requires !cls.allowUnknown && data.RObj? && k in data.entries && k !in cls.table
    ensures BuildObject(env, cls, data) == Err(ValidationError)
  {
  }

  /** Anything but a dict or None is refused with AttributeError: it has no `.keys()` or `.items()`. */
  lemma NonDictRejected(env: Env, cls: MapperClass, data: Raw)
    requires !data.RObj? && !data.RNull?
    ensures BuildObject(env, cls, data) == Err(AttributeError)
  {
  }

  /** None is refused unless unknown keys are allowed; then it reads as an empty dict. */
  lemma NoneData(env: Env, cls: MapperClass)
    ensures !cls.allowUnknown ==> BuildObject(env, cls, RNull) == Err(AttributeError)
    ensures cls.allowUnknown ==> BuildObject(env, cls, RNull) == Finish(cls, map[], map[])
  {
  }

  /**
   * A built instance: its declared keys hold exactly the data's declared
   * keys (a None value stored as None), and the other keys sit verbatim in
   * the unknown params, which can only be non-empty when they are allowed.
   */
  lemma BuiltInstance(env: Env, cls: MapperClass, data: Raw)
    requires BuildObject(env, cls, data).Ok?
    ensures var t := BuildObject(env, cls, data).value;
      t.cls == cls &&
      t.fields.Keys == KeysOf(data) * cls.table.Keys &&
      (forall k :: k in t.fields && data.entries[k] == RNull ==> t.fields[k] == TNone) &&
      t.unknown == (if data.RObj? then UnknownEntries(cls.table, data.entries) else map[]) &&
      (!cls.allowUnknown ==> t.unknown == map[]) &&
      (cls.strictCheck ==> cls.table.Keys <= t.fields.Keys)
  {
    var t := BuildObject(env, cls, data).value;
    if data.RObj? {
      var e := data.entries;
      assert !exists k :: k in e && k in cls.table && BuildField(env, cls.table[k], e[k]).Err?;
      assert t.fields == BuiltFields(env, cls.table, e);
      if !cls.allowUnknown {
        assert ValidateKeys(cls.table, data) == Pass;
        assert UnknownEntries(cls.table, e) == map[];
      }
    }
  }

  /** When the key check passes and every declared key parses, the instance is the parsed fields plus the unknown keys. */
  lemma BuildFromEntries(env: Env, cls: MapperClass, data: Raw, e: map<string, Raw>)
    requires cls.allowUnknown || ValidateKeys(cls.table, data).Pass?
    requires (data.RNull? && e == map[]) || (data.RObj? && e == data.entries)
    requires forall k :: k in e && k in cls.table ==> BuildField(env, cls.table[k], e[k]).Ok?
    ensures BuildObject(env, cls, data) == Finish(cls, BuiltFields(env, cls.table, e), UnknownEntries(cls.table, e))
  {
    if data.RNull? {
      assert BuiltFields(env, cls.table, e) == map[];
      assert UnknownEntries(cls.table, e) == map[];
    }
  }

  /** A strict instance, once built, passes `validate_schema` at any similarity. */
  lemma BuiltStrictPasses(env: Env, cls: MapperClass, data: Raw, similarity: int)
    requires BuildObject(env, cls, data).Ok? && cls.strictCheck
    ensures SchemaCheck(cls.table, BuildObject(env, cls, data).value.fields.Keys, true, similarity) == Pass
  {
    BuiltInstance(env, cls, data);
  }

  /** With `pm_strict_check`, data that leaves a declared field out is refused with ValidationError. */
  lemma StrictRefusesMissingField(env: Env, cls: MapperClass, data: Raw, f: string)
    requires cls.strictCheck && data.RObj? && f in cls.table && f !in data.entries
    requires forall k :: k in data.entries ==> k in cls.table && BuildField(env, cls.table[k], data.entries[k]).Ok?
    ensures BuildObject(env, cls, data) == Err(ValidationError)
  {
    var e := data.entries;
    assert ValidateKeys(cls.table, data) == Pass;
    assert !exists k :: k in e && k in cls.table && BuildField(env, cls.table[k], e[k]).Err?;
    assert f !in BuiltFields(env, cls.table, e);
  }

  /**
   * `_select_type` returns the value of the first alternative that takes the
   * value, in declaration order, and raises UnsupportedType when none does.
   */
  lemma {:induction false} SelectTypeFirstMatch(env: Env, ks: seq<Kind>, v: Raw, i: nat)
    ensures var r := SelectType(env, ks, v, i);
      r.Ok? ==>
        exists m :: i <= m < |ks| && TryCreate(env, ks[m], v) == Ok(Some(r.value)) &&
          forall j :: i <= j < m ==> TryCreate(env, ks[j], v) == Ok(None)
    ensures (forall j :: i <= j < |ks| ==> TryCreate(env, ks[j], v) == Ok(None)) ==>
      SelectType(env, ks, v, i) == Err(UnsupportedType)
    decreases |ks| - i
  {
    if i < |ks| {
      var t := TryCreate(env, ks[i], v);
      if t == Ok(None) {
        SelectTypeFirstMatch(env, ks, v, i + 1);
        assert SelectType(env, ks, v, i) == SelectType(env, ks, v, i + 1);
        var r := SelectType(env, ks, v, i);
        if r.Ok? {
          var m :| i + 1 <= m < |ks| && TryCreate(env, ks[m], v) == Ok(Some(r.value)) &&
            forall j :: i + 1 <= j < m ==> TryCreate(env, ks[j], v) == Ok(None);
          assert forall j :: i <= j < m ==> TryCreate(env, ks[j], v) == Ok(None);
        }
      } else if t.Ok? {
        assert SelectType(env, ks, v, i) == Ok(t.value.value);
      }
    }
  }

  /** `_parse_list` keeps the length and order of the list: item `i` is `_select_type` of input item `i`. */
  lemma {:induction false} ParseItemsPointwise(env: Env, ks: seq<Kind>, v: Raw, i: nat)
    requires v.RArr? && i <= |v.items|
    ensures ParseItems(env, ks, v, i).Ok? <==> forall j :: i <= j < |v.items| ==> SelectType(env, ks, v.items[j], 0).Ok?
    ensures ParseItems(env, ks, v, i).Ok? ==>
      var ts := ParseItems(env, ks, v, i).value;
      |ts| == |v.items| - i && forall j :: i <= j < |v.items| ==> ts[j - i] == SelectType(env, ks, v.items[j], 0).value
    decreases |v.items| - i
  {
    if i < |v.items| {
      ParseItemsPointwise(env, ks, v, i + 1);
    }
  }

  /** `_parse_list` as a whole: WrongType for a non-list, else the items selected one by one. */
  lemma ParseListPointwise(env: Env, ks: seq<Kind>, v: Raw)
    ensures !v.RArr? ==> ParseList(env, ks, v) == Err(WrongType)
    ensures v.RArr? ==>
      (ParseList(env, ks, v).Ok? <==> forall j :: 0 <= j < |v.items| ==> SelectType(env, ks, v.items[j], 0).Ok?)
    ensures ParseList(env, ks, v).Ok? ==>
      var ts := ParseList(env, ks, v).value.items;
      |ts| == |v.items| && forall j :: 0 <= j < |v.items| ==> ts[j] == SelectType(env, ks, v.items[j], 0).value
  {
    if v.RArr? {
      ParseItemsPointwise(env, ks, v, 0);
    }
  }

  /**
   * `_select_type` skips the alternatives before `m` when each of them
   * passes the value on.
   */
  lemma {:induction false} SelectSkips(env: Env, ks: seq<Kind>, v: Raw, i: nat, m: nat)
    requires i <= m <= |ks|
    requires forall j :: i <= j < m ==> TryCreate(env, ks[j], v) == Ok(None)
    ensures SelectType(env, ks, v, i) == SelectType(env, ks, v, m)
    decreases m - i
  {
    if i < m {
      SelectSkips(env, ks, v, i + 1, m);
    }
  }

  // ---------------------------------------------------------------------
  // Round trip: data in canonical form comes back out of `as_dict`

  /** `_try_create_object` builds from the value: a bool for bool, a compatible dict, a value the adapter parses. */
  ghost predicate Admits(env: Env, k: Kind, v: Raw)
  {
    match k
    case BoolKind => v.RBool?
    case AdapterKind(a) => FromData(AdapterOf(env, a), v).Some?
    case MapperKind(n) => v.RObj? && IsCompat(MapperOf(env, n), v) == Ok(true)
  }

  /** `_try_create_object` passes the value on to the next alternative, without an error. */
  ghost predicate Declines(env: Env, k: Kind, v: Raw)
  {
    match k
    case BoolKind => !v.RBool?
    case AdapterKind(a) => FromData(AdapterOf(env, a), v).None?
    case MapperKind(n) => !v.RObj? || IsCompat(MapperOf(env, n), v) == Ok(false)
  }

  /** A value the kind reads back unchanged: a bool, an adapter value whose reverse is the value, a canonical dict. */
  ghost predicate CanonicalLeaf(env: Env, k: Kind, v: Raw)
    decreases v, 2
  {
    match k
    case BoolKind => v.RBool?
    case AdapterKind(a) =>
      var p := FromData(AdapterOf(env, a), v);
      p.Some? && AdapterOf(env, a).reverse(p.value) == v
    case MapperKind(n) => CanonicalObj(env, MapperOf(env, n), v)
  }

  /** The first alternative that admits the value reads it back unchanged; every earlier one declines it. */
  ghost predicate CanonicalChoice(env: Env, ks: seq<Kind>, v: Raw)
    decreases v, 3
  {
    exists i :: 0 <= i < |ks| && (forall j :: 0 <= j < i ==> Declines(env, ks[j], v)) &&
      Admits(env, ks[i], v) && CanonicalLeaf(env, ks[i], v)
  }

  ghost predicate CanonicalField(env: Env, shape: Shape, v: Raw)
    decreases v, 4
  {
    !v.RNull? &&
    match shape
    case Leaf(k) => CanonicalLeaf(env, k, v)
    case ListOf(e) => v.RArr? && forall i :: 0 <= i < |v.items| ==> CanonicalChoice(env, ElemKinds(e), v.items[i])
    case UnionOf(ks) => CanonicalChoice(env, ks, v)
    case ClassList(_) => false
  }

  /** A dict whose keys are all declared, none None, each canonical for its shape, complete when strict. */
  ghost predicate CanonicalObj(env: Env, cls: MapperClass, v: Raw)
    decreases v, 1
  {
    v.RObj? &&
    (forall k :: k in v.entries ==> k in cls.table && CanonicalField(env, cls.table[k], v.entries[k])) &&
    (cls.strictCheck ==> cls.table.Keys <= v.entries.Keys)
  }

  /** Building from canonical data succeeds, and `as_dict` gives the data back. */
  lemma {:induction false} RoundTripObject(env: Env, cls: MapperClass, v: Raw)
    requires CanonicalObj(env, cls, v)
    ensures BuildObject(env, cls, v).Ok?
    ensures Emit(env, BuildObject(env, cls, v).value, []) == v.entries
    decreases v, 1
  {
    var e := v.entries;
    forall k | k in e
      ensures BuildField(env, cls.table[k], e[k]).Ok?
      ensures EmitVal(env, BuildField(env, cls.table[k], e[k]).value) == e[k]
    {
      RoundTripField(env, cls.table[k], e[k]);
    }
    assert ValidateKeys(cls.table, v) == Pass;
    assert !exists k :: k in e && k in cls.table && BuildField(env, cls.table[k], e[k]).Err?;
    var f := BuiltFields(env, cls.table, e);
    assert f.Keys == e.Keys;
    var t := Tree(cls, f, UnknownEntries(cls.table, e));
    assert BuildObject(env, cls, v) == Ok(t);
    forall k | k in f
      ensures !f[k].TNone? && EmitVal(env, f[k]) == e[k]
    {
      assert EmitVal(env, TNone) == RNull;
    }
    assert Emit(env, t, []) == e;
  }

  lemma {:induction false} RoundTripField(env: Env, shape: Shape, v: Raw)
    requires CanonicalField(env, shape, v)
    ensures BuildField(env, shape, v).Ok?
    ensures EmitVal(env, BuildField(env, shape, v).value) == v
    decreases v, 4
  {
    match shape
    case Leaf(MapperKind(n)) =>
      RoundTripObject(env, MapperOf(env, n), v);
    case Leaf(_) =>
    case UnionOf(ks) =>
      RoundTripChoice(env, ks, v);
    case ListOf(elem) =>
      var ks := ElemKinds(elem);
      forall i | 0 <= i < |v.items|
        ensures SelectType(env, ks, v.items[i], 0).Ok?
        ensures EmitVal(env, SelectType(env, ks, v.items[i], 0).value) == v.items[i]
      {
        RoundTripChoice(env, ks, v.items[i]);
      }
      ParseListPointwise(env, ks, v);
      var ts := ParseList(env, ks, v).value.items;
      assert EmitVal(env, TList(ts)) == RArr(v.items);
  }

  lemma {:induction false} RoundTripChoice(env: Env, ks: seq<Kind>, v: Raw)
    requires CanonicalChoice(env, ks, v)
    ensures SelectType(env, ks, v, 0).Ok?
    ensures EmitVal(env, SelectType(env, ks, v, 0).value) == v
    decreases v, 3
  {
    var i :| 0 <= i < |ks| && (forall j :: 0 <= j < i ==> Declines(env, ks[j], v)) &&
      Admits(env, ks[i], v) && CanonicalLeaf(env, ks[i], v);
    SelectSkips(env, ks, v, 0, i);
    RoundTripLeaf(env, ks[i], v);
  }

  /** An alternative that admits a value it reads back unchanged creates a value that emits as the input. */
  lemma {:induction false} RoundTripLeaf(env: Env, k: Kind, v: Raw)
    requires Admits(env, k, v) && CanonicalLeaf(env, k, v)
    ensures TryCreate(env, k, v).Ok? && TryCreate(env, k, v).value.Some?
    ensures EmitVal(env, TryCreate(env, k, v).value.value) == v
    decreases v, 2
  {
    if k.MapperKind? {
      RoundTripObject(env, MapperOf(env, k.name), v);
    }
  }

  // ---------------------------------------------------------------------
  // The cases the test suite states, with the `Int` and `Str` adapters

  ghost predicate StandardAdapters(env: Env)
  {
    "Int" in env.adapters && SameAdapter(env.adapters["Int"], IntAdapter) &&
    "Str" in env.adapters && SameAdapter(env.adapters["Str"], StrAdapter)
  }

  /** `5` against `(Int, Str)` stays the int 5; against `(Str, Int)` it becomes the text '5'. */
  lemma SelectTypeTestCases(env: Env)
    requires StandardAdapters(env)
    ensures SelectType(env, [AdapterKind("Int"), AdapterKind("Str")], RInt(5), 0) == Ok(TScalar("Int", RInt(5)))
    ensures SelectType(env, [AdapterKind("Str"), AdapterKind("Int")], RInt(5), 0) == Ok(TScalar("Str", RStr("5")))
  {
    assert IntToText(5) == "5";
  }

  /** `[1, '2', 3]` against `Str | Int` becomes `['1', '2', '3']`; against `Int` it becomes `[1, 2, 3]`. */
  lemma ParseListTestCases(env: Env)
    requires StandardAdapters(env)
    ensures ParseList(env, [AdapterKind("Str"), AdapterKind("Int")], RArr([RInt(1), RStr("2"), RInt(3)]))
      == Ok(TList([TScalar("Str", RStr("1")), TScalar("Str", RStr("2")), TScalar("Str", RStr("3"))]))
    ensures ParseList(env, [AdapterKind("Int")], RArr([RInt(1), RStr("2"), RInt(3)]))
      == Ok(TList([TScalar("Int", RInt(1)), TScalar("Int", RInt(2)), TScalar("Int", RInt(3))]))
  {
    var v := RArr([RInt(1), RStr("2"), RInt(3)]);
    assert IntToText(1) == "1" && IntToText(3) == "3";
    assert TextToInt("2") == Some(2) by {
      assert ParseDigits("2") == Some(2);
    }
    var strInt := [AdapterKind("Str"), AdapterKind("Int")];
    assert SelectType(env, strInt, v.items[2], 0) == Ok(TScalar("Str", RStr("3")));
    assert SelectType(env, strInt, v.items[1], 0) == Ok(TScalar("Str", RStr("2")));
    assert SelectType(env, strInt, v.items[0], 0) == Ok(TScalar("Str", RStr("1")));
    assert ParseItems(env, strInt, v, 3) == Ok([]);
    assert [TScalar("Str", RStr("3"))] + [] == [TScalar("Str", RStr("3"))];
    assert ParseItems(env, strInt, v, 2) == Ok([TScalar("Str", RStr("3"))]);
    assert [TScalar("Str", RStr("2"))] + [TScalar("Str", RStr("3"))] == [TScalar("Str", RStr("2")), TScalar("Str", RStr("3"))];
    assert [TScalar("Str", RStr("1"))] + [TScalar("Str", RStr("2")), TScalar("Str", RStr("3"))] == [TScalar("Str", RStr("1")), TScalar("Str", RStr("2")), TScalar("Str", RStr("3"))];
    assert ParseItems(env, strInt, v, 1) == Ok([TScalar("Str", RStr("2")), TScalar("Str", RStr("3"))]);
    var intOnly := [AdapterKind("Int")];
    assert SelectType(env, intOnly, v.items[2], 0) == Ok(TScalar("Int", RInt(3)));
    assert SelectType(env, intOnly, v.items[1], 0) == Ok(TScalar("Int", RInt(2)));
    assert SelectType(env, intOnly, v.items[0], 0) == Ok(TScalar("Int", RInt(1)));
    assert ParseItems(env, intOnly, v, 3) == Ok([]);
    assert [TScalar("Int", RInt(3))] + [] == [TScalar("Int", RInt(3))];
    assert ParseItems(env, intOnly, v, 2) == Ok([TScalar("Int", RInt(3))]);
    assert [TScalar("Int", RInt(2))] + [TScalar("Int", RInt(3))] == [TScalar("Int", RInt(2)), TScalar("Int", RInt(3))];
    assert [TScalar("Int", RInt(1))] + [TScalar("Int", RInt(2)), TScalar("Int", RInt(3))] == [TScalar("Int", RInt(1)), TScalar("Int", RInt(2)), TScalar("Int", RInt(3))];
    assert ParseItems(env, intOnly, v, 1) == Ok([TScalar("Int", RInt(2)), TScalar("Int", RInt(3))]);
  }

  /** `Int('abc')` fails, so 'abc' against `Int` alone is unsupported. */
  lemma NonNumericTextUnsupported(env: Env)
    requires StandardAdapters(env)
    ensures SelectType(env, [AdapterKind("Int")], RStr("abc"), 0) == Err(UnsupportedType)
  {
    assert ParseDigits("abc") == None;
    assert TextToInt("abc") == None;
  }
}
