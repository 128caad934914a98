/**
 * Scalar adapters and compiled attribute tables.
 *
 * An adapter (a `PropertyMapperType` subclass) is seen only through its
 * contract: which raw values it accepts, how it parses them and how it turns a
 * parsed value back into raw form. A compiled table maps each field name to
 * the shape the engine dispatches on.
 */
module Schema {
  import opened RawData

  /**
   * A scalar adapter. `from_data` checks the accepted kinds and parses;
   * `replace`, called on an existing value, only parses; `reverse` serialises.
   * A parse that raises TypeError or ValueError is None.
   */
  datatype Adapter = Adapter(accepts: Raw -> bool, parse: Raw -> Option<Raw>, reverse: Raw -> Raw)

  /** `prop_type.from_data(v)`: None when it raises TypeError or ValueError. */
  function FromData(a: Adapter, v: Raw): Option<Raw>
  {
    if a.accepts(v) then a.parse(v) else None
  }

  /** `old.replace(v)`: parses without the accepted-kind check. */
  function Replace(a: Adapter, v: Raw): Option<Raw>
  {
    a.parse(v)
  }

  /** The `Str` adapter: accepts str, bool and int and keeps their text. */
  function StrParse(v: Raw): Option<Raw>
  {
    match v
    case RStr(s) => Some(RStr(s))
    case RInt(i) => Some(RStr(IntToText(i)))
    case RBool(b) => Some(RStr(if b then "True" else "False"))
    case _ => None
  }

  /** The `Int` adapter: accepts int (bool included) and str, and reads decimal text. */
  function IntParse(v: Raw): Option<Raw>
  {
    match v
    case RInt(i) => Some(RInt(i))
    case RBool(b) => Some(RInt(if b then 1 else 0))
    case RStr(s) => (match TextToInt(s) case None => None case Some(i) => Some(RInt(i)))
    case _ => None
  }

  /** `Str.allow_types`: str, bool, int (float is not modelled). */
  predicate StrAccepts(v: Raw) { v.RStr? || v.RBool? || v.RInt? }

  /** `Int.allow_types`: int (and so bool) and str. */
  predicate IntAccepts(v: Raw) { v.RInt? || v.RBool? || v.RStr? }

  function Unchanged(v: Raw): Raw { v }

  const StrAdapter: Adapter := Adapter(StrAccepts, StrParse, Unchanged)

  const IntAdapter: Adapter := Adapter(IntAccepts, IntParse, Unchanged)

  /** Two adapters that accept, parse and reverse alike. */
  ghost predicate SameAdapter(a: Adapter, b: Adapter)
  {
    forall v :: a.accepts(v) == b.accepts(v) && a.parse(v) == b.parse(v) && a.reverse(v) == b.reverse(v)
  }

  /** Any integer survives `Int(str(i))`, and `Str` gives back every string unchanged. */
  lemma AdaptersReadBackTheirText(i: int, s: string)
    ensures FromData(IntAdapter, RStr(IntToText(i))) == Some(RInt(i))
    ensures FromData(StrAdapter, RInt(i)) == Some(RStr(IntToText(i)))
    ensures FromData(StrAdapter, RStr(s)) == Some(RStr(s))
    ensures StrAdapter.reverse(RStr(s)) == RStr(s)
  {
    TextToIntRoundTrip(i);
  }

  // ---------------------------------------------------------------------
  // Shapes and tables

  /** A leaf class the engine knows: a nested mapper class, an adapter class, or bool. */
  datatype Kind = MapperKind(name: string) | AdapterKind(name: string) | BoolKind

  /** The element type of a list field: one class, or a union of classes. */
  datatype Elem = One(kind: Kind) | AnyOf(kinds: seq<Kind>)

  /**
   * What a table entry can hold: a class, `list[...]`, a union of classes,
   * or the plain list of classes the compiler stores for a tuple or list
   * literal hint (which the engine cannot dispatch on).
   */
  datatype Shape = Leaf(kind: Kind) | ListOf(elem: Elem) | UnionOf(kinds: seq<Kind>) | ClassList(kinds: seq<Kind>)

  type Table = map<string, Shape>

  /**
   * The class-level data of one mapper class: its name, the names of the
   * classes it is an instance of (itself and its mapper ancestors), the
   * compiled table and the `pm_*` settings.
   */
  datatype MapperClass = MapperClass(
    name: string,
    classes: set<string>,
    table: Table,
    keyField: Option<string>,
    identifyPath: Option<string>,
    allowUnknown: bool,
    strictCheck: bool)

  /** The classes a program has defined: mapper classes and adapters, by name. */
  datatype Env = Env(mappers: map<string, MapperClass>, adapters: map<string, Adapter>)

  /** The mapper class a kind names; a name no class carries reads as an empty class. */
  function MapperOf(env: Env, name: string): MapperClass
  {
    if name in env.mappers then env.mappers[name]
    else MapperClass(name, {name}, map[], None, None, false, false)
  }

  /** The adapter a kind names; a name no adapter carries reads as one that accepts nothing. */
  function AdapterOf(env: Env, name: string): Adapter
  {
    if name in env.adapters then env.adapters[name]
    else Adapter((v: Raw) => false, (v: Raw) => None, (v: Raw) => v)
  }

  /** `(list_type,)`, or `get_types(list_type)` when the element type is a union. */
  function ElemKinds(e: Elem): seq<Kind>
  {
    match e
    case One(k) => [k]
    case AnyOf(ks) => ks
  }

  predicate KindKnown(env: Env, k: Kind)
  {
    match k
    case MapperKind(n) => n in env.mappers
    case AdapterKind(n) => n in env.adapters
    case BoolKind => true
  }

  predicate KindsKnown(env: Env, ks: seq<Kind>)
  {
    forall i :: 0 <= i < |ks| ==> KindKnown(env, ks[i])
  }

  predicate ShapeKnown(env: Env, s: Shape)
  {
    match s
    case Leaf(k) => KindKnown(env, k)
    case ListOf(e) => KindsKnown(env, ElemKinds(e))
    case UnionOf(ks) => KindsKnown(env, ks)
    case ClassList(ks) => KindsKnown(env, ks)
  }

  predicate TableKnown(env: Env, t: Table)
  {
    forall f :: f in t ==> ShapeKnown(env, t[f])
  }

  /** Every class a table names exists: Python resolves class names at definition time. */
  predicate EnvClosed(env: Env)
  {
    forall n :: n in env.mappers ==>
      env.mappers[n].name == n && n in env.mappers[n].classes && TableKnown(env, env.mappers[n].table)
  }
}
