/**
 * `PropertyMapperBase` (property_mapper/mapper_base.py) as a heap of
 * instances: construction, `as_dict`, the in-place merge, runtime schema
 * extension, navigation and the change flag.
 *
 * Construction and `as_dict` are proved against the pure functions of module
 * Objects through `Abs`, the tree of values below a node.
 */
module Engine {
  import opened RawData
  import opened Schema
  import opened MapperRules
  import opened Objects
  import opened Heaps
  import opened Equality
  import opened Magic

  class Heap {
    /** The classes the program has defined. */
    const env: Env
    /** The live instances. */
    var nodes: map<Ref, Node>
    /** The next free reference. */
    var next: nat
    /** `_subclass_counter`, by class name. */
    var counters: map<string, nat>

    ghost predicate Valid()
      reads this
    {
      Wf(nodes, next)
    }

    constructor (env: Env)
      ensures Valid() && this.env == env
      ensures nodes == map[] && next == 0 && counters == map[]
    {
      this.env := env;
      nodes := map[];
      next := 0;
      counters := map[];
      WfEmpty();
    }

    // -------------------------------------------------------------------
    // Construction: `__init__` and `_parse_json_data`

    /**
     * `cls(data, parent=parent, attr_name=attr)`: a fresh instance whose tree
     * is the one `BuildObject` describes, unchanged, linked to its parent.
     * It fails exactly when `BuildObject` does, with the same error unless
     * the failure comes from one of the fields.
     */
    method Construct(cls: MapperClass, data: Raw, parent: Option<Ref>, attr: Option<string>) returns (r: Result<Ref>)
      requires Valid() && (parent.Some? ==> parent.value < next)
      modifies this
      ensures Valid() && Grows(old(nodes), old(next), nodes, next) && counters == old(counters)
      ensures r.Ok? <==> BuildObject(env, cls, data).Ok?
      ensures r.Err? ==>
        r == Err(BuildObject(env, cls, data).error) ||
        (data.RObj? && exists k :: k in data.entries && k in cls.table && BuildField(env, cls.table[k], data.entries[k]).Err?)
      ensures r.Ok? ==> old(next) <= r.value < next
      ensures r.Ok? ==> Abs(nodes, next, r.value) == BuildObject(env, cls, data).value
      ensures r.Ok? ==>
        var n := nodes[r.value];
        !n.changed && n.parent == parent && n.attrName == (if parent.Some? then attr else None)
      decreases data, 1, 2
    {
      if !cls.allowUnknown {
        var check := ValidateKeys(cls.table, data);
        if check.Fail? {
          return Err(check.error);
        }
      }
      if !data.RObj? && !data.RNull? {
        return Err(AttributeError);
      }
      var r0 := next;
      var placeholder := Node(cls, map[], map[], false, parent, if parent.Some? then attr else None);
      WfAlloc(nodes, next, placeholder);
      nodes := nodes[r0 := placeholder];
      next := next + 1;
      r := Populate(cls, data, r0);
    }

    /**
     * The rest of `__init__` for the instance `r0` just allocated: parse the
     * dict (None reads as an empty one), then the strict check.
     */
    method Populate(cls: MapperClass, data: Raw, r0: Ref) returns (r: Result<Ref>)
      requires Valid() && r0 in nodes && r0 + 1 == next
      requires nodes[r0].cls == cls && nodes[r0].fields == map[] && nodes[r0].unknown == map[] && !nodes[r0].changed
      requires data.RObj? || data.RNull?
      requires cls.allowUnknown || ValidateKeys(cls.table, data).Pass?
      modifies this
      ensures Valid() && counters == old(counters) && old(next) <= next
      ensures forall k: Ref :: k < r0 ==> k in nodes && nodes[k] == old(nodes)[k]
      ensures r.Ok? <==> BuildObject(env, cls, data).Ok?
      ensures r.Err? ==>
        r == Err(BuildObject(env, cls, data).error) ||
        (data.RObj? && exists k :: k in data.entries && k in cls.table && BuildField(env, cls.table[k], data.entries[k]).Err?)
      ensures r.Ok? ==> r.value == r0 && Abs(nodes, next, r0) == BuildObject(env, cls, data).value
      ensures r0 in nodes && nodes[r0].parent == old(nodes)[r0].parent && nodes[r0].attrName == old(nodes)[r0].attrName
      ensures !nodes[r0].changed
      decreases data, 1, 1
    {
      var e := if data.RObj? then data.entries else map[];
      var fields: map<string, Val> := map[];
      var unknown: map<string, Raw> := map[];
      if data.RObj? {
        var parsed := ParseEntries(cls.table, e, r0);
        if parsed.Err? {
          return Err(parsed.error);
        }
        fields, unknown := parsed.value.0, parsed.value.1;
      }
      BuildFromEntries(env, cls, data, e);
      r := Settle(cls, e, r0, fields, unknown);
    }

    /** The strict check of `__init__` on the parsed fields, then the fields and unknown params stored in `r0`. */
    method Settle(cls: MapperClass, e: map<string, Raw>, r0: Ref, fields: map<string, Val>, unknown: map<string, Raw>)
      returns (r: Result<Ref>)
      requires Valid() && r0 in nodes && nodes[r0].cls == cls
      requires forall k :: k in e && k in cls.table ==> BuildField(env, cls.table[k], e[k]).Ok?
      requires unknown == UnknownEntries(cls.table, e) && fields.Keys == e.Keys * cls.table.Keys
      requires forall k :: k in fields ==> Linked(nodes, next, r0, k, fields[k])
      requires forall k :: k in fields ==> AbsVal(nodes, next, r0, fields[k]) == BuildField(env, cls.table[k], e[k]).value
      modifies this
      ensures Valid() && next == old(next) && counters == old(counters)
      ensures r.Ok? <==> Finish(cls, BuiltFields(env, cls.table, e), unknown).Ok?
      ensures r.Err? ==> r == Err(ValidationError) && nodes == old(nodes)
      ensures r.Ok? ==> r.value == r0 && nodes == old(nodes)[r0 := old(nodes)[r0].(fields := fields, unknown := unknown)]
      ensures r.Ok? ==> Abs(nodes, next, r0) == Finish(cls, BuiltFields(env, cls.table, e), unknown).value
    {
      if cls.strictCheck && !(cls.table.Keys <= fields.Keys) {
        return Err(ValidationError);
      }
      assert (map f | f in fields :: AbsVal(nodes, next, r0, fields[f])) == BuiltFields(env, cls.table, e);
      Install(r0, fields, unknown);
      r := Ok(r0);
    }

    /** Stores the fields and unknown params of `r0`; the trees of its children stay as they were. */
    method Install(r0: Ref, fields: map<string, Val>, unknown: map<string, Raw>)
      requires Valid() && r0 in nodes
      requires forall f :: f in fields ==> Linked(nodes, next, r0, f, fields[f])
      modifies this
      ensures Valid() && next == old(next) && counters == old(counters)
      ensures nodes == old(nodes)[r0 := old(nodes)[r0].(fields := fields, unknown := unknown)]
      ensures Abs(nodes, next, r0) ==
        Tree(old(nodes)[r0].cls, map f | f in fields :: AbsVal(old(nodes), next, r0, fields[f]), unknown)
    {
      var node := nodes[r0].(fields := fields, unknown := unknown);
      WfUpdate(nodes, next, r0, node);
      AbsWritten(nodes, next, r0, node);
      nodes := nodes[r0 := node];
    }

    /**
     * The loop of `_parse_json_data` over the dict `e`, for the instance `r0`
     * under construction: the undeclared keys verbatim, the declared ones
     * parsed. It fails exactly when some declared key fails to parse.
     */
    method ParseEntries(table: Table, e: map<string, Raw>, r0: Ref) returns (res: Result<(map<string, Val>, map<string, Raw>)>)
      requires Valid() && r0 < next
      modifies this
      ensures Valid() && Grows(old(nodes), old(next), nodes, next) && counters == old(counters)
      ensures res.Ok? <==> forall k :: k in e && k in table ==> BuildField(env, table[k], e[k]).Ok?
      ensures res.Ok? ==>
        var (fields, unknown) := res.value;
        unknown == UnknownEntries(table, e) &&
        fields.Keys == e.Keys * table.Keys &&
        (forall k :: k in fields ==> Linked(nodes, next, r0, k, fields[k])) &&
        forall k :: k in fields ==> AbsVal(nodes, next, r0, fields[k]) == BuildField(env, table[k], e[k]).value
      decreases RObj(e), 1, 0
    {
      var fields: map<string, Val> := map[];
      var unknown: map<string, Raw> := map[];
      var todo := e.Keys;
      while todo != {}
        invariant Valid() && Grows(old(nodes), old(next), nodes, next) && counters == old(counters)
        invariant todo <= e.Keys
        invariant forall k :: k in unknown <==> k in e && k !in todo && k !in table
        invariant forall k :: k in unknown ==> unknown[k] == e[k]
        invariant forall k :: k in fields <==> k in e && k !in todo && k in table
        invariant FieldsBuilt(nodes, next, r0, table, e, fields)
        decreases |todo|
      {
        var k :| k in todo;
        if k !in table {
          unknown := unknown[k := e[k]];
        } else {
          var more := ParseEntry(table, e, k, r0, fields);
          if more.Err? {
            return Err(more.error);
          }
          fields := more.value;
        }
        todo := todo - {k};
      }
      assert unknown == UnknownEntries(table, e);
      assert fields.Keys == e.Keys * table.Keys;
      res := Ok((fields, unknown));
    }

    /** The fields parsed so far: each declared and parsed as `BuildField` describes, its children linked back to `r0`. */
    ghost predicate FieldsBuilt(ns: map<Ref, Node>, b: nat, r0: Ref, table: Table, e: map<string, Raw>, fields: map<string, Val>)
      reads this
    {
      forall k :: k in fields ==>
        k in e && k in table && BuildField(env, table[k], e[k]).Ok? &&
        AbsVal(ns, b, r0, fields[k]) == BuildField(env, table[k], e[k]).value &&
        Linked(ns, b, r0, k, fields[k])
    }

    /** One declared key of the loop of `_parse_json_data`: the parsed fields grow by `k`. */
    method ParseEntry(table: Table, e: map<string, Raw>, k: string, r0: Ref, fields: map<string, Val>)
      returns (res: Result<map<string, Val>>)
      requires Valid() && r0 < next && k in e && k in table
      requires FieldsBuilt(nodes, next, r0, table, e, fields)
      modifies this
      ensures Valid() && Grows(old(nodes), old(next), nodes, next) && counters == old(counters)
      ensures res.Ok? <==> BuildField(env, table[k], e[k]).Ok?
      ensures res.Ok? ==> k in res.value && res.value == fields[k := res.value[k]] && FieldsBuilt(nodes, next, r0, table, e, res.value)
      decreases RObj(e), 0, 0
    {
      ghost var ns, b := nodes, next;
      var v := ParseField(table[k], e[k], r0, k);
      if v.Err? {
        return Err(v.error);
      }
      WfClosed(ns, b, r0 + 1);
      GrowsKeeps(ns, b, nodes, next);
      forall j | j in fields
        ensures AbsVal(nodes, next, r0, fields[j]) == AbsVal(ns, b, r0, fields[j])
        ensures Linked(nodes, next, r0, j, fields[j])
      {
        AbsValFrame(ns, b, nodes, next, r0 + 1, r0, fields[j]);
        LinkedKept(ns, b, nodes, next, r0, j, fields[j]);
      }
      res := Ok(fields[k := v.value]);
    }

    /**
     * One declared key of `_parse_json_data`, for the instance `owner` under
     * construction: it fails exactly when `BuildField` does, and otherwise
     * stores the value `BuildField` describes, with every new child linked
     * back to `owner` and the key.
     */
    method ParseField(shape: Shape, v: Raw, owner: Ref, k: string) returns (r: Result<Val>)
      requires Valid() && owner < next
      modifies this
      ensures Valid() && Grows(old(nodes), old(next), nodes, next) && counters == old(counters)
      ensures r.Ok? <==> BuildField(env, shape, v).Ok?
      ensures r.Ok? ==> AbsVal(nodes, next, owner, r.value) == BuildField(env, shape, v).value
      ensures r.Ok? ==> Linked(nodes, next, owner, k, r.value)
      decreases v, 5
    {
      if v.RNull? {
        return Ok(VNone);
      }
      match shape {
        case Leaf(BoolKind) =>
          r := Ok(VBool(Truthy(v)));
        case Leaf(AdapterKind(a)) =>
          var p := FromData(AdapterOf(env, a), v);
          if p.None? {
            return Err(UnsupportedType);
          }
          r := Ok(VScalar(a, p.value));
        case Leaf(MapperKind(n)) =>
          var c := Construct(MapperOf(env, n), v, Some(owner), Some(k));
          if c.Err? {
            return Err(c.error);
          }
          r := Ok(VRef(c.value));
        case ListOf(elem) =>
          r := ParseListItems(ElemKinds(elem), v, owner, k);
        case UnionOf(ks) =>
          r := SelectFirst(ks, v, owner, k);
        case ClassList(_) =>
          r := Err(ValueError);
      }
    }

    /**
     * `_try_create_object`: fails exactly when `TryCreate` does, and yields a
     * value exactly when it does, the same one.
     */
    method TryCreateObject(kind: Kind, v: Raw, owner: Ref, k: string) returns (r: Result<Option<Val>>)
      requires Valid() && owner < next
      modifies this
      ensures Valid() && Grows(old(nodes), old(next), nodes, next) && counters == old(counters)
      ensures r.Ok? <==> TryCreate(env, kind, v).Ok?
      ensures r.Ok? ==> (r.value.Some? <==> TryCreate(env, kind, v).value.Some?)
      ensures r.Ok? && r.value.Some? ==>
        AbsVal(nodes, next, owner, r.value.value) == TryCreate(env, kind, v).value.value &&
        Linked(nodes, next, owner, k, r.value.value)
      decreases v, 2
    {
      match kind {
        case BoolKind =>
          r := Ok(if v.RBool? then Some(VBool(v.b)) else None);
        case AdapterKind(a) =>
          var p := FromData(AdapterOf(env, a), v);
          r := Ok(if p.None? then None else Some(VScalar(a, p.value)));
        case MapperKind(n) =>
          if !v.RObj? {
            return Ok(None);
          }
          var cls := MapperOf(env, n);
          var compatible := IsCompat(cls, v);
          if compatible.Err? {
            return Err(compatible.error);
          }
          if !compatible.value {
            return Ok(None);
          }
          var c := Construct(cls, v, Some(owner), Some(k));
          if c.Err? {
            return Err(c.error);
          }
          r := Ok(Some(VRef(c.value)));
      }
    }

    /**
     * `_select_type`: the first alternative that takes the value, in
     * declaration order; UnsupportedType when every alternative passes.
     */
    method SelectFirst(ks: seq<Kind>, v: Raw, owner: Ref, k: string) returns (r: Result<Val>)
      requires Valid() && owner < next
      modifies this
      ensures Valid() && Grows(old(nodes), old(next), nodes, next) && counters == old(counters)
      ensures r.Ok? <==> SelectType(env, ks, v, 0).Ok?
      ensures r.Ok? ==>
        AbsVal(nodes, next, owner, r.value) == SelectType(env, ks, v, 0).value &&
        Linked(nodes, next, owner, k, r.value)
      ensures (forall j :: 0 <= j < |ks| ==> TryCreate(env, ks[j], v) == Ok(None)) ==> r == Err(UnsupportedType)
      decreases v, 3
    {
      var i := 0;
      while i < |ks|
        invariant 0 <= i <= |ks|
        invariant Valid() && Grows(old(nodes), old(next), nodes, next) && counters == old(counters)
        invariant SelectType(env, ks, v, 0) == SelectType(env, ks, v, i)
        invariant forall j :: 0 <= j < i ==> TryCreate(env, ks[j], v) == Ok(None)
      {
        var t := TryCreateObject(ks[i], v, owner, k);
        if t.Err? {
          assert SelectType(env, ks, v, i) == Err(TryCreate(env, ks[i], v).error);
          return Err(t.error);
        }
        if t.value.Some? {
          assert SelectType(env, ks, v, i) == Ok(TryCreate(env, ks[i], v).value.value);
          return Ok(t.value.value);
        }
        assert TryCreate(env, ks[i], v) == Ok(None);
        assert SelectType(env, ks, v, i) == SelectType(env, ks, v, i + 1);
        i := i + 1;
      }
      r := Err(UnsupportedType);
    }

    /** The items parsed so far: item `j` is the selection from input item `j`, its children linked back to `owner`. */
    ghost predicate ItemsBuilt(ns: map<Ref, Node>, b: nat, owner: Ref, k: string, ks: seq<Kind>, xs: seq<Raw>, items: seq<Val>)
      reads this
    {
      |items| <= |xs| &&
      forall j :: 0 <= j < |items| ==>
        SelectType(env, ks, xs[j], 0).Ok? &&
        AbsVal(ns, b, owner, items[j]) == SelectType(env, ks, xs[j], 0).value &&
        Linked(ns, b, owner, k, items[j])
    }

    /** One pass of the loop of `_parse_list`: the next input item, selected, joins the items parsed so far. */
    method ParseListItem(ks: seq<Kind>, xs: seq<Raw>, owner: Ref, k: string, items: seq<Val>) returns (res: Result<seq<Val>>)
      requires Valid() && owner < next && |items| < |xs|
      requires ItemsBuilt(nodes, next, owner, k, ks, xs, items)
      modifies this
      ensures Valid() && Grows(old(nodes), old(next), nodes, next) && counters == old(counters)
      ensures res.Ok? <==> SelectType(env, ks, xs[|items|], 0).Ok?
      ensures res.Ok? ==> |res.value| == |items| + 1 && res.value[..|items|] == items
      ensures res.Ok? ==> ItemsBuilt(nodes, next, owner, k, ks, xs, res.value)
      decreases xs[|items|], 4
    {
      ghost var ns, b := nodes, next;
      var t := SelectFirst(ks, xs[|items|], owner, k);
      if t.Err? {
        return Err(t.error);
      }
      WfClosed(ns, b, owner + 1);
      GrowsKeeps(ns, b, nodes, next);
      forall j | 0 <= j < |items|
        ensures AbsVal(nodes, next, owner, items[j]) == AbsVal(ns, b, owner, items[j])
        ensures Linked(nodes, next, owner, k, items[j])
      {
        AbsValFrame(ns, b, nodes, next, owner + 1, owner, items[j]);
        LinkedKept(ns, b, nodes, next, owner, k, items[j]);
      }
      res := Ok(items + [t.value]);
      assert res.value[..|items|] == items;
    }

    /**
     * `_parse_list`: WrongType for anything but a list; otherwise a list of
     * the same length, item `i` selected from input item `i`.
     */
    method ParseListItems(ks: seq<Kind>, v: Raw, owner: Ref, k: string) returns (r: Result<Val>)
      requires Valid() && owner < next
      modifies this
      ensures Valid() && Grows(old(nodes), old(next), nodes, next) && counters == old(counters)
      ensures !v.RArr? ==> r == Err(WrongType)
      ensures r.Ok? <==> ParseList(env, ks, v).Ok?
      ensures r.Ok? ==>
        r.value.VList? && |r.value.items| == |v.items| &&
        AbsVal(nodes, next, owner, r.value) == ParseList(env, ks, v).value &&
        Linked(nodes, next, owner, k, r.value)
      decreases v, 4
    {
      ParseListPointwise(env, ks, v);
      if !v.RArr? {
        return Err(WrongType);
      }
      var items: seq<Val> := [];
      var i := 0;
      while i < |v.items|
        invariant 0 <= i <= |v.items| && |items| == i
        invariant Valid() && Grows(old(nodes), old(next), nodes, next) && counters == old(counters)
        invariant ItemsBuilt(nodes, next, owner, k, ks, v.items, items)
      {
        var more := ParseListItem(ks, v.items, owner, k, items);
        if more.Err? {
          return Err(more.error);
        }
        items := more.value;
        i := i + 1;
      }
      r := Ok(VList(items));
      LinkedList(nodes, next, owner, k, items);
      assert AbsVal(nodes, next, owner, r.value).items == ParseList(env, ks, v).value.items;
    }

    // -------------------------------------------------------------------
    // as_dict

    /**
     * `as_dict(keys=keys)` of the instance `r`: the dict `Emit` describes for
     * its tree, so declared fields that are set and not None, filtered by
     * `keys` when it is not empty, and never the unknown params.
     */
    method AsDict(r: Ref, keys: seq<string>) returns (d: map<string, Raw>)
      requires Valid() && r in nodes
      ensures d == Emit(env, Abs(nodes, next, r), keys)
      decreases next - r, 1
    {
      var n := nodes[r];
      var table := n.cls.table;
      var todo := table.Keys;
      d := map[];
      while todo != {}
        invariant todo <= table.Keys
        invariant forall f :: f in d <==>
          f in table && f !in todo && f in n.fields && (keys == [] || f in keys) && !n.fields[f].VNone?
        invariant forall f :: f in d ==> d[f] == EmitVal(env, AbsVal(nodes, next, r, n.fields[f]))
        decreases |todo|
      {
        var f :| f in todo;
        if (keys == [] || f in keys) && f in n.fields && !n.fields[f].VNone? {
          assert Linked(nodes, next, r, f, n.fields[f]);
          var x := EmitValue(r, n.fields[f]);
          d := d[f := x];
        }
        todo := todo - {f};
      }
      var t := Abs(nodes, next, r);
      forall f | f in n.fields
        ensures t.fields[f].TNone? <==> n.fields[f].VNone?
      {
        assert Linked(nodes, next, r, f, n.fields[f]);
        assert t.fields[f] == AbsVal(nodes, next, r, n.fields[f]);
        if n.fields[f].VRef? {
          assert Holds(n.fields[f], n.fields[f].ref);
        }
      }
    }

    /** One value of `as_dict`: a child's own `as_dict`, an adapter's `reverse()`, a list item by item. */
    method EmitValue(r: Ref, v: Val) returns (o: Raw)
      requires Valid() && r in nodes
      requires forall c: Ref :: Holds(v, c) ==> r < c < next
      ensures o == EmitVal(env, AbsVal(nodes, next, r, v))
      decreases next - r, 0, v
    {
      match v {
        case VNone => o := RNull;
        case VBool(x) => o := RBool(x);
        case VScalar(a, p) => o := AdapterOf(env, a).reverse(p);
        case VRef(c) =>
          assert Holds(v, c);
          var m := AsDict(c, []);
          o := RObj(m);
        case VList(xs) =>
          var out: seq<Raw> := [];
          var i := 0;
          while i < |xs|
            invariant 0 <= i <= |xs| && |out| == i
            invariant forall j :: 0 <= j < i ==> out[j] == EmitVal(env, AbsVal(nodes, next, r, xs[j]))
          {
            forall c: Ref | Holds(xs[i], c)
              ensures r < c < next
            {
              assert Holds(v, c);
            }
            var x := EmitValue(r, xs[i]);
            out := out + [x];
            i := i + 1;
          }
          o := RArr(out);
      }
    }

    // -------------------------------------------------------------------
    // Slots and the change flag

    /** `is_changed` */
    function IsChanged(n: Ref): bool
      reads this
      requires n in nodes
    {
      nodes[n].changed
    }

    /** `mark_changed()`: raises the flag of `n` and touches nothing else. */
    method MarkChanged(n: Ref)
      requires Valid() && n in nodes
      modifies this
      ensures Valid() && next == old(next) && counters == old(counters)
      ensures nodes == old(nodes)[n := old(nodes)[n].(changed := true)]
      ensures MergeFrame(old(nodes), old(next), nodes, next, n)
    {
      var node := nodes[n].(changed := true);
      WfUpdate(nodes, next, n, node);
      WriteMergeFrame(nodes, next, n, node);
      nodes := nodes[n := node];
    }

    /** `mark_original()`: lowers the flag of `n` and touches nothing else. */
    method MarkOriginal(n: Ref)
      requires Valid() && n in nodes
      modifies this
      ensures Valid() && next == old(next) && counters == old(counters)
      ensures nodes == old(nodes)[n := old(nodes)[n].(changed := false)]
    {
      var node := nodes[n].(changed := false);
      WfUpdate(nodes, next, n, node);
      nodes := nodes[n := node];
    }

    /** `__set_prop`: stores `val` in the slot of the declared field `k` of `n`. */
    method SetSlot(n: Ref, k: string, val: Val)
      requires Valid() && n in nodes && Linked(nodes, next, n, k, val)
      modifies this
      ensures Valid() && next == old(next) && counters == old(counters)
      ensures nodes == old(nodes)[n := old(nodes)[n].(fields := old(nodes)[n].fields[k := val])]
      ensures MergeFrame(old(nodes), old(next), nodes, next, n)
    {
      var node := nodes[n].(fields := nodes[n].fields[k := val]);
      WfUpdate(nodes, next, n, node);
      WriteMergeFrame(nodes, next, n, node);
      nodes := nodes[n := node];
    }

    // -------------------------------------------------------------------
    // The merge: `merge_data` and `merge_property`

    /**
     * `merge_data(data, validate)` into the instance `n`: with `validate`
     * the keys are checked first; None merges nothing; any other non-dict
     * raises AttributeError. Every key of the data is merged into its own
     * slot and no other slot changes; on success every slot holds what
     * `SlotMerged` says.
     */
    method MergeData(n: Ref, data: Raw, validate: bool) returns (r: Result<Ref>)
      requires Valid() && n in nodes
      modifies this
      ensures Valid() && counters == old(counters) && n in nodes
      ensures MergeFrame(old(nodes), old(next), nodes, next, n)
      ensures r.Ok? ==> r.value == n
      ensures validate && ValidateKeys(old(nodes)[n].cls.table, data).Fail? ==>
        r == Err(ValidateKeys(old(nodes)[n].cls.table, data).error) && nodes == old(nodes) && next == old(next)
      ensures !data.RObj? && !data.RNull? ==> r == Err(AttributeError) && nodes == old(nodes) && next == old(next)
      ensures data.RNull? && !validate ==> r == Ok(n) && nodes == old(nodes) && next == old(next)
      ensures SameSlots(old(nodes)[n], nodes[n], KeysOf(data))
      ensures r.Ok? ==> forall k :: k in KeysOf(data) ==> SlotMerged(env, old(nodes)[n], nodes[n], k, data.entries[k])
      ensures r.Ok? && FlatMergeable(env, old(nodes)[n], data) ==> Emit(env, Abs(nodes, next, n), []) == data.entries
      decreases data, 0, 2
    {
      if validate {
        var check := ValidateKeys(nodes[n].cls.table, data);
        if check.Fail? {
          return Err(check.error);
        }
      }
      if data.RNull? {
        return Ok(n);
      }
      if !data.RObj? {
        return Err(AttributeError);
      }
      var o := MergeEntries(n, data.entries);
      if o.Fail? {
        return Err(o.error);
      }
      if FlatMergeable(env, old(nodes)[n], data) {
        FlatMergeRoundTrip(env, old(nodes)[n], nodes, next, n, data);
      }
      r := Ok(n);
    }

    /** The loop of `merge_data`: `merge_property` for every key of the data, stopping at the first error. */
    method MergeEntries(n: Ref, e: map<string, Raw>) returns (o: Outcome)
      requires Valid() && n in nodes
      modifies this
      ensures Valid() && counters == old(counters) && n in nodes
      ensures MergeFrame(old(nodes), old(next), nodes, next, n)
      ensures SameSlots(old(nodes)[n], nodes[n], e.Keys)
      ensures o.Pass? ==> forall k :: k in e ==> SlotMerged(env, old(nodes)[n], nodes[n], k, e[k])
      decreases RObj(e), 0, 1
    {
      var todo := e.Keys;
      while todo != {}
        invariant Valid() && counters == old(counters) && n in nodes
        invariant MergeFrame(old(nodes), old(next), nodes, next, n)
        invariant todo <= e.Keys
        invariant SameSlots(old(nodes)[n], nodes[n], e.Keys - todo)
        invariant forall k :: k in e && k !in todo ==> SlotMerged(env, old(nodes)[n], nodes[n], k, e[k])
        decreases |todo|
      {
        var k :| k in todo;
        ghost var ns, b := nodes, next;
        o := MergeEntry(n, e, todo, k, old(nodes)[n]);
        MergeFrameTrans(old(nodes), old(next), ns, b, nodes, next, n);
        if o.Fail? {
          return;
        }
        todo := todo - {k};
      }
      o := Pass;
    }

    /** One key of the loop of `merge_data`: the merged keys grow by `k`. */
    method MergeEntry(n: Ref, e: map<string, Raw>, todo: set<string>, k: string, ghost a: Node) returns (o: Outcome)
      requires Valid() && n in nodes && k in todo && todo <= e.Keys && nodes[n].cls == a.cls
      requires SameSlots(a, nodes[n], e.Keys - todo)
      requires forall j :: j in e && j !in todo ==> SlotMerged(env, a, nodes[n], j, e[j])
      modifies this
      ensures Valid() && counters == old(counters) && n in nodes && nodes[n].cls == a.cls
      ensures MergeFrame(old(nodes), old(next), nodes, next, n)
      ensures o.Fail? ==> SameSlots(a, nodes[n], e.Keys)
      ensures o.Pass? ==> SameSlots(a, nodes[n], e.Keys - (todo - {k}))
      ensures o.Pass? ==> forall j :: j in e && j !in todo - {k} ==> SlotMerged(env, a, nodes[n], j, e[j])
      decreases RObj(e), 0, 0
    {
      ghost var before := nodes[n];
      o := MergeProperty(n, k, e[k]);
      if o.Fail? {
        SameSlotsStep(a, before, nodes[n], e.Keys - todo, k);
        assert e.Keys - todo + {k} <= e.Keys;
        return;
      }
      MergeStep(env, a, before, nodes[n], e, todo, k);
    }

    /**
     * `merge_property(k, v)` on the instance `n`: an undeclared key goes to
     * `_merge_unknown`; None clears the slot (flagging a slot that held
     * something); a bool field stores the truth value of `v`, flagged when
     * it differs from the old one; the other shapes go to their own merge,
     * and a merge that yields nothing raises ValueError. Only slot `k`
     * changes.
     */
    method MergeProperty(n: Ref, k: string, v: Raw) returns (o: Outcome)
      requires Valid() && n in nodes
      modifies this
      ensures Valid() && counters == old(counters) && n in nodes
      ensures MergeFrame(old(nodes), old(next), nodes, next, n)
      ensures SlotOnly(old(nodes)[n], nodes[n], k)
      ensures o == Pass ==> SlotMerged(env, old(nodes)[n], nodes[n], k, v)
      ensures k !in old(nodes)[n].cls.table ==>
        var prev := StoredUnknown(old(nodes)[n].unknown, k);
        (o == Pass <==> MergedUnknown(prev, v).Ok?) &&
        (o == Pass ==> nodes[n].changed == (old(nodes)[n].changed || UnknownChanged(prev, MergedUnknown(prev, v).value)))
      ensures k in old(nodes)[n].cls.table && v.RNull? ==>
        o == Pass && nodes[n].changed == (old(nodes)[n].changed || Stored(old(nodes)[n], k) != VNone)
      ensures k in old(nodes)[n].cls.table && !v.RNull? && old(nodes)[n].cls.table[k] == Leaf(BoolKind) ==>
        var eq := ValRawEq(Stored(old(nodes)[n], k), RBool(Truthy(v)));
        (o == Pass <==> eq.Ok?) && (o == Pass ==> nodes[n].changed == (old(nodes)[n].changed || !eq.value))
      ensures k in old(nodes)[n].cls.table && !v.RNull? && old(nodes)[n].cls.table[k].ClassList? ==>
        o == Fail(ValueError)
      ensures k in old(nodes)[n].cls.table && !v.RNull? && o == Pass ==>
        var shape := old(nodes)[n].cls.table[k];
        shape.Leaf? && shape.kind.MapperKind? ==>
          ChildMerged(env, old(nodes), nodes, next, Stored(old(nodes)[n], k), shape.kind.name, v, Stored(nodes[n], k))
      decreases v, 4, 0
    {
      var node := nodes[n];
      if k !in node.cls.table {
        o := MergeUnknown(n, k, v);
        if o == Pass {
          SlotWritten(node, nodes[n], k);
        }
        return;
      }
      var prev := Stored(node, k);
      if v.RNull? {
        if prev != VNone {
          MarkChanged(n);
        }
        ghost var ns := nodes;
        SetSlot(n, k, VNone);
        MergeFrameTrans(old(nodes), old(next), ns, next, nodes, next, n);
        SlotWritten(node, nodes[n], k);
        return Pass;
      }
      o := StoreMerged(n, k, v);
    }

    /** `merge_property` for the declared key `k` and a value other than None: the merged value replaces slot `k`. */
    method StoreMerged(n: Ref, k: string, v: Raw) returns (o: Outcome)
      requires Valid() && n in nodes && k in nodes[n].cls.table && !v.RNull?
      modifies this
      ensures Valid() && counters == old(counters) && n in nodes
      ensures MergeFrame(old(nodes), old(next), nodes, next, n)
      ensures SlotOnly(old(nodes)[n], nodes[n], k)
      ensures o == Pass ==> SlotMerged(env, old(nodes)[n], nodes[n], k, v)
      ensures old(nodes)[n].cls.table[k] == Leaf(BoolKind) ==>
        var eq := ValRawEq(Stored(old(nodes)[n], k), RBool(Truthy(v)));
        (o == Pass <==> eq.Ok?) && (o == Pass ==> nodes[n].changed == (old(nodes)[n].changed || !eq.value))
      ensures old(nodes)[n].cls.table[k].ClassList? ==> o == Fail(ValueError)
      ensures
        var shape := old(nodes)[n].cls.table[k];
        shape.Leaf? && shape.kind.MapperKind? && o == Pass ==>
          ChildMerged(env, old(nodes), nodes, next, Stored(old(nodes)[n], k), shape.kind.name, v, Stored(nodes[n], k))
      decreases v, 3, 6
    {
      var node := nodes[n];
      var result := MergeValue(n, k, v);
      if result.Err? {
        return Fail(result.error);
      }
      if result.value.None? {
        return Fail(ValueError);
      }
      ghost var ns, b := nodes, next;
      SetSlot(n, k, result.value.value);
      MergeFrameTrans(old(nodes), old(next), ns, b, nodes, next, n);
      SlotWritten(node, nodes[n], k);
      assert FieldAt(nodes[n], k) == Some(result.value.value);
      var shape := node.cls.table[k];
      if shape.Leaf? && shape.kind.MapperKind? {
        assert Holds(result.value.value, result.value.value.ref);
        ChildMergedWrite(env, old(nodes), ns, b, n, nodes[n], Stored(node, k), shape.kind.name, v, result.value.value);
      }
      o := Pass;
    }

    /**
     * The value `merge_property` stores for the declared key `k` and a
     * value other than None, by the shape of the field: the truth value of
     * `v` for a bool (flagged when it differs from the old value), else the
     * merge of that shape; nothing for a tuple-literal hint.
     */
    method MergeValue(n: Ref, k: string, v: Raw) returns (r: Result<Option<Val>>)
      requires Valid() && n in nodes && k in nodes[n].cls.table && !v.RNull?
      modifies this
      ensures Valid() && counters == old(counters) && n in nodes
      ensures MergeFrame(old(nodes), old(next), nodes, next, n)
      ensures nodes[n] == old(nodes)[n].(changed := nodes[n].changed)
      ensures r.Ok? && r.value.Some? ==> Linked(nodes, next, n, k, r.value.value)
      ensures old(nodes)[n].cls.table[k] == Leaf(BoolKind) ==>
        var eq := ValRawEq(Stored(old(nodes)[n], k), RBool(Truthy(v)));
        (r.Ok? <==> eq.Ok?) &&
        (r.Ok? ==> r.value == Some(VBool(Truthy(v))) && nodes[n].changed == (old(nodes)[n].changed || !eq.value))
      ensures old(nodes)[n].cls.table[k].ClassList? ==> r == Ok(None)
      ensures r.Ok? && r.value.Some? ==> ValMerged(env, old(nodes)[n], k, v, r.value.value)
      ensures
        var shape := old(nodes)[n].cls.table[k];
        shape.Leaf? && shape.kind.MapperKind? && r.Ok? && r.value.Some? ==>
          ChildMerged(env, old(nodes), nodes, next, Stored(old(nodes)[n], k), shape.kind.name, v, r.value.value)
      ensures
        var shape := old(nodes)[n].cls.table[k];
        shape.UnionOf? ==> UnionMerged(env, old(nodes), nodes, next, old(nodes)[n], k, shape.kinds, v, r)
      decreases v, 3, 5
    {
      var prev := Stored(nodes[n], k);
      match nodes[n].cls.table[k] {
        case Leaf(BoolKind) =>
          r := MergeBool(n, k, v);
        case Leaf(MapperKind(m)) =>
          r := TryMergeObject(n, k, MapperKind(m), v);
        case Leaf(AdapterKind(a)) =>
          r := TryMergeType(n, k, a, v);
        case ListOf(elem) =>
          r := MergeList(n, k, ElemKinds(elem), v);
        case UnionOf(ks) =>
          ghost var a := nodes[n];
          r := SelectAndMergeType(n, k, ks, v);
          if r.Ok? {
            UnionMergedVal(env, old(nodes), nodes, next, a, k, v, r);
          }
        case ClassList(_) =>
          r := Ok(None);
      }
    }

    /** A bool field of `merge_property`: the truth value of `v`, flagged when it differs from the old value. */
    method MergeBool(n: Ref, k: string, v: Raw) returns (r: Result<Option<Val>>)
      requires Valid() && n in nodes
      modifies this
      ensures Valid() && next == old(next) && counters == old(counters) && n in nodes
      ensures MergeFrame(old(nodes), old(next), nodes, next, n)
      ensures nodes[n] == old(nodes)[n].(changed := nodes[n].changed)
      ensures
        var eq := ValRawEq(Stored(old(nodes)[n], k), RBool(Truthy(v)));
        (r.Ok? <==> eq.Ok?) &&
        (r.Ok? ==> r.value == Some(VBool(Truthy(v))) && nodes[n].changed == (old(nodes)[n].changed || !eq.value))
    {
      var eq := ValRawEq(Stored(nodes[n], k), RBool(Truthy(v)));
      if eq.Err? {
        return Err(eq.error);
      }
      if !eq.value {
        MarkChanged(n);
      }
      r := Ok(Some(VBool(Truthy(v))));
    }

    /**
     * `_merge_unknown(k, v)`: stores the value `MergedUnknown` describes and
     * raises the flag when it differs from the one before (the intended flag;
     * see `UnknownChangedAsWritten` for the one the code computes).
     */
    method MergeUnknown(n: Ref, k: string, v: Raw) returns (o: Outcome)
      requires Valid() && n in nodes
      modifies this
      ensures Valid() && next == old(next) && counters == old(counters) && n in nodes
      ensures MergeFrame(old(nodes), old(next), nodes, next, n)
      ensures
        var prev := StoredUnknown(old(nodes)[n].unknown, k);
        var merged := MergedUnknown(prev, v);
        (merged.Err? ==> o == Fail(merged.error) && nodes == old(nodes)) &&
        (merged.Ok? ==>
          o == Pass &&
          nodes == old(nodes)[n := old(nodes)[n].(
            unknown := old(nodes)[n].unknown[k := merged.value],
            changed := old(nodes)[n].changed || UnknownChanged(prev, merged.value))])
    {
      var prev := StoredUnknown(nodes[n].unknown, k);
      var merged := MergedUnknown(prev, v);
      if merged.Err? {
        return Fail(merged.error);
      }
      var node := nodes[n].(unknown := nodes[n].unknown[k := merged.value],
                            changed := nodes[n].changed || UnknownChanged(prev, merged.value));
      WfUpdate(nodes, next, n, node);
      WriteMergeFrame(nodes, next, n, node);
      nodes := nodes[n := node];
      o := Pass;
    }

    /**
     * `_try_merge_object(k, kind, v)`: a bool alternative takes a bool,
     * flagged when it differs from the old value. A mapper alternative takes
     * a dict: merged into the instance already stored when that one says
     * `is_equal_or_compat`, or built anew (and flagged) when the stored value
     * is no instance and the class is compatible. An adapter alternative
     * first tries `replace` on a stored adapter value, else builds a fresh
     * value (flagged), None when `from_data` fails. Only the flag of `n`
     * changes.
     */
    method TryMergeObject(n: Ref, k: string, kind: Kind, v: Raw) returns (r: Result<Option<Val>>)
      requires Valid() && n in nodes
      modifies this
      ensures Valid() && counters == old(counters) && n in nodes
      ensures MergeFrame(old(nodes), old(next), nodes, next, n)
      ensures nodes[n] == old(nodes)[n].(changed := nodes[n].changed)
      ensures r.Ok? && r.value.Some? ==> Linked(nodes, next, n, k, r.value.value)
      ensures kind == BoolKind ==>
        if v.RBool? then
          var eq := ValRawEq(Stored(old(nodes)[n], k), v);
          (r.Ok? <==> eq.Ok?) &&
          (r.Ok? ==> r.value == Some(VBool(v.b)) && nodes[n].changed == (old(nodes)[n].changed || !eq.value))
        else r == Ok(None) && nodes == old(nodes)
      ensures kind.MapperKind? && !v.RObj? ==> r == Ok(None) && nodes == old(nodes) && next == old(next)
      ensures kind.MapperKind? && v.RObj? && Stored(old(nodes)[n], k).VRef? ==>
        var c := Stored(old(nodes)[n], k).ref;
        c in old(nodes) &&
        (EqualOrCompat(old(nodes)[c], v) == Ok(false) ==> r == Ok(None) && nodes == old(nodes) && next == old(next)) &&
        (r.Ok? && r.value.Some? ==> r.value.value == VRef(c) && EqualOrCompat(old(nodes)[c], v) == Ok(true))
      ensures kind.MapperKind? && v.RObj? && !Stored(old(nodes)[n], k).VRef? ==>
        var cls := MapperOf(env, kind.name);
        (IsCompat(cls, v) == Ok(false) ==> r == Ok(None) && nodes == old(nodes) && next == old(next)) &&
        (IsCompat(cls, v) == Ok(true) ==>
          (r.Ok? <==> BuildObject(env, cls, v).Ok?) &&
          (r.Ok? ==>
             r.value.Some? && r.value.value.VRef? && old(next) <= r.value.value.ref &&
             Abs(nodes, next, r.value.value.ref) == BuildObject(env, cls, v).value && nodes[n].changed))
      ensures kind.AdapterKind? ==>
        var prev := Stored(old(nodes)[n], k);
        if prev.VScalar? && Replace(AdapterOf(env, prev.adapter), v).Some? then
          var q := Replace(AdapterOf(env, prev.adapter), v).value;
          r == Ok(Some(VScalar(prev.adapter, q))) && nodes[n].changed == (old(nodes)[n].changed || q != prev.v)
        else
          var p := FromData(AdapterOf(env, kind.name), v);
          r == Ok(if p.Some? then Some(VScalar(kind.name, p.value)) else None) && nodes[n].changed
      ensures kind.MapperKind? && r.Ok? && r.value.Some? ==>
        ChildMerged(env, old(nodes), nodes, next, Stored(old(nodes)[n], k), kind.name, v, r.value.value)
      ensures r == Ok(None) <==> PassesOn(env, old(nodes), old(nodes)[n], k, kind, v)
      ensures r == Ok(None) ==> next == old(next) && nodes == old(nodes)[n := nodes[n]]
      ensures r.Ok? && r.value.Some? ==> Takes(env, old(nodes), nodes, next, old(nodes)[n], k, kind, v, r.value.value)
      decreases v, 2, 0
    {
      var prev := Stored(nodes[n], k);
      match kind {
        case BoolKind =>
          if !v.RBool? {
            return Ok(None);
          }
          var eq := ValRawEq(prev, v);
          if eq.Err? {
            return Err(eq.error);
          }
          if !eq.value {
            MarkChanged(n);
          }
          r := Ok(Some(VBool(v.b)));
        case AdapterKind(a) =>
          if prev.VScalar? {
            var q := Replace(AdapterOf(env, prev.adapter), v);
            if q.Some? {
              if q.value != prev.v {
                MarkChanged(n);
              }
              return Ok(Some(VScalar(prev.adapter, q.value)));
            }
          }
          MarkChanged(n);
          var p := FromData(AdapterOf(env, a), v);
          r := Ok(if p.Some? then Some(VScalar(a, p.value)) else None);
        case MapperKind(m) =>
          r := TryMergeMapper(n, k, m, v);
      }
    }

    /** The mapper branch of `_try_merge_object`: merge into the held child, or build one from a compatible dict. */
    method TryMergeMapper(n: Ref, k: string, m: string, v: Raw) returns (r: Result<Option<Val>>)
      requires Valid() && n in nodes
      modifies this
      ensures Valid() && counters == old(counters) && n in nodes
      ensures MergeFrame(old(nodes), old(next), nodes, next, n)
      ensures nodes[n] == old(nodes)[n].(changed := nodes[n].changed)
      ensures r.Ok? && r.value.Some? ==> Linked(nodes, next, n, k, r.value.value)
      ensures !v.RObj? ==> r == Ok(None) && nodes == old(nodes) && next == old(next)
      ensures v.RObj? && Stored(old(nodes)[n], k).VRef? ==>
        var c := Stored(old(nodes)[n], k).ref;
        c in old(nodes) &&
        (EqualOrCompat(old(nodes)[c], v) == Ok(false) ==> r == Ok(None) && nodes == old(nodes) && next == old(next)) &&
        (r.Ok? && r.value.Some? ==> r.value.value == VRef(c) && EqualOrCompat(old(nodes)[c], v) == Ok(true))
      ensures v.RObj? && !Stored(old(nodes)[n], k).VRef? ==>
        var cls := MapperOf(env, m);
        (IsCompat(cls, v) == Ok(false) ==> r == Ok(None) && nodes == old(nodes) && next == old(next)) &&
        (IsCompat(cls, v) == Ok(true) ==>
          (r.Ok? <==> BuildObject(env, cls, v).Ok?) &&
          (r.Ok? ==>
             r.value.Some? && r.value.value.VRef? && old(next) <= r.value.value.ref &&
             Abs(nodes, next, r.value.value.ref) == BuildObject(env, cls, v).value && nodes[n].changed))
      ensures r.Ok? && r.value.Some? ==> ChildMerged(env, old(nodes), nodes, next, Stored(old(nodes)[n], k), m, v, r.value.value)
      ensures r == Ok(None) <==> PassesOn(env, old(nodes), old(nodes)[n], k, MapperKind(m), v)
      ensures r == Ok(None) ==> next == old(next) && nodes == old(nodes)
      ensures r.Ok? && r.value.Some? ==> Takes(env, old(nodes), nodes, next, old(nodes)[n], k, MapperKind(m), v, r.value.value)
      decreases v, 1, 5
    {
      var prev := Stored(nodes[n], k);
      if !v.RObj? {
        return Ok(None);
      }
      if prev.VRef? {
        r := MergeChild(n, k, v);
        return;
      }
      var cls := MapperOf(env, m);
      var compatible := IsCompat(cls, v);
      if compatible.Err? {
        return Err(compatible.error);
      }
      if !compatible.value {
        return Ok(None);
      }
      r := BuildChild(n, k, cls, v);
    }

    /** A fresh instance of `cls` built from `v` as the new value of `k` in `n`, which is flagged. */
    method BuildChild(n: Ref, k: string, cls: MapperClass, v: Raw) returns (r: Result<Option<Val>>)
      requires Valid() && n in nodes
      modifies this
      ensures Valid() && counters == old(counters) && n in nodes
      ensures MergeFrame(old(nodes), old(next), nodes, next, n)
      ensures nodes[n] == old(nodes)[n].(changed := true)
      ensures r.Ok? <==> BuildObject(env, cls, v).Ok?
      ensures r.Ok? ==>
        r.value.Some? && r.value.value.VRef? && old(next) <= r.value.value.ref &&
        Abs(nodes, next, r.value.value.ref) == BuildObject(env, cls, v).value &&
        Linked(nodes, next, n, k, r.value.value)
      decreases v, 1, 3
    {
      MarkChanged(n);
      ghost var ns, b := nodes, next;
      var c := Construct(cls, v, Some(n), Some(k));
      GrowsMergeFrame(ns, b, nodes, next, n);
      MergeFrameTrans(old(nodes), old(next), ns, b, nodes, next, n);
      if c.Err? {
        return Err(c.error);
      }
      r := Ok(Some(VRef(c.value)));
    }

    /**
     * The instance `c` stored under `k` in `n`, offered the dict `v`: when
     * it says `is_equal_or_compat`, `v` is merged into it and `n` is flagged
     * if `c` is; otherwise nothing.
     */
    method MergeChild(n: Ref, k: string, v: Raw) returns (r: Result<Option<Val>>)
      requires Valid() && n in nodes && Stored(nodes[n], k).VRef?
      modifies this
      ensures Valid() && counters == old(counters) && n in nodes
      ensures MergeFrame(old(nodes), old(next), nodes, next, n)
      ensures nodes[n] == old(nodes)[n].(changed := nodes[n].changed)
      ensures r.Ok? && r.value.Some? ==> Linked(nodes, next, n, k, r.value.value)
      ensures
        var c := Stored(old(nodes)[n], k).ref;
        c in old(nodes) &&
        (EqualOrCompat(old(nodes)[c], v) == Ok(false) ==> r == Ok(None) && nodes == old(nodes) && next == old(next)) &&
        (r.Ok? && r.value.Some? ==> r.value.value == VRef(c) && EqualOrCompat(old(nodes)[c], v) == Ok(true))
      ensures r.Ok? && r.value.Some? && v.RObj? ==>
        ChildMerged(env, old(nodes), nodes, next, Stored(old(nodes)[n], k), "", v, r.value.value)
      ensures r == Ok(None) ==> EqualOrCompat(old(nodes)[Stored(old(nodes)[n], k).ref], v) == Ok(false)
      decreases v, 1, 0
    {
      var prev := Stored(nodes[n], k);
      var c := prev.ref;
      assert k in nodes[n].fields && Holds(prev, c);
      assert Linked(nodes, next, n, k, prev);
      var same := EqualOrCompat(nodes[c], v);
      if same.Err? {
        return Err(same.error);
      }
      if !same.value {
        return Ok(None);
      }
      ghost var ns, b := nodes, next;
      var merged := MergeData(c, v, false);
      MergeFrameBelow(ns, b, nodes, next, c, n);
      LinkedKept(ns, b, nodes, next, n, k, prev);
      if merged.Err? {
        return Err(merged.error);
      }
      if nodes[c].changed {
        ghost var ns2 := nodes;
        MarkChanged(n);
        MergeFrameTrans(ns, b, ns2, next, nodes, next, n);
        LinkedKept(ns2, next, nodes, next, n, k, prev);
      }
      r := Ok(Some(prev));
    }

    /**
     * `_try_merge_type(k, a, v)` for an adapter field: `replace` on a stored
     * adapter value (a failure, which raises UnsupportedType, propagates),
     * then `from_data`, whose value wins when it parses. A replaced value is
     * flagged when it differs; a fresh one is not; no value at all is
     * flagged unless the old one was None as well.
     */
    method TryMergeType(n: Ref, k: string, a: string, v: Raw) returns (r: Result<Option<Val>>)
      requires Valid() && n in nodes
      modifies this
      ensures Valid() && next == old(next) && counters == old(counters) && n in nodes
      ensures MergeFrame(old(nodes), old(next), nodes, next, n)
      ensures nodes[n] == old(nodes)[n].(changed := nodes[n].changed)
      ensures r.Ok? && r.value.Some? ==> Linked(nodes, next, n, k, r.value.value)
      ensures
        var prev := Stored(old(nodes)[n], k);
        var was := old(nodes)[n].changed;
        var replaced := if prev.VScalar? then Replace(AdapterOf(env, prev.adapter), v) else None;
        var parsed := FromData(AdapterOf(env, a), v);
        if prev.VScalar? && replaced.None? then r == Err(UnsupportedType) && nodes == old(nodes)
        else if parsed.Some? then r == Ok(Some(VScalar(a, parsed.value))) && nodes == old(nodes)
        else if replaced.Some? then
          r == Ok(Some(VScalar(prev.adapter, replaced.value))) && nodes[n].changed == (was || replaced.value != prev.v)
        else if prev.VRef? then r == Err(AssertionError)
        else r == Ok(None) && nodes[n].changed == (was || !prev.VNone?)
    {
      var prev := Stored(nodes[n], k);
      var result: Option<Val> := None;
      if prev.VScalar? {
        var q := Replace(AdapterOf(env, prev.adapter), v);
        if q.None? {
          return Err(UnsupportedType);
        }
        result := Some(VScalar(prev.adapter, q.value));
      }
      var p := FromData(AdapterOf(env, a), v);
      if p.Some? {
        return Ok(Some(VScalar(a, p.value)));
      }
      if result.Some? {
        if result.value.v != prev.v {
          MarkChanged(n);
        }
      } else if prev.VRef? {
        return Err(AssertionError);
      } else if !prev.VNone? {
        MarkChanged(n);
      }
      r := Ok(result);
    }

    /**
     * `_select_and_merge_type`: the first alternative whose
     * `_try_merge_object` yields a value; UnsupportedType when none does.
     */
    method SelectAndMergeType(n: Ref, k: string, ks: seq<Kind>, v: Raw) returns (r: Result<Option<Val>>)
      requires Valid() && n in nodes
      modifies this
      ensures Valid() && counters == old(counters) && n in nodes
      ensures MergeFrame(old(nodes), old(next), nodes, next, n)
      ensures nodes[n] == old(nodes)[n].(changed := nodes[n].changed)
      ensures r.Ok? ==> r.value.Some? && Linked(nodes, next, n, k, r.value.value)
      ensures ks == [] ==> r == Err(UnsupportedType)
      ensures |ks| > 0 && ks[0] == BoolKind && v.RBool? ==>
        var eq := ValRawEq(Stored(old(nodes)[n], k), v);
        (r.Ok? <==> eq.Ok?) && (r.Ok? ==> r.value == Some(VBool(v.b)))
      ensures UnionMerged(env, old(nodes), nodes, next, old(nodes)[n], k, ks, v, r)
      decreases v, 3, 0
    {
      ghost var ns0, b0 := nodes, next;
      var i := 0;
      while i < |ks|
        invariant 0 <= i <= |ks|
        invariant Valid() && counters == old(counters) && n in nodes
        invariant MergeFrame(ns0, b0, nodes, next, n)
        invariant nodes[n] == ns0[n].(changed := nodes[n].changed)
        invariant next == b0 && nodes == ns0[n := nodes[n]]
        invariant forall j :: 0 <= j < i ==> PassesOn(env, ns0, ns0[n], k, ks[j], v)
      {
        var t := OfferAlternative(n, k, ks[i], v, ns0, b0);
        if t.Err? {
          return Err(t.error);
        }
        if t.value.Some? {
          assert FirstTaker(env, ns0, ns0[n], k, ks, v) == i;
          return t;
        }
        i := i + 1;
      }
      assert |ks| > 0 ==> PassesOn(env, ns0, ns0[n], k, ks[0], v);
      r := Err(UnsupportedType);
    }

    /**
     * One alternative of `_select_and_merge_type`, tried after the ones
     * before it passed `v` on: only the flag of `n` may differ from the heap
     * `ns0` the merge started from, so the alternative's verdict and value
     * are those it has in `ns0`.
     */
    method OfferAlternative(n: Ref, k: string, kind: Kind, v: Raw, ghost ns0: map<Ref, Node>, ghost b0: nat)
      returns (t: Result<Option<Val>>)
      requires Valid() && n in nodes && Wf(ns0, b0) && n in ns0
      requires next == b0 && nodes == ns0[n := nodes[n]] && nodes[n] == ns0[n].(changed := nodes[n].changed)
      requires MergeFrame(ns0, b0, nodes, next, n)
      modifies this
      ensures Valid() && counters == old(counters) && n in nodes
      ensures MergeFrame(ns0, b0, nodes, next, n)
      ensures nodes[n] == ns0[n].(changed := nodes[n].changed)
      ensures t == Ok(None) <==> PassesOn(env, ns0, ns0[n], k, kind, v)
      ensures t == Ok(None) ==> next == b0 && nodes == ns0[n := nodes[n]]
      ensures t.Ok? && t.value.Some? ==>
        Linked(nodes, next, n, k, t.value.value) && Takes(env, ns0, nodes, next, ns0[n], k, kind, v, t.value.value)
      ensures kind == BoolKind && v.RBool? ==>
        var eq := ValRawEq(Stored(ns0[n], k), v);
        (t.Ok? <==> eq.Ok?) && (t.Ok? ==> t.value == Some(VBool(v.b)))
      decreases v, 2, 1
    {
      ghost var ns, b := nodes, next;
      t := TryMergeObject(n, k, kind, v);
      MergeFrameTrans(ns0, b0, ns, b, nodes, next, n);
      PassesOnFlag(env, ns0, b0, n, ns, k, kind, v, nodes, next, if t.Ok? && t.value.Some? then t.value.value else VNone);
      assert Stored(ns[n], k) == Stored(ns0[n], k);
    }

    // -------------------------------------------------------------------
    // Merging lists: `_merge_list` and the searches it makes

    /**
     * `_merge_list(k, v, ks)` as written: WrongType unless `v` is a list;
     * otherwise one item per input item, each taken by the first
     * alternative that matches it. An existing instance is matched and
     * merged at most once, so every instance in the result was stored under
     * `k` before, no more often than it was; a list merge never builds an
     * instance. Bool alternatives never match, so a non-empty list for a
     * field of bools raises WrongType.
     */
    method MergeList(n: Ref, k: string, ks: seq<Kind>, v: Raw) returns (r: Result<Option<Val>>)
      requires Valid() && n in nodes
      modifies this
      ensures Valid() && counters == old(counters) && n in nodes
      ensures MergeFrame(old(nodes), old(next), nodes, next, n)
      ensures nodes[n] == old(nodes)[n].(changed := nodes[n].changed)
      ensures !v.RArr? ==> r == Err(WrongType) && nodes == old(nodes) && next == old(next)
      ensures r.Ok? ==> r.value.Some? && r.value.value.VList? && |r.value.value.items| == |v.items|
      ensures r.Ok? ==> Linked(nodes, next, n, k, r.value.value)
      ensures r.Ok? ==> multiset(RefsOf(r.value.value.items)) <= multiset(Existing(old(nodes)[n], k))
      ensures v.RArr? && |v.items| > 0 && (forall j :: 0 <= j < |ks| ==> ks[j] == BoolKind) ==> r == Err(WrongType)
      decreases v, 3, 0
    {
      if !v.RArr? {
        return Err(WrongType);
      }
      var node := nodes[n];
      var iterable := k !in node.fields || node.fields[k].VList?;
      var pool := Existing(node, k);
      ghost var orig := pool;
      ghost var taken: seq<Val> := [];
      var items: seq<Val> := [];
      assert Linked(nodes, next, n, k, VList(orig)) by {
        if k in node.fields && node.fields[k].VList? {
          assert Linked(nodes, next, n, k, node.fields[k]);
        }
      }
      ghost var allBool := forall j :: 0 <= j < |ks| ==> ks[j] == BoolKind;
      var i := 0;
      while i < |v.items|
        invariant 0 <= i <= |v.items| && |items| == i
        invariant Valid() && counters == old(counters) && n in nodes
        invariant MergeFrame(old(nodes), old(next), nodes, next, n)
        invariant nodes[n] == old(nodes)[n].(changed := nodes[n].changed)
        invariant Consumed(orig, pool, taken, items)
        invariant Linked(nodes, next, n, k, VList(orig))
        invariant i > 0 ==> !allBool
      {
        ghost var ns, b := nodes, next;
        var step;
        step, taken := MergeListStep(n, k, ks, v, v.items[i], iterable, pool, items, orig, taken);
        MergeFrameTrans(old(nodes), old(next), ns, b, nodes, next, n);
        if step.Err? {
          return Err(step.error);
        }
        pool, items := step.value.0, step.value.1;
        i := i + 1;
      }
      ConsumedLinked(nodes, next, n, k, orig, pool, taken, items);
      r := Ok(Some(VList(items)));
    }

    /**
     * One pass of the loop of `_merge_list` for the input item `x`: the item
     * is appended, and the existing value it took, if any, leaves the pool.
     */
    method MergeListStep(n: Ref, k: string, ks: seq<Kind>, whole: Raw, x: Raw, iterable: bool,
                         pool: seq<Val>, items: seq<Val>, ghost orig: seq<Val>, ghost taken: seq<Val>)
      returns (res: Result<(seq<Val>, seq<Val>)>, ghost taken': seq<Val>)
      requires Valid() && n in nodes
      requires Consumed(orig, pool, taken, items) && Linked(nodes, next, n, k, VList(orig))
      modifies this
      ensures Valid() && counters == old(counters) && n in nodes
      ensures MergeFrame(old(nodes), old(next), nodes, next, n)
      ensures nodes[n] == old(nodes)[n].(changed := nodes[n].changed)
      ensures Linked(nodes, next, n, k, VList(orig))
      ensures res.Ok? ==> |res.value.1| == |items| + 1 && Consumed(orig, res.value.0, taken', res.value.1)
      ensures (forall j :: 0 <= j < |ks| ==> ks[j] == BoolKind) ==> res == Err(WrongType)
      decreases x, 3, 2
    {
      taken' := taken;
      PoolLinked(nodes, next, n, k, orig, pool);
      ghost var ns, b := nodes, next;
      var step := MergeListItem(n, k, ks, whole, x, pool, iterable);
      LinkedKept(ns, b, nodes, next, n, k, VList(orig));
      if step.Err? {
        return Err(step.error), taken';
      }
      var (item, t) := step.value;
      if t.Some? {
        ConsumeStep(orig, pool, taken, items, item, t.value);
        taken' := taken + [pool[t.value]];
        res := Ok((RemoveAt(pool, t.value), items + [item]));
      } else {
        SkipStep(orig, pool, taken, items, item);
        res := Ok((pool, items + [item]));
      }
    }

    /**
     * One input item `x` of `_merge_list`, tried against the alternatives in
     * order. A mapper alternative merges into the first compatible existing
     * instance (consuming it) or, when none is, passes on; its fallback
     * `identify(x) and validate_keys(x)` can raise but is never true, since
     * `validate_keys` returns None. An adapter alternative replaces the
     * first existing value of its type (consuming it) or else appends the
     * value `from_data` makes of the WHOLE list `whole`, None when that
     * fails. Bool alternatives pass on. No match raises WrongType.
     */
    method MergeListItem(n: Ref, k: string, ks: seq<Kind>, whole: Raw, x: Raw, pool: seq<Val>, iterable: bool)
      returns (res: Result<(Val, Option<nat>)>)
      requires Valid() && n in nodes
      requires forall j :: 0 <= j < |pool| && pool[j].VRef? ==> n < pool[j].ref < next
      modifies this
      ensures Valid() && counters == old(counters) && n in nodes
      ensures MergeFrame(old(nodes), old(next), nodes, next, n)
      ensures nodes[n] == old(nodes)[n].(changed := nodes[n].changed)
      ensures res.Ok? ==>
        var (item, taken) := res.value;
        !item.VList? &&
        (taken.Some? ==> taken.value < |pool| && (item.VRef? || pool[taken.value].VRef? ==> item == pool[taken.value])) &&
        (taken.None? ==> !item.VRef?)
      ensures (forall j :: 0 <= j < |ks| ==> ks[j] == BoolKind) ==> res == Err(WrongType)
      ensures (forall j :: 0 <= j < |ks| ==> ItemPasses(env, old(nodes), pool, ks[j], x, iterable)) ==> res == Err(WrongType)
      ensures res.Ok? ==>
        exists j :: 0 <= j < |ks| && (forall i :: 0 <= i < j ==> ItemPasses(env, old(nodes), pool, ks[i], x, iterable)) &&
          ItemTaken(env, old(nodes), pool, ks[j], x, whole, res.value.0, res.value.1)
      decreases x, 3, 1
    {
      var j := 0;
      while j < |ks|
        invariant 0 <= j <= |ks|
        invariant Valid() && counters == old(counters) && n in nodes
        invariant nodes == old(nodes) && next == old(next)
        invariant forall i :: 0 <= i < j ==> ItemPasses(env, old(nodes), pool, ks[i], x, iterable)
      {
        var step := MergeListAlternative(n, ks[j], whole, x, pool, iterable);
        if step.Err? {
          return Err(step.error);
        }
        if step.value.Some? {
          return Ok(step.value.value);
        }
        j := j + 1;
      }
      res := Err(WrongType);
    }

    /** One alternative `kind` of `_merge_list` offered the item `x`: None when it passes the item on. */
    method MergeListAlternative(n: Ref, kind: Kind, whole: Raw, x: Raw, pool: seq<Val>, iterable: bool)
      returns (res: Result<Option<(Val, Option<nat>)>>)
      requires Valid() && n in nodes
      requires forall j :: 0 <= j < |pool| && pool[j].VRef? ==> n < pool[j].ref < next
      modifies this
      ensures Valid() && counters == old(counters) && n in nodes
      ensures MergeFrame(old(nodes), old(next), nodes, next, n)
      ensures nodes[n] == old(nodes)[n].(changed := nodes[n].changed)
      ensures res == Ok(None) <==> ItemPasses(env, old(nodes), pool, kind, x, iterable)
      ensures res == Ok(None) ==> nodes == old(nodes) && next == old(next)
      ensures res.Ok? && res.value.Some? ==>
        ItemTaken(env, old(nodes), pool, kind, x, whole, res.value.value.0, res.value.value.1)
      decreases x, 2, 5
    {
      match kind {
        case BoolKind =>
          return Ok(None);
        case MapperKind(m) =>
          if !iterable {
            return Err(TypeError);
          }
          var found := FindAndMergeObjectInList(n, pool, m, x);
          if found.Err? {
            return Err(found.error);
          }
          if found.value.Some? {
            return Ok(Some((pool[found.value.value], found.value)));
          }
          var cls := MapperOf(env, m);
          var identified := IdentifySpec(cls.identifyPath, x);
          if identified.Err? {
            return Err(identified.error);
          }
          if identified.value {
            var check := ValidateKeys(cls.table, x);
            if check.Fail? {
              return Err(check.error);
            }
          }
          res := Ok(None);
        case AdapterKind(a) =>
          if !iterable {
            return Err(TypeError);
          }
          var found := FindAndMergeTypeInList(n, pool, a, x);
          if found.Some? {
            return Ok(Some((found.value.1, Some(found.value.0))));
          }
          ghost var ns, b := nodes, next;
          MarkChanged(n);
          MergeFrameTrans(old(nodes), old(next), ns, b, nodes, next, n);
          var p := FromData(AdapterOf(env, a), whole);
          res := Ok(Some((if p.Some? then VScalar(a, p.value) else VNone, None)));
      }
    }

    /**
     * `_find_and_merge_object_in_list(pool, m, x)`: the first instance of
     * class `m` in `pool` that says `is_equal_or_compat` to `x` gets `x`
     * merged in (and flags `n` when it ends up flagged), and its position is
     * returned; the instances before it all said no. Nothing changes when
     * none says yes.
     */
    method FindAndMergeObjectInList(n: Ref, pool: seq<Val>, m: string, x: Raw) returns (r: Result<Option<nat>>)
      requires Valid() && n in nodes
      requires forall j :: 0 <= j < |pool| && pool[j].VRef? ==> n < pool[j].ref < next
      modifies this
      ensures Valid() && counters == old(counters) && n in nodes
      ensures MergeFrame(old(nodes), old(next), nodes, next, n)
      ensures nodes[n] == old(nodes)[n].(changed := nodes[n].changed)
      ensures r.Ok? && r.value.Some? ==>
        var i := r.value.value;
        i < |pool| && Candidate(old(nodes), pool[i], m) && EqualOrCompat(old(nodes)[pool[i].ref], x) == Ok(true) &&
        forall j :: 0 <= j < i && Candidate(old(nodes), pool[j], m) ==> EqualOrCompat(old(nodes)[pool[j].ref], x) == Ok(false)
      ensures r == Ok(None) ==>
        nodes == old(nodes) && next == old(next) &&
        forall j :: 0 <= j < |pool| && Candidate(old(nodes), pool[j], m) ==> EqualOrCompat(old(nodes)[pool[j].ref], x) == Ok(false)
      ensures (forall j :: 0 <= j < |pool| && Candidate(old(nodes), pool[j], m) ==> EqualOrCompat(old(nodes)[pool[j].ref], x) == Ok(false)) ==>
        r == Ok(None)
      decreases x, 2, 0
    {
      var i := 0;
      while i < |pool|
        invariant 0 <= i <= |pool|
        invariant nodes == old(nodes) && next == old(next)
        invariant forall j :: 0 <= j < i && Candidate(nodes, pool[j], m) ==> EqualOrCompat(nodes[pool[j].ref], x) == Ok(false)
      {
        if Candidate(nodes, pool[i], m) {
          var c := pool[i].ref;
          var same := EqualOrCompat(nodes[c], x);
          if same.Err? {
            return Err(same.error);
          }
          if same.value {
            var merged := MergeData(c, x, false);
            MergeFrameBelow(old(nodes), old(next), nodes, next, c, n);
            if merged.Err? {
              return Err(merged.error);
            }
            if nodes[c].changed {
              ghost var ns := nodes;
              MarkChanged(n);
              MergeFrameTrans(old(nodes), old(next), ns, next, nodes, next, n);
            }
            return Ok(Some(i));
          }
        }
        i := i + 1;
      }
      r := Ok(None);
    }

    /**
     * `_find_and_merge_type_in_list(pool, a, x)`: the first value of adapter
     * `a` in `pool` is replaced by `x` parsed (flagging `n` when the value
     * differs) and its position returned; None when there is no such value
     * or the parse fails, with nothing changed.
     */
    method FindAndMergeTypeInList(n: Ref, pool: seq<Val>, a: string, x: Raw) returns (r: Option<(nat, Val)>)
      requires Valid() && n in nodes
      modifies this
      ensures Valid() && next == old(next) && counters == old(counters) && n in nodes
      ensures MergeFrame(old(nodes), old(next), nodes, next, n)
      ensures r.Some? ==>
        var (i, item) := r.value;
        var q := Replace(AdapterOf(env, a), x);
        i < |pool| && pool[i].VScalar? && pool[i].adapter == a && q.Some? && item == VScalar(a, q.value) &&
        (forall j :: 0 <= j < i ==> !(pool[j].VScalar? && pool[j].adapter == a)) &&
        nodes == old(nodes)[n := old(nodes)[n].(changed := old(nodes)[n].changed || q.value != pool[i].v)]
      ensures r.None? ==>
        nodes == old(nodes) &&
        (Replace(AdapterOf(env, a), x).None? || forall j :: 0 <= j < |pool| ==> !(pool[j].VScalar? && pool[j].adapter == a))
    {
      var i := 0;
      while i < |pool|
        invariant 0 <= i <= |pool|
        invariant nodes == old(nodes) && next == old(next)
        invariant Replace(AdapterOf(env, a), x).None? || forall j :: 0 <= j < i ==> !(pool[j].VScalar? && pool[j].adapter == a)
      {
        if pool[i].VScalar? && pool[i].adapter == a {
          var q := Replace(AdapterOf(env, a), x);
          if q.Some? {
            if q.value != pool[i].v {
              MarkChanged(n);
            }
            return Some((i, VScalar(a, q.value)));
          }
        }
        i := i + 1;
      }
      r := None;
    }

    // -------------------------------------------------------------------
    // validate_schema, remove_property, add_properties

    /**
     * `validate_schema(similarity)` of `n`: counts the declared fields that
     * were ever set and decides as `SchemaCheck` does. Nothing changes.
     */
    method ValidateSchema(n: Ref, similarity: int) returns (o: Outcome)
      requires n in nodes
      ensures o == SchemaCheck(nodes[n].cls.table, nodes[n].fields.Keys, nodes[n].cls.strictCheck, similarity)
    {
      var node := nodes[n];
      var table := node.cls.table;
      var filledCount, unfilled := CountFilled(table.Keys, node.fields.Keys);
      if node.cls.strictCheck {
        if unfilled != [] {
          assert unfilled[0] in unfilled;
          return Fail(ValidationError);
        }
        assert table.Keys <= node.fields.Keys;
        return Pass;
      }
      var total := |table.Keys|;
      if total == 0 {
        return Fail(ZeroDivisionError);
      }
      if filledCount * 100 < similarity * total {
        return Fail(ValidationError);
      }
      o := Pass;
    }

    /** The loop of `validate_schema`: how many declared fields are set, and which are not. */
    static method CountFilled(declared: set<string>, present: set<string>) returns (count: nat, unfilled: seq<string>)
      ensures count == |declared * present|
      ensures forall f :: f in unfilled <==> f in declared && f !in present
    {
      var todo := declared;
      unfilled := [];
      count := 0;
      while todo != {}
        invariant todo <= declared
        invariant count == |(declared - todo) * present|
        invariant forall f :: f in unfilled <==> f in declared && f !in todo && f !in present
        decreases |todo|
      {
        var f :| f in todo;
        assert declared - (todo - {f}) == (declared - todo) + {f};
        CountStep(declared - todo, present, f);
        if f in present {
          count := count + 1;
        } else {
          unfilled := unfilled + [f];
        }
        todo := todo - {f};
      }
      assert declared - todo == declared;
    }

    /**
     * `remove_property(name)` on an instance: KeyError for a name the class
     * does not declare; for a declared one, deleting the class's property
     * through the instance raises AttributeError. Nothing changes.
     */
    method RemoveProperty(n: Ref, name: string) returns (o: Outcome)
      requires n in nodes
      ensures o == Fail(KeyError) <==> name !in nodes[n].cls.table
      ensures o != Fail(KeyError) ==> o == Fail(AttributeError)
    {
      if name !in nodes[n].cls.table {
        return Fail(KeyError);
      }
      o := Fail(AttributeError);
    }

    /**
     * `add_properties(props)` on the instance `n`: nothing for no props;
     * KeyError, before anything changes, when a name is already declared.
     * Otherwise the class counter goes up, a subclass declaring the new
     * fields is made, and a fresh instance of it is built, under the same
     * parent and attribute name, from `as_dict()` plus the new values; it
     * replaces `n` in the parent's slot and is flagged as changed. The
     * unknown params of `n` are not carried over, and no other instance
     * changes.
     */
    method AddProperties(n: Ref, props: map<string, (Kind, Raw)>) returns (r: Result<Ref>)
      requires Valid() && n in nodes
      modifies this
      ensures Valid() && old(next) <= next && Keeps(old(nodes), nodes)
      ensures props == map[] ==> r == Ok(n) && nodes == old(nodes) && next == old(next) && counters == old(counters)
      ensures props != map[] && !(props.Keys !! old(nodes)[n].cls.table.Keys) ==>
        r == Err(KeyError) && nodes == old(nodes) && next == old(next) && counters == old(counters)
      ensures props != map[] && props.Keys !! old(nodes)[n].cls.table.Keys ==>
        counters == old(counters)[old(nodes)[n].cls.name := Counter(old(counters), old(nodes)[n].cls.name) + 1] &&
        Extension(old(nodes), old(next), n, props, Counter(old(counters), old(nodes)[n].cls.name) + 1, nodes, next, r)
      ensures forall m: Ref :: m in old(nodes) && !(r.Ok? && Spliced(old(nodes)[n]) && Some(m) == old(nodes)[n].parent) ==>
        nodes[m] == old(nodes)[m]
    {
      var node := nodes[n];
      if props == map[] {
        return Ok(n);
      }
      if !(props.Keys !! node.cls.table.Keys) {
        return Err(KeyError);
      }
      r := ExtendWith(n, props);
    }

    /**
     * What `add_properties` leaves once the new names are checked: the
     * instance built from `as_dict()` plus the new values, under the
     * subclass that declares them, in the place of `n`.
     */
    ghost predicate Extension(ns: map<Ref, Node>, b: nat, n: Ref, props: map<string, (Kind, Raw)>, count: nat,
                              ns2: map<Ref, Node>, b2: nat, r: Result<Ref>)
      requires n in ns
    {
      Placed(ns, b, n, Extended(ns[n].cls, props, count), RObj(Emit(env, Abs(ns, b, n), []) + Values(props)), ns2, b2, r)
    }

    /** The instance of `sub` built from `data` in the place of `n`: the heap `ns2` as `add_properties` leaves it. */
    ghost predicate Placed(ns: map<Ref, Node>, b: nat, n: Ref, sub: MapperClass, data: Raw,
                           ns2: map<Ref, Node>, b2: nat, r: Result<Ref>)
      requires n in ns
    {
      var node := ns[n];
      (r.Ok? <==> BuildObject(env, sub, data).Ok?) &&
      (r.Ok? ==>
        b <= r.value < b2 && r.value in ns2 &&
        Abs(ns2, b2, r.value) == BuildObject(env, sub, data).value &&
        ns2[r.value].cls == sub && ns2[r.value].unknown == map[] && ns2[r.value].changed &&
        ns2[r.value].parent == node.parent &&
        ns2[r.value].attrName == (if node.parent.Some? then node.attrName else None) &&
        (Spliced(node) ==>
          var p, a := node.parent.value, node.attrName.value;
          p in ns && p in ns2 && ns2[p] == ns[p].(fields := ns[p].fields[a := SpliceIntended(Stored(ns[p], a), n, r.value)])))
    }

    method ExtendWith(n: Ref, props: map<string, (Kind, Raw)>) returns (r: Result<Ref>)
      requires Valid() && n in nodes && props.Keys !! nodes[n].cls.table.Keys
      modifies this
      ensures Valid() && old(next) <= next && Keeps(old(nodes), nodes)
      ensures counters == old(counters)[old(nodes)[n].cls.name := Counter(old(counters), old(nodes)[n].cls.name) + 1]
      ensures Extension(old(nodes), old(next), n, props, Counter(old(counters), old(nodes)[n].cls.name) + 1, nodes, next, r)
      ensures forall m: Ref :: m in old(nodes) && !(r.Ok? && Spliced(old(nodes)[n]) && Some(m) == old(nodes)[n].parent) ==>
        nodes[m] == old(nodes)[m]
    {
      var node := nodes[n];
      ghost var ns0, b0 := nodes, next;
      ghost var t0 := Abs(nodes, next, n);
      assert t0.cls == node.cls;
      var d := AsDict(n, []);
      var count := Counter(counters, node.cls.name) + 1;
      counters := counters[node.cls.name := count];
      var sub := Extended(node.cls, props, count);
      var data := RObj(d + Values(props));
      r := PlaceExtended(n, sub, data, t0, props, count);
      assert Placed(ns0, b0, n, sub, data, nodes, next, r);
    }

    /** The instance of the subclass built from the extended data, put in the place of `n`. */
    method PlaceExtended(n: Ref, sub: MapperClass, data: Raw, ghost t0: Tree, ghost props: map<string, (Kind, Raw)>, ghost count: nat)
      returns (r: Result<Ref>)
      requires Valid() && n in nodes
      requires sub == Extended(t0.cls, props, count) && data == RObj(Emit(env, t0, []) + Values(props))
      modifies this
      ensures Valid() && old(next) <= next && Keeps(old(nodes), nodes) && counters == old(counters)
      ensures Placed(old(nodes), old(next), n, sub, data, nodes, next, r)
      ensures forall m: Ref :: m in old(nodes) && !(r.Ok? && Spliced(old(nodes)[n]) && Some(m) == old(nodes)[n].parent) ==>
        nodes[m] == old(nodes)[m]
    {
      var node := nodes[n];
      r := Construct(sub, data, node.parent, node.attrName);
      if r.Err? {
        return;
      }
      var c := r.value;
      assert c !in old(nodes);
      ExtendedInstance(env, nodes, next, c, t0, props, count);
      ghost var mid := nodes;
      Substitute(c, n, node);
      assert Abs(nodes, next, c) == BuildObject(env, sub, data).value;
      if Spliced(node) {
        assert mid[node.parent.value] == old(nodes)[node.parent.value];
      }
    }

    /**
     * The end of `add_properties`: the new instance `c` takes the place of
     * the instance `n`, whose node was `node`, in its parent's slot, and is
     * flagged as changed; its tree stays as built.
     */
    method Substitute(c: Ref, n: Ref, node: Node)
      requires Valid() && c in nodes && nodes[c].parent == node.parent
      requires node.parent.Some? ==> nodes[c].attrName == node.attrName && node.parent.value < c
      modifies this
      ensures Valid() && next == old(next) && counters == old(counters) && Keeps(old(nodes), nodes)
      ensures Abs(nodes, next, c) == Abs(old(nodes), next, c)
      ensures nodes[c] == old(nodes)[c].(changed := true)
      ensures Spliced(node) ==>
        var p, a := node.parent.value, node.attrName.value;
        nodes[p] == old(nodes)[p].(fields := old(nodes)[p].fields[a := SpliceIntended(Stored(old(nodes)[p], a), n, c)])
      ensures forall m: Ref :: m in old(nodes) && m != c && !(Spliced(node) && Some(m) == node.parent) ==>
        nodes[m] == old(nodes)[m]
    {
      ghost var ns0 := nodes;
      if Spliced(node) {
        var p := node.parent.value;
        SpliceSlot(p, node.attrName.value, n, c);
        KeepsWrite(ns0, p, nodes[p]);
        assert nodes[c] == old(nodes)[c];
      } else {
        KeepsWrite(ns0, c, nodes[c]);
      }
      ghost var ns1 := nodes;
      MarkBuilt(c);
      KeepsWrite(ns1, c, nodes[c]);
      KeepsTrans(ns0, ns1, nodes);
    }

    /** `result.mark_changed()`: the flag rises, the tree below `c` stays as it is. */
    method MarkBuilt(c: Ref)
      requires Valid() && c in nodes
      modifies this
      ensures Valid() && next == old(next) && counters == old(counters)
      ensures nodes == old(nodes)[c := old(nodes)[c].(changed := true)]
      ensures Abs(nodes, next, c) == Abs(old(nodes), next, c)
    {
      AbsWritten(nodes, next, c, nodes[c].(changed := true));
      MarkChanged(c);
    }

    /** `parent.__set_prop(attr_name, result)`, as intended: `c` replaces `n` in the slot `a` of `p`. */
    method SpliceSlot(p: Ref, a: string, n: Ref, c: Ref)
      requires Valid() && p in nodes && c in nodes && p < c
      requires nodes[c].parent == Some(p) && nodes[c].attrName == Some(a)
      modifies this
      ensures Valid() && next == old(next) && counters == old(counters)
      ensures nodes == old(nodes)[p := old(nodes)[p].(fields := old(nodes)[p].fields[a := SpliceIntended(Stored(old(nodes)[p], a), n, c)])]
      ensures Abs(nodes, next, c) == Abs(old(nodes), next, c)
    {
      ghost var ns := nodes;
      var held := Stored(nodes[p], a);
      if a in nodes[p].fields {
        assert Linked(nodes, next, p, a, held);
      }
      assert Holds(VRef(c), c);
      SpliceLinked(nodes, next, p, a, held, n, c);
      SetSlot(p, a, SpliceIntended(held, n, c));
      WfClosed(ns, next, c);
      AbsFrame(ns, next, nodes, next, c, c);
    }

    // -------------------------------------------------------------------
    // Navigation: `get_parent`, `get_root`, `get_path`

    /** `get_parent()`: the parent the instance was built under, or the instance itself. */
    function Parent(n: Ref): (p: Ref)
      reads this
      requires Valid() && n in nodes
      ensures p in nodes && p <= n
      ensures p == n <==> nodes[n].parent.None?
    {
      if nodes[n].parent.Some? then nodes[n].parent.value else n
    }

    /** `get_root()`: the instance reached by following parents up; a root is its own root. */
    function Root(n: Ref): (root: Ref)
      reads this
      requires Valid() && n in nodes
      ensures root in nodes && nodes[root].parent.None? && root <= n
      ensures nodes[n].parent.None? ==> root == n
      decreases n
    {
      if Parent(n) == n then n else Root(Parent(n))
    }

    /** The labels `get_path` joins, from the root down to `n`. */
    function PathLabels(n: Ref): (labels: seq<string>)
      reads this
      requires Valid() && n in nodes
      ensures |labels| >= 1 && labels[0] == Label(nodes[Root(n)]) && labels[|labels| - 1] == Label(nodes[n])
      decreases n
    {
      if Parent(n) == n then [Label(nodes[n])] else PathLabels(Parent(n)) + [Label(nodes[n])]
    }

    /**
     * `get_path()`: the labels of the instance and its ancestors, root
     * first, joined by "->"; the loop climbs until `get_parent` returns the
     * instance it was asked about.
     */
    method GetPath(n: Ref) returns (s: string)
      requires Valid() && n in nodes
      ensures s == JoinWith(PathLabels(n), "->")
    {
      var path := [Label(nodes[n])];
      var last := n;
      var parent := Parent(n);
      while parent != last
        invariant last in nodes && parent == Parent(last)
        invariant |path| >= 1 && path[0] == Label(nodes[last])
        invariant PathLabels(n) == PathLabels(last) + path[1..]
        decreases last
      {
        assert PathLabels(last) == PathLabels(parent) + [path[0]];
        assert PathLabels(n) == PathLabels(parent) + path by {
          assert path == [path[0]] + path[1..];
        }
        ghost var below := path;
        path := [Label(nodes[parent])] + path;
        assert path[1..] == below;
        last := parent;
        parent := Parent(parent);
      }
      assert path == [path[0]] + path[1..];
      s := JoinWith(path, "->");
    }

    /** A child's path is its parent's path, "->", and its own label. */
    lemma {:induction false} ChildPath(c: Ref)
      requires Valid() && c in nodes && nodes[c].parent.Some?
      ensures nodes[c].parent.value in nodes
      ensures JoinWith(PathLabels(c), "->") == JoinWith(PathLabels(nodes[c].parent.value), "->") + "->" + Label(nodes[c])
    {
      JoinWithAppend(PathLabels(nodes[c].parent.value), Label(nodes[c]), "->");
    }

    /** Every instance below a root has the root's path as a prefix of its own. */
    lemma {:induction false} PathStartsAtRoot(n: Ref)
      requires Valid() && n in nodes
      ensures JoinWith([Label(nodes[Root(n)])], "->") <= JoinWith(PathLabels(n), "->")
      decreases n
    {
      if Parent(n) != n {
        PathStartsAtRoot(Parent(n));
        JoinWithAppend(PathLabels(Parent(n)), Label(nodes[n]), "->");
      }
    }

    // -------------------------------------------------------------------
    // `MagicMapper.apply_data`

    /**
     * `apply_data(data)` on an instance of a `MagicMapper` whose magic type
     * is `magic`: data without `.keys()` raises AttributeError. The keys the
     * class does not declare become fields through `add_properties`, then
     * the declared keys are merged into the instance this gives, every
     * declared key the data lacks as None.
     */
    method ApplyData(n: Ref, data: Raw, magic: Kind) returns (r: Result<Ref>, ghost mid: map<Ref, Node>, ghost midNext: nat)
      requires Valid() && n in nodes
      modifies this
      ensures Valid() && Keeps(old(nodes), nodes) && old(next) <= next
      ensures r.Ok? ==> r.value in nodes
      ensures !data.RObj? ==> r == Err(AttributeError) && nodes == old(nodes) && next == old(next) && counters == old(counters)
      ensures CheckHasNewKeys(old(nodes)[n].cls.table, data) == Ok(false) ==>
        counters == old(counters) && (r.Ok? ==> r.value == n) &&
        (r.Ok? ==> forall k :: k in data.entries ==> SlotMerged(env, old(nodes)[n], nodes[n], k, data.entries[k]))
      ensures CheckHasNewKeys(old(nodes)[n].cls.table, data) == Ok(true) && r.Ok? ==>
        old(next) <= r.value && nodes[r.value].cls.table.Keys == old(nodes)[n].cls.table.Keys + data.entries.Keys
      ensures data.RObj? && r.Ok? ==>
        forall k :: k in old(nodes)[n].cls.table && k !in data.entries ==> FieldAt(nodes[r.value], k) == Some(VNone)
      ensures CheckHasNewKeys(old(nodes)[n].cls.table, data) == Ok(true) ==>
        var cls := old(nodes)[n].cls;
        var count := Counter(old(counters), cls.name) + 1;
        counters == old(counters)[cls.name := count] &&
        (r.Ok? ==> NewKeysApplied(old(nodes), old(next), n, data.entries, magic, count, mid, midNext, nodes, r.value))
    {
      mid, midNext := nodes, next;
      if !data.RObj? {
        return Err(AttributeError), mid, midNext;
      }
      var table := nodes[n].cls.table;
      var e := data.entries;
      NewPropsCover(table, e, magic);
      if NewProps(table, e, magic) == map[] {
        r := MergeRewritten(n, table, e);
      } else {
        r, mid, midNext := ApplyNewKeys(n, e, magic);
      }
    }

    /**
     * What `apply_data` leaves on success when the data has keys the class
     * of `n` does not declare: `mid` is the heap `add_properties` left, in
     * which `t` is the extension built from `n` and the new keys under the
     * magic type; each new field of `t` still holds the value the magic type
     * parses from the data; every declared key of the data was then merged
     * into `t`, and no other slot of the old class changed.
     */
    ghost predicate NewKeysApplied(ns0: map<Ref, Node>, b0: nat, n: Ref, e: map<string, Raw>, magic: Kind, count: nat,
                                   mid: map<Ref, Node>, midNext: nat, ns: map<Ref, Node>, t: Ref)
      requires n in ns0
    {
      var table := ns0[n].cls.table;
      Extension(ns0, b0, n, NewProps(table, e, magic), count, mid, midNext, Ok(t)) &&
      t in mid && t in ns &&
      SameSlots(mid[t], ns[t], table.Keys) &&
      (forall k :: k in e && k in table ==> SlotMerged(env, mid[t], ns[t], k, e[k])) &&
      (forall k :: k in NewKeys(table, e) ==>
        FieldAt(ns[t], k).Some? && BuildField(env, Leaf(magic), e[k]) == Ok(AbsVal(mid, midNext, t, FieldAt(ns[t], k).value)))
    }

    /** `apply_data` when the data has new keys: `add_properties` with them, then the closing merge into its result. */
    method ApplyNewKeys(n: Ref, e: map<string, Raw>, magic: Kind) returns (r: Result<Ref>, ghost mid: map<Ref, Node>, ghost midNext: nat)
      requires Valid() && n in nodes && NewProps(nodes[n].cls.table, e, magic) != map[]
      modifies this
      ensures Valid() && Keeps(old(nodes), nodes) && old(next) <= next
      ensures r.Ok? ==>
        old(next) <= r.value && r.value in nodes &&
        nodes[r.value].cls.table.Keys == old(nodes)[n].cls.table.Keys + NewKeys(old(nodes)[n].cls.table, e)
      ensures r.Ok? ==> forall k :: k in old(nodes)[n].cls.table && k !in e ==> FieldAt(nodes[r.value], k) == Some(VNone)
      ensures
        var cls := old(nodes)[n].cls;
        var count := Counter(old(counters), cls.name) + 1;
        counters == old(counters)[cls.name := count] &&
        (r.Ok? ==> NewKeysApplied(old(nodes), old(next), n, e, magic, count, mid, midNext, nodes, r.value))
    {
      var table := nodes[n].cls.table;
      var props := NewProps(table, e, magic);
      var added := AddNewProperties(n, props);
      mid, midNext := nodes, next;
      if added.Err? {
        return added, mid, midNext;
      }
      var t := added.value;
      r := MergeRewritten(t, table, e);
      if r.Ok? {
        NewFieldsKept(env, mid, midNext, nodes, t, table, e, magic);
      }
    }

    /** `add_properties` with properties the class does not declare yet: the new instance's class declares them too. */
    method AddNewProperties(n: Ref, props: map<string, (Kind, Raw)>) returns (r: Result<Ref>)
      requires Valid() && n in nodes && props != map[] && props.Keys !! nodes[n].cls.table.Keys
      modifies this
      ensures Valid() && Keeps(old(nodes), nodes) && old(next) <= next
      ensures r.Ok? ==> r.value in nodes && old(next) <= r.value
      ensures r.Ok? ==> nodes[r.value].cls.table.Keys == old(nodes)[n].cls.table.Keys + props.Keys
      ensures counters == old(counters)[old(nodes)[n].cls.name := Counter(old(counters), old(nodes)[n].cls.name) + 1]
      ensures Extension(old(nodes), old(next), n, props, Counter(old(counters), old(nodes)[n].cls.name) + 1, nodes, next, r)
      ensures r.Ok? ==> forall k :: k in props ==>
        k in nodes[r.value].fields &&
        BuildField(env, Leaf(props[k].0), props[k].1) == Ok(AbsVal(nodes, next, r.value, nodes[r.value].fields[k]))
    {
      r := AddProperties(n, props);
      if r.Ok? {
        var count := Counter(old(counters), old(nodes)[n].cls.name) + 1;
        ExtensionTable(old(nodes), old(next), n, props, count, nodes, next, r);
        forall k | k in props
          ensures k in nodes[r.value].fields
          ensures BuildField(env, Leaf(props[k].0), props[k].1) == Ok(AbsVal(nodes, next, r.value, nodes[r.value].fields[k]))
        {
          ExtendedNewField(env, Abs(old(nodes), old(next), n), props, count, k);
        }
      }
    }

    lemma ExtensionTable(ns: map<Ref, Node>, b: nat, n: Ref, props: map<string, (Kind, Raw)>, count: nat,
                         ns2: map<Ref, Node>, b2: nat, r: Result<Ref>)
      requires n in ns && Extension(ns, b, n, props, count, ns2, b2, r) && r.Ok?
      ensures r.value in ns2 && b <= r.value
      ensures ns2[r.value].cls.table.Keys == ns[n].cls.table.Keys + props.Keys
    {
    }

    /**
     * The closing `merge_data` of `apply_data`, on the dict rewritten to the
     * declared keys: the declared keys the data lacks end up None, and
     * without new keys every key of the data is merged as it is.
     */
    method MergeRewritten(t: Ref, table: Table, e: map<string, Raw>) returns (r: Result<Ref>)
      requires Valid() && t in nodes && table.Keys <= nodes[t].cls.table.Keys
      modifies this
      ensures Valid() && counters == old(counters) && t in nodes
      ensures MergeFrame(old(nodes), old(next), nodes, next, t)
      ensures r.Ok? ==> r.value == t
      ensures r.Ok? ==> forall k :: k in table && k !in e ==> FieldAt(nodes[t], k) == Some(VNone)
      ensures SameSlots(old(nodes)[t], nodes[t], table.Keys)
      ensures r.Ok? ==> forall k :: k in e && k in table ==> SlotMerged(env, old(nodes)[t], nodes[t], k, e[k])
      ensures r.Ok? && NewKeys(table, e) == {} ==> forall k :: k in e ==> SlotMerged(env, old(nodes)[t], nodes[t], k, e[k])
    {
      r := MergeData(t, RObj(Rewritten(table, e)), false);
      if r.Ok? {
        ObsoleteCleared(env, old(nodes)[t], nodes[t], table, e);
        RewrittenMerged(env, old(nodes)[t], nodes[t], table, e);
      }
    }
  }

  /** A list whose items are all linked is linked. */
  lemma LinkedList(ns: map<Ref, Node>, b: nat, n: Ref, f: string, items: seq<Val>)
    requires forall j :: 0 <= j < |items| ==> Linked(ns, b, n, f, items[j])
    ensures Linked(ns, b, n, f, VList(items))
  {
    forall c: Ref | Holds(VList(items), c)
      ensures n < c < b && c in ns && ns[c].parent == Some(n) && ns[c].attrName == Some(f)
    {
      var j :| 0 <= j < |items| && Holds(items[j], c);
      assert Linked(ns, b, n, f, items[j]);
    }
  }

  /**
   * The value `_try_merge_type` leaves for an adapter field of adapter `a`
   * holding `prev`: the value `from_data` parses from `v` when it parses,
   * else what `replace` makes of `v` on a stored adapter value; nothing
   * when neither gives a value.
   */
  function AdapterMerge(env: Env, prev: Val, a: string, v: Raw): (x: Option<Val>)
    ensures x.Some? ==> x.value.VScalar? && (x.value.adapter == a || (prev.VScalar? && x.value.adapter == prev.adapter))
  {
    var parsed := FromData(AdapterOf(env, a), v);
    if parsed.Some? then Some(VScalar(a, parsed.value))
    else if prev.VScalar? && Replace(AdapterOf(env, prev.adapter), v).Some? then
      Some(VScalar(prev.adapter, Replace(AdapterOf(env, prev.adapter), v).value))
    else None
  }

  /**
   * The value one adapter alternative of `_try_merge_object` makes of `v`
   * when `prev` is stored: what `replace` on a stored adapter value gives,
   * else a fresh value `from_data` parses; nothing when neither parses.
   */
  function AdapterOffer(env: Env, prev: Val, a: string, v: Raw): Option<Val>
  {
    if prev.VScalar? && Replace(AdapterOf(env, prev.adapter), v).Some? then
      Some(VScalar(prev.adapter, Replace(AdapterOf(env, prev.adapter), v).value))
    else
      var p := FromData(AdapterOf(env, a), v);
      if p.Some? then Some(VScalar(a, p.value)) else None
  }

  /**
   * The alternative `kind` of `_select_and_merge_type` passes `v` on
   * (`_try_merge_object` returns None) for the field `k` of the node `a`
   * in the heap `ns`: a bool alternative unless `v` is a bool; a mapper
   * alternative unless `v` is a dict that the stored instance says
   * `is_equal_or_compat` to or, with no instance stored, that the class is
   * compatible with; an adapter alternative when neither `replace` nor
   * `from_data` gives a value.
   */
  ghost predicate PassesOn(env: Env, ns: map<Ref, Node>, a: Node, k: string, kind: Kind, v: Raw)
  {
    var prev := Stored(a, k);
    match kind
    case BoolKind => !v.RBool?
    case MapperKind(m) =>
      !v.RObj? ||
      (if prev.VRef? then prev.ref in ns && EqualOrCompat(ns[prev.ref], v) == Ok(false)
       else IsCompat(MapperOf(env, m), v) == Ok(false))
    case AdapterKind(name) => AdapterOffer(env, prev, name, v).None?
  }

  /**
   * The value `x` an alternative that does not pass on stores, the heap
   * going from `ns0` to `ns`: the bool itself, the adapter value it offers,
   * or the nested instance `ChildMerged` describes.
   */
  ghost predicate Takes(env: Env, ns0: map<Ref, Node>, ns: map<Ref, Node>, b: nat, a: Node, k: string, kind: Kind, v: Raw, x: Val)
  {
    var prev := Stored(a, k);
    match kind
    case BoolKind => v.RBool? && x == VBool(v.b)
    case MapperKind(m) => ChildMerged(env, ns0, ns, b, prev, m, v, x)
    case AdapterKind(name) => AdapterOffer(env, prev, name, v) == Some(x)
  }

  /** The position of the first alternative of `ks` that does not pass `v` on; `|ks|` when all do. */
  ghost function FirstTaker(env: Env, ns: map<Ref, Node>, a: Node, k: string, ks: seq<Kind>, v: Raw): (i: nat)
    ensures i <= |ks|
    ensures forall j :: 0 <= j < i ==> PassesOn(env, ns, a, k, ks[j], v)
    ensures i < |ks| ==> !PassesOn(env, ns, a, k, ks[i], v)
    decreases |ks|
  {
    if ks == [] then 0
    else if PassesOn(env, ns, a, k, ks[0], v) then
      var i := 1 + FirstTaker(env, ns, a, k, ks[1..], v);
      assert forall j :: 1 <= j < |ks| ==> ks[j] == ks[1..][j - 1];
      i
    else 0
  }

  /**
   * What `_select_and_merge_type` over `ks` leaves: UnsupportedType when
   * every alternative passes `v` on; on success, the value the first
   * alternative that does not pass it on stores.
   */
  ghost predicate UnionMerged(env: Env, ns0: map<Ref, Node>, ns: map<Ref, Node>, b: nat, a: Node, k: string,
                              ks: seq<Kind>, v: Raw, r: Result<Option<Val>>)
  {
    var i := FirstTaker(env, ns0, a, k, ks, v);
    (i == |ks| ==> r == Err(UnsupportedType)) &&
    (r.Ok? ==> i < |ks| && r.value.Some? && Takes(env, ns0, ns, b, a, k, ks[i], v, r.value.value))
  }

  /** Seen without the heap, what an alternative that passed `v` on must satisfy. */
  predicate MayDecline(env: Env, prev: Val, kind: Kind, v: Raw)
  {
    match kind
    case BoolKind => !v.RBool?
    case MapperKind(m) => !v.RObj? || prev.VRef? || IsCompat(MapperOf(env, m), v) == Ok(false)
    case AdapterKind(name) => AdapterOffer(env, prev, name, v).None?
  }

  /** Seen without the heap, the value `x` an alternative that took `v` stores. */
  ghost predicate TakesVal(env: Env, prev: Val, kind: Kind, v: Raw, x: Val)
  {
    match kind
    case BoolKind => v.RBool? && x == VBool(v.b)
    case MapperKind(m) =>
      v.RObj? && x.VRef? && (prev.VRef? ==> x == prev) && (!prev.VRef? ==> BuildObject(env, MapperOf(env, m), v).Ok?)
    case AdapterKind(name) => AdapterOffer(env, prev, name, v) == Some(x)
  }

  /** A union merge, seen without the heap, is one `ValMerged` describes. */
  lemma UnionMergedVal(env: Env, ns0: map<Ref, Node>, ns: map<Ref, Node>, b: nat, a: Node, k: string, v: Raw, r: Result<Option<Val>>)
    requires k in a.cls.table && a.cls.table[k].UnionOf?
    requires UnionMerged(env, ns0, ns, b, a, k, a.cls.table[k].kinds, v, r) && r.Ok?
    ensures ValMerged(env, a, k, v, r.value.value)
  {
    var ks := a.cls.table[k].kinds;
    var prev := Stored(a, k);
    var i := FirstTaker(env, ns0, a, k, ks, v);
    forall j | 0 <= j < i
      ensures MayDecline(env, prev, ks[j], v)
    {
      assert PassesOn(env, ns0, a, k, ks[j], v);
    }
    assert Takes(env, ns0, ns, b, a, k, ks[i], v, r.value.value);
    assert TakesVal(env, prev, ks[i], v, r.value.value);
  }

  /**
   * Raising the flag of `n` changes no alternative's verdict and no value
   * it stores: the instance a field of `n` holds is another node.
   */
  lemma PassesOnFlag(env: Env, ns0: map<Ref, Node>, b0: nat, n: Ref, ns: map<Ref, Node>, k: string, kind: Kind, v: Raw,
                     ns1: map<Ref, Node>, b1: nat, x: Val)
    requires Wf(ns0, b0) && n in ns0 && n in ns
    requires ns == ns0[n := ns[n]] && ns[n] == ns0[n].(changed := ns[n].changed)
    ensures PassesOn(env, ns, ns[n], k, kind, v) == PassesOn(env, ns0, ns0[n], k, kind, v)
    ensures Takes(env, ns, ns1, b1, ns[n], k, kind, v, x) == Takes(env, ns0, ns1, b1, ns0[n], k, kind, v, x)
  {
    var prev := Stored(ns0[n], k);
    assert Stored(ns[n], k) == prev;
    if prev.VRef? {
      assert k in ns0[n].fields && Holds(prev, prev.ref);
      assert Linked(ns0, b0, n, k, ns0[n].fields[k]);
      assert ns[prev.ref] == ns0[prev.ref];
    }
  }

  /**
   * The value `x` merging `v` (not None) into the declared field `k` of a
   * node that was `a` may store, by the field's shape: the truth value of
   * `v` for a bool; the `_try_merge_type` value for an adapter; for a
   * nested mapper, given a dict, the instance already there if there was
   * one, else a new instance; for a list, given a list, a list of the same
   * length; for a union, the value of an alternative that takes `v` after
   * all those before it could pass it on. A tuple-literal field never
   * stores a merged value.
   */
  ghost predicate ValMerged(env: Env, a: Node, k: string, v: Raw, x: Val)
    requires k in a.cls.table
  {
    var prev := Stored(a, k);
    match a.cls.table[k]
    case Leaf(BoolKind) => x == VBool(Truthy(v))
    case Leaf(AdapterKind(name)) => Some(x) == AdapterMerge(env, prev, name, v)
    case Leaf(MapperKind(_)) => v.RObj? && x.VRef? && (prev.VRef? ==> x == prev)
    case ListOf(_) => v.RArr? && x.VList? && |x.items| == |v.items|
    case UnionOf(ks) =>
      exists i :: 0 <= i < |ks| && TakesVal(env, prev, ks[i], v, x) && forall j :: 0 <= j < i ==> MayDecline(env, prev, ks[j], v)
    case ClassList(_) => false
  }

  /**
   * What merging `v` under `k` leaves in slot `k` of a node that was `a`:
   * an undeclared key holds the value `MergedUnknown` describes; a declared
   * one holds None for None, and otherwise a value `ValMerged` describes.
   */
  ghost predicate SlotMerged(env: Env, a: Node, b: Node, k: string, v: Raw)
  {
    if k !in a.cls.table then
      var merged := MergedUnknown(StoredUnknown(a.unknown, k), v);
      merged.Ok? && UnknownAt(b, k) == Some(merged.value)
    else if v.RNull? then FieldAt(b, k) == Some(VNone)
    else FieldAt(b, k).Some? && ValMerged(env, a, k, v, FieldAt(b, k).value)
  }

  /**
   * What merging the value `v` into a nested-mapper field of mapper `m`
   * that held `prev` left behind, where `x` is the field's new value: an
   * instance already stored there is kept, and every key of `v` was merged
   * into it with no other slot of it touched; otherwise `x` is a fresh
   * instance whose tree is the one `v` builds.
   */
  ghost predicate ChildMerged(env: Env, ns0: map<Ref, Node>, ns: map<Ref, Node>, b: nat, prev: Val, m: string, v: Raw, x: Val)
  {
    v.RObj? && x.VRef? &&
    if prev.VRef? then
      x == prev && prev.ref in ns0 && prev.ref in ns && DataMerged(env, ns0[prev.ref], ns[prev.ref], v)
    else
      var built := BuildObject(env, MapperOf(env, m), v);
      built.Ok? && Abs(ns, b, x.ref) == built.value
  }

  /**
   * `merge_data(v)` took the node `before` to `after`: every key of the
   * dict `v` was merged into its slot as `SlotMerged` describes, and no
   * other slot changed.
   */
  ghost predicate DataMerged(env: Env, before: Node, after: Node, v: Raw)
  {
    v.RObj? && SameSlots(before, after, v.entries.Keys) &&
    forall j :: j in v.entries ==> SlotMerged(env, before, after, j, v.entries[j])
  }

  /** Rewriting a node made before the instance `x` keeps what a merge left below `x`. */
  lemma ChildMergedWrite(env: Env, ns0: map<Ref, Node>, ns: map<Ref, Node>, b: nat, n: Ref, node: Node,
                         prev: Val, m: string, v: Raw, x: Val)
    requires Wf(ns, b) && n in ns && ChildMerged(env, ns0, ns, b, prev, m, v, x) && n < x.ref < b
    ensures ChildMerged(env, ns0, ns[n := node], b, prev, m, v, x)
  {
    if !prev.VRef? {
      WfClosed(ns, b, n + 1);
      AbsFrame(ns, b, ns[n := node], b, n + 1, x.ref);
    }
  }

  /**
   * Data that `merge_data` into the instance `a` gives back through
   * `as_dict`: canonical for its class, with only bool and adapter fields,
   * while every other declared field of the instance is unset or None.
   */
  ghost predicate FlatMergeable(env: Env, a: Node, data: Raw)
  {
    CanonicalObj(env, a.cls, data) &&
    (forall k :: k in data.entries ==> k in a.cls.table && a.cls.table[k].Leaf? && !a.cls.table[k].kind.MapperKind?) &&
    (forall f :: f in a.cls.table && f !in data.entries ==> Stored(a, f) == VNone)
  }

  /** After a merge of such data, `as_dict` of the instance is the data. */
  lemma FlatMergeRoundTrip(env: Env, a: Node, ns: map<Ref, Node>, b: nat, n: Ref, data: Raw)
    requires n in ns && ns[n].cls == a.cls && FlatMergeable(env, a, data)
    requires SameSlots(a, ns[n], data.entries.Keys)
    requires forall k :: k in data.entries ==> SlotMerged(env, a, ns[n], k, data.entries[k])
    ensures Emit(env, Abs(ns, b, n), []) == data.entries
  {
    var t := Abs(ns, b, n);
    var e := data.entries;
    forall k | k in e
      ensures k in t.fields && k in t.cls.table && !t.fields[k].TNone? && EmitVal(env, t.fields[k]) == e[k]
    {
      assert CanonicalField(env, a.cls.table[k], e[k]);
      var x := FieldAt(ns[n], k).value;
      assert t.fields[k] == AbsVal(ns, b, n, x);
      match a.cls.table[k]
      case Leaf(BoolKind) =>
      case Leaf(AdapterKind(name)) =>
        assert Some(x) == AdapterMerge(env, Stored(a, k), name, e[k]);
    }
    forall f | f in t.fields && f in t.cls.table && f !in e
      ensures t.fields[f].TNone?
    {
      assert FieldAt(ns[n], f) == FieldAt(a, f) && Stored(a, f) == VNone;
      assert t.fields[f] == AbsVal(ns, b, n, VNone);
    }
    assert Emit(env, t, []) == e;
  }

  /** `SlotMerged` only looks at the class and slot `k` of the node before. */
  lemma SlotMergedMoved(env: Env, a: Node, before: Node, after: Node, k: string, v: Raw)
    requires SlotMerged(env, before, after, k, v)
    requires before.cls == a.cls && FieldAt(before, k) == FieldAt(a, k) && UnknownAt(before, k) == UnknownAt(a, k)
    ensures SlotMerged(env, a, after, k, v)
  {
    assert Stored(before, k) == Stored(a, k);
    assert StoredUnknown(before.unknown, k) == StoredUnknown(a.unknown, k);
  }

  /** `SlotMerged` only looks at slot `k` of the node after. */
  lemma SlotMergedKept(env: Env, a: Node, before: Node, after: Node, k: string, v: Raw)
    requires SlotMerged(env, a, before, k, v)
    requires FieldAt(after, k) == FieldAt(before, k) && UnknownAt(after, k) == UnknownAt(before, k)
    ensures SlotMerged(env, a, after, k, v)
  {
  }

  /** A node rewritten in slot `k` alone, its flag only raised, is a merge of slot `k`. */
  lemma SlotWritten(a: Node, b: Node, k: string)
    requires b.cls == a.cls && b.parent == a.parent && b.attrName == a.attrName && (a.changed ==> b.changed)
    requires b.fields == a.fields || (k in b.fields && b.fields == a.fields[k := b.fields[k]])
    requires b.unknown == a.unknown || (k in b.unknown && b.unknown == a.unknown[k := b.unknown[k]])
    ensures SlotOnly(a, b, k)
  {
  }

  /** Slots outside `done` kept, then slots other than `k` kept: slots outside `done + {k}` kept. */
  lemma SameSlotsStep(a: Node, before: Node, after: Node, done: set<string>, k: string)
    requires SameSlots(a, before, done) && SameSlots(before, after, {k})
    ensures SameSlots(a, after, done + {k})
  {
  }

  /** One key of the merge loop: the merged keys grow by `k`. */
  lemma MergeStep(env: Env, a: Node, before: Node, after: Node, e: map<string, Raw>, todo: set<string>, k: string)
    requires k in todo && todo <= e.Keys
    requires before.cls == a.cls
    requires SameSlots(a, before, e.Keys - todo)
    requires forall j :: j in e && j !in todo ==> SlotMerged(env, a, before, j, e[j])
    requires SlotOnly(before, after, k) && SlotMerged(env, before, after, k, e[k])
    ensures SameSlots(a, after, e.Keys - (todo - {k}))
    ensures forall j :: j in e && j !in todo - {k} ==> SlotMerged(env, a, after, j, e[j])
  {
    SameSlotsStep(a, before, after, e.Keys - todo, k);
    assert e.Keys - todo + {k} == e.Keys - (todo - {k});
    SlotMergedMoved(env, a, before, after, k, e[k]);
    forall j | j in e && j !in todo - {k}
      ensures SlotMerged(env, a, after, j, e[j])
    {
      if j != k {
        SlotMergedKept(env, a, before, after, j, e[j]);
      }
    }
  }

  /**
   * The bookkeeping of `_merge_list`: the pool and the items taken from it
   * make up the existing items, and the instances among the result items
   * are those among the taken ones, in order.
   */
  ghost predicate Consumed(orig: seq<Val>, pool: seq<Val>, taken: seq<Val>, items: seq<Val>)
  {
    multiset(pool) + multiset(taken) == multiset(orig) &&
    RefsOf(items) == RefsOf(taken) &&
    forall j :: 0 <= j < |items| ==> !items[j].VList?
  }

  /** The instances left in the pool are children of `n` under `k`. */
  lemma PoolLinked(ns: map<Ref, Node>, b: nat, n: Ref, k: string, orig: seq<Val>, pool: seq<Val>)
    requires Linked(ns, b, n, k, VList(orig)) && multiset(pool) <= multiset(orig)
    ensures forall j :: 0 <= j < |pool| && pool[j].VRef? ==> n < pool[j].ref < b
  {
    forall j | 0 <= j < |pool| && pool[j].VRef?
      ensures n < pool[j].ref < b
    {
      assert pool[j] in multiset(orig);
      var idx :| 0 <= idx < |orig| && orig[idx] == pool[j];
      HeldItem(orig, idx);
    }
  }

  /** One item of `_merge_list` that consumed pool entry `t`: the entry moves to `taken`, the item joins the result. */
  lemma ConsumeStep(orig: seq<Val>, pool: seq<Val>, taken: seq<Val>, items: seq<Val>, item: Val, t: nat)
    requires Consumed(orig, pool, taken, items) && !item.VList?
    requires t < |pool| && (item.VRef? || pool[t].VRef? ==> item == pool[t])
    ensures Consumed(orig, RemoveAt(pool, t), taken + [pool[t]], items + [item])
  {
    MultisetMove(pool, taken, t);
    RefsMove(items, taken, item, pool[t]);
    AppendNoList(items, item);
  }

  lemma MultisetMove(pool: seq<Val>, taken: seq<Val>, t: nat)
    requires t < |pool|
    ensures multiset(RemoveAt(pool, t)) + multiset(taken + [pool[t]]) == multiset(pool) + multiset(taken)
  {
    assert multiset(taken + [pool[t]]) == multiset(taken) + multiset{pool[t]};
  }

  lemma RefsMove(items: seq<Val>, taken: seq<Val>, item: Val, x: Val)
    requires RefsOf(items) == RefsOf(taken)
    requires item.VRef? || x.VRef? ==> item == x
    ensures RefsOf(items + [item]) == RefsOf(taken + [x])
  {
    RefsOfAppend(items, item);
    RefsOfAppend(taken, x);
  }

  /** One item of `_merge_list` that consumed nothing: it is no instance, and joins the result. */
  lemma SkipStep(orig: seq<Val>, pool: seq<Val>, taken: seq<Val>, items: seq<Val>, item: Val)
    requires Consumed(orig, pool, taken, items) && !item.VList? && !item.VRef?
    ensures Consumed(orig, pool, taken, items + [item])
  {
    RefsOfAppend(items, item);
    AppendNoList(items, item);
  }

  lemma AppendNoList(items: seq<Val>, item: Val)
    requires (forall j :: 0 <= j < |items| ==> !items[j].VList?) && !item.VList?
    ensures forall j :: 0 <= j < |items + [item]| ==> !(items + [item])[j].VList?
  {
  }

  /**
   * At the end of `_merge_list`: the instances among the items are linked,
   * and each occurs no more often than it did among the existing items.
   */
  lemma ConsumedLinked(ns: map<Ref, Node>, b: nat, n: Ref, k: string, orig: seq<Val>, pool: seq<Val>, taken: seq<Val>, items: seq<Val>)
    requires Consumed(orig, pool, taken, items) && Linked(ns, b, n, k, VList(orig))
    ensures Linked(ns, b, n, k, VList(items))
    ensures multiset(RefsOf(items)) <= multiset(orig)
  {
    TakenFromOrig(orig, pool, taken, items);
    forall c: Ref | Holds(VList(items), c)
      ensures n < c < b && c in ns && ns[c].parent == Some(n) && ns[c].attrName == Some(k)
    {
      var j :| 0 <= j < |items| && Holds(items[j], c);
      ItemFromOrig(orig, items, j, c);
      var idx :| 0 <= idx < |orig| && orig[idx] == VRef(c);
      HeldItem(orig, idx);
    }
  }

  lemma TakenFromOrig(orig: seq<Val>, pool: seq<Val>, taken: seq<Val>, items: seq<Val>)
    requires Consumed(orig, pool, taken, items)
    ensures multiset(RefsOf(items)) <= multiset(orig)
  {
    assert multiset(RefsOf(taken)) <= multiset(taken);
  }

  lemma ItemFromOrig(orig: seq<Val>, items: seq<Val>, j: nat, c: Ref)
    requires multiset(RefsOf(items)) <= multiset(orig)
    requires j < |items| && !items[j].VList? && Holds(items[j], c)
    ensures VRef(c) in orig
  {
    assert items[j] == VRef(c);
    assert items[j] in RefsOf(items);
    assert items[j] in multiset(RefsOf(items));
  }

  /** `getattr(self, '_k', [])` read as a list: the items stored under `k`, none when it is unset. */
  function Existing(n: Node, k: string): seq<Val>
  {
    if k in n.fields && n.fields[k].VList? then n.fields[k].items else []
  }

  /**
   * The alternative `kind` of `_merge_list` lets the item `x` go on to the
   * next alternative: always for bool; for a mapper class, when the list
   * is iterable, no held instance of the class says `is_equal_or_compat`,
   * and the fallback `identify(x) and validate_keys(x)` raises nothing;
   * never for an adapter, which always settles the item.
   */
  ghost predicate ItemPasses(env: Env, ns: map<Ref, Node>, pool: seq<Val>, kind: Kind, x: Raw, iterable: bool)
  {
    match kind
    case BoolKind => true
    case MapperKind(m) =>
      var cls := MapperOf(env, m);
      var identified := IdentifySpec(cls.identifyPath, x);
      iterable &&
      (forall j :: 0 <= j < |pool| && Candidate(ns, pool[j], m) ==> EqualOrCompat(ns[pool[j].ref], x) == Ok(false)) &&
      identified.Ok? && (identified.value ==> ValidateKeys(cls.table, x) == Pass)
    case AdapterKind(_) => false
  }

  /**
   * The alternative `kind` settles the item `x` of `_merge_list` as `item`,
   * consuming the held position `taken`: a mapper alternative takes the
   * first held instance of its class that says `is_equal_or_compat` (those
   * before it said no); an adapter alternative replaces the first held
   * value of its type when `replace` accepts `x`, and otherwise yields the
   * value `from_data` makes of the whole list `whole` (None when it fails),
   * consuming nothing.
   */
  ghost predicate ItemTaken(env: Env, ns: map<Ref, Node>, pool: seq<Val>, kind: Kind, x: Raw, whole: Raw,
                            item: Val, taken: Option<nat>)
  {
    match kind
    case BoolKind => false
    case MapperKind(m) =>
      taken.Some? && taken.value < |pool| && item == pool[taken.value] &&
      Candidate(ns, item, m) && EqualOrCompat(ns[item.ref], x) == Ok(true) &&
      forall j :: 0 <= j < taken.value && Candidate(ns, pool[j], m) ==> EqualOrCompat(ns[pool[j].ref], x) == Ok(false)
    case AdapterKind(a) =>
      var q := Replace(AdapterOf(env, a), x);
      (taken.Some? ==>
         taken.value < |pool| && pool[taken.value].VScalar? && pool[taken.value].adapter == a &&
         q.Some? && item == VScalar(a, q.value) &&
         forall j :: 0 <= j < taken.value ==> !(pool[j].VScalar? && pool[j].adapter == a)) &&
      (taken.None? ==>
         (q.None? || forall j :: 0 <= j < |pool| ==> !(pool[j].VScalar? && pool[j].adapter == a)) &&
         var p := FromData(AdapterOf(env, a), whole);
         item == (if p.Some? then VScalar(a, p.value) else VNone))
  }

  /** `isinstance(obj, prop_type)` for the mapper class `m`. */
  predicate Candidate(ns: map<Ref, Node>, v: Val, m: string)
  {
    v.VRef? && v.ref in ns && m in ns[v.ref].cls.classes
  }

  /** `cls._subclass_counter`, 0 until the class first extends an instance. */
  function Counter(counters: map<string, nat>, name: string): nat
  {
    if name in counters then counters[name] else 0
  }

  /** The new values `add_properties` adds to the data. */
  function Values(props: map<string, (Kind, Raw)>): (d: map<string, Raw>)
    ensures d.Keys == props.Keys
  {
    map f | f in props :: props[f].1
  }

  /**
   * The subclass `add_properties` makes: named after the class and its
   * counter, an instance of the class, declaring each new name with its type.
   */
  function Extended(cls: MapperClass, props: map<string, (Kind, Raw)>, count: nat): (sub: MapperClass)
    ensures sub.table.Keys == cls.table.Keys + props.Keys
  {
    var name := cls.name + IntToText(count);
    cls.(name := name, classes := cls.classes + {name},
      table := map f | f in cls.table.Keys + props.Keys :: if f in props then Leaf(props[f].0) else cls.table[f])
  }

  /** Whether `add_properties` puts its result into the parent's slot: a parent and a non-empty attribute name. */
  predicate Spliced(node: Node)
  {
    node.parent.Some? && node.attrName.Some? && node.attrName.value != ""
  }

  /** The data `add_properties` builds from names only the extended class declares. */
  lemma ExtendedDataDeclared(env: Env, t: Tree, props: map<string, (Kind, Raw)>, count: nat)
    ensures var e := Emit(env, t, []) + Values(props);
      UnknownEntries(Extended(t.cls, props, count).table, e) == map[]
  {
  }

  /** The closing merge of `apply_data` leaves each new field as `add_properties` built it from the data. */
  lemma NewFieldsKept(env: Env, mid: map<Ref, Node>, b: nat, ns: map<Ref, Node>, t: Ref, table: Table, e: map<string, Raw>, magic: Kind)
    requires t in mid && t in ns && SameSlots(mid[t], ns[t], table.Keys)
    requires forall k :: k in NewProps(table, e, magic) ==>
      k in mid[t].fields &&
      BuildField(env, Leaf(NewProps(table, e, magic)[k].0), NewProps(table, e, magic)[k].1) == Ok(AbsVal(mid, b, t, mid[t].fields[k]))
    ensures forall k :: k in NewKeys(table, e) ==>
      FieldAt(ns[t], k).Some? && BuildField(env, Leaf(magic), e[k]) == Ok(AbsVal(mid, b, t, FieldAt(ns[t], k).value))
  {
    forall k | k in NewKeys(table, e)
      ensures FieldAt(ns[t], k).Some? && BuildField(env, Leaf(magic), e[k]) == Ok(AbsVal(mid, b, t, FieldAt(ns[t], k).value))
    {
      assert k in NewProps(table, e, magic) && k !in table;
      assert FieldAt(ns[t], k) == FieldAt(mid[t], k);
    }
  }

  /** Each new name of the subclass holds the value its type parses from the value given for it. */
  lemma ExtendedNewField(env: Env, t: Tree, props: map<string, (Kind, Raw)>, count: nat, k: string)
    requires k in props
    requires BuildObject(env, Extended(t.cls, props, count), RObj(Emit(env, t, []) + Values(props))).Ok?
    ensures var u := BuildObject(env, Extended(t.cls, props, count), RObj(Emit(env, t, []) + Values(props))).value;
      k in u.fields && BuildField(env, Leaf(props[k].0), props[k].1) == Ok(u.fields[k])
  {
    var sub := Extended(t.cls, props, count);
    var e := Emit(env, t, []) + Values(props);
    assert e[k] == props[k].1 && sub.table[k] == Leaf(props[k].0);
    assert !exists j :: j in e && j in sub.table && BuildField(env, sub.table[j], e[j]).Err?;
    assert BuildObject(env, sub, RObj(e)).value.fields == BuiltFields(env, sub.table, e);
  }

  /** The instance built for `add_properties` is of the extended class and has no unknown params. */
  lemma ExtendedInstance(env: Env, ns: map<Ref, Node>, b: nat, c: Ref, t0: Tree, props: map<string, (Kind, Raw)>, count: nat)
    requires c in ns
    requires BuildObject(env, Extended(t0.cls, props, count), RObj(Emit(env, t0, []) + Values(props))).Ok?
    requires Abs(ns, b, c) == BuildObject(env, Extended(t0.cls, props, count), RObj(Emit(env, t0, []) + Values(props))).value
    ensures ns[c].cls == Extended(t0.cls, props, count) && ns[c].unknown == map[]
  {
    var data := RObj(Emit(env, t0, []) + Values(props));
    ExtendedDataDeclared(env, t0, props, count);
    BuiltInstance(env, Extended(t0.cls, props, count), data);
  }

  /** After merging the rewritten dict, every declared key the data lacked holds None. */
  lemma ObsoleteCleared(env: Env, a: Node, b: Node, table: Table, e: map<string, Raw>)
    requires table.Keys <= a.cls.table.Keys
    requires forall k :: k in Rewritten(table, e) ==> SlotMerged(env, a, b, k, Rewritten(table, e)[k])
    ensures forall k :: k in table && k !in e ==> FieldAt(b, k) == Some(VNone)
  {
    forall k | k in table && k !in e
      ensures FieldAt(b, k) == Some(VNone)
    {
      assert k in Rewritten(table, e);
    }
  }

  /** Without new keys, the rewritten dict merges each key of the data as the data has it. */
  lemma RewrittenMerged(env: Env, a: Node, b: Node, table: Table, e: map<string, Raw>)
    requires forall k :: k in Rewritten(table, e) ==> SlotMerged(env, a, b, k, Rewritten(table, e)[k])
    ensures forall k :: k in e && k in table ==> SlotMerged(env, a, b, k, e[k])
  {
    forall k | k in e && k in table
      ensures SlotMerged(env, a, b, k, e[k])
    {
      assert k in Rewritten(table, e);
    }
  }

  /**
   * The value `add_properties` means to leave in the parent's slot: the new
   * instance `c` in the place of `n`, the other items of a list kept; a slot
   * that is not a list gets the new instance.
   */
  function SpliceIntended(held: Val, n: Ref, c: Ref): Val
  {
    if held.VList? then
      VList(seq(|held.items|, i requires 0 <= i < |held.items| =>
        if held.items[i] == VRef(n) then VRef(c) else held.items[i]))
    else VRef(c)
  }

  /** The value `add_properties` leaves as written: the new instance, whatever the slot held. */
  function SpliceAsWritten(held: Val, n: Ref, c: Ref): Val
  {
    VRef(c)
  }

  /**
   * The intended splice keeps every other instance the slot held and puts
   * `c` where `n` was.
   */
  lemma SpliceKeepsSiblings(held: Val, n: Ref, c: Ref)
    requires held.VList?
    ensures forall d: Ref :: d != n && Holds(held, d) ==> Holds(SpliceIntended(held, n, c), d)
    ensures VRef(n) in held.items ==> Holds(SpliceIntended(held, n, c), c)
  {
    var v := SpliceIntended(held, n, c);
    forall d: Ref | d != n && Holds(held, d)
      ensures Holds(v, d)
    {
      var i :| 0 <= i < |held.items| && Holds(held.items[i], d);
      assert v.items[i] == held.items[i];
    }
    if VRef(n) in held.items {
      var i :| 0 <= i < |held.items| && held.items[i] == VRef(n);
      assert Holds(v.items[i], c);
    }
  }

  /**
   * As written, extending an instance held in a list field replaces the
   * whole list by the new instance: its sibling is no longer held.
   */
  lemma ListItemSiblingLost(n: Ref, c: Ref, d: Ref)
    requires d != c && d != n && n != c
    ensures Holds(VList([VRef(n), VRef(d)]), d)
    ensures !Holds(SpliceAsWritten(VList([VRef(n), VRef(d)]), n, c), d)
    ensures Holds(SpliceIntended(VList([VRef(n), VRef(d)]), n, c), d)
  {
    assert Holds(VRef(d), d);
    assert VList([VRef(n), VRef(d)]).items[1] == VRef(d);
    SpliceKeepsSiblings(VList([VRef(n), VRef(d)]), n, c);
  }

  /** The intended splice of a linked value and a linked new instance is linked. */
  lemma SpliceLinked(ns: map<Ref, Node>, b: nat, p: Ref, a: string, held: Val, n: Ref, c: Ref)
    requires Linked(ns, b, p, a, held) && Linked(ns, b, p, a, VRef(c))
    ensures Linked(ns, b, p, a, SpliceIntended(held, n, c))
  {
    var v := SpliceIntended(held, n, c);
    forall d: Ref | Holds(v, d)
      ensures p < d < b && d in ns && ns[d].parent == Some(p) && ns[d].attrName == Some(a)
    {
      if held.VList? {
        var i :| 0 <= i < |v.items| && Holds(v.items[i], d);
        if held.items[i] == VRef(n) {
          assert Holds(VRef(c), d);
        } else {
          assert Holds(held, d);
        }
      } else {
        assert Holds(VRef(c), d);
      }
    }
  }

  /** `_pm_private_attr_name or __class__.__name__`. */
  function Label(node: Node): string
  {
    if node.attrName.Some? && node.attrName.value != "" then node.attrName.value else node.cls.name
  }

  /** `sep.join(parts)`. */
  function JoinWith(parts: seq<string>, sep: string): string
  {
    if parts == [] then ""
    else if |parts| == 1 then parts[0]
    else JoinWith(parts[..|parts| - 1], sep) + sep + parts[|parts| - 1]
  }

  lemma JoinWithAppend(parts: seq<string>, x: string, sep: string)
    requires parts != []
    ensures JoinWith(parts + [x], sep) == JoinWith(parts, sep) + sep + x
  {
    assert (parts + [x])[..|parts|] == parts;
  }

  /** One more field looked at: the count of set fields among them grows by one iff it is set. */
  lemma CountStep(done: set<string>, present: set<string>, f: string)
    requires f !in done
    ensures |(done + {f}) * present| == |done * present| + (if f in present then 1 else 0)
  {
    if f in present {
      assert (done + {f}) * present == done * present + {f};
    } else {
      assert (done + {f}) * present == done * present;
    }
  }
}
