/**
 * The pure helpers of `PropertyMapperBase` (property_mapper/mapper_base.py):
 * key validation, the identification path, the compatibility test, and the
 * value `_merge_unknown` stores for an undeclared key.
 */
module MapperRules {
  import opened RawData
  import opened Schema
  import opened Utils

  // ---------------------------------------------------------------------
  // validate_keys

  /**
   * `validate_keys`: ValidationError iff the data has a key the table does
   * not declare; a value without `.keys()` raises AttributeError.
   */
  function ValidateKeys(table: Table, data: Raw): (o: Outcome)
    ensures o == Pass <==> data.RObj? && forall k :: k in data.entries ==> k in table
    ensures o == Fail(ValidationError) <==> data.RObj? && exists k :: k in data.entries && k !in table
    ensures o != Pass && !data.RObj? ==> o == Fail(AttributeError)
  {
    if !data.RObj? then Fail(AttributeError)
    else if exists k :: k in data.entries && k !in table then Fail(ValidationError)
    else Pass
  }

  // ---------------------------------------------------------------------
  // identify

  /** The value reached by following the segments; None at a non-dict or a missing or None segment. */
  function Walk(data: Raw, parts: seq<string>): Option<Raw>
    decreases |parts|
  {
    if parts == [] then Some(data)
    else if !data.RObj? || parts[0] !in data.entries || data.entries[parts[0]] == RNull then None
    else Walk(data.entries[parts[0]], parts[1..])
  }

  /**
   * `identify`: False without a path; otherwise the path splits at its last
   * ':' into a dotted lookup and a test text, and the data is identified when
   * the text is non-empty and equals the value the lookup reaches.
   */
  function IdentifySpec(path: Option<string>, data: Raw): Result<bool>
  {
    if path.None? then Ok(false)
    else match RSplitLast(path.value, ':')
      case None => Err(ValueError)
      case Some((lookup, test)) => Ok(test != "" && Walk(data, Split(lookup, '.')) == Some(RStr(test)))
  }

  /** The loop of `identify`, one segment at a time. */
  method Identify(path: Option<string>, data: Raw) returns (r: Result<bool>)
    ensures r == IdentifySpec(path, data)
  {
    if path.None? {
      return Ok(false);
    }
    var split := RSplitLast(path.value, ':');
    if split.None? {
      return Err(ValueError);
    }
    var (lookup, test) := split.value;
    var parts := Split(lookup, '.');
    var current := data;
    var i := 0;
    while i < |parts|
      invariant 0 <= i <= |parts|
      invariant Walk(data, parts) == Walk(current, parts[i..])
    {
      assert parts[i..][1..] == parts[i + 1..];
      if !current.RObj? || parts[i] !in current.entries || current.entries[parts[i]] == RNull {
        return Ok(false);
      }
      current := current.entries[parts[i]];
      i := i + 1;
    }
    assert parts[i..] == [];
    if test != "" {
      return Ok(RStr(test) == current);
    }
    r := Ok(false);
  }

  /** Nested single-key dicts along the segments, ending in `leaf`. */
  function Nest(parts: seq<string>, leaf: Raw): Raw
    decreases |parts|
  {
    if parts == [] then leaf else RObj(map[parts[0] := Nest(parts[1..], leaf)])
  }

  /** Data that holds the test text at the dotted path is identified by it. */
  lemma {:induction false} IdentifyFindsNestedValue(parts: seq<string>, test: string)
    requires |parts| >= 1 && test != "" && ':' !in test
    requires forall k :: 0 <= k < |parts| ==> '.' !in parts[k]
    ensures IdentifySpec(Some(Join(parts, '.') + [':'] + test), Nest(parts, RStr(test))) == Ok(true)
  {
    var path := Join(parts, '.') + [':'] + test;
    var split := RSplitLast(path, ':');
    assert ':' in path by { assert path[|Join(parts, '.')|] == ':'; }
    var (lookup, t) := split.value;
    // the last ':' is the one before `test`, which has none
    SplitAtLastUnique(lookup, t, Join(parts, '.'), test, ':');
    SplitJoin(parts, '.');
    WalkNest(parts, RStr(test));
  }

  lemma {:induction false} WalkNest(parts: seq<string>, leaf: Raw)
    requires leaf != RNull
    ensures Walk(Nest(parts, leaf), parts) == Some(leaf)
    decreases |parts|
  {
    if parts != [] {
      WalkNest(parts[1..], leaf);
      assert Nest(parts[1..], leaf) != RNull;
    }
  }

  /** Only a dict can be identified, and only by a non-empty test text. */
  lemma IdentifiedDataIsDict(path: Option<string>, data: Raw)
    requires IdentifySpec(path, data) == Ok(true)
    ensures data.RObj?
    ensures path.Some? && ':' in path.value
  {
    var (lookup, test) := RSplitLast(path.value, ':').value;
    var parts := Split(lookup, '.');
    assert |parts| >= 1;
  }

  // ---------------------------------------------------------------------
  // is_compat

  /**
   * `is_compat`: the identification path decides when the class has one;
   * otherwise the data is compatible iff its keys validate. A value that is
   * not a dict makes `validate_keys` raise AttributeError, which is not caught.
   */
  function IsCompat(cls: MapperClass, data: Raw): (r: Result<bool>)
    ensures cls.identifyPath.None? ==>
      (r == Ok(true) <==> ValidateKeys(cls.table, data) == Pass) &&
      (r.Err? <==> !data.RObj?)
    ensures cls.identifyPath.Some? ==> r == IdentifySpec(cls.identifyPath, data)
  {
    if cls.identifyPath.Some? then IdentifySpec(cls.identifyPath, data)
    else match ValidateKeys(cls.table, data)
      case Pass => Ok(true)
      case Fail(ValidationError) => Ok(false)
      case Fail(e) => Err(e)
  }

  // ---------------------------------------------------------------------
  // _merge_unknown

  /** `unknown_params.get(name, None)`, with a missing key read as None. */
  function StoredUnknown(unknown: map<string, Raw>, name: string): Raw
  {
    if name in unknown then unknown[name] else RNull
  }

  /** A list item `merge_dicts` can use as an index into a list of `len` items: an int (or a bool, as 0 or 1) in `-len .. len - 1`. */
  predicate IsIndex(x: Raw, len: nat)
  {
    (x.RInt? && -(len as int) <= x.i < len) || (x.RBool? && (if x.b then 1 else 0) < len)
  }

  /**
   * What `merge_dicts` raises when its source is the list `items`: it walks
   * the items and indexes the list by each one, so the first item from `j`
   * on that is no valid index raises IndexError when it is an int or a bool
   * and TypeError otherwise; None when every item is a valid index.
   */
  function ListSourceError(items: seq<Raw>, j: nat): (e: Option<Error>)
    ensures e.None? <==> forall i :: j <= i < |items| ==> IsIndex(items[i], |items|)
    ensures e.Some? ==>
      exists i :: j <= i < |items| && !IsIndex(items[i], |items|) &&
        (forall m :: j <= m < i ==> IsIndex(items[m], |items|)) &&
        e.value == (if items[i].RInt? || items[i].RBool? then IndexError else TypeError)
    decreases |items| - j
  {
    if j >= |items| then None
    else if !IsIndex(items[j], |items|) then
      Some(if items[j].RInt? || items[j].RBool? then IndexError else TypeError)
    else ListSourceError(items, j + 1)
  }

  /**
   * The value `_merge_unknown` stores: an old dict absorbs the new value
   * through `merge_dicts(new, old.copy())`. A new dict wins key by key; an
   * empty str or list leaves the copy as it was; a list raises what
   * `ListSourceError` says, or TypeError when every item is a valid index
   * (Python then adds integer keys, which a raw dict here cannot hold); any
   * other value raises TypeError, since it cannot be iterated or indexed by
   * its own items. Any other old value is replaced.
   */
  function MergedUnknown(prev: Raw, v: Raw): (r: Result<Raw>)
    ensures !prev.RObj? ==> r == Ok(v)
    ensures prev.RObj? && v.RObj? ==>
      r.Ok? && r.value.RObj? &&
      r.value.entries.Keys == prev.entries.Keys + v.entries.Keys &&
      Overlays(r.value.entries, v.entries)
  {
    if !prev.RObj? then Ok(v)
    else if v.RObj? then
      MergeNeverFailsWithoutExtend(v.entries, prev.entries);
      SourceWins(v.entries, prev.entries);
      Ok(RObj(MergeDicts(v.entries, prev.entries, false).value))
    else if v == RStr("") || v == RArr([]) then Ok(prev)
    else if v.RArr? && ListSourceError(v.items, 0).Some? then Err(ListSourceError(v.items, 0).value)
    else Err(TypeError)
  }

  /**
   * What the old value reads as once `merge_dicts` has run: the copy is
   * shallow, so every nested dict both sides hold was merged in place and
   * the old value shows the merged result there.
   */
  function AliasedOld(prev: Raw, v: Raw, merged: Raw): Raw
  {
    if prev.RObj? && v.RObj? && merged.RObj? then
      RObj(map k | k in prev.entries ::
        if k in v.entries && v.entries[k].RObj? && prev.entries[k].RObj? && k in merged.entries
        then merged.entries[k] else prev.entries[k])
    else prev
  }

  /** The change flag `_merge_unknown` sets as written: it compares against the aliased old value. */
  function UnknownChangedAsWritten(prev: Raw, v: Raw, merged: Raw): bool
  {
    !PyEq(AliasedOld(prev, v, merged), merged)
  }

  /**
   * The change flag as intended: the stored value differs, under Python's
   * `!=`, from the one before the merge. Storing the same value again never
   * raises it; a str or None is changed exactly when it is replaced by
   * something else.
   */
  function UnknownChanged(prev: Raw, merged: Raw): (changed: bool)
    ensures merged == prev ==> !changed
    ensures prev.RStr? || prev.RNull? ==> (changed <==> merged != prev)
  {
    PyEqReflexive(prev);
    !PyEq(prev, merged)
  }

  /**
   * As written, a change inside a nested dict of an unknown key is never
   * flagged: `{"a": {"x": 1}}` merged with `{"a": {"x": 2}}`.
   */
  lemma NestedUnknownChangeUnflagged()
    ensures var prev := RObj(map["a" := RObj(map["x" := RInt(1)])]);
      var v := RObj(map["a" := RObj(map["x" := RInt(2)])]);
      var merged := MergedUnknown(prev, v).value;
      merged == v && !UnknownChangedAsWritten(prev, v, merged) && UnknownChanged(prev, merged)
  {
    var x1 := map["x" := RInt(1)];
    var x2 := map["x" := RInt(2)];
    var prev := RObj(map["a" := RObj(x1)]);
    var v := RObj(map["a" := RObj(x2)]);
    MergedAllKeys(x2, x1, false, x2);
    MergedAllKeys(v.entries, prev.entries, false, v.entries);
    assert MergedUnknown(prev, v) == Ok(v);
    var aliased := AliasedOld(prev, v, v);
    assert aliased.entries.Keys == {"a"} && aliased.entries["a"] == RObj(x2);
    assert aliased.entries == v.entries;
    PyEqReflexive(v);
    assert !PyEq(RInt(1), RInt(2));
    assert !PyEq(RObj(x1), RObj(x2)) by {
      assert "x" in x1;
    }
    assert !PyEq(prev, v) by {
      assert "a" in prev.entries;
    }
  }

  /** With a non-dict old value both flags agree: the copy shares nothing. */
  lemma FlagsAgreeWithoutOldDict(prev: Raw, v: Raw)
    requires !prev.RObj?
    ensures UnknownChangedAsWritten(prev, v, MergedUnknown(prev, v).value) == UnknownChanged(prev, MergedUnknown(prev, v).value)
  {
  }
  // ---------------------------------------------------------------------
  // validate_schema

  /**
   * `validate_schema(similarity)` over the declared fields and the names of
   * the fields that were set: strict, every declared field must be set;
   * otherwise at least `similarity` percent of them must be, and a class
   * without fields divides by zero. The percentage is compared exactly.
   */
  function SchemaCheck(table: Table, filled: set<string>, strict: bool, similarity: int): (o: Outcome)
    ensures strict ==> (o == Pass <==> table.Keys <= filled)
    ensures o.Fail? ==> o.error == ValidationError || (o.error == ZeroDivisionError && !strict && table == map[])
  {
    var total := |table.Keys|;
    var count := |table.Keys * filled|;
    if strict then
      if table.Keys <= filled then Pass else Fail(ValidationError)
    else if total == 0 then Fail(ZeroDivisionError)
    else if count * 100 < similarity * total then Fail(ValidationError)
    else Pass
  }

  /** Every declared field set passes any similarity up to 100, strict or not. */
  lemma FullSchemaPasses(table: Table, filled: set<string>, strict: bool, similarity: int)
    requires table != map[] && table.Keys <= filled && similarity <= 100
    ensures SchemaCheck(table, filled, strict, similarity) == Pass
  {
    assert table.Keys * filled == table.Keys;
  }

  /** Setting more fields never makes the check fail. */
  lemma SchemaCheckMonotone(table: Table, filled: set<string>, more: set<string>, strict: bool, similarity: int)
    requires filled <= more && SchemaCheck(table, filled, strict, similarity) == Pass
    ensures SchemaCheck(table, more, strict, similarity) == Pass
  {
    if !strict {
      SubsetCard(table.Keys * filled, table.Keys * more);
    }
  }

  /** No field set fails every positive similarity. */
  lemma EmptyFailsSchema(table: Table, similarity: int)
    requires table != map[] && similarity > 0
    ensures SchemaCheck(table, {}, false, similarity) == Fail(ValidationError)
  {
    assert table.Keys * {} == {};
    var k :| k in table;
    assert k in table.Keys;
  }

  lemma SubsetCard<T>(a: set<T>, b: set<T>)
    requires a <= b
    ensures |a| <= |b|
  {
    assert b == a + (b - a);
  }
}
