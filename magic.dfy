/**
 * The class-level checks of `MagicMapper` (property_mapper/magic.py), a
 * mapper whose fields follow the data: new keys become fields of the magic
 * type, and fields the data no longer has are set to None. The instance
 * side, `apply_data`, is `Engine.Heap.ApplyData`.
 */
module Magic {
  import opened RawData
  import opened Schema
  import opened MapperRules

  /** The keys of the dict that the table does not declare. */
  function NewKeys(table: Table, e: map<string, Raw>): (ks: set<string>)
    ensures forall k :: k in ks <==> k in e && k !in table
  {
    set k | k in e && k !in table
  }

  /**
   * `check_has_new_keys(data)`: whether the data has a key the table does
   * not declare; a value without `.keys()` raises AttributeError.
   */
  function CheckHasNewKeys(table: Table, data: Raw): (r: Result<bool>)
    ensures r.Err? <==> !data.RObj?
    ensures r.Err? ==> r.error == AttributeError
    ensures r == Ok(true) <==> data.RObj? && exists k :: k in data.entries && k !in table
  {
    if !data.RObj? then Err(AttributeError)
    else Ok(NewKeys(table, data.entries) != {})
  }

  /**
   * A dict has no new keys exactly when it passes `validate_keys`, which
   * `MagicMapper` inherits unchanged: data that would be rejected is the
   * data that makes a new class.
   */
  lemma NoNewKeysIffValid(table: Table, data: Raw)
    requires data.RObj?
    ensures CheckHasNewKeys(table, data) == Ok(false) <==> ValidateKeys(table, data) == Pass
  {
  }

  /**
   * The dict `apply_data` merges after taking the new keys out and setting
   * every declared key the data lacks to None: exactly the declared keys.
   */
  function Rewritten(table: Table, e: map<string, Raw>): (d: map<string, Raw>)
    ensures d.Keys == table.Keys
    ensures forall k :: k in d && k in e ==> d[k] == e[k]
    ensures forall k :: k in d && k !in e ==> d[k] == RNull
  {
    map k | k in table :: if k in e then e[k] else RNull
  }

  /** The new fields `apply_data` passes to `add_properties`: each new key, with the magic type and its value. */
  function NewProps(table: Table, e: map<string, Raw>, magic: Kind): (props: map<string, (Kind, Raw)>)
    ensures props.Keys == NewKeys(table, e)
    ensures forall k :: k in props ==> props[k] == (magic, e[k])
  {
    map k | k in NewKeys(table, e) :: (magic, e[k])
  }

  /** Nothing is lost: every key of the data is either a new field or kept in the rewritten dict, with its value. */
  lemma {:induction false} ApplySplitsData(table: Table, e: map<string, Raw>, magic: Kind)
    ensures forall k :: k in e ==>
      (k in NewProps(table, e, magic) && NewProps(table, e, magic)[k].1 == e[k]) !=
      (k in Rewritten(table, e) && Rewritten(table, e)[k] == e[k])
  {
    forall k | k in e
      ensures (k in NewProps(table, e, magic) && NewProps(table, e, magic)[k].1 == e[k]) !=
        (k in Rewritten(table, e) && Rewritten(table, e)[k] == e[k])
    {
      if k in table {
        assert k !in NewKeys(table, e);
      } else {
        assert k in NewKeys(table, e);
      }
    }
  }

  /** New properties exist exactly when `check_has_new_keys` says so, and with them the table covers every key of the data. */
  lemma NewPropsCover(table: Table, e: map<string, Raw>, magic: Kind)
    ensures NewProps(table, e, magic) == map[] <==> CheckHasNewKeys(table, RObj(e)) == Ok(false)
    ensures table.Keys + NewProps(table, e, magic).Keys == table.Keys + e.Keys
  {
    var props := NewProps(table, e, magic);
    if props == map[] {
      assert NewKeys(table, e) == {};
    } else {
      var k :| k in props;
      assert k in NewKeys(table, e);
    }
  }
}
