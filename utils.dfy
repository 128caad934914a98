/**
 * `merge_dicts` of property_mapper/utils.py: a recursive merge of `src`
 * into `dst`, modelled on values. The function `MergeDicts` states the result;
 * the method `MergeInto` is the key-by-key loop of the source.
 */
module Utils {
  import opened RawData

  /** `hash(x)` succeeds: dicts and lists cannot go into a set. */
  predicate Hashable(x: Raw)
  {
    !x.RObj? && !x.RArr?
  }

  /** Some element of `ys` compares equal to `x`. */
  predicate HasEqual(ys: seq<Raw>, x: Raw)
  {
    exists y :: y in ys && PyEq(y, x)
  }

  /** No two elements of `ys` compare equal. */
  predicate Distinct(ys: seq<Raw>)
  {
    forall i, j :: 0 <= i < j < |ys| ==> !PyEq(ys[i], ys[j])
  }

  /**
   * `list(set(xs))`, taking the elements in order of first occurrence. A set
   * keeps the first of the elements that compare equal, so `True` and `1`
   * (or `False` and `0`) count as one element.
   */
  function Dedup(xs: seq<Raw>): (ys: seq<Raw>)
    ensures forall y :: y in ys ==> y in xs
    ensures forall x :: x in xs ==> HasEqual(ys, x)
    ensures Distinct(ys)
    ensures |ys| <= |xs|
  {
    if xs == [] then []
    else
      var front := Dedup(xs[..|xs| - 1]);
      var last := xs[|xs| - 1];
      DedupStep(xs, front);
      if HasEqual(front, last) then front else front + [last]
  }

  /** Adding the last element of `xs` to the deduplicated front, unless an equal one is there. */
  lemma DedupStep(xs: seq<Raw>, front: seq<Raw>)
    requires xs != []
    requires forall y :: y in front ==> y in xs[..|xs| - 1]
    requires forall x :: x in xs[..|xs| - 1] ==> HasEqual(front, x)
    requires Distinct(front) && |front| <= |xs| - 1
    ensures var last := xs[|xs| - 1];
      var ys := if HasEqual(front, last) then front else front + [last];
      (forall y :: y in ys ==> y in xs) && (forall x :: x in xs ==> HasEqual(ys, x)) && Distinct(ys) && |ys| <= |xs|
  {
    var last := xs[|xs| - 1];
    assert xs == xs[..|xs| - 1] + [last];
    if !HasEqual(front, last) {
      var ys := front + [last];
      PyEqReflexive(last);
      assert HasEqual(ys, last) by { assert last in ys; }
      forall x | x in xs ensures HasEqual(ys, x) {
        if x != last {
          assert x in xs[..|xs| - 1];
          assert HasEqual(front, x);
          var y :| y in front && PyEq(y, x);
          assert y in ys;
        }
      }
      forall i, j | 0 <= i < j < |ys| ensures !PyEq(ys[i], ys[j]) {
        if j == |front| {
          assert ys[i] in front;
        }
      }
    }
  }

  /** The merged value of one key of `src` over what `dst` holds for it. */
  function MergeValue(s: Raw, d: Option<Raw>, extendLists: bool): Result<Raw>
    decreases s, 2
  {
    if d.None? then Ok(s)
    else if s.RObj? && d.value.RObj? then
      match MergeDicts(s.entries, d.value.entries, extendLists)
      case Err(e) => Err(e)
      case Ok(m) => Ok(RObj(m))
    else if extendLists && s.RArr? && d.value.RArr? then
      if forall x :: x in d.value.items + s.items ==> Hashable(x) then Ok(RArr(Dedup(d.value.items + s.items)))
      else Err(TypeError)
    else Ok(s)
  }

  function Lookup(m: map<string, Raw>, k: string): Option<Raw>
  {
    if k in m then Some(m[k]) else None
  }

  /** The dict `merge_dicts(src, dst, extend_lists=extendLists)` leaves in `dst`. */
  function MergeDicts(src: map<string, Raw>, dst: map<string, Raw>, extendLists: bool): (r: Result<map<string, Raw>>)
    ensures r.Ok? ==> r.value.Keys == src.Keys + dst.Keys
    ensures r.Ok? ==> forall k :: k in dst && k !in src ==> r.value[k] == dst[k]
    decreases RObj(src), 1
  {
    if exists k :: k in src && MergeValue(src[k], Lookup(dst, k), extendLists).Err? then Err(TypeError)
    else Ok(MergedMap(src, dst, extendLists))
  }

  /** Every key of either dict: `src`'s merged into `dst`'s where both have it, else the one there is. */
  function MergedMap(src: map<string, Raw>, dst: map<string, Raw>, extendLists: bool): map<string, Raw>
    requires forall k :: k in src ==> MergeValue(src[k], Lookup(dst, k), extendLists).Ok?
    decreases RObj(src), 0
  {
    map k | k in src.Keys + dst.Keys ::
      if k in src then MergeValue(src[k], Lookup(dst, k), extendLists).value else dst[k]
  }

  /** The loop of `merge_dicts`, one key of `src` at a time. */
  method MergeInto(src: map<string, Raw>, dst: map<string, Raw>, extendLists: bool) returns (r: Result<map<string, Raw>>)
    ensures r == MergeDicts(src, dst, extendLists)
    decreases RObj(src), 0
  {
    var d := dst;
    var todo := src.Keys;
    while todo != {}
      invariant todo <= src.Keys
      invariant forall k :: k in src && k !in todo ==> MergeValue(src[k], Lookup(dst, k), extendLists).Ok?
      invariant forall k :: k in d <==> k in dst || (k in src && k !in todo)
      invariant forall k :: k in src && k !in todo ==> d[k] == MergeValue(src[k], Lookup(dst, k), extendLists).value
      invariant forall k :: k in dst && (k !in src || k in todo) ==> d[k] == dst[k]
      decreases |todo|
    {
      var key :| key in todo;
      var prev := if key in d then Some(d[key]) else None;
      assert prev == Lookup(dst, key);
      var merged := MergeKey(src[key], prev, extendLists);
      if merged.Err? {
        assert MergeValue(src[key], Lookup(dst, key), extendLists).Err?;
        return Err(TypeError);
      }
      d := d[key := merged.value];
      todo := todo - {key};
    }
    MergedAllKeys(src, dst, extendLists, d);
    r := Ok(d);
  }

  lemma MergedAllKeys(src: map<string, Raw>, dst: map<string, Raw>, extendLists: bool, d: map<string, Raw>)
    requires forall k :: k in src ==> MergeValue(src[k], Lookup(dst, k), extendLists).Ok?
    requires forall k :: k in d <==> k in dst || k in src
    requires forall k :: k in src ==> d[k] == MergeValue(src[k], Lookup(dst, k), extendLists).value
    requires forall k :: k in dst && k !in src ==> d[k] == dst[k]
    ensures MergeDicts(src, dst, extendLists) == Ok(d)
  {
    assert !exists k :: k in src && MergeValue(src[k], Lookup(dst, k), extendLists).Err?;
    MergedMapIs(src, dst, extendLists, d);
  }

  lemma MergedMapIs(src: map<string, Raw>, dst: map<string, Raw>, extendLists: bool, d: map<string, Raw>)
    requires forall k :: k in src ==> MergeValue(src[k], Lookup(dst, k), extendLists).Ok?
    requires forall k :: k in d <==> k in dst || k in src
    requires forall k :: k in src ==> d[k] == MergeValue(src[k], Lookup(dst, k), extendLists).value
    requires forall k :: k in dst && k !in src ==> d[k] == dst[k]
    ensures d == MergedMap(src, dst, extendLists)
  {
    var m := MergedMap(src, dst, extendLists);
    assert m.Keys == d.Keys;
    forall k | k in m
      ensures m[k] == d[k]
    {
    }
  }

  /** The body of the loop for one key: recurse into two dicts, extend two lists, or take `src`'s value. */
  method MergeKey(v: Raw, prev: Option<Raw>, extendLists: bool) returns (r: Result<Raw>)
    ensures r == MergeValue(v, prev, extendLists)
    decreases v, 1
  {
    if prev.None? {
      return Ok(v);
    }
    var p := prev.value;
    if v.RObj? && p.RObj? {
      var merged := MergeInto(v.entries, p.entries, extendLists);
      if merged.Err? {
        return Err(merged.error);
      }
      r := Ok(RObj(merged.value));
    } else if extendLists && v.RArr? && p.RArr? {
      var both := p.items + v.items;
      if exists x :: x in both && !Hashable(x) {
        return Err(TypeError);
      }
      r := Ok(RArr(Dedup(both)));
    } else {
      r := Ok(v);
    }
  }

  // ---------------------------------------------------------------------
  // Properties

  /** Only `extend_lists` can make the merge fail: an element that is not hashable. */
  lemma {:induction false} MergeNeverFailsWithoutExtend(src: map<string, Raw>, dst: map<string, Raw>)
    ensures MergeDicts(src, dst, false).Ok?
    decreases RObj(src)
  {
    forall k | k in src
      ensures MergeValue(src[k], Lookup(dst, k), false).Ok?
    {
      var d := Lookup(dst, k);
      if d.Some? && src[k].RObj? && d.value.RObj? {
        MergeNeverFailsWithoutExtend(src[k].entries, d.value.entries);
      }
    }
  }

  /** Every path of `src` ends in the merged dict with the value `src` gives it. */
  ghost predicate Overlays(r: map<string, Raw>, src: map<string, Raw>)
    decreases RObj(src)
  {
    forall k :: k in src ==>
      k in r && (if src[k].RObj? && r[k].RObj? then Overlays(r[k].entries, src[k].entries) else r[k] == src[k])
  }

  lemma {:induction false} OverlaysItself(m: map<string, Raw>)
    ensures Overlays(m, m)
    decreases RObj(m)
  {
    forall k | k in m && m[k].RObj?
      ensures Overlays(m[k].entries, m[k].entries)
    {
      OverlaysItself(m[k].entries);
    }
  }

  /** Without `extend_lists`, the values of `src` win at every path. */
  lemma {:induction false} SourceWins(src: map<string, Raw>, dst: map<string, Raw>)
    requires MergeDicts(src, dst, false).Ok?
    ensures Overlays(MergeDicts(src, dst, false).value, src)
    decreases RObj(src)
  {
    var r := MergeDicts(src, dst, false).value;
    forall k | k in src
      ensures k in r && (if src[k].RObj? && r[k].RObj? then Overlays(r[k].entries, src[k].entries) else r[k] == src[k])
    {
      var d := Lookup(dst, k);
      if d.Some? && src[k].RObj? && d.value.RObj? {
        SourceWins(src[k].entries, d.value.entries);
      } else if src[k].RObj? {
        OverlaysItself(src[k].entries);
      }
    }
  }

  /** Merging a dict into itself changes nothing. */
  lemma {:induction false} MergeIntoItself(m: map<string, Raw>)
    ensures MergeDicts(m, m, false) == Ok(m)
    decreases RObj(m)
  {
    forall k | k in m
      ensures MergeValue(m[k], Lookup(m, k), false) == Ok(m[k])
    {
      if m[k].RObj? {
        MergeIntoItself(m[k].entries);
      }
    }
    assert MergeDicts(m, m, false).value == m;
  }

  /** `list(set([1, True]))` is `[1]`: the set keeps the first of two equal elements. */
  lemma SetMergesTrueWithOne()
    ensures Dedup([RInt(1), RBool(true)]) == [RInt(1)]
  {
    assert [RInt(1), RBool(true)][..1] == [RInt(1)];
    assert [RInt(1)][..0] == [];
    assert HasEqual([RInt(1)], RBool(true)) by {
      assert RInt(1) in [RInt(1)] && PyEq(RInt(1), RBool(true));
    }
  }

  /** With `extend_lists`, two lists become the elements of both, one of each group that compares equal. */
  lemma ExtendListsUnion(a: seq<Raw>, b: seq<Raw>)
    requires forall x :: x in a + b ==> Hashable(x)
    ensures MergeValue(RArr(b), Some(RArr(a)), true).Ok?
    ensures var ys := MergeValue(RArr(b), Some(RArr(a)), true).value.items;
      (forall y :: y in ys ==> y in a || y in b) &&
      (forall x :: x in a || x in b ==> HasEqual(ys, x)) && Distinct(ys)
  {
  }
}
