# property_mapper, modelled in Dafny

property_mapper maps JSON-like data (dicts, lists, scalars) onto classes
declared with type hints. A mapper class lists its fields as hints. Each
hint names a value adapter (`Int`, `Str`, ...), another mapper class, a
list of them, or a union. The metaclass turns the hints into a property
table and installs the accessors.

An instance built from a dict parses every declared key through its hint
and keeps undeclared keys aside as "unknown params", or rejects them. It
can be merged with new data, turned back into a dict, extended with new
properties (which builds a new subclass), checked against its schema, and
navigated through its parent links. `MagicMapper` adds unseen keys as new
properties on the fly. `PropertyMapper.__eq__` compares instances of one
class.

The model has these modules:

- `RawData`: raw JSON values, Python errors, integer ⇄ text conversion and Python `==` on raw values.
- `Schema`: adapters, element kinds, field shapes and mapper classes as values.
- `Hints`: the validators of `hints.py`.
- `MetaChecks`: the metaclass's own `_check_*` validators.
- `Compiler`: the property table built by `PropertyMapperMeta.__new__`, plus the class-level `add_property` / `remove_property` on a `MapperType` object.
- `Utils`: `merge_dicts`.
- `MapperRules`: `validate_keys`, `identify`, `is_compat`, `_merge_unknown` and `validate_schema` as pure functions.
- `Objects`: a pure specification of construction (`BuildObject`) and of `as_dict` (`Emit`).
- `Heaps`: the object graph as an arena of nodes, with parent links and the abstraction to value trees.
- `Equality`: Python `==` on stored values, `list.remove` and `is_equal_or_compat`.
- `Engine`: the class `Heap`, whose methods carry out construction, merging, `as_dict`, `add_properties`, `remove_property`, schema validation, navigation, the change flag and `MagicMapper.apply_data` in place. Each method is proved against the pure specification.
- `Magic`: the key bookkeeping of `magic.py`.
- `Identity`: `PropertyMapper.__eq__`.

## Model

| member | source | states |
|---|---|---|
| RawData.Split | property_mapper/mapper_base.py:267 | splitting the lookup path at '.' gives at least one segment, no segment holds the separator, and joining the segments restores the text |
| RawData.SplitJoin | property_mapper/mapper_base.py:267 | splitting a join of separator-free segments gives the segments back |
| RawData.RSplitLast | property_mapper/mapper_base.py:266 | `rsplit(':', 1)` finds no split iff there is no ':', and otherwise cuts at the last ':' |
| RawData.SplitAtLastUnique | property_mapper/mapper_base.py:266 | the cut at the last separator is unique |
| RawData.TextToIntRoundTrip | property_mapper/types/integer.py:11-16 | `int(str(i)) == i` for every integer, so `Int` reads back what `Str` wrote |
| RawData.PyEqReflexive | property_mapper/mapper.py:26-30 | Python `==` on raw values is reflexive |
| RawData.PyEqSymmetric | property_mapper/mapper.py:26-30 | Python `==` on raw values is symmetric |
| RawData.BoolIntEquality | property_mapper/mapper_base.py:334-345 | `True == 1` and `0 == False`, but `'1' != 1` and `True != 2` |
| Schema.AdaptersReadBackTheirText | property_mapper/types/string.py:9-16 | `Int` parses the text `Str` makes of an integer back to that integer; `Str` keeps text as it is and reverses it unchanged |
| Hints.CheckMembersAccepts | property_mapper/hints.py:29-44 | a union check passes iff every member from the given one on is an accepted leaf |
| Hints.CheckHintTypeAccepts | property_mapper/hints.py:74-151 | `check_hint_type` passes iff the hint is accepted: an own class, a forward reference, a one-argument list of accepted leaves, or a union of them |
| Hints.FirstBadMemberDecides | property_mapper/hints.py:29-44 | in a union the first rejected member decides the error: RecursionError for a nested list or union, TypeError otherwise |
| Hints.ForwardReferencePasses | property_mapper/hints.py:74-151 | a forward reference passes on its own, inside a union and inside a list |
| Hints.CheckHintType | property_mapper/hints.py:74-151 | definition: the verdict of `check_hint_type` on one hint |
| Hints.CheckListHint | property_mapper/hints.py:46-72 | definition: the verdict of `check_list_hint` |
| Hints.CheckUnionHint | property_mapper/hints.py:29-44 | definition: the verdict of `check_union_hint` |
| MetaChecks.CheckUnionMembers | property_mapper/mapper_meta.py:32-43 | the loop's outcome is the union verdict; on failure it lists only classes that are not own classes |
| MetaChecks.MetaErrors | property_mapper/mapper_meta.py:64-108 | `_check_hint_type` only passes or raises TypeError or IndexError, and IndexError exactly for an empty list hint |
| MetaChecks.SameOnLeaves | property_mapper/mapper_meta.py:64-108 | on a hint that is neither a list nor a union, both validators agree |
| MetaChecks.MetaUnionExact | property_mapper/mapper_meta.py:32-43 | a union passes iff every member is an own class; otherwise TypeError |
| MetaChecks.MetaPassImpliesHintsPass | property_mapper/mapper_meta.py:45-62 | outside lists with several arguments, passing the metaclass check implies passing `check_hint_type` |
| MetaChecks.ListOfUnionDiverges | property_mapper/mapper_meta.py:45-62 | a list of a union of own classes passes `hints.py` but fails the metaclass check |
| MetaChecks.ListExtraArgumentsDiverge | property_mapper/mapper_meta.py:45-62 | a list hint with extra arguments fails `hints.py` but passes the metaclass check, which reads only the first |
| MetaChecks.ForwardReferenceInUnionDiverges | property_mapper/mapper_meta.py:32-43 | a forward reference inside a union passes `hints.py` and fails the metaclass check |
| MetaChecks.NestedListDiverges | property_mapper/mapper_meta.py:45-62 | a nested list raises RecursionError in `hints.py` and TypeError in the metaclass |
| MetaChecks.MetaCheckHintType | property_mapper/mapper_meta.py:64-141 | definition: the verdict of the metaclass's `_check_hint_type` |
| MetaChecks.MetaCheckListHint | property_mapper/mapper_meta.py:45-62 | definition: the verdict of `_check_list_hint`, which reads only the first argument |
| MetaChecks.MetaUnionOutcome | property_mapper/mapper_meta.py:32-43 | definition: the verdict of `_check_union_hint` |
| Compiler.StripUnderscores | property_mapper/mapper_meta.py:183 | the stripped name is a prefix of the name, does not end in '_', and only underscores were removed |
| Compiler.CompileLiteral | property_mapper/mapper_meta.py:190-200 | the loop over a tuple-literal hint yields the kinds of its classes, or fails as the table compiler does |
| Compiler.CompileInterface | property_mapper/mapper_meta.py:179-215 | the loop over a base's annotations, once their forward references are resolved, builds the table the pure definition describes |
| Compiler.ResolveHint | property_mapper/mapper_meta.py:180 | `get_type_hints` on one annotation raises NameError iff some string forward reference in it, also inside `list[...]` or `Union[...]`, names nothing bound yet; a hint without forward references is left as it is |
| Compiler.ResolveHints | property_mapper/mapper_meta.py:180 | all annotations of a base are resolved, in order and under their names, or NameError is raised iff one of them fails |
| Compiler.UnboundForwardRef | property_mapper/mapper_meta.py:179-181 | one unbound forward reference fails the whole interface base with NameError |
| Compiler.SelfReferenceFails | tests/test_forward_refs.py:7-16 | an interface naming `Test` as a string cannot be compiled while `Test` itself is being created |
| Compiler.BoundForwardRef | property_mapper/mapper_meta.py:180-189 | a forward reference bound to an own class compiles to that class, as if written directly |
| Compiler.StepBaseKeys | property_mapper/mapper_meta.py:172-215 | one base adds exactly its own names to the table |
| Compiler.CompileHint | property_mapper/mapper_meta.py:185-200 | definition: a hint passing the metaclass check is stored as its class, a tuple literal as its list of classes; anything else fails |
| Compiler.CompileTable | property_mapper/mapper_meta.py:170-217 | definition: `_attrs_dict` is the fold of the bases, and no table is made without bases |
| Compiler.CompileSpec | property_mapper/mapper_meta.py:168-236 | definition: the table of a class and the accessors installed for it |
| Compiler.FoldTable | property_mapper/mapper_meta.py:170-217 | the loop over the bases merges their tables as the pure fold does |
| Compiler.AnyBaseHas | property_mapper/mapper_meta.py:228-232 | the search answers whether some base has the getter method |
| Compiler.InstallAccessors | property_mapper/mapper_meta.py:219-232 | the accessors installed are those the pure definition chooses |
| Compiler.Compile | property_mapper/mapper_meta.py:168-236 | `__new__` builds the table and accessors of the pure compiler, or its error |
| Compiler.AddHintsKeys | property_mapper/mapper_meta.py:182-215 | the table holds the old keys plus every annotated name, with underscores stripped |
| Compiler.FoldBasesKeys | property_mapper/mapper_meta.py:172-217 | the class table holds the keys of every base |
| Compiler.LaterMapperBaseWins | property_mapper/mapper_meta.py:175-177 | a later mapper base overrides the entries of earlier ones |
| Compiler.NoBasesNoTable | property_mapper/mapper_meta.py:170-217 | a class without bases gets no table and no accessors |
| Compiler.CompileHintShapes | property_mapper/mapper_meta.py:185-215 | own classes compile to leaves, tuple literals to class lists; an empty list hint raises IndexError; other lists, unions and other hints raise TypeError; a string forward reference never reaches this check, since `ResolveHint` has already replaced it by its class or raised NameError |
| Compiler.CompileItemsAllOwn | property_mapper/mapper_meta.py:190-200 | a tuple literal compiles iff all its items are own classes, keeping its length |
| Compiler.CompiledHintsAreAccepted | property_mapper/hints.py:74-151 | every hint the metaclass compiles also passes `check_hint_type` |
| Compiler.AccessorChoice | property_mapper/mapper_meta.py:219-232 | a field gets a computed accessor when the class body defines its getter, none when only a base does, a plain one otherwise |
| Compiler.MapperType.constructor | property_mapper/mapper_meta.py:234-236 | a new class holds the compiled table and accessors and knows the attributes of its bases |
| Compiler.MapperType.AddProperty | property_mapper/mapper_meta.py:238-251 | the class table gains the field; a new field gets a plain accessor |
| Compiler.MapperType.RemoveProperty | property_mapper/mapper_meta.py:253-261 | the field leaves the table; its own accessor goes; an inherited-only one makes `delattr` raise AttributeError |
| Utils.Dedup | property_mapper/utils.py:64 | `list(set(...))` keeps only elements it was given, one of each group that compares equal under Python `==` (so `True` and `1` are one) |
| Utils.MergeDicts | property_mapper/utils.py:52-70 | the result has the keys of both dicts, and keys only the destination has keep their values |
| Utils.MergeInto | property_mapper/utils.py:52-70 | the loop computes the pure merge |
| Utils.MergeKey | property_mapper/utils.py:57-68 | one key's step computes the pure per-value merge |
| Utils.MergedAllKeys | property_mapper/utils.py:52-70 | a dict that agrees with the merge key by key is the merge |
| Utils.MergeNeverFailsWithoutExtend | property_mapper/utils.py:52-70 | without `extend_lists` the merge never raises |
| Utils.SourceWins | property_mapper/utils.py:57-66 | every source value wins, nested dicts recursively |
| Utils.MergeIntoItself | property_mapper/utils.py:52-70 | merging a dict into itself leaves it as it was |
| Utils.ExtendListsUnion | property_mapper/utils.py:60-64 | with `extend_lists` two lists of hashable items become one element of each group of equal elements of both, and nothing else |
| Utils.SetMergesTrueWithOne | property_mapper/utils.py:64 | `list(set([1, True]))` is `[1]` |
| MapperRules.ValidateKeys | property_mapper/mapper_base.py:77-93 | passes iff every data key is declared; ValidationError iff some key is not; AttributeError for a value that is not a dict |
| MapperRules.IdentifySpec | property_mapper/mapper_base.py:255-286 | definition: the verdict of `identify` for a path and data |
| MapperRules.Identify | property_mapper/mapper_base.py:255-286 | the segment loop of `identify` gives the pure identification result |
| MapperRules.IdentifyFindsNestedValue | property_mapper/mapper_base.py:255-286 | data holding the test text at the dotted path is identified |
| MapperRules.WalkNest | property_mapper/mapper_base.py:269-280 | following the segments through nested dicts reaches the leaf |
| MapperRules.IdentifiedDataIsDict | property_mapper/mapper_base.py:255-286 | only a dict, with a path that has a ':', can be identified |
| MapperRules.IsCompat | property_mapper/mapper_base.py:288-302 | with an identify path the path decides; otherwise compatible iff the keys validate, and a non-dict raises |
| MapperRules.MergedUnknown | property_mapper/mapper_base.py:326-345 | an old value that is not a dict is replaced; an old dict absorbs a new dict, which wins key by key and keeps every key of both |
| MapperRules.ListSourceError | property_mapper/utils.py:56-68 | with a list as source, `merge_dicts` raises iff some item is no valid index of the list: IndexError for the first such int or bool, TypeError for anything else |
| MapperRules.AliasedOld | property_mapper/mapper_base.py:339 | definition: what the old value reads as after the shallow copy was merged into |
| MapperRules.UnknownChangedAsWritten | property_mapper/mapper_base.py:343-345 | definition: the flag as written, comparing with the aliased old value |
| MapperRules.UnknownChanged | property_mapper/mapper_base.py:340-345 | the intended flag: storing the same value is no change; a str or None changes iff it is replaced |
| MapperRules.NestedUnknownChangeUnflagged | property_mapper/mapper_base.py:334-345 | as written, a change inside a nested dict of an unknown key is not flagged, though the value changed |
| MapperRules.FlagsAgreeWithoutOldDict | property_mapper/mapper_base.py:334-345 | without an old dict the written flag and the intended flag agree |
| MapperRules.SchemaCheck | property_mapper/mapper_base.py:95-129 | strict: passes iff every declared field is set; failures are ValidationError, or ZeroDivisionError for a non-strict class without fields |
| MapperRules.FullSchemaPasses | property_mapper/mapper_base.py:95-129 | every field set passes any similarity up to 100 |
| MapperRules.SchemaCheckMonotone | property_mapper/mapper_base.py:95-129 | setting more fields never makes the check fail |
| MapperRules.EmptyFailsSchema | property_mapper/mapper_base.py:95-129 | no field set fails every positive similarity |
| Objects.UnknownKeyRejected | property_mapper/mapper_base.py:56-57 | an undeclared key is rejected with ValidationError unless unknown keys are allowed |
| Objects.NonDictRejected | property_mapper/mapper_base.py:726-771 | data that is neither a dict nor None raises AttributeError |
| Objects.NoneData | property_mapper/mapper_base.py:64-75 | None is read as an empty dict when unknown keys are allowed, and raises AttributeError in the key check otherwise |
| Objects.BuiltInstance | property_mapper/mapper_base.py:33-62 | a built instance holds exactly the declared data keys, None as None, the undeclared ones as unknown params (none unless allowed), and every field when strict |
| Objects.BuildFromEntries | property_mapper/mapper_base.py:726-771 | when the keys validate and every declared key parses, the instance is the parsed fields plus the unknown keys |
| Objects.BuiltStrictPasses | property_mapper/mapper_base.py:61-62 | a strict class's built instance passes `validate_schema` |
| Objects.StrictRefusesMissingField | property_mapper/mapper_base.py:61-62 | a strict class refuses data missing a declared field |
| Objects.SelectTypeFirstMatch | property_mapper/mapper_base.py:682-693 | `_select_type` returns the first alternative that takes the value, and UnsupportedType when none does |
| Objects.ParseItemsPointwise | property_mapper/mapper_base.py:695-724 | the parsed list has the input's length, item i being `_select_type` of input item i |
| Objects.ParseListPointwise | property_mapper/mapper_base.py:695-724 | `_parse_list` raises WrongType for a non-list, and otherwise parses item by item |
| Objects.SelectSkips | property_mapper/mapper_base.py:682-693 | alternatives that pass the value on are skipped |
| Objects.RoundTripObject | property_mapper/mapper_base.py:867-903 | canonical data builds an instance whose `as_dict` is the data |
| Objects.RoundTripField | property_mapper/mapper_base.py:878-900 | a canonical field value parses and emits back to itself |
| Objects.RoundTripChoice | property_mapper/mapper_base.py:682-693 | a canonical value selects an alternative that emits back to itself |
| Objects.RoundTripLeaf | property_mapper/mapper_base.py:642-680 | an alternative that takes a value it reads back unchanged creates a value whose emission is the input |
| Objects.BuildObject | property_mapper/mapper_base.py:33-62 | definition: the instance `cls(data)` builds, or its error |
| Objects.BuildField | property_mapper/mapper_base.py:726-771 | definition: one declared key of `_parse_json_data`, by its shape |
| Objects.TryCreate | property_mapper/mapper_base.py:642-680 | definition: `_try_create_object` for one kind |
| Objects.SelectType | property_mapper/mapper_base.py:682-693 | definition: `_select_type` over the alternatives |
| Objects.ParseList | property_mapper/mapper_base.py:695-724 | definition: `_parse_list` |
| Objects.Emit | property_mapper/mapper_base.py:867-903 | definition: `as_dict` of an instance's value tree |
| Objects.SelectTypeTestCases | tests/test_parse_types_tuple.py:12-13 | 5 against `(Int, Str)` stays 5; against `(Str, Int)` it becomes '5' |
| Objects.ParseListTestCases | tests/test_parse_types_list.py:13-15 | `[1, '2', 3]` against `Int` is `[1, 2, 3]`; against `Str \| Int` it is `['1', '2', '3']` |
| Objects.NonNumericTextUnsupported | property_mapper/mapper_base.py:682-693 | 'abc' against `Int` alone is unsupported |
| Equality.ValEq | property_mapper/mapper.py:9-21 | comparing a stored instance with anything raises AssertionError |
| Equality.ValEqReflexive | property_mapper/mapper.py:26-30 | every stored value other than an instance equals itself |
| Equality.SameOrEq | property_mapper/mapper_base.py:367 | two instances compare without raising iff they are the same object |
| Equality.ValRawEq | property_mapper/mapper_base.py:304-318 | a stored instance raises; None equals only None; scalars compare as their plain values |
| Equality.RemoveAt | property_mapper/mapper_base.py:367 | removing item i keeps the others in order, as a multiset minus that item |
| Equality.RemoveInstanceAsWritten | property_mapper/mapper_base.py:367 | as written, `list.remove` of an instance succeeds only when it is the first item and raises otherwise |
| Equality.SecondInstanceNotRemovable | property_mapper/mapper_base.py:367 | the second of two instances cannot be removed, the first can |
| Equality.KeyFieldDecides | property_mapper/mapper_base.py:304-318 | with a key field, instances holding the same key value answer alike |
| Equality.SameKeyIsEqual | property_mapper/mapper_base.py:304-318 | an instance holding the data's key value is the one the data is about |
| Equality.NoKeyFieldIsCompat | property_mapper/mapper_base.py:304-318 | without a key field it is `is_compat` of the class |
| Equality.EqualOrCompat | property_mapper/mapper_base.py:304-318 | definition: `is_equal_or_compat` of an instance and data |
| Equality.ListRemove | property_mapper/mapper_base.py:367 | definition: `list.remove` as written, comparing items through `==` |
| Engine.Heap.Construct | property_mapper/mapper_base.py:33-62 | construction succeeds iff the pure build does; the new instance's value tree is the built one; its parent and attribute name are the given ones; other objects are kept |
| Engine.Heap.Populate | property_mapper/mapper_base.py:726-771 | `_parse_json_data` fills the instance with the built fields and unknown params, or fails as the pure build does |
| Engine.Heap.Settle | property_mapper/mapper_base.py:61-62 | with `pm_strict_check`, a declared field left unset raises ValidationError and the instance is untouched; otherwise the parsed fields and unknown params are stored and the value tree is the built one |
| Engine.Heap.ParseEntries | property_mapper/mapper_base.py:726-771 | the loop over the data keys parses every declared key as the pure build does |
| Engine.Heap.ParseEntry | property_mapper/mapper_base.py:727-771 | one declared key parses iff its pure build succeeds; the fields parsed before keep their value trees and links |
| Engine.Heap.ParseField | property_mapper/mapper_base.py:726-765 | a field is parsed as the pure field build describes, its children linked to the owner |
| Engine.Heap.TryCreateObject | property_mapper/mapper_base.py:642-680 | `_try_create_object` answers as the pure try-create does |
| Engine.Heap.SelectFirst | property_mapper/mapper_base.py:682-693 | the loop of `_select_type` selects the pure alternative; none accepted raises UnsupportedType |
| Engine.Heap.ParseListItems | property_mapper/mapper_base.py:695-724 | the loop of `_parse_list` gives the pure list; a non-list raises WrongType |
| Engine.Heap.ParseListItem | property_mapper/mapper_base.py:710-722 | the next input item is selected as the pure selection describes and appended; the items parsed before keep their value trees and links |
| Engine.Heap.AsDict | property_mapper/mapper_base.py:867-903 | `as_dict` is the pure emission of the instance's value tree |
| Engine.Heap.EmitValue | property_mapper/mapper_base.py:878-900 | one stored value is emitted as the pure emission describes |
| Engine.Heap.MarkChanged | property_mapper/mapper_base.py:923-927 | sets the flag and changes nothing else |
| Engine.Heap.MarkOriginal | property_mapper/mapper_base.py:929-933 | clears the flag and changes nothing else |
| Engine.Heap.SetSlot | property_mapper/mapper_base.py:320-321 | writes one field and nothing else |
| Engine.Heap.MergeData | property_mapper/mapper_base.py:131-142 | non-dict data raises AttributeError, a failed validation raises its error, and every data key is merged into its slot as `SlotMerged` describes, the other slots kept; merging canonical bool and adapter data into an instance with no other field set gives an `as_dict` equal to the data |
| Engine.Heap.MergeEntries | property_mapper/mapper_base.py:503-510 | `_merge_json_data` merges every data key into its slot, as `SlotMerged` describes, and leaves every other slot as it was, also when a key fails |
| Engine.Heap.MergeEntry | property_mapper/mapper_base.py:504-508 | one key of the loop: the keys merged before stay merged, the key merged now joins them, slots of other keys are kept |
| Engine.Heap.MergeProperty | property_mapper/mapper_base.py:144-201 | only the named slot changes; an undeclared key goes to the unknown params as `MergedUnknown` says, flagged iff it changed; None clears a field; a bool field takes the truth value; a declared slot then holds what `SlotMerged` describes, and below a nested mapper what `ChildMerged` describes; a tuple-literal field raises ValueError |
| Engine.Heap.StoreMerged | property_mapper/mapper_base.py:160-201 | the merged value of a declared key replaces its slot alone and is what `SlotMerged` describes; for a nested mapper, the held instance took every key of the data or a fresh one holds the built tree (`ChildMerged`); a bool field is flagged iff the old value differs; a tuple-literal field raises ValueError |
| Engine.Heap.MergeBool | property_mapper/mapper_base.py:177-182 | a bool field takes the truth value of the data, flagged iff it differs from the old value, or the comparison's error |
| Engine.Heap.MergeValue | property_mapper/mapper_base.py:144-201 | the value stored for a declared field is one `ValMerged` describes for its shape (the truth value for a bool, the `_try_merge_type` value for an adapter, the held instance or a fresh one for a nested mapper, a list of the input's length for a list, for a union the value the first alternative that may take it takes); for a union, the stored value is the one `UnionMerged` describes, UnsupportedType when every alternative passes the value on; for a nested mapper, what happened below it is what `ChildMerged` describes; a bool field is flagged iff the old value differs; a tuple-literal field gets nothing |
| Engine.Heap.MergeUnknown | property_mapper/mapper_base.py:326-345 | stores the value `MergedUnknown` describes, or fails with its error and changes nothing; the flag rises iff the value changed (the corrected flag of `UnknownChanged`, see Findings) |
| Engine.Heap.TryMergeObject | property_mapper/mapper_base.py:544-612 | a bool alternative takes a bool, flagged iff it differs; a mapper alternative merges a dict into the held instance when that one says `is_equal_or_compat`, returns nothing when it says no, and builds a fresh instance from a compatible dict when none is held (`ChildMerged`); a non-dict passes on; an adapter alternative replaces a held adapter value or parses a new one, None when that fails; it returns None exactly when `PassesOn` holds, and then changes at most the owner's flag; otherwise its value is what `Takes` describes |
| Engine.Heap.TryMergeMapper | property_mapper/mapper_base.py:564-587 | the mapper alternative: a non-dict passes on unchanged; the held instance takes the data when it says `is_equal_or_compat` and passes on unchanged when it says no; without one, a compatible dict builds a fresh instance and an incompatible one passes on; None exactly when `PassesOn` holds, otherwise what `Takes` describes |
| Engine.Heap.BuildChild | property_mapper/mapper_base.py:580-587 | a compatible dict builds a fresh child, linked to the owner, whose value tree is the pure build; the owner is flagged; it fails iff the pure build does |
| Engine.Heap.MergeChild | property_mapper/mapper_base.py:571-600 | when the held instance says `is_equal_or_compat`, the data is merged into it, every data key holding what `SlotMerged` describes and no other slot touched, and the owner is flagged if the child is; otherwise it returns nothing and changes nothing |
| Engine.Heap.TryMergeType | property_mapper/mapper_base.py:614-640 | a failed `replace` of a held adapter value raises UnsupportedType; a value `from_data` parses wins; else the replaced value, flagged iff it differs; a held instance raises AssertionError; no value at all is flagged unless the old one was None |
| Engine.Heap.SelectAndMergeType | property_mapper/mapper_base.py:489-501 | the alternatives that pass the value on (`PassesOn`) are skipped, changing at most the owner's flag; the first that does not decides: its error is raised or what it takes (`Takes`) is returned; when every alternative passes it on, UnsupportedType is raised (`UnionMerged`); a leading bool alternative takes a bool iff comparing it with the old value raises nothing |
| Engine.Heap.OfferAlternative | property_mapper/mapper_base.py:490-498 | one alternative, tried after earlier ones that changed at most the owner's flag, passes the value on iff it would have on the heap the merge started from, and what it takes is what `Takes` describes on that heap |
| Engine.Heap.MergeList | property_mapper/mapper_base.py:403-487 | a non-list raises WrongType; the result has the input's length and reuses each old child at most once |
| Engine.Heap.MergeListStep | property_mapper/mapper_base.py:424-487 | one input item is appended and the old child it reused, if any, leaves the pool, so no old child is reused twice |
| Engine.Heap.MergeListItem | property_mapper/mapper_base.py:427-484 | the alternatives that pass the item on (`ItemPasses`) are skipped with nothing changed; the first that does not settles it as `ItemTaken` describes: the first held instance that says `is_equal_or_compat` (those before it said no), the first held value of the adapter when `replace` accepts the item, else the value parsed from the whole list; it never builds an instance; when every alternative passes the item on it raises WrongType |
| Engine.Heap.MergeListAlternative | property_mapper/mapper_base.py:429-482 | one alternative passes the item on, changing nothing, exactly when `ItemPasses` holds, and otherwise settles it as `ItemTaken` describes |
| Engine.ItemPasses | property_mapper/mapper_base.py:429-482 | definition: a bool alternative; a mapper alternative on an iterable list when no held instance says `is_equal_or_compat` and `identify` and `validate_keys` raise nothing |
| Engine.ItemTaken | property_mapper/mapper_base.py:429-482 | definition: the first held instance that says yes, consumed; or the first held adapter value replaced, consumed; or the value `from_data` makes of the whole list |
| Engine.Heap.FindAndMergeObjectInList | property_mapper/mapper_base.py:347-374 | finds an old child that the data is about and merges into it; when every old child says no, it returns None and nothing changes |
| Engine.Heap.FindAndMergeTypeInList | property_mapper/mapper_base.py:376-401 | finds an old adapter value that takes the data and replaces it |
| Engine.Heap.ValidateSchema | property_mapper/mapper_base.py:95-129 | the loop over the declared fields gives the schema verdict on the fields that are set |
| Engine.Heap.CountFilled | property_mapper/mapper_base.py:110-116 | the count is the number of declared fields that are set, and the unfilled list holds exactly the declared fields that are not |
| Engine.Heap.RemoveProperty | property_mapper/mapper_base.py:831-836 | an undeclared name raises KeyError; a declared one raises AttributeError, because the property lives on the class |
| Engine.Heap.AddProperties | property_mapper/mapper_base.py:773-829 | no properties: the instance itself; a clash with a declared field: KeyError; otherwise the counter rises and the new subclass, declaring the old and new fields, holds a new instance built from `as_dict` plus the new values, flagged and put in the parent's slot as `SpliceIntended` says (the corrected splice, see Findings) |
| Engine.Heap.ExtendWith | property_mapper/mapper_base.py:796-829 | builds the subclass and the new instance, bumping the class counter |
| Engine.Heap.PlaceExtended | property_mapper/mapper_base.py:815-829 | the new instance is built iff the pure build succeeds, holds the built tree under the subclass, is flagged and takes the old one's place in the parent's slot as `SpliceIntended` says (the corrected splice); nothing else changes |
| Engine.Heap.Substitute | property_mapper/mapper_base.py:814-829 | the parent's slot is rewritten as `SpliceIntended` says (the corrected splice) and the new instance is flagged with its tree kept; no other node changes |
| Engine.Heap.MarkBuilt | property_mapper/mapper_base.py:827 | flags the new instance and leaves its value tree as it was |
| Engine.Heap.SpliceSlot | property_mapper/mapper_base.py:822-824 | the parent's slot holds `SpliceIntended` of its old value: the new instance in place of the old one, the other list items kept (the corrected splice) |
| Engine.Heap.Parent | property_mapper/mapper_base.py:848-854 | the parent, or the instance itself at the top |
| Engine.Heap.Root | property_mapper/mapper_base.py:856-865 | the root has no parent and is an ancestor of the instance |
| Engine.Heap.PathLabels | property_mapper/mapper_base.py:905-915 | the path runs from the root's label to the instance's label |
| Engine.Heap.GetPath | property_mapper/mapper_base.py:905-915 | `get_path` joins the labels from the root down with '->' |
| Engine.Heap.ChildPath | property_mapper/mapper_base.py:905-915 | a child's path is its parent's path, '->', and its own label |
| Engine.Heap.PathStartsAtRoot | property_mapper/mapper_base.py:905-915 | every path starts with the root's label |
| Engine.Heap.ApplyData | property_mapper/magic.py:53-80 | non-dict data raises AttributeError; without new keys every data key is merged in place; with new keys the class counter rises, the result is the extension built from the old instance, its new fields hold what the magic type parses from the data and its declared keys are merged (`NewKeysApplied`); declared keys missing from the data are cleared to None |
| Engine.Heap.ApplyNewKeys | property_mapper/magic.py:64-80 | with new keys: the counter rises and, on success, the result is what `NewKeysApplied` describes, with the old table plus the new keys and None in every declared key the data lacks |
| Engine.Heap.NewKeysApplied | property_mapper/magic.py:64-80 | definition: the extension built from the old instance and the new keys under the magic type, its new fields as built, its declared keys then merged |
| Engine.Heap.AddNewProperties | property_mapper/magic.py:75-76 | `add_properties` with the new keys raises the counter, builds the extension from `as_dict` plus the new values, gives it the old table plus the new keys, and each new field holds what its type parses from its value |
| Engine.Heap.MergeRewritten | property_mapper/magic.py:72-80 | merging the rewritten dict leaves None in every declared key the data lacks, merges every declared data key as `SlotMerged` describes, and touches no other slot |
| Engine.Values | property_mapper/mapper_base.py:806-808 | the data added for new properties has their names as keys |
| Engine.Extended | property_mapper/mapper_base.py:796-812 | the subclass declares the old fields and the new ones |
| Engine.ExtendedNewField | property_mapper/mapper_base.py:806-820 | each new property of the extension holds what its type parses from its value |
| Engine.FlatMergeRoundTrip | tests/test_simple_mapper.py:36-45 | after merging canonical bool and adapter data into an instance with no other field set, `as_dict` is the data |
| Engine.SlotMerged | property_mapper/mapper_base.py:144-201 | definition: what `merge_property` leaves in one slot: the `MergedUnknown` value for an undeclared key, None for None, a `ValMerged` value otherwise |
| Engine.ValMerged | property_mapper/mapper_base.py:160-199 | definition: the value a declared field may take, by its shape; for a union, what some alternative takes (`TakesVal`) after every earlier one may have passed the value on (`MayDecline`) |
| Engine.PassesOn | property_mapper/mapper_base.py:544-612 | definition: `_try_merge_object` returns None: a bool alternative gets a non-bool; a mapper alternative gets a non-dict, or the held instance says no to `is_equal_or_compat`, or no instance is held and `is_compat` says no; an adapter alternative parses nothing (`AdapterOffer`) |
| Engine.Takes | property_mapper/mapper_base.py:544-612 | definition: what an alternative that does not pass the value on returns: the bool, the child `ChildMerged` describes, or the adapter value `AdapterOffer` gives |
| Engine.AdapterOffer | property_mapper/mapper_base.py:589-612 | definition: the held adapter value replaced when `replace` accepts the data, else the value `from_data` parses of the adapter alternative, else nothing |
| Engine.FirstTaker | property_mapper/mapper_base.py:490-498 | the position of the first alternative that does not pass the value on, every one before it passing it on; the length when all do |
| Engine.UnionMerged | property_mapper/mapper_base.py:489-501 | definition: UnsupportedType when every alternative passes the value on; on success, the first alternative that does not takes it |
| Engine.UnionMergedVal | property_mapper/mapper_base.py:489-501 | a successful union merge stores a value `ValMerged` allows for the union shape |
| Engine.PassesOnFlag | property_mapper/mapper_base.py:490-498 | raising the owner's flag does not change whether an alternative passes the value on, nor what it takes |
| Engine.MayDecline | property_mapper/mapper_base.py:544-612 | definition: an alternative that may return None for the data, given the field's old value |
| Engine.TakesVal | property_mapper/mapper_base.py:544-612 | definition: the value an alternative may return for the data, given the field's old value |
| Engine.DataMerged | property_mapper/mapper_base.py:131-142 | definition: every key of the data merged into an instance as `SlotMerged` describes, the other slots kept |
| Engine.AdapterMerge | property_mapper/mapper_base.py:614-640 | definition: the value `_try_merge_type` leaves: the parsed value, else the replaced one |
| Engine.ChildMerged | property_mapper/mapper_base.py:544-612 | definition: a held instance took every key of the data, or a fresh instance holds the built tree |
| Engine.FlatMergeable | tests/test_simple_mapper.py:36-45 | definition: canonical bool and adapter data, every other field of the instance unset or None |
| Engine.ObsoleteCleared | property_mapper/magic.py:72-73 | declared keys the data lacks end up holding None |
| Engine.RewrittenMerged | property_mapper/magic.py:75-80 | every declared data key is merged with the data's own value |
| Engine.SpliceKeepsSiblings | property_mapper/mapper_base.py:822-824 | the corrected splice keeps every other list item and puts in the new instance |
| Engine.ListItemSiblingLost | property_mapper/mapper_base.py:822-824 | as written, extending an instance held in a list drops its siblings |
| Engine.SpliceLinked | property_mapper/mapper_base.py:822-824 | the spliced slot stays linked to its parent |
| Engine.SpliceIntended | property_mapper/mapper_base.py:822-824 | definition: the parent's slot with the new instance in place of the old one, other list items kept |
| Engine.SpliceAsWritten | property_mapper/mapper_base.py:822-824 | definition: the parent's slot as `setattr` leaves it: the new instance alone |
| Engine.JoinWithAppend | property_mapper/mapper_base.py:905-915 | joining one more label appends the separator and the label |
| Magic.NewKeys | property_mapper/magic.py:61-64 | the new keys are the data keys the table does not declare |
| Magic.CheckHasNewKeys | property_mapper/magic.py:34-40 | True iff some data key is undeclared; a non-dict raises AttributeError |
| Magic.NoNewKeysIffValid | property_mapper/magic.py:43-51 | for a dict, no new keys iff `validate_keys` passes |
| Magic.Rewritten | property_mapper/magic.py:65-73 | the dict passed on has exactly the declared keys, with the data's value or None |
| Magic.NewProps | property_mapper/magic.py:67-70 | one new property per new key, of the magic type, with the data's value |
| Magic.NewPropsCover | property_mapper/magic.py:61-76 | there are new properties iff `check_has_new_keys` is True, and with them the table covers every data key |
| Magic.ApplySplitsData | property_mapper/magic.py:61-80 | every data key is a new property or a merged key, never both, with its value |
| Identity.Attr | property_mapper/mapper.py:22-27 | `getattr` answers for a declared field and raises AttributeError otherwise |
| Identity.Eq | property_mapper/mapper.py:9-30 | definition: `PropertyMapper.__eq__` |
| Identity.EqAlwaysRaises | property_mapper/mapper.py:16-21 | the guard `isinstance(o, C) and not issubclass(type(o), C)` never holds, so `==` always raises AssertionError |
| Identity.KeyFieldDecides | property_mapper/mapper.py:22-23 | with a key field the body's answer depends only on the two key values |
| Identity.FieldsEqAllEqual | property_mapper/mapper.py:26-30 | the loop answers True iff every pair of declared field values is equal |
| Identity.StateIgnored | property_mapper/mapper.py:22-30 | unknown params and the change flag do not affect the body's answer |
| Identity.FieldsEqStateIgnored | property_mapper/mapper.py:26-30 | the loop reads only the class and the fields |
| Identity.SameFieldsEqual | property_mapper/mapper.py:22-30 | two instances with the same class and fields, and no nested instances, are equal by the body |

## Left out

- Adapters are abstract values with `accepts`, `parse`, `replace` and `reverse`. Only `Int` and `Str` are given concrete definitions. The adapter library's `from_data` and `is_changed` are not part of this model: a replaced value is taken as changed iff it differs, a freshly parsed one as unchanged, and a failed `replace` as raising UnsupportedType.
- Floating point: `validate_schema` computes a float percentage; the model compares `count * 100 < similarity * total` exactly.
- Dict order: raw dicts are maps. When several keys fail, which error is raised first is not pinned, and neither is the key order of `as_dict` or of `list(set(...))`.
- The cached root (`_pm_private_root`) and `_set_parent` (mapper_base.py:838-846): the root is computed from parent links, and `_set_parent` has no caller in the core.
- Engine.Heap.AddProperties: the subclass counter is kept per class name; the source's `cls._subclass_counter += 1` reads an inherited counter first, which is not modelled.
- Engine.Heap.MergeList: the in-place `list.remove` on the old list is modelled as positional removal (see Findings). A value wrapped by the `Str` adapter, which Python can iterate, is not treated as iterable. When the merge fails part-way, Python has already removed the matched items from the stored list in place; the model leaves the slot as it was.
- MapperRules.MergedUnknown: when an old dict absorbs a new non-empty list of valid indices, Python adds integer keys to the dict; a raw dict here has text keys only, so the model raises TypeError there instead.
- Engine.Heap.MergeUnknown: raises the flag by the corrected `UnknownChanged`, not by the comparison as written (see Findings); the as-written flag is `MapperRules.UnknownChangedAsWritten`.
- Engine.Heap.AddProperties: puts the new instance into the parent's slot by the corrected splice `SpliceIntended`, not by the `setattr` as written, which loses the other items of a list (see Findings).
- Engine.Heap.PlaceExtended: uses the corrected splice `SpliceIntended` (see Findings).
- Engine.Heap.Substitute: uses the corrected splice `SpliceIntended` (see Findings).
- Engine.Heap.SpliceSlot: is the corrected splice; the as-written slot is `Engine.SpliceAsWritten` (see Findings).
- Engine.Heap.MergeData: the round trip through `as_dict` is proved only for flat data (bool and adapter fields). For a nested mapper, what one property's merge did below it (`ChildMerged`) is proved when that property is merged, but not that it survives the merges of the later keys, and no nested round trip is stated.
- `MagicMapper.__new__` (magic.py:14-31), which routes construction through `apply_data`, is not part of this model.
- Engine.Heap.ApplyData: `apply_data` also deletes and rewrites keys of the caller's dict; the model leaves the caller's value untouched.
- Utils.MergeDicts: `merge_dicts` returns the destination dict itself and updates nested dicts in place; the model returns a new map, and the aliasing this causes is captured only in `MapperRules.UnknownChangedAsWritten`.
- User-defined getter methods behind computed accessors are not modelled; only the choice of accessor is.
- `replace_data` and `replace_property` (mapper_base.py:203-253) are not part of this model.
- Python reflection: class identity is by name.
- Compiler.ResolveHint: a string forward reference is resolved by its name in a map of the classes bound so far, standing for the module globals `get_type_hints` reads; the dependence on the Python version of a string inside `list[...]` is not modelled.
- Schema.ElemKinds: `get_types` (utils.py:27) is taken to be the stored list of alternatives of a list or union hint; the typing module's own introspection is not modelled.
- `__repr__` (mapper_base.py:935-947) is not modelled.
- Equality.ValEq: every mapper class is compared as a `PropertyMapper` (mapper.py:9-21), so any comparison involving an instance raises AssertionError. A `MagicMapper` class (magic.py:8) does not define `__eq__` and compares by identity, so for it `list.remove` (mapper_base.py:367) and `result != old_value` (mapper_base.py:637) do not raise. `Equality.SameOrEq`, `Equality.ValRawEq` and `Equality.ListRemove` follow the same rule, and the list-removal finding holds for `PropertyMapper` classes only.
- Identity.Eq: a nested instance inside two compared fields raises AssertionError through `Equality.ValEq`; a list holding the same instance on both sides compares by identity.

## Findings

| source | as written | input that shows it | evidently intended | confidence | as-written member | corrected member |
|---|---|---|---|---|---|---|
| property_mapper/mapper_base.py:334-345 | `_merge_unknown` compares the new value with `old.copy()` after `merge_dicts` updated the shared nested dicts in place | unknown `{"a": {"x": 1}}` merged with `{"a": {"x": 2}}`: the value changes but the flag stays down | flag a change whenever the stored value differs from the one before | not executed | MapperRules.NestedUnknownChangeUnflagged | MapperRules.UnknownChanged |
| property_mapper/mapper_base.py:367 | `obj_list.remove(obj)` compares every earlier item with `obj` through `PropertyMapper.__eq__`, which raises (a `PropertyMapper` item; a `MagicMapper` compares by identity) | a list field holding two instances, data matching the second | take the matched instance out of the pool | not executed | Equality.SecondInstanceNotRemovable | Equality.RemoveAt |
| property_mapper/mapper_base.py:822-824 | `add_properties` sets the parent's attribute to the new instance, even when the old instance sat inside a list | a list field `[n, d]`; extending `n` leaves the field holding only the new instance, and `d` is lost | replace `n` by the new instance inside the list | not executed | Engine.ListItemSiblingLost | Engine.SpliceKeepsSiblings |
