# A Dafny model of the PyXB binding engine core

PyXB generates Python classes ("bindings") from an XML Schema. This project models the runtime
core those classes run on: `pyxb/binding/basis.py` and `pyxb/binding/content.py`. It has three parts.

- **The simple-value engine.**
  - Facet maps (`_InitializeFacetMap`) and the ordered facet check (`XsdConstraintsOK`), over the constraining facets of section 4.3 of XML Schema Part 2.
  - Union types (`STD_union.Factory`, `_ValidatedMember`, refusal of direct construction).
  - Live list types (`STD_list`): item validation, splitting of literals, every mutator, `XsdLiteral`.
  - Validity checks (`_CheckValidValue`).
  - The casting policy `_CompatibleValue`.
  - Element declarations: `compatibleValue`, `__call__`, and the substitution-group walks `_real_substitutesFor` and `findSubstituendDecl`.
- **The complex-value container** (`complexTypeDefinition`):
  - the `xsi:nil` flag;
  - `reset` and `_resetContent`;
  - `append`, `extend`, `_addContent` and `_appendWildcardElement`;
  - `_setValue`, `_validateBinding_vx` and `_symbolSet`;
  - the per-instance slots written by `ElementDeclaration` and `AttributeUse`.
- **Content-model validation.** The `_validate` family of `content.py` consumes a symbol set into an ordered output sequence. It covers element declarations, wildcards, particles and sequence, all and choice groups. Wildcard namespace matching and occurrence predicates are included.

## Modelling conventions

- **Classes and the host language.**
  - Python classes are natural numbers in definition order. A class's bases, union member types and list item type have smaller numbers; this gives termination for every walk up a hierarchy.
  - Python itself is an oracle record (`Environment.Host`). It answers `issubclass`, calling a class, a non-union `Factory`, `==`, `six.text_type`, literals, `value()` of a simple-content instance, the superseding-class registry, the validation configuration and each facet's `validateConstraint`.
- **State and mutation.**
  - Class-level state that `basis.py` mutates is a Dafny `class` with `modifies` clauses:
    - the facet maps and the facet-sequence cache (`Facets.FacetRegistry`);
    - a live list's items (`SimpleTypes.LiveList`);
    - an instance's content, nil flag, element and attribute slots, and wildcard elements (`ComplexValues.ComplexInstance`);
    - the symbol set and output sequence of `_validate` (`ContentModel.SymbolState`).
  - Each method is proved equal to a specification function on the state before the call. The properties are proved about those functions.
- **Identity and errors.**
  - An element declaration is identified by its position among its type's element uses; the wildcard key is `None`.
  - Python exceptions are the `Values.Error` constructors, and a raised exception is an `Err`/`Fail` result.

## Model

| member | source | states |
|---|---|---|
| Environment.MemberTypes | pyxb/binding/basis.py:1283-1297 | a union's member types were defined before the union |
| Environment.ItemTypeOf | pyxb/binding/basis.py:1336-1360 | a list's item type was defined before the list |
| Facets.Mro | pyxb/binding/basis.py:1022-1033 | the mro starts with the class itself and visits only classes defined no later |
| Facets.XsdSuperType | pyxb/binding/basis.py:1018-1034 | the XSD super type is an earlier class; directly below simpleTypeDefinition it is the recorded XSD base |
| Facets.LastOfKind | pyxb/binding/basis.py:849-851 | the facet installed for a facet class is the last one given of that class; none when none is given |
| Facets.PutLookup | pyxb/binding/basis.py:850 | `fm[type(f)] = f` makes f the entry for its class and leaves every other class's entry alone |
| Facets.OverrideLookup | pyxb/binding/basis.py:849-851 | after installing the facets, a class maps to its last given facet, otherwise to the inherited entry |
| Facets.FirstWithMap | pyxb/binding/basis.py:826-838 | the search yields no map exactly when no class along the chain has one |
| Facets.InheritedIsFirstAlongSearchChain | pyxb/binding/basis.py:824-845 | the inherited map is that of the first class with a map along the mro walks and XSD super-type jumps, or empty |
| Facets.CollectDistinct | pyxb/binding/basis.py:1064-1079 | the facet sequence never repeats a facet |
| Facets.CollectMembers | pyxb/binding/basis.py:1064-1079 | a facet is checked iff some simpleTypeDefinition ancestor declares it |
| Facets.CollectPrefix | pyxb/binding/basis.py:1066-1067 | the facets of less derived classes come before those of more derived ones |
| Facets.AncestorFacetsFirst | pyxb/binding/basis.py:1064-1079 | every facet of the k least derived classes appears in the sequence before any facet first introduced later |
| Facets.CheckFacets | pyxb/binding/basis.py:1083-1088 | the value passes iff every facet accepts it and is then returned; otherwise the error names a failing facet with all earlier ones passing |
| Facets.FacetRegistry.constructor | pyxb/binding/basis.py:1049 | no class has a facet map and the cache starts empty |
| Facets.FacetRegistry.InitializeFacetMap | pyxb/binding/basis.py:805-853 | LogicError and no change on a second call; otherwise the map is the inherited one overridden by the given facets, and cache entries stay correct |
| Facets.FacetRegistry.SearchMro | pyxb/binding/basis.py:829-838 | the walk along one mro yields the map of the first class that has one |
| Facets.FacetRegistry.InstallFacets | pyxb/binding/basis.py:849-850 | the loop yields the inherited map overridden by each facet in turn |
| Facets.FacetRegistry.XsdConstraintsOK | pyxb/binding/basis.py:1052-1088 | the result is the ordered check over the least-derived-first, duplicate-free facet sequence; the cache holds only correct sequences |
| Facets.FacetRegistry.ComputeFacetSequence | pyxb/binding/basis.py:1064-1082 | the loop computes the facet sequence, and it may be cached exactly when every ancestor has a map |
| Facets.FacetRegistry.CollectClasses | pyxb/binding/basis.py:1067-1082 | the loop collects the facets of the classes in order, each once, and allows caching iff every class has a map |
| Facets.FacetRegistry.CheckInOrder | pyxb/binding/basis.py:1085-1088 | the loop raises the first facet the value violates, or returns the value |
| Facets.AddNew | pyxb/binding/basis.py:1080-1082 | each facet not yet present is appended, in order |
| Facets.NewMapKeepsCache | pyxb/binding/basis.py:1062-1084 | a map installed for a new class leaves every cached facet sequence correct, so the cache never goes stale |
| SimpleTypes.FirstMemberFactoryNone | pyxb/binding/basis.py:1258-1268 | the fallback loop finds nothing iff every member type's validating Factory fails |
| SimpleTypes.FirstMemberFactoryFinds | pyxb/binding/basis.py:1258-1268 | when member k accepts the arguments and every earlier member refuses them, the fallback loop returns member k's value |
| SimpleTypes.TryMembers | pyxb/binding/basis.py:1288-1297 | an error other than SimpleUnionValueError that escapes the member search is one it does not swallow (neither TypeError nor SimpleTypeValueError) |
| SimpleTypes.TryMembersExhausted | pyxb/binding/basis.py:1288-1297 | SimpleUnionValueError is reported only after every member type failed with a swallowed error |
| SimpleTypes.TryMembersFinds | pyxb/binding/basis.py:1288-1297 | when member k converts the value and every earlier member failed with a swallowed error, the search returns member k's value |
| SimpleTypes.UnionKeepsMemberValues | pyxb/binding/basis.py:1252-1257 | a value already of a member type comes back from the union Factory unchanged (after the union's facets) |
| SimpleTypes.UnionFactoryIsMemberSearch | pyxb/binding/basis.py:1233-1280 | a value of no member type is converted by the first member type that accepts it, or refused with SimpleUnionValueError |
| SimpleTypes.UnionOrderDependence | pyxb/binding/basis.py:1258-1268 | when two member types accept a value, the earlier declared one decides the result |
| SimpleTypes.FactoryConforms | pyxb/binding/basis.py:1233-1280 | whatever a Factory returns belongs to the class asked for |
| SimpleTypes.UnionFactoryConforms | pyxb/binding/basis.py:1233-1280 | whatever the union Factory returns is a value of one of its member types |
| SimpleTypes.ValidatedMemberConforms | pyxb/binding/basis.py:1283-1297 | _ValidatedMember returns a value of a member type |
| SimpleTypes.ValidatedItemIsItem | pyxb/binding/basis.py:1336-1360 | _ValidatedItem lets into a list only values of the item type |
| SimpleTypes.ValidateAll | pyxb/binding/basis.py:1363-1375 | each value is converted by _ValidatedItem in order; on failure the error is one an item raised |
| SimpleTypes.SplitWhitespace | pyxb/binding/basis.py:1366-1368 | splitting a string yields only non-empty tokens free of whitespace |
| SimpleTypes.SplitJoin | pyxb/binding/basis.py:1366-1384 | splitting the space-joined tokens gives back exactly those tokens |
| SimpleTypes.ListFromLiteral | pyxb/binding/basis.py:1363-1375 | constructing a list from a space-joined literal validates exactly its tokens, in order |
| SimpleTypes.ItemLiterals | pyxb/binding/basis.py:1382-1384 | every item has its literal in order, or the literal fails |
| SimpleTypes.ListLiteralSplits | pyxb/binding/basis.py:1382-1384 | a list literal splits back into one literal per item when no item literal is empty or holds whitespace |
| SimpleTypes.InsertPosition | pyxb/binding/basis.py:1430-1431 | insert clamps its index to the list and counts negative indexes from the end |
| SimpleTypes.ItemPosition | pyxb/binding/basis.py:1403-1407 | an index designates an item iff it lies within the length, negative ones counting from the end |
| SimpleTypes.CountEqual | pyxb/binding/basis.py:1424-1425 | the count is the number of positions holding an item equal to the value; it is at most the length and is zero iff no item equals the value |
| SimpleTypes.FirstEqual | pyxb/binding/basis.py:1427-1428 | the position found holds an equal item; none is found iff no item is equal |
| SimpleTypes.LiveList.constructor | pyxb/binding/basis.py:1363-1375 | the list holds the items given |
| SimpleTypes.LiveList.Append | pyxb/binding/basis.py:1418-1419 | the converted item is added at the end; an invalid item raises and leaves the list unchanged |
| SimpleTypes.LiveList.Insert | pyxb/binding/basis.py:1430-1431 | the converted item is inserted at the clamped position; an invalid item leaves the list unchanged |
| SimpleTypes.LiveList.Extend | pyxb/binding/basis.py:1421-1422 | all values are converted before any is added; one invalid value leaves the list unchanged |
| SimpleTypes.LiveList.SetItem | pyxb/binding/basis.py:1403-1407 | the designated item is replaced by the converted value; an invalid value or index raises and changes nothing |
| SimpleTypes.LiveList.SetSlice | pyxb/binding/basis.py:1403-1411 | the clamped slice is replaced by the converted values; an invalid one changes nothing |
| SimpleTypes.LiveList.Remove | pyxb/binding/basis.py:1433-1434 | the first equal item is removed, or ValueError; an invalid value changes nothing |
| SimpleTypes.LiveList.Count | pyxb/binding/basis.py:1424-1425 | exactly the number of positions whose item equals the converted value; a value the item type refuses raises |
| SimpleTypes.SearchStart | pyxb/binding/basis.py:1427-1428 | `index`'s start argument: 0 when absent, itself when within the list, clamped to the list otherwise |
| SimpleTypes.SearchStop | pyxb/binding/basis.py:1427-1428 | `index`'s stop argument: the length when absent, itself when between start and the length, never below start |
| SimpleTypes.LiveList.Index | pyxb/binding/basis.py:1427-1428 | with optional start and stop: the first position in [start, stop) holding an equal item, or ValueError when there is none; more than two bounds raise TypeError; a refused value raises first |
| SimpleTypes.LiveList.Contains | pyxb/binding/basis.py:1413-1414 | true iff some item equals the converted value |
| SimpleTypes.ListLengthWithinFacets | pyxb/binding/basis.py:965-966 | when the length facets measure a list by its number of items (`_XsdValueLength_vx`, basis.py:1377-1379), a list built with validation on has a count every length, minLength and maxLength facet of its class allows; a count one of them forbids means no list is built |
| SimpleTypes.ListMeetsFacets | pyxb/binding/basis.py:944-966 | when validation is on, a constructed list satisfies its class's facets, and a facet violation is the error raised; when it is off, no facet is checked |
| SimpleTypes.ListItemsAreItems | pyxb/binding/basis.py:1363-1375 | every item of a constructed list is a valid value of the item type |
| SimpleTypes.NewList | pyxb/binding/basis.py:1363-1375 | a new live list of the class holding exactly the items of ListItems: none for no argument, the split or converted items of one argument, after the facet check when validation is on; more arguments and every conversion or facet error are raised |
| SimpleTypes.CheckItems | pyxb/binding/basis.py:1170-1175 | a list passes only when every item is a valid value of the item type |
| SimpleTypes.FirstValidMemberIsFirst | pyxb/binding/basis.py:1177-1184 | the member type chosen accepts the value and every member type before it refuses it |
| SimpleTypes.FirstValidMemberNone | pyxb/binding/basis.py:1177-1184 | no member type is chosen iff every member type refuses the value |
| SimpleTypes.FirstValidMemberError | pyxb/binding/basis.py:1177-1184 | an error raised is that of a member type reached after refusals only |
| SimpleTypes.CheckValidValueSound | pyxb/binding/basis.py:1160-1188 | a value that passes is not None; a list's items are valid item values; otherwise it is an instance of the class, or of a member type that accepts it while every earlier member type refuses it, and passes that class's facets |
| Casting.CompatibleValue | pyxb/binding/basis.py:353-449 | None stays None and an instance of the target class is returned unchanged |
| Casting.FirstCompatibleMember | pyxb/binding/basis.py:408-413 | the value comes from the first member type, in declared order, for which the cast succeeds; none when every cast fails |
| Casting.StringConversionOnlyWhenAsked | pyxb/binding/basis.py:374-403 | with string conversion on, a string that is not an instance is converted by calling the class; with it off, the class is called exactly when it derives from the string type, and any other class goes on to its union members and the later rules; a string that none of those accepts (a class that is not a union, an ur-type or a simple-content type) is refused with SimpleTypeValueError |
| Casting.UnionCallRefused | pyxb/binding/basis.py:390-405 | calling a union class on a value raises LogicError (basis.py:1300-1304), so a union value is never built by the union class: where a downcast or conversion rule would call it the result is LogicError, otherwise it comes from the first compatible member or the later rules |
| Casting.UnionStringConversionRefused | pyxb/binding/basis.py:404-405 | with string conversion on, a string given to a union class raises LogicError |
| Casting.UnionFirstCompatibleMember | pyxb/binding/basis.py:408-413 | for a union target, the result is the cast to the first member type that accepts the value |
| Casting.SimpleContentOnlyWhenEqual | pyxb/binding/basis.py:430-442 | a simple-content target accepts the Factory's result only when it, or its content, equals the value given |
| Casting.NoRuleRefuses | pyxb/binding/basis.py:449 | a value no rule accepts raises SimpleTypeValueError |
| Casting.CompatibleValueConforms | pyxb/binding/basis.py:353-449 | for a target that is not an ur-type and has no ur-type member, every value produced other than None belongs to the target class |
| Casting.UrTypesPassValuesThrough | pyxb/binding/basis.py:416-422 | anySimpleType returns any simple binding unchanged; anyType returns any binding unchanged and calls itself on anything else |
| Elements.NewElement | pyxb/binding/basis.py:1586-1605 | the default value is the default literal built by the type's Factory; no literal means no default; a refused literal is an error |
| Elements.SetSubstitutionGroup | pyxb/binding/basis.py:1535-1539 | the group is recorded and, once one is given, the real substitution test is installed for good; nothing else changes |
| Elements.GlobalFor | pyxb/binding/basis.py:1563-1568 | a top-level element stands for itself; a local one for the top-level element of its name, if any |
| Elements.RealSubstitutesFor | pyxb/binding/basis.py:1550-1573 | an element without a group, or asked about no element, substitutes for nothing |
| Elements.RealSubstitutesForChain | pyxb/binding/basis.py:1550-1573 | the answer is yes iff some element along the group chain has the one asked about as its own top-level binding or as its group head |
| Elements.SubstitutesForSelfAndHead | pyxb/binding/basis.py:1550-1573 | an element with a group substitutes for its own top-level binding and for its group head |
| Elements.ConstructorGroupNotInstalled | pyxb/binding/basis.py:1575-1577 | an element given a group only through its constructor still substitutes for nothing |
| Elements.FindSubstituendDecl | pyxb/binding/basis.py:1542-1548 | the result is the map entry of the first element along the group chain whose name is in the map, or None at the end of the chain |
| Elements.CompatibleValue | pyxb/binding/basis.py:1641-1667 | None gives the default; a plural use refuses a non-iterable value and converts every item of an iterable one |
| Elements.CompatibleItems | pyxb/binding/basis.py:1650-1656 | the items are converted one for one; a failure is the failure of some item |
| Elements.FixedElementKeepsItsValue | pyxb/binding/basis.py:1658-1659 | a value a fixed element accepts equals its fixed value or is a binding of a substituting element |
| Elements.AbstractElementNeedsSubstitute | pyxb/binding/basis.py:1660-1667 | an abstract element accepts only bindings of substituting elements, and returns them unchanged |
| Elements.WithElement | pyxb/binding/basis.py:134-136 | _setElement associates a binding with the element and keeps its class |
| Elements.Call | pyxb/binding/basis.py:1607-1639 | an `_element` keyword raises LogicError; an abstract element raises AbstractElementError; a built binding belongs to the element |
| Elements.CallConforms | pyxb/binding/basis.py:1607-1639 | a binding built by calling an element is a value of the element's type definition |
| Elements.FixedElementCallUsesFixedValue | pyxb/binding/basis.py:1630-1635 | a fixed element builds its instance from a value equal to its fixed value or from a substituting binding |
| Elements.BindingSubstitutesFor | pyxb/binding/basis.py:317-320 | a binding substitutes only for an element, and only when it has an element of its own |
| ContentModel.OccurrencesFormInterval | pyxb/binding/content.py:1155-1168 | the counts satisfying a particle's occurrences form an interval from minOccurs to maxOccurs, unbounded without a maximum, empty when maxOccurs is below minOccurs |
| ContentModel.RawNamespace | pyxb/binding/content.py:793-803 | a binding with no element whose type has no expanded name raises AttributeError (basis.py:92), and only that value does |
| ContentModel.Matches | pyxb/binding/content.py:787-818 | fails exactly when the namespace lookup fails, with AttributeError; otherwise ##any matches every value |
| ContentModel.AbsentNamespaceIsNoNamespace | pyxb/binding/content.py:806-818 | an absent namespace counts as none; ##other rejects no namespace and the excluded one and accepts every other; a set tests membership |
| ContentModel.Pop | pyxb/binding/content.py:715-720 | the first value under the key is output; the key disappears with its last value; all values are conserved |
| ContentModel.Consume | pyxb/binding/content.py:137-168 | on success, the output and what is left together hold exactly the symbols given, each key's values output as a prefix in order |
| ContentModel.Repeat | pyxb/binding/content.py:1215-1225 | the particle loop conserves the symbols and never lowers the count |
| ContentModel.RoundIsRepeat | pyxb/binding/content.py:1215-1225 | a round that stops ends the loop with its count and step; one that goes on hands the loop to the next round with fewer symbols left |
| ContentModel.RepeatStep | pyxb/binding/content.py:1215-1225 | the loop stops when the term fails; a success that outputs nothing raises the count to minOccurs and stops; otherwise it counts one and goes on |
| ContentModel.ConsumeEach | pyxb/binding/content.py:1260-1267 | the particles of a sequence or all group, in order, conserve the symbols |
| ContentModel.ConsumeFirst | pyxb/binding/content.py:1274-1288 | a choice succeeds with the first particle that validates, every earlier one failing; it fails iff every particle fails |
| ContentModel.NothingProducedNothingConsumed | pyxb/binding/content.py:1218-1223 | a success that outputs nothing leaves the symbol set as it was |
| ContentModel.FirstInFirstOut | pyxb/binding/content.py:137-168 | under each key, the values output are the first ones of that key's list, in order, and the rest stay |
| ContentModel.ElementTakesFirstValue | pyxb/binding/content.py:712-720 | an element declaration fails iff its key is absent; otherwise it outputs the first value under its key |
| ContentModel.RepeatMeetsMaximum | pyxb/binding/content.py:1215 | the count the particle loop reaches never exceeds maxOccurs |
| ContentModel.OptionalParticleSucceeds | pyxb/binding/content.py:1211-1229 | a particle with minOccurs 0 always validates |
| ContentModel.ZeroMaximumParticle | pyxb/binding/content.py:1215-1227 | a particle with maxOccurs 0 consumes nothing and succeeds iff minOccurs is 0 |
| ContentModel.ChoiceCommitsToFirst | pyxb/binding/content.py:1274-1288 | a choice is decided by the first particle, in declared order, that validates |
| ContentModel.AllIsValidatedAsSequence | pyxb/binding/content.py:1290-1294 | an all group is validated exactly like a sequence of its particles |
| ContentModel.SequenceNeedsEveryParticle | pyxb/binding/content.py:1263-1265 | a sequence fails when one particle fails on what the earlier ones left; otherwise it concatenates their outputs |
| ContentModel.SymbolState.constructor | pyxb/binding/content.py:112-126 | the state holds the symbol set and output sequence given |
| ContentModel.SymbolState.Clone | pyxb/binding/content.py:112-126 | an independent copy of both structures |
| ContentModel.SymbolState.ReplaceResults | pyxb/binding/content.py:127-135 | both structures are overwritten in place with the clone's |
| ContentModel.SymbolState.Validate | pyxb/binding/content.py:137-168 | false leaves both structures unchanged; true leaves the rest and appends the output that the specification gives |
| ContentModel.SymbolState.ValidateElement | pyxb/binding/content.py:712-720 | the in-place element step meets the specification, unchanged on failure |
| ContentModel.SymbolState.ValidateWildcard | pyxb/binding/content.py:841-851 | the in-place wildcard step meets the specification for every namespace constraint, unchanged on failure |
| ContentModel.SymbolState.ValidateParticle | pyxb/binding/content.py:1211-1229 | the counting loop on a clone meets the particle specification, unchanged on failure |
| ContentModel.SymbolState.ParticleRound | pyxb/binding/content.py:1215-1225 | one pass of the loop stops at maxOccurs or on a failing term, raises the count to minOccurs on an empty success, and otherwise counts one, as `Round` specifies |
| ContentModel.SymbolState.ValidateGroup | pyxb/binding/content.py:1260-1267 | sequence and all groups validate in place as specified, unchanged on failure |
| ContentModel.SymbolState.ValidateChoice | pyxb/binding/content.py:1274-1288 | a choice validates in place as specified, unchanged on failure |
| ContentModel.SymbolState.ValidateSymbolSet | pyxb/binding/content.py:1180-1209 | the result is the rest and the fresh output of the specification, or None with the symbol set unchanged |
| ComplexValues.NewAttributeUse | pyxb/binding/content.py:210-272 | the default value is the default literal built by the data type's Factory; no literal means None; the flags are kept |
| ComplexValues.InitialNil | pyxb/binding/basis.py:234-244 | an instance has no nil support iff its element is not nillable; otherwise it starts with the flag requested |
| ComplexValues.CheckNilCtor | pyxb/binding/basis.py:215-224 | content given to a nil instance raises ContentInNilInstanceError; otherwise it reports whether content was given |
| ComplexValues.SetIsNilEffect | pyxb/binding/basis.py:174-190 | NoNillableSupportError without nil support; setting nil clears content and elements but keeps attributes; clearing nil changes only the flag |
| ComplexValues.DefaultValue | pyxb/binding/content.py:574-583 | a plural use defaults to an empty list, a singular one to a non-list |
| ComplexValues.ResetAttribute | pyxb/binding/content.py:342-345 | the default value, marked as not provided |
| ComplexValues.ResetContentState | pyxb/binding/basis.py:2392-2399 | the content becomes an empty list for mixed and element-only types, None otherwise; elements reset only when asked; nothing else changes |
| ComplexValues.ResetState | pyxb/binding/basis.py:2414-2430 | no content, every element at its default, every attribute not provided; the nil flag and wildcard elements are kept |
| ComplexValues.TextOf | pyxb/binding/basis.py:1993-1999 | non-element content keeps a string as it is |
| ComplexValues.Adopted | pyxb/binding/basis.py:2632-2636 | a binding without an element is associated with the declaration's element; one with an element is kept; the class never changes |
| ComplexValues.AddContentState | pyxb/binding/basis.py:2624-2636 | the content list grows by exactly one entry at its end; nothing else changes |
| ComplexValues.ResetElementState | pyxb/binding/content.py:589-592 | the use's value becomes its default; every other use is untouched |
| ComplexValues.SetElementEffect | pyxb/binding/content.py:594-603 | None resets the use; otherwise the compatible value is stored and recorded as content, or the error raised |
| ComplexValues.AppendElementEffect | pyxb/binding/content.py:612-623 | a singular use raises StructuralBadDocumentError; a plural one gets the compatible value at the end of its list and in the content; failure changes nothing |
| ComplexValues.SetOrAppendEffect | pyxb/binding/content.py:605-610 | a successful store of a value records it as the last content entry |
| ComplexValues.ElementMatches | pyxb/binding/content.py:687-709 | an explicit declaration matches only this use; a DOM node never matches; a foreign value matches only once converted |
| ComplexValues.SetAttribute | pyxb/binding/content.py:384-423 | None on a required attribute and a value on a prohibited one are refused; a fixed attribute keeps its default; provided iff a value is given |
| ComplexValues.SetAttributeEffect | pyxb/binding/content.py:384-423 | the slot is written only when set succeeds; failure changes nothing |
| ComplexValues.ValidateAttribute | pyxb/binding/content.py:355-382 | a value on a prohibited attribute, or a required one never provided or without a value, fails |
| ComplexValues.SetAttributeThenValidate | pyxb/binding/content.py:355-423 | what set stores passes validate's presence rules |
| ComplexValues.ResetRequiredAttributeIsMissing | pyxb/binding/content.py:342-382 | a required attribute left at its reset state fails validation as missing |
| ComplexValues.AppendWildcardAsWritten | pyxb/binding/basis.py:2599-2610 | the code as written records every binding as a wildcard element |
| ComplexValues.ElementlessBindingBecomesWildcard | pyxb/binding/basis.py:2601 | a binding with no element is recorded as a wildcard element by the code as written |
| ComplexValues.AppendWildcardEffect | pyxb/binding/basis.py:2599-2610 | an element-like value is recorded as a wildcard element; anything else goes to mixed content or raises MixedContentError; wildcard elements stay element-like |
| ComplexValues.ContentConstraints | pyxb/binding/basis.py:2281-2296 | only simple-content types have content constraints; absent simple content is refused |
| ComplexValues.AppendEffect | pyxb/binding/basis.py:2471-2533 | a nil instance refuses content with nothing changed; the instance stays consistent |
| ComplexValues.AppendValue | pyxb/binding/basis.py:2534-2597 | blank text on an empty or element-only type is dropped; a value the content automaton places in an element use is stored by that use's setOrAppend with the value its `_matches` converted (content.py:679-685), also when the element was declared and validation is off; a value placed in the wildcard is recorded as a wildcard element (content.py:825-838); the instance stays consistent |
| ComplexValues.AutomatonEffect | pyxb/binding/basis.py:2537-2551 | the element-content branch for a type with a content model keeps the instance consistent |
| ComplexValues.UnplacedEffect | pyxb/binding/basis.py:2552-2597 | the branch for a value no content model placed keeps the instance consistent |
| ComplexValues.AppendSimple | pyxb/binding/basis.py:2577-2589 | a second simple value raises ExtraSimpleContentError; a first one sets only the content |
| ComplexValues.SecondSimpleContentRefused | pyxb/binding/basis.py:2577-2589 | after one simple value is appended, the next raises ExtraSimpleContentError and changes nothing |
| ComplexValues.TextOnlyInMixedContent | pyxb/binding/basis.py:2534-2597 | non-blank text on a type neither mixed nor simple raises MixedContentError with nothing changed |
| ComplexValues.MixedTextRecorded | pyxb/binding/basis.py:2592-2596 | text appended to a mixed instance is recorded as the last content entry |
| ComplexValues.ExtendEffect | pyxb/binding/basis.py:2612-2618 | extending by nothing changes nothing; the instance stays consistent |
| ComplexValues.ExtendConcatenates | pyxb/binding/basis.py:2612-2618 | extending by two lists is extending by the first and then, if it passed, by the second; nothing is undone |
| ComplexValues.ExtendNilInstance | pyxb/binding/basis.py:2487-2488 | a nil instance refuses a non-empty extend and nothing changes |
| ComplexValues.SetValueEffect | pyxb/binding/basis.py:2376-2390 | only simple-content types take a value; nil refuses content; an instance of the content type is stored as it is |
| ComplexValues.ValidateAttributes | pyxb/binding/basis.py:2249-2251 | passes iff every attribute use validates; a failure is some use's failure |
| ComplexValues.ValidateBinding | pyxb/binding/basis.py:2253-2269 | a nil instance passes iff it has no content; absent simple content is refused; otherwise it passes iff the content validates and every attribute use validates, and a content failure is the failure returned |
| ComplexValues.NilInstanceValidates | pyxb/binding/basis.py:174-190 | after nil is set, nil validation finds nothing to object to |
| ComplexValues.ConvertValues | pyxb/binding/basis.py:2235-2241 | element values are converted one for one |
| ComplexValues.SymbolSet | pyxb/binding/basis.py:2214-2247 | a well-formed symbol set whose keys are the type's element uses, and the wildcard key exactly when wildcard elements were recorded |
| ComplexValues.ElementSymbols | pyxb/binding/basis.py:2232-2242 | an element use has a key iff it holds a value (a non-empty list when plural) |
| ComplexValues.InitialState | pyxb/binding/basis.py:2108-2115 | the state before content: consistent and empty, with the nil flag the element allows and an empty wildcard list exactly when the type has a wildcard |
| ComplexValues.NoArgumentContent | pyxb/binding/basis.py:2133-2136 | with no positional value, a non-nil simple-content instance of a class not derived from the string type raises SimpleContentAbsentError (basis.py:961-964) with nothing changed; a nil instance and every other content type are left as they are |
| ComplexValues.NoArgumentStringContentStored | pyxb/binding/basis.py:2133-2136 | a string-derived simple-content type built with no value holds exactly the value its factory built from nothing (basis.py:222-226), checked against the facets when validating, and nothing else changes |
| ComplexValues.NewInstance | pyxb/binding/basis.py:2112-2136 | an abstract type raises AbstractInstantiationError; any other type fails exactly when its no-argument content fails, with that error, and otherwise yields a new valid instance in the state that content leaves |
| ComplexValues.ComplexInstance.constructor | pyxb/binding/basis.py:2108-2115 | for a type that is not abstract: the state is InitialState, that is the nil flag as the element allows, wildcard storage as the type declares, then reset |
| ComplexValues.ComplexInstance.ResetContent | pyxb/binding/basis.py:2392-2399 | the new state is that of _resetContent |
| ComplexValues.ComplexInstance.Reset | pyxb/binding/basis.py:2414-2430 | the new state is that of reset |
| ComplexValues.ComplexInstance.SetIsNil | pyxb/binding/basis.py:174-190 | outcome and new state are those of _setIsNil |
| ComplexValues.ComplexInstance.AddContent | pyxb/binding/basis.py:2624-2636 | the new state is that of _addContent |
| ComplexValues.ComplexInstance.ResetElement | pyxb/binding/content.py:589-592 | the new state is that of ElementDeclaration.reset |
| ComplexValues.ComplexInstance.SetElement | pyxb/binding/content.py:594-603 | outcome and new state are those of ElementDeclaration.set |
| ComplexValues.ComplexInstance.AppendElement | pyxb/binding/content.py:612-623 | outcome and new state are those of ElementDeclaration.append |
| ComplexValues.ComplexInstance.SetOrAppendElement | pyxb/binding/content.py:605-610 | outcome and new state are those of setOrAppend |
| ComplexValues.ComplexInstance.SetAttributeValue | pyxb/binding/content.py:384-423 | outcome and new state are those of AttributeUse.set |
| ComplexValues.ComplexInstance.ResetAttributeValue | pyxb/binding/content.py:342-345 | only the attribute's slot changes, to its reset state |
| ComplexValues.ComplexInstance.AppendWildcardElement | pyxb/binding/basis.py:2599-2610 | outcome and new state are those of the corrected _appendWildcardElement |
| ComplexValues.ComplexInstance.Append | pyxb/binding/basis.py:2471-2597 | outcome and new state are those of append, including the storing of a value the automaton places |
| ComplexValues.ComplexInstance.AppendConverted | pyxb/binding/basis.py:2534-2597 | outcome and new state are those of append after the nil and DOM steps |
| ComplexValues.ComplexInstance.AppendByAutomaton | pyxb/binding/basis.py:2537-2551 | outcome and new state are those of the content-model branch of append |
| ComplexValues.ComplexInstance.AppendUnplaced | pyxb/binding/basis.py:2552-2597 | outcome and new state are those of append for a value no content model placed |
| ComplexValues.ComplexInstance.AppendSimpleContent | pyxb/binding/basis.py:2577-2589 | outcome and new state are those of the simple-content branch of append |
| ComplexValues.ComplexInstance.Extend | pyxb/binding/basis.py:2612-2618 | the loop of appends has the outcome and new state of extend |
| ComplexValues.ComplexInstance.SetValue | pyxb/binding/basis.py:2376-2390 | outcome and new state are those of _setValue |

## Left out

- XML and DOM processing is not modelled. This covers the DOM-node branch of `append` (pyxb/binding/basis.py:2499-2533) and the DOM branch of `AttributeUse.set` (pyxb/binding/content.py:399-412). It also covers `toDOM`, `createFromDOM` and the parsing entry points. A DOM node handed to `append` is not converted; it falls through to the later rules.
- The content automaton (`pyxb.utils.fac` and the configuration class that drives it) is not part of this model, and `_resetAutomaton` is not modelled. Its step is a parameter of `append` (`ComplexValues.Placement`): where it placed the value, or nowhere. The model stores a placed value as the accepting symbol does: through the element use's `setOrAppend` with the value its `_matches` converted, or as a wildcard element (pyxb/binding/content.py:679-685, 825-838). The choice among symbols, occurrence counting and the wildcard's namespace test are the automaton's; a placement is only required to be one its symbol accepts (`ComplexValues.ValidPlacement`), and a non-deterministic step is one placement.
- Namespace resolution is reduced to given data. A top-level element registry stands for `elementBinding()` lookups, and namespaces are plain values. NamespaceContext handling is not modelled.
- The legacy state machine of content.py (ParticleState, SequenceState, ChoiceState, AllState) is not modelled. basis.py never calls it.
- Host numerics are not modelled: floats, the decimal string comparison in `_CompatibleValue`, and int/long/bool promotion. They appear only as oracle answers (`isSubclass`, `equals`).
- The individual facet classes, concrete datatypes and whitespace normalisation are not modelled. `validateConstraint` is an oracle.
- The complex constructor's keyword and positional content arguments are left out; `NewInstance` models the abstract check, the nil flag, wildcard storage, reset and the no-argument simple-content branch. This also leaves out `_PerformValidation`, validation-config globals, logging, descriptions and name mangling.
- The two validation configurations (global and per instance) are one flag of the host, `forBinding`.
- `ComplexValues.AddContentState`: content.py calls `_addContent(value, binding)` with two arguments (pyxb/binding/content.py:602, 622). basis.py's `_addContent` takes one wrapped value (pyxb/binding/basis.py:2624). The model follows content.py's intent and records element content with its declaration; the two signatures are not reconciled.
- `ComplexValues.SetElementEffect` and `ComplexValues.AppendElementEffect`: the `_PerformValidation` test (pyxb/binding/content.py:599, 619) is a class method object and always true, so values are always converted.
- `ComplexValues.ValidateAttribute`: the assertion that a required attribute holding a value it was never given is fixed (pyxb/binding/content.py:375) is not modelled; MissingAttributeError is reported whether or not the use is fixed.
- `ComplexValues.SetAttribute`: basis.py passes a `from_xml` keyword that `set` does not take (pyxb/binding/basis.py:2278); only `set` is modelled.
- `Elements.WithElement`: `_setElement` on a value that is not a binding instance has no effect in the model.
- `ContentModel.SymbolState.ValidateWildcard`: the wildcard's `_validate` does not check the namespace constraint, as in the source, so its contract holds for every constraint.
- `ComplexValues.ComplexInstance.constructor` does not process content arguments; see above. The abstract-type refusal that precedes it and the no-argument simple-content branch that follows it are `ComplexValues.NewInstance`.
- `ComplexValues.NoArgumentContent` and `ComplexValues.NewInstance`: the no-argument `Factory` call is assumed to succeed for a nil instance and for a class not derived from the string type, so only the SimpleContentAbsentError of a non-nil instance is modelled there. A union content type counts as not derived from the string type, although its union factory would try its member types.
- `Environment.MemberTypes` gives no member types for a union class without a recorded `_MemberTypes`, where the source would fail with a TypeError on iterating None.
- `SimpleTypes.Iterate` does not iterate a binding instance of a string-derived class (a Python `str` subclass is iterable); only plain text and list values are iterated.
- `ContentModel.Matches`: an expanded name is given by the host as data (`typeNamespace`); a class without an entry stands for `_ExpandedName` being None.
- `Elements.SetSubstitutionGroup` updates an element value, not a shared object. An element that recorded this one as its group head earlier keeps the copy without the group, while in the source it sees the change. The model agrees with the source when a head gets its own group before members record it. Element identity is structural equality of element values.

## Findings

| source | as written | input that shows it | evidently intended | confidence | as-written member | corrected member |
|---|---|---|---|---|---|---|
| pyxb/binding/basis.py:2601 | `_appendWildcardElement` tests `value._element is not None`. This compares the bound method `_element` with None, so the test always holds, and every binding is recorded as a wildcard element. | A binding instance with no element (`_element()` is None) appended to a type with a wildcard. It is stored as a wildcard element instead of going to mixed content or raising MixedContentError. | Test the element (`value._element() is not None`), so only bindings that belong to an element are wildcard elements. | not executed | ComplexValues.AppendWildcardAsWritten (exhibited by ComplexValues.ElementlessBindingBecomesWildcard) | ComplexValues.AppendWildcardEffect |
