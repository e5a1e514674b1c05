/**
 * complexTypeDefinition instances (basis.py) together with the per-instance
 * storage that content.py's ElementDeclaration and AttributeUse keep in them:
 * the xsi:nil flag, the content list or simple content, element slots,
 * attribute slots (provided, value) and wildcard elements.
 *
 * Each operation is specified by a function on an InstanceState snapshot
 * (returning an Effect: the outcome and the state left behind, which on an
 * exception is whatever the source had changed before raising); the
 * ComplexInstance class carries the same state in fields and its methods
 * are proved to do what those functions say.
 */
module ComplexValues {
  import opened Values
  import opened Environment
  import SimpleTypes
  import Elements
  import CM = ContentModel

  /** _ContentTypeTag */
  datatype ContentType = EmptyContent | SimpleContent | MixedContent | ElementOnlyContent

  /** content.ElementDeclaration; its identity is its position in the type's element uses. */
  datatype ElementUse = ElementUse(isPlural: bool, binding: Element)

  /** content.AttributeUse; defaultValue is the unicode default converted by the data type (NoneValue when there is none). */
  datatype AttributeUse = AttributeUse(
    name: ExpandedName,
    dataType: ClassId,
    defaultValue: Value,
    fixed: bool,
    required: bool,
    prohibited: bool)

  /** AttributeUse(...): the default value is the unicode default converted by the data type's Factory. */
  function NewAttributeUse(h: Host, name: ExpandedName, dataType: ClassId, unicodeDefault: Option<string>,
                           fixed: bool, required: bool, prohibited: bool): (r: Result<AttributeUse>)
    requires WellFormed(h)
    ensures unicodeDefault.None? ==> r == Ok(AttributeUse(name, dataType, NoneValue, fixed, required, prohibited))
    ensures unicodeDefault.Some? ==>
              match SimpleTypes.Factory(h, dataType, [Text(unicodeDefault.value)], h.forBinding)
              case Err(e) => r == Err(e)
              case Ok(d) => r.Ok? && r.value.defaultValue == d
    ensures r.Ok? ==> r.value.name == name && r.value.dataType == dataType && r.value.fixed == fixed
                      && r.value.required == required && r.value.prohibited == prohibited
  {
    if unicodeDefault.None? then Ok(AttributeUse(name, dataType, NoneValue, fixed, required, prohibited))
    else
      match SimpleTypes.Factory(h, dataType, [Text(unicodeDefault.value)], h.forBinding)
      case Err(e) => Err(e)
      case Ok(d) => Ok(AttributeUse(name, dataType, d, fixed, required, prohibited))
  }

  /** The pair an attribute use stores in an instance. */
  datatype AttributeSlot = AttributeSlot(provided: bool, value: Value)

  /** An entry of the ordered content list: an element value with its element use, when known, or character data. */
  datatype Content = ElementContent(value: Value, decl: Option<nat>) | NonElementContent(text: string)

  /** __content: a list for mixed and element-only types; otherwise a simple value or None. */
  datatype ContentState = ContentList(items: seq<Content>) | SimpleValue(value: Value)

  /** What an instance's class says about it. */
  datatype ComplexType = ComplexType(
    contentType: ContentType,
    /** _TypeDefinition: the class of the simple content */
    typeDefinition: ClassId,
    elementUses: seq<ElementUse>,
    attributeUses: seq<AttributeUse>,
    hasWildcardElement: bool,
    hasAutomaton: bool,
    /** _Abstract */
    isAbstract: bool)

  datatype InstanceState = InstanceState(
    xsiNil: Option<bool>,
    content: ContentState,
    elements: map<nat, Value>,
    attributes: map<nat, AttributeSlot>,
    wildcardElements: Option<seq<Value>>)

  /** The outcome of an operation and the state it leaves. */
  datatype Effect = Effect(outcome: Outcome, state: InstanceState)

  predicate HasContentList(t: ComplexType)
  {
    t.contentType == MixedContent || t.contentType == ElementOnlyContent
  }

  /** Only types with element or mixed content declare elements or element wildcards. */
  predicate WellFormedType(t: ComplexType)
  {
    (|t.elementUses| > 0 || t.hasWildcardElement) ==> HasContentList(t)
  }

  /** The shape every instance keeps once constructed: a content list exactly for list types, a slot per use. */
  ghost predicate Consistent(t: ComplexType, s: InstanceState)
  {
    (s.content.ContentList? <==> HasContentList(t))
    && (s.wildcardElements.Some? <==> t.hasWildcardElement)
    && (forall i: nat :: i in s.elements <==> i < |t.elementUses|)
    && (forall i: nat :: i in s.attributes <==> i < |t.attributeUses|)
  }

  // ------------------------------------------------------------ nil

  /** The initial __xsiNil: the requested flag when there is no element or it is nillable, otherwise None (no nil support). */
  function InitialNil(element: Option<Element>, isNil: bool): (r: Option<bool>)
    ensures r.None? <==> element.Some? && !element.value.nillable
    ensures r.Some? ==> r.value == isNil
  {
    if element.None? || element.value.nillable then Some(isNil) else None
  }

  /**
   * __checkNilCtor: whether the instance counts as constructed with a value;
   * a nil instance may not be given one.
   */
  function CheckNilCtor(xsiNil: Option<bool>, args: seq<Value>, isStringType: bool): (r: Result<bool>)
    ensures r.Err? <==> xsiNil == Some(true) && |args| > 0
    ensures r.Err? ==> r.error == ContentInNilInstanceError
    ensures r.Ok? && |args| > 0 ==> r.value
    ensures r.Ok? && xsiNil == Some(true) ==> !r.value
  {
    if xsiNil == Some(true) then
      if |args| > 0 then Err(ContentInNilInstanceError) else Ok(false)
    else Ok(|args| > 0 || isStringType)
  }

  /** _setIsNil: refused without nil support; setting nil also removes all content and element values, not attributes. */
  function SetIsNilEffect(t: ComplexType, s: InstanceState, nil: bool): (r: Effect)
    ensures s.xsiNil.None? ==> r == Effect(Fail(NoNillableSupportError), s)
    ensures s.xsiNil.Some? ==> r.outcome == Pass && r.state.xsiNil == Some(nil)
    ensures r.state.attributes == s.attributes && r.state.wildcardElements == s.wildcardElements
    ensures s.xsiNil.Some? && nil ==> Empty(t, r.state)
    ensures s.xsiNil.Some? && !nil ==> r.state == s.(xsiNil := Some(false))
    ensures Consistent(t, s) ==> Consistent(t, r.state)
  {
    if s.xsiNil.None? then Effect(Fail(NoNillableSupportError), s)
    else
      var s' := s.(xsiNil := Some(nil));
      if nil then Effect(Pass, ResetContentState(t, s', true)) else Effect(Pass, s')
  }

  /** No recorded content and every element at its default. */
  predicate Empty(t: ComplexType, s: InstanceState)
  {
    (s.content == ContentList([]) || s.content == SimpleValue(NoneValue))
    && forall i | 0 <= i < |t.elementUses| :: i in s.elements && s.elements[i] == DefaultValue(t.elementUses[i])
  }

  // ------------------------------------------------------------ reset

  /** ElementDeclaration.defaultValue: an empty list for a plural use, None otherwise. */
  function DefaultValue(u: ElementUse): (r: Value)
    ensures u.isPlural <==> r.Items?
    ensures r.Items? ==> r.items == []
  {
    if u.isPlural then Items(LIST, []) else NoneValue
  }

  function DefaultElements(us: seq<ElementUse>): (r: map<nat, Value>)
    ensures forall i: nat :: i in r <==> i < |us|
    ensures forall i | 0 <= i < |us| :: r[i] == DefaultValue(us[i])
  {
    map i: nat | i < |us| :: DefaultValue(us[i])
  }

  /** AttributeUse.reset: the default value, marked as not provided. */
  function ResetAttribute(u: AttributeUse): (r: AttributeSlot)
    ensures !r.provided && r.value == u.defaultValue
  {
    AttributeSlot(false, u.defaultValue)
  }

  function DefaultAttributes(us: seq<AttributeUse>): (r: map<nat, AttributeSlot>)
    ensures forall i: nat :: i in r <==> i < |us|
    ensures forall i | 0 <= i < |us| :: r[i] == ResetAttribute(us[i])
  {
    map i: nat | i < |us| :: ResetAttribute(us[i])
  }

  /** _resetContent: an empty list for mixed and element-only types, None otherwise; optionally every element to its default. */
  function ResetContentState(t: ComplexType, s: InstanceState, resetElements: bool): (r: InstanceState)
    ensures r.content == if HasContentList(t) then ContentList([]) else SimpleValue(NoneValue)
    ensures resetElements ==> Empty(t, r)
    ensures !resetElements ==> r.elements == s.elements
    ensures r.xsiNil == s.xsiNil && r.attributes == s.attributes && r.wildcardElements == s.wildcardElements
  {
    var content := if HasContentList(t) then ContentList([]) else SimpleValue(NoneValue);
    s.(content := content, elements := if resetElements then DefaultElements(t.elementUses) else s.elements)
  }

  /**
   * reset: content and elements as _resetContent(True) leaves them, every
   * attribute to (False, default); the wildcard elements are kept.
   */
  function ResetState(t: ComplexType, s: InstanceState): (r: InstanceState)
    ensures Empty(t, r)
    ensures forall i | 0 <= i < |t.attributeUses| :: i in r.attributes && !r.attributes[i].provided
                                                      && r.attributes[i].value == t.attributeUses[i].defaultValue
    ensures r.wildcardElements == s.wildcardElements && r.xsiNil == s.xsiNil
    ensures (s.wildcardElements.Some? <==> t.hasWildcardElement) ==> Consistent(t, r)
  {
    ResetContentState(t, s, true).(attributes := DefaultAttributes(t.attributeUses))
  }

  /** The state __init__ reaches before any content: the nil flag the element allows, wildcard storage, then reset. */
  function InitialState(t: ComplexType, element: Option<Element>, isNil: bool): (r: InstanceState)
    ensures Consistent(t, r) && Empty(t, r)
    ensures r.xsiNil == InitialNil(element, isNil)
    ensures r.wildcardElements == if t.hasWildcardElement then Some([]) else None
  {
    ResetState(t, InstanceState(InitialNil(element, isNil), SimpleValue(NoneValue), map[], map[],
                                if t.hasWildcardElement then Some([]) else None))
  }

  // ------------------------------------------------------------ element uses

  /** ElementDeclaration.value: the stored value, or the default when nothing was stored. */
  function ElementValue(t: ComplexType, s: InstanceState, i: nat): Value
    requires i < |t.elementUses|
  {
    if i in s.elements then s.elements[i] else DefaultValue(t.elementUses[i])
  }

  /** six.text_type(value), which NonElementContent stores: a string is kept as it is. */
  function TextOf(h: Host, v: Value): (r: string)
    ensures v.Text? ==> r == v.text
  {
    if v.Text? then v.text else h.text(v)
  }

  /** _addContent's association of an element-less binding with the declaration's element. */
  function Adopted(h: Host, v: Value, e: Element): (r: Value)
    ensures IsInstance(h, v, TYPE_BINDING) && v.Instance? && v.element.None? ==> ElementOf(r) == Some(e)
    ensures ElementOf(v).Some? ==> r == v
    ensures TypeOf(r) == TypeOf(v)
  {
    if IsInstance(h, v, TYPE_BINDING) && ElementOf(v).None? then Elements.WithElement(v, e) else v
  }

  function AdoptedContent(h: Host, t: ComplexType, c: Content): Content
  {
    if c.ElementContent? && c.decl.Some? && c.decl.value < |t.elementUses|
    then ElementContent(Adopted(h, c.value, t.elementUses[c.decl.value].binding), c.decl)
    else c
  }

  /** _addContent: appends to the content list, associating element content with its declaration's element. */
  function AddContentState(h: Host, t: ComplexType, s: InstanceState, c: Content): (r: InstanceState)
    requires s.content.ContentList?
    ensures r.content.ContentList? && |r.content.items| == |s.content.items| + 1
    ensures r.content.items[..|s.content.items|] == s.content.items
    ensures r == s.(content := r.content)
  {
    s.(content := ContentList(s.content.items + [AdoptedContent(h, t, c)]))
  }

  /** ElementDeclaration.reset */
  function ResetElementState(t: ComplexType, s: InstanceState, i: nat): (r: InstanceState)
    requires i < |t.elementUses|
    ensures ElementValue(t, r, i) == DefaultValue(t.elementUses[i])
    ensures forall j | j != i :: (j in r.elements <==> j in s.elements) && (j in s.elements ==> r.elements[j] == s.elements[j])
  {
    s.(elements := s.elements[i := DefaultValue(t.elementUses[i])])
  }

  /**
   * ElementDeclaration.set: None resets the use; anything else goes through
   * the element's compatibleValue (plural or not) and is stored and recorded
   * as element content.
   */
  function SetElementEffect(h: Host, g: Elements.GlobalElements, t: ComplexType, s: InstanceState, i: nat, v: Value): (r: Effect)
    requires WellFormed(h) && Consistent(t, s) && WellFormedType(t) && i < |t.elementUses|
    ensures v == NoneValue ==> r == Effect(Pass, ResetElementState(t, s, i))
    ensures v != NoneValue ==>
              var u := t.elementUses[i];
              match Elements.CompatibleValue(h, g, u.binding, v, u.isPlural, true)
              case Err(e) => r == Effect(Fail(e), s)
              case Ok(w) => r.outcome == Pass && ElementValue(t, r.state, i) == Adopted(h, w, u.binding)
                            && s.content.ContentList? && r.state.content.ContentList?
                            && r.state.content.items == s.content.items + [ElementContent(Adopted(h, w, u.binding), Some(i))]
    ensures Consistent(t, r.state)
  {
    var u := t.elementUses[i];
    if v == NoneValue then Effect(Pass, ResetElementState(t, s, i))
    else
      match Elements.CompatibleValue(h, g, u.binding, v, u.isPlural, true)
      case Err(e) => Effect(Fail(e), s)
      case Ok(w) =>
        var stored := s.(elements := s.elements[i := Adopted(h, w, u.binding)]);
        Effect(Pass, AddContentState(h, t, stored, ElementContent(w, Some(i))))
  }

  /**
   * ElementDeclaration.append: only for plural uses; the converted value is
   * added to the end of the stored list and recorded as element content.
   */
  function AppendElementEffect(h: Host, g: Elements.GlobalElements, t: ComplexType, s: InstanceState, i: nat, v: Value): (r: Effect)
    requires WellFormed(h) && Consistent(t, s) && WellFormedType(t) && i < |t.elementUses|
    ensures !t.elementUses[i].isPlural ==> r == Effect(Fail(StructuralBadDocumentError), s)
    ensures r.outcome.Pass? ==>
              var u := t.elementUses[i];
              var cv := Elements.CompatibleValue(h, g, u.binding, v, false, true);
              var before := ElementValue(t, s, i);
              var after := ElementValue(t, r.state, i);
              cv.Ok? && before.Items? && after.Items? && after.items == before.items + [Adopted(h, cv.value, u.binding)]
              && s.content.ContentList? && r.state.content.ContentList?
              && r.state.content.items == s.content.items + [ElementContent(Adopted(h, cv.value, u.binding), Some(i))]
    ensures r.outcome.Fail? ==> r.state == s
    ensures Consistent(t, r.state)
  {
    var u := t.elementUses[i];
    if !u.isPlural then Effect(Fail(StructuralBadDocumentError), s)
    else
      var values := ElementValue(t, s, i);
      match Elements.CompatibleValue(h, g, u.binding, v, false, true)
      case Err(e) => Effect(Fail(e), s)
      case Ok(w) =>
        if !values.Items? then Effect(Fail(HostAttributeError), s)
        else
          var stored := s.(elements := s.elements[i := Items(values.cls, values.items + [Adopted(h, w, u.binding)])]);
          Effect(Pass, AddContentState(h, t, stored, ElementContent(w, Some(i))))
  }

  /** ElementDeclaration.setOrAppend: append for plural uses, set otherwise. */
  function SetOrAppendEffect(h: Host, g: Elements.GlobalElements, t: ComplexType, s: InstanceState, i: nat, v: Value): (r: Effect)
    requires WellFormed(h) && Consistent(t, s) && WellFormedType(t) && i < |t.elementUses|
    ensures Consistent(t, r.state)
    ensures r.outcome.Pass? && v != NoneValue ==>
              s.content.ContentList? && r.state.content.ContentList?
              && |r.state.content.items| == |s.content.items| + 1
              && r.state.content.items[..|s.content.items|] == s.content.items
              && r.state.content.items[|s.content.items|].ElementContent?
              && r.state.content.items[|s.content.items|].decl == Some(i)
  {
    if t.elementUses[i].isPlural then AppendElementEffect(h, g, t, s, i, v) else SetElementEffect(h, g, t, s, i, v)
  }

  /**
   * ElementDeclaration._matches: an explicit declaration matches only if it
   * is this one; a DOM node never matches; otherwise the value must convert
   * without string conversion, and a BadTypeValueError means no match.
   */
  function ElementMatches(h: Host, g: Elements.GlobalElements, t: ComplexType, i: nat, v: Value, elementDecl: Option<nat>): (r: Result<(bool, Value)>)
    requires WellFormed(h) && i < |t.elementUses|
    ensures elementDecl.Some? ==> r == Ok((elementDecl.value == i, v))
    ensures elementDecl.None? && v.Node? ==> r == Ok((false, v))
    ensures r.Ok? && r.value.0 && elementDecl.None? ==>
              Elements.CompatibleValue(h, g, t.elementUses[i].binding, v, false, false) == Ok(r.value.1)
    ensures r.Err? ==> !IsSimpleTypeValueError(r.error)
  {
    if elementDecl.Some? then Ok((elementDecl.value == i, v))
    else if v.Node? then Ok((false, v))
    else
      match Elements.CompatibleValue(h, g, t.elementUses[i].binding, v, false, false)
      case Ok(w) => Ok((true, w))
      case Err(e) => if IsSimpleTypeValueError(e) then Ok((false, v)) else Err(e)
  }

  // ------------------------------------------------------------ attribute uses

  /** The (provided, value) pair stored for an attribute use; (False, None) when none was stored. */
  function AttributeSlotOf(s: InstanceState, i: nat): AttributeSlot
  {
    if i in s.attributes then s.attributes[i] else AttributeSlot(false, NoneValue)
  }

  /** Python's != between a new value and a default, where None equals only None. */
  predicate Same(h: Host, a: Value, b: Value)
  {
    if a == NoneValue || b == NoneValue then a == b else h.equals(a, b)
  }

  /**
   * AttributeUse.set for a value that is not a DOM node: None clears the
   * attribute (refused when it is required); a provided value is refused on a
   * prohibited attribute, converted by the data type, and on a fixed
   * attribute must equal the default.
   */
  function SetAttribute(h: Host, u: AttributeUse, v: Value): (r: Result<AttributeSlot>)
    requires WellFormed(h)
    ensures v == NoneValue && u.required ==> r == Err(MissingAttributeError)
    ensures v != NoneValue && u.prohibited ==> r == Err(ProhibitedAttributeError)
    ensures r.Ok? ==> (r.value.provided <==> v != NoneValue)
    ensures r.Ok? && u.fixed ==> Same(h, r.value.value, u.defaultValue)
    ensures r.Ok? && v != NoneValue && IsInstance(h, v, u.dataType) ==> r.value.value == v
    ensures r.Ok? && v == NoneValue ==> r.value.value == NoneValue
  {
    if v == NoneValue && u.required then Err(MissingAttributeError)
    else if v != NoneValue && u.prohibited then Err(ProhibitedAttributeError)
    else
      var converted := if v != NoneValue && !IsInstance(h, v, u.dataType)
                       then SimpleTypes.Factory(h, u.dataType, [v], h.forBinding) else Ok(v);
      match converted
      case Err(e) => Err(e)
      case Ok(w) =>
        if u.fixed && !Same(h, w, u.defaultValue) then Err(AttributeChangeError)
        else Ok(AttributeSlot(v != NoneValue, w))
  }

  /** AttributeUse.set on an instance: the slot is written only when set succeeds. */
  function SetAttributeEffect(h: Host, t: ComplexType, s: InstanceState, i: nat, v: Value): (r: Effect)
    requires WellFormed(h) && Consistent(t, s) && i < |t.attributeUses|
    ensures Consistent(t, r.state)
    ensures r.outcome.Fail? ==> r.state == s
    ensures r.outcome.Pass? ==> SetAttribute(h, t.attributeUses[i], v).Ok?
                                && r.state == s.(attributes := s.attributes[i := SetAttribute(h, t.attributeUses[i], v).value])
  {
    match SetAttribute(h, t.attributeUses[i], v)
    case Err(e) => Effect(Fail(e), s)
    case Ok(slot) => Effect(Pass, s.(attributes := s.attributes[i := slot]))
  }

  /**
   * AttributeUse.validate: a present value is refused on a prohibited
   * attribute, refused on a required one that was never provided, and must be
   * a valid value meeting the data type's facets; an absent value is refused
   * only on a required attribute.
   */
  function ValidateAttribute(h: Host, u: AttributeUse, slot: AttributeSlot): (r: Outcome)
    requires WellFormed(h)
    ensures slot.value != NoneValue && u.prohibited ==> r == Fail(ProhibitedAttributeError)
    ensures slot.value != NoneValue && !u.prohibited && u.required && !slot.provided ==> r == Fail(MissingAttributeError)
    ensures slot.value == NoneValue ==> r == if u.required then Fail(MissingAttributeError) else Pass
    ensures r == Pass && slot.value != NoneValue ==>
              SimpleTypes.IsValidValue(h, u.dataType, slot.value) == Ok(true)
              && ConstraintsOK(h, u.dataType, slot.value).Ok?
  {
    if slot.value != NoneValue then
      if u.prohibited then Fail(ProhibitedAttributeError)
      else if u.required && !slot.provided then Fail(MissingAttributeError)
      else
        match SimpleTypes.IsValidValue(h, u.dataType, slot.value)
        case Err(e) => Fail(e)
        case Ok(valid) =>
          if !valid then Fail(BindingValidationError)
          else SimpleTypes.OutcomeOf(ConstraintsOK(h, u.dataType, slot.value))
    else if u.required then Fail(MissingAttributeError)
    else Pass
  }

  /** What set stores passes validate's presence rules: never prohibited, never missing once a value is stored. */
  lemma SetAttributeThenValidate(h: Host, u: AttributeUse, v: Value)
    requires WellFormed(h) && SetAttribute(h, u, v).Ok?
    ensures var slot := SetAttribute(h, u, v).value;
            ValidateAttribute(h, u, slot) != Fail(ProhibitedAttributeError)
            && (slot.value != NoneValue ==> ValidateAttribute(h, u, slot) != Fail(MissingAttributeError))
  {
  }

  /** A required attribute left at its reset state fails validation as missing. */
  lemma ResetRequiredAttributeIsMissing(h: Host, u: AttributeUse)
    requires WellFormed(h) && u.required && !u.prohibited
    ensures ValidateAttribute(h, u, ResetAttribute(u)) == Fail(MissingAttributeError)
  {
  }

  // ------------------------------------------------------------ wildcard elements

  /** What _appendWildcardElement should take as an element: a DOM node or a binding associated with an element. */
  predicate IsElementLike(h: Host, v: Value)
  {
    v.Node? || (IsInstance(h, v, TYPE_BINDING) && ElementOf(v).Some?)
  }

  /**
   * _appendWildcardElement as written: its test compares the bound method
   * _element with None, so every binding instance passes.
   */
  function AppendWildcardAsWritten(h: Host, t: ComplexType, s: InstanceState, v: Value): (r: Effect)
    requires s.wildcardElements.Some? && s.content.ContentList?
    ensures IsInstance(h, v, TYPE_BINDING) ==> r.outcome == Pass && r.state.wildcardElements == Some(s.wildcardElements.value + [v])
  {
    if v.Node? || IsInstance(h, v, TYPE_BINDING) then
      Effect(Pass, AddContentState(h, t, s, ElementContent(v, None)).(wildcardElements := Some(s.wildcardElements.value + [v])))
    else if t.contentType == MixedContent then Effect(Pass, AddContentState(h, t, s, NonElementContent(TextOf(h, v))))
    else Effect(Fail(MixedContentError), s)
  }

  /** A binding that belongs to no element is recorded as a wildcard element by the code as written. */
  lemma ElementlessBindingBecomesWildcard(h: Host, t: ComplexType, s: InstanceState, c: ClassId, d: int)
    requires s.wildcardElements.Some? && s.content.ContentList?
    requires h.isSubclass(c, TYPE_BINDING)
    ensures !IsElementLike(h, Instance(c, d, None))
    ensures var r := AppendWildcardAsWritten(h, t, s, Instance(c, d, None));
            r.outcome == Pass && !WildcardsAreElements(h, r.state)
  {
    var v := Instance(c, d, None);
    var r := AppendWildcardAsWritten(h, t, s, v);
    assert r.state.wildcardElements.value[|s.wildcardElements.value|] == v;
  }

  /** Every recorded wildcard element is element-like. */
  ghost predicate WildcardsAreElements(h: Host, s: InstanceState)
  {
    s.wildcardElements.Some? ==> forall j | 0 <= j < |s.wildcardElements.value| :: IsElementLike(h, s.wildcardElements.value[j])
  }

  /**
   * _appendWildcardElement with the element test it intends (value._element()
   * is not None): element-like values become wildcard elements; anything else
   * is mixed content or refused.
   */
  function AppendWildcardEffect(h: Host, t: ComplexType, s: InstanceState, v: Value): (r: Effect)
    requires s.wildcardElements.Some? && s.content.ContentList?
    ensures IsElementLike(h, v) ==> r.outcome == Pass && r.state.wildcardElements == Some(s.wildcardElements.value + [v])
    ensures !IsElementLike(h, v) ==> r.state.wildcardElements == s.wildcardElements
    ensures !IsElementLike(h, v) && t.contentType != MixedContent ==> r == Effect(Fail(MixedContentError), s)
    ensures WildcardsAreElements(h, s) ==> WildcardsAreElements(h, r.state)
    ensures Consistent(t, s) ==> Consistent(t, r.state)
  {
    if IsElementLike(h, v) then
      Effect(Pass, AddContentState(h, t, s, ElementContent(v, None)).(wildcardElements := Some(s.wildcardElements.value + [v])))
    else if t.contentType == MixedContent then Effect(Pass, AddContentState(h, t, s, NonElementContent(TextOf(h, v))))
    else Effect(Fail(MixedContentError), s)
  }

  // ------------------------------------------------------------ append and extend

  /** Values append treats as element content. */
  predicate IsElementContent(h: Host, t: ComplexType, v: Value, decl: Option<nat>)
  {
    decl.Some? || v.Node? || IsInstance(h, v, COMPLEX_TYPE_DEFINITION) || IsInstance(h, v, BIND)
    || (IsInstance(h, v, SIMPLE_TYPE_DEFINITION) && !(t.contentType == SimpleContent || t.contentType == MixedContent))
  }

  /** xsdConstraintsOK of a complex instance: only for simple content; nil passes; absent content is refused. */
  function ContentConstraints(h: Host, t: ComplexType, s: InstanceState): (r: Outcome)
    requires WellFormed(h)
    ensures t.contentType != SimpleContent ==> r == Fail(NotSimpleContentError)
    ensures t.contentType == SimpleContent && s.xsiNil != Some(true) && s.content == SimpleValue(NoneValue) ==> r == Fail(SimpleContentAbsentError)
  {
    if t.contentType != SimpleContent then Fail(NotSimpleContentError)
    else if s.xsiNil == Some(true) then Pass
    else if s.content == SimpleValue(NoneValue) || s.content.ContentList? then Fail(SimpleContentAbsentError)
    else SimpleTypes.OutcomeOf(ConstraintsOK(h, TypeOf(s.content.value), s.content.value))
  }

  /**
   * Where the content-model automaton's step placed a value: nowhere (it
   * returned 0), in the element use it accepted (ElementDeclaration.accepts),
   * or in the wildcard list (Wildcard.accepts).
   */
  datatype Placement = Unplaced | PlacedElement(use: nat) | PlacedWildcard

  /**
   * A placement the automaton can report: an element use accepts only a value
   * its _matches accepts, and a wildcard is accepted only by a type that keeps
   * a wildcard list.
   */
  predicate ValidPlacement(h: Host, g: Elements.GlobalElements, t: ComplexType, v: Value, decl: Option<nat>, p: Placement)
    requires WellFormed(h)
  {
    match p
    case Unplaced => true
    case PlacedElement(i) =>
      i < |t.elementUses| && var m := ElementMatches(h, g, t, i, v, decl); m.Ok? && m.value.0
    case PlacedWildcard => t.hasWildcardElement
  }

  /**
   * append(value, _element_decl=decl, _maybe_element=maybeElement,
   * _require_validation=requireValidation).  placement is where the
   * content-model automaton's step put the value.
   */
  function AppendEffect(h: Host, g: Elements.GlobalElements, t: ComplexType, s: InstanceState, v: Value,
                        decl: Option<nat>, maybeElement: bool, requireValidation: bool, placement: Placement): (r: Effect)
    requires WellFormed(h) && Consistent(t, s) && WellFormedType(t)
    requires decl.Some? ==> decl.value < |t.elementUses|
    requires ValidPlacement(h, g, t, v, decl, placement)
    ensures s.xsiNil == Some(true) ==> r == Effect(Fail(ContentInNilInstanceError), s)
    ensures Consistent(t, r.state)
  {
    if s.xsiNil == Some(true) then Effect(Fail(ContentInNilInstanceError), s)
    else if v.Node? && v.kind == CommentNode then Effect(Pass, s)
    else if v.Node? && (v.kind == TextNode || v.kind == CDataNode) then
      AppendValue(h, g, t, s, Text(v.data), decl, false, h.forBinding, Unplaced)
    else if v.Node? then AppendValue(h, g, t, s, v, decl, maybeElement, h.forBinding, placement)
    else AppendValue(h, g, t, s, v, decl, maybeElement, requireValidation, placement)
  }

  /** append after the nil check and the DOM-node conversions. */
  function AppendValue(h: Host, g: Elements.GlobalElements, t: ComplexType, s: InstanceState, v: Value,
                       decl: Option<nat>, maybeElement: bool, requireValidation: bool, placement: Placement): (r: Effect)
    requires WellFormed(h) && Consistent(t, s) && WellFormedType(t) && s.xsiNil != Some(true)
    requires decl.Some? ==> decl.value < |t.elementUses|
    requires ValidPlacement(h, g, t, v, decl, placement)
    ensures !maybeElement && v.Text? && (t.contentType == EmptyContent || t.contentType == ElementOnlyContent) && IsBlank(v.text)
            ==> r == Effect(Pass, s)
    ensures maybeElement && t.hasAutomaton && placement.PlacedElement? && (requireValidation || decl.Some?) ==>
              r == SetOrAppendEffect(h, g, t, s, placement.use, ElementMatches(h, g, t, placement.use, v, decl).value.1)
    ensures maybeElement && t.hasAutomaton && placement.PlacedWildcard? && (requireValidation || decl.None?) ==>
              r == AppendWildcardEffect(h, t, s, v)
    ensures Consistent(t, r.state)
  {
    if !maybeElement && v.Text? && (t.contentType == EmptyContent || t.contentType == ElementOnlyContent) && IsBlank(v.text) then
      Effect(Pass, s)
    else if maybeElement && t.hasAutomaton && (!requireValidation || !placement.Unplaced?) then
      AutomatonEffect(h, g, t, s, v, decl, requireValidation, placement)
    else UnplacedEffect(h, t, s, v, decl, requireValidation)
  }

  /**
   * The branch of append for element content of a type with a content
   * model: without validation the declared element or the wildcard list
   * takes the value; with it, the symbol the automaton placed it in does.
   */
  function AutomatonEffect(h: Host, g: Elements.GlobalElements, t: ComplexType, s: InstanceState, v: Value,
                           decl: Option<nat>, requireValidation: bool, placement: Placement): (r: Effect)
    requires WellFormed(h) && Consistent(t, s) && WellFormedType(t)
    requires decl.Some? ==> decl.value < |t.elementUses|
    requires ValidPlacement(h, g, t, v, decl, placement) && (requireValidation ==> !placement.Unplaced?)
    ensures Consistent(t, r.state)
  {
    if !requireValidation then
      if decl.Some? then SetOrAppendEffect(h, g, t, s, decl.value, v)
      else if s.wildcardElements.Some? then AppendWildcardEffect(h, t, s, v)
      else Effect(Fail(StructuralBadDocumentError), s)
    else if placement.PlacedElement? then
      SetOrAppendEffect(h, g, t, s, placement.use, ElementMatches(h, g, t, placement.use, v, decl).value.1)
    else AppendWildcardEffect(h, t, s, v)
  }

  /** The branch of append for a value no content model placed: element content is refused, anything else is simple or mixed content. */
  function UnplacedEffect(h: Host, t: ComplexType, s: InstanceState, v: Value, decl: Option<nat>, requireValidation: bool): (r: Effect)
    requires WellFormed(h) && Consistent(t, s) && WellFormedType(t) && s.xsiNil != Some(true)
    ensures Consistent(t, r.state)
  {
    if IsElementContent(h, t, v, decl) then
      Effect(Fail(if t.hasAutomaton then UnrecognizedContentError else NonElementValidationError), s)
    else if t.contentType == SimpleContent then AppendSimple(h, t, s, v, requireValidation)
    else if t.contentType != MixedContent then Effect(Fail(MixedContentError), s)
    else Effect(Pass, AddContentState(h, t, s, NonElementContent(TextOf(h, v))))
  }

  /**
   * The simple-content branch of append: only once; the value is converted by
   * the content type, stored, and then (when validating) checked against its
   * facets, so a facet failure leaves the value stored.
   */
  function AppendSimple(h: Host, t: ComplexType, s: InstanceState, v: Value, requireValidation: bool): (r: Effect)
    requires WellFormed(h) && Consistent(t, s) && t.contentType == SimpleContent && s.xsiNil != Some(true)
    ensures s.content != SimpleValue(NoneValue) ==> r == Effect(Fail(ExtraSimpleContentError), s)
    ensures r.outcome == Pass ==> r.state == s.(content := r.state.content) && r.state.content.SimpleValue?
    ensures Consistent(t, r.state)
  {
    if s.content != SimpleValue(NoneValue) then Effect(Fail(ExtraSimpleContentError), s)
    else
      var converted := if IsInstance(h, v, t.typeDefinition) then Ok(v) else SimpleTypes.Factory(h, t.typeDefinition, [v], h.forBinding);
      match converted
      case Err(e) => Effect(Fail(e), s)
      case Ok(w) =>
        var s' := s.(content := SimpleValue(w));
        if requireValidation then Effect(ContentConstraints(h, t, s'), s') else Effect(Pass, s')
  }

  /** Once simple content is set, appending further character content is refused. */
  lemma SecondSimpleContentRefused(h: Host, g: Elements.GlobalElements, t: ComplexType, s: InstanceState,
                                   v: Value, requireValidation: bool, w: Value)
    requires WellFormed(h) && Consistent(t, s) && WellFormedType(t) && t.contentType == SimpleContent
    requires s.xsiNil != Some(true) && !t.hasAutomaton
    requires AppendEffect(h, g, t, s, v, None, false, requireValidation, Unplaced).outcome == Pass
    requires !v.Node? && !IsElementContent(h, t, v, None) && !IsElementContent(h, t, w, None) && !w.Node?
    requires AppendEffect(h, g, t, s, v, None, false, requireValidation, Unplaced).state.content != SimpleValue(NoneValue)
    ensures var s1 := AppendEffect(h, g, t, s, v, None, false, requireValidation, Unplaced).state;
            AppendEffect(h, g, t, s1, w, None, false, requireValidation, Unplaced) == Effect(Fail(ExtraSimpleContentError), s1)
  {
    var s1 := AppendEffect(h, g, t, s, v, None, false, requireValidation, Unplaced).state;
    assert s1.xsiNil == s.xsiNil;
  }

  /** Character content on a type that is neither mixed nor simple is refused, unless it is blank and the type is element-only or empty. */
  lemma TextOnlyInMixedContent(h: Host, g: Elements.GlobalElements, t: ComplexType, s: InstanceState, text: string)
    requires WellFormed(h) && Consistent(t, s) && WellFormedType(t) && s.xsiNil != Some(true)
    requires t.contentType == EmptyContent || t.contentType == ElementOnlyContent
    requires !h.isSubclass(UNICODE, COMPLEX_TYPE_DEFINITION) && !h.isSubclass(UNICODE, BIND) && !h.isSubclass(UNICODE, SIMPLE_TYPE_DEFINITION)
    ensures AppendEffect(h, g, t, s, Text(text), None, false, true, Unplaced) ==
            if IsBlank(text) then Effect(Pass, s) else Effect(Fail(MixedContentError), s)
  {
  }

  /** On a mixed type, character content is recorded, in order, as non-element content. */
  lemma MixedTextRecorded(h: Host, g: Elements.GlobalElements, t: ComplexType, s: InstanceState, text: string)
    requires WellFormed(h) && Consistent(t, s) && WellFormedType(t) && s.xsiNil != Some(true)
    requires t.contentType == MixedContent
    requires !h.isSubclass(UNICODE, COMPLEX_TYPE_DEFINITION) && !h.isSubclass(UNICODE, BIND)
    ensures var r := AppendEffect(h, g, t, s, Text(text), None, false, true, Unplaced);
            r.outcome == Pass && r.state == s.(content := ContentList(s.content.items + [NonElementContent(text)]))
  {
  }

  /** One valid placement per value appended by extend (no element declaration). */
  predicate ValidPlacements(h: Host, g: Elements.GlobalElements, t: ComplexType, vs: seq<Value>, placements: seq<Placement>)
    requires WellFormed(h)
  {
    |placements| == |vs| && forall k :: 0 <= k < |vs| ==> ValidPlacement(h, g, t, vs[k], None, placements[k])
  }

  /** extend: append each value in order (no element declaration, default keywords); the first failure stops it and nothing is undone. */
  function ExtendEffect(h: Host, g: Elements.GlobalElements, t: ComplexType, s: InstanceState, vs: seq<Value>, placements: seq<Placement>): (r: Effect)
    requires WellFormed(h) && Consistent(t, s) && WellFormedType(t) && ValidPlacements(h, g, t, vs, placements)
    ensures Consistent(t, r.state)
    ensures |vs| == 0 ==> r == Effect(Pass, s)
    decreases |vs|
  {
    if |vs| == 0 then Effect(Pass, s)
    else
      var first := AppendEffect(h, g, t, s, vs[0], None, true, h.forBinding, placements[0]);
      if first.outcome.Fail? then first
      else ExtendEffect(h, g, t, first.state, vs[1..], placements[1..])
  }

  /** Extending by two lists is extending by the first, then (if it passed) by the second. */
  lemma {:induction false} ExtendConcatenates(h: Host, g: Elements.GlobalElements, t: ComplexType, s: InstanceState,
                                              vs: seq<Value>, placements: seq<Placement>, ws: seq<Value>, wplacements: seq<Placement>)
    requires WellFormed(h) && Consistent(t, s) && WellFormedType(t) && ValidPlacements(h, g, t, vs, placements) && ValidPlacements(h, g, t, ws, wplacements)
    ensures var first := ExtendEffect(h, g, t, s, vs, placements);
            ExtendEffect(h, g, t, s, vs + ws, placements + wplacements)
            == if first.outcome.Fail? then first else ExtendEffect(h, g, t, first.state, ws, wplacements)
    decreases |vs|
  {
    if |vs| > 0 {
      assert (vs + ws)[0] == vs[0] && (placements + wplacements)[0] == placements[0];
      assert (vs + ws)[1..] == vs[1..] + ws && (placements + wplacements)[1..] == placements[1..] + wplacements;
      var first := AppendEffect(h, g, t, s, vs[0], None, true, h.forBinding, placements[0]);
      if first.outcome.Pass? {
        ExtendConcatenates(h, g, t, first.state, vs[1..], placements[1..], ws, wplacements);
      }
    } else {
      assert vs + ws == ws && placements + wplacements == wplacements;
    }
  }

  /** A nil instance refuses extend with the first value, and nothing changes. */
  lemma ExtendNilInstance(h: Host, g: Elements.GlobalElements, t: ComplexType, s: InstanceState, vs: seq<Value>, placements: seq<Placement>)
    requires WellFormed(h) && Consistent(t, s) && WellFormedType(t) && ValidPlacements(h, g, t, vs, placements) && |vs| > 0
    requires s.xsiNil == Some(true)
    ensures ExtendEffect(h, g, t, s, vs, placements) == Effect(Fail(ContentInNilInstanceError), s)
  {
  }

  /**
   * __init__ with no positional values on a simple-content type:
   * _TypeDefinition.Factory(_require_value=not nil, _nil=nil) and, when that
   * value counts as given, append.  A nil instance is left empty; a class
   * derived from the string type counts as given (the empty string) and is
   * appended; any other class raises SimpleContentAbsentError.  Other types
   * are left as they are.
   */
  function NoArgumentContent(h: Host, g: Elements.GlobalElements, t: ComplexType, s: InstanceState): (r: Effect)
    requires WellFormed(h) && Consistent(t, s) && WellFormedType(t)
    ensures t.contentType != SimpleContent || s.xsiNil == Some(true) ==> r == Effect(Pass, s)
    ensures t.contentType == SimpleContent && s.xsiNil != Some(true) && !h.isSubclass(t.typeDefinition, UNICODE)
            ==> r == Effect(Fail(SimpleContentAbsentError), s)
    ensures Consistent(t, r.state)
  {
    if t.contentType != SimpleContent || s.xsiNil == Some(true) then Effect(Pass, s)
    else if !h.isSubclass(t.typeDefinition, UNICODE) then Effect(Fail(SimpleContentAbsentError), s)
    else
      match SimpleTypes.Factory(h, t.typeDefinition, [], h.forBinding)
      case Err(e) => Effect(Fail(e), s)
      case Ok(w) => AppendEffect(h, g, t, s, w, None, true, h.forBinding, Unplaced)
  }

  /**
   * A string-derived simple-content type built with no value holds what its
   * factory built from nothing, checked against the facets when validating;
   * nothing else changes.
   */
  lemma NoArgumentStringContentStored(h: Host, g: Elements.GlobalElements, t: ComplexType, s: InstanceState, w: Value)
    requires WellFormed(h) && Sound(h) && Consistent(t, s) && WellFormedType(t)
    requires t.contentType == SimpleContent && !t.hasAutomaton && !IsUnion(h, t.typeDefinition)
    requires s.xsiNil != Some(true) && s.content == SimpleValue(NoneValue)
    requires h.isSubclass(t.typeDefinition, UNICODE)
    requires h.factory(t.typeDefinition, [], h.forBinding) == Ok(w) && !IsElementContent(h, t, w, None)
    ensures var r := NoArgumentContent(h, g, t, s);
            r.state == s.(content := SimpleValue(w))
            && r.outcome == (if h.forBinding then ContentConstraints(h, t, r.state) else Pass)
  {
    assert IsInstance(h, w, t.typeDefinition);
  }

  // ------------------------------------------------------------ simple content

  /**
   * _setValue: only for simple content; a nil instance accepts only None
   * (and keeps nothing); otherwise the converted value replaces the content
   * and, when validating for bindings, is checked against its facets.
   */
  function SetValueEffect(h: Host, t: ComplexType, s: InstanceState, v: Value): (r: Effect)
    requires WellFormed(h) && Consistent(t, s)
    ensures t.contentType != SimpleContent ==> r == Effect(Fail(NotSimpleContentError), s)
    ensures t.contentType == SimpleContent && s.xsiNil == Some(true) ==>
              r == Effect(if v == NoneValue then Pass else Fail(ContentInNilInstanceError), s)
    ensures r.state.xsiNil == s.xsiNil && r.state.elements == s.elements && r.state.attributes == s.attributes
    ensures t.contentType == SimpleContent && s.xsiNil != Some(true) && IsInstance(h, v, t.typeDefinition) ==>
              r.state.content == SimpleValue(v)
    ensures Consistent(t, r.state)
  {
    if t.contentType != SimpleContent then Effect(Fail(NotSimpleContentError), s)
    else if s.xsiNil == Some(true) then
      if v != NoneValue then Effect(Fail(ContentInNilInstanceError), s) else Effect(Pass, s)
    else
      var converted := if IsInstance(h, v, t.typeDefinition) then Ok(v) else SimpleTypes.Factory(h, t.typeDefinition, [v], h.forBinding);
      match converted
      case Err(e) => Effect(Fail(e), s)
      case Ok(w) =>
        var s' := s.(content := SimpleValue(w));
        if h.forBinding then Effect(ContentConstraints(h, t, s'), s') else Effect(Pass, s')
  }

  // ------------------------------------------------------------ validation

  /** Python truthiness of __content: a non-empty list, or a value other than None. */
  predicate HasContent(c: ContentState)
  {
    if c.ContentList? then |c.items| > 0 else c.value != NoneValue
  }

  /** _validateAttributes: each attribute use in turn; the first failure is raised. */
  function ValidateAttributes(h: Host, t: ComplexType, s: InstanceState, i: nat): (r: Outcome)
    requires WellFormed(h) && i <= |t.attributeUses|
    ensures r == Pass <==> forall j | i <= j < |t.attributeUses| :: ValidateAttribute(h, t.attributeUses[j], AttributeSlotOf(s, j)) == Pass
    ensures r.Fail? ==> exists j | i <= j < |t.attributeUses| :: ValidateAttribute(h, t.attributeUses[j], AttributeSlotOf(s, j)) == r
    decreases |t.attributeUses| - i
  {
    if i == |t.attributeUses| then Pass
    else
      var here := ValidateAttribute(h, t.attributeUses[i], AttributeSlotOf(s, i));
      if here.Fail? then here else ValidateAttributes(h, t, s, i + 1)
  }

  /**
   * _validateBinding_vx.  children is what validating the ordered children
   * (the automaton's _validatedChildren and each child's validateBinding)
   * yields.  A nil instance passes exactly when it holds no content.
   */
  function ValidateBinding(h: Host, t: ComplexType, s: InstanceState, children: Outcome): (r: Outcome)
    requires WellFormed(h) && Consistent(t, s)
    ensures s.xsiNil == Some(true) ==> r == if HasContent(s.content) then Fail(ContentInNilInstanceError) else Pass
    ensures s.xsiNil != Some(true) && t.contentType == SimpleContent && s.content == SimpleValue(NoneValue) ==>
              r == Fail(SimpleContentAbsentError)
    ensures s.xsiNil != Some(true) && !(t.contentType == SimpleContent && s.content == SimpleValue(NoneValue)) ==>
              (r == Pass <==>
                 children == Pass
                 && forall j | 0 <= j < |t.attributeUses| :: ValidateAttribute(h, t.attributeUses[j], AttributeSlotOf(s, j)) == Pass)
    ensures s.xsiNil != Some(true) && !(t.contentType == SimpleContent && s.content == SimpleValue(NoneValue)) && children.Fail? ==>
              r == children
  {
    if s.xsiNil == Some(true) then
      if (t.contentType == SimpleContent && s.content != SimpleValue(NoneValue)) || HasContent(s.content) then
        Fail(ContentInNilInstanceError)
      else Pass
    else if t.contentType == SimpleContent && s.content == SimpleValue(NoneValue) then Fail(SimpleContentAbsentError)
    else if children.Fail? then children
    else ValidateAttributes(h, t, s, 0)
  }

  /** Setting nil on an instance that supports it leaves nothing for nil validation to object to. */
  lemma NilInstanceValidates(h: Host, t: ComplexType, s: InstanceState, children: Outcome)
    requires WellFormed(h) && Consistent(t, s) && s.xsiNil.Some?
    ensures ValidateBinding(h, t, SetIsNilEffect(t, s, true).state, children) == Pass
  {
    var s' := SetIsNilEffect(t, s, true).state;
    assert s'.content == ContentList([]) || s'.content == SimpleValue(NoneValue);
  }

  /** The element values converted by the element's compatibleValue; the first failure is raised. */
  function ConvertValues(h: Host, g: Elements.GlobalElements, e: Element, xs: seq<Value>): (r: Result<seq<Value>>)
    requires WellFormed(h)
    ensures r.Ok? ==> |r.value| == |xs|
                      && forall k | 0 <= k < |xs| :: Elements.CompatibleValue(h, g, e, xs[k], false, true) == Ok(r.value[k])
    decreases |xs|
  {
    if |xs| == 0 then Ok([])
    else
      match Elements.CompatibleValue(h, g, e, xs[0], false, true)
      case Err(err) => Err(err)
      case Ok(w) =>
        match ConvertValues(h, g, e, xs[1..])
        case Err(err) => Err(err)
        case Ok(ws) => Ok([w] + ws)
  }

  /**
   * _symbolSet: each element use with values maps to its converted values
   * (a plural use only when its list is not empty); the wildcard key holds a
   * copy of the wildcard elements when there are any.  No key maps to an
   * empty list, as the content model's _validate requires.
   */
  function SymbolSet(h: Host, g: Elements.GlobalElements, t: ComplexType, s: InstanceState): (r: Result<CM.SymbolSet>)
    requires WellFormed(h)
    ensures r.Ok? ==> CM.WF(r.value)
    ensures r.Ok? ==> (CM.WildcardKey in r.value <==> s.wildcardElements.Some? && |s.wildcardElements.value| > 0)
    ensures r.Ok? && CM.WildcardKey in r.value ==> r.value[CM.WildcardKey] == s.wildcardElements.value
    ensures r.Ok? ==> forall k | k in r.value && k.DeclKey? :: k.decl < |t.elementUses|
  {
    match ElementSymbols(h, g, t, s, 0, map[])
    case Err(e) => Err(e)
    case Ok(m) =>
      if s.wildcardElements.Some? && |s.wildcardElements.value| > 0 then Ok(m[CM.WildcardKey := s.wildcardElements.value])
      else Ok(m)
  }

  /** The element-use part of _symbolSet, from use i on. */
  function ElementSymbols(h: Host, g: Elements.GlobalElements, t: ComplexType, s: InstanceState, i: nat, acc: CM.SymbolSet): (r: Result<CM.SymbolSet>)
    requires WellFormed(h) && i <= |t.elementUses| && CM.WF(acc)
    requires forall k | k in acc :: k.DeclKey? && k.decl < i
    ensures r.Ok? ==> CM.WF(r.value) && forall k | k in r.value :: k.DeclKey? && k.decl < |t.elementUses|
    ensures r.Ok? ==> forall j | i <= j < |t.elementUses| :: (CM.DeclKey(j) in r.value <==> HasSymbols(ElementValue(t, s, j), t.elementUses[j]))
    ensures r.Ok? ==> forall j: nat | j < i :: (CM.DeclKey(j) in r.value <==> CM.DeclKey(j) in acc)
    decreases |t.elementUses| - i
  {
    if i == |t.elementUses| then Ok(acc)
    else
      var u := t.elementUses[i];
      var value := ElementValue(t, s, i);
      if value == NoneValue then ElementSymbols(h, g, t, s, i + 1, acc)
      else if u.isPlural then
        match SimpleTypes.Iterate(value)
        case None => Err(HostTypeError)
        case Some(xs) =>
          if |xs| == 0 then ElementSymbols(h, g, t, s, i + 1, acc)
          else
            match ConvertValues(h, g, u.binding, xs)
            case Err(e) => Err(e)
            case Ok(ws) => ElementSymbols(h, g, t, s, i + 1, acc[CM.DeclKey(i) := ws])
      else
        match Elements.CompatibleValue(h, g, u.binding, value, false, true)
        case Err(e) => Err(e)
        case Ok(w) => ElementSymbols(h, g, t, s, i + 1, acc[CM.DeclKey(i) := [w]])
  }

  /** An element use contributes to the symbol set: it has a value and, when plural, a non-empty one. */
  predicate HasSymbols(value: Value, u: ElementUse)
  {
    value != NoneValue && (u.isPlural ==> SimpleTypes.Iterate(value).Some? && |SimpleTypes.Iterate(value).value| > 0)
  }

  // ------------------------------------------------------------ the instance

  /** A complexTypeDefinition instance. */
  class ComplexInstance {
    const host: Host
    const globals: Elements.GlobalElements
    const ctype: ComplexType
    var xsiNil: Option<bool>
    var content: ContentState
    var elements: map<nat, Value>
    var attributes: map<nat, AttributeSlot>
    var wildcardElements: Option<seq<Value>>

    function State(): InstanceState
      reads this
    {
      InstanceState(xsiNil, content, elements, attributes, wildcardElements)
    }

    /** What reset relies on: a sound host and type, and wildcard storage exactly when the type has a wildcard. */
    ghost predicate Ready()
      reads this
    {
      WellFormed(host) && WellFormedType(ctype) && (wildcardElements.Some? <==> ctype.hasWildcardElement)
    }

    ghost predicate Valid()
      reads this
    {
      Ready() && Consistent(ctype, State())
    }

    /** __init__ without content arguments: the nil flag as the element allows, wildcard storage, then reset. */
    constructor (h: Host, g: Elements.GlobalElements, t: ComplexType, element: Option<Element>, isNil: bool)
      requires WellFormed(h) && WellFormedType(t) && !t.isAbstract
      ensures Valid() && host == h && globals == g && ctype == t
      ensures State() == InitialState(t, element, isNil)
    {
      host := h;
      globals := g;
      ctype := t;
      xsiNil := InitialNil(element, isNil);
      content := SimpleValue(NoneValue);
      elements := map[];
      attributes := map[];
      wildcardElements := if t.hasWildcardElement then Some([]) else None;
      new;
      Reset();
    }

    /** _resetContent */
    method ResetContent(resetElements: bool)
      requires Ready() && (resetElements || Consistent(ctype, State()))
      modifies this
      ensures Ready() && State() == ResetContentState(ctype, old(State()), resetElements)
    {
      if resetElements {
        var us := ctype.elementUses;
        var defaults: map<nat, Value> := map[];
        var i := 0;
        while i < |us|
          invariant 0 <= i <= |us|
          invariant defaults == map j: nat | j < i :: DefaultValue(us[j])
        {
          defaults := defaults[i := DefaultValue(us[i])];
          i := i + 1;
        }
        elements := defaults;
      }
      content := if HasContentList(ctype) then ContentList([]) else SimpleValue(NoneValue);
    }

    /** reset: content and elements cleared, every attribute use reset. */
    method Reset()
      requires Ready()
      modifies this
      ensures Valid() && State() == ResetState(ctype, old(State()))
    {
      ResetContent(true);
      var us := ctype.attributeUses;
      var slots: map<nat, AttributeSlot> := map[];
      var i := 0;
      while i < |us|
        invariant 0 <= i <= |us|
        invariant slots == map j: nat | j < i :: ResetAttribute(us[j])
      {
        slots := slots[i := ResetAttribute(us[i])];
        i := i + 1;
      }
      attributes := slots;
    }

    /** _setIsNil */
    method SetIsNil(nil: bool) returns (r: Outcome)
      requires Valid()
      modifies this
      ensures Valid() && Effect(r, State()) == SetIsNilEffect(ctype, old(State()), nil)
    {
      if xsiNil.None? {
        return Fail(NoNillableSupportError);
      }
      xsiNil := Some(nil);
      if nil {
        ResetContent(true);
      }
      r := Pass;
    }

    /** _addContent */
    method AddContent(c: Content)
      requires Valid() && content.ContentList?
      modifies this
      ensures Valid() && State() == AddContentState(host, ctype, old(State()), c)
    {
      var wrapped := AdoptedContent(host, ctype, c);
      content := ContentList(content.items + [wrapped]);
    }

    /** ElementDeclaration.reset on this instance. */
    method ResetElement(i: nat)
      requires Valid() && i < |ctype.elementUses|
      modifies this
      ensures Valid() && State() == ResetElementState(ctype, old(State()), i)
    {
      elements := elements[i := DefaultValue(ctype.elementUses[i])];
    }

    /** ElementDeclaration.set on this instance. */
    method SetElement(i: nat, v: Value) returns (r: Outcome)
      requires Valid() && i < |ctype.elementUses|
      modifies this
      ensures Valid() && Effect(r, State()) == SetElementEffect(host, globals, ctype, old(State()), i, v)
    {
      if v == NoneValue {
        ResetElement(i);
        return Pass;
      }
      var u := ctype.elementUses[i];
      var cv := Elements.CompatibleValue(host, globals, u.binding, v, u.isPlural, true);
      if cv.Err? {
        return Fail(cv.error);
      }
      elements := elements[i := Adopted(host, cv.value, u.binding)];
      AddContent(ElementContent(cv.value, Some(i)));
      r := Pass;
    }

    /** ElementDeclaration.append on this instance. */
    method AppendElement(i: nat, v: Value) returns (r: Outcome)
      requires Valid() && i < |ctype.elementUses|
      modifies this
      ensures Valid() && Effect(r, State()) == AppendElementEffect(host, globals, ctype, old(State()), i, v)
    {
      var u := ctype.elementUses[i];
      if !u.isPlural {
        return Fail(StructuralBadDocumentError);
      }
      var values := ElementValue(ctype, State(), i);
      var cv := Elements.CompatibleValue(host, globals, u.binding, v, false, true);
      if cv.Err? {
        return Fail(cv.error);
      }
      if !values.Items? {
        return Fail(HostAttributeError);
      }
      elements := elements[i := Items(values.cls, values.items + [Adopted(host, cv.value, u.binding)])];
      AddContent(ElementContent(cv.value, Some(i)));
      r := Pass;
    }

    /** ElementDeclaration.setOrAppend on this instance. */
    method SetOrAppendElement(i: nat, v: Value) returns (r: Outcome)
      requires Valid() && i < |ctype.elementUses|
      modifies this
      ensures Valid() && Effect(r, State()) == SetOrAppendEffect(host, globals, ctype, old(State()), i, v)
    {
      if ctype.elementUses[i].isPlural {
        r := AppendElement(i, v);
      } else {
        r := SetElement(i, v);
      }
    }

    /** AttributeUse.set on this instance. */
    method SetAttributeValue(i: nat, v: Value) returns (r: Outcome)
      requires Valid() && i < |ctype.attributeUses|
      modifies this
      ensures Valid() && Effect(r, State()) == SetAttributeEffect(host, ctype, old(State()), i, v)
    {
      var slot := SetAttribute(host, ctype.attributeUses[i], v);
      if slot.Err? {
        return Fail(slot.error);
      }
      attributes := attributes[i := slot.value];
      r := Pass;
    }

    /** AttributeUse.reset on this instance. */
    method ResetAttributeValue(i: nat)
      requires Valid() && i < |ctype.attributeUses|
      modifies this
      ensures Valid() && State() == old(State()).(attributes := old(attributes)[i := ResetAttribute(ctype.attributeUses[i])])
    {
      attributes := attributes[i := ResetAttribute(ctype.attributeUses[i])];
    }

    /** _appendWildcardElement (with the element test it intends). */
    method AppendWildcardElement(v: Value) returns (r: Outcome)
      requires Valid() && wildcardElements.Some?
      modifies this
      ensures Valid() && Effect(r, State()) == AppendWildcardEffect(host, ctype, old(State()), v)
    {
      if IsElementLike(host, v) {
        AddContent(ElementContent(v, None));
        wildcardElements := Some(wildcardElements.value + [v]);
      } else if ctype.contentType == MixedContent {
        AddContent(NonElementContent(TextOf(host, v)));
      } else {
        return Fail(MixedContentError);
      }
      r := Pass;
    }

    /** append */
    method Append(v: Value, decl: Option<nat>, maybeElement: bool, requireValidation: bool, placement: Placement) returns (r: Outcome)
      requires Valid() && (decl.Some? ==> decl.value < |ctype.elementUses|)
      requires ValidPlacement(host, globals, ctype, v, decl, placement)
      modifies this
      ensures Valid() && Effect(r, State()) == AppendEffect(host, globals, ctype, old(State()), v, decl, maybeElement, requireValidation, placement)
    {
      ghost var s0 := State();
      ghost var expected := AppendEffect(host, globals, ctype, s0, v, decl, maybeElement, requireValidation, placement);
      if xsiNil == Some(true) {
        return Fail(ContentInNilInstanceError);
      }
      var value, maybe, validate, placed := v, maybeElement, requireValidation, placement;
      if v.Node? {
        validate := host.forBinding;
        if v.kind == CommentNode {
          return Pass;
        }
        if v.kind == TextNode || v.kind == CDataNode {
          value := Text(v.data);
          maybe := false;
          placed := Unplaced;
        }
      }
      assert expected == AppendValue(host, globals, ctype, s0, value, decl, maybe, validate, placed);
      r := AppendConverted(value, decl, maybe, validate, placed);
    }

    /** The simple-content branch of append. */
    method AppendSimpleContent(v: Value, requireValidation: bool) returns (r: Outcome)
      requires Valid() && xsiNil != Some(true) && ctype.contentType == SimpleContent
      modifies this
      ensures Valid() && Effect(r, State()) == AppendSimple(host, ctype, old(State()), v, requireValidation)
    {
      if content != SimpleValue(NoneValue) {
        return Fail(ExtraSimpleContentError);
      }
      var converted := if IsInstance(host, v, ctype.typeDefinition) then Ok(v)
                       else SimpleTypes.Factory(host, ctype.typeDefinition, [v], host.forBinding);
      if converted.Err? {
        return Fail(converted.error);
      }
      content := SimpleValue(converted.value);
      r := Pass;
      if requireValidation {
        r := ContentConstraints(host, ctype, State());
      }
    }

    /** append after the nil check and the DOM-node conversions. */
    method AppendConverted(v: Value, decl: Option<nat>, maybeElement: bool, requireValidation: bool, placement: Placement) returns (r: Outcome)
      requires Valid() && xsiNil != Some(true) && (decl.Some? ==> decl.value < |ctype.elementUses|)
      requires ValidPlacement(host, globals, ctype, v, decl, placement)
      modifies this
      ensures Valid() && Effect(r, State()) == AppendValue(host, globals, ctype, old(State()), v, decl, maybeElement, requireValidation, placement)
    {
      ghost var s0 := State();
      ghost var expected := AppendValue(host, globals, ctype, s0, v, decl, maybeElement, requireValidation, placement);
      if !maybeElement && v.Text? && (ctype.contentType == EmptyContent || ctype.contentType == ElementOnlyContent) && IsBlank(v.text) {
        return Pass;
      }
      if maybeElement && ctype.hasAutomaton && (!requireValidation || !placement.Unplaced?) {
        assert expected == AutomatonEffect(host, globals, ctype, s0, v, decl, requireValidation, placement);
        r := AppendByAutomaton(v, decl, requireValidation, placement);
      } else {
        assert expected == UnplacedEffect(host, ctype, s0, v, decl, requireValidation);
        r := AppendUnplaced(v, decl, requireValidation);
      }
    }

    /** The element-content branch of append for a type with a content model. */
    method AppendByAutomaton(v: Value, decl: Option<nat>, requireValidation: bool, placement: Placement) returns (r: Outcome)
      requires Valid() && (decl.Some? ==> decl.value < |ctype.elementUses|)
      requires ValidPlacement(host, globals, ctype, v, decl, placement) && (requireValidation ==> !placement.Unplaced?)
      modifies this
      ensures Valid() && Effect(r, State()) == AutomatonEffect(host, globals, ctype, old(State()), v, decl, requireValidation, placement)
    {
      if !requireValidation {
        if decl.Some? {
          r := SetOrAppendElement(decl.value, v);
          return;
        }
        if wildcardElements.Some? {
          r := AppendWildcardElement(v);
          return;
        }
        return Fail(StructuralBadDocumentError);
      }
      if placement.PlacedElement? {
        r := SetOrAppendElement(placement.use, ElementMatches(host, globals, ctype, placement.use, v, decl).value.1);
      } else {
        r := AppendWildcardElement(v);
      }
    }

    /** The branch of append for a value no content model placed. */
    method AppendUnplaced(v: Value, decl: Option<nat>, requireValidation: bool) returns (r: Outcome)
      requires Valid() && xsiNil != Some(true)
      modifies this
      ensures Valid() && Effect(r, State()) == UnplacedEffect(host, ctype, old(State()), v, decl, requireValidation)
    {
      if IsElementContent(host, ctype, v, decl) {
        if ctype.hasAutomaton {
          return Fail(UnrecognizedContentError);
        }
        return Fail(NonElementValidationError);
      }
      if ctype.contentType == SimpleContent {
        r := AppendSimpleContent(v, requireValidation);
        return;
      }
      if ctype.contentType != MixedContent {
        return Fail(MixedContentError);
      }
      AddContent(NonElementContent(TextOf(host, v)));
      r := Pass;
    }

    /** extend: append each value in turn; a failure propagates and the values already appended stay. */
    method Extend(vs: seq<Value>, placements: seq<Placement>) returns (r: Outcome)
      requires Valid() && ValidPlacements(host, globals, ctype, vs, placements)
      modifies this
      ensures Valid() && Effect(r, State()) == ExtendEffect(host, globals, ctype, old(State()), vs, placements)
    {
      var i := 0;
      while i < |vs|
        invariant 0 <= i <= |vs| && Valid()
        invariant ExtendEffect(host, globals, ctype, old(State()), vs, placements)
                  == ExtendEffect(host, globals, ctype, State(), vs[i..], placements[i..])
      {
        assert vs[i..][1..] == vs[i + 1..] && placements[i..][1..] == placements[i + 1..];
        r := Append(vs[i], None, true, host.forBinding, placements[i]);
        if r.Fail? {
          return;
        }
        i := i + 1;
      }
      r := Pass;
    }

    /** _setValue */
    method SetValue(v: Value) returns (r: Outcome)
      requires Valid()
      modifies this
      ensures Valid() && Effect(r, State()) == SetValueEffect(host, ctype, old(State()), v)
    {
      if ctype.contentType != SimpleContent {
        return Fail(NotSimpleContentError);
      }
      if xsiNil == Some(true) {
        if v != NoneValue {
          return Fail(ContentInNilInstanceError);
        }
        return Pass;
      }
      var converted := if IsInstance(host, v, ctype.typeDefinition) then Ok(v)
                       else SimpleTypes.Factory(host, ctype.typeDefinition, [v], host.forBinding);
      if converted.Err? {
        return Fail(converted.error);
      }
      content := SimpleValue(converted.value);
      r := Pass;
      if host.forBinding {
        r := ContentConstraints(host, ctype, State());
      }
    }
  }

  /**
   * complexTypeDefinition(...) without content arguments or keywords: an
   * abstract type raises AbstractInstantiationError; any other type yields a
   * new, freshly reset instance, whose simple content (if any) is then set
   * as NoArgumentContent says, any failure there propagating.
   */
  method NewInstance(h: Host, g: Elements.GlobalElements, t: ComplexType, element: Option<Element>, isNil: bool)
    returns (r: Result<ComplexInstance>)
    requires WellFormed(h) && WellFormedType(t)
    ensures t.isAbstract ==> r == Err(AbstractInstantiationError)
    ensures !t.isAbstract ==> (r.Err? <==> NoArgumentContent(h, g, t, InitialState(t, element, isNil)).outcome.Fail?)
    ensures !t.isAbstract && r.Err? ==> r.error == NoArgumentContent(h, g, t, InitialState(t, element, isNil)).outcome.error
    ensures r.Ok? ==> fresh(r.value) && r.value.Valid() && r.value.ctype == t
                      && r.value.State() == NoArgumentContent(h, g, t, InitialState(t, element, isNil)).state
  {
    if t.isAbstract {
      return Err(AbstractInstantiationError);
    }
    var instance := new ComplexInstance(h, g, t, element, isNil);
    if t.contentType == SimpleContent && instance.xsiNil != Some(true) {
      if !h.isSubclass(t.typeDefinition, UNICODE) {
        return Err(SimpleContentAbsentError);
      }
      var built := SimpleTypes.Factory(h, t.typeDefinition, [], h.forBinding);
      if built.Err? {
        return Err(built.error);
      }
      var outcome := instance.Append(built.value, None, true, h.forBinding, Unplaced);
      if outcome.Fail? {
        return Err(outcome.error);
      }
    }
    return Ok(instance);
  }
}
