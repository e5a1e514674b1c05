/**
 * _TypeBinding_mixin._CompatibleValue: the ordered, first-rule-wins policy
 * that turns a host value into a value of a binding class.
 */
module Casting {
  import opened Values
  import opened Environment
  import SimpleTypes

  /** A rule that converts the value by calling the class on it: a downcast, int to long, bool to boolean, or a string. */
  predicate ConvertsByConstruction(h: Host, c: ClassId, v: Value, convertStrings: bool)
  {
    h.isSubclass(c, TypeOf(v))
    || (IsInstance(h, v, INT) && h.isSubclass(c, LONG))
    || (IsInstance(h, v, BOOL) && h.isSubclass(c, BOOLEAN))
    || (convertStrings && TypeOf(v) == UNICODE)
  }

  /** _CompatibleValue(value, _convert_string_values=convertStrings) */
  function CompatibleValue(h: Host, c: ClassId, v: Value, convertStrings: bool): (r: Result<Value>)
    requires WellFormed(h)
    ensures v == NoneValue ==> r == Ok(NoneValue)
    ensures v != NoneValue && IsInstance(h, v, c) ==> r == Ok(v)
    decreases c, 1, 0
  {
    if v == NoneValue then Ok(NoneValue)
    else if IsInstance(h, v, c) then Ok(v)
    else if ConvertsByConstruction(h, c, v, convertStrings) then SimpleTypes.Construct(h, c, [v])
    else
      var fromMember := if IsUnion(h, c) then FirstCompatibleMember(h, c, v, convertStrings, 0) else None;
      if fromMember.Some? then Ok(fromMember.value)
      else AfterMembers(h, c, v)
  }

  /** The rules after the union member loop: ur-types, BIND, simple content, and the final refusal. */
  function AfterMembers(h: Host, c: ClassId, v: Value): Result<Value>
    requires WellFormed(h)
  {
    if c == ANY_SIMPLE_TYPE && h.isSubclass(TypeOf(v), SIMPLE_TYPE_DEFINITION) then Ok(v)
    else if c == ANY_TYPE then
      if !IsInstance(h, v, TYPE_BINDING) then SimpleTypes.Construct(h, c, [v]) else Ok(v)
    else if v.BindMarker? then SimpleTypes.Factory(h, c, v.args, h.forBinding)
    else if IsSimpleTypeContent(h, c) then
      match SimpleTypes.Factory(h, c, [v], h.forBinding)
      case Err(e) => Err(e)
      case Ok(rv) =>
        if IsInstance(h, rv, SIMPLE_TYPE_DEFINITION) && h.equals(rv, v) then Ok(rv)
        else if IsInstance(h, rv, COMPLEX_TYPE_DEFINITION) && h.equals(h.contentValue(rv), v) then Ok(rv)
        else Err(SimpleTypeValueError)
    else Err(SimpleTypeValueError)
  }

  /** The union rule: the first member type, in declared order, for which the value is compatible; all failures are swallowed. */
  function FirstCompatibleMember(h: Host, c: ClassId, v: Value, convertStrings: bool, i: nat): (r: Option<Value>)
    requires WellFormed(h)
    requires i <= |MemberTypes(h, c)|
    ensures var ms := MemberTypes(h, c);
            r.Some? ==> exists k | i <= k < |ms| ::
                          CompatibleValue(h, ms[k], v, convertStrings) == Ok(r.value)
                          && forall j | i <= j < k :: CompatibleValue(h, ms[j], v, convertStrings).Err?
    ensures var ms := MemberTypes(h, c);
            r.None? ==> forall j | i <= j < |ms| :: CompatibleValue(h, ms[j], v, convertStrings).Err?
    decreases c, 0, |MemberTypes(h, c)| - i
  {
    var ms := MemberTypes(h, c);
    if i == |ms| then None
    else match CompatibleValue(h, ms[i], v, convertStrings)
      case Ok(w) => Some(w)
      case Err(_) => FirstCompatibleMember(h, c, v, convertStrings, i + 1)
  }

  /** None of the direct rules applies to a value. */
  predicate NoDirectRule(h: Host, c: ClassId, v: Value, convertStrings: bool)
  {
    v != NoneValue && !IsInstance(h, v, c) && !ConvertsByConstruction(h, c, v, convertStrings)
  }

  /**
   * Strings are converted by calling the class only when string conversion
   * is on; with it off, only a string-derived class (a downcast) calls the
   * class, any other class goes on to its union members and the later rules,
   * and a string that none of those accepts is refused.
   */
  lemma StringConversionOnlyWhenAsked(h: Host, c: ClassId, s: string)
    requires WellFormed(h)
    requires !IsInstance(h, Text(s), c)
    requires !h.isSubclass(UNICODE, INT) && !h.isSubclass(UNICODE, BOOL)
    ensures CompatibleValue(h, c, Text(s), true) == SimpleTypes.Construct(h, c, [Text(s)])
    ensures ConvertsByConstruction(h, c, Text(s), false) <==> h.isSubclass(c, UNICODE)
    ensures h.isSubclass(c, UNICODE) ==>
              CompatibleValue(h, c, Text(s), false) == SimpleTypes.Construct(h, c, [Text(s)])
    ensures !h.isSubclass(c, UNICODE) ==>
              CompatibleValue(h, c, Text(s), false)
              == match (if IsUnion(h, c) then FirstCompatibleMember(h, c, Text(s), false, 0) else None)
                 case Some(w) => Ok(w)
                 case None => AfterMembers(h, c, Text(s))
    ensures !h.isSubclass(c, UNICODE) && !IsUnion(h, c) && c != ANY_SIMPLE_TYPE && c != ANY_TYPE && !IsSimpleTypeContent(h, c) ==>
              CompatibleValue(h, c, Text(s), false) == Err(SimpleTypeValueError)
  {
  }

  /**
   * A union class is never called on a value: where a rule would call it,
   * the call raises LogicError, so every union value comes from a member
   * type or from the rules after the member loop.
   */
  lemma UnionCallRefused(h: Host, c: ClassId, v: Value, convertStrings: bool)
    requires WellFormed(h) && IsUnion(h, c) && v != NoneValue && !IsInstance(h, v, c)
    ensures ConvertsByConstruction(h, c, v, convertStrings) ==> CompatibleValue(h, c, v, convertStrings) == Err(LogicError)
    ensures !ConvertsByConstruction(h, c, v, convertStrings) ==>
              CompatibleValue(h, c, v, convertStrings)
              == match FirstCompatibleMember(h, c, v, convertStrings, 0)
                 case Some(w) => Ok(w)
                 case None => AfterMembers(h, c, v)
  {
  }

  /** With string conversion on, a string given to a union class it is not already an instance of raises LogicError. */
  lemma UnionStringConversionRefused(h: Host, c: ClassId, s: string)
    requires WellFormed(h) && IsUnion(h, c) && !IsInstance(h, Text(s), c)
    ensures CompatibleValue(h, c, Text(s), true) == Err(LogicError)
  {
    UnionCallRefused(h, c, Text(s), true);
  }

  /** For a union target, the value produced is that of the first compatible member type. */
  lemma UnionFirstCompatibleMember(h: Host, c: ClassId, v: Value, convertStrings: bool, k: nat)
    requires WellFormed(h) && IsUnion(h, c) && NoDirectRule(h, c, v, convertStrings)
    requires k < |MemberTypes(h, c)|
    requires CompatibleValue(h, MemberTypes(h, c)[k], v, convertStrings).Ok?
    requires forall j | 0 <= j < k :: CompatibleValue(h, MemberTypes(h, c)[j], v, convertStrings).Err?
    ensures CompatibleValue(h, c, v, convertStrings) == CompatibleValue(h, MemberTypes(h, c)[k], v, convertStrings)
  {
    var r := FirstCompatibleMember(h, c, v, convertStrings, 0);
    var ms := MemberTypes(h, c);
    assert r.Some?;
    var k' :| 0 <= k' < |ms| && CompatibleValue(h, ms[k'], v, convertStrings) == Ok(r.value)
              && forall j | 0 <= j < k' :: CompatibleValue(h, ms[j], v, convertStrings).Err?;
    assert k' == k;
  }

  /**
   * A simple-content target accepts the factory's result only when it
   * equals the value given (for a complex type, when its content does).
   */
  lemma SimpleContentOnlyWhenEqual(h: Host, c: ClassId, v: Value, convertStrings: bool)
    requires WellFormed(h) && NoDirectRule(h, c, v, convertStrings)
    requires !IsUnion(h, c) && c != ANY_SIMPLE_TYPE && c != ANY_TYPE && !v.BindMarker?
    requires CompatibleValue(h, c, v, convertStrings).Ok?
    ensures IsSimpleTypeContent(h, c)
    ensures var rv := CompatibleValue(h, c, v, convertStrings).value;
            rv == SimpleTypes.Factory(h, c, [v], h.forBinding).value
            && (h.equals(rv, v) || h.equals(h.contentValue(rv), v))
  {
  }

  /** A value no rule accepts is refused with SimpleTypeValueError. */
  lemma NoRuleRefuses(h: Host, c: ClassId, v: Value, convertStrings: bool)
    requires WellFormed(h) && NoDirectRule(h, c, v, convertStrings)
    requires IsUnion(h, c) ==> forall j | 0 <= j < |MemberTypes(h, c)| :: CompatibleValue(h, MemberTypes(h, c)[j], v, convertStrings).Err?
    requires c != ANY_SIMPLE_TYPE && c != ANY_TYPE && !v.BindMarker? && !IsSimpleTypeContent(h, c)
    ensures CompatibleValue(h, c, v, convertStrings) == Err(SimpleTypeValueError)
  {
    if IsUnion(h, c) {
      assert FirstCompatibleMember(h, c, v, convertStrings, 0).None?;
    }
  }

  /** Neither c nor, for a union, any member type at any depth is one of the two ur-types. */
  predicate FreeOfUrTypes(h: Host, c: ClassId)
    requires WellFormed(h)
    decreases c
  {
    c != ANY_SIMPLE_TYPE && c != ANY_TYPE
    && (IsUnion(h, c) ==> forall j | 0 <= j < |MemberTypes(h, c)| :: FreeOfUrTypes(h, MemberTypes(h, c)[j]))
  }

  /**
   * The ur-type rules pass values through without making them instances:
   * anySimpleType returns any simple binding as it is, and anyType returns
   * any binding as it is and calls itself on anything else.
   */
  lemma UrTypesPassValuesThrough(h: Host, c: ClassId, v: Value, convertStrings: bool)
    requires WellFormed(h) && NoDirectRule(h, c, v, convertStrings) && !IsUnion(h, c)
    ensures c == ANY_SIMPLE_TYPE && h.isSubclass(TypeOf(v), SIMPLE_TYPE_DEFINITION) ==>
              CompatibleValue(h, c, v, convertStrings) == Ok(v)
    ensures c == ANY_TYPE && IsInstance(h, v, TYPE_BINDING) ==> CompatibleValue(h, c, v, convertStrings) == Ok(v)
    ensures c == ANY_TYPE && !IsInstance(h, v, TYPE_BINDING) ==>
              CompatibleValue(h, c, v, convertStrings) == SimpleTypes.Construct(h, c, [v])
  {
  }

  /**
   * Every value _CompatibleValue produces (other than None) belongs to the
   * target class: an instance of it or, for a union, of one of its member
   * types.  Targets that reach an ur-type are excluded: those rules pass
   * values through (UrTypesPassValuesThrough).
   */
  lemma {:induction false} CompatibleValueConforms(h: Host, c: ClassId, v: Value, convertStrings: bool)
    requires WellFormed(h) && Sound(h) && FreeOfUrTypes(h, c)
    ensures var r := CompatibleValue(h, c, v, convertStrings);
            r.Ok? && r.value != NoneValue ==> SimpleTypes.Conforms(h, c, r.value)
    decreases c, 1, 0
  {
    var r := CompatibleValue(h, c, v, convertStrings);
    if r.Ok? && r.value != NoneValue && NoDirectRule(h, c, v, convertStrings) {
      var fromMember := if IsUnion(h, c) then FirstCompatibleMember(h, c, v, convertStrings, 0) else None;
      if fromMember.Some? {
        MemberConforms(h, c, v, convertStrings, 0);
      } else if v.BindMarker? {
        SimpleTypes.FactoryConforms(h, c, v.args, h.forBinding);
      } else {
        SimpleTypes.FactoryConforms(h, c, [v], h.forBinding);
      }
    }
  }

  lemma {:induction false} MemberConforms(h: Host, c: ClassId, v: Value, convertStrings: bool, i: nat)
    requires WellFormed(h) && Sound(h) && FreeOfUrTypes(h, c) && IsUnion(h, c)
    requires i <= |MemberTypes(h, c)|
    ensures var r := FirstCompatibleMember(h, c, v, convertStrings, i);
            r.Some? && r.value != NoneValue ==> SimpleTypes.Conforms(h, c, r.value)
    decreases c, 0, |MemberTypes(h, c)| - i
  {
    var ms := MemberTypes(h, c);
    if i < |ms| {
      var m := ms[i];
      match CompatibleValue(h, m, v, convertStrings)
      case Ok(w) =>
        if w != NoneValue {
          CompatibleValueConforms(h, m, v, convertStrings);
          assert SimpleTypes.Conforms(h, m, w);
        }
      case Err(_) =>
        MemberConforms(h, c, v, convertStrings, i + 1);
    }
  }
}
