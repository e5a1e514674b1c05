/**
 * Element bindings (basis.element): construction, substitution groups,
 * the substituend search, compatibleValue and instance creation.
 *
 * Element identity is structural here: two element records are the same
 * element exactly when all their properties agree.  The global element
 * bindings of a namespace (name().elementBinding()) are a given map.
 */
module Elements {
  import opened Values
  import opened Environment
  import SimpleTypes
  import Casting

  /** name().elementBinding(): the top-level element registered for each name. */
  type GlobalElements = map<ExpandedName, Element>

  /** element(name, type_definition, ...): the default is built from its lexical form by the type's factory. */
  function NewElement(h: Host, name: ExpandedName, typeDefinition: ClassId, isLocal: bool, nillable: bool,
                      isAbstract: bool, unicodeDefault: Option<string>, fixed: bool,
                      substitutionGroup: Option<Element>): (r: Result<Element>)
    requires WellFormed(h)
    ensures r.Ok? ==> r.value.name == name && r.value.typeDefinition == typeDefinition
                      && r.value.fixed == fixed && r.value.substitutionGroup == substitutionGroup
                      && !r.value.realSubstitutesFor
    ensures unicodeDefault.None? ==> r.Ok? && r.value.defaultValue == NoneValue
    ensures unicodeDefault.Some? && SimpleTypes.Factory(h, typeDefinition, [Text(unicodeDefault.value)], h.forBinding).Err? ==>
              r == Err(SimpleTypes.Factory(h, typeDefinition, [Text(unicodeDefault.value)], h.forBinding).error)
  {
    var dv: Result<Value> :=
      if unicodeDefault.None? then Ok(NoneValue)
      else match SimpleTypes.Factory(h, typeDefinition, [Text(unicodeDefault.value)], h.forBinding)
        case Err(e) => Err(e)
        case Ok(v) => Ok(if IsInstance(h, v, COMPLEX_TYPE_DEFINITION) then h.contentValue(v) else v);
    match dv
    case Err(e) => Err(e)
    case Ok(v) =>
      Ok(Element(name, typeDefinition, isLocal, nillable, isAbstract, v, fixed, substitutionGroup, false))
  }

  /** _setSubstitutionGroup: records the group and, when there is one, installs the real substitution test for good. */
  function SetSubstitutionGroup(e: Element, group: Option<Element>): (r: Element)
    ensures r.substitutionGroup == group
    ensures r.realSubstitutesFor <==> e.realSubstitutesFor || group.Some?
    ensures r == e.(substitutionGroup := group, realSubstitutesFor := r.realSubstitutesFor)
  {
    e.(substitutionGroup := group, realSubstitutesFor := e.realSubstitutesFor || group.Some?)
  }

  /** typeDefinition(): the superseding class of the declared type. */
  function TypeDefinition(h: Host, e: Element): ClassId
  {
    SupersedingClass(h, e.typeDefinition)
  }

  /** substitutesFor: the stub answers false until a substitution group is installed. */
  function SubstitutesFor(g: GlobalElements, e: Element, other: Option<Element>): bool
    decreases e, 1
  {
    e.realSubstitutesFor && RealSubstitutesFor(g, e, other)
  }

  /** Top-level bindings are global elements. */
  predicate TopLevel(g: GlobalElements)
  {
    forall n | n in g :: !g[n].isLocal
  }

  /** A local element stands for the top-level element of its name, if there is one. */
  function GlobalFor(g: GlobalElements, other: Element): (r: Option<Element>)
    ensures !other.isLocal ==> r == Some(other)
    ensures other.isLocal ==> (r.Some? <==> other.name in g)
  {
    if !other.isLocal then Some(other)
    else if other.name in g then Some(g[other.name]) else None
  }

  /** _real_substitutesFor */
  function RealSubstitutesFor(g: GlobalElements, e: Element, other: Option<Element>): (r: bool)
    ensures e.substitutionGroup.None? || other.None? ==> !r
    decreases e, 0
  {
    if e.substitutionGroup.None? || other.None? then false
    else
      match GlobalFor(g, other.value)
      case None => false
      case Some(o) =>
        if e.name in g && g[e.name] == o then true
        else
          var sg := e.substitutionGroup.value;
          sg == o || SubstitutesFor(g, sg, Some(o))
  }

  /**
   * The elements whose substitution test runs when e is asked: e, then its
   * group head for as long as the head has the real test installed.
   */
  function Links(e: Element): (r: seq<Element>)
    ensures |r| >= 1 && r[0] == e
    decreases e
  {
    if e.substitutionGroup.Some? && e.substitutionGroup.value.realSubstitutesFor
    then [e] + Links(e.substitutionGroup.value)
    else [e]
  }

  /** One link answers yes: it has a group, and either its own top-level binding or its group head is the element asked about. */
  predicate LinkAccepts(g: GlobalElements, l: Element, o: Element)
  {
    l.substitutionGroup.Some? && ((l.name in g && g[l.name] == o) || l.substitutionGroup.value == o)
  }

  /**
   * Substitution Group OK, as the engine decides it: after resolving a local
   * element to its top-level binding, some link of the chain accepts it.
   */
  lemma {:induction false} RealSubstitutesForChain(g: GlobalElements, e: Element, other: Element)
    requires TopLevel(g)
    ensures RealSubstitutesFor(g, e, Some(other))
         <==> (GlobalFor(g, other).Some?
               && SomeLinkAccepts(g, Links(e), GlobalFor(g, other).value))
    decreases e
  {
    var links := Links(e);
    match GlobalFor(g, other)
    case None =>
    case Some(o) =>
      if e.substitutionGroup.Some? {
        var sg := e.substitutionGroup.value;
        assert GlobalFor(g, o) == Some(o);
        if sg.realSubstitutesFor {
          RealSubstitutesForChain(g, sg, o);
          assert links == [e] + Links(sg);
          SomeLinkAcceptsCons(g, e, Links(sg), o);
        } else {
          assert links == [e];
        }
      } else {
        assert links == [e];
      }
  }

  /** Some link of a chain accepts o. */
  predicate SomeLinkAccepts(g: GlobalElements, links: seq<Element>, o: Element)
  {
    exists k | 0 <= k < |links| :: LinkAccepts(g, links[k], o)
  }

  /** Some link of e followed by rest accepts o iff e does or some link of rest does. */
  lemma SomeLinkAcceptsCons(g: GlobalElements, e: Element, rest: seq<Element>, o: Element)
    ensures SomeLinkAccepts(g, [e] + rest, o) <==> LinkAccepts(g, e, o) || SomeLinkAccepts(g, rest, o)
  {
    var links := [e] + rest;
    assert links[0] == e;
    if SomeLinkAccepts(g, rest, o) {
      var k :| 0 <= k < |rest| && LinkAccepts(g, rest[k], o);
      assert links[k + 1] == rest[k];
    }
    if SomeLinkAccepts(g, links, o) {
      var k :| 0 <= k < |links| && LinkAccepts(g, links[k], o);
      if k > 0 {
        assert rest[k - 1] == links[k];
      }
    }
  }

  /** An element with a group substitutes for its own top-level binding and for its group head. */
  lemma SubstitutesForSelfAndHead(g: GlobalElements, e: Element)
    requires e.realSubstitutesFor && e.substitutionGroup.Some?
    requires !e.isLocal && e.name in g && g[e.name] == e
    requires !e.substitutionGroup.value.isLocal
    ensures SubstitutesFor(g, e, Some(e))
    ensures SubstitutesFor(g, e, e.substitutionGroup)
  {
  }

  /** An element built with a group but never given one through _setSubstitutionGroup substitutes for nothing. */
  lemma ConstructorGroupNotInstalled(h: Host, name: ExpandedName, t: ClassId, isLocal: bool, nillable: bool,
                                     isAbstract: bool, fixed: bool, group: Element, g: GlobalElements, other: Option<Element>)
    requires WellFormed(h)
    ensures var r := NewElement(h, name, t, isLocal, nillable, isAbstract, None, fixed, Some(group));
            r.Ok? && !SubstitutesFor(g, r.value, other)
  {
  }

  /** The group chain of an element, followed to its end. */
  function GroupChain(e: Element): (r: seq<Element>)
    ensures |r| >= 1 && r[0] == e
    decreases e
  {
    if e.substitutionGroup.Some? then [e] + GroupChain(e.substitutionGroup.value) else [e]
  }

  /** findSubstituendDecl: the declaration a complex type's element map holds for the first element along the group chain. */
  function FindSubstituendDecl<D(==)>(e: Element, elementMap: map<ExpandedName, D>): (r: Option<D>)
    ensures var chain := GroupChain(e);
            r.Some? ==> exists k | 0 <= k < |chain| ::
                          chain[k].name in elementMap && r.value == elementMap[chain[k].name]
                          && forall j | 0 <= j < k :: chain[j].name !in elementMap
    ensures var chain := GroupChain(e);
            r.None? ==> forall j | 0 <= j < |chain| :: chain[j].name !in elementMap
    decreases e
  {
    if e.name in elementMap then
      assert GroupChain(e)[0] == e;
      Some(elementMap[e.name])
    else if e.substitutionGroup.None? then None
    else
      var tail := GroupChain(e.substitutionGroup.value);
      var r := FindSubstituendDecl(e.substitutionGroup.value, elementMap);
      assert GroupChain(e) == [e] + tail;
      if r.Some? then
        var k :| 0 <= k < |tail| && tail[k].name in elementMap && r.value == elementMap[tail[k].name]
                 && forall j | 0 <= j < k :: tail[j].name !in elementMap;
        assert GroupChain(e)[k + 1] == tail[k];
        r
      else r
  }

  /** compatibleValue(value, is_plural=isPlural, _convert_string_values=convertStrings) */
  function CompatibleValue(h: Host, g: GlobalElements, e: Element, v: Value, isPlural: bool, convertStrings: bool): (r: Result<Value>)
    requires WellFormed(h)
    ensures v == NoneValue ==> r == Ok(e.defaultValue)
    ensures v != NoneValue && isPlural && SimpleTypes.Iterate(v).None? ==> r == Err(SimplePluralValueError)
    ensures v != NoneValue && isPlural && r.Ok? ==>
              var xs := SimpleTypes.Iterate(v).value;
              r.value.Items? && |r.value.items| == |xs|
              && forall i | 0 <= i < |xs| :: ItemCompatibleValue(h, g, e, xs[i]) == Ok(r.value.items[i])
  {
    if v == NoneValue then Ok(e.defaultValue)
    else if isPlural then
      match SimpleTypes.Iterate(v)
      case None => Err(SimplePluralValueError)
      case Some(xs) =>
        match CompatibleItems(h, g, e, xs)
        case Ok(ws) => Ok(Items(LIST, ws))
        case Err(err) => Err(err)
    else SingleCompatibleValue(h, g, e, v, convertStrings)
  }

  /** compatibleValue(item) with the default keywords, as the plural case calls it. */
  function ItemCompatibleValue(h: Host, g: GlobalElements, e: Element, x: Value): Result<Value>
    requires WellFormed(h)
  {
    if x == NoneValue then Ok(e.defaultValue) else SingleCompatibleValue(h, g, e, x, true)
  }

  /** The plural case: each item in turn, with the default keywords; the first failure is raised. */
  function CompatibleItems(h: Host, g: GlobalElements, e: Element, xs: seq<Value>): (r: Result<seq<Value>>)
    requires WellFormed(h)
    ensures r.Ok? ==> |r.value| == |xs|
                      && forall i | 0 <= i < |xs| ::
                           ItemCompatibleValue(h, g, e, xs[i])
                           == Ok(r.value[i])
    ensures r.Err? ==> exists i | 0 <= i < |xs| ::
                         ItemCompatibleValue(h, g, e, xs[i])
                         == Err(r.error)
    decreases |xs|
  {
    if |xs| == 0 then Ok([])
    else
      match ItemCompatibleValue(h, g, e, xs[0])
      case Err(err) => Err(err)
      case Ok(w) =>
        match CompatibleItems(h, g, e, xs[1..])
        case Err(err) =>
          assert exists i | 0 <= i < |xs[1..]| ::
                   (ItemCompatibleValue(h, g, e, xs[1..][i]) == Err(err) && xs[1..][i] == xs[i + 1]);
          Err(err)
        case Ok(ws) => Ok([w] + ws)
  }

  /** The singular case of compatibleValue. */
  function SingleCompatibleValue(h: Host, g: GlobalElements, e: Element, v: Value, convertStrings: bool): (r: Result<Value>)
    requires WellFormed(h)
    ensures var cv := Casting.CompatibleValue(h, TypeDefinition(h, e), v, convertStrings);
            && (cv.Err? ==> r == cv)
            && (cv.Ok? && e.fixed && !h.equals(cv.value, e.defaultValue) ==> r == Err(ElementChangeError))
            && (cv.Ok? && !(e.fixed && !h.equals(cv.value, e.defaultValue)) ==>
                  if SubstitutingValue(h, g, e, v) then r == Ok(v)
                  else if e.isAbstract then r == Err(AbstractElementError)
                  else r == cv)
  {
    match Casting.CompatibleValue(h, TypeDefinition(h, e), v, convertStrings)
    case Err(err) => Err(err)
    case Ok(cv) =>
      if e.fixed && !h.equals(cv, e.defaultValue) then Err(ElementChangeError)
      else if SubstitutingValue(h, g, e, v) then Ok(v)
      else if e.isAbstract then Err(AbstractElementError)
      else Ok(cv)
  }

  /** A binding whose own element substitutes for e. */
  predicate SubstitutingValue(h: Host, g: GlobalElements, e: Element, v: Value)
  {
    IsInstance(h, v, TYPE_BINDING) && ElementOf(v).Some? && SubstitutesFor(g, ElementOf(v).value, Some(e))
  }

  /** A fixed element accepts, besides a binding of a substituting element, only values equal to its fixed value. */
  lemma FixedElementKeepsItsValue(h: Host, g: GlobalElements, e: Element, v: Value, convertStrings: bool)
    requires WellFormed(h) && e.fixed && v != NoneValue
    requires CompatibleValue(h, g, e, v, false, convertStrings).Ok?
    ensures var r := CompatibleValue(h, g, e, v, false, convertStrings).value;
            (SubstitutingValue(h, g, e, v) && r == v) || h.equals(r, e.defaultValue)
  {
  }

  /** An abstract element accepts only bindings of elements that substitute for it, and returns them unchanged. */
  lemma AbstractElementNeedsSubstitute(h: Host, g: GlobalElements, e: Element, v: Value, convertStrings: bool)
    requires WellFormed(h) && e.isAbstract && v != NoneValue
    ensures var r := CompatibleValue(h, g, e, v, false, convertStrings);
            r.Ok? ==> SubstitutingValue(h, g, e, v) && r.value == v
    ensures Casting.CompatibleValue(h, TypeDefinition(h, e), v, convertStrings).Ok?
            && !(e.fixed && !h.equals(Casting.CompatibleValue(h, TypeDefinition(h, e), v, convertStrings).value, e.defaultValue))
            && !SubstitutingValue(h, g, e, v)
            ==> CompatibleValue(h, g, e, v, false, convertStrings) == Err(AbstractElementError)
  {
  }

  /** _setElement on whatever the factory built. */
  function WithElement(v: Value, e: Element): (r: Value)
    ensures v.Instance? ==> ElementOf(r) == Some(e)
    ensures TypeOf(r) == TypeOf(v)
  {
    if v.Instance? then v.(element := Some(e)) else v
  }

  /**
   * element(*args): builds an instance of the element's type through its
   * factory and associates it with the element.  elementKeyword says whether
   * the caller passed _element itself.
   */
  function Call(h: Host, g: GlobalElements, e: Element, args: seq<Value>, elementKeyword: bool): (r: Result<Value>)
    requires WellFormed(h)
    ensures elementKeyword ==> r == Err(LogicError)
    ensures !elementKeyword && e.isAbstract ==> r == Err(AbstractElementError)
    ensures r.Ok? && r.value.Instance? ==> ElementOf(r.value) == Some(e)
  {
    if elementKeyword then Err(LogicError)
    else if e.isAbstract then Err(AbstractElementError)
    else
      match CallArguments(h, g, e, args)
      case Err(x) => Err(x)
      case Ok(a) =>
        match SimpleTypes.Factory(h, TypeDefinition(h, e), a, h.forBinding)
        case Err(x) => Err(x)
        case Ok(rv) => Ok(WithElement(rv, e))
  }

  /**
   * What element(*args) builds belongs to the element's type: the type's
   * Factory built it, and associating the element keeps its class.
   */
  lemma CallConforms(h: Host, g: GlobalElements, e: Element, args: seq<Value>, elementKeyword: bool)
    requires WellFormed(h) && Sound(h)
    ensures var r := Call(h, g, e, args, elementKeyword);
            r.Ok? ==> SimpleTypes.Conforms(h, TypeDefinition(h, e), r.value)
  {
    var r := Call(h, g, e, args, elementKeyword);
    if r.Ok? {
      var a := CallArguments(h, g, e, args).value;
      var rv := SimpleTypes.Factory(h, TypeDefinition(h, e), a, h.forBinding).value;
      SimpleTypes.FactoryConforms(h, TypeDefinition(h, e), a, h.forBinding);
      SimpleTypes.ConformsByType(h, TypeDefinition(h, e), rv, WithElement(rv, e));
    }
  }

  /** The arguments element(*args) hands to the factory: the default when none are given; a fixed element's one value checked first. */
  function CallArguments(h: Host, g: GlobalElements, e: Element, args: seq<Value>): (r: Result<seq<Value>>)
    requires WellFormed(h)
    ensures e.defaultValue == NoneValue ==> r == Ok(args)
    ensures e.defaultValue != NoneValue && |args| == 0 ==> r == Ok([e.defaultValue])
    ensures e.defaultValue != NoneValue && !e.fixed ==> r == Ok(if |args| == 0 then [e.defaultValue] else args)
    ensures e.defaultValue != NoneValue && e.fixed && |args| > 1 ==> r == Err(HostValueError)
    ensures e.defaultValue != NoneValue && e.fixed && |args| == 1 ==>
              match CompatibleValue(h, g, e, args[0], false, true)
              case Ok(v) => r == Ok([v])
              case Err(x) => r == Err(x)
  {
    if e.defaultValue == NoneValue || (|args| > 0 && !e.fixed) then Ok(args)
    else if |args| == 0 then Ok([e.defaultValue])
    else if |args| > 1 then Err(HostValueError)
    else
      match CompatibleValue(h, g, e, args[0], false, true)
      case Ok(v) => Ok([v])
      case Err(x) => Err(x)
  }

  /** A fixed element builds its instance from a value equal to its fixed value, or from a substituting binding. */
  lemma FixedElementCallUsesFixedValue(h: Host, g: GlobalElements, e: Element, x: Value)
    requires WellFormed(h) && e.fixed && e.defaultValue != NoneValue && x != NoneValue
    requires CallArguments(h, g, e, [x]).Ok?
    ensures var a := CallArguments(h, g, e, [x]).value;
            |a| == 1 && ((SubstitutingValue(h, g, e, x) && a[0] == x) || h.equals(a[0], e.defaultValue))
  {
    FixedElementKeepsItsValue(h, g, e, x, true);
  }

  /** _substitutesFor(element) of a binding: its own element substitutes for the one given. */
  function BindingSubstitutesFor(g: GlobalElements, v: Value, e: Option<Element>): (r: bool)
    ensures r ==> e.Some? && ElementOf(v).Some?
  {
    if e.None? || ElementOf(v).None? then false else SubstitutesFor(g, ElementOf(v).value, e)
  }
}
