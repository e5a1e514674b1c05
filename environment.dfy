/**
 * The host the bindings run in: Python's class relation, the generated
 * binding classes' constructors and factories, host equality, the
 * per-class tables the engine consults (union member types, list item
 * types, superseding classes, type namespaces), the global validation
 * configuration and a snapshot of the facet state.
 */
module Environment {
  import opened Values
  import Facets

  datatype Host = Host(
    /** issubclass(a, b) */
    isSubclass: (ClassId, ClassId) -> bool,
    /** cls(*args) for a class that is not a union */
    construct: (ClassId, seq<Value>) -> Result<Value>,
    /** cls.Factory(*args, _validate_constraints=flag) for a class that is not a union */
    factory: (ClassId, seq<Value>, bool) -> Result<Value>,
    /** host == */
    equals: (Value, Value) -> bool,
    /** six.text_type(value) */
    text: Value -> string,
    /** cls.XsdLiteral(value) for a class that is not a union */
    literal: (ClassId, Value) -> string,
    /** value() of a complex binding instance with simple content */
    contentValue: Value -> Value,
    memberTypes: map<ClassId, seq<ClassId>>,
    itemType: map<ClassId, ClassId>,
    superseding: map<ClassId, ClassId>,
    /** complex types whose content type is SIMPLE */
    simpleContentComplexTypes: set<ClassId>,
    /**
     * the namespace of a binding class's _ExpandedName (None for a name
     * without one); a class with no expanded name has no key
     */
    typeNamespace: map<ClassId, Option<Namespace>>,
    /** validationConfig.forBinding */
    forBinding: bool,
    hierarchy: Facets.Hierarchy,
    facetMaps: map<ClassId, Facets.FacetMap>,
    /** facet.validateConstraint(value) */
    validateFacet: (Facet, Value) -> bool)

  /** Member and item types are defined before the unions and lists built on them. */
  predicate WellFormed(h: Host)
  {
    Facets.WellFormed(h.hierarchy)
    && (forall c | c in h.memberTypes :: forall i | 0 <= i < |h.memberTypes[c]| :: h.memberTypes[c][i] < c)
    && (forall c | c in h.itemType :: h.itemType[c] < c)
  }

  predicate IsInstance(h: Host, v: Value, c: ClassId)
  {
    h.isSubclass(TypeOf(v), c)
  }

  predicate IsUnion(h: Host, c: ClassId)
  {
    h.isSubclass(c, STD_UNION)
  }

  predicate IsList(h: Host, c: ClassId)
  {
    h.isSubclass(c, STD_LIST)
  }

  /** cls._MemberTypes; a union without a recorded tuple has no members. */
  function MemberTypes(h: Host, c: ClassId): (ms: seq<ClassId>)
    requires WellFormed(h)
    ensures forall i | 0 <= i < |ms| :: ms[i] < c
  {
    if c in h.memberTypes then h.memberTypes[c] else []
  }

  /** cls._ItemType, which the base list class leaves unset. */
  function ItemTypeOf(h: Host, c: ClassId): (t: Option<ClassId>)
    requires WellFormed(h)
    ensures t.Some? ==> t.value < c
  {
    if c in h.itemType then Some(h.itemType[c]) else None
  }

  /** The class registered to supersede c, or c itself. */
  function SupersedingClass(h: Host, c: ClassId): ClassId
  {
    if c in h.superseding then h.superseding[c] else c
  }

  /** _IsSimpleTypeContent: every simple type, and complex types with simple content. */
  predicate IsSimpleTypeContent(h: Host, c: ClassId)
  {
    h.isSubclass(c, SIMPLE_TYPE_DEFINITION) || c in h.simpleContentComplexTypes
  }

  /** cls.XsdConstraintsOK(value) on the facet maps as initialised. */
  function ConstraintsOK(h: Host, c: ClassId, v: Value): Result<Value>
    requires WellFormed(h)
  {
    Facets.CheckFacets(Facets.FacetSequence(h.hierarchy, h.facetMaps, c), h.validateFacet, v)
  }

  /** Constructors and non-union factories return instances of the class they were asked for. */
  ghost predicate Sound(h: Host)
  {
    (forall c, args :: h.construct(c, args).Ok? ==> IsInstance(h, h.construct(c, args).value, c))
    && (forall c, args, flag :: h.factory(c, args, flag).Ok? ==> IsInstance(h, h.factory(c, args, flag).value, c))
  }
}
