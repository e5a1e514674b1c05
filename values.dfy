/**
 * Shared vocabulary of the binding engine model: optional values, results,
 * the exceptions the engine raises, constraining facets, XML names, host
 * values handed to the bindings, and element declarations.
 */
module Values {

  datatype Option<T> = None | Some(value: T)

  /** One constructor per exception class the engine raises. */
  datatype Error =
    | LogicError
    | SimpleTypeValueError
    | SimpleFacetValueError(facet: Facet)
    | SimpleUnionValueError
    | SimpleListValueError
    | SimplePluralValueError
    | HostTypeError
    | HostValueError
    | HostIndexError
    | HostAttributeError
    | NoNillableSupportError
    | ContentInNilInstanceError
    | ExtraSimpleContentError
    | MixedContentError
    | SimpleContentAbsentError
    | NotSimpleContentError
    | StructuralBadDocumentError
    | UnrecognizedContentError
    | NonElementValidationError
    | ElementChangeError
    | AbstractElementError
    | AbstractInstantiationError
    | MissingAttributeError
    | ProhibitedAttributeError
    | AttributeChangeError
    | BindingValidationError

  /**
   * The exceptions that are (subclasses of) SimpleTypeValueError; the
   * engine's BadTypeValueError handlers catch exactly this family.
   */
  predicate IsSimpleTypeValueError(e: Error)
  {
    e.SimpleTypeValueError? || e.SimpleFacetValueError? || e.SimpleUnionValueError?
    || e.SimpleListValueError? || e.SimplePluralValueError?
  }

  /** Errors raised by the host language rather than by the binding engine. */
  predicate IsHostError(e: Error)
  {
    e.HostTypeError? || e.HostValueError? || e.HostIndexError? || e.HostAttributeError?
  }

  datatype Result<T> = Ok(value: T) | Err(error: Error)

  /** The outcome of a check that returns nothing or raises. */
  datatype Outcome = Pass | Fail(error: Error)

  /** The twelve constraining facets of section 4.3 of XML Schema Part 2. */
  datatype FacetKind =
    | Length | MinLength | MaxLength | Pattern | Enumeration | WhiteSpace
    | MaxInclusive | MaxExclusive | MinExclusive | MinInclusive
    | TotalDigits | FractionDigits

  /** A facet object: its class (kind), its identity, and the value of a length, minLength or maxLength facet. */
  datatype Facet = Facet(kind: FacetKind, id: nat, limit: nat)

  /** A namespace object; absent namespaces stand for "no target namespace". */
  datatype Namespace = AbsentNamespace(id: nat) | NamedNamespace(uri: string)

  datatype ExpandedName = ExpandedName(namespace: Option<Namespace>, localName: string)

  /** Python classes are identified by the order in which they were defined. */
  type ClassId = nat

  const NONE_TYPE: ClassId := 0
  const UNICODE: ClassId := 1
  const INT: ClassId := 2
  const LONG: ClassId := 3
  const BOOL: ClassId := 4
  const LIST: ClassId := 5
  const DOM_NODE: ClassId := 6
  const BIND: ClassId := 7
  const TYPE_BINDING: ClassId := 8
  const SIMPLE_TYPE_DEFINITION: ClassId := 9
  const COMPLEX_TYPE_DEFINITION: ClassId := 10
  const STD_UNION: ClassId := 11
  const STD_LIST: ClassId := 12
  const BOOLEAN: ClassId := 13
  const ANY_SIMPLE_TYPE: ClassId := 14
  const ANY_TYPE: ClassId := 15

  datatype NodeKind = ElementNode | TextNode | CDataNode | CommentNode

  /**
   * A value handed to a binding.  Scalars and binding instances carry an
   * abstract payload; a binding instance may be associated with an element.
   * Items is a host list, or the items of a list-type binding instance.
   */
  datatype Value =
    | NoneValue
    | Text(text: string)
    | Scalar(cls: ClassId, datum: int)
    | Instance(cls: ClassId, datum: int, element: Option<Element>)
    | Items(cls: ClassId, items: seq<Value>)
    | Node(kind: NodeKind, namespaceUri: Option<Namespace>, data: string)
    | BindMarker(args: seq<Value>)

  /**
   * An element binding (basis.element).  realSubstitutesFor records whether
   * the substitution-aware test has been installed for this element.
   */
  datatype Element = Element(
    name: ExpandedName,
    typeDefinition: ClassId,
    isLocal: bool,
    nillable: bool,
    isAbstract: bool,
    defaultValue: Value,
    fixed: bool,
    substitutionGroup: Option<Element>,
    realSubstitutesFor: bool)

  /** The Python class of a value. */
  function TypeOf(v: Value): (c: ClassId)
    ensures v.Scalar? || v.Instance? || v.Items? ==> c == v.cls
  {
    match v
    case NoneValue => NONE_TYPE
    case Text(_) => UNICODE
    case Scalar(c, _) => c
    case Instance(c, _, _) => c
    case Items(c, _) => c
    case Node(_, _, _) => DOM_NODE
    case BindMarker(_) => BIND
  }

  /** The element a binding instance is associated with, if any. */
  function ElementOf(v: Value): Option<Element>
  {
    if v.Instance? then v.element else None
  }

  /** Characters that Python's str.split() and str.strip() treat as whitespace. */
  predicate IsSpace(c: char)
  {
    c == ' ' || c == '\t' || c == '\n' || c == '\r' || c == '\U{B}' || c == '\U{C}'
    || ('\U{1C}' <= c <= '\U{1F}') || c == '\U{85}' || c == '\U{A0}' || c == '\U{1680}'
    || ('\U{2000}' <= c <= '\U{200A}') || c == '\U{2028}' || c == '\U{2029}'
    || c == '\U{202F}' || c == '\U{205F}' || c == '\U{3000}'
  }

  /** s.strip() is empty. */
  predicate IsBlank(s: string)
  {
    forall i | 0 <= i < |s| :: IsSpace(s[i])
  }
}
