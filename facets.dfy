/**
 * Constraining facets of simple types: the per-class facet maps built by
 * _InitializeFacetMap and the ordered, de-duplicated facet sequence that
 * XsdConstraintsOK computes, caches and checks a value against.
 */
module Facets {
  import opened Values

  /**
   * The simple-type class graph.  parent maps a class to the nearest
   * simpleTypeDefinition subclass among its Python bases; a class directly
   * below simpleTypeDefinition has no entry there and may record, in
   * xsdBaseType, the XML Schema type it was declared to restrict.
   */
  datatype Hierarchy = Hierarchy(parent: map<ClassId, ClassId>, xsdBaseType: map<ClassId, ClassId>)

  /** Bases exist before the classes derived from them. */
  predicate WellFormed(h: Hierarchy)
  {
    (forall c | c in h.parent :: h.parent[c] < c)
    && (forall c | c in h.xsdBaseType :: h.xsdBaseType[c] < c)
  }

  /**
   * The simpleTypeDefinition subclasses in c.mro(), most derived first,
   * ending with the class directly below simpleTypeDefinition.
   */
  function Mro(h: Hierarchy, c: ClassId): (r: seq<ClassId>)
    requires WellFormed(h)
    ensures |r| >= 1 && r[0] == c
    ensures forall i | 0 <= i < |r| :: r[i] <= c
    decreases c
  {
    if c in h.parent then [c] + Mro(h, h.parent[c]) else [c]
  }

  /** The nearest simple-type ancestor, or the recorded XSD base when c sits directly below simpleTypeDefinition. */
  function XsdSuperType(h: Hierarchy, c: ClassId): (r: Option<ClassId>)
    requires WellFormed(h)
    ensures r.Some? ==> r.value < c
    ensures c in h.parent ==> r == Some(h.parent[c])
  {
    if c in h.parent then Some(h.parent[c])
    else if c in h.xsdBaseType then Some(h.xsdBaseType[c])
    else None
  }

  /** A facet map is an insertion-ordered dictionary from facet class to facet. */
  type FacetMap = seq<Facet>

  function Lookup(fm: FacetMap, k: FacetKind): Option<Facet>
  {
    if |fm| == 0 then None
    else if fm[0].kind == k then Some(fm[0])
    else Lookup(fm[1..], k)
  }

  /** fm[type(f)] = f: replace in place when the class is present, append otherwise. */
  function Put(fm: FacetMap, f: Facet): FacetMap
  {
    if |fm| == 0 then [f]
    else if fm[0].kind == f.kind then [f] + fm[1..]
    else [fm[0]] + Put(fm[1..], f)
  }

  /** Installs the facets in order: a later facet of the same class wins. */
  function Override(fm: FacetMap, facets: seq<Facet>): FacetMap
    decreases |facets|
  {
    if |facets| == 0 then fm else Override(Put(fm, facets[0]), facets[1..])
  }

  /** The last facet of class k in the sequence. */
  function LastOfKind(facets: seq<Facet>, k: FacetKind): (r: Option<Facet>)
    ensures r.Some? ==> r.value in facets && r.value.kind == k
    ensures r.None? ==> forall i | 0 <= i < |facets| :: facets[i].kind != k
  {
    if |facets| == 0 then None
    else match LastOfKind(facets[1..], k)
      case Some(f) => Some(f)
      case None => if facets[0].kind == k then Some(facets[0]) else None
  }

  lemma {:induction false} PutLookup(fm: FacetMap, f: Facet, k: FacetKind)
    ensures Lookup(Put(fm, f), k) == if k == f.kind then Some(f) else Lookup(fm, k)
    decreases |fm|
  {
    if |fm| != 0 && fm[0].kind != f.kind {
      PutLookup(fm[1..], f, k);
      assert Put(fm, f)[1..] == Put(fm[1..], f);
    }
  }

  /** After _InitializeFacetMap, a facet class maps to the last given facet of that class, else to the inherited one. */
  lemma {:induction false} OverrideLookup(fm: FacetMap, facets: seq<Facet>, k: FacetKind)
    ensures Lookup(Override(fm, facets), k)
         == match LastOfKind(facets, k) case Some(f) => Some(f) case None => Lookup(fm, k)
    decreases |facets|
  {
    if |facets| != 0 {
      OverrideLookup(Put(fm, facets[0]), facets[1..], k);
      PutLookup(fm, facets[0], k);
    }
  }

  /** The map of the first class in chain that has one. */
  function FirstWithMap(maps: map<ClassId, FacetMap>, chain: seq<ClassId>): (r: Option<FacetMap>)
    ensures r.None? <==> forall i | 0 <= i < |chain| :: chain[i] !in maps
  {
    if |chain| == 0 then None
    else if chain[0] in maps then Some(maps[chain[0]])
    else FirstWithMap(maps, chain[1..])
  }

  /** The map a new class starts from: searched along each mro, then from the XSD super type. */
  function InheritedFacetMap(h: Hierarchy, maps: map<ClassId, FacetMap>, c: ClassId): FacetMap
    requires WellFormed(h)
    decreases c
  {
    match FirstWithMap(maps, Mro(h, c))
    case Some(m) => m
    case None =>
      match XsdSuperType(h, c)
      case None => []
      case Some(s) => InheritedFacetMap(h, maps, s)
  }

  /** Every class the search for an inherited facet map visits, in order. */
  function SearchChain(h: Hierarchy, c: ClassId): seq<ClassId>
    requires WellFormed(h)
    decreases c
  {
    Mro(h, c) + match XsdSuperType(h, c) case None => [] case Some(s) => SearchChain(h, s)
  }

  lemma {:induction false} FirstWithMapAppend(maps: map<ClassId, FacetMap>, a: seq<ClassId>, b: seq<ClassId>)
    ensures FirstWithMap(maps, a + b)
         == if FirstWithMap(maps, a).Some? then FirstWithMap(maps, a) else FirstWithMap(maps, b)
    decreases |a|
  {
    if |a| != 0 {
      assert (a + b)[0] == a[0];
      assert (a + b)[1..] == a[1..] + b;
      FirstWithMapAppend(maps, a[1..], b);
    } else {
      assert a + b == b;
    }
  }

  /** The inherited map is that of the first class along the whole search chain, or empty when none has one. */
  lemma {:induction false} InheritedIsFirstAlongSearchChain(h: Hierarchy, maps: map<ClassId, FacetMap>, c: ClassId)
    requires WellFormed(h)
    ensures InheritedFacetMap(h, maps, c)
         == match FirstWithMap(maps, SearchChain(h, c)) case Some(m) => m case None => []
    decreases c
  {
    var rest := match XsdSuperType(h, c) case None => [] case Some(s) => SearchChain(h, s);
    FirstWithMapAppend(maps, Mro(h, c), rest);
    if FirstWithMap(maps, Mro(h, c)).None? && XsdSuperType(h, c).Some? {
      InheritedIsFirstAlongSearchChain(h, maps, XsdSuperType(h, c).value);
    }
  }

  function Reverse<T>(s: seq<T>): (r: seq<T>)
    ensures |r| == |s|
    ensures forall i | 0 <= i < |s| :: r[i] == s[|s| - 1 - i]
  {
    if |s| == 0 then [] else Reverse(s[1..]) + [s[0]]
  }

  function ClassFacets(maps: map<ClassId, FacetMap>, c: ClassId): FacetMap
  {
    if c in maps then maps[c] else []
  }

  /** Append f unless it is already present. */
  function AddOne(acc: seq<Facet>, f: Facet): seq<Facet>
  {
    if f in acc then acc else acc + [f]
  }

  function AddAll(acc: seq<Facet>, fs: seq<Facet>): seq<Facet>
    decreases |fs|
  {
    if |fs| == 0 then acc else AddOne(AddAll(acc, fs[..|fs| - 1]), fs[|fs| - 1])
  }

  /** The facets of the classes, least derived first, each facet once at its first position. */
  function Collect(maps: map<ClassId, FacetMap>, classes: seq<ClassId>): seq<Facet>
    decreases |classes|
  {
    if |classes| == 0 then []
    else AddAll(Collect(maps, classes[..|classes| - 1]), ClassFacets(maps, classes[|classes| - 1]))
  }

  /** The facet sequence XsdConstraintsOK checks for class c. */
  function FacetSequence(h: Hierarchy, maps: map<ClassId, FacetMap>, c: ClassId): seq<Facet>
    requires WellFormed(h)
  {
    Collect(maps, Reverse(Mro(h, c)))
  }

  /** Every class in c's mro has a facet map, so the facet sequence may be cached. */
  predicate AllHaveMaps(h: Hierarchy, maps: map<ClassId, FacetMap>, c: ClassId)
    requires WellFormed(h)
  {
    forall i | 0 <= i < |Mro(h, c)| :: Mro(h, c)[i] in maps
  }

  predicate Distinct<T(==)>(s: seq<T>)
  {
    forall i, j | 0 <= i < j < |s| :: s[i] != s[j]
  }

  lemma {:induction false} AddAllProperties(acc: seq<Facet>, fs: seq<Facet>)
    ensures Distinct(acc) ==> Distinct(AddAll(acc, fs))
    ensures forall f :: f in AddAll(acc, fs) <==> f in acc || f in fs
    ensures acc <= AddAll(acc, fs)
    decreases |fs|
  {
    if |fs| != 0 {
      var fs' := fs[..|fs| - 1];
      AddAllProperties(acc, fs');
      assert fs == fs' + [fs[|fs| - 1]];
    }
  }

  /** The facet sequence never repeats a facet. */
  lemma {:induction false} CollectDistinct(maps: map<ClassId, FacetMap>, classes: seq<ClassId>)
    ensures Distinct(Collect(maps, classes))
    decreases |classes|
  {
    if |classes| != 0 {
      CollectDistinct(maps, classes[..|classes| - 1]);
      AddAllProperties(Collect(maps, classes[..|classes| - 1]), ClassFacets(maps, classes[|classes| - 1]));
    }
  }

  /** A facet is checked exactly when some class of the chain declares it. */
  lemma {:induction false} CollectMembers(maps: map<ClassId, FacetMap>, classes: seq<ClassId>, f: Facet)
    ensures f in Collect(maps, classes) <==> exists i | 0 <= i < |classes| :: f in ClassFacets(maps, classes[i])
    decreases |classes|
  {
    if |classes| != 0 {
      var init := classes[..|classes| - 1];
      CollectMembers(maps, init, f);
      AddAllProperties(Collect(maps, init), ClassFacets(maps, classes[|classes| - 1]));
      if exists i | 0 <= i < |classes| :: f in ClassFacets(maps, classes[i]) {
        var i :| 0 <= i < |classes| && f in ClassFacets(maps, classes[i]);
        if i < |classes| - 1 {
          assert init[i] == classes[i];
        }
      }
    }
  }

  /** The facets of the first k classes of the chain form a prefix of the whole sequence. */
  lemma {:induction false} CollectPrefix(maps: map<ClassId, FacetMap>, classes: seq<ClassId>, k: nat)
    requires k <= |classes|
    ensures Collect(maps, classes[..k]) <= Collect(maps, classes)
    decreases |classes| - k
  {
    if k < |classes| {
      var init := classes[..|classes| - 1];
      assert init[..k] == classes[..k];
      CollectPrefix(maps, init, k);
      AddAllProperties(Collect(maps, init), ClassFacets(maps, classes[|classes| - 1]));
    } else {
      assert classes[..k] == classes;
    }
  }

  /**
   * Least derived first: every facet of a class less derived than the k-th
   * class of the reversed mro is placed before every facet added from the
   * k-th class onwards.
   */
  lemma AncestorFacetsFirst(h: Hierarchy, maps: map<ClassId, FacetMap>, c: ClassId, k: nat)
    requires WellFormed(h)
    requires k <= |Mro(h, c)|
    ensures Collect(maps, Reverse(Mro(h, c))[..k]) <= FacetSequence(h, maps, c)
    ensures forall j, f | 0 <= j < k && f in ClassFacets(maps, Reverse(Mro(h, c))[j]) ::
              f in Collect(maps, Reverse(Mro(h, c))[..k])
  {
    var classes := Reverse(Mro(h, c));
    CollectPrefix(maps, classes, k);
    CollectHasClassFacets(maps, classes, k);
  }

  /** Every facet of one of the first k classes is among the facets collected from them. */
  lemma CollectHasClassFacets(maps: map<ClassId, FacetMap>, classes: seq<ClassId>, k: nat)
    requires k <= |classes|
    ensures forall j, f | 0 <= j < k && f in ClassFacets(maps, classes[j]) :: f in Collect(maps, classes[..k])
  {
    forall j, f | 0 <= j < k && f in ClassFacets(maps, classes[j])
      ensures f in Collect(maps, classes[..k])
    {
      assert classes[..k][j] == classes[j];
      CollectMembers(maps, classes[..k], f);
    }
  }

  lemma {:induction false} CollectFrame(m1: map<ClassId, FacetMap>, m2: map<ClassId, FacetMap>, classes: seq<ClassId>)
    requires forall i | 0 <= i < |classes| :: ClassFacets(m1, classes[i]) == ClassFacets(m2, classes[i])
    ensures Collect(m1, classes) == Collect(m2, classes)
    decreases |classes|
  {
    if |classes| != 0 {
      CollectFrame(m1, m2, classes[..|classes| - 1]);
    }
  }

  /** Checks the facets in order; the first one the value violates is reported. */
  function CheckFacets(facets: seq<Facet>, validate: (Facet, Value) -> bool, value: Value): (r: Result<Value>)
    ensures r.Ok? <==> forall i | 0 <= i < |facets| :: validate(facets[i], value)
    ensures r.Ok? ==> r.value == value
    ensures r.Err? ==> exists i | 0 <= i < |facets| ::
              r.error == SimpleFacetValueError(facets[i]) && !validate(facets[i], value)
              && forall j | 0 <= j < i :: validate(facets[j], value)
  {
    if |facets| == 0 then Ok(value)
    else if !validate(facets[0], value) then Err(SimpleFacetValueError(facets[0]))
    else
      var r := CheckFacets(facets[1..], validate, value);
      assert r.Err? ==> exists i | 0 <= i < |facets[1..]| ::
        r.error == SimpleFacetValueError(facets[1..][i]) && !validate(facets[1..][i], value)
        && (forall j | 0 <= j < i :: validate(facets[1..][j], value))
        && facets[1..][i] == facets[i + 1];
      r
  }

  /**
   * The class-level state: the facet map of each initialised class and the
   * cached facet sequences.  A sequence is cached only once every class of
   * the mro has its map, and maps are never replaced, so a cached sequence
   * always agrees with the one that would be computed afresh.
   */
  class FacetRegistry {
    const hierarchy: Hierarchy
    var facetMaps: map<ClassId, FacetMap>
    var classFacetSequence: map<ClassId, seq<Facet>>

    ghost predicate Valid()
      reads this
    {
      WellFormed(hierarchy)
      && forall c | c in classFacetSequence ::
           AllHaveMaps(hierarchy, facetMaps, c)
           && classFacetSequence[c] == FacetSequence(hierarchy, facetMaps, c)
    }

    constructor (h: Hierarchy)
      requires WellFormed(h)
      ensures Valid()
      ensures hierarchy == h && facetMaps == map[] && classFacetSequence == map[]
    {
      hierarchy := h;
      facetMaps := map[];
      classFacetSequence := map[];
    }

    /** _InitializeFacetMap: a class gets a copy of the inherited map with its own facets installed, once. */
    method InitializeFacetMap(cls: ClassId, facets: seq<Facet>) returns (r: Result<FacetMap>)
      requires Valid()
      modifies this`facetMaps
      ensures Valid()
      ensures cls in old(facetMaps) ==> r == Err(LogicError) && facetMaps == old(facetMaps)
      ensures cls !in old(facetMaps) ==>
                r == Ok(Override(InheritedFacetMap(hierarchy, old(facetMaps), cls), facets))
                && facetMaps == old(facetMaps)[cls := r.value]
    {
      if cls in facetMaps {
        return Err(LogicError);
      }
      var fm: Option<FacetMap> := None;
      var source := cls;
      while fm.None?
        invariant facetMaps == old(facetMaps)
        invariant fm.None? ==> InheritedFacetMap(hierarchy, facetMaps, source) == InheritedFacetMap(hierarchy, facetMaps, cls)
        invariant fm.Some? ==> fm.value == InheritedFacetMap(hierarchy, facetMaps, cls)
        decreases if fm.None? then source + 1 else 0
      {
        fm := SearchMro(source);
        if fm.None? {
          var sup := XsdSuperType(hierarchy, source);
          if sup.None? {
            fm := Some([]);
          } else {
            source := sup.value;
          }
        }
      }
      var installed := InstallFacets(fm.value, facets);
      NewMapKeepsCache(hierarchy, facetMaps, cls, installed, classFacetSequence);
      facetMaps := facetMaps[cls := installed];
      return Ok(installed);
    }

    /** The inner loop of _InitializeFacetMap: the map of the first class along the mro that has one. */
    method SearchMro(source: ClassId) returns (fm: Option<FacetMap>)
      requires WellFormed(hierarchy)
      ensures fm == FirstWithMap(facetMaps, Mro(hierarchy, source))
    {
      var chain := Mro(hierarchy, source);
      fm := None;
      var i := 0;
      while i < |chain| && fm.None?
        invariant 0 <= i <= |chain|
        invariant fm.None? ==> forall j | 0 <= j < i :: chain[j] !in facetMaps
        invariant fm.Some? ==> fm == FirstWithMap(facetMaps, chain)
      {
        if chain[i] in facetMaps {
          FirstWithMapAt(facetMaps, chain, i);
          fm := Some(facetMaps[chain[i]]);
        }
        i := i + 1;
      }
    }

    /** The facet installation loop of _InitializeFacetMap: fm[type(facet)] = facet for each facet in turn. */
    static method InstallFacets(fm: FacetMap, facets: seq<Facet>) returns (installed: FacetMap)
      ensures installed == Override(fm, facets)
    {
      installed := fm;
      for k := 0 to |facets|
        invariant Override(installed, facets[k..]) == Override(fm, facets)
      {
        assert facets[k..][1..] == facets[k + 1..];
        installed := Put(installed, facets[k]);
      }
    }

    /** XsdConstraintsOK: the value passes every facet of the class and its ancestors, or the first failing facet is reported. */
    method XsdConstraintsOK(cls: ClassId, value: Value, validate: (Facet, Value) -> bool) returns (r: Result<Value>)
      requires Valid()
      modifies this`classFacetSequence
      ensures Valid()
      ensures r == CheckFacets(FacetSequence(hierarchy, facetMaps, cls), validate, value)
      ensures classFacetSequence
           == if cls !in old(classFacetSequence) && AllHaveMaps(hierarchy, facetMaps, cls)
              then old(classFacetSequence)[cls := FacetSequence(hierarchy, facetMaps, cls)]
              else old(classFacetSequence)
    {
      var facetValues: seq<Facet>;
      if cls in classFacetSequence {
        facetValues := classFacetSequence[cls];
      } else {
        var cacheResult;
        facetValues, cacheResult := ComputeFacetSequence(cls);
        if cacheResult {
          classFacetSequence := classFacetSequence[cls := facetValues];
        }
      }
      r := CheckInOrder(facetValues, validate, value);
    }

    /** The check loop of XsdConstraintsOK: each facet in turn; the first one the value violates is raised. */
    static method CheckInOrder(facetValues: seq<Facet>, validate: (Facet, Value) -> bool, value: Value) returns (r: Result<Value>)
      ensures r == CheckFacets(facetValues, validate, value)
    {
      for i := 0 to |facetValues|
        invariant CheckFacets(facetValues, validate, value) == CheckFacets(facetValues[i..], validate, value)
      {
        assert facetValues[i..][1..] == facetValues[i + 1..];
        if !validate(facetValues[i], value) {
          return Err(SimpleFacetValueError(facetValues[i]));
        }
      }
      return Ok(value);
    }

    /** Walks the mro least derived first, collecting facets not yet seen; a class without a map disables caching. */
    method ComputeFacetSequence(cls: ClassId) returns (facetValues: seq<Facet>, cacheResult: bool)
      requires WellFormed(hierarchy)
      ensures facetValues == FacetSequence(hierarchy, facetMaps, cls)
      ensures cacheResult == AllHaveMaps(hierarchy, facetMaps, cls)
    {
      var classes := Reverse(Mro(hierarchy, cls));
      facetValues, cacheResult := CollectClasses(classes);
      AllHaveMapsReversed(hierarchy, facetMaps, cls);
    }

    /** The loop of XsdConstraintsOK over the given classes, in order. */
    method CollectClasses(classes: seq<ClassId>) returns (facetValues: seq<Facet>, cacheResult: bool)
      ensures facetValues == Collect(facetMaps, classes)
      ensures cacheResult <==> forall j | 0 <= j < |classes| :: classes[j] in facetMaps
    {
      facetValues := [];
      cacheResult := true;
      for i := 0 to |classes|
        invariant facetValues == Collect(facetMaps, classes[..i])
        invariant cacheResult <==> forall j | 0 <= j < i :: classes[j] in facetMaps
      {
        var facets: seq<Facet> := [];
        if classes[i] in facetMaps {
          facets := facetMaps[classes[i]];
        } else {
          cacheResult := false;
        }
        facetValues := AddNew(facetValues, facets);
        CollectStep(facetMaps, classes, i);
      }
      assert classes[..|classes|] == classes;
    }
  }

  /** Appends, in order, each facet not yet present. */
  method AddNew(prior: seq<Facet>, facets: seq<Facet>) returns (r: seq<Facet>)
    ensures r == AddAll(prior, facets)
  {
    r := prior;
    for k := 0 to |facets|
      invariant r == AddAll(prior, facets[..k])
    {
      assert facets[..k + 1][..k] == facets[..k];
      if facets[k] !in r {
        r := r + [facets[k]];
      }
    }
    assert facets[..|facets|] == facets;
  }

  /** Installing the map of a class that had none leaves every cached facet sequence correct. */
  lemma NewMapKeepsCache(h: Hierarchy, before: map<ClassId, FacetMap>, cls: ClassId, installed: FacetMap, cache: map<ClassId, seq<Facet>>)
    requires WellFormed(h) && cls !in before
    requires forall c | c in cache :: AllHaveMaps(h, before, c) && cache[c] == FacetSequence(h, before, c)
    ensures forall c | c in cache ::
              AllHaveMaps(h, before[cls := installed], c) && cache[c] == FacetSequence(h, before[cls := installed], c)
  {
    forall c | c in cache
      ensures AllHaveMaps(h, before[cls := installed], c)
      ensures cache[c] == FacetSequence(h, before[cls := installed], c)
    {
      NewMapKeepsSequence(h, before, cls, installed, c);
    }
  }

  /** A class whose whole mro has maps is not the class being initialised, so its facet sequence stays as it was. */
  lemma NewMapKeepsSequence(h: Hierarchy, before: map<ClassId, FacetMap>, cls: ClassId, installed: FacetMap, c: ClassId)
    requires WellFormed(h) && cls !in before && AllHaveMaps(h, before, c)
    ensures AllHaveMaps(h, before[cls := installed], c)
    ensures FacetSequence(h, before, c) == FacetSequence(h, before[cls := installed], c)
  {
    var after := before[cls := installed];
    var mro := Mro(h, c);
    var classes := Reverse(mro);
    forall i | 0 <= i < |classes|
      ensures ClassFacets(before, classes[i]) == ClassFacets(after, classes[i])
    {
      assert classes[i] == mro[|mro| - 1 - i];
      assert mro[|mro| - 1 - i] in before;
    }
    CollectFrame(before, after, classes);
  }

  /** Collecting one more class adds its facets to those collected so far. */
  lemma CollectStep(maps: map<ClassId, FacetMap>, classes: seq<ClassId>, i: nat)
    requires i < |classes|
    ensures Collect(maps, classes[..i + 1]) == AddAll(Collect(maps, classes[..i]), ClassFacets(maps, classes[i]))
  {
    assert classes[..i + 1][..i] == classes[..i];
  }

  lemma AllHaveMapsReversed(h: Hierarchy, maps: map<ClassId, FacetMap>, c: ClassId)
    requires WellFormed(h)
    ensures AllHaveMaps(h, maps, c)
        <==> forall j | 0 <= j < |Reverse(Mro(h, c))| :: Reverse(Mro(h, c))[j] in maps
  {
    var mro := Mro(h, c);
    var classes := Reverse(mro);
    var all := forall j | 0 <= j < |classes| :: classes[j] in maps;
    if all {
      forall i | 0 <= i < |mro| ensures mro[i] in maps {
        assert classes[|mro| - 1 - i] == mro[i];
      }
      assert AllHaveMaps(h, maps, c);
    }
    if AllHaveMaps(h, maps, c) {
      forall j | 0 <= j < |classes| ensures classes[j] in maps {
        assert classes[j] == mro[|mro| - 1 - j];
      }
      assert all;
    }
    assert all <==> AllHaveMaps(h, maps, c);
    assert classes == Reverse(Mro(h, c));
  }

  lemma FirstWithMapAt(maps: map<ClassId, FacetMap>, chain: seq<ClassId>, i: nat)
    requires i < |chain| && chain[i] in maps
    requires forall j | 0 <= j < i :: chain[j] !in maps
    ensures FirstWithMap(maps, chain) == Some(maps[chain[i]])
    decreases i
  {
    if i > 0 {
      FirstWithMapAt(maps, chain[1..], i - 1);
    }
  }
}
