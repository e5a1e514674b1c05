/**
 * Content models (content.py): particles with occurrence bounds, model
 * groups, element declarations and wildcards, and the _validate family that
 * orders the values of a binding instance along a content model.
 *
 * A symbol set maps each element declaration (and the wildcard key, None in
 * the source) to the values still to be placed, in order; the output
 * sequence collects (key, value) pairs.  Consume is the specification of
 * _validate on values; the SymbolState class carries the two mutable
 * structures and its methods do what the source's _validate methods do to
 * them, cloning and replacing as the source does.
 */
module ContentModel {
  import opened Values
  import opened Environment

  /** A symbol-set key: an element declaration (by identity) or the wildcard key. */
  datatype Key = DeclKey(decl: nat) | WildcardKey

  /** One entry of an output sequence. */
  datatype Use = Use(key: Key, value: Value)

  type SymbolSet = map<Key, seq<Value>>

  /** A wildcard's namespace constraint: ##any, (##other, ns), or a set of namespaces (None for absent). */
  datatype NamespaceConstraint =
    | AnyNamespace
    | NotNamespace(ns: Option<Namespace>)
    | NamespaceSet(members: set<Option<Namespace>>)

  datatype Compositor = Sequence | All | Choice

  /** A content model component; Group particles are ParticleModels in the source. */
  datatype Model =
    | Decl(id: nat)
    | Any(constraint: NamespaceConstraint)
    | Particle(minOccurs: nat, maxOccurs: Option<nat>, term: Model)
    | Group(compositor: Compositor, particles: seq<Model>)

  // ------------------------------------------------------------ occurrences

  predicate MeetsMaximum(maxOccurs: Option<nat>, count: nat)
  {
    maxOccurs.None? || count <= maxOccurs.value
  }

  predicate MeetsMinimum(minOccurs: nat, count: nat)
  {
    count >= minOccurs
  }

  predicate SatisfiesOccurrences(minOccurs: nat, maxOccurs: Option<nat>, count: nat)
  {
    MeetsMinimum(minOccurs, count) && MeetsMaximum(maxOccurs, count)
  }

  /** The counts a particle accepts form an interval: from minOccurs up to maxOccurs, or without end when there is no maximum. */
  lemma OccurrencesFormInterval(minOccurs: nat, maxOccurs: Option<nat>, a: nat, b: nat, c: nat)
    requires a <= b <= c
    ensures SatisfiesOccurrences(minOccurs, maxOccurs, a) && SatisfiesOccurrences(minOccurs, maxOccurs, c) ==>
              SatisfiesOccurrences(minOccurs, maxOccurs, b)
    ensures maxOccurs.None? ==> (SatisfiesOccurrences(minOccurs, maxOccurs, b) <==> b >= minOccurs)
    ensures maxOccurs.Some? && maxOccurs.value < minOccurs ==> !SatisfiesOccurrences(minOccurs, maxOccurs, b)
  {
  }

  // ------------------------------------------------------------ wildcards

  /**
   * The namespace Wildcard.matches sees in a value, before absent namespaces
   * are normalised.  A binding with no element takes its type's expanded
   * name, and a type without one fails with AttributeError on None.
   */
  function RawNamespace(h: Host, v: Value): (r: Result<Option<Namespace>>)
    ensures r.Err? <==> !v.Node? && IsInstance(h, v, TYPE_BINDING) && ElementOf(v).None? && TypeOf(v) !in h.typeNamespace
    ensures r.Err? ==> r.error == HostAttributeError
  {
    if v.Node? then Ok(v.namespaceUri)
    else if IsInstance(h, v, TYPE_BINDING) then
      match ElementOf(v)
      case Some(e) => Ok(e.name.namespace)
      case None => if TypeOf(v) in h.typeNamespace then Ok(h.typeNamespace[TypeOf(v)]) else Err(HostAttributeError)
    else Ok(None)
  }

  /** Wildcard.matches: Wildcard allows Namespace Name, section 3.10.4 of XML Schema Part 1. */
  function Matches(h: Host, c: NamespaceConstraint, v: Value): (r: Result<bool>)
    ensures r.Err? <==> RawNamespace(h, v).Err?
    ensures r.Err? ==> r.error == HostAttributeError
    ensures c.AnyNamespace? && r.Ok? ==> r.value
  {
    match RawNamespace(h, v)
    case Err(e) => Err(e)
    case Ok(raw) =>
      var ns := if raw.Some? && raw.value.AbsentNamespace? then None else raw;
      match c
      case AnyNamespace => Ok(true)
      case NotNamespace(other) => Ok(if ns.None? then false else other != ns)
      case NamespaceSet(members) => Ok(ns in members)
  }

  /** An absent namespace counts as no namespace; ##other rejects both and accepts every other namespace but its own. */
  lemma AbsentNamespaceIsNoNamespace(h: Host, c: NamespaceConstraint, k: NodeKind, id: nat, data: string, other: Option<Namespace>, uri: string)
    ensures Matches(h, c, Node(k, Some(AbsentNamespace(id)), data)) == Matches(h, c, Node(k, None, data))
    ensures Matches(h, NotNamespace(other), Node(k, None, data)) == Ok(false)
    ensures Matches(h, NotNamespace(other), Node(k, Some(NamedNamespace(uri)), data)) == Ok(other != Some(NamedNamespace(uri)))
    ensures c.NamespaceSet? ==> Matches(h, c, Node(k, None, data)) == Ok(None in c.members)
  {
  }

  // ------------------------------------------------------------ symbol sets

  /** The values left under a key; an absent key has none. */
  function Lst(s: SymbolSet, k: Key): seq<Value>
  {
    if k in s then s[k] else []
  }

  /** The values an output sequence holds under a key, in order. */
  function Project(out: seq<Use>, k: Key): (r: seq<Value>)
    ensures |r| <= |out|
  {
    if |out| == 0 then []
    else Project(out[..|out| - 1], k) + (if out[|out| - 1].key == k then [out[|out| - 1].value] else [])
  }

  /** The documented invariant of symbol sets: a key whose last value is used is removed. */
  predicate WF(s: SymbolSet)
  {
    forall k | k in s :: |s[k]| > 0
  }

  /** rest and out together hold exactly the values of s: under each key, out took a prefix and rest keeps the remainder. */
  ghost predicate Conserves(s: SymbolSet, rest: SymbolSet, out: seq<Use>)
  {
    forall k :: Lst(s, k) == Project(out, k) + Lst(rest, k)
  }

  /** The state after a successful _validate: what is left and what was appended. */
  datatype Step = Step(rest: SymbolSet, produced: seq<Use>)

  lemma {:induction false} ProjectAppend(a: seq<Use>, b: seq<Use>, k: Key)
    ensures Project(a + b, k) == Project(a, k) + Project(b, k)
    decreases |b|
  {
    if |b| == 0 {
      assert a + b == a;
    } else {
      var b' := b[..|b| - 1];
      assert (a + b)[..|a + b| - 1] == a + b';
      ProjectAppend(a, b', k);
    }
  }

  lemma ConservesSelf(s: SymbolSet)
    ensures Conserves(s, s, [])
  {
    forall k ensures Lst(s, k) == Project([], k) + Lst(s, k) {
    }
  }

  lemma ConservesTrans(s0: SymbolSet, s1: SymbolSet, o1: seq<Use>, s2: SymbolSet, o2: seq<Use>)
    requires Conserves(s0, s1, o1) && Conserves(s1, s2, o2)
    ensures Conserves(s0, s2, o1 + o2)
  {
    forall k ensures Lst(s0, k) == Project(o1 + o2, k) + Lst(s2, k) {
      var a, b, c := Project(o1, k), Project(o2, k), Lst(s2, k);
      assert Lst(s0, k) == a + Lst(s1, k);
      assert Lst(s1, k) == b + c;
      ProjectAppend(o1, o2, k);
      assert a + (b + c) == (a + b) + c;
    }
  }

  /** Nothing appended means nothing removed (the monotonicity the source relies on). */
  lemma ConservesNothing(s: SymbolSet, rest: SymbolSet)
    requires WF(s) && WF(rest) && Conserves(s, rest, [])
    ensures rest == s
  {
    forall k ensures Lst(s, k) == Lst(rest, k) {
      assert Project([], k) == [];
    }
    forall k | k in s ensures k in rest && rest[k] == s[k] {
      assert Lst(s, k) == Lst(rest, k);
    }
    forall k | k in rest ensures k in s {
      assert Lst(s, k) == Lst(rest, k);
    }
  }

  /** A key of s, enumerated once; used to measure what is left to consume. */
  ghost function Enumerate(keys: set<Key>): (r: seq<Key>)
    ensures forall k :: k in r <==> k in keys
    decreases keys
  {
    if keys == {} then []
    else
      var k :| k in keys;
      [k] + Enumerate(keys - {k})
  }

  /** The number of values left under the given keys. */
  function Measure(ks: seq<Key>, s: SymbolSet): nat
    decreases |ks|
  {
    if |ks| == 0 then 0 else |Lst(s, ks[0])| + Measure(ks[1..], s)
  }

  lemma {:induction false} MeasureShrinks(ks: seq<Key>, s: SymbolSet, s': SymbolSet, j: nat)
    requires forall k :: |Lst(s', k)| <= |Lst(s, k)|
    requires j < |ks| && |Lst(s', ks[j])| < |Lst(s, ks[j])|
    ensures Measure(ks, s') < Measure(ks, s)
    decreases |ks|
  {
    if j > 0 {
      MeasureShrinks(ks[1..], s, s', j - 1);
    } else {
      MeasureNoGrow(ks[1..], s, s');
    }
  }

  lemma {:induction false} MeasureNoGrow(ks: seq<Key>, s: SymbolSet, s': SymbolSet)
    requires forall k :: |Lst(s', k)| <= |Lst(s, k)|
    ensures Measure(ks, s') <= Measure(ks, s)
    decreases |ks|
  {
    if |ks| > 0 {
      MeasureNoGrow(ks[1..], s, s');
    }
  }

  /** A step that appended something leaves fewer values under the keys of the original symbol set. */
  lemma ProgressMeasure(s0: SymbolSet, acc: Step, st: Step)
    requires Conserves(s0, acc.rest, acc.produced)
    requires Conserves(acc.rest, st.rest, st.produced) && |st.produced| > 0
    ensures Measure(Enumerate(s0.Keys), st.rest) < Measure(Enumerate(s0.Keys), acc.rest)
  {
    var out := st.produced;
    var k := out[|out| - 1].key;
    assert |Project(out, k)| > 0;
    assert Lst(acc.rest, k) == Project(out, k) + Lst(st.rest, k);
    assert |Lst(acc.rest, k)| > 0;
    assert Lst(s0, k) == Project(acc.produced, k) + Lst(acc.rest, k);
    assert k in s0;
    var ks := Enumerate(s0.Keys);
    var j :| 0 <= j < |ks| && ks[j] == k;
    forall k' ensures |Lst(st.rest, k')| <= |Lst(acc.rest, k')| {
      assert Lst(acc.rest, k') == Project(out, k') + Lst(st.rest, k');
    }
    MeasureShrinks(ks, acc.rest, st.rest, j);
  }

  // ------------------------------------------------------------ _validate, as a specification

  /** Takes the first value under a key: ElementDeclaration._validate and Wildcard._validate on success. */
  function Pop(s: SymbolSet, k: Key): (r: Step)
    requires WF(s) && k in s
    ensures WF(r.rest) && Conserves(s, r.rest, r.produced)
    ensures r.produced == [Use(k, s[k][0])]
    ensures k in r.rest <==> |s[k]| > 1
  {
    var values := s[k];
    var rest := if |values| == 1 then s - {k} else s[k := values[1..]];
    var r := Step(rest, [Use(k, values[0])]);
    assert forall k' :: Project(r.produced, k') == (if k' == k then [values[0]] else []) by {
      assert r.produced[..0] == [];
    }
    assert values == [values[0]] + values[1..];
    r
  }

  /**
   * _validate on values: None when the model cannot be satisfied (the
   * source then leaves both structures as they were), otherwise the symbols
   * left and the uses appended.  The values appended are exactly the values
   * removed, each key's in their original order.
   */
  function Consume(m: Model, s: SymbolSet): (r: Option<Step>)
    requires WF(s)
    ensures r.Some? ==> WF(r.value.rest) && Conserves(s, r.value.rest, r.value.produced)
    decreases m, 1, 0
  {
    match m
    case Decl(id) => if DeclKey(id) in s then Some(Pop(s, DeclKey(id))) else None
    case Any(_) => if WildcardKey in s then Some(Pop(s, WildcardKey)) else None
    case Particle(minOccurs, maxOccurs, _) =>
      ConservesSelf(s);
      var (count, st) := Repeat(m, s, 0, Step(s, []));
      if SatisfiesOccurrences(minOccurs, maxOccurs, count) then Some(st) else None
    case Group(compositor, particles) =>
      if compositor == Choice then ConsumeFirst(m, 0, s)
      else ConsumeEach(m, 0, s, Step(s, []))
  }

  /**
   * The counting loop of ParticleModel._validate from count on: stop at
   * maxOccurs or when the term fails; a success that consumes nothing raises
   * the count to minOccurs and stops.
   */
  function Repeat(p: Model, s0: SymbolSet, count: nat, acc: Step): (r: (nat, Step))
    requires p.Particle? && WF(acc.rest) && Conserves(s0, acc.rest, acc.produced)
    ensures WF(r.1.rest) && Conserves(s0, r.1.rest, r.1.produced)
    ensures r.0 >= count
    decreases p, 0, Measure(Enumerate(s0.Keys), acc.rest)
  {
    if p.maxOccurs == Some(count) then (count, acc)
    else
      match Consume(p.term, acc.rest)
      case None => (count, acc)
      case Some(st) =>
        ConservesTrans(s0, acc.rest, acc.produced, st.rest, st.produced);
        var next := Step(st.rest, acc.produced + st.produced);
        if |st.produced| == 0 then
          (if count < p.minOccurs then p.minOccurs else count, next)
        else
          ProgressMeasure(s0, acc, st);
          Repeat(p, s0, count + 1, next)
  }

  /** A particle validates when the count its loop reaches satisfies its occurrences. */
  lemma ParticleIsRepeat(p: Model, s: SymbolSet)
    requires p.Particle? && WF(s) && Conserves(s, s, [])
    ensures var (count, st) := Repeat(p, s, 0, Step(s, []));
            Consume(p, s) == if SatisfiesOccurrences(p.minOccurs, p.maxOccurs, count) then Some(st) else None
  {
  }

  /** One round of the particle loop, when the count is below maxOccurs. */
  lemma RepeatStep(p: Model, s0: SymbolSet, count: nat, acc: Step)
    requires p.Particle? && WF(acc.rest) && Conserves(s0, acc.rest, acc.produced)
    requires p.maxOccurs != Some(count)
    ensures Consume(p.term, acc.rest).None? ==> Repeat(p, s0, count, acc) == (count, acc)
    ensures Consume(p.term, acc.rest).Some? ==>
              var st := Consume(p.term, acc.rest).value;
              var next := Step(st.rest, acc.produced + st.produced);
              Conserves(s0, next.rest, next.produced)
              && (|st.produced| == 0 ==> Repeat(p, s0, count, acc) == (if count < p.minOccurs then p.minOccurs else count, next))
              && (|st.produced| > 0 ==>
                    Measure(Enumerate(s0.Keys), next.rest) < Measure(Enumerate(s0.Keys), acc.rest)
                    && Repeat(p, s0, count, acc) == Repeat(p, s0, count + 1, next))
  {
    if Consume(p.term, acc.rest).Some? {
      var st := Consume(p.term, acc.rest).value;
      ConservesTrans(s0, acc.rest, acc.produced, st.rest, st.produced);
      if |st.produced| > 0 {
        ProgressMeasure(s0, acc, st);
      }
    }
  }

  /** One round of the particle loop: whether it stops, the count after it, and the step taken so far. */
  ghost function Round(p: Model, count: nat, acc: Step): (bool, nat, Step)
    requires p.Particle? && WF(acc.rest)
  {
    if p.maxOccurs == Some(count) then (true, count, acc)
    else
      match Consume(p.term, acc.rest)
      case None => (true, count, acc)
      case Some(st) =>
        var next := Step(st.rest, acc.produced + st.produced);
        if |st.produced| == 0 then (true, if count < p.minOccurs then p.minOccurs else count, next)
        else (false, count + 1, next)
  }

  /** A round that stops ends the loop with its result; one that goes on leaves the loop's result to the next round, with fewer symbols left. */
  lemma RoundIsRepeat(p: Model, s0: SymbolSet, count: nat, acc: Step)
    requires p.Particle? && WF(acc.rest) && Conserves(s0, acc.rest, acc.produced)
    ensures var (done, count', next) := Round(p, count, acc);
            WF(next.rest) && Conserves(s0, next.rest, next.produced)
            && (done ==> Repeat(p, s0, count, acc) == (count', next))
            && (!done ==> Repeat(p, s0, count, acc) == Repeat(p, s0, count', next)
                          && Measure(Enumerate(s0.Keys), next.rest) < Measure(Enumerate(s0.Keys), acc.rest))
  {
    if p.maxOccurs != Some(count) {
      RepeatStep(p, s0, count, acc);
    }
  }

  /** The particle loop of _Group._validate (sequence and all): every particle in order, or failure. */
  function ConsumeEach(g: Model, i: nat, s0: SymbolSet, acc: Step): (r: Option<Step>)
    requires g.Group? && i <= |g.particles| && WF(acc.rest) && Conserves(s0, acc.rest, acc.produced)
    ensures r.Some? ==> WF(r.value.rest) && Conserves(s0, r.value.rest, r.value.produced)
    decreases g, 0, |g.particles| - i
  {
    if i == |g.particles| then Some(acc)
    else
      match Consume(g.particles[i], acc.rest)
      case None => None
      case Some(st) =>
        ConservesTrans(s0, acc.rest, acc.produced, st.rest, st.produced);
        ConsumeEach(g, i + 1, s0, Step(st.rest, acc.produced + st.produced))
  }

  /** GroupChoice._validate: the first particle, in declared order, that validates. */
  function ConsumeFirst(g: Model, i: nat, s: SymbolSet): (r: Option<Step>)
    requires g.Group? && i <= |g.particles| && WF(s)
    ensures r.Some? ==> WF(r.value.rest) && Conserves(s, r.value.rest, r.value.produced)
    ensures r.Some? ==> exists k | i <= k < |g.particles| ::
                          Consume(g.particles[k], s) == r
                          && forall j | i <= j < k :: Consume(g.particles[j], s).None?
    ensures r.None? ==> forall j | i <= j < |g.particles| :: Consume(g.particles[j], s).None?
    decreases g, 0, |g.particles| - i
  {
    if i == |g.particles| then None
    else
      match Consume(g.particles[i], s)
      case Some(st) => Some(st)
      case None => ConsumeFirst(g, i + 1, s)
  }

  // ------------------------------------------------------------ properties

  /** A successful validation that appends nothing consumed nothing. */
  lemma NothingProducedNothingConsumed(m: Model, s: SymbolSet)
    requires WF(s) && Consume(m, s).Some? && Consume(m, s).value.produced == []
    ensures Consume(m, s).value.rest == s
  {
    ConservesNothing(s, Consume(m, s).value.rest);
  }

  /** Per key, the values placed are the first ones of that key's list, in order, and the rest stay behind. */
  lemma FirstInFirstOut(m: Model, s: SymbolSet, k: Key)
    requires WF(s) && Consume(m, s).Some?
    ensures var st := Consume(m, s).value;
            var n := |Project(st.produced, k)|;
            n <= |Lst(s, k)| && Project(st.produced, k) == Lst(s, k)[..n] && Lst(st.rest, k) == Lst(s, k)[n..]
  {
    var st := Consume(m, s).value;
    assert Lst(s, k) == Project(st.produced, k) + Lst(st.rest, k);
  }

  /** An element declaration takes the first value stored under it, or fails when it has none. */
  lemma ElementTakesFirstValue(id: nat, s: SymbolSet)
    requires WF(s)
    ensures DeclKey(id) !in s <==> Consume(Decl(id), s).None?
    ensures DeclKey(id) in s ==>
              var st := Consume(Decl(id), s).value;
              st.produced == [Use(DeclKey(id), s[DeclKey(id)][0])]
              && (DeclKey(id) in st.rest <==> |s[DeclKey(id)]| > 1)
  {
  }

  /** When minOccurs does not exceed maxOccurs, the count the loop reaches never exceeds maxOccurs. */
  lemma {:induction false} RepeatMeetsMaximum(p: Model, s0: SymbolSet, count: nat, acc: Step)
    requires p.Particle? && WF(acc.rest) && Conserves(s0, acc.rest, acc.produced)
    requires p.maxOccurs.Some? ==> p.minOccurs <= p.maxOccurs.value && count <= p.maxOccurs.value
    ensures MeetsMaximum(p.maxOccurs, Repeat(p, s0, count, acc).0)
    decreases Measure(Enumerate(s0.Keys), acc.rest)
  {
    if p.maxOccurs != Some(count) {
      match Consume(p.term, acc.rest)
      case None =>
      case Some(st) =>
        ConservesTrans(s0, acc.rest, acc.produced, st.rest, st.produced);
        if |st.produced| > 0 {
          ProgressMeasure(s0, acc, st);
          RepeatMeetsMaximum(p, s0, count + 1, Step(st.rest, acc.produced + st.produced));
        }
    }
  }

  /** A particle with minOccurs 0 (and a sensible maximum) always validates. */
  lemma OptionalParticleSucceeds(maxOccurs: Option<nat>, t: Model, s: SymbolSet)
    requires WF(s)
    ensures Consume(Particle(0, maxOccurs, t), s).Some?
  {
    var p := Particle(0, maxOccurs, t);
    ConservesSelf(s);
    RepeatMeetsMaximum(p, s, 0, Step(s, []));
  }

  /** A particle with maxOccurs 0 consumes nothing, and succeeds exactly when minOccurs is 0. */
  lemma ZeroMaximumParticle(minOccurs: nat, t: Model, s: SymbolSet)
    requires WF(s)
    ensures Consume(Particle(minOccurs, Some(0), t), s) == if minOccurs == 0 then Some(Step(s, [])) else None
  {
  }

  /** GroupChoice commits to the first particle, in declared order, that validates; it fails when none does. */
  lemma ChoiceCommitsToFirst(ps: seq<Model>, s: SymbolSet, k: nat)
    requires WF(s) && k < |ps| && Consume(ps[k], s).Some?
    requires forall j | 0 <= j < k :: Consume(ps[j], s).None?
    ensures Consume(Group(Choice, ps), s) == Consume(ps[k], s)
  {
    var g := Group(Choice, ps);
    var r := ConsumeFirst(g, 0, s);
    var k' :| 0 <= k' < |ps| && Consume(ps[k'], s) == r && forall j | 0 <= j < k' :: Consume(ps[j], s).None?;
    assert k' == k;
  }

  /** An all-group is validated exactly like a sequence: its particles in declared order. */
  lemma AllIsValidatedAsSequence(ps: seq<Model>, s: SymbolSet)
    requires WF(s)
    ensures Consume(Group(All, ps), s) == Consume(Group(Sequence, ps), s)
  {
    ConservesSelf(s);
    EachIndependentOfCompositor(ps, 0, s, Step(s, []));
  }

  lemma {:induction false} EachIndependentOfCompositor(ps: seq<Model>, i: nat, s0: SymbolSet, acc: Step)
    requires i <= |ps| && WF(acc.rest) && Conserves(s0, acc.rest, acc.produced)
    ensures ConsumeEach(Group(All, ps), i, s0, acc) == ConsumeEach(Group(Sequence, ps), i, s0, acc)
    decreases |ps| - i
  {
    if i < |ps| {
      match Consume(ps[i], acc.rest)
      case None =>
      case Some(st) =>
        ConservesTrans(s0, acc.rest, acc.produced, st.rest, st.produced);
        EachIndependentOfCompositor(ps, i + 1, s0, Step(st.rest, acc.produced + st.produced));
    }
  }

  /** A sequence fails as soon as one particle fails on what the particles before it left. */
  lemma SequenceNeedsEveryParticle(p: Model, q: Model, s: SymbolSet)
    requires WF(s)
    ensures Consume(p, s).None? ==> Consume(Group(Sequence, [p, q]), s).None?
    ensures Consume(p, s).Some? && Consume(q, Consume(p, s).value.rest).None? ==> Consume(Group(Sequence, [p, q]), s).None?
    ensures Consume(p, s).Some? && Consume(q, Consume(p, s).value.rest).Some? ==>
              var a := Consume(p, s).value;
              var b := Consume(q, a.rest).value;
              Consume(Group(Sequence, [p, q]), s) == Some(Step(b.rest, a.produced + b.produced))
  {
    var g := Group(Sequence, [p, q]);
    ConservesSelf(s);
    if Consume(p, s).Some? {
      var a := Consume(p, s).value;
      ConservesTrans(s, s, [], a.rest, a.produced);
      assert [] + a.produced == a.produced;
      assert ConsumeEach(g, 0, s, Step(s, [])) == ConsumeEach(g, 1, s, Step(a.rest, a.produced));
      if Consume(q, a.rest).Some? {
        var b := Consume(q, a.rest).value;
        ConservesTrans(s, a.rest, a.produced, b.rest, b.produced);
        assert ConsumeEach(g, 1, s, Step(a.rest, a.produced)) == ConsumeEach(g, 2, s, Step(b.rest, a.produced + b.produced));
      }
    }
  }

  // ------------------------------------------------------------ _validate, in place

  /** The source's contract for _validate: on failure both structures are unchanged; on success they are the specification's. */
  ghost predicate Validated(r: Option<Step>, ok: bool, s0: SymbolSet, o0: seq<Use>, s1: SymbolSet, o1: seq<Use>)
  {
    match r
    case None => !ok && s1 == s0 && o1 == o0
    case Some(st) => ok && s1 == st.rest && o1 == o0 + st.produced
  }

  /** The mutable symbol set and output sequence _validate works on. */
  class SymbolState {
    var symbols: SymbolSet
    var output: seq<Use>

    constructor (symbols: SymbolSet, output: seq<Use>)
      ensures this.symbols == symbols && this.output == output
    {
      this.symbols := symbols;
      this.output := output;
    }

    /** _validateCloneSymbolSet and _validateCloneOutputSequence: independent copies. */
    method Clone() returns (c: SymbolState)
      ensures fresh(c) && c.symbols == symbols && c.output == output
    {
      c := new SymbolState(symbols, output);
    }

    /** _validateReplaceResults: overwrite both structures in place with a clone's. */
    method ReplaceResults(from: SymbolState)
      modifies this
      ensures symbols == old(from.symbols) && output == old(from.output)
    {
      var s := from.symbols;
      var o := from.output;
      symbols := s;
      output := o;
    }

    /** _validate, dispatched on the kind of model component. */
    method Validate(m: Model) returns (ok: bool)
      requires WF(symbols)
      modifies this
      ensures Validated(Consume(m, old(symbols)), ok, old(symbols), old(output), symbols, output)
      decreases m, 2
    {
      match m
      case Decl(id) =>
        ok := ValidateElement(id);
      case Any(_) =>
        ok := ValidateWildcard();
      case Particle(_, _, _) =>
        ok := ValidateParticle(m);
      case Group(compositor, _) =>
        if compositor == Choice {
          ok := ValidateChoice(m);
        } else {
          ok := ValidateGroup(m);
        }
    }

    /** ElementDeclaration._validate */
    method ValidateElement(id: nat) returns (ok: bool)
      requires WF(symbols)
      modifies this
      ensures Validated(Consume(Decl(id), old(symbols)), ok, old(symbols), old(output), symbols, output)
    {
      var k := DeclKey(id);
      if k !in symbols {
        return false;
      }
      var values := symbols[k];
      var used := values[0];
      values := values[1..];
      symbols := symbols[k := values];
      output := output + [Use(k, used)];
      if |values| == 0 {
        symbols := symbols - {k};
      }
      ok := true;
    }

    /** Wildcard._validate: takes the next wildcard value without checking the namespace constraint. */
    method ValidateWildcard() returns (ok: bool)
      requires WF(symbols)
      modifies this
      ensures forall c :: Validated(Consume(Any(c), old(symbols)), ok, old(symbols), old(output), symbols, output)
    {
      var k := WildcardKey;
      if k !in symbols {
        return false;
      }
      var values := symbols[k];
      var used := values[0];
      values := values[1..];
      symbols := symbols[k := values];
      output := output + [Use(k, used)];
      if |values| == 0 {
        symbols := symbols - {k};
      }
      ok := true;
    }

    /** ParticleModel._validate: repeat the term on a clone, then keep the clone only if the count satisfies the occurrences. */
    method ValidateParticle(p: Model) returns (ok: bool)
      requires p.Particle? && WF(symbols)
      modifies this
      ensures Validated(Consume(p, old(symbols)), ok, old(symbols), old(output), symbols, output)
      decreases p, 1
    {
      ghost var s0 := symbols;
      ConservesSelf(s0);
      var mut := Clone();
      var count: nat := 0;
      var lastSize := |mut.output|;
      var done := false;
      ghost var produced: seq<Use> := [];
      while !done
        invariant fresh(mut) && symbols == s0 && output == old(output)
        invariant WF(mut.symbols) && mut.output == output + produced && lastSize == |mut.output|
        invariant Conserves(s0, mut.symbols, produced)
        invariant !done ==> Repeat(p, s0, 0, Step(s0, [])) == Repeat(p, s0, count, Step(mut.symbols, produced))
        invariant done ==> Repeat(p, s0, 0, Step(s0, [])) == (count, Step(mut.symbols, produced))
        decreases if done then 0 else 1, Measure(Enumerate(s0.Keys), mut.symbols)
      {
        ghost var acc := Step(mut.symbols, produced);
        RoundIsRepeat(p, s0, count, acc);
        done, count, produced := mut.ParticleRound(p, count, lastSize, produced, output);
        lastSize := |mut.output|;
      }
      ok := SatisfiesOccurrences(p.minOccurs, p.maxOccurs, count);
      ParticleIsRepeat(p, s0);
      if ok {
        ReplaceResults(mut);
      }
    }

    /**
     * One round of ParticleModel._validate's loop, on the clone: stop at
     * maxOccurs or when the term fails; otherwise count the occurrence, or,
     * when the output did not grow, raise the count to minOccurs and stop.
     */
    method ParticleRound(p: Model, count: nat, lastSize: nat, ghost produced: seq<Use>, ghost prefix: seq<Use>)
      returns (done: bool, count': nat, ghost produced': seq<Use>)
      requires p.Particle? && WF(symbols) && output == prefix + produced && lastSize == |output|
      modifies this
      ensures output == prefix + produced'
      ensures (done, count', Step(symbols, produced')) == Round(p, count, Step(old(symbols), produced))
      decreases p, 0
    {
      ghost var acc := Step(symbols, produced);
      count', produced' := count, produced;
      done := true;
      if p.maxOccurs != Some(count) {
        var termOk := Validate(p.term);
        if termOk {
          ghost var st := Consume(p.term, acc.rest).value;
          produced' := produced + st.produced;
          assert output == prefix + produced';
          if |output| == lastSize {
            if count < p.minOccurs {
              count' := p.minOccurs;
            }
          } else {
            count' := count + 1;
            done := false;
          }
        }
      }
    }

    /** _Group._validate (sequence and all): every particle in turn on a clone, which replaces the originals on success. */
    method ValidateGroup(g: Model) returns (ok: bool)
      requires g.Group? && WF(symbols)
      modifies this
      ensures Validated(ConsumeEach(g, 0, old(symbols), Step(old(symbols), [])), ok, old(symbols), old(output), symbols, output)
      ensures g.compositor != Choice ==> Validated(Consume(g, old(symbols)), ok, old(symbols), old(output), symbols, output)
      decreases g, 1
    {
      ghost var s0 := symbols;
      ghost var n0 := |output|;
      ConservesSelf(s0);
      var mut := Clone();
      assert mut.output[n0..] == [];
      var i := 0;
      while i < |g.particles|
        invariant 0 <= i <= |g.particles|
        invariant fresh(mut) && symbols == s0 && output == old(output)
        invariant WF(mut.symbols) && |mut.output| >= n0 && mut.output[..n0] == output
        invariant Conserves(s0, mut.symbols, mut.output[n0..])
        invariant ConsumeEach(g, 0, s0, Step(s0, [])) == ConsumeEach(g, i, s0, Step(mut.symbols, mut.output[n0..]))
      {
        ghost var acc := Step(mut.symbols, mut.output[n0..]);
        assert g.particles[i] in g.particles;
        var r := mut.Validate(g.particles[i]);
        if !r {
          return false;
        }
        ghost var st := Consume(g.particles[i], acc.rest).value;
        assert mut.output[n0..] == acc.produced + st.produced;
        ConservesTrans(s0, acc.rest, acc.produced, st.rest, st.produced);
        i := i + 1;
      }
      assert mut.output == old(output) + mut.output[n0..];
      ReplaceResults(mut);
      ok := true;
    }

    /**
     * GroupChoice._validate: each particle on a clone, taken afresh only
     * after a particle changed it; the first success replaces the originals.
     */
    method ValidateChoice(g: Model) returns (ok: bool)
      requires g.Group? && WF(symbols)
      modifies this
      ensures Validated(ConsumeFirst(g, 0, old(symbols)), ok, old(symbols), old(output), symbols, output)
      ensures g.compositor == Choice ==> Validated(Consume(g, old(symbols)), ok, old(symbols), old(output), symbols, output)
      decreases g, 1
    {
      var resetMutables := true;
      var mut := Clone();
      var i := 0;
      while i < |g.particles|
        invariant 0 <= i <= |g.particles|
        invariant fresh(mut) && symbols == old(symbols) && output == old(output)
        invariant !resetMutables ==> mut.symbols == symbols && mut.output == output
        invariant ConsumeFirst(g, 0, symbols) == ConsumeFirst(g, i, symbols)
      {
        if resetMutables {
          mut := Clone();
        }
        assert g.particles[i] in g.particles;
        var r := mut.Validate(g.particles[i]);
        if r {
          ReplaceResults(mut);
          return true;
        }
        resetMutables := |output| != |mut.output|;
        i := i + 1;
      }
      ok := false;
    }

    /**
     * ParticleModel.validate: _validate on a fresh output sequence; the
     * reduced symbols and the sequence on success, None (symbols untouched)
     * otherwise.
     */
    method ValidateSymbolSet(p: Model) returns (r: Option<Step>)
      requires p.Particle? && WF(symbols)
      modifies this
      ensures r == Consume(p, old(symbols))
      ensures r.Some? ==> symbols == r.value.rest && output == r.value.produced
      ensures r.None? ==> symbols == old(symbols) && output == []
    {
      output := [];
      var ok := ValidateParticle(p);
      if ok {
        assert [] + Consume(p, old(symbols)).value.produced == Consume(p, old(symbols)).value.produced;
        r := Some(Step(symbols, output));
      } else {
        r := None;
      }
    }
  }
}
