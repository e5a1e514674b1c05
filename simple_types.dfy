/**
 * Union and list simple types: the union factory and member validation,
 * list item validation and whitespace splitting, the live list whose
 * mutators validate before they change anything, literals, and the
 * _CheckValidValue test shared by all simple types.
 */
module SimpleTypes {
  import opened Values
  import opened Environment

  // ---------------------------------------------------------------- unions

  /** Calling a class; a union class refuses to be instantiated. */
  function Construct(h: Host, c: ClassId, args: seq<Value>): (r: Result<Value>)
    ensures IsUnion(h, c) ==> r == Err(LogicError)
    ensures !IsUnion(h, c) ==> r == h.construct(c, args)
  {
    if IsUnion(h, c) then Err(LogicError) else h.construct(c, args)
  }

  /** cls.Factory: the union factory for union classes, the generated factory otherwise. */
  function Factory(h: Host, c: ClassId, args: seq<Value>, validate: bool): Result<Value>
    requires WellFormed(h)
    decreases c, 2, 0
  {
    if IsUnion(h, c) then UnionFactory(h, c, args, validate) else h.factory(c, args, validate)
  }

  predicate IsInstanceOfAny(h: Host, v: Value, ms: seq<ClassId>)
  {
    exists i | 0 <= i < |ms| :: IsInstance(h, v, ms[i])
  }

  /** The errors _ValidatedMember swallows while it tries the next member type. */
  predicate Swallowed(e: Error)
  {
    e.HostTypeError? || IsSimpleTypeValueError(e)
  }

  /** STD_union.Factory. */
  function UnionFactory(h: Host, c: ClassId, args: seq<Value>, validate: bool): Result<Value>
    requires WellFormed(h)
    decreases c, 1, 0
  {
    var first: Result<Option<Value>> :=
      if |args| > 0 then
        match ValidatedMember(h, c, args[0])
        case Ok(v) => Ok(Some(v))
        case Err(e) => if IsSimpleTypeValueError(e) then Ok(None) else Err(e)
      else Ok(None);
    if first.Err? then Err(first.error)
    else
      var rv := if first.value.Some? then first.value else FirstMemberFactory(h, c, 0, args);
      match rv
      case None => Err(SimpleUnionValueError)
      case Some(v) =>
        if validate then
          match ConstraintsOK(h, c, v)
          case Err(e) => Err(e)
          case Ok(_) => Ok(v)
        else Ok(v)
  }

  /** The validating Factory of the j-th member type of a union. */
  function MemberFactory(h: Host, c: ClassId, j: nat, args: seq<Value>): Result<Value>
    requires WellFormed(h) && j < |MemberTypes(h, c)|
    decreases c, 0, |MemberTypes(h, c)| - j - 1
  {
    Factory(h, MemberTypes(h, c)[j], args, true)
  }

  /** The fallback member loop of Factory: the first member whose factory succeeds; every failure is swallowed. */
  function FirstMemberFactory(h: Host, c: ClassId, i: nat, args: seq<Value>): Option<Value>
    requires WellFormed(h)
    requires i <= |MemberTypes(h, c)|
    decreases c, 0, |MemberTypes(h, c)| - i
  {
    var ms := MemberTypes(h, c);
    if i == |ms| then None
    else match MemberFactory(h, c, i, args)
      case Ok(v) => Some(v)
      case Err(_) => FirstMemberFactory(h, c, i + 1, args)
  }

  /** The fallback loop finds nothing exactly when every remaining member refuses the arguments. */
  lemma {:induction false} FirstMemberFactoryNone(h: Host, c: ClassId, i: nat, args: seq<Value>)
    requires WellFormed(h)
    requires i <= |MemberTypes(h, c)|
    ensures var ms := MemberTypes(h, c);
            FirstMemberFactory(h, c, i, args).None? <==> forall j | i <= j < |ms| :: MemberFactory(h, c, j, args).Err?
    decreases |MemberTypes(h, c)| - i
  {
    var ms := MemberTypes(h, c);
    if i < |ms| {
      var f := MemberFactory(h, c, i, args);
      if f.Ok? {
        assert FirstMemberFactory(h, c, i, args) == Some(f.value);
        assert !MemberFactory(h, c, i, args).Err?;
        assert i <= i < |ms|;
        assert !(forall j | i <= j < |ms| :: MemberFactory(h, c, j, args).Err?);
      } else {
        FirstMemberFactoryNone(h, c, i + 1, args);
        assert FirstMemberFactory(h, c, i, args) == FirstMemberFactory(h, c, i + 1, args);
      }
    }
  }

  /** The fallback loop returns what the first member that accepts the arguments built. */
  lemma {:induction false} FirstMemberFactoryFinds(h: Host, c: ClassId, i: nat, args: seq<Value>, k: nat)
    requires WellFormed(h)
    requires i <= k < |MemberTypes(h, c)| && MemberFactory(h, c, k, args).Ok?
    requires forall j | i <= j < k :: MemberFactory(h, c, j, args).Err?
    ensures FirstMemberFactory(h, c, i, args) == Some(MemberFactory(h, c, k, args).value)
    decreases k - i
  {
    if i < k {
      FirstMemberFactoryFinds(h, c, i + 1, args, k);
      assert MemberFactory(h, c, i, args).Err?;
    }
  }

  /** STD_union._ValidatedMember. */
  function ValidatedMember(h: Host, c: ClassId, v: Value): Result<Value>
    requires WellFormed(h)
    decreases c, 0, |MemberTypes(h, c)| + 1
  {
    if IsInstanceOfAny(h, v, MemberTypes(h, c)) then Ok(v) else TryMembers(h, c, 0, v)
  }

  /**
   * The member loop of _ValidatedMember: the value built by the first member
   * whose factory succeeds; a failure other than a type error or a simple
   * type value error stops the search.
   */
  function TryMembers(h: Host, c: ClassId, i: nat, v: Value): (r: Result<Value>)
    requires WellFormed(h)
    requires i <= |MemberTypes(h, c)|
    ensures r.Err? && r.error != SimpleUnionValueError ==> !Swallowed(r.error)
    decreases c, 0, |MemberTypes(h, c)| - i
  {
    var ms := MemberTypes(h, c);
    if i == |ms| then Err(SimpleUnionValueError)
    else match MemberFactory(h, c, i, [v])
      case Ok(w) => Ok(w)
      case Err(e) => if Swallowed(e) then TryMembers(h, c, i + 1, v) else Err(e)
  }

  /** STD_union.XsdLiteral: the member value the union accepts renders itself through its own class. */
  function UnionLiteral(h: Host, c: ClassId, v: Value): Result<string>
    requires WellFormed(h)
  {
    match ValidatedMember(h, c, v)
    case Ok(m) => Ok(h.literal(TypeOf(m), m))
    case Err(e) => Err(e)
  }

  /** A value of class c: an instance of c or, for a union, a value of one of its member types. */
  predicate Conforms(h: Host, c: ClassId, v: Value)
    requires WellFormed(h)
    decreases c
  {
    IsInstance(h, v, c)
    || (IsUnion(h, c) && exists i | 0 <= i < |MemberTypes(h, c)| :: Conforms(h, MemberTypes(h, c)[i], v))
  }

  /** Belonging to a class depends only on the value's type. */
  lemma {:induction false} ConformsByType(h: Host, c: ClassId, v: Value, w: Value)
    requires WellFormed(h) && TypeOf(v) == TypeOf(w)
    ensures Conforms(h, c, v) <==> Conforms(h, c, w)
    decreases c
  {
    if IsUnion(h, c) {
      forall i | 0 <= i < |MemberTypes(h, c)|
        ensures Conforms(h, MemberTypes(h, c)[i], v) <==> Conforms(h, MemberTypes(h, c)[i], w)
      {
        ConformsByType(h, MemberTypes(h, c)[i], v, w);
      }
    }
  }

  /** A union passes a value that already belongs to a member type through unchanged. */
  lemma UnionKeepsMemberValues(h: Host, c: ClassId, v: Value, validate: bool)
    requires WellFormed(h) && IsUnion(h, c)
    requires IsInstanceOfAny(h, v, MemberTypes(h, c))
    ensures Factory(h, c, [v], validate)
         == if validate && ConstraintsOK(h, c, v).Err? then Err(ConstraintsOK(h, c, v).error) else Ok(v)
  {
    assert ValidatedMember(h, c, v) == Ok(v);
    assert Factory(h, c, [v], validate) == UnionFactory(h, c, [v], validate);
  }

  /** The member search of _ValidatedMember reports SimpleUnionValueError only when every member failed with a swallowed error. */
  lemma {:induction false} TryMembersExhausted(h: Host, c: ClassId, i: nat, v: Value)
    requires WellFormed(h)
    requires i <= |MemberTypes(h, c)|
    ensures var ms := MemberTypes(h, c); var r := TryMembers(h, c, i, v);
            r.Err? && r.error == SimpleUnionValueError ==>
              forall j | i <= j < |ms| :: MemberFactory(h, c, j, [v]).Err? && Swallowed(MemberFactory(h, c, j, [v]).error)
    decreases |MemberTypes(h, c)| - i
  {
    var ms := MemberTypes(h, c);
    if i < |ms| {
      var f := MemberFactory(h, c, i, [v]);
      if f.Err? && Swallowed(f.error) {
        TryMembersExhausted(h, c, i + 1, v);
        assert TryMembers(h, c, i, v) == TryMembers(h, c, i + 1, v);
      } else {
        assert TryMembers(h, c, i, v) == f;
      }
    }
  }

  /**
   * For a value of no member type, the union factory is the member search
   * of _ValidatedMember: the fallback loop can only retry members that
   * already failed.
   */
  lemma {:induction false} UnionFactoryIsMemberSearch(h: Host, c: ClassId, v: Value, validate: bool)
    requires WellFormed(h) && IsUnion(h, c)
    requires !IsInstanceOfAny(h, v, MemberTypes(h, c))
    ensures Factory(h, c, [v], validate)
         == match TryMembers(h, c, 0, v)
            case Err(e) => Err(e)
            case Ok(w) =>
              if validate && ConstraintsOK(h, c, w).Err? then Err(ConstraintsOK(h, c, w).error) else Ok(w)
  {
    var t := TryMembers(h, c, 0, v);
    assert ValidatedMember(h, c, v) == t;
    assert Factory(h, c, [v], validate) == UnionFactory(h, c, [v], validate);
    if t.Err? && t.error == SimpleUnionValueError {
      TryMembersExhausted(h, c, 0, v);
      FirstMemberFactoryNone(h, c, 0, [v]);
    }
  }

  /** The union factory picks the first member type, in declared order, that accepts the value. */
  lemma UnionOrderDependence(h: Host, c: ClassId, v: Value, k: nat, w: Value)
    requires WellFormed(h) && IsUnion(h, c)
    requires !IsInstanceOfAny(h, v, MemberTypes(h, c))
    requires k < |MemberTypes(h, c)| && MemberFactory(h, c, k, [v]) == Ok(w)
    requires forall j | 0 <= j < k :: MemberFactory(h, c, j, [v]).Err?
                                      && Swallowed(MemberFactory(h, c, j, [v]).error)
    ensures Factory(h, c, [v], false) == Ok(w)
  {
    UnionFactoryIsMemberSearch(h, c, v, false);
    TryMembersFinds(h, c, 0, v, k, w);
  }

  lemma {:induction false} TryMembersFinds(h: Host, c: ClassId, i: nat, v: Value, k: nat, w: Value)
    requires WellFormed(h)
    requires i <= k < |MemberTypes(h, c)| && MemberFactory(h, c, k, [v]) == Ok(w)
    requires forall j | i <= j < k :: MemberFactory(h, c, j, [v]).Err?
                                      && Swallowed(MemberFactory(h, c, j, [v]).error)
    ensures TryMembers(h, c, i, v) == Ok(w)
    decreases k - i
  {
    if i < k {
      TryMembersFinds(h, c, i + 1, v, k, w);
    }
  }

  /** Everything a factory returns belongs to the class asked for. */
  lemma {:induction false} FactoryConforms(h: Host, c: ClassId, args: seq<Value>, validate: bool)
    requires WellFormed(h) && Sound(h)
    ensures Factory(h, c, args, validate).Ok? ==> Conforms(h, c, Factory(h, c, args, validate).value)
    decreases c, 2, 0
  {
    if IsUnion(h, c) {
      UnionFactoryConforms(h, c, args, validate);
    }
  }

  lemma {:induction false} UnionFactoryConforms(h: Host, c: ClassId, args: seq<Value>, validate: bool)
    requires WellFormed(h) && Sound(h) && IsUnion(h, c)
    ensures UnionFactory(h, c, args, validate).Ok? ==> Conforms(h, c, UnionFactory(h, c, args, validate).value)
    decreases c, 1, 0
  {
    if |args| > 0 {
      ValidatedMemberConforms(h, c, args[0]);
    }
    FirstMemberFactoryConforms(h, c, 0, args);
  }

  lemma {:induction false} ValidatedMemberConforms(h: Host, c: ClassId, v: Value)
    requires WellFormed(h) && Sound(h) && IsUnion(h, c)
    ensures ValidatedMember(h, c, v).Ok? ==> Conforms(h, c, ValidatedMember(h, c, v).value)
    decreases c, 0, |MemberTypes(h, c)| + 1
  {
    var ms := MemberTypes(h, c);
    if IsInstanceOfAny(h, v, ms) {
      var i :| 0 <= i < |ms| && IsInstance(h, v, ms[i]);
      assert Conforms(h, ms[i], v);
    } else {
      TryMembersConforms(h, c, 0, v);
    }
  }

  lemma {:induction false} TryMembersConforms(h: Host, c: ClassId, i: nat, v: Value)
    requires WellFormed(h) && Sound(h) && IsUnion(h, c)
    requires i <= |MemberTypes(h, c)|
    ensures TryMembers(h, c, i, v).Ok? ==> Conforms(h, c, TryMembers(h, c, i, v).value)
    decreases c, 0, |MemberTypes(h, c)| - i
  {
    var ms := MemberTypes(h, c);
    if i < |ms| {
      FactoryConforms(h, ms[i], [v], true);
      TryMembersConforms(h, c, i + 1, v);
    }
  }

  lemma {:induction false} FirstMemberFactoryConforms(h: Host, c: ClassId, i: nat, args: seq<Value>)
    requires WellFormed(h) && Sound(h) && IsUnion(h, c)
    requires i <= |MemberTypes(h, c)|
    ensures FirstMemberFactory(h, c, i, args).Some? ==> Conforms(h, c, FirstMemberFactory(h, c, i, args).value)
    decreases c, 0, |MemberTypes(h, c)| - i
  {
    var ms := MemberTypes(h, c);
    if i < |ms| {
      FactoryConforms(h, ms[i], args, true);
      FirstMemberFactoryConforms(h, c, i + 1, args);
    }
  }

  // ---------------------------------------------------------------- lists

  /** STD_list._ValidatedItem: an item of the list's item type, converted if need be. */
  function ValidatedItem(h: Host, c: ClassId, v: Value): Result<Value>
    requires WellFormed(h)
  {
    match ItemTypeOf(h, c)
    case None => Err(HostTypeError)
    case Some(t) =>
      if IsInstance(h, v, t) then Ok(v)
      else if IsUnion(h, t) then ValidatedMember(h, t, v)
      else
        match Construct(h, t, [v])
        case Ok(w) => Ok(w)
        case Err(e) => if IsSimpleTypeValueError(e) || e.HostTypeError? then Err(SimpleListValueError) else Err(e)
  }

  predicate IsItem(h: Host, c: ClassId, v: Value)
    requires WellFormed(h)
  {
    ItemTypeOf(h, c).Some? && Conforms(h, ItemTypeOf(h, c).value, v)
  }

  /** Whatever _ValidatedItem lets into a list belongs to the item type. */
  lemma ValidatedItemIsItem(h: Host, c: ClassId, v: Value)
    requires WellFormed(h) && Sound(h)
    ensures ValidatedItem(h, c, v).Ok? ==> IsItem(h, c, ValidatedItem(h, c, v).value)
  {
    match ItemTypeOf(h, c)
    case None =>
    case Some(t) =>
      if !IsInstance(h, v, t) && IsUnion(h, t) {
        ValidatedMemberConforms(h, t, v);
      }
  }

  /** Converts every value in order; the first failure is raised. */
  function ValidateAll(h: Host, c: ClassId, vs: seq<Value>): (r: Result<seq<Value>>)
    requires WellFormed(h)
    ensures r.Ok? ==> |r.value| == |vs| && forall i | 0 <= i < |vs| :: ValidatedItem(h, c, vs[i]) == Ok(r.value[i])
    ensures r.Err? ==> exists i | 0 <= i < |vs| :: ValidatedItem(h, c, vs[i]) == Err(r.error)
                                                  && forall j | 0 <= j < i :: ValidatedItem(h, c, vs[j]).Ok?
    decreases |vs|
  {
    if |vs| == 0 then Ok([])
    else match ValidatedItem(h, c, vs[0])
      case Err(e) => Err(e)
      case Ok(w) =>
        match ValidateAll(h, c, vs[1..])
        case Err(e) =>
          assert exists i | 0 <= i < |vs[1..]| ::
                   (ValidatedItem(h, c, vs[1..][i]) == Err(e)
                    && (forall j | 0 <= j < i :: ValidatedItem(h, c, vs[1..][j]).Ok?)
                    && vs[1..][i] == vs[i + 1]);
          Err(e)
        case Ok(ws) => Ok([w] + ws)
  }

  /** Python's str.split() with no separator. */
  function SplitWhitespace(s: string): (r: seq<string>)
    ensures forall i | 0 <= i < |r| :: IsToken(r[i])
    decreases |s|
  {
    if |s| == 0 then []
    else if IsSpace(s[0]) then SplitWhitespace(s[1..])
    else
      var n := TokenLength(s);
      [s[..n]] + SplitWhitespace(s[n..])
  }

  /** A non-empty run of non-whitespace characters. */
  predicate IsToken(t: string)
  {
    |t| > 0 && forall i | 0 <= i < |t| :: !IsSpace(t[i])
  }

  function TokenLength(s: string): (n: nat)
    requires |s| > 0 && !IsSpace(s[0])
    ensures 1 <= n <= |s| && IsToken(s[..n]) && (n == |s| || IsSpace(s[n]))
    decreases |s|
  {
    if |s| == 1 || IsSpace(s[1]) then 1 else 1 + TokenLength(s[1..])
  }

  /** ' '.join(tokens) */
  function JoinSpace(tokens: seq<string>): string
    decreases |tokens|
  {
    if |tokens| == 0 then ""
    else if |tokens| == 1 then tokens[0]
    else tokens[0] + " " + JoinSpace(tokens[1..])
  }

  lemma {:induction false} SplitToken(t: string, rest: string)
    requires IsToken(t)
    requires |rest| == 0 || IsSpace(rest[0])
    ensures SplitWhitespace(t + rest) == [t] + SplitWhitespace(rest)
    decreases |t|
  {
    var s := t + rest;
    assert s[0] == t[0];
    TokenLengthOf(t, rest);
    assert s[..|t|] == t && s[|t|..] == rest;
  }

  lemma {:induction false} TokenLengthOf(t: string, rest: string)
    requires IsToken(t)
    requires |rest| == 0 || IsSpace(rest[0])
    ensures TokenLength(t + rest) == |t|
    decreases |t|
  {
    var s := t + rest;
    if |t| > 1 {
      assert s[1..] == t[1..] + rest;
      assert s[1] == t[1];
      TokenLengthOf(t[1..], rest);
    } else if |s| > 1 {
      assert s[1] == rest[0];
    }
  }

  /** Splitting the space-joined literal of a list gives back its item literals. */
  lemma {:induction false} SplitJoin(tokens: seq<string>)
    requires forall i | 0 <= i < |tokens| :: IsToken(tokens[i])
    ensures SplitWhitespace(JoinSpace(tokens)) == tokens
    decreases |tokens|
  {
    if |tokens| == 1 {
      SplitToken(tokens[0], "");
      assert tokens[0] + "" == tokens[0];
    } else if |tokens| > 1 {
      var tail := JoinSpace(tokens[1..]);
      var rest := " " + tail;
      assert JoinSpace(tokens) == tokens[0] + rest;
      SplitToken(tokens[0], rest);
      SkipSpace(tail);
      SplitJoin(tokens[1..]);
      calc {
        SplitWhitespace(JoinSpace(tokens));
        [tokens[0]] + SplitWhitespace(rest);
        [tokens[0]] + tokens[1..];
        tokens;
      }
    }
  }

  lemma SkipSpace(s: string)
    ensures SplitWhitespace(" " + s) == SplitWhitespace(s)
  {
    assert (" " + s)[1..] == s;
  }

  function TextItems(tokens: seq<string>): (r: seq<Value>)
    ensures |r| == |tokens| && forall i | 0 <= i < |r| :: r[i] == Text(tokens[i])
  {
    if |tokens| == 0 then [] else [Text(tokens[0])] + TextItems(tokens[1..])
  }

  /** STD_list._ConvertArguments_vx on a first argument: strings are split, iterables validated item by item. */
  function ConvertArgument(h: Host, c: ClassId, arg: Value): Result<Value>
    requires WellFormed(h)
  {
    var arg1 := if arg.Text? then Items(LIST, TextItems(SplitWhitespace(arg.text))) else arg;
    if arg1.Items? then
      match ValidateAll(h, c, arg1.items)
      case Ok(ws) => Ok(Items(LIST, ws))
      case Err(e) => Err(e)
    else Ok(arg1)
  }

  /** Constructing a list from the literal of its items validates exactly those item literals. */
  lemma ListFromLiteral(h: Host, c: ClassId, tokens: seq<string>)
    requires WellFormed(h)
    requires forall i | 0 <= i < |tokens| :: IsToken(tokens[i])
    ensures ConvertArgument(h, c, Text(JoinSpace(tokens)))
         == match ValidateAll(h, c, TextItems(tokens)) case Ok(ws) => Ok(Items(LIST, ws)) case Err(e) => Err(e)
  {
    SplitJoin(tokens);
  }

  /** _ItemType.XsdLiteral(item): a union item type renders the member value it accepts. */
  function ItemLiteral(h: Host, t: ClassId, v: Value): Result<string>
    requires WellFormed(h)
  {
    if IsUnion(h, t) then UnionLiteral(h, t, v) else Ok(h.literal(t, v))
  }

  function ItemLiterals(h: Host, t: ClassId, vs: seq<Value>): (r: Result<seq<string>>)
    requires WellFormed(h)
    ensures r.Ok? ==> |r.value| == |vs| && forall i | 0 <= i < |vs| :: ItemLiteral(h, t, vs[i]) == Ok(r.value[i])
    decreases |vs|
  {
    if |vs| == 0 then Ok([])
    else match ItemLiteral(h, t, vs[0])
      case Err(e) => Err(e)
      case Ok(l) =>
        match ItemLiterals(h, t, vs[1..])
        case Err(e) => Err(e)
        case Ok(ls) => Ok([l] + ls)
  }

  /** STD_list.XsdLiteral: the item type is looked up once per item, so an empty list is "" whatever the class. */
  function ListLiteral(h: Host, c: ClassId, vs: seq<Value>): Result<string>
    requires WellFormed(h)
  {
    if |vs| == 0 then Ok("")
    else match ItemTypeOf(h, c)
    case None => Err(HostAttributeError)
    case Some(t) =>
      match ItemLiterals(h, t, vs)
      case Ok(ls) => Ok(JoinSpace(ls))
      case Err(e) => Err(e)
  }

  /** A list literal splits back into one literal per item when no item literal is empty or holds whitespace. */
  lemma ListLiteralSplits(h: Host, c: ClassId, vs: seq<Value>)
    requires WellFormed(h)
    requires ListLiteral(h, c, vs).Ok?
    requires ItemTypeOf(h, c).Some?
    requires var ls := ItemLiterals(h, ItemTypeOf(h, c).value, vs);
             ls.Ok? && forall i | 0 <= i < |ls.value| :: IsToken(ls.value[i])
    ensures |SplitWhitespace(ListLiteral(h, c, vs).value)| == |vs|
    ensures forall i | 0 <= i < |vs| ::
              ItemLiteral(h, ItemTypeOf(h, c).value, vs[i]) == Ok(SplitWhitespace(ListLiteral(h, c, vs).value)[i])
  {
    SplitJoin(ItemLiterals(h, ItemTypeOf(h, c).value, vs).value);
  }

  /** The position list.insert uses for index i in a list of length n. */
  function InsertPosition(i: int, n: nat): (p: nat)
    ensures p <= n
    ensures 0 <= i <= n ==> p == i
    ensures i < 0 && 0 <= i + n ==> p == n + i
  {
    if i < 0 then (if i + n < 0 then 0 else i + n) else if i > n then n else i
  }

  /** The element an index designates, counting negative indexes from the end. */
  function ItemPosition(i: int, n: nat): (p: Option<nat>)
    ensures p.Some? ==> p.value < n
    ensures p.None? <==> i + n < 0 || i >= n
  {
    var j := if i < 0 then i + n else i;
    if 0 <= j < n then Some(j) else None
  }

  /** The positions of the items the host considers equal to v. */
  ghost function EqualPositions(h: Host, items: seq<Value>, v: Value): set<nat>
  {
    set i: nat | i < |items| && h.equals(items[i], v)
  }

  /** The number of items the host considers equal to v. */
  function CountEqual(h: Host, items: seq<Value>, v: Value): (n: nat)
    ensures n == |EqualPositions(h, items, v)|
    ensures n <= |items|
    ensures n == 0 <==> forall i | 0 <= i < |items| :: !h.equals(items[i], v)
    decreases |items|
  {
    if |items| == 0 then 0
    else
      var last := |items| - 1;
      var init := items[..last];
      assert EqualPositions(h, items, v)
          == EqualPositions(h, init, v) + (if h.equals(items[last], v) then {last} else {});
      assert forall i | 0 <= i < last :: init[i] == items[i];
      CountEqual(h, init, v) + (if h.equals(items[last], v) then 1 else 0)
  }

  /** Where list.index starts searching: the clamped start bound, or the front. */
  function SearchStart(bounds: seq<int>, n: nat): (lo: nat)
    ensures lo <= n
    ensures |bounds| == 0 ==> lo == 0
    ensures |bounds| > 0 && 0 <= bounds[0] <= n ==> lo == bounds[0]
  {
    if |bounds| == 0 then 0 else InsertPosition(bounds[0], n)
  }

  /** Where list.index stops searching: the clamped stop bound, or the end; never before the start. */
  function SearchStop(bounds: seq<int>, n: nat): (hi: nat)
    ensures SearchStart(bounds, n) <= hi <= n
    ensures |bounds| < 2 ==> hi == n
    ensures |bounds| >= 2 && SearchStart(bounds, n) <= bounds[1] <= n ==> hi == bounds[1]
  {
    var lo := SearchStart(bounds, n);
    var hi := if |bounds| < 2 then n else InsertPosition(bounds[1], n);
    if hi < lo then lo else hi
  }

  /** The first position holding an item the host considers equal to v. */
  function FirstEqual(h: Host, items: seq<Value>, v: Value): (p: Option<nat>)
    ensures p.Some? ==> p.value < |items| && h.equals(items[p.value], v)
                        && forall j | 0 <= j < p.value :: !h.equals(items[j], v)
    ensures p.None? ==> forall j | 0 <= j < |items| :: !h.equals(items[j], v)
  {
    if |items| == 0 then None
    else if h.equals(items[0], v) then Some(0)
    else match FirstEqual(h, items[1..], v)
      case None => None
      case Some(k) => Some(k + 1)
  }

  /**
   * A list binding instance.  Every mutator converts its argument with
   * _ValidatedItem before touching the list, so the items always belong to
   * the item type, and a rejected argument leaves the list as it was.
   */
  class LiveList {
    const host: Host
    const listClass: ClassId
    var items: seq<Value>

    ghost predicate Valid()
      reads this
    {
      WellFormed(host) && Sound(host)
      && forall i | 0 <= i < |items| :: IsItem(host, listClass, items[i])
    }

    /** A list built from items that were validated already. */
    constructor (h: Host, c: ClassId, vs: seq<Value>)
      requires WellFormed(h) && Sound(h)
      requires forall i | 0 <= i < |vs| :: IsItem(h, c, vs[i])
      ensures Valid() && host == h && listClass == c && items == vs
    {
      host := h;
      listClass := c;
      items := vs;
    }

    /** append(x) */
    method Append(x: Value) returns (r: Outcome)
      requires Valid()
      modifies this
      ensures Valid()
      ensures match ValidatedItem(host, listClass, x)
              case Ok(v) => r == Pass && items == old(items) + [v]
              case Err(e) => r == Fail(e) && items == old(items)
    {
      ValidatedItemIsItem(host, listClass, x);
      match ValidatedItem(host, listClass, x)
      case Err(e) =>
        r := Fail(e);
      case Ok(v) =>
        items := items + [v];
        r := Pass;
    }

    /** insert(i, x) */
    method Insert(i: int, x: Value) returns (r: Outcome)
      requires Valid()
      modifies this
      ensures Valid()
      ensures match ValidatedItem(host, listClass, x)
              case Ok(v) =>
                var p := InsertPosition(i, |old(items)|);
                r == Pass && items == old(items)[..p] + [v] + old(items)[p..]
              case Err(e) => r == Fail(e) && items == old(items)
    {
      ValidatedItemIsItem(host, listClass, x);
      match ValidatedItem(host, listClass, x)
      case Err(e) =>
        r := Fail(e);
      case Ok(v) =>
        var p := InsertPosition(i, |items|);
        items := items[..p] + [v] + items[p..];
        r := Pass;
    }

    /** extend(xs): every value is converted before any is added. */
    method Extend(xs: seq<Value>) returns (r: Outcome)
      requires Valid()
      modifies this
      ensures Valid()
      ensures match ValidateAll(host, listClass, xs)
              case Ok(ws) => r == Pass && items == old(items) + ws
              case Err(e) => r == Fail(e) && items == old(items)
    {
      match ValidateAll(host, listClass, xs)
      case Err(e) =>
        r := Fail(e);
      case Ok(ws) =>
        forall k | 0 <= k < |ws| ensures IsItem(host, listClass, ws[k]) {
          ValidatedItemIsItem(host, listClass, xs[k]);
        }
        items := items + ws;
        r := Pass;
    }

    /** self[i] = x */
    method SetItem(i: int, x: Value) returns (r: Outcome)
      requires Valid()
      modifies this
      ensures Valid()
      ensures match ValidatedItem(host, listClass, x)
              case Ok(v) =>
                (match ItemPosition(i, |old(items)|)
                 case Some(p) => r == Pass && items == old(items)[p := v]
                 case None => r == Fail(HostIndexError) && items == old(items))
              case Err(e) => r == Fail(e) && items == old(items)
    {
      ValidatedItemIsItem(host, listClass, x);
      match ValidatedItem(host, listClass, x)
      case Err(e) =>
        r := Fail(e);
      case Ok(v) =>
        match ItemPosition(i, |items|)
        case None =>
          r := Fail(HostIndexError);
        case Some(p) =>
          items := items[p := v];
          r := Pass;
    }

    /** self[i:j] = xs, with the host's clamping of slice bounds. */
    method SetSlice(i: int, j: int, xs: seq<Value>) returns (r: Outcome)
      requires Valid()
      modifies this
      ensures Valid()
      ensures match ValidateAll(host, listClass, xs)
              case Ok(ws) =>
                var lo := InsertPosition(i, |old(items)|);
                var hi := InsertPosition(j, |old(items)|);
                var hi' := if hi < lo then lo else hi;
                r == Pass && items == old(items)[..lo] + ws + old(items)[hi'..]
              case Err(e) => r == Fail(e) && items == old(items)
    {
      match ValidateAll(host, listClass, xs)
      case Err(e) =>
        r := Fail(e);
      case Ok(ws) =>
        forall k | 0 <= k < |ws| ensures IsItem(host, listClass, ws[k]) {
          ValidatedItemIsItem(host, listClass, xs[k]);
        }
        var lo := InsertPosition(i, |items|);
        var hi := InsertPosition(j, |items|);
        if hi < lo {
          hi := lo;
        }
        items := items[..lo] + ws + items[hi..];
        r := Pass;
    }

    /** remove(x): drops the first equal item, or raises ValueError. */
    method Remove(x: Value) returns (r: Outcome)
      requires Valid()
      modifies this
      ensures Valid()
      ensures match ValidatedItem(host, listClass, x)
              case Ok(v) =>
                (match FirstEqual(host, old(items), v)
                 case Some(p) => r == Pass && items == old(items)[..p] + old(items)[p + 1..]
                 case None => r == Fail(HostValueError) && items == old(items))
              case Err(e) => r == Fail(e) && items == old(items)
    {
      match ValidatedItem(host, listClass, x)
      case Err(e) =>
        r := Fail(e);
      case Ok(v) =>
        match FirstEqual(host, items, v)
        case None =>
          r := Fail(HostValueError);
        case Some(p) =>
          items := items[..p] + items[p + 1..];
          r := Pass;
    }

    /** count(x) */
    method Count(x: Value) returns (r: Result<nat>)
      requires Valid()
      ensures match ValidatedItem(host, listClass, x)
              case Ok(v) => r == Ok(CountEqual(host, items, v)) && r.value == |EqualPositions(host, items, v)|
              case Err(e) => r == Err(e)
    {
      match ValidatedItem(host, listClass, x)
      case Err(e) =>
        r := Err(e);
      case Ok(v) =>
        r := Ok(CountEqual(host, items, v));
    }

    /**
     * index(x, *bounds): the first position, within the slice the optional
     * start and stop designate, of an item equal to the converted value, or
     * ValueError; more than two bounds is a TypeError.
     */
    method Index(x: Value, bounds: seq<int>) returns (r: Result<nat>)
      requires Valid()
      ensures match ValidatedItem(host, listClass, x)
              case Ok(v) =>
                if |bounds| > 2 then r == Err(HostTypeError)
                else
                  var lo := SearchStart(bounds, |items|);
                  var hi := SearchStop(bounds, |items|);
                  (r.Ok? ==> lo <= r.value < hi && host.equals(items[r.value], v)
                             && forall j | lo <= j < r.value :: !host.equals(items[j], v))
                  && (r.Err? ==> r.error == HostValueError && forall j | lo <= j < hi :: !host.equals(items[j], v))
              case Err(e) => r == Err(e)
    {
      match ValidatedItem(host, listClass, x)
      case Err(e) =>
        r := Err(e);
      case Ok(v) =>
        if |bounds| > 2 {
          return Err(HostTypeError);
        }
        var lo := SearchStart(bounds, |items|);
        var hi := SearchStop(bounds, |items|);
        var window := items[lo..hi];
        match FirstEqual(host, window, v)
        case None =>
          forall j | lo <= j < hi ensures !host.equals(items[j], v) {
            assert window[j - lo] == items[j];
          }
          r := Err(HostValueError);
        case Some(p) =>
          forall j | lo <= j < lo + p ensures !host.equals(items[j], v) {
            assert window[j - lo] == items[j];
          }
          assert window[p] == items[lo + p];
          r := Ok(lo + p);
    }

    /** x in self */
    method Contains(x: Value) returns (r: Result<bool>)
      requires Valid()
      ensures match ValidatedItem(host, listClass, x)
              case Ok(v) => r.Ok? && (r.value <==> exists i | 0 <= i < |items| :: host.equals(items[i], v))
              case Err(e) => r == Err(e)
    {
      match ValidatedItem(host, listClass, x)
      case Err(e) =>
        r := Err(e);
      case Ok(v) =>
        r := Ok(FirstEqual(host, items, v).Some?);
    }

    /** _XsdValueLength_vx: the length facets measure a list by its item count. */
    function XsdValueLength(): (n: nat)
      reads this
      ensures n == |items|
    {
      |items|
    }
  }

  /**
   * The items a list binding is constructed with: none without arguments,
   * the converted items of the one argument, and a TypeError otherwise;
   * when validation for bindings is on, the new list must then meet the
   * class's facets.
   */
  function ListItems(h: Host, c: ClassId, args: seq<Value>): Result<seq<Value>>
    requires WellFormed(h)
  {
    var converted :=
      if |args| == 0 then Ok([])
      else if |args| > 1 then Err(HostTypeError)
      else match ConvertArgument(h, c, args[0])
        case Ok(Items(_, ws)) => Ok(ws)
        case Ok(_) => Err(HostTypeError)
        case Err(e) => Err(e);
    if converted.Err? || !h.forBinding then converted
    else match ConstraintsOK(h, c, Items(c, converted.value))
      case Err(e) => Err(e)
      case Ok(_) => converted
  }

  /**
   * A list constructed while validation for bindings is on meets its facets,
   * the length facets counting its items; when it violates them, the facet
   * error is raised and no list is built.
   */
  lemma ListMeetsFacets(h: Host, c: ClassId, args: seq<Value>, ws: seq<Value>)
    requires WellFormed(h)
    requires (args == [] && ws == []) || (|args| == 1 && ConvertArgument(h, c, args[0]) == Ok(Items(LIST, ws)))
    ensures ListItems(h, c, args).Ok? && h.forBinding ==> ConstraintsOK(h, c, Items(c, ws)).Ok?
    ensures h.forBinding && ConstraintsOK(h, c, Items(c, ws)).Err? ==>
              ListItems(h, c, args) == Err(ConstraintsOK(h, c, Items(c, ws)).error)
    ensures !h.forBinding ==> ListItems(h, c, args) == Ok(ws)
    ensures ListItems(h, c, args).Ok? ==> ListItems(h, c, args).value == ws
  {
  }

  predicate IsLengthFacet(f: Facet)
  {
    f.kind == Length || f.kind == MinLength || f.kind == MaxLength
  }

  /** What a length facet demands of a value of length n. */
  predicate LengthFacetHolds(f: Facet, n: nat)
  {
    match f.kind
    case Length => n == f.limit
    case MinLength => n >= f.limit
    case MaxLength => n <= f.limit
    case _ => true
  }

  /**
   * The length facets compare a value's _XsdValueLength_vx with their limit;
   * for a list that length is its number of items (LiveList.XsdValueLength).
   */
  ghost predicate LengthFacetsCountItems(h: Host)
  {
    forall f: Facet, c: ClassId, xs: seq<Value> | IsLengthFacet(f) ::
      h.validateFacet(f, Items(c, xs)) <==> LengthFacetHolds(f, |xs|)
  }

  /**
   * A list constructed while validation for bindings is on has as many items
   * as each of its class's length facets allows; a list whose item count
   * violates one of them is never constructed.
   */
  lemma ListLengthWithinFacets(h: Host, c: ClassId, args: seq<Value>, ws: seq<Value>)
    requires WellFormed(h) && LengthFacetsCountItems(h) && h.forBinding
    requires (args == [] && ws == []) || (|args| == 1 && ConvertArgument(h, c, args[0]) == Ok(Items(LIST, ws)))
    ensures ListItems(h, c, args).Ok? ==>
              forall f | f in Facets.FacetSequence(h.hierarchy, h.facetMaps, c) && IsLengthFacet(f) :: LengthFacetHolds(f, |ws|)
    ensures (exists f | f in Facets.FacetSequence(h.hierarchy, h.facetMaps, c) && IsLengthFacet(f) :: !LengthFacetHolds(f, |ws|)) ==>
              ListItems(h, c, args).Err?
  {
    ListMeetsFacets(h, c, args, ws);
    var fs := Facets.FacetSequence(h.hierarchy, h.facetMaps, c);
    forall f | f in fs && IsLengthFacet(f) && ConstraintsOK(h, c, Items(c, ws)).Ok?
      ensures LengthFacetHolds(f, |ws|)
    {
      var i :| 0 <= i < |fs| && fs[i] == f;
      assert h.validateFacet(fs[i], Items(c, ws));
    }
  }

  /** Whatever a list is constructed with belongs to its item type. */
  lemma ListItemsAreItems(h: Host, c: ClassId, args: seq<Value>)
    requires WellFormed(h) && Sound(h)
    requires ListItems(h, c, args).Ok?
    ensures forall k | 0 <= k < |ListItems(h, c, args).value| :: IsItem(h, c, ListItems(h, c, args).value[k])
  {
    if |args| == 1 {
      var ws := ListItems(h, c, args).value;
      var src := if args[0].Text? then TextItems(SplitWhitespace(args[0].text)) else args[0].items;
      forall k | 0 <= k < |ws| ensures IsItem(h, c, ws[k]) {
        ValidatedItemIsItem(h, c, src[k]);
      }
    }
  }

  /** Constructs a list binding from its constructor arguments. */
  method NewList(h: Host, c: ClassId, args: seq<Value>) returns (r: Result<LiveList>)
    requires WellFormed(h) && Sound(h)
    ensures match ListItems(h, c, args)
            case Ok(ws) => r.Ok? && fresh(r.value) && r.value.Valid() && r.value.listClass == c && r.value.items == ws
            case Err(e) => r == Err(e)
  {
    var items: seq<Value>;
    if |args| == 0 {
      items := [];
    } else if |args| > 1 {
      return Err(HostTypeError);
    } else {
      match ConvertArgument(h, c, args[0])
      case Err(e) =>
        return Err(e);
      case Ok(arg) =>
        if !arg.Items? {
          return Err(HostTypeError);
        }
        items := arg.items;
    }
    if h.forBinding {
      var check := ConstraintsOK(h, c, Items(c, items));
      if check.Err? {
        return Err(check.error);
      }
    }
    ListItemsAreItems(h, c, args);
    var l := new LiveList(h, c, items);
    return Ok(l);
  }

  // ---------------------------------------------------------------- checks

  /** The items a host value yields when iterated; a string yields its characters. */
  function Iterate(v: Value): Option<seq<Value>>
  {
    match v
    case Text(s) => Some(Characters(s))
    case Items(_, xs) => Some(xs)
    case _ => None
  }

  function Characters(s: string): (r: seq<Value>)
    ensures |r| == |s| && forall i | 0 <= i < |s| :: r[i] == Text([s[i]])
  {
    if |s| == 0 then [] else [Text([s[0]])] + Characters(s[1..])
  }

  function OutcomeOf(r: Result<Value>): Outcome
  {
    match r
    case Ok(_) => Pass
    case Err(e) => Fail(e)
  }

  /** _IsValidValue: passes, fails with an engine exception (false), or lets a host exception through. */
  function IsValidValue(h: Host, c: ClassId, v: Value): Result<bool>
    requires WellFormed(h)
    decreases c, 2, 0
  {
    match CheckValidValue(h, c, v)
    case Pass => Ok(true)
    case Fail(e) => if IsHostError(e) then Err(e) else Ok(false)
  }

  /** _CheckValidValue */
  function CheckValidValue(h: Host, c: ClassId, v: Value): Outcome
    requires WellFormed(h)
    decreases c, 1, 0
  {
    if v.NoneValue? then Fail(SimpleTypeValueError)
    else if IsList(h, c) then
      match Iterate(v)
      case None => Fail(SimpleTypeValueError)
      case Some(xs) =>
        var items := CheckItems(h, c, xs, 0);
        if items.Fail? then items else OutcomeOf(ConstraintsOK(h, c, v))
    else
      var vc := if IsUnion(h, c) then FirstValidMember(h, c, v, 0) else Ok(Some(c));
      match vc
      case Err(e) => Fail(e)
      case Ok(None) => Fail(SimpleUnionValueError)
      case Ok(Some(k)) =>
        if !IsInstance(h, v, k) then Fail(SimpleTypeValueError) else OutcomeOf(ConstraintsOK(h, k, v))
  }

  /** The item loop of _CheckValidValue for lists. */
  function CheckItems(h: Host, c: ClassId, xs: seq<Value>, i: nat): (r: Outcome)
    requires WellFormed(h)
    requires i <= |xs|
    ensures r.Pass? ==> ItemTypeOf(h, c).Some? || i == |xs|
    ensures r.Pass? ==> forall j | i <= j < |xs| :: IsValidValue(h, ItemTypeOf(h, c).value, xs[j]) == Ok(true)
    decreases c, 0, |xs| - i
  {
    if i == |xs| then Pass
    else match ItemTypeOf(h, c)
      case None => Fail(HostAttributeError)
      case Some(t) =>
        match IsValidValue(h, t, xs[i])
        case Err(e) => Fail(e)
        case Ok(false) => Fail(SimpleListValueError)
        case Ok(true) => CheckItems(h, c, xs, i + 1)
  }

  /** The member loop of _CheckValidValue for unions, from member i on. */
  function FirstValidMember(h: Host, c: ClassId, v: Value, i: nat): Result<Option<ClassId>>
    requires WellFormed(h)
    requires i <= |MemberTypes(h, c)|
    decreases c, 0, |MemberTypes(h, c)| - i
  {
    var ms := MemberTypes(h, c);
    if i == |ms| then Ok(None)
    else match IsValidValue(h, ms[i], v)
      case Err(e) => Err(e)
      case Ok(true) => Ok(Some(ms[i]))
      case Ok(false) => FirstValidMember(h, c, v, i + 1)
  }

  /** The member chosen is the first one that accepts the value: every member before it refuses. */
  lemma {:induction false} FirstValidMemberIsFirst(h: Host, c: ClassId, v: Value, i: nat)
    requires WellFormed(h)
    requires i <= |MemberTypes(h, c)|
    requires FirstValidMember(h, c, v, i).Ok? && FirstValidMember(h, c, v, i).value.Some?
    ensures var m := FirstValidMember(h, c, v, i).value.value;
            exists k | i <= k < |MemberTypes(h, c)| :: MemberTypes(h, c)[k] == m
                                                       && IsValidValue(h, m, v) == Ok(true)
                                                       && forall j | i <= j < k :: IsValidValue(h, MemberTypes(h, c)[j], v) == Ok(false)
    decreases |MemberTypes(h, c)| - i
  {
    var ms := MemberTypes(h, c);
    var r := FirstValidMember(h, c, v, i);
    var verdict := IsValidValue(h, ms[i], v);
    if verdict == Ok(false) {
      assert r == FirstValidMember(h, c, v, i + 1);
      FirstValidMemberIsFirst(h, c, v, i + 1);
      var k :| i + 1 <= k < |ms| && ms[k] == r.value.value && IsValidValue(h, r.value.value, v) == Ok(true)
               && forall j | i + 1 <= j < k :: IsValidValue(h, ms[j], v) == Ok(false);
      assert forall j | i <= j < k :: IsValidValue(h, ms[j], v) == Ok(false) by {
        forall j | i <= j < k
          ensures IsValidValue(h, ms[j], v) == Ok(false)
        {
          if j == i {
            assert IsValidValue(h, ms[j], v) == verdict;
          }
        }
      }
    } else {
      assert verdict == Ok(true) && r == Ok(Some(ms[i]));
    }
  }

  /** No member is chosen exactly when every member refuses the value. */
  lemma {:induction false} FirstValidMemberNone(h: Host, c: ClassId, v: Value, i: nat)
    requires WellFormed(h)
    requires i <= |MemberTypes(h, c)|
    ensures FirstValidMember(h, c, v, i) == Ok(None)
            <==> forall j | i <= j < |MemberTypes(h, c)| :: IsValidValue(h, MemberTypes(h, c)[j], v) == Ok(false)
    decreases |MemberTypes(h, c)| - i
  {
    var ms := MemberTypes(h, c);
    if i < |ms| {
      var verdict := IsValidValue(h, ms[i], v);
      if verdict == Ok(false) {
        assert FirstValidMember(h, c, v, i) == FirstValidMember(h, c, v, i + 1);
        FirstValidMemberNone(h, c, v, i + 1);
        if forall j | i + 1 <= j < |ms| :: IsValidValue(h, ms[j], v) == Ok(false) {
          forall j | i <= j < |ms|
            ensures IsValidValue(h, ms[j], v) == Ok(false)
          {
            if j == i {
              assert IsValidValue(h, ms[j], v) == verdict;
            }
          }
        }
      } else {
        assert FirstValidMember(h, c, v, i) != Ok(None);
        assert IsValidValue(h, ms[i], v) != Ok(false);
      }
    }
  }

  /** An error is that of a member reached after refusals only. */
  lemma {:induction false} FirstValidMemberError(h: Host, c: ClassId, v: Value, i: nat)
    requires WellFormed(h)
    requires i <= |MemberTypes(h, c)|
    requires FirstValidMember(h, c, v, i).Err?
    ensures exists k | i <= k < |MemberTypes(h, c)| ::
              IsValidValue(h, MemberTypes(h, c)[k], v) == Err(FirstValidMember(h, c, v, i).error)
              && forall j | i <= j < k :: IsValidValue(h, MemberTypes(h, c)[j], v) == Ok(false)
    decreases |MemberTypes(h, c)| - i
  {
    var ms := MemberTypes(h, c);
    var r := FirstValidMember(h, c, v, i);
    var verdict := IsValidValue(h, ms[i], v);
    if verdict == Ok(false) {
      assert r == FirstValidMember(h, c, v, i + 1);
      FirstValidMemberError(h, c, v, i + 1);
      var k :| i + 1 <= k < |ms| && IsValidValue(h, ms[k], v) == Err(r.error)
               && forall j | i + 1 <= j < k :: IsValidValue(h, ms[j], v) == Ok(false);
      assert forall j | i <= j < k :: IsValidValue(h, ms[j], v) == Ok(false) by {
        forall j | i <= j < k
          ensures IsValidValue(h, ms[j], v) == Ok(false)
        {
          if j == i {
            assert IsValidValue(h, ms[j], v) == verdict;
          }
        }
      }
    } else {
      assert verdict == Err(r.error);
    }
  }

  /**
   * What passing _CheckValidValue guarantees: a list's items are all valid
   * for the item type and the list meets its own facets; any other value is
   * an instance of the class (for a union, of a member type that accepts it)
   * and meets that class's facets.
   */
  lemma {:induction false} CheckValidValueSound(h: Host, c: ClassId, v: Value)
    requires WellFormed(h)
    requires CheckValidValue(h, c, v).Pass?
    ensures v != NoneValue
    ensures IsList(h, c) ==>
              Iterate(v).Some? && ConstraintsOK(h, c, v).Ok?
              && (|Iterate(v).value| > 0 ==> ItemTypeOf(h, c).Some?)
              && forall j | 0 <= j < |Iterate(v).value| ::
                   IsValidValue(h, ItemTypeOf(h, c).value, Iterate(v).value[j]) == Ok(true)
    ensures !IsList(h, c) ==> Conforms(h, c, v)
    ensures !IsList(h, c) && IsUnion(h, c) ==>
              exists k | 0 <= k < |MemberTypes(h, c)| ::
                var m := MemberTypes(h, c)[k];
                IsValidValue(h, m, v) == Ok(true) && IsInstance(h, v, m) && ConstraintsOK(h, m, v).Ok?
                && forall j | 0 <= j < k :: IsValidValue(h, MemberTypes(h, c)[j], v) == Ok(false)
    ensures !IsList(h, c) && !IsUnion(h, c) ==> IsInstance(h, v, c) && ConstraintsOK(h, c, v).Ok?
  {
    if !IsList(h, c) && IsUnion(h, c) {
      var vc := FirstValidMember(h, c, v, 0);
      FirstValidMemberIsFirst(h, c, v, 0);
      var m := vc.value.value;
      var k :| 0 <= k < |MemberTypes(h, c)| && MemberTypes(h, c)[k] == m && IsValidValue(h, m, v) == Ok(true)
               && forall j | 0 <= j < k :: IsValidValue(h, MemberTypes(h, c)[j], v) == Ok(false);
      assert Conforms(h, m, v);
    }
  }
}
