/**
 * The meaning of the mapping engine as functions on values: type keys, the
 * registry's abstract table, registration, lookup and the result of `Map`.
 * The classes in module AutoMapperCore are proved against these functions.
 */
module MappingSpec {
  import opened JsValues

  /**
   * What `CreateMap`, `GetMapperExpression` and `Map` receive for a type:
   * a class constructor, known by its `name`, or any other value that stands
   * for the type (`{} as IPosicao`, a parsed source object).
   */
  datatype TypeArg = Ctor(name: string) | Val(v: Value)

  /** The registry key of a type argument: a constructor's name, otherwise `typeof`. */
  function TypeKey(a: TypeArg): string {
    match a
    case Ctor(n) => n
    case Val(v) => TypeOf(v)
  }

  /** The pair of keys under which a source/destination pair is registered and looked up. */
  function GetTypes(source: TypeArg, destination: TypeArg): (keys: (string, string))
    ensures source.Ctor? ==> keys.0 == source.name
    ensures destination.Ctor? ==> keys.1 == destination.name
    ensures source.Val? ==> keys.0 == TypeOf(source.v)
    ensures destination.Val? ==> keys.1 == TypeOf(destination.v)
  {
    (TypeKey(source), TypeKey(destination))
  }

  /**
   * The extractor functions (`s => ...`) that configurations pass to `MapFrom`:
   * `s => s.name`, `s => AutoMapper.Map(s.name, Dest)`, `s => new Date(s.name)`
   * and a function that ignores its argument.
   */
  datatype Extractor =
    | Prop(name: string)
    | MapProp(name: string, dest: string)
    | DateProp(name: string)
    | Constant(v: Value)

  /** One `(destinationMember, MemberConfigurationExpression)` entry, by value. */
  datatype MemberConfig = MemberConfig(member: string, chain: seq<Extractor>)

  /** The registry's contents: source key -> destination key -> member list. */
  type Table = map<string, map<string, seq<MemberConfig>>>

  predicate Registered(t: Table, sk: string, dk: string) {
    sk in t && dk in t[sk]
  }

  /** Every inner table holds at least one entry. */
  predicate InnerNonEmpty(t: Table) {
    forall sk :: sk in t ==> |t[sk]| > 0
  }

  /** `GetMapperExpression`: the member list registered for the pair, if any. */
  function Lookup(t: Table, source: TypeArg, destination: TypeArg): (r: Option<seq<MemberConfig>>)
    ensures r.Some? <==> Registered(t, TypeKey(source), TypeKey(destination))
    ensures r.Some? ==> r.value == t[TypeKey(source)][TypeKey(destination)]
  {
    var (sk, dk) := GetTypes(source, destination);
    if sk in t && dk in t[sk] then Some(t[sk][dk]) else None
  }

  /** `CreateMap` on the table: insert an empty member list unless the pair is already present. */
  function Insert(t: Table, sk: string, dk: string): (r: Table)
    ensures Registered(r, sk, dk)
    ensures Registered(t, sk, dk) ==> r == t
    ensures !Registered(t, sk, dk) ==> r[sk][dk] == []
  {
    var inner := if sk in t then t[sk] else map[];
    if dk in inner then t else t[sk := inner[dk := []]]
  }

  /** The table after the stored member list of a registered pair is replaced by `ms`. */
  function WithMembers(t: Table, sk: string, dk: string, ms: seq<MemberConfig>): (r: Table)
    requires Registered(t, sk, dk)
    ensures Registered(r, sk, dk) && r[sk][dk] == ms
  {
    t[sk := t[sk][dk := ms]]
  }

  /** `t` and `r` agree on every pair other than `(sk, dk)`. */
  ghost predicate SameElsewhere(t: Table, r: Table, sk: string, dk: string) {
    forall s, d :: (s, d) != (sk, dk) ==>
      (Registered(r, s, d) <==> Registered(t, s, d)) &&
      (Registered(t, s, d) ==> r[s][d] == t[s][d])
  }

  /** `CreateMap` never removes or alters the entry of another pair, and leaves no inner table empty. */
  lemma InsertKeepsOthers(t: Table, sk: string, dk: string)
    ensures SameElsewhere(t, Insert(t, sk, dk), sk, dk)
    ensures InnerNonEmpty(t) ==> InnerNonEmpty(Insert(t, sk, dk))
  {
  }

  /** Replacing the member list of one pair leaves every other pair as it was. */
  lemma WithMembersKeepsOthers(t: Table, sk: string, dk: string, ms: seq<MemberConfig>)
    requires Registered(t, sk, dk)
    ensures SameElsewhere(t, WithMembers(t, sk, dk, ms), sk, dk)
    ensures InnerNonEmpty(t) ==> InnerNonEmpty(WithMembers(t, sk, dk, ms))
  {
  }

  /**
   * One configuration call `CreateMap(source, destination).ForMember(...)...`
   * written as the pair and the members its chain configures, in order.
   */
  datatype Registration = Registration(source: TypeArg, destination: TypeArg, members: seq<MemberConfig>)

  /**
   * The table after a registration: the chained members land in the table
   * only when the pair was new; otherwise they go to an expression that is
   * never stored.
   */
  function Register(t: Table, reg: Registration): Table {
    var (sk, dk) := GetTypes(reg.source, reg.destination);
    if Registered(t, sk, dk) then t else WithMembers(Insert(t, sk, dk), sk, dk, reg.members)
  }

  /** The table after a whole configuration callback (`AutoMapper.Initialize`). */
  function RegisterAll(t: Table, regs: seq<Registration>): Table
    decreases |regs|
  {
    if regs == [] then t else Register(RegisterAll(t, regs[..|regs| - 1]), regs[|regs| - 1])
  }

  /**
   * A rank that drops when nested mapping moves from a source to one of its
   * properties: either the property is `undefined`/`null`, which cannot be read
   * from, or it sits inside the source.
   */
  function Rank(v: Value): nat {
    if IsNullish(v) then 0 else 1
  }

  /**
   * `Object.defineProperty(instance, name, { value })`: the first definition
   * creates a read-only property; defining it again throws unless the value
   * is the same.
   */
  function Define(props: map<string, Value>, name: string, v: Value): (r: Result<map<string, Value>>)
    ensures r.Ok? <==> name !in props || props[name] == v
    ensures r.Err? ==> r.error == Redefine(name)
    ensures r.Ok? ==> r.value.Keys == props.Keys + {name} && r.value[name] == v
    ensures r.Ok? ==> forall n :: n in props && n != name ==> r.value[n] == props[n]
  {
    if name in props && props[name] != v then Err(Redefine(name)) else Ok(props[name := v])
  }

  /** `AutoMapper.Map(source, Dest)` against table `t`. */
  function MapValue(t: Table, source: Value, dest: string): Result<Value>
    decreases Rank(source), source, 3, 0
  {
    match Lookup(t, Val(source), Ctor(dest))
    case None => Ok(Instance(dest, map[]))
    case Some(ms) =>
      match Assemble(t, source, ms)
      case Err(e) => Err(e)
      case Ok(props) => Ok(Instance(dest, props))
  }

  /** The own properties that the members `ms`, run in order, define on a fresh instance. */
  function Assemble(t: Table, source: Value, ms: seq<MemberConfig>): Result<map<string, Value>>
    decreases Rank(source), source, 2, |ms|
  {
    if ms == [] then Ok(map[])
    else
      match Assemble(t, source, ms[..|ms| - 1])
      case Err(e) => Err(e)
      case Ok(props) =>
        match RunChain(t, source, ms[|ms| - 1].chain)
        case Err(e) => Err(e)
        case Ok(v) => Define(props, ms[|ms| - 1].member, v)
  }

  /** Runs every extractor of a chain in order and yields the last one's value (`undefined` for none). */
  function RunChain(t: Table, source: Value, chain: seq<Extractor>): Result<Value>
    decreases Rank(source), source, 1, |chain|
  {
    if chain == [] then Ok(Undefined)
    else
      match RunChain(t, source, chain[..|chain| - 1])
      case Err(e) => Err(e)
      case Ok(_) => Eval(t, source, chain[|chain| - 1])
  }

  /** Applies one extractor to the source. */
  function Eval(t: Table, source: Value, x: Extractor): Result<Value>
    decreases Rank(source), source, 0, 0
  {
    match x
    case Constant(v) => Ok(v)
    case Prop(n) => GetProperty(source, n)
    case DateProp(n) =>
      (match GetProperty(source, n)
       case Err(e) => Err(e)
       case Ok(v) => Ok(Date(v)))
    case MapProp(n, d) =>
      match GetProperty(source, n)
      case Err(e) => Err(e)
      case Ok(v) => MapValue(t, v, d)
  }
}
