/**
 * The mapping engine's objects: the per-member extractor chain, the fluent
 * mapping builder, the two-level registry, and the `AutoMapper` facade that
 * runs a mapping. Each is proved against the functions of MappingSpec.
 */
module AutoMapperCore {
  import opened JsValues
  import opened MappingSpec
  import opened MappingLemmas

  /** The extractor chain configured for one destination member. */
  class MemberConfigurationExpression {
    var expressions: seq<Extractor>

    constructor ()
      ensures expressions == []
    {
      expressions := [];
    }

    /** Appends one extractor at the end of the chain. */
    method MapFrom(mapExpression: Extractor)
      modifies this
      ensures expressions == old(expressions) + [mapExpression]
    {
      expressions := expressions + [mapExpression];
    }
  }

  /** The fluent builder for one source/destination pair: an append-only list of member entries. */
  class MappingExpression {
    const source: TypeArg
    const destination: TypeArg
    /** The `(destinationMember, chain)` entries in the order they were configured. */
    var memberConfigurations: seq<MemberConfig>

    constructor (source: TypeArg, destination: TypeArg)
      ensures this.source == source && this.destination == destination
      ensures memberConfigurations == []
    {
      this.source := source;
      this.destination := destination;
      memberConfigurations := [];
    }

    /** The `(destinationMember, chain)` entries, in the order `ForMember` appended them. */
    function GetMembers(): (members: seq<MemberConfig>)
      reads this
      ensures |members| == |memberConfigurations|
      ensures forall i :: 0 <= i < |members| ==> members[i] == memberConfigurations[i]
    {
      memberConfigurations
    }

    /**
     * Creates a chain for `destinationMember`, lets the member-options
     * callback configure it (here: the extractors it passes to `MapFrom`, in
     * order), appends the entry and returns this builder.
     */
    method ForMember(destinationMember: string, memberOptions: seq<Extractor>) returns (self: MappingExpression)
      modifies this
      ensures self == this
      ensures memberConfigurations == old(memberConfigurations) + [MemberConfig(destinationMember, memberOptions)]
    {
      var memberConfigurationExpression := new MemberConfigurationExpression();
      var i := 0;
      while i < |memberOptions|
        invariant 0 <= i <= |memberOptions|
        invariant memberConfigurationExpression.expressions == memberOptions[..i]
        modifies memberConfigurationExpression
      {
        memberConfigurationExpression.MapFrom(memberOptions[i]);
        i := i + 1;
      }
      assert memberOptions[..i] == memberOptions;
      memberConfigurations := memberConfigurations + [MemberConfig(destinationMember, memberConfigurationExpression.expressions)];
      self := this;
    }

    /** A configuration chain `.ForMember(m1, ...).ForMember(m2, ...)...` on this builder. */
    method ForMembers(members: seq<MemberConfig>)
      modifies this
      ensures memberConfigurations == old(memberConfigurations) + members
    {
      var j := 0;
      while j < |members|
        invariant 0 <= j <= |members|
        invariant memberConfigurations == old(memberConfigurations) + members[..j]
      {
        var self := ForMember(members[j].member, members[j].chain);
        assert members[..j + 1] == members[..j] + [members[j]];
        j := j + 1;
      }
      assert members[..|members|] == members;
    }
  }

  /** The builders after `e` is stored for `(sk, dk)` unless a builder is stored there already. */
  function Added(maps: map<string, map<string, MappingExpression>>, sk: string, dk: string, e: MappingExpression)
    : (m: map<string, map<string, MappingExpression>>)
    ensures sk in m && dk in m[sk]
    ensures m[sk][dk] == if sk in maps && dk in maps[sk] then maps[sk][dk] else e
  {
    if sk in maps && dk in maps[sk] then maps
    else
      var inner: map<string, MappingExpression> := if sk in maps then maps[sk] else map[];
      maps[sk := inner[dk := e]]
  }

  /** The builders stored in a registry. */
  ghost function Builders(maps: map<string, map<string, MappingExpression>>): set<MappingExpression> {
    set sk, dk | sk in maps && dk in maps[sk] :: maps[sk][dk]
  }

  /** `CreateMap`'s two updates of the registry (an empty inner table, then the builder) amount to `Added`. */
  lemma AddedInSteps(maps: map<string, map<string, MappingExpression>>, sk: string, dk: string, e: MappingExpression)
    ensures var inner: map<string, MappingExpression> := if sk in maps then maps[sk] else map[];
            var m1 := if |inner| == 0 then maps[sk := inner] else maps;
            (if dk in inner then m1 else m1[sk := inner[dk := e]]) == Added(maps, sk, dk, e)
    ensures (forall s :: s in maps ==> |maps[s]| > 0) ==> forall s :: s in Added(maps, sk, dk, e) ==> |Added(maps, sk, dk, e)[s]| > 0
  {
  }

  /** Storing `e` adds it to the builders unless the pair had one; every other entry is an old builder. */
  lemma BuildersAdded(maps: map<string, map<string, MappingExpression>>, sk: string, dk: string, e: MappingExpression)
    ensures Builders(Added(maps, sk, dk, e)) == if sk in maps && dk in maps[sk] then Builders(maps) else Builders(maps) + {e}
    ensures var m := Added(maps, sk, dk, e);
            forall s, d :: s in m && d in m[s] && (s, d) != (sk, dk) ==> m[s][d] in Builders(maps)
  {
    var m := Added(maps, sk, dk, e);
    var stored := sk in maps && dk in maps[sk];
    forall o | o in Builders(m)
      ensures o in Builders(maps) || (o == e && !stored)
    {
      var s, d :| s in m && d in m[s] && m[s][d] == o;
      if (s, d) != (sk, dk) || stored {
        assert m[s][d] == maps[s][d];
      }
    }
    forall o | o in Builders(maps)
      ensures o in Builders(m)
    {
      var s, d :| s in maps && d in maps[s] && maps[s][d] == o;
      assert m[s][d] == maps[s][d];
    }
  }

  /** The registry: source key -> destination key -> mapping builder. */
  class MapperConfigurationExpression {
    var maps: map<string, map<string, MappingExpression>>

    constructor ()
      ensures maps == map[]
      ensures Valid() && Table() == map[] && Exprs() == {}
    {
      maps := map[];
    }

    /** Every inner table holds at least one builder. */
    ghost predicate Valid()
      reads this
    {
      forall sk :: sk in maps ==> |maps[sk]| > 0
    }

    /** A builder is stored for the key pair. */
    predicate Stored(sk: string, dk: string)
      reads this
    {
      sk in maps && dk in maps[sk]
    }

    ghost function Exprs(): set<MappingExpression>
      reads this
    {
      Builders(maps)
    }

    /** The registry by value: every stored builder replaced by its member list. */
    ghost function Table(): Table
      reads this, Exprs()
    {
      map sk | sk in maps :: InnerTable(sk)
    }

    ghost function InnerTable(sk: string): (inner: map<string, seq<MemberConfig>>)
      requires sk in maps
      reads this, Exprs()
      ensures inner.Keys == maps[sk].Keys
      ensures forall dk :: dk in inner ==> inner[dk] == maps[sk][dk].memberConfigurations
    {
      map dk | dk in maps[sk] :: assert maps[sk][dk] in Exprs(); maps[sk][dk].memberConfigurations
    }

    /**
     * Registers a new builder for the pair unless one is stored already; in
     * both cases returns the builder it created.
     */
    method CreateMap(source: TypeArg, destination: TypeArg) returns (returnValue: MappingExpression)
      modifies this
      ensures old(Valid()) ==> Valid()
      ensures fresh(returnValue) && returnValue.memberConfigurations == []
      ensures returnValue.source == source && returnValue.destination == destination
      ensures maps == Added(old(maps), TypeKey(source), TypeKey(destination), returnValue)
      ensures Table() == Insert(old(Table()), TypeKey(source), TypeKey(destination))
      ensures GetMapperExpression(source, destination) == returnValue <==> !old(Stored(TypeKey(source), TypeKey(destination)))
    {
      var types := GetTypes(source, destination);
      var sourceType, destinationType := types.0, types.1;
      returnValue := new MappingExpression(source, destination);
      ghost var m0 := maps;
      var sourceMap: map<string, MappingExpression> := if sourceType in maps then maps[sourceType] else map[];
      if |sourceMap| == 0 {
        maps := maps[sourceType := sourceMap];
      }
      if destinationType !in sourceMap {
        sourceMap := sourceMap[destinationType := returnValue];
        maps := maps[sourceType := sourceMap];
      }
      AddedInSteps(m0, sourceType, destinationType, returnValue);
      assert maps == Added(m0, sourceType, destinationType, returnValue);
      TableAfterCreateMap(sourceType, destinationType, returnValue);
    }

    /** The table after `CreateMap` stored an empty builder for a new pair, or nothing for a present one. */
    twostate lemma TableAfterCreateMap(new sk: string, new dk: string, new e: MappingExpression)
      requires unchanged(old(Exprs()))
      requires maps == Added(old(maps), sk, dk, e)
      requires !old(Stored(sk, dk)) ==> e.memberConfigurations == []
      ensures Table() == Insert(old(Table()), sk, dk)
    {
      ghost var t0 := old(Table());
      ghost var t1, t2 := Table(), Insert(t0, sk, dk);
      forall s | s in t1
        ensures t1[s].Keys == t2[s].Keys
      {
        if s != sk {
          assert maps[s] == old(maps)[s];
        }
      }
      forall s, d | s in t1 && d in t1[s]
        ensures t1[s][d] == t2[s][d]
      {
        if (s, d) != (sk, dk) || old(Stored(sk, dk)) {
          assert maps[s][d] == old(maps)[s][d];
          assert old(maps)[s][d] in old(Exprs());
        }
      }
      TablesEqual(t1, t2);
    }

    /**
     * Filling the chain of builder `e`, which `CreateMap` just made for
     * `(sk, dk)` on a registry holding `m0` (table `t0`), lands in the table
     * only when the pair was new, and then only in that entry.
     */
    twostate lemma BuilderFilled(new sk: string, new dk: string, new e: MappingExpression,
                                 new m0: map<string, map<string, MappingExpression>>, new t0: Table)
      requires unchanged(this) && maps == Added(m0, sk, dk, e) && e !in Builders(m0)
      requires old(Table()) == Insert(t0, sk, dk)
      requires Registered(t0, sk, dk) <==> sk in m0 && dk in m0[sk]
      requires forall o :: o in old(Exprs()) && o != e ==> unchanged(o)
      ensures Table() == if Registered(t0, sk, dk) then t0 else WithMembers(Insert(t0, sk, dk), sk, dk, e.memberConfigurations)
    {
      BuildersAdded(m0, sk, dk, e);
      assert old(Exprs()) == Exprs() == Builders(maps);
      if Registered(t0, sk, dk) {
        assert maps == m0;
        UnstoredBuilderChanged(e);
      } else {
        assert maps[sk][dk] == e;
        forall s, d | Stored(s, d) && (s, d) != (sk, dk)
          ensures unchanged(maps[s][d])
        {
          assert maps[s][d] in Builders(m0);
        }
        StoredBuilderChanged(sk, dk);
      }
    }

    /** In both states, the table has the registry's keys and, for each stored builder, its member list. */
    twostate lemma TableShapes()
      ensures old(Table()).Keys == old(maps).Keys && Table().Keys == maps.Keys
      ensures forall s :: s in old(maps) ==> old(Table())[s].Keys == old(maps)[s].Keys
      ensures forall s :: s in maps ==> Table()[s].Keys == maps[s].Keys
      ensures forall s, d :: s in old(maps) && d in old(maps)[s] ==> old(Table())[s][d] == old(maps[s][d].memberConfigurations)
      ensures forall s, d :: s in maps && d in maps[s] ==> Table()[s][d] == maps[s][d].memberConfigurations
    {
    }

    /** Filling the chain of a builder that is not stored leaves the table as it was. */
    twostate lemma UnstoredBuilderChanged(new e: MappingExpression)
      requires unchanged(this)
      requires e !in old(Exprs())
      requires forall o :: o in old(Exprs()) && o != e ==> unchanged(o)
      ensures Table() == old(Table()) && Exprs() == old(Exprs())
    {
    }

    /** Filling the chain of the builder stored for `(sk, dk)`, and of no other, replaces that entry only. */
    twostate lemma StoredBuilderChanged(new sk: string, new dk: string)
      requires unchanged(this)
      requires Stored(sk, dk)
      requires forall s, d :: Stored(s, d) && (s, d) != (sk, dk) ==> unchanged(maps[s][d])
      ensures Registered(old(Table()), sk, dk) && Exprs() == old(Exprs())
      ensures Table() == WithMembers(old(Table()), sk, dk, maps[sk][dk].memberConfigurations)
    {
      TableShapes();
      ghost var t0 := old(Table());
      ghost var t1, t2 := Table(), WithMembers(t0, sk, dk, maps[sk][dk].memberConfigurations);
      forall s, d | s in t1 && d in t1[s]
        ensures t1[s][d] == t2[s][d]
      {
        if (s, d) != (sk, dk) {
          assert t2[s][d] == t0[s][d];
        }
      }
      TablesEqual(t1, t2);
    }

    /** The builder stored for the pair, or `undefined`; reads the registry only. */
    function GetMapperExpression(source: TypeArg, destination: TypeArg): (r: MappingExpression?)
      reads this, Exprs()
      ensures r == null <==> Lookup(Table(), source, destination).None?
      ensures r != null ==> r in Exprs() && Lookup(Table(), source, destination) == Some(r.memberConfigurations)
      ensures r != null ==> r == maps[TypeKey(source)][TypeKey(destination)]
    {
      var (sourceType, destinationType) := GetTypes(source, destination);
      if sourceType in maps && destinationType in maps[sourceType] then maps[sourceType][destinationType] else null
    }
  }

  /** The mapping facade; the process-wide configuration is the object's `config`. */
  class AutoMapper {
    const config: MapperConfigurationExpression

    constructor ()
      ensures fresh(config) && config.Table() == map[] && config.Exprs() == {}
    {
      config := new MapperConfigurationExpression();
    }

    /**
     * Runs the configuration callback against `config`: for each registration,
     * `CreateMap` followed by `ForMember` on the returned builder.
     */
    method Initialize(action: seq<Registration>)
      modifies config
      ensures config.Table() == RegisterAll(old(config.Table()), action)
    {
      var k := 0;
      while k < |action|
        invariant 0 <= k <= |action|
        invariant config.Table() == RegisterAll(old(config.Table()), action[..k])
      {
        assert action[..k + 1][..k] == action[..k];
        Configure(action[k]);
        k := k + 1;
      }
      assert action[..|action|] == action;
    }

    /** `config.CreateMap(s, d).ForMember(...)...` for one registration. */
    method Configure(reg: Registration)
      modifies config
      ensures config.Table() == Register(old(config.Table()), reg)
    {
      var (sk, dk) := GetTypes(reg.source, reg.destination);
      ghost var t0 := config.Table();
      ghost var m0 := config.maps;
      assert Registered(t0, sk, dk) <==> sk in m0 && dk in m0[sk];
      var expr := config.CreateMap(reg.source, reg.destination);
      assert expr !in Builders(m0);
      label Created:
      expr.ForMembers(reg.members);
      assert expr.memberConfigurations == reg.members;
      config.BuilderFilled@Created(sk, dk, expr, m0, t0);
    }

    /**
     * `AutoMapper.Map(source, Dest)`: a fresh `Dest` instance, with each
     * configured member, in order, defined as the last value of its chain.
     */
    method Map(source: Value, destination: string) returns (r: Result<Value>)
      ensures r == MapValue(config.Table(), source, destination)
      decreases Rank(source), source, 3, 0
    {
      var mapper := config.GetMapperExpression(Val(source), Ctor(destination));
      if mapper == null {
        return Ok(Instance(destination, map[]));
      }
      var members := mapper.GetMembers();
      var instance := DefineMembers(members, source);
      r := if instance.Err? then Err(instance.error) else Ok(Instance(destination, instance.value));
    }

    /**
     * The loop of `Map` over the members: runs each member's extractors and
     * defines the member on the instance, in order.
     */
    method DefineMembers(members: seq<MemberConfig>, source: Value) returns (r: Result<map<string, Value>>)
      ensures r == Assemble(config.Table(), source, members)
      decreases Rank(source), source, 2, 0
    {
      ghost var t := config.Table();
      var instance: map<string, Value> := map[];
      for i := 0 to |members|
        invariant Assemble(t, source, members[..i]) == Ok(instance)
        invariant t == config.Table()
      {
        ghost var ex := config.Exprs();
        var value := RunExtractors(members[i].chain, source);
        assert unchanged(ex);
        AssembleStep(t, source, members, i, instance, value);
        if value.Err? {
          return Err(value.error);
        }
        var defined := Define(instance, members[i].member, value.value);
        if defined.Err? {
          return defined;
        }
        instance := defined.value;
      }
      assert members[..|members|] == members;
      r := Ok(instance);
    }

    /** Runs a member's extractors in order on the source and keeps the last value. */
    method RunExtractors(chain: seq<Extractor>, source: Value) returns (r: Result<Value>)
      ensures r == RunChain(config.Table(), source, chain)
      decreases Rank(source), source, 1, |chain|
    {
      ghost var t := config.Table();
      var value := Undefined;
      for j := 0 to |chain|
        invariant RunChain(t, source, chain[..j]) == Ok(value)
        invariant t == config.Table()
      {
        ghost var ex := config.Exprs();
        var result := Invoke(chain[j], source);
        assert unchanged(ex);
        RunChainStep(t, source, chain, j);
        if result.Err? {
          RunChainErrPersists(t, source, chain, j + 1);
          return Err(result.error);
        }
        value := result.value;
      }
      assert chain[..|chain|] == chain;
      r := Ok(value);
    }

    /** Calls one extractor on the source (`expression(source)`). */
    method Invoke(expression: Extractor, source: Value) returns (r: Result<Value>)
      ensures r == Eval(config.Table(), source, expression)
      decreases Rank(source), source, 0, 0
    {
      match expression
      case Constant(v) =>
        r := Ok(v);
      case Prop(n) =>
        r := GetProperty(source, n);
      case DateProp(n) =>
        var p := GetProperty(source, n);
        r := if p.Err? then Err(p.error) else Ok(Date(p.value));
      case MapProp(n, d) =>
        var p := GetProperty(source, n);
        if p.Err? {
          r := Err(p.error);
        } else {
          r := Map(p.value, d);
        }
    }
  }
}
