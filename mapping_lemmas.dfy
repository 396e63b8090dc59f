/**
 * Properties of the mapping engine, stated over the functions of MappingSpec:
 * how an extractor chain and a member list evaluate, what `Map` produces, and
 * how registration changes the registry.
 */
module MappingLemmas {
  import opened JsValues
  import opened MappingSpec

  /** Two tables with the same keys at both levels and the same entries are equal. */
  lemma TablesEqual(a: Table, b: Table)
    requires a.Keys == b.Keys
    requires forall sk :: sk in a ==> a[sk].Keys == b[sk].Keys
    requires forall sk, dk :: sk in a && dk in a[sk] ==> a[sk][dk] == b[sk][dk]
    ensures a == b
  {
    forall sk | sk in a
      ensures a[sk] == b[sk]
    {
      assert a[sk].Keys == b[sk].Keys;
    }
  }

  // ---------------------------------------------------------------------------
  // Extractor chains

  /** Once a prefix of a chain throws, the whole chain throws the same error. */
  lemma {:induction false} RunChainErrPersists(t: Table, source: Value, chain: seq<Extractor>, j: nat)
    requires j <= |chain|
    requires RunChain(t, source, chain[..j]).Err?
    ensures RunChain(t, source, chain) == RunChain(t, source, chain[..j])
    decreases |chain|
  {
    if j < |chain| {
      var init := chain[..|chain| - 1];
      assert init[..j] == chain[..j];
      RunChainErrPersists(t, source, init, j);
    } else {
      assert chain[..j] == chain;
    }
  }

  /** Running one more extractor after a prefix that succeeded yields that extractor's result. */
  lemma RunChainStep(t: Table, source: Value, chain: seq<Extractor>, j: nat)
    requires j < |chain|
    requires RunChain(t, source, chain[..j]).Ok?
    ensures RunChain(t, source, chain[..j + 1]) == Eval(t, source, chain[j])
  {
    assert chain[..j + 1][..j] == chain[..j];
  }

  /**
   * Last extractor wins: a chain succeeds exactly when every extractor in it
   * succeeds, and its value is then the last extractor's value, or `undefined`
   * for an empty chain. When it fails, the error is that of the first
   * extractor that fails.
   */
  lemma {:induction false} RunChainLastWins(t: Table, source: Value, chain: seq<Extractor>)
    ensures RunChain(t, source, chain).Ok? <==> forall i :: 0 <= i < |chain| ==> Eval(t, source, chain[i]).Ok?
    ensures chain == [] ==> RunChain(t, source, chain) == Ok(Undefined)
    ensures chain != [] && RunChain(t, source, chain).Ok? ==>
              RunChain(t, source, chain) == Eval(t, source, chain[|chain| - 1])
    ensures RunChain(t, source, chain).Err? ==>
              exists i :: 0 <= i < |chain| && Eval(t, source, chain[i]) == RunChain(t, source, chain) &&
                          forall k :: 0 <= k < i ==> Eval(t, source, chain[k]).Ok?
    decreases |chain|
  {
    if chain != [] {
      var init := chain[..|chain| - 1];
      RunChainLastWins(t, source, init);
      assert forall i :: 0 <= i < |init| ==> init[i] == chain[i];
      if RunChain(t, source, init).Err? {
        var i :| 0 <= i < |init| && Eval(t, source, init[i]) == RunChain(t, source, init) &&
                 forall k :: 0 <= k < i ==> Eval(t, source, init[k]).Ok?;
        assert Eval(t, source, chain[i]) == RunChain(t, source, chain);
      }
    }
  }

  // ---------------------------------------------------------------------------
  // Member lists

  /** Once a prefix of the member list throws, assembling the whole list throws the same error. */
  lemma {:induction false} AssembleErrPersists(t: Table, source: Value, ms: seq<MemberConfig>, i: nat)
    requires i <= |ms|
    requires Assemble(t, source, ms[..i]).Err?
    ensures Assemble(t, source, ms) == Assemble(t, source, ms[..i])
    decreases |ms|
  {
    if i < |ms| {
      var init := ms[..|ms| - 1];
      assert init[..i] == ms[..i];
      AssembleErrPersists(t, source, init, i);
    } else {
      assert ms[..i] == ms;
    }
  }

  /** Running member `i` on top of the properties the earlier members defined. */
  lemma AssembleStep(t: Table, source: Value, ms: seq<MemberConfig>, i: nat, props: map<string, Value>, v: Result<Value>)
    requires i < |ms|
    requires Assemble(t, source, ms[..i]) == Ok(props)
    requires RunChain(t, source, ms[i].chain) == v
    ensures v.Err? ==> Assemble(t, source, ms) == Err(v.error)
    ensures v.Ok? ==> Assemble(t, source, ms[..i + 1]) == Define(props, ms[i].member, v.value)
    ensures v.Ok? && Define(props, ms[i].member, v.value).Err? ==> Assemble(t, source, ms) == Define(props, ms[i].member, v.value)
  {
    assert ms[..i + 1][..i] == ms[..i];
    if v.Err? || Define(props, ms[i].member, v.value).Err? {
      AssembleErrPersists(t, source, ms, i + 1);
    }
  }

  /** The destination members a member list configures. */
  function MemberNames(ms: seq<MemberConfig>): (names: set<string>)
    ensures forall i :: 0 <= i < |ms| ==> ms[i].member in names
    ensures forall n :: n in names ==> exists i :: 0 <= i < |ms| && ms[i].member == n
  {
    set i | 0 <= i < |ms| :: ms[i].member
  }

  /** Each member of the list with the outcome of running its chain. */
  ghost function Outcomes(t: Table, source: Value, ms: seq<MemberConfig>): (o: seq<(string, Result<Value>)>)
    ensures |o| == |ms|
    ensures forall i :: 0 <= i < |ms| ==> o[i] == (ms[i].member, RunChain(t, source, ms[i].chain))
  {
    seq(|ms|, i requires 0 <= i < |ms| => (ms[i].member, RunChain(t, source, ms[i].chain)))
  }

  /** Defines the outcomes one after the other on an empty instance, failing at the first failure. */
  function DefineAll(entries: seq<(string, Result<Value>)>): Result<map<string, Value>>
    decreases |entries|
  {
    if entries == [] then Ok(map[])
    else
      match DefineAll(entries[..|entries| - 1])
      case Err(e) => Err(e)
      case Ok(props) =>
        match entries[|entries| - 1].1
        case Err(e) => Err(e)
        case Ok(v) => Define(props, entries[|entries| - 1].0, v)
  }

  /** Assembling a member list is defining the outcomes of its chains in order. */
  lemma {:induction false} AssembleIsDefineAll(t: Table, source: Value, ms: seq<MemberConfig>)
    ensures Assemble(t, source, ms) == DefineAll(Outcomes(t, source, ms))
    decreases |ms|
  {
    if ms != [] {
      var init := ms[..|ms| - 1];
      AssembleIsDefineAll(t, source, init);
      assert Outcomes(t, source, ms)[..|ms| - 1] == Outcomes(t, source, init);
    }
  }

  /** Every outcome succeeded, and outcomes for the same member agree. */
  predicate OutcomesAgree(entries: seq<(string, Result<Value>)>) {
    && (forall i :: 0 <= i < |entries| ==> entries[i].1.Ok?)
    && (forall i, j :: 0 <= i < |entries| && 0 <= j < |entries| && entries[i].0 == entries[j].0 ==>
          entries[i].1 == entries[j].1)
  }

  function EntryNames(entries: seq<(string, Result<Value>)>): set<string> {
    set i | 0 <= i < |entries| :: entries[i].0
  }

  /** Outcomes that all succeeded and agree per member define exactly their members, each with its value. */
  lemma {:induction false} DefineAllSucceeds(entries: seq<(string, Result<Value>)>)
    requires OutcomesAgree(entries)
    ensures DefineAll(entries).Ok?
    ensures DefineAll(entries).value.Keys == EntryNames(entries)
    ensures forall i :: 0 <= i < |entries| ==> DefineAll(entries).value[entries[i].0] == entries[i].1.value
    decreases |entries|
  {
    if entries != [] {
      var n := |entries| - 1;
      var init, last := entries[..n], entries[n];
      assert OutcomesAgree(init) by {
        assert forall i :: 0 <= i < n ==> init[i] == entries[i];
      }
      DefineAllSucceeds(init);
      var props := DefineAll(init).value;
      assert DefineAll(entries) == Define(props, last.0, last.1.value);
      assert Define(props, last.0, last.1.value).Ok? by {
        if last.0 in props {
          var i :| 0 <= i < n && init[i].0 == last.0;
          assert entries[i].1 == entries[n].1;
        }
      }
      assert entries == init + [last];
      assert last.1.Ok? && forall i :: 0 <= i < n ==> init[i].1.Ok?;
      DefineStepHolds(init, last, props);
    }
  }

  /** One more agreeing outcome extends the defined members by its member and value. */
  lemma DefineStepHolds(init: seq<(string, Result<Value>)>, last: (string, Result<Value>), props: map<string, Value>)
    requires OutcomesAgree(init + [last])
    requires last.1.Ok? && forall i :: 0 <= i < |init| ==> init[i].1.Ok?
    requires props.Keys == EntryNames(init)
    requires forall i :: 0 <= i < |init| ==> props[init[i].0] == init[i].1.value
    requires Define(props, last.0, last.1.value).Ok?
    ensures Define(props, last.0, last.1.value).value.Keys == EntryNames(init + [last])
    ensures forall i :: 0 <= i < |init + [last]| ==>
              Define(props, last.0, last.1.value).value[(init + [last])[i].0] == (init + [last])[i].1.value
  {
    var entries := init + [last];
    var n := |init|;
    assert EntryNames(entries) == EntryNames(init) + {last.0} by {
      assert forall i :: 0 <= i < n ==> entries[i] == init[i];
      assert entries[n] == last;
    }
    forall i | 0 <= i < |entries|
      ensures Define(props, last.0, last.1.value).value[entries[i].0] == entries[i].1.value
    {
      if i < n && entries[i].0 == last.0 {
        assert entries[i].1 == entries[n].1;
      }
    }
  }

  /** If a list agrees but stops agreeing once `last` is added, an earlier entry gives `last`'s member another outcome. */
  lemma DisagreementWithLast(init: seq<(string, Result<Value>)>, last: (string, Result<Value>)) returns (k: nat)
    requires OutcomesAgree(init) && last.1.Ok? && !OutcomesAgree(init + [last])
    ensures k < |init| && init[k].0 == last.0 && init[k].1 != last.1
  {
    var entries := init + [last];
    var n := |init|;
    assert forall m :: 0 <= m < n ==> entries[m] == init[m];
    var i, j :| 0 <= i < |entries| && 0 <= j < |entries| && entries[i].0 == entries[j].0 && entries[i].1 != entries[j].1;
    k := if i < n then i else j;
  }

  /** Outcomes with a failure, or with two different values for one member, make defining fail. */
  lemma {:induction false} DefineAllFails(entries: seq<(string, Result<Value>)>)
    requires !OutcomesAgree(entries)
    ensures DefineAll(entries).Err?
    decreases |entries|
  {
    var n := |entries| - 1;
    var init, last := entries[..n], entries[n];
    if !OutcomesAgree(init) {
      DefineAllFails(init);
    } else if last.1.Ok? {
      DefineAllSucceeds(init);
      var props := DefineAll(init).value;
      assert entries == init + [last];
      var k := DisagreementWithLast(init, last);
      assert props[last.0] == init[k].1.value;
    }
  }

  /**
   * Defining outcomes succeeds exactly when they all succeeded and agree per
   * member; the result then holds exactly their members, each with its value.
   */
  lemma DefineAllSpec(entries: seq<(string, Result<Value>)>)
    ensures DefineAll(entries).Ok? <==> OutcomesAgree(entries)
    ensures DefineAll(entries).Ok? ==>
              && DefineAll(entries).value.Keys == EntryNames(entries)
              && forall i :: 0 <= i < |entries| ==> DefineAll(entries).value[entries[i].0] == entries[i].1.value
  {
    if OutcomesAgree(entries) {
      DefineAllSucceeds(entries);
    } else {
      DefineAllFails(entries);
    }
  }

  /** Every chain of the list succeeds, and entries that name the same member agree on its value. */
  ghost predicate ChainsAgree(t: Table, source: Value, ms: seq<MemberConfig>) {
    && (forall i :: 0 <= i < |ms| ==> RunChain(t, source, ms[i].chain).Ok?)
    && (forall i, j :: 0 <= i < |ms| && 0 <= j < |ms| && ms[i].member == ms[j].member ==>
          RunChain(t, source, ms[i].chain) == RunChain(t, source, ms[j].chain))
  }

  /**
   * Assembling a member list succeeds exactly when every chain succeeds and
   * no member is defined twice with different values; the instance then has
   * exactly the configured members, each defined as its chain's value.
   */
  lemma AssembleSpec(t: Table, source: Value, ms: seq<MemberConfig>)
    ensures Assemble(t, source, ms).Ok? <==> ChainsAgree(t, source, ms)
    ensures Assemble(t, source, ms).Ok? ==>
              && Assemble(t, source, ms).value.Keys == MemberNames(ms)
              && forall i :: 0 <= i < |ms| ==>
                   Assemble(t, source, ms).value[ms[i].member] == RunChain(t, source, ms[i].chain).value
  {
    var o := Outcomes(t, source, ms);
    AssembleIsDefineAll(t, source, ms);
    DefineAllSpec(o);
    assert OutcomesAgree(o) <==> ChainsAgree(t, source, ms);
    assert EntryNames(o) == MemberNames(ms);
  }

  /** No destination member is configured twice. */
  predicate DistinctMembers(ms: seq<MemberConfig>) {
    forall i, j :: 0 <= i < j < |ms| ==> ms[i].member != ms[j].member
  }

  // ---------------------------------------------------------------------------
  // Map

  /** A pair never registered maps to a fresh destination instance with no member defined, and does not fail. */
  lemma MapUnregistered(t: Table, source: Value, dest: string)
    requires !Registered(t, TypeOf(source), dest)
    ensures MapValue(t, source, dest) == Ok(Instance(dest, map[]))
  {
  }

  /** Every extractor of every chain in the list succeeds on the source. */
  ghost predicate AllExtractorsSucceed(t: Table, source: Value, ms: seq<MemberConfig>) {
    forall i, k :: 0 <= i < |ms| && 0 <= k < |ms[i].chain| ==> Eval(t, source, ms[i].chain[k]).Ok?
  }

  /**
   * `v` is a `dest` instance whose own properties are exactly the configured
   * members, each the value of the last extractor of its chain (`undefined`
   * for an empty chain).
   */
  ghost predicate DefinesLastValues(t: Table, source: Value, dest: string, ms: seq<MemberConfig>, v: Value) {
    && v.Instance? && v.cls == dest
    && v.props.Keys == MemberNames(ms)
    && forall i :: 0 <= i < |ms| ==>
         if ms[i].chain == [] then v.props[ms[i].member] == Undefined
         else Ok(v.props[ms[i].member]) == Eval(t, source, ms[i].chain[|ms[i].chain| - 1])
  }

  /** With distinct member names, the chains agree exactly when each of them succeeds. */
  lemma ChainsAgreeWhenDistinct(t: Table, source: Value, ms: seq<MemberConfig>)
    requires DistinctMembers(ms)
    ensures ChainsAgree(t, source, ms) <==> forall i :: 0 <= i < |ms| ==> RunChain(t, source, ms[i].chain).Ok?
  {
  }

  /** Every chain of the list succeeds exactly when every extractor in it does. */
  lemma ChainsSucceed(t: Table, source: Value, ms: seq<MemberConfig>)
    ensures (forall i :: 0 <= i < |ms| ==> RunChain(t, source, ms[i].chain).Ok?) <==> AllExtractorsSucceed(t, source, ms)
  {
    forall i | 0 <= i < |ms| {
      RunChainLastWins(t, source, ms[i].chain);
    }
  }

  /**
   * For a registered pair whose members are distinct, `Map` succeeds exactly
   * when every extractor of every chain succeeds, and the result then defines
   * exactly the configured members, each as its chain's last value; members
   * that are not configured stay unset.
   */
  lemma MapRegistered(t: Table, source: Value, dest: string)
    requires Registered(t, TypeOf(source), dest)
    requires DistinctMembers(t[TypeOf(source)][dest])
    ensures MapValue(t, source, dest).Ok? <==> AllExtractorsSucceed(t, source, t[TypeOf(source)][dest])
    ensures MapValue(t, source, dest).Ok? ==>
              DefinesLastValues(t, source, dest, t[TypeOf(source)][dest], MapValue(t, source, dest).value)
  {
    var ms := t[TypeOf(source)][dest];
    var a := Assemble(t, source, ms);
    assert MapValue(t, source, dest) == if a.Ok? then Ok(Instance(dest, a.value)) else Err(a.error);
    AssembleSpec(t, source, ms);
    ChainsAgreeWhenDistinct(t, source, ms);
    ChainsSucceed(t, source, ms);
    if a.Ok? {
      LastValues(t, source, ms, a.value);
    }
  }

  /** Properties holding each chain's value hold each chain's last extractor's value. */
  lemma LastValues(t: Table, source: Value, ms: seq<MemberConfig>, props: map<string, Value>)
    requires forall i :: 0 <= i < |ms| ==>
               RunChain(t, source, ms[i].chain).Ok? && ms[i].member in props && props[ms[i].member] == RunChain(t, source, ms[i].chain).value
    ensures forall i :: 0 <= i < |ms| ==>
              ms[i].member in props &&
              if ms[i].chain == [] then props[ms[i].member] == Undefined
              else Ok(props[ms[i].member]) == Eval(t, source, ms[i].chain[|ms[i].chain| - 1])
  {
    forall i | 0 <= i < |ms| {
      RunChainLastWins(t, source, ms[i].chain);
    }
  }

  /** An extractor chain runs in full even though only the last value is kept: a failing earlier extractor fails `Map`. */
  lemma EarlierFailureFailsMap(t: Table, source: Value, dest: string, i: nat, k: nat)
    requires Registered(t, TypeOf(source), dest)
    requires i < |t[TypeOf(source)][dest]| && k < |t[TypeOf(source)][dest][i].chain|
    requires Eval(t, source, t[TypeOf(source)][dest][i].chain[k]).Err?
    ensures MapValue(t, source, dest).Err?
  {
    var ms := t[TypeOf(source)][dest];
    AssembleSpec(t, source, ms);
    RunChainLastWins(t, source, ms[i].chain);
  }

  // ---------------------------------------------------------------------------
  // Type keys

  /**
   * Every object value, a placeholder `{}` and a parsed payload alike, keys as
   * "object", so configuring against one and mapping the other meet in the
   * same registry entry; a class named "object" collides with them.
   */
  lemma ObjectsShareKey(a: Value, b: Value, t: Table, dest: TypeArg)
    requires TypeOf(a) == "object" && TypeOf(b) == "object"
    ensures TypeKey(Val(a)) == TypeKey(Val(b)) == TypeKey(Ctor("object"))
    ensures Lookup(t, Val(a), dest) == Lookup(t, Val(b), dest)
  {
  }

  // ---------------------------------------------------------------------------
  // Registration

  /** Registering a new pair stores exactly the chained members, and leaves every other pair as it was. */
  lemma RegisterNewPair(t: Table, reg: Registration, source: TypeArg, destination: TypeArg)
    requires !Registered(t, TypeKey(reg.source), TypeKey(reg.destination))
    ensures Lookup(Register(t, reg), reg.source, reg.destination) == Some(reg.members)
    ensures GetTypes(source, destination) != GetTypes(reg.source, reg.destination) ==>
              Lookup(Register(t, reg), source, destination) == Lookup(t, source, destination)
  {
  }

  /** Registering a pair that is already present changes nothing: the chained members are lost. */
  lemma RegisterExistingInert(t: Table, reg: Registration)
    requires Registered(t, TypeKey(reg.source), TypeKey(reg.destination))
    ensures Register(t, reg) == t
  {
  }

  /** A whole configuration callback keeps every inner table non-empty and never removes a registered pair. */
  lemma {:induction false} RegisterAllKeeps(t: Table, regs: seq<Registration>, sk: string, dk: string)
    requires InnerNonEmpty(t)
    ensures InnerNonEmpty(RegisterAll(t, regs))
    ensures Registered(t, sk, dk) ==>
              Registered(RegisterAll(t, regs), sk, dk) && RegisterAll(t, regs)[sk][dk] == t[sk][dk]
    decreases |regs|
  {
    if regs != [] {
      RegisterAllKeeps(t, regs[..|regs| - 1], sk, dk);
    }
  }

  /**
   * The first registration of a pair decides its members for good: later
   * registrations of the same pair, with whatever members, are ignored.
   */
  lemma {:induction false} FirstRegistrationWins(t: Table, regs: seq<Registration>, i: nat)
    requires i < |regs|
    requires !Registered(RegisterAll(t, regs[..i]), TypeKey(regs[i].source), TypeKey(regs[i].destination))
    ensures Lookup(RegisterAll(t, regs), regs[i].source, regs[i].destination) == Some(regs[i].members)
    decreases |regs|
  {
    var sk, dk := TypeKey(regs[i].source), TypeKey(regs[i].destination);
    var init, last := regs[..|regs| - 1], regs[|regs| - 1];
    if i == |regs| - 1 {
      assert init == regs[..i];
      RegisterNewPair(RegisterAll(t, init), last, last.source, last.destination);
    } else {
      assert init[..i] == regs[..i];
      FirstRegistrationWins(t, init, i);
      var before := RegisterAll(t, init);
      if Registered(before, TypeKey(last.source), TypeKey(last.destination)) {
        RegisterExistingInert(before, last);
      } else {
        RegisterNewPair(before, last, regs[i].source, regs[i].destination);
      }
    }
  }
}
