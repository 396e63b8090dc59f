/**
 * The sample program shipped with the mapper: the three configurations
 * (`Posicao`, `Rastreador`, `Situacao`), the setup that registers them, and
 * the parsed payload mapped to `Posicao`.
 */
module Sample {
  import opened JsValues
  import opened MappingSpec
  import opened AutoMapperCore

  /** `{} as IX`: every configuration names its source type by an empty object literal. */
  const EmptyLiteral: TypeArg := Val(Obj(map[]))

  /** `Posicao.AutoMapper(config)`. */
  const PosicaoRegistration: Registration :=
    Registration(EmptyLiteral, Ctor("Posicao"), [
      MemberConfig("Id", [Prop("Id")]),
      MemberConfig("IdEvento", [Prop("IdEvento")]),
      MemberConfig("EventoDatahora", [DateProp("EventoDatahora")]),
      MemberConfig("Rastreador", [MapProp("Rastreador", "Rastreador")])
    ])

  /** `Rastreador.AutoMapper(config)`. */
  const RastreadorRegistration: Registration :=
    Registration(EmptyLiteral, Ctor("Rastreador"), [
      MemberConfig("Id", [Prop("Id")]),
      MemberConfig("IdVeiculo", [Prop("IdVeiculo")]),
      MemberConfig("Situacao", [MapProp("Situacao", "Situacao")])
    ])

  /** `Situacao.AutoMapper(config)`. */
  const SituacaoRegistration: Registration :=
    Registration(EmptyLiteral, Ctor("Situacao"), [
      MemberConfig("Ignicao", [Prop("Ignicao")])
    ])

  /** `Program.Setup`: the callback passed to `AutoMapper.Initialize`. */
  const Setup: seq<Registration> := [PosicaoRegistration, RastreadorRegistration, SituacaoRegistration]

  /** The `Situacao` part of the payload. */
  const SituacaoPayload: Value := Obj(map[
    "Ignicao" := Bool(true), "SituacaoEquipamento" := Num(0), "Texto" := Null,
    "Entrada1" := Bool(true), "Entrada2" := Bool(true), "Entrada3" := Bool(true), "Entrada4" := Bool(true),
    "Entrada5" := Bool(true), "Entrada6" := Bool(true), "Entrada7" := Bool(true), "Entrada8" := Bool(true)
  ])

  /** The `Rastreador` part of the payload. */
  const RastreadorPayload: Value := Obj(map[
    "Id" := Num(12), "IdVeiculo" := Num(2951), "NumeroSerial" := Str("863586039137157"),
    "IdInstalacaoTipo" := Num(16), "IdEquipamentoTipo" := Num(1),
    "Situacao" := SituacaoPayload, "IdPosicao" := Num(876844308)
  ])

  /** The object `JSON.parse` returns for the payload of `Program.Initialize`. */
  const Payload: Value := Obj(map[
    "Id" := Num(1), "IdEvento" := Num(123), "EventoDatahora" := Str("2020-11-17T14:09:48.889Z"),
    "Rastreador" := RastreadorPayload
  ])

  /** `new Date(s.EventoDatahora)` on the payload. */
  const EventoDatahora: Value := Date(Str("2020-11-17T14:09:48.889Z"))

  /** The mapped `Situacao`: only the configured `Ignicao`. */
  const MappedSituacao: Value := Instance("Situacao", map["Ignicao" := Bool(true)])

  /** The mapped `Rastreador`: `NumeroSerial` and the other unconfigured members are absent. */
  const MappedRastreador: Value := Instance("Rastreador", map["Id" := Num(12), "IdVeiculo" := Num(2951), "Situacao" := MappedSituacao])

  /** The members of the mapped `Posicao` defined before `Rastreador`. */
  const PosicaoScalars: map<string, Value> := map["Id" := Num(1), "IdEvento" := Num(123), "EventoDatahora" := EventoDatahora]

  /** What `AutoMapper.Map(source, Posicao)` yields for the payload after the setup. */
  const Expected: Value := Instance("Posicao", PosicaoScalars["Rastreador" := MappedRastreador])

  /** The registry after the setup: all three sources share the key "object". */
  const SetupTable: Table := map["object" := map[
    "Posicao" := PosicaoRegistration.members,
    "Rastreador" := RastreadorRegistration.members,
    "Situacao" := SituacaoRegistration.members
  ]]

  lemma SetupRegistersAll()
    ensures RegisterAll(map[], Setup) == SetupTable
  {
    var p, r, s := PosicaoRegistration, RastreadorRegistration, SituacaoRegistration;
    assert Setup[..0] == [] && Setup[..1] == [p] && Setup[..2] == [p, r];
    var t1 := map["object" := map["Posicao" := p.members]];
    RegisterStep(map[], p, "Posicao", t1);
    assert RegisterAll(map[], Setup[..1]) == t1;
    var t2 := map["object" := map["Posicao" := p.members, "Rastreador" := r.members]];
    RegisterStep(t1, r, "Rastreador", t2);
    assert RegisterAll(map[], Setup[..2]) == t2;
    RegisterStep(t2, s, "Situacao", SetupTable);
  }

  /** Registering a sample configuration adds its members under ("object", `dk`). */
  lemma RegisterStep(t: Table, reg: Registration, dk: string, t': Table)
    requires reg.source == EmptyLiteral && reg.destination == Ctor(dk)
    requires "object" !in t || dk !in t["object"]
    requires t' == t["object" := (if "object" in t then t["object"] else map[])[dk := reg.members]]
    ensures Register(t, reg) == t'
  {
    assert GetTypes(reg.source, reg.destination) == ("object", dk);
    var inner := if "object" in t then t["object"] else map[];
    var t0 := t["object" := inner[dk := []]];
    assert Insert(t, "object", dk) == t0;
    assert inner[dk := []][dk := reg.members] == inner[dk := reg.members];
    assert WithMembers(t0, "object", dk, reg.members) == t';
  }

  /** The nested `Situacao` of the payload maps to an instance holding only `Ignicao`. */
  lemma SituacaoMapping()
    ensures MapValue(SetupTable, SituacaoPayload, "Situacao") == Ok(MappedSituacao)
  {
    var t, src, ms := SetupTable, SituacaoPayload, SituacaoRegistration.members;
    assert Lookup(t, Val(src), Ctor("Situacao")) == Some(ms);
    assert ms[..0] == [];
    assert RunChain(t, src, ms[0].chain) == Ok(Bool(true)) by {
      assert ms[0].chain[..0] == [];
    }
    assert Assemble(t, src, ms) == Ok(map["Ignicao" := Bool(true)]);
  }

  /** A chain of one extractor yields that extractor's value. */
  lemma SingleChain(t: Table, source: Value, x: Extractor)
    ensures RunChain(t, source, [x]) == Eval(t, source, x)
  {
    assert [x][..0] == [];
  }

  /** Running one more member of a list on top of the properties defined so far. */
  lemma AssembleNext(t: Table, source: Value, ms: seq<MemberConfig>, i: nat, props: map<string, Value>, v: Value)
    requires i < |ms|
    requires Assemble(t, source, ms[..i]) == Ok(props)
    requires RunChain(t, source, ms[i].chain) == Ok(v)
    ensures Assemble(t, source, ms[..i + 1]) == Define(props, ms[i].member, v)
  {
    assert ms[..i + 1][..i] == ms[..i];
  }

  /** The first two members of the `Rastreador` configuration copy plain values. */
  lemma RastreadorScalars()
    ensures Assemble(SetupTable, RastreadorPayload, RastreadorRegistration.members[..2]) ==
            Ok(map["Id" := Num(12), "IdVeiculo" := Num(2951)])
  {
    var t, src, ms := SetupTable, RastreadorPayload, RastreadorRegistration.members;
    assert Assemble(t, src, ms[..0]) == Ok(map[]) by { assert ms[..0] == []; }
    assert GetProperty(src, "Id") == Ok(Num(12));
    SingleChain(t, src, Prop("Id"));
    AssembleNext(t, src, ms, 0, map[], Num(12));
    assert GetProperty(src, "IdVeiculo") == Ok(Num(2951));
    SingleChain(t, src, Prop("IdVeiculo"));
    AssembleNext(t, src, ms, 1, map["Id" := Num(12)], Num(2951));
  }

  /** The third `Rastreador` member maps the nested `Situacao` with its own configuration. */
  lemma SituacaoMember()
    ensures RunChain(SetupTable, RastreadorPayload, RastreadorRegistration.members[2].chain) == Ok(MappedSituacao)
  {
    SingleChain(SetupTable, RastreadorPayload, MapProp("Situacao", "Situacao"));
    assert GetProperty(RastreadorPayload, "Situacao") == Ok(SituacaoPayload);
    SituacaoMapping();
  }

  /** All three `Rastreador` members run on the nested payload. */
  lemma RastreadorMembers()
    ensures Assemble(SetupTable, RastreadorPayload, RastreadorRegistration.members) == Ok(MappedRastreador.props)
  {
    var ms := RastreadorRegistration.members;
    RastreadorScalars();
    SituacaoMember();
    AssembleNext(SetupTable, RastreadorPayload, ms, 2, map["Id" := Num(12), "IdVeiculo" := Num(2951)], MappedSituacao);
    assert ms[..3] == ms;
  }

  /** The nested `Rastreador` of the payload maps to an instance with `Id`, `IdVeiculo` and a mapped `Situacao`. */
  lemma RastreadorMapping()
    ensures MapValue(SetupTable, RastreadorPayload, "Rastreador") == Ok(MappedRastreador)
  {
    assert Lookup(SetupTable, Val(RastreadorPayload), Ctor("Rastreador")) == Some(RastreadorRegistration.members);
    RastreadorMembers();
  }

  /** The first two members of the `Posicao` configuration copy plain values. */
  lemma PosicaoIds()
    ensures Assemble(SetupTable, Payload, PosicaoRegistration.members[..2]) == Ok(map["Id" := Num(1), "IdEvento" := Num(123)])
  {
    var t, src, ms := SetupTable, Payload, PosicaoRegistration.members;
    assert Assemble(t, src, ms[..0]) == Ok(map[]) by { assert ms[..0] == []; }
    assert GetProperty(src, "Id") == Ok(Num(1));
    SingleChain(t, src, Prop("Id"));
    AssembleNext(t, src, ms, 0, map[], Num(1));
    assert GetProperty(src, "IdEvento") == Ok(Num(123));
    SingleChain(t, src, Prop("IdEvento"));
    AssembleNext(t, src, ms, 1, map["Id" := Num(1)], Num(123));
  }

  /** The third member wraps the timestamp string in a `Date`. */
  lemma PosicaoScalarMembers()
    ensures Assemble(SetupTable, Payload, PosicaoRegistration.members[..3]) == Ok(PosicaoScalars)
  {
    var t, src, ms := SetupTable, Payload, PosicaoRegistration.members;
    PosicaoIds();
    assert GetProperty(src, "EventoDatahora") == Ok(Str("2020-11-17T14:09:48.889Z"));
    SingleChain(t, src, DateProp("EventoDatahora"));
    AssembleNext(t, src, ms, 2, map["Id" := Num(1), "IdEvento" := Num(123)], EventoDatahora);
  }

  /** The fourth member maps the nested `Rastreador` with its own configuration. */
  lemma RastreadorMember()
    ensures RunChain(SetupTable, Payload, PosicaoRegistration.members[3].chain) == Ok(MappedRastreador)
  {
    SingleChain(SetupTable, Payload, MapProp("Rastreador", "Rastreador"));
    assert GetProperty(Payload, "Rastreador") == Ok(RastreadorPayload);
    RastreadorMapping();
  }

  /** All four `Posicao` members run on the payload. */
  lemma PosicaoMembers()
    ensures Assemble(SetupTable, Payload, PosicaoRegistration.members) == Ok(Expected.props)
  {
    var ms := PosicaoRegistration.members;
    PosicaoScalarMembers();
    RastreadorMember();
    AssembleNext(SetupTable, Payload, ms, 3, PosicaoScalars, MappedRastreador);
    assert ms[..4] == ms;
  }

  lemma PayloadMapping(t: Table, src: Value)
    requires t == SetupTable && src == Payload
    ensures MapValue(t, src, "Posicao") == Ok(Expected)
  {
    assert Lookup(t, Val(src), Ctor("Posicao")) == Some(PosicaoRegistration.members);
    PosicaoMembers();
  }

  /**
   * Mapping the payload yields the expected `Posicao`: the listed members
   * are copied, nested objects are mapped with their own configurations,
   * and members nobody configured (`NumeroSerial`, `Entrada1`, ...) are absent.
   */
  lemma SampleMapping(t: Table, source: Value)
    requires t == RegisterAll(map[], Setup) && source == Payload
    ensures MapValue(t, source, "Posicao") == Ok(Expected)
  {
    SetupRegistersAll();
    PayloadMapping(t, source);
  }

  /** The sample program against the classes: set up the mapper, then map the payload. */
  method Run() returns (destination: Result<Value>)
    ensures destination == Ok(Expected)
  {
    var mapper := new AutoMapper();
    mapper.Initialize(Setup);
    ghost var t := mapper.config.Table();
    ghost var ex := mapper.config.Exprs();
    label Configured:
    destination := mapper.Map(Payload, "Posicao");
    assert unchanged@Configured(mapper.config) && unchanged@Configured(ex);
    SampleMapping(t, Payload);
  }
}
