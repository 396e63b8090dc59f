# automapper-typescript core, modelled in Dafny

This project models the mapping engine of automapper-typescript (`index.ts`,
lines 8-97). The engine has four parts:

- `MemberConfigurationExpression` collects the extractor functions of one
  destination member.
- `MappingExpression` is the fluent builder that lists
  `(destinationMember, chain)` entries.
- `MapperConfigurationExpression` is the two-level registry
  (source key -> destination key -> builder).
- `AutoMapper` is the facade. It runs the configuration callback and maps a
  source object onto a fresh instance of the destination class.

The project has five modules:

- `JsValues` (`js_values.dfy`) holds the JavaScript values the engine reads
  and writes, `typeof`, and property reads, which throw on `undefined` and
  `null`.
- `MappingSpec` (`mapping_spec.dfy`) gives the meaning of the engine as
  functions on values:
  - type keys (`GetTypes`);
  - the registry as a `Table` of member lists;
  - `CreateMap` on that table (`Insert`) and lookup (`Lookup`);
  - one configuration call (`Register`) and a whole configuration callback
    (`RegisterAll`);
  - `Object.defineProperty` (`Define`);
  - the result of `Map` (`MapValue`, `Assemble`, `RunChain`, `Eval`).
- `MappingLemmas` (`mapping_lemmas.dfy`) proves what those functions promise:
  - the last extractor of a chain wins, but every extractor runs;
  - what `Map` yields on registered and unregistered pairs;
  - all objects share the key `"object"`;
  - the first registration of a pair wins, and registration keeps every other
    pair.
- `AutoMapperCore` (`automapper.dfy`) holds the four classes. Their fields
  are updated in place, and each method is proved against the functions
  above. The registry's builders are objects, and `Table()` reads them back
  as values.
- `Sample` (`sample.dfy`) holds the sample program:
  - the `Posicao`, `Rastreador` and `Situacao` configurations;
  - the setup that registers them;
  - the parsed payload, with a proof of exactly which `Posicao` instance
    `Map` returns.

## Model

| member | source | states |
|---|---|---|
| AutoMapperCore.MemberConfigurationExpression.MapFrom | index.ts:11-13 | the chain becomes the old chain with the one extractor appended at the end |
| AutoMapperCore.MemberConfigurationExpression.constructor | index.ts:8-9 | a new member configuration starts with an empty extractor chain |
| AutoMapperCore.MappingExpression.constructor | index.ts:17-19 | a new builder remembers its source and destination arguments and starts with no member entries |
| AutoMapperCore.MappingExpression.GetMembers | index.ts:21-23 | returns the builder's own entries, unchanged and in the order `ForMember` appended them |
| AutoMapperCore.MappingExpression.ForMember | index.ts:25-31 | a chain holding exactly the extractors the options callback passes to `MapFrom`, in order, is appended as one entry for the member; the method returns the same builder |
| AutoMapperCore.MappingExpression.ForMembers | index.ts:25-31 | a fluent `.ForMember(...)` chain appends its entries in order after the existing ones |
| MappingSpec.GetTypes | index.ts:60-65 | a constructor is keyed by its name; any other value is keyed by its `typeof` |
| MappingLemmas.ObjectsShareKey | index.ts:60-65 | every object value (`{}`, a parsed payload, `null`) has the key "object", the same key as a class named "object", so a lookup cannot tell them apart |
| MappingSpec.Lookup | index.ts:54-58 | the lookup finds a member list exactly when the pair's keys are registered, and that list is the registered one |
| AutoMapperCore.MapperConfigurationExpression.constructor | index.ts:35 | a new registry holds no builders, so its table is empty |
| AutoMapperCore.MapperConfigurationExpression.GetMapperExpression | index.ts:54-58 | reads the registry without changing it; returns `undefined` (null) exactly when the pair is absent, and otherwise the very builder object stored under the pair's keys, whose members are the table's |
| MappingSpec.Insert | index.ts:42-50 | after `CreateMap` the pair is registered; a present pair keeps the whole table unchanged; a new pair gets an empty member list |
| MappingSpec.InsertKeepsOthers | index.ts:42-50 | `CreateMap` leaves every other pair as it was and leaves no inner table empty |
| MappingSpec.WithMembersKeepsOthers | index.ts:37-52 | filling in the members of the newly stored builder changes no other pair and leaves no inner table empty |
| AutoMapperCore.MapperConfigurationExpression.CreateMap | index.ts:37-57 | returns a fresh empty builder for the arguments; stores it only when no builder is stored for the key pair, so the table changes as `Insert` says; afterwards `GetMapperExpression` for the same arguments returns that very builder exactly when the pair was new; keeps every inner table non-empty |
| AutoMapperCore.MapperConfigurationExpression.TableAfterCreateMap | index.ts:42-50 | storing an empty builder for a new pair, or nothing for a present one, changes the value-level table exactly as `Insert` |
| AutoMapperCore.MapperConfigurationExpression.BuilderFilled | index.ts:37-52 | after `ForMember` calls on the builder `CreateMap` returned, the table holds those members for a new pair; for a duplicate pair the table is unchanged, because that builder is not stored |
| AutoMapperCore.AddedInSteps | index.ts:42-50 | `CreateMap`'s two registry updates (an empty inner map when none is stored, then the builder when the destination key is absent) store the builder exactly when the pair was absent, and keep inner maps non-empty |
| AutoMapperCore.BuildersAdded | index.ts:47-50 | the stored builders grow by the new builder exactly when the pair was absent; every other stored entry is an old builder |
| MappingLemmas.RegisterNewPair | index.ts:37-52 | `CreateMap(...).ForMember(...)` on a new pair registers exactly the chained members and leaves every other pair's lookup as it was |
| MappingLemmas.RegisterExistingInert | index.ts:47-50 | `CreateMap(...).ForMember(...)` on a registered pair leaves the table unchanged; the chained members are lost |
| MappingLemmas.FirstRegistrationWins | index.ts:47-50 | within one configuration callback, the first registration of a pair decides its members, whatever later registrations of that pair configure |
| MappingLemmas.RegisterAllKeeps | index.ts:37-52 | a configuration callback never removes or alters a registered pair and keeps every inner table non-empty |
| AutoMapperCore.AutoMapper.constructor | index.ts:69 | the shared configuration starts as a new, empty registry |
| AutoMapperCore.AutoMapper.Initialize | index.ts:71-73 | running the callback against the shared configuration leaves the table that its registrations, applied in order, produce |
| AutoMapperCore.AutoMapper.Configure | index.ts:37-52 | one `CreateMap(s, d).ForMember(...)...` call changes the table as `Register` says: it stores the members for a new pair and changes nothing for a present one |
| AutoMapperCore.AutoMapper.Map | index.ts:75-96 | the result is `MapValue` of the current table: an empty fresh instance for an unregistered pair, otherwise the instance its members define, or the error one of them throws |
| AutoMapperCore.AutoMapper.DefineMembers | index.ts:81-93 | the loop over the members defines them in order and stops with the first error, as `Assemble` says |
| AutoMapperCore.AutoMapper.RunExtractors | index.ts:85-88 | the inner loop runs every extractor of the chain in order and keeps the last value; an empty chain yields `undefined` |
| AutoMapperCore.AutoMapper.Invoke | index.ts:87 | one extractor applied to the source is `Eval`; a nested `AutoMapper.Map` call uses the same table |
| JsValues.GetProperty | index.ts:144-181 | the extractors' read `s.name` throws exactly on `undefined` and `null`; on a plain object or instance it yields the own property when there is one, and otherwise `undefined` (see Left out for what JavaScript reads beyond own properties) |
| MappingSpec.Define | index.ts:89-91 | `Object.defineProperty` adds the member with the value and keeps the other members; defining it again with a different value throws |
| MappingLemmas.RunChainLastWins | index.ts:85-88 | a chain succeeds exactly when every extractor succeeds; its value is then the last extractor's, or `undefined` for an empty chain; a failure is the first failing extractor's error |
| MappingLemmas.RunChainErrPersists | index.ts:86-88 | once an extractor throws, the rest of the chain does not change the outcome |
| MappingLemmas.AssembleErrPersists | index.ts:82-92 | once a member fails, the rest of the member list does not change the outcome of `Map` |
| MappingLemmas.AssembleSpec | index.ts:81-93 | the members define an instance exactly when every chain succeeds and members of the same name agree; its own properties are then exactly the member names, each holding its chain's value |
| MappingLemmas.DefineAllSpec | index.ts:89-91 | defining a list of named outcomes succeeds exactly when all succeed and same-named outcomes agree, and then yields exactly those names with those values |
| MappingLemmas.AssembleIsDefineAll | index.ts:81-93 | the member loop defines the members' chain outcomes one after another |
| MappingLemmas.MapUnregistered | index.ts:76-81 | `Map` on a pair that was never registered returns an empty fresh instance of the destination, without error |
| MappingLemmas.MapRegistered | index.ts:75-96 | for a registered pair with distinct member names, `Map` succeeds exactly when every extractor succeeds; the instance then has exactly the configured members, each set to its chain's last value (or `undefined`), and nothing else |
| MappingLemmas.ChainsAgreeWhenDistinct | index.ts:89-91 | with distinct member names, redefinition cannot fail, so only the chains' success matters |
| MappingLemmas.EarlierFailureFailsMap | index.ts:86-88 | an extractor whose value is later overwritten still runs: if it throws, `Map` fails |
| Sample.SetupRegistersAll | index.ts:142-182 | the setup callback registers the three configurations under the source key "object" |
| Sample.SituacaoMapping | index.ts:164-167 | the `Situacao` payload maps to a `Situacao` with only `Ignicao` = true |
| Sample.RastreadorMapping | index.ts:142-148 | the `Rastreador` payload maps to `Id` = 12, `IdVeiculo` = 2951 and the mapped `Situacao`; `NumeroSerial` stays unset |
| Sample.SampleMapping | index.ts:192-203 | after the setup, the payload maps to `Posicao` with `Id` = 1, `IdEvento` = 123, the `Date` of the timestamp and the mapped `Rastreador`, and nothing else |
| Sample.Run | index.ts:186-203 | the program run on the classes (`Initialize`, then `Map`) yields exactly that `Posicao` |

## Left out

- Console output, `JSON.parse` and `Program.Main` are not modelled. The
  parsed payload is written out as a value, and `Sample.Run` stands for
  `Program.Main`.
- The member-options callbacks and the extractor functions are not modelled
  as arbitrary closures. They are the extractors passed to `MapFrom`, in
  order. Extractors have four shapes, which cover the sample:
  - `s => s.x`;
  - `s => AutoMapper.Map(s.x, D)`;
  - `s => new Date(s.x)`;
  - a constant.
- The chain of each member is stored by value. A caller that keeps the
  `MemberConfigurationExpression` and calls `MapFrom` on it after
  `ForMember` returns would change the stored chain in the source. That
  aliasing is not modelled.
- The static `AutoMapper.config` is the `config` field of an `AutoMapper`
  object. The configuration callback of `Initialize` is the sequence of
  registrations it performs.
- `new Date(x)` is an opaque value. Numbers are mathematical integers, with
  no floating point and no `NaN`.
- A function value that is not a class constructor (`typeof` "function") is
  not modelled as a type argument. Constructors are keyed by their `name`.
- `new destination()` yields an instance with no own properties. For the
  sample classes this holds only when TypeScript compiles class fields by
  assignment (`useDefineForClassFields` off, the default for targets below
  ES2022); the repository fixes no compiler setting. With that setting on, each
  `!`-declared field such as `NumeroSerial` is an own writable property
  holding `undefined`: it is present rather than absent, and a second
  `Object.defineProperty` of a member replaces its value instead of throwing,
  unlike `Define`'s `Redefine` error. Constructors with side effects or
  initialised fields are not modelled either.
- JsValues.GetProperty: reads see only the own properties of plain objects
  and instances. There is no prototype chain (an inherited `constructor` or
  `toString` reads as `undefined` here) and no property of primitives (a
  string's `length` and its index characters read as `undefined` here).
- MappingSpec.MapValue: the model assumes that mapping terminates. A `Value`
  is a finite tree, and the only nesting extractor maps a property of the
  source, so `Rank` and the structure of the source bound the recursion. The
  program has no cycle detection: a source that reaches itself (`a.Next = a`
  with a member mapping `s.Next` to the same class), or an extractor
  `s => AutoMapper.Map(s, D)` inside `D`'s own configuration, makes the program
  recurse until the stack overflows. Cyclic sources and extractors that map
  the source itself are not modelled.
- MappingSpec.Define: property attributes are not modelled. Redefining a
  member compares values structurally rather than by `SameValue`, which
  compares objects by identity. So two separately mapped but equal objects
  count as the same value here, where JavaScript would throw.
- AutoMapperCore.AutoMapper.Configure: states the table only. That every
  inner registry map stays non-empty is stated on values by
  MappingLemmas.RegisterAllKeeps and on the class by `CreateMap`.
- AutoMapperCore.AutoMapper.Initialize: likewise states the table only.
- Only the registry entry's member list is read back by `Table()`. The
  builder's stored `source` and `destination` arguments are never read by
  the engine.
