# Snowflake starter: node identity and pre-persist id assignment

This project is a Dafny model of the two parts of the `common-spring-boot-starter`
Snowflake support that carry logic:

- **Node identity** (`SnowflakeProperties`). The worker id and the datacenter id
  are each taken from one of three sources, in this order: the configured
  property, then the `WORKER_ID` / `DATACENTER_ID` environment variable parsed
  with `Long.parseLong`, then a fallback. The worker-id fallback is the last byte
  of the local host's address, read unsigned, mod 32. It is 1 when the lookup
  throws. The datacenter-id fallback is the constant 1.
- **Pre-persist hook** (`SnowflakeEntityListener`). `generateId` walks the
  entity's declared fields in the order `getDeclaredFields` returns them. Each field annotated `@SnowflakeId` whose
  value is null receives `generator.nextId()`. The generator is held in a static
  field that every listener shares and that `setGenerator` rebinds.

Files:

- `javalang.dfy` (module `JavaLang`) models the Java library pieces the core
  relies on: `long` and `byte` ranges, null as `Option`, `b & 0xFF`,
  `Long.parseLong`, and `Long.toString` as the parser's inverse.
- `nodeidentity.dfy` (module `NodeIdentity`) is the resolution logic as pure
  functions, plus the `SnowflakeProperties` class with its two nullable fields
  and their setters. Its getters `GetWorkerId` and `GetDatacenterId` only pass
  the property fields to `ResolveWorkerId` and `ResolveDatacenterId`, whose
  rows below state their behaviour. The environment is a `map<string, string>`. The local-host
  lookup is an `Option<seq<Byte>>`, where `None` means the lookup threw.
- `entitylistener.dfy` (module `EntityListener`) covers the listener:
  - An entity is an `array<Field>` in the order `getDeclaredFields` returns
    the fields. Java does not promise any particular order; common JVMs use
    declaration order. Each field records
    whether it is annotated, whether reflective access to it succeeds, and its
    value.
  - `GenerateId` is a loop over that array, updated in place. The `forEach`
    lambda is the method `VisitField`.
  - It is specified against the value-level functions `Stop`, `CountNeedsId`
    and `Fill`, and the properties are proved about those functions.

What the code does, and the model with it:

- Configured and environment values are not range-checked. Any `long`, negative
  ones included, comes back unchanged. Only the address fallback lies in
  [0, 31].
- A malformed environment value raises `NumberFormatException`. Nothing falls
  back. The model returns `NumberFormatError`.
- "Unset" means null and nothing else. A field already holding 0 keeps it.
- The hook promises no particular id value, non-zero or otherwise, because the
  generator is opaque.

## Model

| member | source | states |
|---|---|---|
| `JavaLang.UnsignedByte` | src/main/java/com/kazama/common/snowflake/SnowflakeProperties.java:47 | `b & 0xFF` is the value in [0, 255] congruent to the signed byte mod 256, and equals the byte when it is non-negative |
| `JavaLang.ParseLong` | src/main/java/com/kazama/common/snowflake/SnowflakeProperties.java:22 | a successful parse had an optional sign followed only by at least one digit, and a negative result had a leading `-` |
| `JavaLang.ParseLongToDecimal` | src/main/java/com/kazama/common/snowflake/SnowflakeProperties.java:22 | parsing the decimal text of any `long` gives back that `long` |
| `JavaLang.ParseLongRejectsNonDigit` | src/main/java/com/kazama/common/snowflake/SnowflakeProperties.java:22 | any character that is neither a digit nor the leading sign makes the parse fail |
| `JavaLang.ParseLongRejectsNoDigits` | src/main/java/com/kazama/common/snowflake/SnowflakeProperties.java:22 | the empty string and a lone `+` or `-` make the parse fail |
| `JavaLang.ParseLongRejectsOverflow` | src/main/java/com/kazama/common/snowflake/SnowflakeProperties.java:22 | a magnitude beyond the `long` range makes the parse fail rather than wrap; the one exception is a `-` followed by digits denoting 2^63, with or without leading zeros |
| `JavaLang.ParseLongLenient` | src/main/java/com/kazama/common/snowflake/SnowflakeProperties.java:22 | worked cases: `+07` parses to 7 and `-0` to 0 |
| `JavaLang.ParseLongLeadingZeros` | src/main/java/com/kazama/common/snowflake/SnowflakeProperties.java:22 | for every sign (none, `+` or `-`), every number of leading zeros and every magnitude in the `long` range, the parse succeeds with the signed magnitude |
| `JavaLang.ParseLongCanonical` | src/main/java/com/kazama/common/snowflake/SnowflakeProperties.java:22 | the converse of `ParseLongLeadingZeros`: every accepted string is a sign (none, `+` or `-`), some leading zeros and the canonical digits of the result's magnitude, so together the two lemmas describe exactly the strings the parser accepts |
| `NodeIdentity.WorkerIdFromAddress` | src/main/java/com/kazama/common/snowflake/SnowflakeProperties.java:43-51 | the address fallback lies in [0, 31]; it is the last byte's residue mod 32; it is 1 when the lookup throws or the address is empty |
| `NodeIdentity.ResolveWorkerId` | src/main/java/com/kazama/common/snowflake/SnowflakeProperties.java:15-27 | a configured value is returned as is; otherwise a present `WORKER_ID` that parses gives its parsed value, and one that does not parse is an error carrying that text (and only then is there an error); with neither source the result is the address fallback `WorkerIdFromAddress(host)`, in [0, 31]; an out-of-range result can only come from configuration or environment |
| `NodeIdentity.ResolveDatacenterId` | src/main/java/com/kazama/common/snowflake/SnowflakeProperties.java:29-40 | a configured value is returned as is; otherwise a present `DATACENTER_ID` that parses gives its parsed value, and one that does not parse is an error carrying that text (and only then is there an error); with neither source the result is 1 |
| `NodeIdentity.ConfiguredWorkerIdWins` | src/main/java/com/kazama/common/snowflake/SnowflakeProperties.java:16-18 | a configured worker id is returned whatever the environment and the address hold |
| `NodeIdentity.EnvironmentWorkerIdWins` | src/main/java/com/kazama/common/snowflake/SnowflakeProperties.java:20-23 | with no configured value, `WORKER_ID` set to the text of any `long` (negative or above 31 included) yields that `long`, whatever the address |
| `NodeIdentity.MalformedWorkerIdFails` | src/main/java/com/kazama/common/snowflake/SnowflakeProperties.java:20-23 | a non-numeric `WORKER_ID` is an error, not a fall-through to the address |
| `NodeIdentity.ConfiguredDatacenterIdWins` | src/main/java/com/kazama/common/snowflake/SnowflakeProperties.java:30-32 | a configured datacenter id is returned whatever the environment holds |
| `NodeIdentity.EnvironmentDatacenterIdWins` | src/main/java/com/kazama/common/snowflake/SnowflakeProperties.java:34-37 | with no configured value, `DATACENTER_ID` set to the text of any `long` yields that `long` |
| `NodeIdentity.MalformedDatacenterIdFails` | src/main/java/com/kazama/common/snowflake/SnowflakeProperties.java:34-37 | a non-numeric `DATACENTER_ID` is an error, not a fall-through to 1 |
| `NodeIdentity.ResolutionExamples` | src/main/java/com/kazama/common/snowflake/SnowflakeProperties.java:15-51 | configured 7 beats `WORKER_ID=9`; `WORKER_ID=9` alone gives 9; `WORKER_ID=007` gives 7 and `DATACENTER_ID=+3` gives 3; `-3` is returned unchecked; hosts ending .5 and .37 both get 5; .255 gets 31; a failed lookup gets 1; `DATACENTER_ID=x` is an error |
| `NodeIdentity.SnowflakeProperties.constructor` | src/main/java/com/kazama/common/snowflake/SnowflakeProperties.java:11-13 | both properties start out null |
| `NodeIdentity.SnowflakeProperties.SetWorkerId` | src/main/java/com/kazama/common/snowflake/SnowflakeProperties.java:53-55 | only `workerId` changes; after a non-null value is set, `getWorkerId` returns it in every environment |
| `NodeIdentity.SnowflakeProperties.SetDatacenterId` | src/main/java/com/kazama/common/snowflake/SnowflakeProperties.java:57-59 | only `datacenterId` changes; after a non-null value is set, `getDatacenterId` returns it in every environment |
| `EntityListener.StopIsFirstFailure` | src/main/java/com/kazama/common/snowflake/SnowflakeEntityListener.java:24-32 | a run stops at the first field whose processing throws: no earlier field throws and the field at the stopping point does |
| `EntityListener.OutcomeMeaning` | src/main/java/com/kazama/common/snowflake/SnowflakeEntityListener.java:24-32 | a run completes exactly when no field throws; otherwise it reports the first throwing field and the reason (access failure, or no generator bound) |
| `EntityListener.FillAt` | src/main/java/com/kazama/common/snowflake/SnowflakeEntityListener.java:23-29 | an annotated null field receives the id whose position equals the number of such fields before it; every other field stays exactly as it was |
| `EntityListener.FillSatisfies` | src/main/java/com/kazama/common/snowflake/SnowflakeEntityListener.java:27-28 | after assignment no annotated field is null |
| `EntityListener.SecondRunIsNoOp` | src/main/java/com/kazama/common/snowflake/SnowflakeEntityListener.java:27-28 | after a completed run, a second run completes with or without a generator, needs no id and changes nothing |
| `EntityListener.UnannotatedFieldsIgnored` | src/main/java/com/kazama/common/snowflake/SnowflakeEntityListener.java:22-23 | entities that differ only in unannotated fields stop at the same place, report the same outcome and need the same number of ids |
| `EntityListener.SnowflakeGenerator.NextId` | src/main/java/com/kazama/common/snowflake/SnowflakeGenerator.java:14-16 | each call returns a `long` and appends it to the generator's history |
| `EntityListener.SnowflakeEntityListener.SetGenerator` | src/main/java/com/kazama/common/snowflake/SnowflakeEntityListener.java:12-15 | the shared slot now holds the given generator |
| `EntityListener.VisitField` | src/main/java/com/kazama/common/snowflake/SnowflakeEntityListener.java:24-33 | the lambda throws exactly when the annotated field is inaccessible, or is null with no generator bound; an annotated null field gets one `nextId()` result; otherwise neither the entity nor the generator changes |
| `EntityListener.SnowflakeEntityListener.GenerateId` | src/main/java/com/kazama/common/snowflake/SnowflakeEntityListener.java:20-34 | reports the first failure or completion. Fields before the stopping point that were annotated and null hold the ids drawn, in the order `getDeclaredFields` lists the fields; the stopping field and later ones are untouched. The generator's history grows by exactly one id per such field. With no generator bound, nothing changes |
| `EntityListener.GenerateIdTwice` | src/main/java/com/kazama/common/snowflake/SnowflakeEntityListener.java:27-28 | two runs in a row have the effect of one: after a completed first run, the second completes, draws no id and changes no field |
| `EntityListener.LatestBindingWins` | src/main/java/com/kazama/common/snowflake/SnowflakeEntityListener.java:10-15 | when two listeners share the binding, the most recent `setGenerator` decides which generator a run uses; the earlier generator is never called |

## Left out

- `SnowflakeGenerator`'s id algorithm (bit layout, sequence counter, clock handling) lives in the hutool library, which is not part of this model. The generator is modelled only by its `nextId()` call.
- `EntityListener.SnowflakeGenerator.NextId`: promises no uniqueness, ordering or sign for the returned id. The code relies on a library algorithm this model cannot see. The counter in its body is a stand-in.
- `nextId()` is assumed never to throw. If the library's `nextId()` threw, the `forEach` would abort with the earlier fields already assigned, and this model does not capture that.
- The order of the fields is whatever `getDeclaredFields` returns, which Java leaves unspecified. The model takes the array order as given and says nothing about how it relates to declaration order.
- `SnowflakeAutoConfiguration` and `RedissonAutoConfiguration` are Spring bean wiring with no logic of their own.
- `System.getenv` and `InetAddress.getLocalHost().getAddress()` are inputs, not calls. The environment is a map. The address is an optional byte sequence, where `None` means the lookup threw.
- Reflection is replaced by data: `getDeclaredFields`, `isAnnotationPresent`, `setAccessible`, `field.get` and `field.set` become a list of fields with an annotation flag and an accessibility flag.
  - The modelled access failure is `setAccessible(true)` throwing (`InaccessibleObjectException` or `SecurityException`) for an annotated field. It propagates unwrapped and aborts the run before `nextId()` is called for that field.
  - Once `setAccessible(true)` has returned, `field.get` cannot throw `IllegalAccessException`. So the catch that wraps it in a `RuntimeException` (SnowflakeEntityListener.java:30-31) is reached only from `field.set`, for example on a `static final` field, after `nextId()` has already drawn an id. That path is not modelled.
  - An `IllegalArgumentException` from storing a `Long` into a field of another type is not modelled.
  - `getDeclaredFields` does not return inherited fields. An `@SnowflakeId` field declared in a superclass (a `@MappedSuperclass` base entity, say) is never in the array and never assigned; the model's array holds only the entity class's own fields.
  - Visiting the array in order assumes the sequential stream's `forEach` visits fields in encounter order.
- `JavaLang.ParseLong`: accepts ASCII digits only. `Character.digit` also accepts digits from other Unicode scripts, and this model does not.
- The static `generator` field is modelled as a `GeneratorSlot` object that every listener is constructed with, because Dafny has no mutable static fields. How Spring's `@Autowired` and the persistence provider's `@PrePersist` get invoked is not modelled.
- Threads are not modelled: neither concurrent `generateId` calls, nor the visibility of the static field, nor concurrent `nextId()` calls.
