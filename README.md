# A Dafny model of the data-access layer of common-utils

The repository's data-access package is four thin wrappers:

- a generic Hibernate repository (`BaseHibernateDao`);
- a plain-JDBC base class (`BaseDao`);
- a Spring-Redis cache facade (`RedisService`);
- a Jackson serializer for Redis values (`JacksonRedisSerializer`).

This project models what these classes decide themselves and proves properties of that
behaviour. The libraries they call are not modelled. Each library becomes a small abstract
collaborator, passed in as a value:

- **Hibernate** (module `Hibernate`, `hibernate_dao.dfy`). This part models the binder and
  the pager:
  - The `Database` value evaluates HQL under a binding table.
  - A binding table is built by position and by name, from an `Object...` array or from a
    `Map<Object, Object>` whose keys are dispatched by runtime type.
  - HQL evaluation itself is abstract.

  The class `Query` holds the bindings and the row window that the binder sets step by step.

  The `Session` value says which call, counted in call order, raises a
  `HibernateException` and whether `rollback` raises too. It also gives what `get`,
  `merge` and `load` return. Every mutation runs inside a try/catch bracket that returns
  the trace of calls it made as a separate result. The model replays that trace through
  a transaction state machine (Idle → Active → Committed | RolledBack).
- **JDBC** (module `Jdbc`, `base_dao.dfy`). `Connection`, `PreparedStatement` and
  `ResultSet` are classes:
  - Their `closed` flags and parameter tables change in place.
  - The driver's answers are constants: the number of `?` markers, the update count, the
    generated keys, and whether each `close` raises.

  `BaseDao` is a class with the fields `conn`, `pstmt` and `rs`, plus the text it printed
  to standard output.
- **Redis** (module `Redis`, `redis_service.dfy`):
  - The store is one keyspace: a map from key to a string, set or list value, with an
    optional time to live.
  - Each command is given as a function of the old keyspace or in its method's `ensures`.
    `GET`, `SET`/`SETEX`, `EXISTS`, `EXPIRE`, `TTL`, `SADD`, `SISMEMBER`, `LRANGE` and
    `INCRBY` are functions. `SETNX` and `DEL` are stated in the `ensures` of `SaveNX` and
    `Delete`. `SPOP` is the function `Popped` applied to a member the method chooses.
  - `RedisService` is a class holding that keyspace. Its mutating methods are proved to
    leave exactly the keyspace those functions and `ensures` describe.
  - Every method keeps the keyspace well formed (`Redis.Valid`): it holds no empty set or
    list and no non-positive time to live.
- **Jackson** (module `Serializer`, `jackson_serializer.dfy`):
  - The `ObjectMapper` is an abstract encoder/decoder pair together with the configuration
    that the constructors choose.
  - The serializer is a value, and its operations are functions.

Shared modules:

- `Outcomes` holds `Option` and `Result`.
- `Java` holds `int`/`long` as `int32`/`int64`, with `Wrap32` for the narrowing cast. It
  also has a small universe of Java values and `String.valueOf`.
- `Decimal` holds the decimal text of integers, with both round trips proved. These texts
  are the ones Java prints and the only ones Redis's `INCRBY` accepts.

All source paths below are under `src/main/java/com/hz/tgb/data/`.

### Behaviour of the code worth noting

- The typed Redis `save(key, t, seconds)` passes `seconds` to the string `save`, which
  issues a single `SETEX` for a positive `seconds` and a single `SET` otherwise.
- When opening a session or beginning a transaction raises, no rollback happens.
  When `rollback` itself raises, its `HibernateException` escapes the repository method
  (`Result.Err`). The method neither returns the failure sentinel nor reaches a
  rolled-back state:
  - `Hibernate.Mutate` and `Hibernate.Merge` return `Err`.
  - The state machine stays `Active`.
- `delete(id)` hands whatever `get(id)` returned, null included, to `session.delete`
  (`Hibernate.WorkSteps`).
- Hibernate sessions are never closed by this layer. `BaseDao.executeQuery` closes nothing
  on any path, and `executeInsert` never closes the result set that holds the generated
  keys. When a call replaces the statement or connection held in a `BaseDao` field, the
  earlier object is left open.
- `increment` on an absent key returns `delta`, since the counter starts at 0. The
  method's comment says it returns 1, which holds only for a delta of 1.

## Model

| member | source | states |
|---|---|---|
| Hibernate.ArrayBindings | src/main/java/com/hz/tgb/data/hibernate/BaseHibernateDao.java:624-633 | element i of a non-null array is bound at 0-based position i, no other position is bound, a null array binds nothing, and nothing is bound by name |
| Hibernate.PrepareQueryArray | src/main/java/com/hz/tgb/data/hibernate/BaseHibernateDao.java:624-633 | the loop leaves a fresh query over the HQL text whose binding table is exactly `ArrayBindings` of the array, with no row window set |
| Hibernate.PrepareQueryMap | src/main/java/com/hz/tgb/data/hibernate/BaseHibernateDao.java:642-655 | whatever order the key set is visited in, the query ends up with exactly `MapBindings` of the map |
| Hibernate.MapKeysDispatchByType | src/main/java/com/hz/tgb/data/hibernate/BaseHibernateDao.java:647-651 | a position is bound exactly for each `Integer` key and a name exactly for each `String` key, each with that key's value, and every bound position is an `int` |
| Hibernate.OtherKeysAreSkipped | src/main/java/com/hz/tgb/data/hibernate/BaseHibernateDao.java:646-652 | adding an entry whose key is neither `Integer` nor `String` changes no binding at all |
| Hibernate.PrepareQuery | src/main/java/com/hz/tgb/data/hibernate/BaseHibernateDao.java:624-655 | each of the three parameter shapes yields a fresh query with the binding table `BindingsOf` that shape, unwindowed |
| Hibernate.QueryList | src/main/java/com/hz/tgb/data/hibernate/BaseHibernateDao.java:43-56 | `queryList` returns the full, unbounded result of the HQL under the parameters' binding table |
| Hibernate.Query.UniqueResult | src/main/java/com/hz/tgb/data/hibernate/BaseHibernateDao.java:93-95 | `uniqueResult` gives null for no row and the row for a single row, and it raises exactly when two rows differ (compared as values) |
| Hibernate.QueryFirst | src/main/java/com/hz/tgb/data/hibernate/BaseHibernateDao.java:93-95 | `queryFirst`/`Single` give null for an empty result and otherwise the first row of the full result, never an exception |
| Hibernate.GetCount | src/main/java/com/hz/tgb/data/hibernate/BaseHibernateDao.java:171-175 | the first row must be a `Long`, which is narrowed to `int` with wrap-around. No row or a null row raises `NullPointerException`, and any other row raises `ClassCastException` |
| Hibernate.CountNarrowing | src/main/java/com/hz/tgb/data/hibernate/BaseHibernateDao.java:174 | for a row count below 2^32, `getCount` returns the count unchanged when it fits in an `int`, and returns the negative number count - 2^32 exactly when the count is 2^31 or more |
| Java.Wrap32 | src/main/java/com/hz/tgb/data/hibernate/BaseHibernateDao.java:174 | the `int` cast keeps in-range values and otherwise agrees with its argument modulo 2^32 |
| Hibernate.QueryForPage | src/main/java/com/hz/tgb/data/hibernate/BaseHibernateDao.java:329-334 | the page is the full result windowed at first result `(pageIndex-1)*pageSize` (in `int` arithmetic) with max results `pageSize` |
| Hibernate.PageIsSlice | src/main/java/com/hz/tgb/data/hibernate/BaseHibernateDao.java:329-334 | for a positive size and an offset that fits in `int`, the page is the slice of the full result starting at the offset, it has at most `pageSize` rows, and page 1 is a prefix |
| Hibernate.PagesTile | src/main/java/com/hz/tgb/data/hibernate/BaseHibernateDao.java:329-334 | pages 1 to n laid end to end are exactly the first n*pageSize rows, so paging neither skips nor repeats a row |
| Hibernate.FindForPage | src/main/java/com/hz/tgb/data/hibernate/BaseHibernateDao.java:409-415 | `totalCount` is the size (capped at `Integer.MAX_VALUE`) of the separate unbounded query with the same parameters, the list is `queryForPage` with the same arguments, and size and index are passed through |
| Hibernate.BracketIsOneTransaction | src/main/java/com/hz/tgb/data/hibernate/BaseHibernateDao.java:484-499 | the trace of every bracket is accepted by the transaction state machine. It ends Committed when nothing raised, Idle when the failure came before `beginTransaction` returned, and RolledBack otherwise (or still Active if the rollback raised) |
| Hibernate.RollbackIffHandle | src/main/java/com/hz/tgb/data/hibernate/BaseHibernateDao.java:492-497 | `rollback` is called exactly when the raising call came after `beginTransaction` returned, that is, exactly when `tx != null` |
| Hibernate.Bracket | src/main/java/com/hz/tgb/data/hibernate/BaseHibernateDao.java:484-499 | the imperative try/catch makes exactly the calls of `BracketTrace`. It completes exactly when the final state is Committed, and the rollback escapes exactly when the final state is Active |
| Hibernate.Mutate | src/main/java/com/hz/tgb/data/hibernate/BaseHibernateDao.java:484-499 | for `save`, `update`, `saveOrUpdate`, `delete(entity)` and `delete(id)`: true exactly when the trace commits, false exactly when it ends Idle or RolledBack, the escaping exception exactly when it stays Active, and a rollback in the trace exactly when the raise came after `beginTransaction` |
| Hibernate.Merge | src/main/java/com/hz/tgb/data/hibernate/BaseHibernateDao.java:553-568 | a commit returns what `session.merge` returned, a failure returns null, and a raising rollback escapes |
| Hibernate.Load | src/main/java/com/hz/tgb/data/hibernate/BaseHibernateDao.java:154-162 | `load` returns what the session loaded, or null when opening the session or the load raised; the exception never escapes |
| Jdbc.OneBased | src/main/java/com/hz/tgb/data/BaseDao.java:166-170 | after n elements, positions 1..n are bound and each position i holds element i-1 |
| Jdbc.BaseDao.Prepare | src/main/java/com/hz/tgb/data/BaseDao.java:164-172 | takes the acquired connection, or keeps the old one when acquisition failed. It stops at a missing connection or a failing `prepareStatement`. Otherwise the fresh statement is held in `pstmt` and element i is bound at position i+1 until a position beyond the statement's markers raises. It logs only when every element was bound, and `rs` is untouched |
| Jdbc.CloseChainStopsAtFirstRaise | src/main/java/com/hz/tgb/data/BaseDao.java:136-150 | `closeAll` closes every present field before the first `close` that raises, and leaves that field and all later ones as they were; no field becomes null |
| Jdbc.CloseChainClosesAll | src/main/java/com/hz/tgb/data/BaseDao.java:136-150 | when no `close` raises, every non-null field ends closed and no field changes between null and non-null |
| Jdbc.BaseDao.CloseAll | src/main/java/com/hz/tgb/data/BaseDao.java:136-150 | the imperative `closeAll` changes the three objects exactly as `CloseChain` of their states, in the order rs, pstmt, conn, and the fields keep their references |
| Jdbc.BaseDao.ExecuteUpdate | src/main/java/com/hz/tgb/data/BaseDao.java:162-180 | the update count on success, 0 after a `SQLException`, and `NullPointerException` with no connection. The statement binds element i at position i+1, as `Prepare` does. When there is no connection or `prepareStatement` raises, the field `pstmt` keeps the earlier statement, which `closeAll` then closes. `closeAll` runs on every path, over the fields as the call left them. A statement or connection the call replaced in a field is left exactly as it was, open if it was open |
| Jdbc.InsertedKey | src/main/java/com/hz/tgb/data/BaseDao.java:206-223 | 0 when the update count is not positive or no key row came back, else the first generated key |
| Jdbc.BaseDao.GeneratedKey | src/main/java/com/hz/tgb/data/BaseDao.java:206-223 | the update and the read of the first key into a local result set give `InsertedKey` of the driver's answers, or 0 when the update raised |
| Jdbc.BaseDao.ExecuteInsert | src/main/java/com/hz/tgb/data/BaseDao.java:190-230 | the generated key as above, 0 after any `SQLException`, and `closeAll` on every path. The statement binds element i at position i+1. When there is no connection or `prepareStatement` raises, the field `pstmt` keeps the earlier statement, which `closeAll` then closes. The field `rs` keeps its earlier value, and a statement or connection the call replaced in a field is left exactly as it was |
| Jdbc.BaseDao.ExecuteQuery | src/main/java/com/hz/tgb/data/BaseDao.java:241-256 | on success `rs` holds the fresh result set, and otherwise `rs` keeps its old value. The statement binds element i at position i+1. No object is closed on any path, and a missing connection raises `NullPointerException` |
| Jdbc.BaseDao.Log | src/main/java/com/hz/tgb/data/BaseDao.java:267-281 | appends the `===========` line with the SQL, then for a non-empty array the `参数：` line and the parameters joined by "," with a final newline |
| Jdbc.BaseDao.PrintParams | src/main/java/com/hz/tgb/data/BaseDao.java:271-278 | the indexed loop prints each parameter's `String.valueOf` followed by "," and the last one by "\n" |
| Jdbc.JoinedSplits | src/main/java/com/hz/tgb/data/BaseDao.java:271-278 | the joined parameter text is the text of any prefix, a ",", then the text of the rest, so the parameters appear in order |
| Redis.TtlMeaning | src/main/java/com/hz/tgb/data/redis/RedisService.java:192-208 | `ttl` is -2 exactly for an absent key, -1 exactly for a key with no expiry, and otherwise the positive seconds left |
| Redis.Get | src/main/java/com/hz/tgb/data/redis/RedisService.java:124-135 | `get` is null exactly for an absent key, gives the stored text for a string key, and raises `WRONGTYPE` exactly for a key of another type |
| Redis.ExistsMeaning | src/main/java/com/hz/tgb/data/redis/RedisService.java:161-171 | `exist` holds exactly when `ttl` is not -2, exactly when `get` is not null, and exactly when `list` is not empty |
| Redis.Range | src/main/java/com/hz/tgb/data/redis/RedisService.java:210-212 | `list` gives the stored list of a list key and raises `WRONGTYPE` exactly for a key of another type |
| Redis.IsMember | src/main/java/com/hz/tgb/data/redis/RedisService.java:258-260 | `existInSet` is true exactly when the key holds a set containing the element, and raises `WRONGTYPE` exactly for a key of another type |
| Redis.GetObject | src/main/java/com/hz/tgb/data/redis/RedisService.java:55-58 | the typed `get` is null for an absent key, propagates the failure of `get`, and otherwise returns what the JSON library parses from the stored text, or its parse error |
| Redis.ListMeaning | src/main/java/com/hz/tgb/data/redis/RedisService.java:210-212 | as no empty list is stored, `list` is empty exactly for an absent key; `existInSet` is true only for an existing key |
| Redis.WrittenReadsBack | src/main/java/com/hz/tgb/data/redis/RedisService.java:79-96 | after a save the key reads back the value and expires in `seconds` when that is positive, never otherwise; other keys are untouched and the store stays well formed |
| Redis.RedisService.Save | src/main/java/com/hz/tgb/data/redis/RedisService.java:79-96 | `SETEX` for a positive `seconds`, `SET` otherwise, overwriting any value of any type, and always true |
| Redis.RedisService.SaveForever | src/main/java/com/hz/tgb/data/redis/RedisService.java:67-69 | `save(key, value)` stores the value with no expiry and returns true |
| Redis.RedisService.SaveObject | src/main/java/com/hz/tgb/data/redis/RedisService.java:43-46 | the typed save stores the codec's JSON text through the string save with the same `seconds` |
| Redis.RedisService.SaveObjectForever | src/main/java/com/hz/tgb/data/redis/RedisService.java:31-33 | the typed save without `seconds` stores the JSON text with no expiry |
| Redis.ObjectReadsBack | src/main/java/com/hz/tgb/data/redis/RedisService.java:43-58 | with a codec that reads back what it writes, a typed get after a typed save returns the object |
| Redis.RedisService.SaveNX | src/main/java/com/hz/tgb/data/redis/RedisService.java:105-116 | true exactly when the key was absent, in which case the value is stored without expiry; otherwise the store is unchanged |
| Redis.RedisService.Delete | src/main/java/com/hz/tgb/data/redis/RedisService.java:143-153 | returns 1 if the key existed and 0 otherwise; afterwards `exist(key)` is false and nothing else changed |
| Redis.RedisService.Expire | src/main/java/com/hz/tgb/data/redis/RedisService.java:180-190 | false and no change for an absent key; otherwise the store becomes `Expired` |
| Redis.ExpiredMeaning | src/main/java/com/hz/tgb/data/redis/RedisService.java:180-190 | expiring a present key keeps its value and makes `ttl` report the seconds; a non-positive timeout deletes the key; other keys are untouched |
| Redis.SetAdd | src/main/java/com/hz/tgb/data/redis/RedisService.java:233 | the reply of `SADD` is between 0 and the number of arguments |
| Redis.SetAddMeaning | src/main/java/com/hz/tgb/data/redis/RedisService.java:233 | after `SADD`, the members are the old ones plus the arguments, the reply counts exactly the arguments that were new, and the key's expiry is kept |
| Redis.RedisService.AddToSet | src/main/java/com/hz/tgb/data/redis/RedisService.java:232-238 | `SADD` first. A failing `SADD` raises and changes nothing; otherwise `EXPIRE` follows only for a positive `seconds` and the `SADD` reply is returned |
| Redis.RedisService.AddToSetKeepingTtl | src/main/java/com/hz/tgb/data/redis/RedisService.java:247-249 | passing -1 means the store is exactly what `SADD` leaves, with no expiry set |
| Redis.PoppedMeaning | src/main/java/com/hz/tgb/data/redis/RedisService.java:220-222 | the popped member leaves the set, the other members stay, and other keys are untouched |
| Redis.RedisService.PopFromSet | src/main/java/com/hz/tgb/data/redis/RedisService.java:220-222 | null for an absent key, `WRONGTYPE` for a non-set; otherwise some member of the set is returned and removed, and the key goes with its last member |
| Redis.Counter | src/main/java/com/hz/tgb/data/redis/RedisService.java:270-272 | a stored counter is accepted only in canonical decimal form: printing the parsed number gives back the stored text |
| Redis.IncrByMeaning | src/main/java/com/hz/tgb/data/redis/RedisService.java:262-272 | `increment` returns the old value plus `delta`, counting an absent key as 0. The key then reads as that number's text, keeps its expiry, and no other key changes |
| Redis.IncrementsCompose | src/main/java/com/hz/tgb/data/redis/RedisService.java:270-272 | when a+b fits in a `long`, two successful increments by a and b leave the same store and reply as one increment by a+b |
| Redis.RedisService.Increment | src/main/java/com/hz/tgb/data/redis/RedisService.java:270-272 | the method's reply and new store are those of `INCRBY`, and an error changes nothing |
| Redis.DistinctAtMost | src/main/java/com/hz/tgb/data/redis/RedisService.java:233 | the arguments of `SADD` name at most as many distinct members as there are arguments |
| Decimal.ParsePrinted | src/main/java/com/hz/tgb/data/redis/RedisService.java:270-272 | the decimal text of any integer parses back to that integer |
| Decimal.PrintedParse | src/main/java/com/hz/tgb/data/redis/RedisService.java:270-272 | any text that parses is exactly the printed form of its value, so the accepted form is canonical |
| Serializer.FromMapper | src/main/java/com/hz/tgb/data/redis/serializer/JacksonRedisSerializer.java:38-41 | a null mapper raises `IllegalArgumentException("ObjectMapper must not be null!")`; otherwise the serializer holds that mapper |
| Serializer.FromTypeName | src/main/java/com/hz/tgb/data/redis/serializer/JacksonRedisSerializer.java:28-36 | a fresh mapper with default typing for non-final types as a property, named by the argument exactly when it is not blank, and with null properties left out |
| Serializer.Default | src/main/java/com/hz/tgb/data/redis/serializer/JacksonRedisSerializer.java:24-26 | the no-argument constructor gives non-final typing under Jackson's default property name, with null properties left out |
| Serializer.BlankNameIsDefault | src/main/java/com/hz/tgb/data/redis/serializer/JacksonRedisSerializer.java:30-34 | an empty or all-whitespace name configures the same serializer as no name |
| Serializer.Serialize | src/main/java/com/hz/tgb/data/redis/serializer/JacksonRedisSerializer.java:44-53 | null encodes to the empty array, and every failure is a `SerializationException` |
| Serializer.Deserialize | src/main/java/com/hz/tgb/data/redis/serializer/JacksonRedisSerializer.java:60-70 | a null type is rejected before anything else; null or empty input is null; every other failure is a `SerializationException` |
| Serializer.DeserializeAny | src/main/java/com/hz/tgb/data/redis/serializer/JacksonRedisSerializer.java:55-58 | `deserialize(byte[])` gives null for null or empty input, and every failure is a `SerializationException`, never the null-type rejection |
| Serializer.IsEmptyMeaning | src/main/java/com/hz/tgb/data/redis/serializer/JacksonRedisSerializer.java:72-74 | `isEmpty` holds exactly for null and for the zero-length array |
| Serializer.EmptyIgnoresMapper | src/main/java/com/hz/tgb/data/redis/serializer/JacksonRedisSerializer.java:62-64 | empty input decodes to null without the mapper: serializers with different mappers agree on it |
| Serializer.NullRoundTrip | src/main/java/com/hz/tgb/data/redis/serializer/JacksonRedisSerializer.java:44-64 | deserializing the serialization of null gives null, whatever type is asked for |
| Serializer.ValueRoundTrip | src/main/java/com/hz/tgb/data/redis/serializer/JacksonRedisSerializer.java:44-70 | if the mapper reads back what it writes, `deserialize(byte[])`, which is the two-argument form at `Object.class`, returns every non-null value that serialized |
| Serializer.FailuresAreExceptions | src/main/java/com/hz/tgb/data/redis/serializer/JacksonRedisSerializer.java:48-52 | a mapper failure surfaces as a `SerializationException` with the "Could not write JSON: " or "Could not read JSON: " message, never as null |

## Left out

- HQL evaluation, and the bean and map matching of `Query.setProperties`. Both are
  functions of the `Database` value. The `...ByProperties` variants are modelled only
  through `Hibernate.BindingsOf`, and the matching itself is not stated.
- Hibernate's first-row and max-rows handling is assumed to be as follows:
  - a non-positive first row reads from the start;
  - a non-positive max sets no limit.
  That is what `Hibernate.Window` encodes.
- Exceptions raised while a query runs (`list`, `uniqueResult`) are not modelled, with one
  exception: the `NonUniqueResultException` of `uniqueResult` for two distinct rows is
  modelled by `Hibernate.Query.UniqueResult`. Apart from it, only the exceptions that this
  layer's own code raises are modelled.
- Hibernate.Query.SetPositional: records any position. Hibernate's `setParameter` raises
  for a position the HQL does not declare, and that is not modelled.
- Hibernate.Query.SetNamed: records any name. Hibernate's `setParameter` raises for a name
  the HQL does not declare, and that is not modelled.
- Hibernate.Query.UniqueResult: compares rows as values. Hibernate compares them by
  reference, so two distinct but equal row objects raise there and not here. Nothing
  observable changes under the `setMaxResults(1)` that every caller in this layer sets.
- `Projection` and `Single` are not separate members, because their bodies are those of
  `queryList` and `queryFirst`.
- Reflection-based discovery of the entity class in the constructor of `BaseHibernateDao`
  is not modelled.
- `get(id)` is modelled only as a step of `delete(id)`, as the session's answer `found`.
  On its own it is a one-line pass-through.
- Lazy-proxy semantics of `load` are not modelled.
- Exceptions other than `HibernateException` in the brackets are not modelled. An
  exception the session raises is a parameter of the `Session` value, so the model never
  creates one.
- Hibernate.Mutate: covers every bracket except `merge`, which returns a value and is
  `Hibernate.Merge`.
- `getConnection`, the `BaseDao` instance initializer, the driver and URL configuration,
  and JNDI lookup are not modelled. The connection `getConnection` obtains is a parameter;
  null means that acquisition failed and was logged.
- The logger, `printStackTrace` and the standard-error output are not modelled. Only what
  `log` prints to standard output is.
- Jdbc.BaseDao.Log: takes `println`'s line separator to be "\n". The platform's
  `line.separator` is not modelled.
- The JDBC driver is a set of constant answers fixed per connection. Driver behaviour that
  depends on the SQL or on the bound values is not modelled. A failing `getInt` or
  `getGeneratedKeys` is not modelled either.
- Thread safety of the shared `BaseDao` fields is not modelled, and neither is concurrency
  of any kind.
- Redis runs as a real server, so the following are not modelled:
  - wall-clock expiry (a time to live stays as it was set);
  - atomicity and concurrency;
  - the server's choice of `SPOP` member, which is any member.
- The `RedisTemplate` serializers are assumed to map strings to the same bytes for the
  callback methods and for `opsForSet`/`opsForList`/`opsForValue`. The template's
  configuration is not part of this model.
- The byte conversions of Spring's string serializer are not modelled, so keys and values
  are strings.
- Redis.RedisService.Save: the driver's conversion of the `SETEX` seconds is not modelled,
  and neither is Redis's rejection of timeouts too large to be represented in milliseconds.
- Redis.RedisService.Expire: the driver's conversion of `seconds` (a narrowing to `int`
  in some drivers) is not modelled, and neither is Redis's rejection of timeouts too large
  to be represented in milliseconds.
- Redis.RedisService.AddToSet: requires at most 2^31-1 elements, the largest Java array.
  A null `set` array is not modelled.
- The JSON encodings of fastjson (`RedisService`) and Jackson (`JacksonRedisSerializer`)
  are abstract codecs. The round trips are proved under the hypotheses `RoundTrips` and
  `ReadsBackWhatItWrites`, not from the libraries.
- A null object passed to a typed Redis save is not modelled.
- Serializer.IsWhitespace: follows `Character.isWhitespace` for the Unicode separators of
  current Java releases. U+180E is not treated as whitespace.
- `RedisPool` is not part of this model.
