/** The Redis serializer built on Jackson's `ObjectMapper`: null and empty byte arrays stand
    for a null object, and everything else goes through the mapper, whose own JSON encoding
    is an abstract engine here. */
module Serializer {
  import opened Outcomes

  newtype byte = x: int | 0 <= x < 256

  type Bytes = seq<byte>

  /** Which values get a type id in the JSON: none, or every non-final type as a property
      named `property` (`None`: Jackson's default property name). */
  datatype Typing =
    | Untyped
    | NonFinalAsProperty(property: Option<string>)

  /** Which properties are written: all of them, or only those that are not null. */
  datatype Inclusion = Always | NonNull

  /** The configuration of an `ObjectMapper` that matters to this serializer. */
  datatype MapperConfig = MapperConfig(typing: Typing, inclusion: Inclusion)

  /** A fresh `new ObjectMapper()`. */
  const FreshConfig := MapperConfig(Untyped, Always)

  /** The `Class<T>` a caller asks for: `Object.class`, or a named class. */
  datatype JavaType = ObjectClass | ClassNamed(name: string)

  /** Jackson's encoder and decoder under a configuration, for the values `V` of non-null
      Java objects: `writeValueAsBytes` gives bytes or a failure message, and `readValue`
      gives an object, null (for the JSON text `null`), or a failure message. */
  datatype Jackson<!V> = Jackson(
    write: (MapperConfig, V) -> Result<Bytes, string>,
    read: (MapperConfig, Bytes, JavaType) -> Result<Option<V>, string>)

  datatype ObjectMapper<!V> = ObjectMapper(engine: Jackson<V>, config: MapperConfig)

  /** The serializer: its only state is the mapper fixed at construction. */
  datatype JacksonRedisSerializer<!V> = JacksonRedisSerializer(mapper: ObjectMapper<V>)

  /** What escapes a call: a failed `Assert.notNull`, or a `SerializationException`. */
  datatype Failure = IllegalArgument(message: string) | SerializationException(message: string)

  const EmptyArray: Bytes := []

  const NullMapperMessage := "ObjectMapper must not be null!"
  const NullTypeMessage := "Deserialization type must not be null! Pleaes provide Object.class to make use of Jackson2 default typing."

  // ---------------------------------------------------------------------------------------
  // Construction

  /** `Character.isWhitespace`: the Unicode space, line and paragraph separators other than
      the no-break spaces, and the control characters tab to carriage return and
      U+001C to U+001F. */
  predicate IsWhitespace(c: char) {
    || '\t' <= c <= '\r'
    || '\U{1C}' <= c <= '\U{1F}'
    || c == ' ' || c == '\U{1680}'
    || '\U{2000}' <= c <= '\U{2006}' || '\U{2008}' <= c <= '\U{200A}'
    || c == '\U{2028}' || c == '\U{2029}' || c == '\U{205F}' || c == '\U{3000}'
  }

  /** `StringUtils.isNotBlank`: not null and holding a character that is not whitespace. */
  predicate IsNotBlank(s: Option<string>) {
    s.Some? && exists i :: 0 <= i < |s.value| && !IsWhitespace(s.value[i])
  }

  /** `JacksonRedisSerializer(ObjectMapper mapper)`: a null mapper is rejected. */
  function FromMapper<V>(mapper: Option<ObjectMapper<V>>): (r: Result<JacksonRedisSerializer<V>, Failure>)
    ensures mapper.None? ==> r == Err(IllegalArgument(NullMapperMessage))
    ensures mapper.Some? ==> r == Ok(JacksonRedisSerializer(mapper.value))
  {
    if mapper.None? then Err(IllegalArgument(NullMapperMessage))
    else Ok(JacksonRedisSerializer(mapper.value))
  }

  /** `JacksonRedisSerializer(String classPropertyTypeName)`: a fresh mapper with default
      typing for non-final types as a property (under the given name only when it is not
      blank) and null properties left out. */
  function FromTypeName<V>(engine: Jackson<V>, classPropertyTypeName: Option<string>): (r: JacksonRedisSerializer<V>)
    ensures r.mapper.engine == engine
    ensures r.mapper.config.inclusion == NonNull
    ensures r.mapper.config.typing.NonFinalAsProperty?
    ensures IsNotBlank(classPropertyTypeName) ==> r.mapper.config.typing.property == classPropertyTypeName
    ensures !IsNotBlank(classPropertyTypeName) ==> r.mapper.config.typing.property == None
  {
    var mapper := FromMapper(Some(ObjectMapper(engine, FreshConfig))).value.mapper;
    var typed :=
      if IsNotBlank(classPropertyTypeName) then mapper.(config := mapper.config.(typing := NonFinalAsProperty(classPropertyTypeName)))
      else mapper.(config := mapper.config.(typing := NonFinalAsProperty(None)));
    JacksonRedisSerializer(typed.(config := typed.config.(inclusion := NonNull)))
  }

  /** `JacksonRedisSerializer()`: the type-name constructor with null. */
  function Default<V>(engine: Jackson<V>): (r: JacksonRedisSerializer<V>)
    ensures r.mapper.config == MapperConfig(NonFinalAsProperty(None), NonNull)
  {
    FromTypeName(engine, None)
  }

  /** A blank name (empty or all whitespace) configures the same serializer as no name. */
  lemma BlankNameIsDefault<V>(engine: Jackson<V>, name: string)
    requires forall i :: 0 <= i < |name| ==> IsWhitespace(name[i])
    ensures FromTypeName(engine, Some(name)) == Default(engine)
  {
  }

  // ---------------------------------------------------------------------------------------
  // Serialization

  /** `isEmpty(data)`. */
  predicate IsEmpty(data: Option<Bytes>) {
    data.None? || |data.value| == 0
  }

  /** `serialize(source)`: null becomes the empty array; a write failure becomes a
      `SerializationException`. */
  function Serialize<V>(ser: JacksonRedisSerializer<V>, source: Option<V>): (r: Result<Bytes, Failure>)
    ensures source.None? ==> r == Ok(EmptyArray)
    ensures r.Err? ==> r.error.SerializationException?
  {
    if source.None? then Ok(EmptyArray)
    else match ser.mapper.engine.write(ser.mapper.config, source.value)
      case Ok(bytes) => Ok(bytes)
      case Err(message) => Err(SerializationException("Could not write JSON: " + message))
  }

  /** `deserialize(source, type)`: a null type is rejected first; then null or empty input
      is null; otherwise the mapper reads it, and a read failure becomes a
      `SerializationException`. */
  function Deserialize<V>(ser: JacksonRedisSerializer<V>, source: Option<Bytes>, t: Option<JavaType>): (r: Result<Option<V>, Failure>)
    ensures t.None? ==> r == Err(IllegalArgument(NullTypeMessage))
    ensures t.Some? && IsEmpty(source) ==> r == Ok(None)
    ensures r.Err? && t.Some? ==> r.error.SerializationException?
  {
    if t.None? then Err(IllegalArgument(NullTypeMessage))
    else if IsEmpty(source) then Ok(None)
    else match ser.mapper.engine.read(ser.mapper.config, source.value, t.value)
      case Ok(v) => Ok(v)
      case Err(message) => Err(SerializationException("Could not read JSON: " + message))
  }

  /** `deserialize(source)`: the two-argument form at `Object.class`, so the null-type
      rejection can never happen and every failure is a `SerializationException`. */
  function DeserializeAny<V>(ser: JacksonRedisSerializer<V>, source: Option<Bytes>): (r: Result<Option<V>, Failure>)
    ensures IsEmpty(source) ==> r == Ok(None)
    ensures r.Err? ==> r.error.SerializationException?
  {
    Deserialize(ser, source, Some(ObjectClass))
  }

  /** `isEmpty` holds exactly for null and for zero-length arrays. */
  lemma IsEmptyMeaning(data: Option<Bytes>)
    ensures IsEmpty(data) <==> data == None || data == Some([])
  {
  }

  /** Empty input is decoded without consulting the mapper: serializers that differ only in
      their mapper agree on it. */
  lemma EmptyIgnoresMapper<V>(a: JacksonRedisSerializer<V>, b: JacksonRedisSerializer<V>, source: Option<Bytes>, t: JavaType)
    requires IsEmpty(source)
    ensures Deserialize(a, source, Some(t)) == Deserialize(b, source, Some(t)) == Ok(None)
  {
  }

  /** Null survives a round trip, for any type asked for. */
  lemma NullRoundTrip<V>(ser: JacksonRedisSerializer<V>, t: JavaType)
    ensures Serialize(ser, None).Ok?
    ensures Deserialize(ser, Some(Serialize(ser, None).value), Some(t)) == Ok(None)
  {
  }

  /** What the round trip rests on, since Jackson is not part of this model: under the
      mapper's configuration every value it writes is a non-empty JSON text that it reads
      back, at `Object.class`, as the same value. */
  ghost predicate ReadsBackWhatItWrites<V(!new)>(mapper: ObjectMapper<V>) {
    forall v :: mapper.engine.write(mapper.config, v).Ok? ==>
      && |mapper.engine.write(mapper.config, v).value| > 0
      && mapper.engine.read(mapper.config, mapper.engine.write(mapper.config, v).value, ObjectClass) == Ok(Some(v))
  }

  /** A non-null value that serializes comes back from `deserialize(byte[])`. */
  lemma ValueRoundTrip<V(!new)>(ser: JacksonRedisSerializer<V>, v: V)
    requires ReadsBackWhatItWrites(ser.mapper)
    requires Serialize(ser, Some(v)).Ok?
    ensures DeserializeAny(ser, Some(Serialize(ser, Some(v)).value)) == Ok(Some(v))
  {
  }

  /** A failure of the mapper surfaces as an exception carrying its message, never as null. */
  lemma FailuresAreExceptions<V>(ser: JacksonRedisSerializer<V>, v: V, source: Bytes, t: JavaType)
    ensures ser.mapper.engine.write(ser.mapper.config, v).Err? ==>
      Serialize(ser, Some(v))
        == Err(SerializationException("Could not write JSON: " + ser.mapper.engine.write(ser.mapper.config, v).error))
    ensures |source| > 0 && ser.mapper.engine.read(ser.mapper.config, source, t).Err? ==>
      Deserialize(ser, Some(source), Some(t))
        == Err(SerializationException("Could not read JSON: " + ser.mapper.engine.read(ser.mapper.config, source, t).error))
  {
  }
}
