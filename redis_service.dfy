/** The cache service: a facade over one Redis keyspace. Each operation is one Redis command
    (or, for `addToSet`, two) on that keyspace, so the state is modelled as the keyspace
    itself, a map from key to a typed value with an optional time to live. No time passes
    in the model, so an expiry is a number of seconds that stays as it was set. */
module Redis {
  import opened Outcomes
  import opened Java
  import Decimal

  /** The Redis value types the service touches. */
  datatype Data =
    | Text(text: string)
    | Members(members: set<string>)
    | Items(items: seq<string>)

  /** A key's value and its remaining time to live in seconds (`None`: no expiry). */
  datatype Entry = Entry(data: Data, ttl: Option<int64>)

  type Keyspace = map<string, Entry>

  /** What Redis keeps true of every key: no empty set or list is ever stored (removing the
      last member deletes the key) and a time to live is positive. */
  predicate Sound(e: Entry) {
    && (e.data.Members? ==> e.data.members != {})
    && (e.data.Items? ==> e.data.items != [])
    && (e.ttl.Some? ==> e.ttl.value > 0)
  }

  predicate Valid(ks: Keyspace) {
    forall k :: k in ks ==> Sound(ks[k])
  }

  /** The exceptions a call can raise: a command on a key of another type (`WRONGTYPE`),
      an increment of a value that is not a 64-bit integer or that would overflow, `SADD`
      with no members, and a JSON text the codec cannot parse. */
  datatype Failure = WrongType | NotAnInteger | Overflow | NoMembers | BadJson(message: string)

  /** A command's reply together with the keyspace it leaves. */
  datatype Reply<T> = Reply(after: Keyspace, value: T)

  // ---------------------------------------------------------------------------------------
  // Lookups: `get`, `exist`, `ttl`, `list`, `existInSet`

  /** `get(key)`: `GET`, null for an absent key. */
  function Get(ks: Keyspace, key: string): (r: Result<Option<string>, Failure>)
    ensures r == Ok(None) <==> !Exists(ks, key)
    ensures r.Ok? && r.value.Some? ==> Exists(ks, key) && ks[key].data == Text(r.value.value)
    ensures r.Err? <==> Exists(ks, key) && !ks[key].data.Text?
  {
    if key !in ks then Ok(None)
    else if ks[key].data.Text? then Ok(Some(ks[key].data.text))
    else Err(WrongType)
  }

  /** `exist(key)`: `EXISTS`, for a key of any type. */
  predicate Exists(ks: Keyspace, key: string) {
    key in ks
  }

  /** `ttl(key)`: `TTL`. */
  function Ttl(ks: Keyspace, key: string): int64 {
    if key !in ks then -2
    else if ks[key].ttl.None? then -1
    else ks[key].ttl.value
  }

  /** `list(key)`: `LRANGE key 0 -1`, the empty list for an absent key. */
  function Range(ks: Keyspace, key: string): (r: Result<seq<string>, Failure>)
    ensures r.Ok? && Exists(ks, key) ==> ks[key].data == Items(r.value)
    ensures r.Err? <==> Exists(ks, key) && !ks[key].data.Items?
  {
    if key !in ks then Ok([])
    else if ks[key].data.Items? then Ok(ks[key].data.items)
    else Err(WrongType)
  }

  /** `existInSet(key, element)`: `SISMEMBER`, false for an absent key. */
  function IsMember(ks: Keyspace, key: string, element: string): (r: Result<bool, Failure>)
    ensures r == Ok(true) <==> Exists(ks, key) && ks[key].data.Members? && element in ks[key].data.members
    ensures r.Err? <==> Exists(ks, key) && !ks[key].data.Members?
  {
    if key !in ks then Ok(false)
    else if ks[key].data.Members? then Ok(element in ks[key].data.members)
    else Err(WrongType)
  }

  /** `ttl` reports -2 exactly for an absent key, -1 exactly for a key without expiry, and
      otherwise the positive number of seconds left. */
  lemma TtlMeaning(ks: Keyspace, key: string)
    requires Valid(ks)
    ensures Ttl(ks, key) == -2 <==> !Exists(ks, key)
    ensures Ttl(ks, key) == -1 <==> Exists(ks, key) && ks[key].ttl.None?
    ensures Ttl(ks, key) > 0 <==> Exists(ks, key) && ks[key].ttl.Some?
    ensures Ttl(ks, key) > 0 ==> Ttl(ks, key) == ks[key].ttl.value
  {
    if key in ks {
      assert Sound(ks[key]);
    }
  }

  /** `exist` agrees with what `get`, `ttl` and `list` report about the same key. */
  lemma ExistsMeaning(ks: Keyspace, key: string)
    requires Valid(ks)
    ensures Exists(ks, key) <==> Ttl(ks, key) != -2
    ensures Exists(ks, key) <==> Get(ks, key) != Ok(None)
    ensures Exists(ks, key) <==> Range(ks, key) != Ok([])
  {
    TtlMeaning(ks, key);
    ListMeaning(ks, key, "");
  }

  /** Since Redis stores no empty list, `list` is empty exactly for an absent key, and a
      set member is only ever found under a key that exists. */
  lemma ListMeaning(ks: Keyspace, key: string, element: string)
    requires Valid(ks)
    ensures Range(ks, key) == Ok([]) <==> !Exists(ks, key)
    ensures IsMember(ks, key, element) == Ok(true) ==> Exists(ks, key)
  {
    if key in ks {
      assert Sound(ks[key]);
    }
  }

  // ---------------------------------------------------------------------------------------
  // Writes

  /** The keyspace after `save(key, value, seconds)`: `SETEX` for a positive `seconds`,
      otherwise `SET`; either replaces whatever the key held, of any type. */
  function Written(ks: Keyspace, key: string, value: string, seconds: int64): Keyspace {
    if seconds > 0 then ks[key := Entry(Text(value), Some(seconds))]
    else ks[key := Entry(Text(value), None)]
  }

  /** After a save the key reads back the value, expires in `seconds` when that is positive
      and never otherwise, and every other key reads as before. */
  lemma WrittenReadsBack(ks: Keyspace, key: string, value: string, seconds: int64)
    ensures var after := Written(ks, key, value, seconds);
      && Get(after, key) == Ok(Some(value))
      && Ttl(after, key) == (if seconds > 0 then seconds else -1)
      && (forall k :: k != key ==> (k in after <==> k in ks) && (k in ks ==> after[k] == ks[k]))
      && (Valid(ks) ==> Valid(after))
  {
  }

  /** The keyspace after `EXPIRE key seconds` on a key that exists: a positive timeout sets
      the time to live, and a non-positive one deletes the key. */
  function Expired(ks: Keyspace, key: string, seconds: int64): Keyspace
    requires key in ks
  {
    if seconds > 0 then ks[key := ks[key].(ttl := Some(seconds))] else ks - {key}
  }

  /** An expiry leaves the value alone and sets what `ttl` reports. */
  lemma ExpiredMeaning(ks: Keyspace, key: string, seconds: int64)
    requires key in ks
    ensures var after := Expired(ks, key, seconds);
      && (seconds > 0 ==> key in after && after[key].data == ks[key].data && Ttl(after, key) == seconds)
      && (seconds <= 0 ==> !Exists(after, key) && Ttl(after, key) == -2)
      && (forall k :: k != key ==> (k in after <==> k in ks) && (k in ks ==> after[k] == ks[k]))
      && (Valid(ks) ==> Valid(after))
  {
  }

  /** The members of `elems` as a set (duplicates collapse). */
  function Distinct(elems: seq<string>): (s: set<string>)
    ensures forall e :: e in s <==> e in elems
  {
    set e | e in elems
  }

  /** A call's arguments cannot name more distinct members than there are arguments. */
  lemma {:induction false} DistinctAtMost(elems: seq<string>)
    ensures |Distinct(elems)| <= |elems|
    decreases |elems|
  {
    if elems != [] {
      var rest := elems[1..];
      DistinctAtMost(rest);
      assert Distinct(elems) == Distinct(rest) + {elems[0]};
    }
  }

  /** The members stored under `key`, none for an absent key. */
  function MembersOf(ks: Keyspace, key: string): set<string>
    requires key in ks ==> ks[key].data.Members?
  {
    if key in ks then ks[key].data.members else {}
  }

  /** `SADD key elems...`: the number of members that were not yet in the set, and the set
      (created when absent, keeping its time to live when present) with all of them. */
  function SetAdd(ks: Keyspace, key: string, elems: seq<string>): (r: Result<Reply<int>, Failure>)
    ensures r.Ok? ==> 0 <= r.value.value <= |elems|
  {
    if elems == [] then Err(NoMembers)
    else if key in ks && !ks[key].data.Members? then Err(WrongType)
    else
      var before := MembersOf(ks, key);
      var added := Distinct(elems) - before;
      var ttl := if key in ks then ks[key].ttl else None;
      DistinctAtMost(elems);
      assert |added| <= |Distinct(elems)|;
      Ok(Reply(ks[key := Entry(Members(before + Distinct(elems)), ttl)], |added|))
  }

  /** After `SADD` every argument is a member, every earlier member stays, nothing else is a
      member, and the reply counts exactly the arguments that were new. */
  lemma SetAddMeaning(ks: Keyspace, key: string, elems: seq<string>)
    requires SetAdd(ks, key, elems).Ok?
    ensures var Reply(after, count) := SetAdd(ks, key, elems).value;
      && (forall e :: IsMember(after, key, e) == Ok(e in elems || IsMember(ks, key, e) == Ok(true)))
      && count == |set e | e in elems && IsMember(ks, key, e) == Ok(false)|
      && Ttl(after, key) == (if key in ks then Ttl(ks, key) else -1)
      && (forall k :: k != key ==> (k in after <==> k in ks) && (k in ks ==> after[k] == ks[k]))
      && (Valid(ks) ==> Valid(after))
  {
    var before := MembersOf(ks, key);
    assert (set e | e in elems && IsMember(ks, key, e) == Ok(false)) == Distinct(elems) - before;
    assert elems[0] in Distinct(elems);
  }

  /** The keyspace after `SPOP` removed `member` from the set at `key`: the key goes away
      with its last member. */
  function Popped(ks: Keyspace, key: string, member: string): Keyspace
    requires key in ks && ks[key].data.Members?
  {
    var rest := ks[key].data.members - {member};
    if rest == {} then ks - {key} else ks[key := ks[key].(data := Members(rest))]
  }

  /** A popped member is no longer in the set, and the rest of the set is untouched. */
  lemma PoppedMeaning(ks: Keyspace, key: string, member: string)
    requires key in ks && ks[key].data.Members? && member in ks[key].data.members
    ensures var after := Popped(ks, key, member);
      && IsMember(after, key, member) == Ok(false)
      && (forall e :: e != member ==> IsMember(after, key, e) == IsMember(ks, key, e))
      && (forall k :: k != key ==> (k in after <==> k in ks) && (k in ks ==> after[k] == ks[k]))
      && (Valid(ks) ==> Valid(after))
  {
    var rest := ks[key].data.members - {member};
    if rest == {} {
      assert ks[key].data.members == {member};
    }
  }

  // ---------------------------------------------------------------------------------------
  // INCRBY

  predicate InInt64(n: int) {
    MinInt64 as int <= n <= MaxInt64 as int
  }

  /** The integer `INCRBY` starts from: 0 for an absent key, else the stored text read as a
      64-bit integer in the only form Redis accepts. */
  function Counter(ks: Keyspace, key: string): (r: Result<int64, Failure>)
    ensures r.Ok? && key in ks ==> ks[key].data.Text? && Decimal.IntToText(r.value as int) == ks[key].data.text
  {
    if key !in ks then Ok(0)
    else if !ks[key].data.Text? then Err(WrongType)
    else
      var parsed := Decimal.ParseInt(ks[key].data.text);
      if parsed.None? || !InInt64(parsed.value) then Err(NotAnInteger)
      else
        Decimal.PrintedParse(ks[key].data.text, parsed.value);
        Ok(parsed.value as int64)
  }

  /** `INCRBY key delta`: the counter plus `delta`, stored back as text under the key's
      time to live, or an overflow error when the sum leaves the 64-bit range. */
  function IncrBy(ks: Keyspace, key: string, delta: int64): Result<Reply<int64>, Failure> {
    match Counter(ks, key)
    case Err(e) => Err(e)
    case Ok(n) =>
      var sum := n as int + delta as int;
      if !InInt64(sum) then Err(Overflow)
      else
        var ttl := if key in ks then ks[key].ttl else None;
        Ok(Reply(ks[key := Entry(Text(Decimal.IntToText(sum)), ttl)], sum as int64))
  }

  /** `increment` returns the old value plus `delta` (an absent key counting as 0), the key
      then reads as that number's text, its expiry is kept, and no other key changes. */
  lemma IncrByMeaning(ks: Keyspace, key: string, delta: int64)
    requires IncrBy(ks, key, delta).Ok?
    ensures var Reply(after, v) := IncrBy(ks, key, delta).value;
      && Counter(ks, key).Ok?
      && v as int == Counter(ks, key).value as int + delta as int
      && (key !in ks ==> v == delta)
      && Get(after, key) == Ok(Some(Decimal.IntToText(v as int)))
      && Counter(after, key) == Ok(v)
      && Ttl(after, key) == (if key in ks then Ttl(ks, key) else -1)
      && (forall k :: k != key ==> (k in after <==> k in ks) && (k in ks ==> after[k] == ks[k]))
      && (Valid(ks) ==> Valid(after))
  {
    var Reply(after, v) := IncrBy(ks, key, delta).value;
    Decimal.ParsePrinted(v as int);
  }

  /** A counter stored by `INCRBY` reads back as the same number. */
  lemma CounterReadsBack(ks: Keyspace, key: string, v: int64, ttl: Option<int64>)
    ensures Counter(ks[key := Entry(Text(Decimal.IntToText(v as int)), ttl)], key) == Ok(v)
  {
    Decimal.ParsePrinted(v as int);
  }

  /** A successful `INCRBY` from counter `n`. */
  lemma IncrByUnfolds(ks: Keyspace, key: string, delta: int64)
    requires IncrBy(ks, key, delta).Ok?
    ensures Counter(ks, key).Ok?
    ensures var sum := Counter(ks, key).value as int + delta as int;
      && InInt64(sum)
      && IncrBy(ks, key, delta).value
         == Reply(ks[key := Entry(Text(Decimal.IntToText(sum)), if key in ks then ks[key].ttl else None)], sum as int64)
  {
  }

  /** Two increments that succeed make one increment by their sum. */
  lemma IncrementsCompose(ks: Keyspace, key: string, a: int64, b: int64)
    requires IncrBy(ks, key, a).Ok?
    requires IncrBy(IncrBy(ks, key, a).value.after, key, b).Ok?
    requires InInt64(a as int + b as int)
    ensures IncrBy(ks, key, (a as int + b as int) as int64)
      == Ok(IncrBy(IncrBy(ks, key, a).value.after, key, b).value)
  {
    var n := Counter(ks, key);
    IncrByUnfolds(ks, key, a);
    var first := IncrBy(ks, key, a).value.after;
    var ttl := if key in ks then ks[key].ttl else None;
    var once := (n.value as int + a as int) as int64;
    assert first == ks[key := Entry(Text(Decimal.IntToText(once as int)), ttl)];
    CounterReadsBack(ks, key, once, ttl);
    IncrByUnfolds(first, key, b);
    var sum := n.value as int + a as int + b as int;
    var entry := Entry(Text(Decimal.IntToText(sum)), ttl);
    assert IncrBy(first, key, b).value == Reply(first[key := entry], sum as int64);
    assert first[key := entry] == ks[key := entry];
    assert Counter(ks, key) == n;
  }

  // ---------------------------------------------------------------------------------------
  // Typed values

  /** The JSON library the typed overloads use: `toJSONString` and `parseObject` for one
      class, where parsing may yield null (for the text "null") or fail. */
  datatype JsonCodec<!T> = JsonCodec(toJsonString: T -> string, parseObject: string -> Result<Option<T>, string>)

  /** The library reads back what it wrote. */
  ghost predicate RoundTrips<T(!new)>(codec: JsonCodec<T>) {
    forall t :: codec.parseObject(codec.toJsonString(t)) == Ok(Some(t))
  }

  /** `get(key, clazz)`: the stored text parsed by the library; a null text (absent key)
      parses to null. */
  function GetObject<T>(ks: Keyspace, key: string, codec: JsonCodec<T>): (r: Result<Option<T>, Failure>)
    ensures !Exists(ks, key) ==> r == Ok(None)
    ensures Get(ks, key).Err? ==> r == Err(Get(ks, key).error)
    ensures r.Ok? && r.value.Some? ==>
      Get(ks, key).Ok? && Get(ks, key).value.Some? && codec.parseObject(Get(ks, key).value.value) == Ok(r.value)
    ensures r.Err? && r.error.BadJson? ==>
      Get(ks, key).Ok? && Get(ks, key).value.Some? && codec.parseObject(Get(ks, key).value.value) == Err(r.error.message)
  {
    match Get(ks, key)
    case Err(e) => Err(e)
    case Ok(None) => Ok(None)
    case Ok(Some(text)) =>
      match codec.parseObject(text)
      case Err(message) => Err(BadJson(message))
      case Ok(v) => Ok(v)
  }

  /** A typed save followed by a typed get gives the object back, whatever the expiry. */
  lemma ObjectReadsBack<T(!new)>(ks: Keyspace, key: string, t: T, seconds: int64, codec: JsonCodec<T>)
    requires RoundTrips(codec)
    ensures GetObject(Written(ks, key, codec.toJsonString(t), seconds), key, codec) == Ok(Some(t))
  {
    WrittenReadsBack(ks, key, codec.toJsonString(t), seconds);
  }

  // ---------------------------------------------------------------------------------------
  // The service

  /** `RedisService`, holding the keyspace its template talks to. */
  class RedisService {
    var keyspace: Keyspace

    constructor ()
      ensures keyspace == map[] && Valid(keyspace)
    {
      keyspace := map[];
    }

    /** `save(key, value, seconds)`: always true. */
    method Save(key: string, value: string, seconds: int64) returns (r: bool)
      requires Valid(keyspace)
      modifies this
      ensures Valid(keyspace)
      ensures r
      ensures keyspace == Written(old(keyspace), key, value, seconds)
    {
      if seconds > 0 {
        keyspace := keyspace[key := Entry(Text(value), Some(seconds))];
      } else {
        keyspace := keyspace[key := Entry(Text(value), None)];
      }
      r := true;
    }

    /** `save(key, value)`: a save with `seconds` 0, so with no expiry. */
    method SaveForever(key: string, value: string) returns (r: bool)
      requires Valid(keyspace)
      modifies this
      ensures Valid(keyspace)
      ensures r
      ensures keyspace == old(keyspace)[key := Entry(Text(value), None)]
    {
      r := Save(key, value, 0);
    }

    /** `save(key, t, seconds)`: the object's JSON text through the string save. */
    method SaveObject<T>(key: string, t: T, seconds: int64, codec: JsonCodec<T>) returns (r: bool)
      requires Valid(keyspace)
      modifies this
      ensures Valid(keyspace)
      ensures r
      ensures keyspace == Written(old(keyspace), key, codec.toJsonString(t), seconds)
    {
      var text := codec.toJsonString(t);
      r := Save(key, text, seconds);
    }

    /** `save(key, t)`: the typed save with `seconds` 0. */
    method SaveObjectForever<T>(key: string, t: T, codec: JsonCodec<T>) returns (r: bool)
      requires Valid(keyspace)
      modifies this
      ensures Valid(keyspace)
      ensures r
      ensures keyspace == old(keyspace)[key := Entry(Text(codec.toJsonString(t)), None)]
    {
      r := SaveObject(key, t, 0, codec);
    }

    /** `saveNX(key, value)`: `SETNX`, storing without expiry only when the key is absent. */
    method SaveNX(key: string, value: string) returns (r: bool)
      requires Valid(keyspace)
      modifies this
      ensures Valid(keyspace)
      ensures r <==> !Exists(old(keyspace), key)
      ensures keyspace == if r then old(keyspace)[key := Entry(Text(value), None)] else old(keyspace)
    {
      r := key !in keyspace;
      if r {
        keyspace := keyspace[key := Entry(Text(value), None)];
      }
    }

    /** `delete(key)`: `DEL`, the number of keys removed; the key is absent afterwards. */
    method Delete(key: string) returns (count: int64)
      requires Valid(keyspace)
      modifies this
      ensures Valid(keyspace)
      ensures count == if Exists(old(keyspace), key) then 1 else 0
      ensures keyspace == old(keyspace) - {key}
      ensures !Exists(keyspace, key)
    {
      count := if key in keyspace then 1 else 0;
      keyspace := keyspace - {key};
    }

    /** `expire(key, seconds)`: `EXPIRE`, false and no change for an absent key. */
    method Expire(key: string, seconds: int64) returns (r: bool)
      requires Valid(keyspace)
      modifies this
      ensures Valid(keyspace)
      ensures r <==> Exists(old(keyspace), key)
      ensures r ==> keyspace == Expired(old(keyspace), key, seconds)
      ensures !r ==> keyspace == old(keyspace)
    {
      r := key in keyspace;
      if r {
        if seconds > 0 {
          keyspace := keyspace[key := keyspace[key].(ttl := Some(seconds))];
        } else {
          keyspace := keyspace - {key};
        }
      }
    }

    /** `popFromSet(key)`: `SPOP`, a member chosen by the server, or null for an absent key. */
    method PopFromSet(key: string) returns (r: Result<Option<string>, Failure>)
      requires Valid(keyspace)
      modifies this
      ensures Valid(keyspace)
      ensures !Exists(old(keyspace), key) ==> r == Ok(None) && keyspace == old(keyspace)
      ensures Exists(old(keyspace), key) && !old(keyspace)[key].data.Members? ==>
        r == Err(WrongType) && keyspace == old(keyspace)
      ensures Exists(old(keyspace), key) && old(keyspace)[key].data.Members? ==>
        && r.Ok? && r.value.Some? && r.value.value in old(keyspace)[key].data.members
        && keyspace == Popped(old(keyspace), key, r.value.value)
    {
      if key !in keyspace {
        return Ok(None);
      }
      if !keyspace[key].data.Members? {
        return Err(WrongType);
      }
      var members := keyspace[key].data.members;
      assert Sound(keyspace[key]);
      var member :| member in members;
      PoppedMeaning(keyspace, key, member);
      keyspace := Popped(keyspace, key, member);
      r := Ok(Some(member));
    }

    /** `addToSet(key, seconds, set...)`: `SADD`, then `EXPIRE` only for a positive
        `seconds`; the reply of `SADD` is returned. A failing `SADD` raises before any
        expiry is attempted. */
    method AddToSet(key: string, seconds: int64, elems: seq<string>) returns (r: Result<int64, Failure>)
      requires |elems| <= MaxInt32 as int
      requires Valid(keyspace)
      modifies this
      ensures Valid(keyspace)
      ensures var added := SetAdd(old(keyspace), key, elems);
        && (added.Err? ==> r == Err(added.error) && keyspace == old(keyspace))
        && (added.Ok? ==> r.Ok? && r.value as int == added.value.value)
        && (added.Ok? && seconds > 0 ==> keyspace == Expired(added.value.after, key, seconds))
        && (added.Ok? && seconds <= 0 ==> keyspace == added.value.after)
    {
      var added := SetAdd(keyspace, key, elems);
      if added.Err? {
        return Err(added.error);
      }
      SetAddMeaning(keyspace, key, elems);
      keyspace := added.value.after;
      if seconds > 0 {
        var _ := Expire(key, seconds);
      }
      r := Ok(added.value.value as int64);
    }

    /** `addToSet(key, set...)`: `seconds` -1, so the time to live is never touched. */
    method AddToSetKeepingTtl(key: string, elems: seq<string>) returns (r: Result<int64, Failure>)
      requires |elems| <= MaxInt32 as int
      requires Valid(keyspace)
      modifies this
      ensures Valid(keyspace)
      ensures var added := SetAdd(old(keyspace), key, elems);
        && (added.Err? ==> r == Err(added.error) && keyspace == old(keyspace))
        && (added.Ok? ==> r.Ok? && r.value as int == added.value.value && keyspace == added.value.after)
    {
      r := AddToSet(key, -1, elems);
    }

    /** `increment(key, delta)`: `INCRBY`. */
    method Increment(key: string, delta: int64) returns (r: Result<int64, Failure>)
      requires Valid(keyspace)
      modifies this
      ensures Valid(keyspace)
      ensures var reply := IncrBy(old(keyspace), key, delta);
        && (reply.Err? ==> r == Err(reply.error) && keyspace == old(keyspace))
        && (reply.Ok? ==> r == Ok(reply.value.value) && keyspace == reply.value.after)
    {
      var reply := IncrBy(keyspace, key, delta);
      if reply.Err? {
        return Err(reply.error);
      }
      IncrByMeaning(keyspace, key, delta);
      keyspace := reply.value.after;
      r := Ok(reply.value.value);
    }
  }
}
