/** The generic Hibernate repository: parameter binding, paging, single-row queries and the
    transaction bracket around each mutation. The Hibernate session is external; the model
    keeps only what this layer decides and passes to it. */
module Hibernate {
  import opened Outcomes
  import opened Java

  // ---------------------------------------------------------------------------------------
  // Queries and their bindings

  /** The binding table a Hibernate `Query` holds: values by 0-based position and by name. */
  datatype Bindings = Bindings(positional: map<int, Value>, named: map<string, Value>)

  /** What the session's database does with a query. `eval` gives the full, unbounded result
      of an HQL text under a binding table; `bindProperties` is `Query.setProperties`, which
      picks from a property bag the values of the text's named placeholders. Neither HQL
      evaluation nor that matching is modelled. */
  datatype Database = Database(
    eval: (string, Bindings) -> seq<Value>,
    bindProperties: (string, map<string, Value>) -> map<string, Value>)

  /** The three shapes of parameters a caller may pass: an `Object...` array (possibly
      null), a `Map<Object, Object>` (possibly null), or a property bag (a map or a bean's
      readable properties) for the `...ByProperties` variants. */
  datatype Params =
    | Positional(array: Option<seq<Value>>)
    | Keyed(entries: Option<map<Value, Value>>)
    | Properties(bag: map<string, Value>)

  /** The rows Hibernate's loader returns for a first-row and a max-rows setting: a first row
      that is unset or not positive reads from the start, a max that is unset or not
      positive sets no limit. */
  function Window(rows: seq<Value>, first: Option<int>, max: Option<int>): seq<Value> {
    var from := if first.Some? && first.value > 0 then Min(first.value, |rows|) else 0;
    var to := if max.Some? && max.value > 0 then Min(from + max.value, |rows|) else |rows|;
    rows[from..to]
  }

  /** Exceptions that can escape a query of this layer. */
  datatype QueryError =
    | NonUniqueResult(count: nat)
    | NullPointer
    | ClassCast(row: Value)

  /** A Hibernate `Query`: the HQL text, its binding table and its row window. */
  class Query {
    const hql: string
    var positional: map<int, Value>
    var named: map<string, Value>
    var firstResult: Option<int>
    var maxResults: Option<int>

    constructor (hql: string)
      ensures this.hql == hql
      ensures positional == map[] && named == map[]
      ensures firstResult == None && maxResults == None
    {
      this.hql := hql;
      positional, named := map[], map[];
      firstResult, maxResults := None, None;
    }

    function Bound(): Bindings
      reads this
    {
      Bindings(positional, named)
    }

    /** `setParameter(int, Object)`. */
    method SetPositional(position: int, v: Value)
      modifies this
      ensures positional == old(positional)[position := v]
      ensures named == old(named)
      ensures firstResult == old(firstResult) && maxResults == old(maxResults)
    {
      positional := positional[position := v];
    }

    /** `setParameter(String, Object)`. */
    method SetNamed(name: string, v: Value)
      modifies this
      ensures named == old(named)[name := v]
      ensures positional == old(positional)
      ensures firstResult == old(firstResult) && maxResults == old(maxResults)
    {
      named := named[name := v];
    }

    /** `setProperties(bag)`. */
    method SetProperties(db: Database, bag: map<string, Value>)
      modifies this
      ensures named == old(named) + db.bindProperties(hql, bag)
      ensures positional == old(positional)
      ensures firstResult == old(firstResult) && maxResults == old(maxResults)
    {
      named := named + db.bindProperties(hql, bag);
    }

    method SetFirstResult(n: int32)
      modifies this
      ensures firstResult == Some(n as int)
      ensures positional == old(positional) && named == old(named) && maxResults == old(maxResults)
    {
      firstResult := Some(n as int);
    }

    method SetMaxResults(n: int32)
      modifies this
      ensures maxResults == Some(n as int)
      ensures positional == old(positional) && named == old(named) && firstResult == old(firstResult)
    {
      maxResults := Some(n as int);
    }

    /** `list()`: the window of the full result. */
    function List(db: Database): seq<Value>
      reads this
    {
      Window(db.eval(hql, Bound()), firstResult, maxResults)
    }

    /** `uniqueResult()`: null for no row, the row when every row is that same row, and
        NonUniqueResultException otherwise. */
    function UniqueResult(db: Database): (r: Result<Value, QueryError>)
      reads this
      ensures List(db) == [] ==> r == Ok(Null)
      ensures |List(db)| == 1 ==> r == Ok(List(db)[0])
      ensures r.Err? <==> exists i :: 0 <= i < |List(db)| && List(db)[i] != List(db)[0]
    {
      var rows := List(db);
      if rows == [] then Ok(Null)
      else if forall i :: 0 <= i < |rows| ==> rows[i] == rows[0] then Ok(rows[0])
      else Err(NonUniqueResult(|rows|))
    }
  }

  // ---------------------------------------------------------------------------------------
  // The binder

  /** The binding table of an `Object...` array: element i at position i. */
  function ArrayBindings(params: Option<seq<Value>>): (b: Bindings)
    ensures forall i :: i in b.positional <==> params.Some? && 0 <= i < |params.value|
    ensures forall i :: i in b.positional ==> b.positional[i] == params.value[i]
    ensures b.named == map[]
  {
    if params.None? then Bindings(map[], map[])
    else Bindings(map i | 0 <= i < |params.value| :: params.value[i], map[])
  }

  /** The positions bound by the `Integer` keys among `done`. */
  function IntegerKeyed(m: map<Value, Value>, done: set<Value>): map<int, Value> {
    map k | k in done && k in m && k.Integer? :: k.i as int := m[k]
  }

  /** The names bound by the `String` keys among `done`. */
  function StringKeyed(m: map<Value, Value>, done: set<Value>): map<string, Value> {
    map k | k in done && k in m && k.Str? :: k.s := m[k]
  }

  lemma KeyedStep(m: map<Value, Value>, done: set<Value>, key: Value)
    requires key in m
    ensures IntegerKeyed(m, done + {key})
      == if key.Integer? then IntegerKeyed(m, done)[key.i as int := m[key]] else IntegerKeyed(m, done)
    ensures StringKeyed(m, done + {key})
      == if key.Str? then StringKeyed(m, done)[key.s := m[key]] else StringKeyed(m, done)
  {
  }

  /** The binding table of a `Map<Object, Object>`. */
  function MapBindings(params: Option<map<Value, Value>>): Bindings {
    if params.None? then Bindings(map[], map[])
    else Bindings(IntegerKeyed(params.value, params.value.Keys), StringKeyed(params.value, params.value.Keys))
  }

  /** The binding table any of the three shapes produces on a fresh query over `hql`. */
  function BindingsOf(db: Database, hql: string, p: Params): Bindings {
    match p
    case Positional(a) => ArrayBindings(a)
    case Keyed(m) => MapBindings(m)
    case Properties(bag) => Bindings(map[], db.bindProperties(hql, bag))
  }

  /** A map key binds by position exactly when it is an `Integer`, by name exactly when it is
      a `String`, and nothing else is bound. */
  lemma MapKeysDispatchByType(m: map<Value, Value>)
    ensures forall i: int32 :: i as int in MapBindings(Some(m)).positional <==> Integer(i) in m
    ensures forall i: int32 :: Integer(i) in m ==> MapBindings(Some(m)).positional[i as int] == m[Integer(i)]
    ensures forall n :: n in MapBindings(Some(m)).named <==> Str(n) in m
    ensures forall n :: Str(n) in m ==> MapBindings(Some(m)).named[n] == m[Str(n)]
    ensures forall p :: p in MapBindings(Some(m)).positional ==> MinInt32 <= p <= MaxInt32
  {
    var b := MapBindings(Some(m));
    forall p | p in b.positional ensures MinInt32 <= p <= MaxInt32 && Integer(p as int32) in m {
      var k :| k in m && k.Integer? && k.i as int == p;
    }
  }

  /** A key of any type other than `Integer` and `String` is skipped: adding it changes no
      binding. */
  lemma OtherKeysAreSkipped(m: map<Value, Value>, k: Value, v: Value)
    requires !k.Integer? && !k.Str?
    ensures MapBindings(Some(m[k := v])) == MapBindings(Some(m))
  {
    var m' := m[k := v];
    assert IntegerKeyed(m', m'.Keys) == IntegerKeyed(m, m.Keys);
    assert StringKeyed(m', m'.Keys) == StringKeyed(m, m.Keys);
  }

  /** `prepareQuery(String, Object...)`. */
  method PrepareQueryArray(hql: string, params: Option<seq<Value>>) returns (q: Query)
    ensures fresh(q) && q.hql == hql
    ensures q.Bound() == ArrayBindings(params)
    ensures q.firstResult == None && q.maxResults == None
  {
    q := new Query(hql);
    if params.Some? && |params.value| > 0 {
      var ps := params.value;
      for i := 0 to |ps|
        invariant q.positional == map j | 0 <= j < i :: ps[j]
        invariant q.named == map[]
        invariant q.firstResult == None && q.maxResults == None
      {
        q.SetPositional(i, ps[i]);
      }
    }
  }

  /** `prepareQuery(String, Map<Object, Object>)`: the keys are visited in whatever order the
      map's key set yields them. */
  method PrepareQueryMap(hql: string, params: Option<map<Value, Value>>) returns (q: Query)
    ensures fresh(q) && q.hql == hql
    ensures q.Bound() == MapBindings(params)
    ensures q.firstResult == None && q.maxResults == None
  {
    q := new Query(hql);
    if params.Some? && |params.value| > 0 {
      var m := params.value;
      var remaining := m.Keys;
      while remaining != {}
        invariant remaining <= m.Keys
        invariant q.positional == IntegerKeyed(m, m.Keys - remaining)
        invariant q.named == StringKeyed(m, m.Keys - remaining)
        invariant q.firstResult == None && q.maxResults == None
        decreases remaining
      {
        var key :| key in remaining;
        ghost var done := m.Keys - remaining;
        KeyedStep(m, done, key);
        if key.Integer? {
          q.SetPositional(key.i as int, m[key]);
        } else if key.Str? {
          q.SetNamed(key.s, m[key]);
        }
        remaining := remaining - {key};
        assert m.Keys - remaining == done + {key};
      }
    } else {
      assert params.Some? ==> params.value.Keys == {};
    }
  }

  /** The query a repository method starts from: `prepareQuery` for arrays and maps,
      `createQuery(hql).setProperties(bag)` for the `...ByProperties` variants. */
  method PrepareQuery(db: Database, hql: string, p: Params) returns (q: Query)
    ensures fresh(q) && q.hql == hql
    ensures q.Bound() == BindingsOf(db, hql, p)
    ensures q.firstResult == None && q.maxResults == None
  {
    match p
    case Positional(a) => q := PrepareQueryArray(hql, a);
    case Keyed(m) => q := PrepareQueryMap(hql, m);
    case Properties(bag) =>
      q := new Query(hql);
      q.SetProperties(db, bag);
  }

  // ---------------------------------------------------------------------------------------
  // Repository queries

  /** `queryList` (and `Projection`, whose body is the same): the full result. */
  method QueryList(db: Database, hql: string, p: Params) returns (rows: seq<Value>)
    ensures rows == db.eval(hql, BindingsOf(db, hql, p))
  {
    var q := PrepareQuery(db, hql, p);
    rows := q.List(db);
  }

  /** `queryFirst` (and `Single`, whose body is the same): the query capped at one row, then
      `uniqueResult`, which cannot raise under that cap. */
  method QueryFirst(db: Database, hql: string, p: Params) returns (r: Value)
    ensures var all := db.eval(hql, BindingsOf(db, hql, p));
      r == if all == [] then Null else all[0]
  {
    var q := PrepareQuery(db, hql, p);
    q.SetMaxResults(1);
    var u := q.UniqueResult(db);
    r := u.value;
  }

  /** `getCount`: the single row cast to `Long`, then narrowed to `int`. No row unboxes a
      null, and a row that is not a `Long` fails the cast. */
  method GetCount(db: Database, hql: string, p: Params) returns (r: Result<int32, QueryError>)
    ensures var all := db.eval(hql, BindingsOf(db, hql, p));
      && (all == [] ==> r == Err(NullPointer))
      && (all != [] && all[0].Long? ==> r == Ok(Wrap32(all[0].l as int)))
      && (all != [] && all[0] == Null ==> r == Err(NullPointer))
      && (all != [] && !all[0].Long? && all[0] != Null ==> r == Err(ClassCast(all[0])))
  {
    var q := PrepareQuery(db, hql, p);
    q.SetMaxResults(1);
    var u := q.UniqueResult(db);
    match u.value
    case Null => r := Err(NullPointer);
    case Long(n) => r := Ok(Wrap32(n as int));
    case other => r := Err(ClassCast(other));
  }

  /** What `getCount` makes of a row count below 2^32: a count that fits in an `int` comes
      back unchanged, and every count from 2^31 up comes back as the negative number
      count - 2^32. */
  lemma CountNarrowing(n: int64)
    requires 0 <= n as int < 0x1_0000_0000
    ensures n as int <= MaxInt32 ==> Wrap32(n as int) as int == n as int
    ensures n as int > MaxInt32 ==> Wrap32(n as int) as int == n as int - 0x1_0000_0000 < 0
    ensures Wrap32(n as int) < 0 <==> n as int > MaxInt32
  {
    if n as int > MaxInt32 {
      assert (n as int - MinInt32) % 0x1_0000_0000 == n as int - MinInt32 - 0x1_0000_0000;
    }
  }

  // ---------------------------------------------------------------------------------------
  // Paging

  /** `(pageIndex - 1) * pageSize` in Java `int` arithmetic. */
  function PageOffset(pageIndex: int32, pageSize: int32): int32 {
    Wrap32(Wrap32(pageIndex as int - 1) as int * pageSize as int)
  }

  /** The page `queryForPage` returns out of the full result `all`. */
  function Page(all: seq<Value>, pageIndex: int32, pageSize: int32): seq<Value> {
    Window(all, Some(PageOffset(pageIndex, pageSize) as int), Some(pageSize as int))
  }

  /** `queryForPage` (all three parameter shapes, `...ByProperties` included). */
  method QueryForPage(db: Database, hql: string, pageIndex: int32, pageSize: int32, p: Params)
    returns (rows: seq<Value>)
    ensures rows == Page(db.eval(hql, BindingsOf(db, hql, p)), pageIndex, pageSize)
  {
    var q := PrepareQuery(db, hql, p);
    q.SetFirstResult(PageOffset(pageIndex, pageSize));
    q.SetMaxResults(pageSize);
    rows := q.List(db);
  }

  /** A page with a positive size and an offset that does not overflow is the slice of the
      full result from `(pageIndex - 1) * pageSize`, holds at most `pageSize` rows, and page 1
      is a prefix of the result. */
  lemma PageIsSlice(all: seq<Value>, pageIndex: int32, pageSize: int32)
    requires pageIndex >= 1 && pageSize > 0
    requires (pageIndex as int - 1) * pageSize as int <= MaxInt32
    ensures var from := Min((pageIndex as int - 1) * pageSize as int, |all|);
      Page(all, pageIndex, pageSize) == all[from..Min(from + pageSize as int, |all|)]
    ensures |Page(all, pageIndex, pageSize)| <= pageSize as int
    ensures pageIndex == 1 ==> Page(all, pageIndex, pageSize) == all[..Min(pageSize as int, |all|)]
  {
    var o := (pageIndex as int - 1) * pageSize as int;
    OffsetFits(pageIndex as int - 1, pageSize as int);
    assert PageOffset(pageIndex, pageSize) as int == o;
  }

  /** With no overflow, the Java offset is the mathematical one. */
  lemma OffsetFits(a: int, b: int)
    requires 0 <= a <= MaxInt32 && 0 < b <= MaxInt32 && a * b <= MaxInt32
    ensures Wrap32(Wrap32(a) as int * b) as int == a * b
  {
    assert Wrap32(a) as int == a;
    assert 0 <= a * b;
  }

  /** Pages 1 to n, laid end to end, are the first n * pageSize rows: paging neither skips
      nor repeats a row while the offsets fit in an `int`. */
  lemma {:induction false} PagesTile(all: seq<Value>, n: int32, pageSize: int32)
    requires n >= 0 && pageSize > 0
    requires n as int * pageSize as int <= MaxInt32
    ensures Pages(all, n, pageSize) == all[..Min(n as int * pageSize as int, |all|)]
    decreases n
  {
    if n > 0 {
      var m := (n - 1) as int32;
      var s := pageSize as int;
      var done := m as int * s;
      MultiplyStep(m as int, s);
      PagesTile(all, m, pageSize);
      PageIsSlice(all, n, pageSize);
      var a := Min(done, |all|);
      var b := Min(done + s, |all|);
      assert Pages(all, n, pageSize) == all[..a] + all[a..b];
      PrefixJoin(all, a, b);
    }
  }

  lemma MultiplyStep(m: int, s: int)
    requires m >= 0 && s > 0
    ensures (m + 1) * s == m * s + s && m * s >= 0
  {
  }

  lemma PrefixJoin(all: seq<Value>, a: int, b: int)
    requires 0 <= a <= b <= |all|
    ensures all[..a] + all[a..b] == all[..b]
  {
  }

  /** Pages 1 to n concatenated. */
  function Pages(all: seq<Value>, n: int32, pageSize: int32): seq<Value>
    requires n >= 0
    decreases n
  {
    if n == 0 then [] else Pages(all, (n - 1) as int32, pageSize) + Page(all, n, pageSize)
  }

  /** `PageBean(list, pageSize, pageIndex, totalCount)`; the bean's own logic is not part of
      this model. */
  datatype PageBean = PageBean(list: seq<Value>, pageSize: int32, pageIndex: int32, totalCount: int32)

  /** `List.size()`, which reports `Integer.MAX_VALUE` for longer lists. */
  function Size(rows: seq<Value>): (n: int32)
    ensures n as int == Min(|rows|, MaxInt32)
  {
    if |rows| > MaxInt32 then MaxInt32 as int32 else |rows| as int32
  }

  /** `findForPage`: the total is the size of a separate, unbounded run of the same query
      with the same parameters; the list is `queryForPage` with the same arguments. */
  method FindForPage(db: Database, hql: string, pageIndex: int32, pageSize: int32, p: Params)
    returns (bean: PageBean)
    ensures var all := db.eval(hql, BindingsOf(db, hql, p));
      && bean.totalCount as int == Min(|all|, MaxInt32)
      && bean.list == Page(all, pageIndex, pageSize)
      && bean.pageSize == pageSize && bean.pageIndex == pageIndex
  {
    var full := QueryList(db, hql, p);
    var totalCount := Size(full);
    var list := QueryForPage(db, hql, pageIndex, pageSize, p);
    bean := PageBean(list, pageSize, pageIndex, totalCount);
  }

  // ---------------------------------------------------------------------------------------
  // The transaction bracket

  /** A call this layer makes on the session or on its transaction. */
  datatype Step =
    | OpenSession
    | BeginTransaction
    | SessionSave(entity: Value)
    | SessionUpdate(entity: Value)
    | SessionSaveOrUpdate(entity: Value)
    | SessionMerge(entity: Value)
    | SessionDelete(entity: Value)
    | SessionGet(id: Value)
    | SessionLoad(id: Value)
    | Commit
    | Rollback

  /** A call as made, and whether it raised a `HibernateException`. */
  datatype Called = Called(step: Step, raised: bool)

  /** How the session behaves during one repository call: `raisesAt` is the position, in call
      order, of the first call that raises a `HibernateException` (none if nothing raises);
      `rollbackRaises` says whether `rollback` raises too; `found`, `merged` and `loaded` are
      what `get`, `merge` and `load` return. */
  datatype Session = Session(
    raisesAt: Option<nat>,
    rollbackRaises: bool,
    found: Value -> Value,
    merged: Value -> Value,
    loaded: Value -> Value)

  /** The session work of each mutating repository method. */
  datatype Mutation =
    | SaveOf(entity: Value)
    | UpdateOf(entity: Value)
    | SaveOrUpdateOf(entity: Value)
    | MergeOf(entity: Value)
    | DeleteOf(entity: Value)
    | DeleteById(id: Value)

  /** The calls a mutation makes inside its transaction. `delete(id)` opens the session
      again through `get`, and passes whatever `get` returned, null included, to `delete`. */
  function WorkSteps(s: Session, m: Mutation): seq<Step> {
    match m
    case SaveOf(e) => [SessionSave(e)]
    case UpdateOf(e) => [SessionUpdate(e)]
    case SaveOrUpdateOf(e) => [SessionSaveOrUpdate(e)]
    case MergeOf(e) => [SessionMerge(e)]
    case DeleteOf(e) => [SessionDelete(e)]
    case DeleteById(id) => [OpenSession, SessionGet(id), SessionDelete(s.found(id))]
  }

  /** Every call of the bracket when nothing raises. */
  function BracketSteps(s: Session, m: Mutation): seq<Step> {
    [OpenSession, BeginTransaction] + WorkSteps(s, m) + [Commit]
  }

  /** The calls in `steps`, none of which raised. */
  function Clean(steps: seq<Step>): (r: seq<Called>)
    ensures |r| == |steps|
    ensures forall i :: 0 <= i < |r| ==> r[i] == Called(steps[i], false)
  {
    seq(|steps|, i requires 0 <= i < |steps| => Called(steps[i], false))
  }

  lemma CleanAppend(a: seq<Step>, b: seq<Step>)
    ensures Clean(a + b) == Clean(a) + Clean(b)
  {
  }

  /** Whether one of `steps` raises, ending the try block at that call. */
  predicate RaisesWithin(s: Session, steps: seq<Step>) {
    s.raisesAt.Some? && s.raisesAt.value < |steps|
  }

  /** The calls a bracket makes: up to and including the one that raises, then `rollback`
      when a transaction handle exists, that is, when `beginTransaction` has returned. */
  function BracketTrace(s: Session, m: Mutation): seq<Called> {
    var steps := BracketSteps(s, m);
    if RaisesWithin(s, steps) then
      var k := s.raisesAt.value;
      Clean(steps[..k]) + [Called(steps[k], true)]
        + (if k >= 2 then [Called(Rollback, s.rollbackRaises)] else [])
    else Clean(steps)
  }

  /** States of the transaction one repository call drives. */
  datatype TxState = Idle | Active | Committed | RolledBack

  /** The transaction state machine: `beginTransaction` moves from Idle to Active, session
      work happens while Active, and a commit or rollback that returns ends the transaction.
      A call that raises leaves the state as it was. `None` marks a call out of order. */
  function Next(st: TxState, c: Called): Option<TxState> {
    match st
    case Idle =>
      if c.step == OpenSession then Some(Idle)
      else if c.step == BeginTransaction then Some(if c.raised then Idle else Active)
      else None
    case Active =>
      if c.step == BeginTransaction then None
      else if c.step == Commit then Some(if c.raised then Active else Committed)
      else if c.step == Rollback then Some(if c.raised then Active else RolledBack)
      else Some(Active)
    case Committed => None
    case RolledBack => None
  }

  /** The state after a sequence of calls, or `None` if some call is out of order. */
  function Run(st: TxState, trace: seq<Called>): Option<TxState>
    decreases |trace|
  {
    if trace == [] then Some(st)
    else match Next(st, trace[0])
      case None => None
      case Some(st') => Run(st', trace[1..])
  }

  lemma RunOne(st: TxState, c: Called)
    ensures Run(st, [c]) == Next(st, c)
  {
    if Next(st, c).Some? {
      assert [c][1..] == [];
    }
  }

  lemma {:induction false} RunAppend(st: TxState, a: seq<Called>, b: seq<Called>)
    ensures Run(st, a + b) == if Run(st, a).None? then None else Run(Run(st, a).value, b)
    decreases |a|
  {
    if a != [] {
      assert (a + b)[0] == a[0];
      assert (a + b)[1..] == a[1..] + b;
      if Next(st, a[0]).Some? {
        RunAppend(Next(st, a[0]).value, a[1..], b);
      }
    } else {
      assert a + b == b;
    }
  }

  /** Session work that does not raise keeps the transaction Active. */
  lemma {:induction false} WorkStaysActive(w: seq<Step>)
    requires forall i :: 0 <= i < |w| ==> w[i] != BeginTransaction && w[i] != Commit && w[i] != Rollback
    ensures Run(Active, Clean(w)) == Some(Active)
    decreases |w|
  {
    if w != [] {
      assert Clean(w)[1..] == Clean(w[1..]);
      WorkStaysActive(w[1..]);
    }
  }

  /** The final state a bracket leaves, by where it raised. */
  function FinalState(s: Session, m: Mutation): TxState {
    var steps := BracketSteps(s, m);
    if !RaisesWithin(s, steps) then Committed
    else if s.raisesAt.value < 2 then Idle
    else if s.rollbackRaises then Active
    else RolledBack
  }

  /** Every bracket is one well-ordered transaction: the trace is accepted by the state
      machine and ends Committed when nothing raised, Idle when the failure came before a
      transaction existed, and RolledBack (or still Active, if the rollback itself raised)
      otherwise. */
  lemma BracketIsOneTransaction(s: Session, m: Mutation)
    ensures Run(Idle, BracketTrace(s, m)) == Some(FinalState(s, m))
  {
    var steps := BracketSteps(s, m);
    if !RaisesWithin(s, steps) {
      CommitsWhenNothingRaises(s, m);
    } else if s.raisesAt.value < 2 {
      IdleWhenRaisedBeforeBegin(s, m);
    } else {
      RollsBackWhenRaisedAfterBegin(s, m);
    }
  }

  lemma WorkStepsAreWork(s: Session, m: Mutation)
    ensures forall i :: 0 <= i < |WorkSteps(s, m)| ==>
      WorkSteps(s, m)[i] != BeginTransaction && WorkSteps(s, m)[i] != Commit && WorkSteps(s, m)[i] != Rollback
  {
  }

  lemma OpenThenBegin()
    ensures Run(Idle, Clean([OpenSession, BeginTransaction])) == Some(Active)
  {
    assert Clean([OpenSession, BeginTransaction]) == [Called(OpenSession, false)] + [Called(BeginTransaction, false)];
    RunOne(Idle, Called(OpenSession, false));
    RunOne(Idle, Called(BeginTransaction, false));
    RunAppend(Idle, [Called(OpenSession, false)], [Called(BeginTransaction, false)]);
  }

  lemma CommitsWhenNothingRaises(s: Session, m: Mutation)
    requires !RaisesWithin(s, BracketSteps(s, m))
    ensures Run(Idle, BracketTrace(s, m)) == Some(Committed)
  {
    var w := WorkSteps(s, m);
    var head := [OpenSession, BeginTransaction];
    assert BracketSteps(s, m) == head + w + [Commit];
    OpenThenBegin();
    WorkStepsAreWork(s, m);
    CleanAppend(head, w);
    CleanAppend(head + w, [Commit]);
    WorkStaysActive(w);
    RunAppend(Idle, Clean(head), Clean(w));
    RunAppend(Idle, Clean(head) + Clean(w), Clean([Commit]));
    assert Clean([Commit]) == [Called(Commit, false)];
    RunOne(Active, Called(Commit, false));
  }

  lemma IdleWhenRaisedBeforeBegin(s: Session, m: Mutation)
    requires RaisesWithin(s, BracketSteps(s, m)) && s.raisesAt.value < 2
    ensures Run(Idle, BracketTrace(s, m)) == Some(Idle)
  {
    var steps := BracketSteps(s, m);
    var k := s.raisesAt.value;
    var failing := Called(steps[k], true);
    if k == 0 {
      assert BracketTrace(s, m) == [failing];
      RunOne(Idle, failing);
    } else {
      assert Clean(steps[..1]) == [Called(OpenSession, false)];
      assert BracketTrace(s, m) == [Called(OpenSession, false)] + [failing];
      RunOne(Idle, Called(OpenSession, false));
      RunOne(Idle, failing);
      RunAppend(Idle, [Called(OpenSession, false)], [failing]);
    }
  }

  /** Every call before a raise at index k >= 2 returned, and the transaction is open. */
  lemma ActiveBeforeRaise(s: Session, m: Mutation, k: nat)
    requires 2 <= k < |BracketSteps(s, m)|
    ensures Run(Idle, Clean(BracketSteps(s, m)[..k])) == Some(Active)
  {
    var steps := BracketSteps(s, m);
    var w := WorkSteps(s, m);
    var head := [OpenSession, BeginTransaction];
    assert steps == head + (w + [Commit]);
    var done := w[..k - 2];
    assert steps[..k] == head + done;
    OpenThenBegin();
    WorkStepsAreWork(s, m);
    CleanAppend(head, done);
    WorkStaysActive(done);
    RunAppend(Idle, Clean(head), Clean(done));
  }

  lemma RollsBackWhenRaisedAfterBegin(s: Session, m: Mutation)
    requires RaisesWithin(s, BracketSteps(s, m)) && s.raisesAt.value >= 2
    ensures Run(Idle, BracketTrace(s, m)) == Some(if s.rollbackRaises then Active else RolledBack)
  {
    var steps := BracketSteps(s, m);
    var k := s.raisesAt.value;
    var pre := Clean(steps[..k]);
    var failing := Called(steps[k], true);
    ActiveBeforeRaise(s, m, k);
    WorkStepsAreWork(s, m);
    assert steps[k] != BeginTransaction;
    RunOne(Active, failing);
    RunAppend(Idle, pre, [failing]);
    var rb := Called(Rollback, s.rollbackRaises);
    RunOne(Active, rb);
    RunAppend(Idle, pre + [failing], [rb]);
    assert BracketTrace(s, m) == pre + [failing] + [rb];
  }

  /** `rollback` is called exactly when a call after `beginTransaction` returned raised,
      that is, exactly when a transaction handle exists at the failure. */
  lemma RollbackIffHandle(s: Session, m: Mutation)
    ensures (exists i :: 0 <= i < |BracketTrace(s, m)| && BracketTrace(s, m)[i].step == Rollback)
      <==> RaisesWithin(s, BracketSteps(s, m)) && s.raisesAt.value >= 2
  {
    var steps := BracketSteps(s, m);
    var t := BracketTrace(s, m);
    assert forall i :: 0 <= i < |steps| ==> steps[i] != Rollback;
    if RaisesWithin(s, steps) && s.raisesAt.value >= 2 {
      assert t[|t| - 1].step == Rollback;
    } else if RaisesWithin(s, steps) {
      var k := s.raisesAt.value;
      assert t == Clean(steps[..k]) + [Called(steps[k], true)];
      assert forall i :: 0 <= i < |t| ==> t[i].step == steps[i];
    } else {
      assert forall i :: 0 <= i < |t| ==> t[i].step == steps[i];
    }
  }

  /** The calls made so far follow `steps`: none raised, or only the last did, and that
      is the call at `s.raisesAt`. */
  ghost predicate MadeSoFar(s: Session, steps: seq<Step>, trace: seq<Called>, raised: bool) {
    && |trace| <= |steps|
    && (!raised ==> trace == Clean(steps[..|trace|]) && (s.raisesAt.None? || s.raisesAt.value >= |trace|))
    && (raised ==>
          && |trace| > 0 && s.raisesAt == Some(|trace| - 1)
          && trace == Clean(steps[..|trace| - 1]) + [Called(steps[|trace| - 1], true)])
  }

  /** One session or transaction call: it raises exactly when it is the call at
      `s.raisesAt`. */
  method Invoke(s: Session, trace: seq<Called>, step: Step, ghost steps: seq<Step>)
    returns (trace': seq<Called>, raised: bool)
    requires MadeSoFar(s, steps, trace, false) && |trace| < |steps| && step == steps[|trace|]
    ensures raised == (s.raisesAt == Some(|trace|))
    ensures trace' == trace + [Called(step, raised)]
    ensures MadeSoFar(s, steps, trace', raised)
  {
    raised := s.raisesAt == Some(|trace|);
    trace' := trace + [Called(step, raised)];
    assert steps[..|trace'|] == steps[..|trace|] + [step];
  }

  /** The session work of one mutation, inside the open transaction. */
  method Work(s: Session, m: Mutation, trace: seq<Called>, ghost steps: seq<Step>)
    returns (trace': seq<Called>, raised: bool, merged: Value)
    requires steps == BracketSteps(s, m) && |trace| == 2 && MadeSoFar(s, steps, trace, false)
    ensures MadeSoFar(s, steps, trace', raised)
    ensures !raised ==> |trace'| == 2 + |WorkSteps(s, m)|
    ensures m.MergeOf? ==> merged == s.merged(m.entity)
  {
    merged := Null;
    match m {
      case SaveOf(e) => trace', raised := Invoke(s, trace, SessionSave(e), steps);
      case UpdateOf(e) => trace', raised := Invoke(s, trace, SessionUpdate(e), steps);
      case SaveOrUpdateOf(e) => trace', raised := Invoke(s, trace, SessionSaveOrUpdate(e), steps);
      case MergeOf(e) =>
        trace', raised := Invoke(s, trace, SessionMerge(e), steps);
        merged := s.merged(e);
      case DeleteOf(e) => trace', raised := Invoke(s, trace, SessionDelete(e), steps);
      case DeleteById(id) =>
        trace', raised := Invoke(s, trace, OpenSession, steps);
        if !raised {
          trace', raised := Invoke(s, trace', SessionGet(id), steps);
          if !raised {
            var entity := s.found(id);
            trace', raised := Invoke(s, trace', SessionDelete(entity), steps);
          }
        }
    }
  }

  /** What a bracket hands back: the work completed (and what `merge` returned), the work
      failed and the failure sentinel is due, or `rollback` raised, which escapes. */
  datatype BracketOutcome = Completed(merged: Value) | Failed | RollbackRaised

  /** A try block that stopped at a raising call made the calls `BracketTrace` lists before
      the rollback. */
  lemma StoppedTrace(s: Session, m: Mutation, trace: seq<Called>)
    requires MadeSoFar(s, BracketSteps(s, m), trace, true)
    ensures RaisesWithin(s, BracketSteps(s, m))
    ensures BracketTrace(s, m) == trace + (if |trace| >= 3 then [Called(Rollback, s.rollbackRaises)] else [])
  {
  }

  /** A try block that made every call without a raise made the calls `BracketTrace` lists. */
  lemma CompletedTrace(s: Session, m: Mutation, trace: seq<Called>)
    requires MadeSoFar(s, BracketSteps(s, m), trace, false) && |trace| == |BracketSteps(s, m)|
    ensures !RaisesWithin(s, BracketSteps(s, m))
    ensures BracketTrace(s, m) == trace
  {
    var steps := BracketSteps(s, m);
    assert steps[..|trace|] == steps;
  }

  /** The try/catch every mutating method repeats: open the session, begin, do the work,
      commit; on a `HibernateException`, roll back if a transaction handle exists. */
  method Bracket(s: Session, m: Mutation) returns (outcome: BracketOutcome, trace: seq<Called>)
    ensures trace == BracketTrace(s, m)
    ensures outcome.Completed? <==> FinalState(s, m) == Committed
    ensures outcome == RollbackRaised <==> FinalState(s, m) == Active
    ensures outcome.Completed? && m.MergeOf? ==> outcome.merged == s.merged(m.entity)
  {
    ghost var steps := BracketSteps(s, m);
    var tx: Option<TxState> := None;
    var raised;
    var merged := Null;
    trace, raised := Invoke(s, [], OpenSession, steps);
    if !raised {
      trace, raised := Invoke(s, trace, BeginTransaction, steps);
      if !raised {
        tx := Some(Active);
        trace, raised, merged := Work(s, m, trace, steps);
        if !raised {
          trace, raised := Invoke(s, trace, Commit, steps);
          if !raised {
            CompletedTrace(s, m, trace);
            return Completed(merged), trace;
          }
        }
      }
    }
    StoppedTrace(s, m, trace);
    if tx.Some? {
      trace := trace + [Called(Rollback, s.rollbackRaises)];
      if s.rollbackRaises {
        return RollbackRaised, trace;
      }
      tx := Some(RolledBack);
    }
    outcome := Failed;
  }

  /** A `HibernateException` that escapes a repository method. */
  datatype Raised = HibernateException

  /** `save`, `update`, `saveOrUpdate`, `delete(entity)` and `delete(id)`: true exactly when
      the transaction committed, false when the work failed (rolled back if begun), and the
      rollback's own exception when it raised. */
  method Mutate(s: Session, m: Mutation) returns (r: Result<bool, Raised>, trace: seq<Called>)
    requires !m.MergeOf?
    ensures trace == BracketTrace(s, m)
    ensures r == Ok(true) <==> Run(Idle, trace) == Some(Committed)
    ensures r == Ok(false) <==> Run(Idle, trace) == Some(Idle) || Run(Idle, trace) == Some(RolledBack)
    ensures r.Err? <==> Run(Idle, trace) == Some(Active)
    ensures (exists i :: 0 <= i < |trace| && trace[i].step == Rollback)
      <==> RaisesWithin(s, BracketSteps(s, m)) && s.raisesAt.value >= 2
  {
    var outcome;
    outcome, trace := Bracket(s, m);
    BracketIsOneTransaction(s, m);
    RollbackIffHandle(s, m);
    r := match outcome
      case Completed(_) => Ok(true)
      case Failed => Ok(false)
      case RollbackRaised => Err(HibernateException);
  }

  /** `merge`: the entity `session.merge` returned when the transaction committed, null when
      the work failed, and the rollback's own exception when it raised. */
  method Merge(s: Session, entity: Value) returns (r: Result<Value, Raised>, trace: seq<Called>)
    ensures trace == BracketTrace(s, MergeOf(entity))
    ensures Run(Idle, trace) == Some(Committed) ==> r == Ok(s.merged(entity))
    ensures Run(Idle, trace) == Some(Idle) || Run(Idle, trace) == Some(RolledBack) ==> r == Ok(Null)
    ensures r.Err? <==> Run(Idle, trace) == Some(Active)
  {
    var outcome;
    outcome, trace := Bracket(s, MergeOf(entity));
    BracketIsOneTransaction(s, MergeOf(entity));
    r := match outcome
      case Completed(v) => Ok(v)
      case Failed => Ok(Null)
      case RollbackRaised => Err(HibernateException);
  }

  /** `load`: whatever the session's `load` returns, or null when opening the session or the
      load raises a `HibernateException`. */
  method Load(s: Session, id: Value) returns (r: Value, trace: seq<Called>)
    ensures s.raisesAt == Some(0) || s.raisesAt == Some(1) ==> r == Null
    ensures s.raisesAt != Some(0) && s.raisesAt != Some(1) ==> r == s.loaded(id)
    ensures trace == if s.raisesAt == Some(0) then [Called(OpenSession, true)]
      else [Called(OpenSession, false), Called(SessionLoad(id), s.raisesAt == Some(1))]
  {
    ghost var steps := [OpenSession, SessionLoad(id)];
    var raised;
    trace, raised := Invoke(s, [], OpenSession, steps);
    if raised {
      return Null, trace;
    }
    trace, raised := Invoke(s, trace, SessionLoad(id), steps);
    r := if raised then Null else s.loaded(id);
  }
}
