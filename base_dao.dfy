/** The plain-JDBC base class: it keeps the connection, the statement and the result set of
    the latest call in instance fields, binds parameters 1-based, prints its SQL, and closes
    the fields in order. The driver is external; each JDBC object below carries, as
    constants, how the driver will behave for it. */
module Jdbc {
  import opened Outcomes
  import opened Java

  /** What the driver does with a statement prepared on a connection: how many `?` markers
      the SQL has, the update count `executeUpdate` returns (`None`: it raises
      `SQLException`), the first-column values of the generated keys, the first-column
      values of a query's rows (`None`: `executeQuery` raises), and whether `close` on the
      statement or on its result sets raises. */
  datatype Driver = Driver(
    markers: nat,
    updateCount: Option<int32>,
    generatedKeys: seq<int32>,
    queryRows: Option<seq<int32>>,
    statementCloseRaises: bool,
    resultSetCloseRaises: bool)

  /** A `java.sql.ResultSet`, reduced to the first-column `int` of each row. */
  class ResultSet {
    const rows: seq<int32>
    const closeRaises: bool
    var cursor: nat
    var closed: bool

    constructor (rows: seq<int32>, closeRaises: bool)
      ensures this.rows == rows && this.closeRaises == closeRaises
      ensures cursor == 0 && !closed
    {
      this.rows, this.closeRaises := rows, closeRaises;
      cursor, closed := 0, false;
    }

    /** `next()`: moves to the following row and says whether there is one. */
    method Next() returns (has: bool)
      modifies this
      ensures cursor == old(cursor) + 1 && closed == old(closed)
      ensures has == (cursor <= |rows|)
    {
      cursor := cursor + 1;
      has := cursor <= |rows|;
    }

    /** `getInt(1)` on the current row. */
    method GetFirstInt() returns (v: int32)
      requires 1 <= cursor <= |rows|
      ensures v == rows[cursor - 1]
    {
      v := rows[cursor - 1];
    }

    /** `close()`: a no-op when already closed; otherwise it closes or raises. */
    method Close() returns (ok: bool)
      modifies this
      ensures ok == (old(closed) || !closeRaises)
      ensures closed == (old(closed) || !closeRaises)
      ensures cursor == old(cursor)
    {
      ok := closed || !closeRaises;
      closed := ok;
    }
  }

  /** A `java.sql.PreparedStatement`. */
  class PreparedStatement {
    const sql: string
    const driver: Driver
    var params: map<int, Value>
    var closed: bool

    constructor (sql: string, driver: Driver)
      ensures this.sql == sql && this.driver == driver
      ensures params == map[] && !closed
    {
      this.sql, this.driver := sql, driver;
      params, closed := map[], false;
    }

    /** `setObject(index, v)`: raises `SQLException` for an index with no marker. */
    method SetObject(index: int, v: Value) returns (ok: bool)
      modifies this
      ensures ok == (1 <= index <= driver.markers)
      ensures params == if ok then old(params)[index := v] else old(params)
      ensures closed == old(closed)
    {
      ok := 1 <= index <= driver.markers;
      if ok {
        params := params[index := v];
      }
    }

    /** `executeUpdate()`: the update count, or `None` when it raises. */
    method ExecuteUpdate() returns (count: Option<int32>)
      ensures count == driver.updateCount
    {
      count := driver.updateCount;
    }

    /** `getGeneratedKeys()`. */
    method GetGeneratedKeys() returns (keys: ResultSet)
      ensures fresh(keys) && keys.rows == driver.generatedKeys && keys.cursor == 0 && !keys.closed
    {
      keys := new ResultSet(driver.generatedKeys, driver.resultSetCloseRaises);
    }

    /** `executeQuery()`: a fresh result set, or `None` when it raises. */
    method ExecuteQuery() returns (r: Option<ResultSet>)
      ensures driver.queryRows.None? ==> r.None?
      ensures driver.queryRows.Some? ==>
        && r.Some? && fresh(r.value) && r.value.rows == driver.queryRows.value
        && r.value.cursor == 0 && !r.value.closed
    {
      if driver.queryRows.None? {
        return None;
      }
      var made := new ResultSet(driver.queryRows.value, driver.resultSetCloseRaises);
      r := Some(made);
    }

    /** `close()`: a no-op when already closed; otherwise it closes or raises. */
    method Close() returns (ok: bool)
      modifies this
      ensures ok == (old(closed) || !driver.statementCloseRaises)
      ensures closed == ok
      ensures params == old(params)
    {
      ok := closed || !driver.statementCloseRaises;
      closed := ok;
    }
  }

  /** A `java.sql.Connection`. `prepareStatement` raises when the connection is closed or
      when the driver rejects the SQL. */
  class Connection {
    const rejectsSql: bool
    const closeRaises: bool
    const driver: Driver
    var closed: bool

    constructor (rejectsSql: bool, closeRaises: bool, driver: Driver)
      ensures this.rejectsSql == rejectsSql && this.closeRaises == closeRaises
      ensures this.driver == driver && !closed
    {
      this.rejectsSql, this.closeRaises, this.driver := rejectsSql, closeRaises, driver;
      closed := false;
    }

    /** `prepareStatement(sql)`, and `prepareStatement(sql, RETURN_GENERATED_KEYS)`, which
        behaves the same here: a fresh open statement, or `None` when it raises. */
    method PrepareStatement(sql: string) returns (r: Option<PreparedStatement>)
      ensures r.Some? <==> !closed && !rejectsSql
      ensures r.Some? ==>
        && fresh(r.value) && r.value.sql == sql && r.value.driver == driver
        && r.value.params == map[] && !r.value.closed
    {
      if closed || rejectsSql {
        return None;
      }
      var st := new PreparedStatement(sql, driver);
      r := Some(st);
    }

    /** `close()`: a no-op when already closed; otherwise it closes or raises. */
    method Close() returns (ok: bool)
      modifies this
      ensures ok == (old(closed) || !closeRaises)
      ensures closed == ok
    {
      ok := closed || !closeRaises;
      closed := ok;
    }
  }

  // ---------------------------------------------------------------------------------------
  // closeAll, on an abstract view of the three fields

  /** One of the three fields as `closeAll` sees it: null, or an object that is closed or
      open and whose `close` raises or not. */
  datatype Handle = NoHandle | Handle(closed: bool, closeRaises: bool)

  /** `closeAll` on the fields in the order rs, pstmt, conn: null fields and closed objects
      are passed over, open ones are closed, and the first `close` that raises ends the
      whole sequence, leaving that object and every later one as they were. */
  function CloseChain(hs: seq<Handle>): (r: seq<Handle>)
    ensures |r| == |hs|
  {
    if hs == [] then []
    else if hs[0].Handle? && !hs[0].closed && hs[0].closeRaises then hs
    else [if hs[0].Handle? then Handle(true, hs[0].closeRaises) else NoHandle] + CloseChain(hs[1..])
  }

  /** The position of the first field whose `close` would raise, or |hs| if none would. */
  function FirstRaising(hs: seq<Handle>): (k: nat)
    ensures k <= |hs|
  {
    if hs == [] then 0
    else if hs[0].Handle? && !hs[0].closed && hs[0].closeRaises then 0
    else 1 + FirstRaising(hs[1..])
  }

  /** `closeAll` closes every present field before the first raising `close`, and leaves that
      field and all later ones untouched; no field is ever reset to null. */
  lemma {:induction false} CloseChainStopsAtFirstRaise(hs: seq<Handle>)
    ensures var r, k := CloseChain(hs), FirstRaising(hs);
      && (forall i :: 0 <= i < k ==> r[i] == if hs[i].Handle? then Handle(true, hs[i].closeRaises) else NoHandle)
      && (forall i :: k <= i < |hs| ==> r[i] == hs[i])
    decreases |hs|
  {
    if hs != [] && !(hs[0].Handle? && !hs[0].closed && hs[0].closeRaises) {
      CloseChainStopsAtFirstRaise(hs[1..]);
    }
  }

  /** When no open field's `close` raises, `closeAll` leaves every non-null field closed. */
  lemma {:induction false} CloseChainClosesAll(hs: seq<Handle>)
    requires forall i :: 0 <= i < |hs| ==> !(hs[i].Handle? && !hs[i].closed && hs[i].closeRaises)
    ensures forall i :: 0 <= i < |hs| ==> CloseChain(hs)[i] == NoHandle || CloseChain(hs)[i].closed
    ensures forall i :: 0 <= i < |hs| ==> (CloseChain(hs)[i] == NoHandle <==> hs[i] == NoHandle)
    decreases |hs|
  {
    if hs != [] {
      assert !(hs[0].Handle? && !hs[0].closed && hs[0].closeRaises);
      CloseChainClosesAll(hs[1..]);
      var r := CloseChain(hs);
      assert r == [if hs[0].Handle? then Handle(true, hs[0].closeRaises) else NoHandle] + CloseChain(hs[1..]);
      forall i | 1 <= i < |hs|
        ensures r[i] == CloseChain(hs[1..])[i - 1] && hs[i] == hs[1..][i - 1]
      {
      }
    }
  }

  // ---------------------------------------------------------------------------------------
  // The log line

  /** The text `log` prints for `prams`: `"==========="` and the SQL on one line, then, for
      a non-empty array, `参数：` on a line of its own and the parameters joined with ","
      and ended with "\n". */
  function LogText(sql: string, prams: Option<seq<Value>>): string {
    "===========" + sql + "\n"
      + (if prams.Some? && |prams.value| > 0 then "参数：\n" + Joined(Texts(prams.value)) + "\n" else "")
  }

  /** `String.valueOf` of each parameter, which is what string concatenation prints. */
  function Texts(ps: seq<Value>): (ts: seq<string>)
    ensures |ts| == |ps| && forall i :: 0 <= i < |ps| ==> ts[i] == ValueOf(ps[i])
  {
    seq(|ps|, i requires 0 <= i < |ps| => ValueOf(ps[i]))
  }

  /** The texts separated by ",". */
  function Joined(ts: seq<string>): string
    decreases |ts|
  {
    if ts == [] then ""
    else if |ts| == 1 then ts[0]
    else Joined(ts[..|ts| - 1]) + "," + ts[|ts| - 1]
  }

  /** What the loop of `log` has printed after `i` of the `|ts|` texts. */
  function PrintedAfter(ts: seq<string>, i: nat): string
    requires i <= |ts|
  {
    if i == 0 then ""
    else if i < |ts| then Joined(ts[..i]) + ","
    else Joined(ts) + "\n"
  }

  /** The full log text of a non-empty array, as the loop of `log` completes it. */
  lemma LogTextOfParams(sql: string, ps: seq<Value>)
    requires |ps| > 0
    ensures LogText(sql, Some(ps)) == ("===========" + sql + "\n" + "参数：\n") + PrintedAfter(Texts(ps), |ps|)
  {
  }

  lemma PrintedStep(ts: seq<string>, i: nat)
    requires i < |ts|
    ensures PrintedAfter(ts, i + 1)
      == PrintedAfter(ts, i) + ts[i] + (if i == |ts| - 1 then "\n" else ",")
  {
    assert ts[..i + 1][..i] == ts[..i];
    if i + 1 == |ts| {
      assert ts[..i + 1] == ts;
    }
  }

  /** The parameters appear in order: the joined text is that of a prefix, a ",", and that
      of the rest. */
  lemma {:induction false} JoinedSplits(ts: seq<string>, j: nat)
    requires 0 < j < |ts|
    ensures Joined(ts) == Joined(ts[..j]) + "," + Joined(ts[j..])
    decreases |ts|
  {
    var n := |ts|;
    var front, rest := ts[..n - 1], ts[j..];
    if j == n - 1 {
      assert rest == [ts[n - 1]];
      assert front == ts[..j];
    } else {
      JoinedSplits(front, j);
      assert front[..j] == ts[..j];
      var middle := front[j..];
      assert rest[..|rest| - 1] == middle && rest[|rest| - 1] == ts[n - 1];
      ConcatAssociates(Joined(ts[..j]) + ",", Joined(middle), "," + ts[n - 1]);
    }
  }

  lemma ConcatAssociates(a: string, b: string, c: string)
    ensures (a + b) + c == a + (b + c)
  {
  }

  // ---------------------------------------------------------------------------------------
  // Binding

  /** The 1-based binding table for the first `n` elements of `ps`: element i at i + 1. */
  function OneBased(ps: seq<Value>, n: nat): (b: map<int, Value>)
    requires n <= |ps|
    ensures forall i :: i in b <==> 1 <= i <= n
    ensures forall i :: 1 <= i <= n ==> b[i] == ps[i - 1]
  {
    if n == 0 then map[] else OneBased(ps, n - 1)[n := ps[n - 1]]
  }

  /** The update count, or 0 when `executeUpdate` raised and the handler fell through to
      the final `return 0`. */
  function CountOrZero(c: Option<int32>): int32 {
    if c.Some? then c.value else 0
  }

  /** The key `executeInsert` returns for a statement whose update succeeded with `count`:
      the first generated key when `count > 0` and there is one, and 0 otherwise. */
  function InsertedKey(count: int32, keys: seq<int32>): (k: int32)
    ensures count <= 0 || keys == [] ==> k == 0
    ensures count > 0 && keys != [] ==> k == keys[0]
  {
    if count > 0 && |keys| > 0 then keys[0] else 0
  }

  /** Where the shared front part of the three execute methods stops: no connection (the
      `NullPointerException`), `prepareStatement` raising, a `setObject` raising, or ready
      to execute. */
  datatype Stage = NoConnection | PrepareRaised | BindRaised | Ready

  /** The stage reached with connection `c` (the field after `getConnection`). */
  function StageOf(c: Connection?, prams: Option<seq<Value>>): Stage
    reads c
  {
    if c == null then NoConnection
    else if c.closed || c.rejectsSql then PrepareRaised
    else if prams.Some? && |prams.value| > c.driver.markers then BindRaised
    else Ready
  }

  /** The failure a JDBC call gives the caller: a `NullPointerException` when no connection
      was ever obtained, since only `SQLException` is caught. */
  datatype Escaped = NullPointerException

  ghost function RsHandle(x: ResultSet?): Handle
    reads x
  {
    if x == null then NoHandle else Handle(x.closed, x.closeRaises)
  }

  ghost function StatementHandle(x: PreparedStatement?): Handle
    reads x
  {
    if x == null then NoHandle else Handle(x.closed, x.driver.statementCloseRaises)
  }

  ghost function ConnectionHandle(x: Connection?): Handle
    reads x
  {
    if x == null then NoHandle else Handle(x.closed, x.closeRaises)
  }

  /** The data-access base class. `console` is what it has printed to standard output. */
  class BaseDao {
    var conn: Connection?
    var pstmt: PreparedStatement?
    var rs: ResultSet?
    var console: string

    constructor ()
      ensures conn == null && pstmt == null && rs == null && console == ""
    {
      conn, pstmt, rs, console := null, null, null, "";
    }

    /** The three fields in the order `closeAll` visits them. */
    ghost function Handles(): seq<Handle>
      reads this, rs, pstmt, conn
    {
      [RsHandle(rs), StatementHandle(pstmt), ConnectionHandle(conn)]
    }

    /** `closeAll()`. */
    method CloseAll()
      modifies rs, pstmt, conn
      ensures Handles() == CloseChain(old(Handles()))
      ensures rs == old(rs) && pstmt == old(pstmt) && conn == old(conn)
      ensures pstmt != null ==> pstmt.params == old(pstmt.params)
    {
      ghost var hs := Handles();
      var ok := true;
      if rs != null {
        ok := rs.Close();
        if !ok {
          return;
        }
      }
      assert CloseChain(hs)[1..] == CloseChain(hs[1..]);
      if pstmt != null {
        ok := pstmt.Close();
        if !ok {
          return;
        }
      }
      assert CloseChain(hs[1..])[1..] == CloseChain(hs[2..]);
      if conn != null {
        ok := conn.Close();
      }
    }

    /** `log(sql, prams)`. */
    method Log(sql: string, prams: Option<seq<Value>>)
      modifies this`console
      ensures console == old(console) + LogText(sql, prams)
    {
      console := console + ("===========" + sql + "\n");
      if prams.Some? && |prams.value| > 0 {
        console := console + "参数：\n";
        PrintParams(prams.value);
        LogTextOfParams(sql, prams.value);
      }
    }

    /** The loop of `log`: each parameter followed by "," and the last by "\n". */
    method PrintParams(ps: seq<Value>)
      modifies this`console
      ensures console == old(console) + PrintedAfter(Texts(ps), |ps|)
    {
      ghost var base := console;
      var texts := Texts(ps);
      for i := 0 to |texts|
        invariant console == base + PrintedAfter(texts, i)
      {
        PrintedStep(texts, i);
        var separator := if i == |texts| - 1 then "\n" else ",";
        console := console + (texts[i] + separator);
      }
    }

    /** The part `executeUpdate`, `executeInsert` and `executeQuery` share: take the
        connection (a failed `getConnection` leaves the field as it was), prepare the
        statement into the field, bind element i at position i + 1, and log. */
    method Prepare(sql: string, prams: Option<seq<Value>>, acquired: Connection?)
      returns (stage: Stage)
      modifies this
      ensures conn == (if acquired != null then acquired else old(conn))
      ensures rs == old(rs)
      ensures stage == StageOf(conn, prams)
      ensures stage == NoConnection || stage == PrepareRaised ==> pstmt == old(pstmt)
      ensures stage == BindRaised || stage == Ready ==>
        && pstmt != null && fresh(pstmt) && pstmt.sql == sql && pstmt.driver == conn.driver
        && !pstmt.closed
        && pstmt.params == if prams.None? then map[]
             else OneBased(prams.value, Min(|prams.value|, conn.driver.markers))
      ensures console == old(console) + (if stage == Ready then LogText(sql, prams) else "")
    {
      if acquired != null {
        conn := acquired;
      }
      if conn == null {
        return NoConnection;
      }
      var prepared := conn.PrepareStatement(sql);
      if prepared.None? {
        return PrepareRaised;
      }
      var st := prepared.value;
      pstmt := st;
      if prams.Some? {
        var ps := prams.value;
        for i := 0 to |ps|
          modifies st
          invariant i <= st.driver.markers
          invariant st.params == OneBased(ps, i) && !st.closed
        {
          var ok := st.SetObject(i + 1, ps[i]);
          if !ok {
            return BindRaised;
          }
        }
      }
      Log(sql, prams);
      stage := Ready;
    }

    /** `executeUpdate(sql, prams...)`: the affected-row count, 0 when a step raised
        `SQLException`, a `NullPointerException` when there is no connection, and
        `closeAll` in the `finally` on every path. */
    method ExecuteUpdate(sql: string, prams: Option<seq<Value>>, acquired: Connection?)
      returns (r: Result<int32, Escaped>, stage: Stage)
      modifies this, rs, pstmt, conn, acquired
      ensures conn == (if acquired != null then acquired else old(conn)) && rs == old(rs)
      ensures stage == old(StageOf(if acquired != null then acquired else conn, prams))
      ensures stage == NoConnection ==> r == Err(NullPointerException)
      ensures stage == PrepareRaised || stage == BindRaised ==> r == Ok(0)
      ensures stage == Ready ==> r == Ok(CountOrZero(conn.driver.updateCount))
      ensures stage == NoConnection || stage == PrepareRaised ==> pstmt == old(pstmt)
      ensures stage == BindRaised || stage == Ready ==> fresh(pstmt) && pstmt.sql == sql
      ensures stage == BindRaised || stage == Ready ==>
        pstmt.params == if prams.None? then map[]
          else OneBased(prams.value, Min(|prams.value|, conn.driver.markers))
      ensures old(pstmt) != null && old(pstmt) != pstmt ==>
        old(pstmt).closed == old(pstmt.closed) && old(pstmt).params == old(pstmt.params)
      ensures old(conn) != null && old(conn) != conn ==> old(conn).closed == old(conn.closed)
      ensures Handles() == CloseChain([
        old(RsHandle(rs)),
        if stage == BindRaised || stage == Ready then Handle(false, conn.driver.statementCloseRaises)
        else old(StatementHandle(pstmt)),
        old(ConnectionHandle(if acquired != null then acquired else conn))])
      ensures console == old(console) + (if stage == Ready then LogText(sql, prams) else "")
    {
      stage := Prepare(sql, prams, acquired);
      var count := None;
      if stage == Ready {
        count := pstmt.ExecuteUpdate();
      }
      CloseAll();
      if stage == NoConnection {
        return Err(NullPointerException), stage;
      }
      r := Ok(CountOrZero(count));
    }

    /** The body of `executeInsert` between `log` and `return`: run the update and read the
        first generated key into a local result set (0 when it raised). */
    static method GeneratedKey(st: PreparedStatement) returns (key: int32)
      ensures key == if st.driver.updateCount.None? then 0
        else InsertedKey(st.driver.updateCount.value, st.driver.generatedKeys)
    {
      key := 0;
      var count := st.ExecuteUpdate();
      if count.Some? && count.value > 0 {
        var keys := st.GetGeneratedKeys();
        var has := keys.Next();
        if has {
          key := keys.GetFirstInt();
        }
      }
    }

    /** `executeInsert(sql, prams...)`: with `RETURN_GENERATED_KEYS`, the first generated key
        when the update count is positive and a key row exists, 0 otherwise or when a step
        raised `SQLException`, and `closeAll` in the `finally` on every path. The generated
        keys go into a local result set, which `closeAll` does not see: the field `rs` keeps
        whatever an earlier query left there. */
    method ExecuteInsert(sql: string, prams: Option<seq<Value>>, acquired: Connection?)
      returns (r: Result<int32, Escaped>, stage: Stage)
      modifies this, rs, pstmt, conn, acquired
      ensures conn == (if acquired != null then acquired else old(conn)) && rs == old(rs)
      ensures stage == old(StageOf(if acquired != null then acquired else conn, prams))
      ensures stage == NoConnection ==> r == Err(NullPointerException)
      ensures stage == PrepareRaised || stage == BindRaised ==> r == Ok(0)
      ensures stage == Ready ==> r == Ok(
        if conn.driver.updateCount.None? then 0
        else InsertedKey(conn.driver.updateCount.value, conn.driver.generatedKeys))
      ensures stage == NoConnection || stage == PrepareRaised ==> pstmt == old(pstmt)
      ensures stage == BindRaised || stage == Ready ==> fresh(pstmt) && pstmt.sql == sql
      ensures stage == BindRaised || stage == Ready ==>
        pstmt.params == if prams.None? then map[]
          else OneBased(prams.value, Min(|prams.value|, conn.driver.markers))
      ensures old(pstmt) != null && old(pstmt) != pstmt ==>
        old(pstmt).closed == old(pstmt.closed) && old(pstmt).params == old(pstmt.params)
      ensures old(conn) != null && old(conn) != conn ==> old(conn).closed == old(conn.closed)
      ensures Handles() == CloseChain([
        old(RsHandle(rs)),
        if stage == BindRaised || stage == Ready then Handle(false, conn.driver.statementCloseRaises)
        else old(StatementHandle(pstmt)),
        old(ConnectionHandle(if acquired != null then acquired else conn))])
      ensures console == old(console) + (if stage == Ready then LogText(sql, prams) else "")
    {
      stage := Prepare(sql, prams, acquired);
      var key: int32 := 0;
      if stage == Ready {
        key := GeneratedKey(pstmt);
      }
      CloseAll();
      if stage == NoConnection {
        return Err(NullPointerException), stage;
      }
      r := Ok(key);
    }

    /** `executeQuery(sql, prams...)`: on success the field `rs` holds the fresh result set
        for the caller to read; on `SQLException` it keeps its earlier value. Nothing is
        closed on any path, and a missing connection raises `NullPointerException`. */
    method ExecuteQuery(sql: string, prams: Option<seq<Value>>, acquired: Connection?)
      returns (r: Option<Escaped>, stage: Stage)
      modifies this
      ensures conn == (if acquired != null then acquired else old(conn))
      ensures stage == StageOf(conn, prams)
      ensures r.Some? <==> stage == NoConnection
      ensures stage == Ready && conn.driver.queryRows.Some? ==>
        && rs != null && fresh(rs) && rs.rows == conn.driver.queryRows.value
        && rs.cursor == 0 && !rs.closed
      ensures !(stage == Ready && conn.driver.queryRows.Some?) ==> rs == old(rs)
      ensures stage == NoConnection || stage == PrepareRaised ==> pstmt == old(pstmt)
      ensures stage == BindRaised || stage == Ready ==> fresh(pstmt) && pstmt.sql == sql && !pstmt.closed
      ensures stage == BindRaised || stage == Ready ==>
        pstmt.params == if prams.None? then map[]
          else OneBased(prams.value, Min(|prams.value|, conn.driver.markers))
      ensures console == old(console) + (if stage == Ready then LogText(sql, prams) else "")
    {
      stage := Prepare(sql, prams, acquired);
      if stage == NoConnection {
        return Some(NullPointerException), stage;
      }
      r := None;
      if stage == Ready {
        var result := pstmt.ExecuteQuery();
        if result.Some? {
          rs := result.value;
        }
      }
    }
  }
}
