/** The rules the API router applies to monitor records, heartbeats and the rows
    of its other tables, stated as functions on values. The router class in
    router.dfy performs them step by step. */
module Monitors {
  import opened Json
  import opened Text
  import opened Sorting

  /** A stored row: its primary key and its columns. The key is never a column. */
  type Row = (int, Record)

  predicate OwnedBy(r: Record, uid: int) {
    Field(r, "user_id") == Num(uid)
  }

  /** `if (monitor.active)`. */
  predicate IsActive(r: Record) {
    IsSet(r, "active")
  }

  /** What `toJSON` gives for a stored row: the columns and the key as `id`. */
  function RowJson(row: Row): Record {
    row.1["id" := Num(row.0)]
  }

  /** `heartbeat ? heartbeat.toJSON() : null`. */
  function LatestJson(latest: Option<Value>): Value {
    match latest
    case Some(v) => v
    case None => Null
  }

  /** A monitor as the list and get routes answer it. */
  function MonitorJson(row: Row, latest: Value): Record {
    RowJson(row)["latestHeartbeat" := latest]
  }

  // ----- POST /monitors -----

  /** The members a new monitor defaults when they are falsy, with their
      defaults, in the order the create route tests them. */
  const MonitorDefaults: seq<(string, Value)> := [
    ("interval", Num(60)),
    ("retryInterval", Num(60)),
    ("maxretries", Num(0)),
    ("weight", Num(2000)),
    ("active", Num(1)),
    ("authMethod", Null)
  ]

  function KeysOf(defaults: seq<(string, Value)>): set<string> {
    set i | 0 <= i < |defaults| :: defaults[i].0
  }

  const DefaultedKeys: set<string> := KeysOf(MonitorDefaults)

  lemma MonitorDefaultsFacts()
    ensures forall i, j :: 0 <= i < j < |MonitorDefaults| ==> MonitorDefaults[i].0 != MonitorDefaults[j].0
    ensures "user_id" !in DefaultedKeys && "name" !in DefaultedKeys
    ensures "type" !in DefaultedKeys && "url" !in DefaultedKeys
    ensures "id" !in DefaultedKeys
    ensures MonitorDefaults[4] == ("active", Num(1))
  {
    forall i | 0 <= i < |MonitorDefaults|
      ensures MonitorDefaults[i].0 !in {"user_id", "name", "type", "url", "id"}
    {
    }
  }

  /** `if (!data.k) data.k = d`. */
  function WithDefault(r: Record, k: string, d: Value): (r': Record)
    ensures r'.Keys == r.Keys + {k}
    ensures r'[k] == if IsSet(r, k) then r[k] else d
    ensures forall j :: j in r && j != k ==> r'[j] == r[j]
  {
    if IsSet(r, k) then r else r[k := d]
  }

  /** The run of `if (!data.k) data.k = d` statements, one per pair of `defaults`. */
  function WithDefaults(data: Record, defaults: seq<(string, Value)>): (r: Record)
    requires forall i, j :: 0 <= i < j < |defaults| ==> defaults[i].0 != defaults[j].0
    ensures r.Keys == data.Keys + KeysOf(defaults)
    ensures forall i :: 0 <= i < |defaults| ==>
      r[defaults[i].0] == if IsSet(data, defaults[i].0) then data[defaults[i].0] else defaults[i].1
    ensures forall k :: k in data && k !in KeysOf(defaults) ==> r[k] == data[k]
    decreases |defaults|
  {
    if defaults == [] then data
    else
      var (k, d) := defaults[0];
      var rest := defaults[1..];
      KeysOfFirst(defaults);
      var next := WithDefault(data, k, d);
      var r := WithDefaults(next, rest);
      assert forall i :: 1 <= i < |defaults| ==>
        r[defaults[i].0] == if IsSet(data, defaults[i].0) then data[defaults[i].0] else defaults[i].1
      by {
        forall i | 1 <= i < |defaults|
          ensures r[defaults[i].0] == if IsSet(data, defaults[i].0) then data[defaults[i].0] else defaults[i].1
        {
          assert defaults[i] == rest[i - 1];
          assert defaults[i].0 != k;
        }
      }
      r
  }

  /** The first default is not repeated by the others, which are distinct too. */
  lemma KeysOfFirst(defaults: seq<(string, Value)>)
    requires defaults != []
    requires forall i, j :: 0 <= i < j < |defaults| ==> defaults[i].0 != defaults[j].0
    ensures forall i, j :: 0 <= i < j < |defaults[1..]| ==> defaults[1..][i].0 != defaults[1..][j].0
    ensures KeysOf(defaults) == {defaults[0].0} + KeysOf(defaults[1..])
    ensures defaults[0].0 !in KeysOf(defaults[1..])
  {
    var rest := defaults[1..];
    forall i, j | 0 <= i < j < |rest|
      ensures rest[i].0 != rest[j].0
    {
      assert rest[i] == defaults[i + 1] && rest[j] == defaults[j + 1];
    }
    forall k | k in KeysOf(defaults)
      ensures k in {defaults[0].0} + KeysOf(rest)
    {
      var i :| 0 <= i < |defaults| && defaults[i].0 == k;
      if i > 0 {
        assert rest[i - 1].0 == k;
      }
    }
    forall k | k in KeysOf(rest)
      ensures k in KeysOf(defaults) && k != defaults[0].0
    {
      var i :| 0 <= i < |rest| && rest[i].0 == k;
      assert defaults[i + 1] == rest[i];
    }
  }

  /** Defaults that would all be kept leave a record as it is. */
  lemma WithDefaultsKeeps(data: Record, defaults: seq<(string, Value)>)
    requires forall i, j :: 0 <= i < j < |defaults| ==> defaults[i].0 != defaults[j].0
    requires forall i :: 0 <= i < |defaults| ==>
      defaults[i].0 in data && (IsSet(data, defaults[i].0) || data[defaults[i].0] == defaults[i].1)
    ensures WithDefaults(data, defaults) == data
  {
    var r := WithDefaults(data, defaults);
    assert r.Keys == data.Keys;
    forall k | k in r
      ensures r[k] == data[k]
    {
      if k in KeysOf(defaults) {
        var i :| 0 <= i < |defaults| && defaults[i].0 == k;
      }
    }
  }

  /** `data` of the create route after the owner and the defaults are set. */
  function Defaulted(body: Record, uid: int): Record {
    WithDefaults(body["user_id" := Num(uid)], MonitorDefaults)
  }

  /** The monitor the create route stores, or None when a required member is
      missing (400); the required members are not among the defaulted ones. */
  function PrepareMonitor(body: Record, uid: int): (r: Option<Record>)
    ensures r.Some? <==> IsSet(body, "name") && IsSet(body, "type") && IsSet(body, "url")
    ensures r.Some? ==> r.value == Defaulted(body, uid)
  {
    MonitorDefaultsFacts();
    var data := Defaulted(body, uid);
    assert IsSet(data, "name") == IsSet(body, "name");
    assert IsSet(data, "type") == IsSet(body, "type");
    assert IsSet(data, "url") == IsSet(body, "url");
    if !IsSet(data, "name") || !IsSet(data, "type") || !IsSet(data, "url") then None
    else Some(data)
  }

  /** A body with a name, a type and a target passes validation. */
  lemma Validated(body: Record, uid: int)
    requires IsSet(body, "name") && IsSet(body, "type") && IsSet(body, "url")
    ensures PrepareMonitor(body, uid).Some?
  {
  }

  /** The stored monitor belongs to the caller, whatever `user_id` the body carried. */
  lemma DefaultedOwned(body: Record, uid: int)
    ensures Defaulted(body, uid)["user_id"] == Num(uid)
    ensures OwnedBy(Defaulted(body, uid), uid)
  {
    MonitorDefaultsFacts();
  }

  /** The stored monitor is active: a falsy `active` becomes 1. */
  lemma DefaultedActive(body: Record, uid: int)
    ensures IsActive(Defaulted(body, uid))
  {
    DefaultedActiveValue(body, uid);
  }

  /** The row the create route stores: the defaulted body, keyed by the table
      and so without an `id` member of its own. */
  function NewMonitor(body: Record, uid: int): Record {
    Defaulted(body, uid) - {"id"}
  }

  /** The stored row is the defaulted body whenever that has no `id`. */
  lemma NewMonitorIs(body: Record, uid: int, d: Record)
    requires Defaulted(body, uid) == d && "id" !in d
    ensures NewMonitor(body, uid) == d
  {
    WithoutAbsentKey(d, "id");
  }

  /** Removing a member a record does not hold leaves the record as it is. */
  lemma WithoutAbsentKey(d: Record, k: string)
    requires k !in d
    ensures d - {k} == d
  {
    assert (d - {k}).Keys == d.Keys;
  }

  /** Every member other than `id` is stored as defaulted. */
  lemma NewMonitorMember(body: Record, uid: int, d: Record, k: string)
    requires Defaulted(body, uid) == d && k in d && k != "id"
    ensures k in NewMonitor(body, uid) && NewMonitor(body, uid)[k] == d[k]
  {
    MemberWithoutKey(d, "id", k);
  }

  /** Removing one member keeps every other member. */
  lemma MemberWithoutKey(d: Record, k: string, j: string)
    requires j in d && j != k
    ensures j in d - {k} && (d - {k})[j] == d[j]
  {
  }

  /** The stored row belongs to the caller and is active. */
  lemma NewMonitorFacts(body: Record, uid: int)
    ensures "id" !in NewMonitor(body, uid) && "active" in NewMonitor(body, uid)
    ensures IsActive(NewMonitor(body, uid))
    ensures OwnedBy(NewMonitor(body, uid), uid)
  {
    var d := Defaulted(body, uid);
    DefaultedOwned(body, uid);
    DefaultedActive(body, uid);
    WithoutIdKeeps(d, uid);
  }

  /** Dropping `id` keeps a record's owner and activity. */
  lemma WithoutIdKeeps(d: Record, uid: int)
    requires IsActive(d) && OwnedBy(d, uid)
    ensures "id" !in d - {"id"} && "active" in d - {"id"}
    ensures IsActive(d - {"id"}) && OwnedBy(d - {"id"}, uid)
  {
    assert (d - {"id"})["active"] == d["active"];
    assert Field(d - {"id"}, "user_id") == Field(d, "user_id");
  }

  /** Every defaulted member is present, and truthy or already its default,
      so the create defaults would change none of them. */
  ghost predicate KeepsDefaults(r: Record) {
    forall i :: 0 <= i < |MonitorDefaults| ==>
      MonitorDefaults[i].0 in r && (IsSet(r, MonitorDefaults[i].0) || r[MonitorDefaults[i].0] == MonitorDefaults[i].1)
  }

  /** A body that keeps its defaults is stored as given, owned by the caller. */
  lemma DefaultedKeepsDefaults(body: Record, uid: int)
    requires KeepsDefaults(body)
    ensures Defaulted(body, uid) == body["user_id" := Num(uid)]
  {
    MonitorDefaultsFacts();
    var data := body["user_id" := Num(uid)];
    forall i | 0 <= i < |MonitorDefaults|
      ensures MonitorDefaults[i].0 in data
      ensures IsSet(data, MonitorDefaults[i].0) || data[MonitorDefaults[i].0] == MonitorDefaults[i].1
    {
      assert MonitorDefaults[i].0 in DefaultedKeys;
    }
    WithDefaultsKeeps(data, MonitorDefaults);
  }

  /** The stored `active` is the body's when truthy and 1 otherwise. */
  lemma DefaultedActiveValue(body: Record, uid: int)
    ensures "active" in Defaulted(body, uid)
    ensures Defaulted(body, uid)["active"] == if IsSet(body, "active") then body["active"] else Num(1)
  {
    var owned := body["user_id" := Num(uid)];
    assert MonitorDefaults[4] == ("active", Num(1));
    assert IsSet(owned, "active") == IsSet(body, "active");
  }

  /** The stored `interval` is the body's when truthy and 60 otherwise. */
  lemma DefaultedInterval(body: Record, uid: int)
    ensures Defaulted(body, uid)["interval"] == if IsSet(body, "interval") then body["interval"] else Num(60)
  {
    var owned := body["user_id" := Num(uid)];
    assert MonitorDefaults[0] == ("interval", Num(60));
    assert IsSet(owned, "interval") == IsSet(body, "interval");
  }

  /** Every defaulted member holds the body's value when that is truthy and the
      default otherwise; the members are those of the body, the defaulted ones
      and the owner. */
  lemma DefaultedMembers(body: Record, uid: int)
    ensures Defaulted(body, uid).Keys == body.Keys + DefaultedKeys + {"user_id"}
    ensures forall i :: 0 <= i < |MonitorDefaults| ==>
      var (k, d) := MonitorDefaults[i];
      Defaulted(body, uid)[k] == if IsSet(body, k) then body[k] else d
  {
    MonitorDefaultsFacts();
    var owned := body["user_id" := Num(uid)];
    forall i | 0 <= i < |MonitorDefaults|
      ensures var (k, d) := MonitorDefaults[i];
        Defaulted(body, uid)[k] == if IsSet(body, k) then body[k] else d
    {
      var (k, d) := MonitorDefaults[i];
      assert k in DefaultedKeys;
      assert IsSet(owned, k) == IsSet(body, k);
    }
  }

  /** Every other member of the body is stored as given. */
  lemma DefaultedKeepsBody(body: Record, uid: int)
    ensures forall k :: k in body && k != "user_id" && k !in DefaultedKeys ==>
      Defaulted(body, uid)[k] == body[k]
  {
    var owned := body["user_id" := Num(uid)];
    forall k | k in body && k != "user_id" && k !in DefaultedKeys
      ensures Defaulted(body, uid)[k] == body[k]
    {
      assert k in owned && owned[k] == body[k];
    }
  }

  /** Even a body that asks for `active: 0` creates a running monitor; a
      truthy `active` is kept as given. */
  lemma CreatedMonitorIsActive(body: Record, uid: int)
    requires IsSet(body, "name") && IsSet(body, "type") && IsSet(body, "url")
    ensures PrepareMonitor(body, uid).Some?
    ensures PrepareMonitor(body, uid).value["active"] ==
      if IsSet(body, "active") then body["active"] else Num(1)
  {
    DefaultedMembers(body, uid);
    MonitorDefaultsFacts();
  }

  // ----- PUT /monitors/:id -----

  /** Members of an update body that are dropped before it is applied. */
  const Protected: set<string> := {"id", "user_id"}

  /** `Object.assign(monitor, data)` after `delete data.user_id; delete data.id`. */
  function ApplyUpdate(record: Record, body: Record): (r: Record)
    ensures r.Keys == record.Keys + (body.Keys - Protected)
    ensures forall k :: k in Protected ==> Field(r, k) == Field(record, k)
    ensures forall k :: k in body && k !in Protected ==> r[k] == body[k]
    ensures forall k :: k in record && k !in body ==> r[k] == record[k]
  {
    record + (body - Protected)
  }

  /** An update keeps a stored row without `id`, with `active`, and with its owner. */
  lemma ApplyUpdateKeepsRow(record: Record, body: Record, uid: int)
    requires "id" !in record && "active" in record && OwnedBy(record, uid)
    ensures "id" !in ApplyUpdate(record, body) && "active" in ApplyUpdate(record, body)
    ensures OwnedBy(ApplyUpdate(record, body), uid)
  {
    assert "id" in Protected && "user_id" in Protected;
  }

  // ----- the scheduler -----

  /** A call the router makes on the scheduler: `monitor.start(io)` or `monitor.stop()`. */
  datatype Call = Start(id: int) | Stop(id: int)

  /** The set of running monitors after a sequence of calls. */
  function Apply(running: set<int>, calls: seq<Call>): set<int>
    decreases |calls|
  {
    if calls == [] then running
    else
      var next := match calls[0]
        case Start(i) => running + {i}
        case Stop(i) => running - {i};
      Apply(next, calls[1..])
  }

  /** The calls the update route makes after storing the record. */
  function ReconcileCalls(id: int, wasActive: bool, nowActive: bool): (calls: seq<Call>)
    ensures |calls| <= 2
    ensures forall c :: c in calls ==> c.id == id
    ensures calls != [] ==> calls[|calls| - 1] == if nowActive then Start(id) else Stop(id)
    ensures calls == [] <==> !wasActive && !nowActive
  {
    if wasActive && !nowActive then [Stop(id)]
    else if !wasActive && nowActive then [Start(id)]
    else if nowActive then [Stop(id), Start(id)]
    else []
  }

  /** Whatever the old and new activity, the update route leaves the monitor
      running exactly when it is now active, and touches no other monitor;
      a monitor that stays active is restarted, one that stays inactive is left alone. */
  lemma ReconcileKeepsSchedulerInSync(running: set<int>, id: int, wasActive: bool, nowActive: bool)
    requires id in running <==> wasActive
    ensures Apply(running, ReconcileCalls(id, wasActive, nowActive)) ==
      if nowActive then running + {id} else running - {id}
    ensures wasActive && nowActive ==> ReconcileCalls(id, wasActive, nowActive) == [Stop(id), Start(id)]
    ensures !wasActive && !nowActive ==> ReconcileCalls(id, wasActive, nowActive) == []
  {
    var calls := ReconcileCalls(id, wasActive, nowActive);
    if |calls| == 2 {
      assert calls[1..] == [Start(id)];
      assert Apply(running, calls) == Apply(running - {id}, [Start(id)]);
      assert Apply(running - {id}, [Start(id)]) == Apply(running - {id} + {id}, []);
    } else if |calls| == 1 {
      assert calls[1..] == [];
    }
  }

  // ----- ORDER BY of the list routes -----

  /** `ORDER BY k ASC` on rows. */
  predicate FieldLe(k: string, a: Row, b: Row) {
    ValueLe(Field(a.1, k), Field(b.1, k))
  }

  lemma FieldLeFacts(k: string)
    ensures forall a, b :: FieldLe(k, a, b) || FieldLe(k, b, a)
    ensures forall a, b, c :: FieldLe(k, a, b) && FieldLe(k, b, c) ==> FieldLe(k, a, c)
  {
    forall a: Row, b: Row
      ensures FieldLe(k, a, b) || FieldLe(k, b, a)
    {
      ValueLeTotal(Field(a.1, k), Field(b.1, k));
    }
    forall a: Row, b: Row, c: Row | FieldLe(k, a, b) && FieldLe(k, b, c)
      ensures FieldLe(k, a, c)
    {
      ValueLeTransitive(Field(a.1, k), Field(b.1, k), Field(c.1, k));
    }
  }

  /** Monitors: `ORDER BY weight DESC, name ASC`. */
  predicate MonitorOrder(a: Row, b: Row) {
    if !FieldLe("weight", a, b) then true
    else if !FieldLe("weight", b, a) then false
    else FieldLe("name", a, b)
  }

  /** Status pages: `ORDER BY title ASC`. */
  predicate TitleOrder(a: Row, b: Row) {
    FieldLe("title", a, b)
  }

  /** Tags: `ORDER BY name ASC`. */
  predicate NameOrder(a: Row, b: Row) {
    FieldLe("name", a, b)
  }

  /** Maintenance windows: `ORDER BY created_date DESC`. */
  predicate NewestCreatedFirst(a: Row, b: Row) {
    FieldLe("created_date", b, a)
  }

  lemma MonitorOrderIsTotalPreorder()
    ensures TotalPreorder(MonitorOrder)
  {
    FieldLeFacts("weight");
    FieldLeFacts("name");
  }

  lemma RowOrdersAreTotalPreorders()
    ensures TotalPreorder(TitleOrder)
    ensures TotalPreorder(NameOrder)
    ensures TotalPreorder(NewestCreatedFirst)
  {
    FieldLeFacts("title");
    FieldLeFacts("name");
    FieldLeFacts("created_date");
  }

  // ----- GET /monitors/:id/heartbeats -----

  /** A heartbeat row: the result of one check of one monitor. Status codes are
      DOWN 0, UP 1, PENDING 2, MAINTENANCE 3. */
  datatype Heartbeat = Heartbeat(monitorId: int, status: int, time: int, ping: int, msg: string)

  /** `ORDER BY time DESC`. */
  predicate NewestFirst(a: Heartbeat, b: Heartbeat) {
    a.time >= b.time
  }

  lemma NewestFirstIsTotalPreorder()
    ensures TotalPreorder(NewestFirst)
  {
  }

  /** `WHERE monitor_id = ?`, keeping the rows' order. */
  function HeartbeatsOf(hbs: seq<Heartbeat>, id: int): (r: seq<Heartbeat>)
    ensures |r| <= |hbs|
    ensures forall h :: h in r <==> h in hbs && h.monitorId == id
    ensures forall h :: multiset(r)[h] == if h.monitorId == id then multiset(hbs)[h] else 0
  {
    if hbs == [] then []
    else
      var rest := HeartbeatsOf(hbs[1..], id);
      assert hbs == [hbs[0]] + hbs[1..];
      if hbs[0].monitorId == id then [hbs[0]] + rest else rest
  }

  /** The heartbeats that remain once a monitor and its related rows are deleted. */
  function WithoutMonitor(hbs: seq<Heartbeat>, id: int): (r: seq<Heartbeat>)
    ensures forall h :: h in r <==> h in hbs && h.monitorId != id
    ensures forall h :: multiset(r)[h] == if h.monitorId != id then multiset(hbs)[h] else 0
  {
    if hbs == [] then []
    else
      var rest := WithoutMonitor(hbs[1..], id);
      assert hbs == [hbs[0]] + hbs[1..];
      if hbs[0].monitorId == id then rest else [hbs[0]] + rest
  }

  /** The rows an `OFFSET` skips: a negative offset skips none. */
  function Skipped(offset: int): nat {
    if offset < 0 then 0 else offset
  }

  /** `LIMIT limit OFFSET offset`, where a negative limit sets no bound and a
      negative offset counts as zero. */
  function Window<T>(s: seq<T>, offset: int, limit: int): (r: seq<T>)
    ensures |r| == if Skipped(offset) >= |s| then 0
                   else if 0 <= limit < |s| - Skipped(offset) then limit
                   else |s| - Skipped(offset)
    ensures forall i :: 0 <= i < |r| ==> r[i] == s[Skipped(offset) + i]
  {
    var start := Skipped(offset);
    if start >= |s| then []
    else if 0 <= limit < |s| - start then s[start..start + limit]
    else s[start..]
  }

  /** `parseInt(req.query.limit) || 100`: never zero, and negative when the
      text is a negative number. */
  function QueryLimit(q: Option<string>): (n: int)
    ensures n != 0
    ensures q.Some? && ParseInt(q.value).Some? && ParseInt(q.value).value != 0 ==> n == ParseInt(q.value).value
    ensures q.None? || ParseInt(q.value).None? || ParseInt(q.value).value == 0 ==> n == 100
  {
    match q
    case None => 100
    case Some(t) =>
      match ParseInt(t)
      case None => 100
      case Some(v) => if v == 0 then 100 else v
  }

  /** `parseInt(req.query.offset) || 0`. */
  function QueryOffset(q: Option<string>): (n: int)
    ensures q.Some? && ParseInt(q.value).Some? ==> n == ParseInt(q.value).value
    ensures q.None? || ParseInt(q.value).None? ==> n == 0
  {
    match q
    case None => 0
    case Some(t) =>
      match ParseInt(t)
      case None => 0
      case Some(v) => v
  }

  /** The heartbeats the route answers: that monitor's heartbeats newest
      first, the first `offset` of them skipped, at most `limit` of them when
      the limit is positive and all the rest when it is negative. */
  function HeartbeatPage(hbs: seq<Heartbeat>, id: int, limitQ: Option<string>, offsetQ: Option<string>): (r: seq<Heartbeat>)
    ensures QueryLimit(limitQ) > 0 ==> |r| <= QueryLimit(limitQ)
    ensures forall h :: h in r ==> h in hbs && h.monitorId == id
    ensures Sorted(r, NewestFirst)
    ensures var n, skip, limit := |HeartbeatsOf(hbs, id)|, Skipped(QueryOffset(offsetQ)), QueryLimit(limitQ);
      |r| == if skip >= n then 0 else if 0 <= limit < n - skip then limit else n - skip
    ensures exists all: seq<Heartbeat> ::
      && multiset(all) == multiset(HeartbeatsOf(hbs, id))
      && Sorted(all, NewestFirst)
      && Slice(r, all, Skipped(QueryOffset(offsetQ)))
  {
    var hb := HeartbeatsOf(hbs, id);
    var all := Sort(hb, NewestFirst);
    NewestFirstIsTotalPreorder();
    SortSorted(hb, NewestFirst);
    var r := Window(all, QueryOffset(offsetQ), QueryLimit(limitQ));
    WindowOfSorted(all, QueryOffset(offsetQ), QueryLimit(limitQ), NewestFirst);
    assert forall h :: h in r ==> h in multiset(all) && h in multiset(hb) && h in hb;
    assert multiset(all) == multiset(hb);
    r
  }

  /** `r` is the run of `s` that starts at index `start`. */
  ghost predicate Slice<T>(r: seq<T>, s: seq<T>, start: nat) {
    forall i :: 0 <= i < |r| ==> start + i < |s| && r[i] == s[start + i]
  }

  /** A window of a sorted sequence is sorted, and holds only its elements. */
  lemma WindowOfSorted<T>(s: seq<T>, offset: int, limit: int, le: (T, T) -> bool)
    requires Sorted(s, le)
    ensures Sorted(Window(s, offset, limit), le)
    ensures forall x :: x in Window(s, offset, limit) ==> x in s
    ensures Slice(Window(s, offset, limit), s, Skipped(offset))
  {
    var r := Window(s, offset, limit);
    forall i, j | 0 <= i < j < |r|
      ensures le(r[i], r[j])
    {
      assert r[i] == s[Skipped(offset) + i] && r[j] == s[Skipped(offset) + j];
    }
    forall x | x in r
      ensures x in s
    {
      var i :| 0 <= i < |r| && r[i] == x;
      assert s[Skipped(offset) + i] == x;
    }
  }

  // ----- GET /status-pages/:slug -----

  /** The monitors linked to a status page, looked up by id alone: `id IN
      (...)` gives each existing monitor once, however often it is linked. */
  function LinkedMonitors(links: seq<(int, int)>, pageId: int, monitors: map<int, Record>): (r: seq<Row>)
    ensures forall row :: row in r ==> (pageId, row.0) in links && row.0 in monitors && monitors[row.0] == row.1
    ensures forall m :: (pageId, m) in links && m in monitors ==> (m, monitors[m]) in r
    ensures forall i, j :: 0 <= i < j < |r| ==> r[i].0 != r[j].0
  {
    if links == [] then []
    else
      var rest := LinkedMonitors(links[1..], pageId, monitors);
      assert forall l :: l in links ==> l == links[0] || l in links[1..];
      var (p, m) := links[0];
      if p == pageId && m in monitors && (m, monitors[m]) !in rest then
        var r := [(m, monitors[m])] + rest;
        assert forall j :: 0 < j < |r| ==> r[j] == rest[j - 1] && r[j] in rest;
        r
      else rest
  }
}
