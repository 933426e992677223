/** The v2 API router: every route as one atomic step on the store of records
    and on the monitor scheduler. Each route resolves the caller, looks the row
    up scoped by owner, validates the body, changes the store, then starts or
    stops the monitor, and answers a status code with a body. */
module Router {
  import opened Json
  import opened Sorting
  import opened Auth
  import opened Monitors

  /** The host's monitor scheduler: which monitors run, and the calls made on it. */
  class Scheduler {
    var running: set<int>
    var calls: seq<Call>

    constructor ()
      ensures running == {} && calls == []
    {
      running := {};
      calls := [];
    }

    /** `monitor.start(server.io)`. */
    method Start(id: int)
      modifies this
      ensures running == old(running) + {id}
      ensures calls == old(calls) + [Call.Start(id)]
    {
      running := running + {id};
      calls := calls + [Call.Start(id)];
    }

    /** `monitor.stop()`. */
    method Stop(id: int)
      modifies this
      ensures running == old(running) - {id}
      ensures calls == old(calls) + [Call.Stop(id)]
    {
      running := running - {id};
      calls := calls + [Call.Stop(id)];
    }

    /** The calls the update route makes once the record is stored: stop a
        monitor that was paused, start one that was resumed, restart one
        that stays active. */
    method Reconcile(id: int, wasActive: bool, nowActive: bool)
      requires id in running <==> wasActive
      modifies this
      ensures calls == old(calls) + ReconcileCalls(id, wasActive, nowActive)
      ensures running == Apply(old(running), ReconcileCalls(id, wasActive, nowActive))
      ensures running == if nowActive then old(running) + {id} else old(running) - {id}
    {
      ReconcileKeepsSchedulerInSync(running, id, wasActive, nowActive);
      if wasActive && !nowActive {
        Stop(id);
      } else if !wasActive && nowActive {
        Start(id);
      } else if nowActive {
        Stop(id);
        Start(id);
      }
    }
  }

  /** What a route answers; the JSON rendering of rows (`toJSON`) is RowJson
      and MonitorJson. */
  datatype Body =
    | Error(message: string)
    | Item(record: Record)
    | MonitorRows(rows: seq<Row>, latest: seq<Value>)
    | Rows(rows: seq<Row>)
    | Message(text: string)
    | ActiveState(text: string, active: Value)
    | Heartbeats(beats: seq<Heartbeat>)
    | PageWithMonitors(page: Row, monitors: seq<Row>)
    | Info(version: string, monitorCount: nat, serverTime: string)

  datatype Response = Response(status: int, body: Body)

  const Unauthorized := Response(401, Error("Unauthorized"))
  const InternalError := Response(500, Error("Internal server error"))
  const MonitorNotFound := Response(404, Error("Monitor not found"))

  /** The answer to a request whose caller is not a known active user. */
  function Refusal(c: Caller): (r: Response)
    requires !c.Known?
    ensures r.status == if c.Anonymous? then 401 else 500
  {
    if c.Anonymous? then Unauthorized else InternalError
  }

  predicate Owns(table: map<int, Record>, id: int, uid: int) {
    id in table && OwnedBy(table[id], uid)
  }

  /** `R.count(table, "user_id = ?")`. */
  function OwnedIds(table: map<int, Record>, uid: int): set<int> {
    set id | id in table && OwnedBy(table[id], uid)
  }

  function ActiveIds(monitors: map<int, Record>): set<int> {
    set id | id in monitors && IsActive(monitors[id])
  }

  /** A table's keys are below the next free key and no stored row carries its
      key as a column. */
  ghost predicate TableValid(table: map<int, Record>, nextId: int) {
    forall id :: id in table ==> id < nextId && "id" !in table[id]
  }

  /** No two status pages, whoever owns them, share a slug. */
  ghost predicate SlugsUnique(pages: map<int, Record>) {
    forall a, b :: a in pages && b in pages && a != b ==> Field(pages[a], "slug") != Field(pages[b], "slug")
  }

  /** `rows` are the owner's rows of the table, each exactly once. */
  ghost predicate ListsOwned(rows: seq<Row>, table: map<int, Record>, uid: int) {
    && (forall i :: 0 <= i < |rows| ==> Owns(table, rows[i].0, uid) && table[rows[i].0] == rows[i].1)
    && (forall id :: Owns(table, id, uid) ==> (id, table[id]) in rows)
    && Distinct(rows)
  }

  method Pick<K>(s: set<K>) returns (x: K)
    requires s != {}
    ensures x in s
  {
    x :| x in s;
  }

  /** `R.find(table, "user_id = ?")` before its ORDER BY. */
  method OwnedRows(table: map<int, Record>, uid: int) returns (rows: seq<Row>)
    ensures ListsOwned(rows, table, uid)
  {
    rows := [];
    var rest := table.Keys;
    while rest != {}
      invariant rest <= table.Keys
      invariant forall i :: 0 <= i < |rows| ==>
        Owns(table, rows[i].0, uid) && table[rows[i].0] == rows[i].1 && rows[i].0 !in rest
      invariant forall id :: Owns(table, id, uid) && id !in rest ==> (id, table[id]) in rows
      invariant Distinct(rows)
      decreases rest
    {
      var id := Pick(rest);
      if OwnedBy(table[id], uid) {
        rows := rows + [(id, table[id])];
      }
      rest := rest - {id};
    }
  }

  /** Sorting a listing keeps it a listing. */
  lemma ListsOwnedPermutation(a: seq<Row>, b: seq<Row>, table: map<int, Record>, uid: int)
    requires ListsOwned(a, table, uid)
    requires multiset(a) == multiset(b)
    ensures ListsOwned(b, table, uid)
  {
    PermutationKeepsDistinct(a, b);
    forall i | 0 <= i < |b|
      ensures Owns(table, b[i].0, uid) && table[b[i].0] == b[i].1
    {
      assert b[i] in multiset(a);
    }
    forall id | Owns(table, id, uid)
      ensures (id, table[id]) in b
    {
      assert (id, table[id]) in multiset(b);
    }
  }

  function IdsOf(rows: seq<Row>): set<int> {
    set row | row in rows :: row.0
  }

  lemma {:induction false} DistinctIdsCount(rows: seq<Row>)
    requires forall i, j :: 0 <= i < j < |rows| ==> rows[i].0 != rows[j].0
    ensures |IdsOf(rows)| == |rows|
  {
    if rows != [] {
      var init := rows[..|rows| - 1];
      DistinctIdsCount(init);
      assert IdsOf(rows) == IdsOf(init) + {rows[|rows| - 1].0};
      assert rows[|rows| - 1].0 !in IdsOf(init);
    }
  }

  /** A listing of the owner's monitors is as long as `/info` counts them. */
  lemma ListingCount(rows: seq<Row>, table: map<int, Record>, uid: int)
    requires ListsOwned(rows, table, uid)
    ensures |rows| == |OwnedIds(table, uid)|
  {
    forall i, j | 0 <= i < j < |rows|
      ensures rows[i].0 != rows[j].0
    {
      assert rows[i] != rows[j];
      assert rows[i].1 == table[rows[i].0] && rows[j].1 == table[rows[j].0];
    }
    DistinctIdsCount(rows);
    assert IdsOf(rows) == OwnedIds(table, uid) by {
      forall id | id in OwnedIds(table, uid)
        ensures id in IdsOf(rows)
      {
        var i :| 0 <= i < |rows| && rows[i] == (id, table[id]);
      }
    }
  }

  /** The store is well formed and the scheduler runs exactly the active monitors. */
  ghost predicate StoreValid(monitors: map<int, Record>, pages: map<int, Record>, tags: map<int, Record>,
                             maintenances: map<int, Record>, nextId: int, running: set<int>)
  {
    && TableValid(monitors, nextId)
    && TableValid(pages, nextId)
    && TableValid(tags, nextId)
    && TableValid(maintenances, nextId)
    && (forall id :: id in monitors ==> "active" in monitors[id])
    && SlugsUnique(pages)
    && running == ActiveIds(monitors)
  }

  /** Storing a new monitor under the next key, and starting it when it is
      active, keeps the store valid. */
  lemma InsertMonitorKeepsValid(monitors: map<int, Record>, pages: map<int, Record>, tags: map<int, Record>,
                                maintenances: map<int, Record>, nextId: int, running: set<int>, r: Record)
    requires StoreValid(monitors, pages, tags, maintenances, nextId, running)
    requires "id" !in r && "active" in r
    ensures nextId !in monitors
    ensures StoreValid(monitors[nextId := r], pages, tags, maintenances, nextId + 1,
                       if IsActive(r) then running + {nextId} else running)
  {
    assert ActiveIds(monitors[nextId := r]) == if IsActive(r) then running + {nextId} else running;
  }

  /** Replacing a monitor, and starting or stopping it to follow `active`,
      keeps the store valid. */
  lemma ReplaceMonitorKeepsValid(monitors: map<int, Record>, pages: map<int, Record>, tags: map<int, Record>,
                                 maintenances: map<int, Record>, nextId: int, running: set<int>, id: int, r: Record)
    requires StoreValid(monitors, pages, tags, maintenances, nextId, running)
    requires id in monitors && "id" !in r && "active" in r
    ensures StoreValid(monitors[id := r], pages, tags, maintenances, nextId,
                       if IsActive(r) then running + {id} else running - {id})
  {
    assert ActiveIds(monitors[id := r]) == if IsActive(r) then running + {id} else running - {id};
  }

  /** Removing a stopped monitor keeps the store valid. */
  lemma DeleteMonitorKeepsValid(monitors: map<int, Record>, pages: map<int, Record>, tags: map<int, Record>,
                                maintenances: map<int, Record>, nextId: int, running: set<int>, id: int)
    requires StoreValid(monitors, pages, tags, maintenances, nextId, running)
    ensures StoreValid(monitors - {id}, pages, tags, maintenances, nextId, running - {id})
  {
    assert ActiveIds(monitors - {id}) == running - {id};
  }

  /** A status page whose slug no page holds can be added without breaking
      the uniqueness of slugs. */
  lemma InsertPageKeepsValid(monitors: map<int, Record>, pages: map<int, Record>, tags: map<int, Record>,
                             maintenances: map<int, Record>, nextId: int, running: set<int>, r: Record)
    requires StoreValid(monitors, pages, tags, maintenances, nextId, running)
    requires "id" !in r
    requires forall k :: k in pages ==> Field(pages[k], "slug") != Field(r, "slug")
    ensures StoreValid(monitors, pages[nextId := r], tags, maintenances, nextId + 1, running)
  {
    assert TableValid(pages[nextId := r], nextId + 1);
    assert SlugsUnique(pages[nextId := r]);
  }

  lemma InsertTagKeepsValid(monitors: map<int, Record>, pages: map<int, Record>, tags: map<int, Record>,
                            maintenances: map<int, Record>, nextId: int, running: set<int>, r: Record)
    requires StoreValid(monitors, pages, tags, maintenances, nextId, running)
    requires "id" !in r
    ensures StoreValid(monitors, pages, tags[nextId := r], maintenances, nextId + 1, running)
  {
    assert TableValid(tags[nextId := r], nextId + 1);
  }

  lemma InsertMaintenanceKeepsValid(monitors: map<int, Record>, pages: map<int, Record>, tags: map<int, Record>,
                                    maintenances: map<int, Record>, nextId: int, running: set<int>, r: Record)
    requires StoreValid(monitors, pages, tags, maintenances, nextId, running)
    requires "id" !in r
    ensures StoreValid(monitors, pages, tags, maintenances[nextId := r], nextId + 1, running)
  {
    assert TableValid(maintenances[nextId := r], nextId + 1);
  }

  /** A stored maintenance window has no `id`, carries the server's creation
      time and belongs to the caller. */
  lemma MaintenanceRow(body: Record, uid: int, now: string)
    ensures var m := (body["user_id" := Num(uid)] - {"id"})["created_date" := Str(now)];
      && "id" !in m && "created_date" in m && m["created_date"] == Str(now) && OwnedBy(m, uid)
  {
    var m := (body["user_id" := Num(uid)] - {"id"})["created_date" := Str(now)];
    assert Field(m, "user_id") == Num(uid);
  }

  /** The router with its store. Users, the status-page links and the base64
      decoder are given; the tables are what the routes change. */
  class Api {
    const users: seq<User>
    const decode: string -> string
    const links: seq<(int, int)>
    const scheduler: Scheduler
    var monitors: map<int, Record>
    var heartbeats: seq<Heartbeat>
    var statusPages: map<int, Record>
    var tags: map<int, Record>
    var maintenances: map<int, Record>
    var nextId: int

    /** The store is well formed and every monitor runs exactly when it is active. */
    ghost predicate Valid()
      reads this, scheduler
    {
      StoreValid(monitors, statusPages, tags, maintenances, nextId, scheduler.running)
    }

    /** The tables no monitor route touches. */
    ghost function Others(): (map<int, Record>, map<int, Record>, map<int, Record>)
      reads this
    {
      (statusPages, tags, maintenances)
    }

    constructor (users: seq<User>, decode: string -> string, heartbeats: seq<Heartbeat>, links: seq<(int, int)>)
      ensures Valid() && fresh(scheduler)
      ensures this.users == users && this.decode == decode && this.links == links
      ensures this.heartbeats == heartbeats && scheduler.calls == []
      ensures monitors == map[] && statusPages == map[] && tags == map[] && maintenances == map[]
    {
      this.users := users;
      this.decode := decode;
      this.links := links;
      this.heartbeats := heartbeats;
      scheduler := new Scheduler();
      monitors := map[];
      statusPages := map[];
      tags := map[];
      maintenances := map[];
      nextId := 1;
    }

    function CallerOf(header: Option<string>): Caller {
      ResolveCaller(header, decode, users)
    }

    // ===== MONITORS =====

    /** GET /monitors: the caller's monitors, each once, heaviest first and then
        by name, each with its latest heartbeat. */
    method ListMonitors(header: Option<string>, latest: int -> Option<Value>) returns (r: Response)
      requires Valid()
      ensures !CallerOf(header).Known? ==> r == Refusal(CallerOf(header))
      ensures CallerOf(header).Known? ==>
        && r.status == 200 && r.body.MonitorRows?
        && ListsOwned(r.body.rows, monitors, CallerOf(header).user.id)
        && Sorted(r.body.rows, MonitorOrder)
        && |r.body.latest| == |r.body.rows|
        && forall i :: 0 <= i < |r.body.rows| ==> r.body.latest[i] == LatestJson(latest(r.body.rows[i].0))
    {
      var caller := CallerOf(header);
      if !caller.Known? {
        return Refusal(caller);
      }
      var rows := OwnedRows(monitors, caller.user.id);
      var sorted := Sort(rows, MonitorOrder);
      MonitorOrderIsTotalPreorder();
      SortSorted(rows, MonitorOrder);
      ListsOwnedPermutation(rows, sorted, monitors, caller.user.id);
      var beats := seq(|sorted|, i requires 0 <= i < |sorted| => LatestJson(latest(sorted[i].0)));
      r := Response(200, MonitorRows(sorted, beats));
    }

    /** GET /monitors/:id. */
    method GetMonitor(header: Option<string>, id: int, latest: int -> Option<Value>) returns (r: Response)
      requires Valid()
      ensures !CallerOf(header).Known? ==> r == Refusal(CallerOf(header))
      ensures CallerOf(header).Known? && !Owns(monitors, id, CallerOf(header).user.id) ==> r == MonitorNotFound
      ensures CallerOf(header).Known? && Owns(monitors, id, CallerOf(header).user.id) ==>
        r == Response(200, Item(MonitorJson((id, monitors[id]), LatestJson(latest(id)))))
    {
      var caller := CallerOf(header);
      if !caller.Known? {
        return Refusal(caller);
      }
      if !Owns(monitors, id, caller.user.id) {
        return MonitorNotFound;
      }
      r := Response(200, Item(MonitorJson((id, monitors[id]), LatestJson(latest(id)))));
    }

    /** POST /monitors: a valid body is stored, owned by the caller, with its
        defaults, and started once; otherwise nothing changes. */
    method CreateMonitor(header: Option<string>, body: Record) returns (r: Response)
      requires Valid()
      modifies this, scheduler
      ensures Valid()
      ensures !CallerOf(header).Known? ==> r == Refusal(CallerOf(header)) && unchanged(this, scheduler)
      ensures CallerOf(header).Known? && PrepareMonitor(body, CallerOf(header).user.id).None? ==>
        r == Response(400, Error("Missing required fields: name, type, url")) && unchanged(this, scheduler)
      ensures CallerOf(header).Known? && PrepareMonitor(body, CallerOf(header).user.id).Some? ==>
        var id := old(nextId);
        var stored := NewMonitor(body, CallerOf(header).user.id);
        && id !in old(monitors)
        && monitors == old(monitors)[id := stored]
        && scheduler.calls == old(scheduler.calls) + [Call.Start(id)]
        && r == Response(201, Item(RowJson((id, stored))))
        && nextId == id + 1 && heartbeats == old(heartbeats) && Others() == old(Others())
    {
      var caller := CallerOf(header);
      if !caller.Known? {
        return Refusal(caller);
      }
      var data := PrepareMonitor(body, caller.user.id);
      if data.None? {
        return Response(400, Error("Missing required fields: name, type, url"));
      }
      var monitor := NewMonitor(body, caller.user.id);
      NewMonitorFacts(body, caller.user.id);
      var id := StoreMonitor(monitor);
      r := Response(201, Item(RowJson((id, monitor))));
    }

    /** `R.store` of a new monitor under the next key, then `monitor.start`
        when it is active. */
    method StoreMonitor(monitor: Record) returns (id: int)
      requires Valid() && "id" !in monitor && "active" in monitor
      modifies this, scheduler
      ensures Valid()
      ensures id == old(nextId) && id !in old(monitors) && nextId == id + 1
      ensures monitors == old(monitors)[id := monitor]
      ensures scheduler.calls == old(scheduler.calls) + if IsActive(monitor) then [Call.Start(id)] else []
      ensures heartbeats == old(heartbeats) && Others() == old(Others())
    {
      id := nextId;
      InsertMonitorKeepsValid(monitors, statusPages, tags, maintenances, nextId, scheduler.running, monitor);
      monitors := monitors[id := monitor];
      nextId := nextId + 1;
      if IsActive(monitor) {
        scheduler.Start(id);
      }
    }

    /** PUT /monitors/:id: the body is merged into the caller's monitor except
        for `id` and `user_id`, and the scheduler follows the new `active`. */
    method UpdateMonitor(header: Option<string>, id: int, body: Record) returns (r: Response)
      requires Valid()
      modifies this, scheduler
      ensures Valid()
      ensures !CallerOf(header).Known? ==> r == Refusal(CallerOf(header)) && unchanged(this, scheduler)
      ensures CallerOf(header).Known? && !Owns(old(monitors), id, CallerOf(header).user.id) ==>
        r == MonitorNotFound && unchanged(this, scheduler)
      ensures CallerOf(header).Known? && Owns(old(monitors), id, CallerOf(header).user.id) ==>
        var was := old(monitors)[id];
        var now := ApplyUpdate(was, body);
        && monitors == old(monitors)[id := now]
        && OwnedBy(now, CallerOf(header).user.id)
        && scheduler.calls == old(scheduler.calls) + ReconcileCalls(id, IsActive(was), IsActive(now))
        && r == Response(200, Item(RowJson((id, now))))
        && nextId == old(nextId) && heartbeats == old(heartbeats) && Others() == old(Others())
    {
      var caller := CallerOf(header);
      if !caller.Known? {
        return Refusal(caller);
      }
      if !Owns(monitors, id, caller.user.id) {
        return MonitorNotFound;
      }
      var monitor := monitors[id];
      var wasActive := IsActive(monitor);
      ApplyUpdateKeepsRow(monitor, body, caller.user.id);
      monitor := ApplyUpdate(monitor, body);
      ReplaceMonitorKeepsValid(monitors, statusPages, tags, maintenances, nextId, scheduler.running, id, monitor);
      monitors := monitors[id := monitor];
      scheduler.Reconcile(id, wasActive, IsActive(monitor));
      r := Response(200, Item(RowJson((id, monitor))));
    }

    /** DELETE /monitors/:id: an active monitor is stopped, then the monitor
        and its heartbeats are removed. */
    method DeleteMonitor(header: Option<string>, id: int) returns (r: Response)
      requires Valid()
      modifies this, scheduler
      ensures Valid()
      ensures !CallerOf(header).Known? ==> r == Refusal(CallerOf(header)) && unchanged(this, scheduler)
      ensures CallerOf(header).Known? && !Owns(old(monitors), id, CallerOf(header).user.id) ==>
        r == MonitorNotFound && unchanged(this, scheduler)
      ensures CallerOf(header).Known? && Owns(old(monitors), id, CallerOf(header).user.id) ==>
        && monitors == old(monitors) - {id}
        && id !in scheduler.running
        && scheduler.calls == old(scheduler.calls) + (if IsActive(old(monitors)[id]) then [Call.Stop(id)] else [])
        && heartbeats == WithoutMonitor(old(heartbeats), id)
        && r == Response(200, Message("Monitor deleted successfully"))
        && nextId == old(nextId) && Others() == old(Others())
    {
      var caller := CallerOf(header);
      if !caller.Known? {
        return Refusal(caller);
      }
      if !Owns(monitors, id, caller.user.id) {
        return MonitorNotFound;
      }
      DeleteMonitorKeepsValid(monitors, statusPages, tags, maintenances, nextId, scheduler.running, id);
      if IsActive(monitors[id]) {
        scheduler.Stop(id);
      } else {
        assert scheduler.running == scheduler.running - {id};
      }
      monitors := monitors - {id};
      heartbeats := WithoutMonitor(heartbeats, id);
      r := Response(200, Message("Monitor deleted successfully"));
    }

    /** POST /monitors/:id/pause: an active monitor is marked inactive and
        stopped; an inactive one is left as it is. The answer's `active` is falsy. */
    method PauseMonitor(header: Option<string>, id: int) returns (r: Response)
      requires Valid()
      modifies this, scheduler
      ensures Valid()
      ensures !CallerOf(header).Known? ==> r == Refusal(CallerOf(header)) && unchanged(this, scheduler)
      ensures CallerOf(header).Known? && !Owns(old(monitors), id, CallerOf(header).user.id) ==>
        r == MonitorNotFound && unchanged(this, scheduler)
      ensures CallerOf(header).Known? && Owns(old(monitors), id, CallerOf(header).user.id) ==>
        && (IsActive(old(monitors)[id]) ==>
              && monitors == old(monitors)[id := old(monitors)[id]["active" := Num(0)]]
              && scheduler.calls == old(scheduler.calls) + [Call.Stop(id)]
              && heartbeats == old(heartbeats) && nextId == old(nextId) && Others() == old(Others()))
        && (!IsActive(old(monitors)[id]) ==> unchanged(this, scheduler))
        && r == Response(200, ActiveState("Monitor paused successfully", monitors[id]["active"]))
        && !Truthy(monitors[id]["active"]) && id !in scheduler.running
    {
      var caller := CallerOf(header);
      if !caller.Known? {
        return Refusal(caller);
      }
      if !Owns(monitors, id, caller.user.id) {
        return MonitorNotFound;
      }
      var monitor := monitors[id];
      if IsActive(monitor) {
        monitor := monitor["active" := Num(0)];
        ReplaceMonitorKeepsValid(monitors, statusPages, tags, maintenances, nextId, scheduler.running, id, monitor);
        monitors := monitors[id := monitor];
        scheduler.Stop(id);
      }
      r := Response(200, ActiveState("Monitor paused successfully", monitor["active"]));
    }

    /** POST /monitors/:id/resume: an inactive monitor is marked active and
        started; an active one is left as it is. The answer's `active` is truthy. */
    method ResumeMonitor(header: Option<string>, id: int) returns (r: Response)
      requires Valid()
      modifies this, scheduler
      ensures Valid()
      ensures !CallerOf(header).Known? ==> r == Refusal(CallerOf(header)) && unchanged(this, scheduler)
      ensures CallerOf(header).Known? && !Owns(old(monitors), id, CallerOf(header).user.id) ==>
        r == MonitorNotFound && unchanged(this, scheduler)
      ensures CallerOf(header).Known? && Owns(old(monitors), id, CallerOf(header).user.id) ==>
        && (!IsActive(old(monitors)[id]) ==>
              && monitors == old(monitors)[id := old(monitors)[id]["active" := Num(1)]]
              && scheduler.calls == old(scheduler.calls) + [Call.Start(id)]
              && heartbeats == old(heartbeats) && nextId == old(nextId) && Others() == old(Others()))
        && (IsActive(old(monitors)[id]) ==> unchanged(this, scheduler))
        && r == Response(200, ActiveState("Monitor resumed successfully", monitors[id]["active"]))
        && Truthy(monitors[id]["active"]) && id in scheduler.running
    {
      var caller := CallerOf(header);
      if !caller.Known? {
        return Refusal(caller);
      }
      if !Owns(monitors, id, caller.user.id) {
        return MonitorNotFound;
      }
      var monitor := monitors[id];
      if !IsActive(monitor) {
        monitor := monitor["active" := Num(1)];
        ReplaceMonitorKeepsValid(monitors, statusPages, tags, maintenances, nextId, scheduler.running, id, monitor);
        monitors := monitors[id := monitor];
        scheduler.Start(id);
      }
      r := Response(200, ActiveState("Monitor resumed successfully", monitor["active"]));
    }

    /** GET /monitors/:id/heartbeats: the monitor's heartbeats newest first,
        past the offset, at most `limit` of them unless the limit is negative. */
    method ListHeartbeats(header: Option<string>, id: int, limit: Option<string>, offset: Option<string>)
      returns (r: Response)
      requires Valid()
      ensures !CallerOf(header).Known? ==> r == Refusal(CallerOf(header))
      ensures CallerOf(header).Known? && !Owns(monitors, id, CallerOf(header).user.id) ==> r == MonitorNotFound
      ensures CallerOf(header).Known? && Owns(monitors, id, CallerOf(header).user.id) ==>
        && r == Response(200, Heartbeats(HeartbeatPage(heartbeats, id, limit, offset)))
        && (QueryLimit(limit) > 0 ==> |r.body.beats| <= QueryLimit(limit))
        && (forall h :: h in r.body.beats ==> h in heartbeats && h.monitorId == id)
        && Sorted(r.body.beats, NewestFirst)
        && exists all: seq<Heartbeat> ::
          && multiset(all) == multiset(HeartbeatsOf(heartbeats, id))
          && Sorted(all, NewestFirst)
          && Slice(r.body.beats, all, Skipped(QueryOffset(offset)))
    {
      var caller := CallerOf(header);
      if !caller.Known? {
        return Refusal(caller);
      }
      if !Owns(monitors, id, caller.user.id) {
        return MonitorNotFound;
      }
      r := Response(200, Heartbeats(HeartbeatPage(heartbeats, id, limit, offset)));
    }

    // ===== STATUS PAGES =====

    /** GET /status-pages: the caller's pages, each once, by title. */
    method ListStatusPages(header: Option<string>) returns (r: Response)
      requires Valid()
      ensures !CallerOf(header).Known? ==> r == Refusal(CallerOf(header))
      ensures CallerOf(header).Known? ==>
        && r.status == 200 && r.body.Rows?
        && ListsOwned(r.body.rows, statusPages, CallerOf(header).user.id)
        && Sorted(r.body.rows, TitleOrder)
    {
      var caller := CallerOf(header);
      if !caller.Known? {
        return Refusal(caller);
      }
      var rows := OwnedRows(statusPages, caller.user.id);
      var sorted := Sort(rows, TitleOrder);
      RowOrdersAreTotalPreorders();
      SortSorted(rows, TitleOrder);
      ListsOwnedPermutation(rows, sorted, statusPages, caller.user.id);
      r := Response(200, Rows(sorted));
    }

    /** GET /status-pages/:slug: the caller's page with that slug, which is the
        only page with it, and the monitors linked to it. */
    method GetStatusPage(header: Option<string>, slug: string) returns (r: Response)
      requires Valid()
      ensures !CallerOf(header).Known? ==> r == Refusal(CallerOf(header))
      ensures CallerOf(header).Known? ==>
        forall k :: Owns(statusPages, k, CallerOf(header).user.id) && Field(statusPages[k], "slug") == Str(slug) ==>
          r == Response(200, PageWithMonitors((k, statusPages[k]), LinkedMonitors(links, k, monitors)))
      ensures CallerOf(header).Known? &&
              (forall k :: Owns(statusPages, k, CallerOf(header).user.id) ==> Field(statusPages[k], "slug") != Str(slug))
              ==> r == Response(404, Error("Status page not found"))
    {
      var caller := CallerOf(header);
      if !caller.Known? {
        return Refusal(caller);
      }
      if k :| k in statusPages && OwnedBy(statusPages[k], caller.user.id) && Field(statusPages[k], "slug") == Str(slug) {
        r := Response(200, PageWithMonitors((k, statusPages[k]), LinkedMonitors(links, k, monitors)));
      } else {
        r := Response(404, Error("Status page not found"));
      }
    }

    /** POST /status-pages: slug and title are required, and a slug held by any
        page of any user is refused, so slugs stay globally unique. */
    method CreateStatusPage(header: Option<string>, body: Record) returns (r: Response)
      requires Valid()
      modifies this
      ensures Valid()
      ensures !CallerOf(header).Known? ==> r == Refusal(CallerOf(header)) && unchanged(this)
      ensures CallerOf(header).Known? && !(IsSet(body, "slug") && IsSet(body, "title")) ==>
        r == Response(400, Error("Missing required fields: slug, title")) && unchanged(this)
      ensures CallerOf(header).Known? && IsSet(body, "slug") && IsSet(body, "title") &&
              (exists k :: k in old(statusPages) && Field(old(statusPages)[k], "slug") == body["slug"])
              ==> r == Response(409, Error("Slug already exists")) && unchanged(this)
      ensures CallerOf(header).Known? && IsSet(body, "slug") && IsSet(body, "title") &&
              (forall k :: k in old(statusPages) ==> Field(old(statusPages)[k], "slug") != body["slug"])
              ==>
        var id := old(nextId);
        var stored := body["user_id" := Num(CallerOf(header).user.id)] - {"id"};
        && statusPages == old(statusPages)[id := stored]
        && r == Response(201, Item(RowJson((id, stored))))
        && nextId == id + 1
        && monitors == old(monitors) && heartbeats == old(heartbeats)
        && tags == old(tags) && maintenances == old(maintenances)
    {
      var caller := CallerOf(header);
      if !caller.Known? {
        return Refusal(caller);
      }
      var data := body["user_id" := Num(caller.user.id)];
      if !IsSet(data, "slug") || !IsSet(data, "title") {
        return Response(400, Error("Missing required fields: slug, title"));
      }
      if exists k :: k in statusPages && Field(statusPages[k], "slug") == data["slug"] {
        return Response(409, Error("Slug already exists"));
      }
      var id := nextId;
      var page := data - {"id"};
      assert Field(page, "slug") == data["slug"];
      InsertPageKeepsValid(monitors, statusPages, tags, maintenances, nextId, scheduler.running, page);
      statusPages := statusPages[id := page];
      nextId := nextId + 1;
      r := Response(201, Item(RowJson((id, page))));
    }

    // ===== TAGS =====

    /** GET /tags: the caller's tags, each once, by name. */
    method ListTags(header: Option<string>) returns (r: Response)
      requires Valid()
      ensures !CallerOf(header).Known? ==> r == Refusal(CallerOf(header))
      ensures CallerOf(header).Known? ==>
        && r.status == 200 && r.body.Rows?
        && ListsOwned(r.body.rows, tags, CallerOf(header).user.id)
        && Sorted(r.body.rows, NameOrder)
    {
      var caller := CallerOf(header);
      if !caller.Known? {
        return Refusal(caller);
      }
      var rows := OwnedRows(tags, caller.user.id);
      var sorted := Sort(rows, NameOrder);
      RowOrdersAreTotalPreorders();
      SortSorted(rows, NameOrder);
      ListsOwnedPermutation(rows, sorted, tags, caller.user.id);
      r := Response(200, Rows(sorted));
    }

    /** POST /tags: name and color are required; only they and the owner are stored. */
    method CreateTag(header: Option<string>, body: Record) returns (r: Response)
      requires Valid()
      modifies this
      ensures Valid()
      ensures !CallerOf(header).Known? ==> r == Refusal(CallerOf(header)) && unchanged(this)
      ensures CallerOf(header).Known? && !(IsSet(body, "name") && IsSet(body, "color")) ==>
        r == Response(400, Error("Missing required fields: name, color")) && unchanged(this)
      ensures CallerOf(header).Known? && IsSet(body, "name") && IsSet(body, "color") ==>
        var id := old(nextId);
        var stored := map["name" := body["name"], "color" := body["color"], "user_id" := Num(CallerOf(header).user.id)];
        && tags == old(tags)[id := stored]
        && r == Response(201, Item(RowJson((id, stored))))
        && nextId == id + 1
        && monitors == old(monitors) && heartbeats == old(heartbeats)
        && statusPages == old(statusPages) && maintenances == old(maintenances)
    {
      var caller := CallerOf(header);
      if !caller.Known? {
        return Refusal(caller);
      }
      var name, color := Field(body, "name"), Field(body, "color");
      if !Truthy(name) || !Truthy(color) {
        return Response(400, Error("Missing required fields: name, color"));
      }
      var id := nextId;
      var tag := map["name" := name, "color" := color, "user_id" := Num(caller.user.id)];
      InsertTagKeepsValid(monitors, statusPages, tags, maintenances, nextId, scheduler.running, tag);
      tags := tags[id := tag];
      nextId := nextId + 1;
      r := Response(201, Item(RowJson((id, tag))));
    }

    // ===== MAINTENANCE =====

    /** GET /maintenance: the caller's windows, each once, newest created first. */
    method ListMaintenance(header: Option<string>) returns (r: Response)
      requires Valid()
      ensures !CallerOf(header).Known? ==> r == Refusal(CallerOf(header))
      ensures CallerOf(header).Known? ==>
        && r.status == 200 && r.body.Rows?
        && ListsOwned(r.body.rows, maintenances, CallerOf(header).user.id)
        && Sorted(r.body.rows, NewestCreatedFirst)
    {
      var caller := CallerOf(header);
      if !caller.Known? {
        return Refusal(caller);
      }
      var rows := OwnedRows(maintenances, caller.user.id);
      var sorted := Sort(rows, NewestCreatedFirst);
      RowOrdersAreTotalPreorders();
      SortSorted(rows, NewestCreatedFirst);
      ListsOwnedPermutation(rows, sorted, maintenances, caller.user.id);
      r := Response(200, Rows(sorted));
    }

    /** POST /maintenance: title, start_date and end_date are required; the
        creation time is the server's `now`, whatever the body says. */
    method CreateMaintenance(header: Option<string>, body: Record, now: string) returns (r: Response)
      requires Valid()
      modifies this
      ensures Valid()
      ensures !CallerOf(header).Known? ==> r == Refusal(CallerOf(header)) && unchanged(this)
      ensures CallerOf(header).Known? &&
              !(IsSet(body, "title") && IsSet(body, "start_date") && IsSet(body, "end_date"))
              ==> r == Response(400, Error("Missing required fields: title, start_date, end_date")) && unchanged(this)
      ensures CallerOf(header).Known? &&
              IsSet(body, "title") && IsSet(body, "start_date") && IsSet(body, "end_date")
              ==>
        var id := old(nextId);
        var stored := (body["user_id" := Num(CallerOf(header).user.id)] - {"id"})["created_date" := Str(now)];
        && maintenances == old(maintenances)[id := stored]
        && stored["created_date"] == Str(now) && OwnedBy(stored, CallerOf(header).user.id)
        && r == Response(201, Item(RowJson((id, stored))))
        && nextId == id + 1
        && monitors == old(monitors) && heartbeats == old(heartbeats)
        && statusPages == old(statusPages) && tags == old(tags)
    {
      var caller := CallerOf(header);
      if !caller.Known? {
        return Refusal(caller);
      }
      var data := body["user_id" := Num(caller.user.id)];
      assert IsSet(data, "title") == IsSet(body, "title");
      assert IsSet(data, "start_date") == IsSet(body, "start_date");
      assert IsSet(data, "end_date") == IsSet(body, "end_date");
      if !IsSet(data, "title") || !IsSet(data, "start_date") || !IsSet(data, "end_date") {
        return Response(400, Error("Missing required fields: title, start_date, end_date"));
      }
      var id := nextId;
      var maintenance := (data - {"id"})["created_date" := Str(now)];
      MaintenanceRow(body, caller.user.id, now);
      InsertMaintenanceKeepsValid(monitors, statusPages, tags, maintenances, nextId, scheduler.running, maintenance);
      maintenances := maintenances[id := maintenance];
      nextId := nextId + 1;
      r := Response(201, Item(RowJson((id, maintenance))));
    }

    // ===== SYSTEM INFO =====

    /** GET /info: the caller's monitor count, the version and the server time. */
    method GetInfo(header: Option<string>, version: string, serverTime: string) returns (r: Response)
      requires Valid()
      ensures !CallerOf(header).Known? ==> r == Refusal(CallerOf(header))
      ensures CallerOf(header).Known? ==>
        r == Response(200, Info(version, |OwnedIds(monitors, CallerOf(header).user.id)|, serverTime))
    {
      var caller := CallerOf(header);
      if !caller.Known? {
        return Refusal(caller);
      }
      var count := |OwnedIds(monitors, caller.user.id)|;
      r := Response(200, Info(version, count, serverTime));
    }
  }
}
