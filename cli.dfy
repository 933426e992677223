/** The request-shaping part of the command-line client: what each command
    sends to the v2 API, with the network replaced by values the caller
    supplies. Terminal output, colours and tables are not modelled. */
module Cli {
  import opened Json
  import opened Text
  import opened Monitors

  // ----- formatStatus -----

  /** The label of a heartbeat status; `switch` compares strictly, so only the
      numbers 0 to 3 have labels of their own and anything else, even a
      missing status or the text "1", is unknown. */
  function FormatStatus(status: Option<Value>): (shown: string)
    ensures shown == "● DOWN" <==> status == Some(Num(0))
    ensures shown == "● UP" <==> status == Some(Num(1))
    ensures shown == "● PENDING" <==> status == Some(Num(2))
    ensures shown == "● MAINTENANCE" <==> status == Some(Num(3))
    ensures shown == "● UNKNOWN" <==> !(status.Some? && status.value.Num? && 0 <= status.value.n <= 3)
  {
    match status
    case Some(Num(0)) => "● DOWN"
    case Some(Num(1)) => "● UP"
    case Some(Num(2)) => "● PENDING"
    case Some(Num(3)) => "● MAINTENANCE"
    case _ => "● UNKNOWN"
  }

  // ----- createClient -----

  /** The saved configuration: what the `config` command writes, every member
      optional. */
  datatype Credentials = Credentials(username: Option<string>, password: Option<string>)
  datatype Config = Config(url: Option<string>, auth: Option<Credentials>)

  /** The HTTP client every command talks through. */
  datatype Client = Client(baseURL: string, username: string, password: string, timeout: nat)

  const DefaultURL := "http://localhost:3001"
  const ApiPrefix := "/api/v2"

  /** `v || d` on an optional text member: an absent or empty text takes the default. */
  function OrElse(v: Option<string>, d: string): string {
    if v.Some? && v.value != "" then v.value else d
  }

  /** The client for a configuration: a set URL or the local default, always
      followed by the API prefix; user `admin` and an empty password unless
      configured; a ten-second timeout. */
  function CreateClient(config: Config): (c: Client)
    ensures c.timeout == 10000
    ensures c.baseURL == OrElse(config.url, DefaultURL) + ApiPrefix
    ensures c.username != ""
    ensures config.url.Some? && config.url.value != "" ==> config.url.value <= c.baseURL
    ensures config.auth.None? ==> c.username == "admin" && c.password == ""
    ensures c.username ==
      if config.auth.Some? && Given(config.auth.value.username) then config.auth.value.username.value else "admin"
    ensures c.password ==
      if config.auth.Some? && Given(config.auth.value.password) then config.auth.value.password.value else ""
  {
    var auth := if config.auth.Some? then config.auth.value else Credentials(None, None);
    Client(OrElse(config.url, DefaultURL) + ApiPrefix, OrElse(auth.username, "admin"), OrElse(auth.password, ""), 10000)
  }

  /** With nothing configured the client talks to the local server as admin. */
  lemma EmptyConfigClient()
    ensures CreateClient(Config(None, None)) == Client("http://localhost:3001/api/v2", "admin", "", 10000)
  {
  }

  // ----- what a command does -----

  datatype Request =
    | Post(path: string, body: Value)
    | Delete(path: string)

  /** A command either sends one request or exits before sending anything. */
  datatype Step = Send(request: Request) | Exit(code: int)

  // ----- add -----

  /** The options of `add`; each text option holds what the user typed or
      its default. */
  datatype AddOptions = AddOptions(
    monitorType: string,
    interval: string,
    httpMethod: string,
    keyword: Option<string>,
    retries: string,
    headers: Option<string>)

  /** `-t http -i 60 -m GET -r 0`, no keyword and no headers. */
  const AddDefaults := AddOptions("http", "60", "GET", None, "0", None)

  /** `parseInt(s)` as it travels in a JSON body: NaN is sent as null. */
  function ParsedNumber(s: string): Value {
    match ParseInt(s)
    case Some(n) => Num(n)
    case None => Null
  }

  /** `options.k` is truthy. */
  predicate Given(v: Option<string>) {
    v.Some? && v.value != ""
  }

  /** The body `add` posts; `headers` is the parsed `--headers` value when
      that option was given. */
  function AddPayload(name: string, url: string, opts: AddOptions, headers: Option<Value>): (p: Record)
    ensures {"name", "url", "type", "interval", "method", "maxretries", "active"} <= p.Keys
  {
    var interval, retries := ParsedNumber(opts.interval), ParsedNumber(opts.retries);
    PayloadMembers(name, url, opts, interval, retries, headers);
    Payload(name, url, opts, interval, retries, headers)
  }

  /** That body once its two numbers are parsed. */
  function Payload(name: string, url: string, opts: AddOptions, interval: Value, retries: Value, headers: Option<Value>): Record {
    var base := map[
      "name" := Str(name),
      "url" := Str(url),
      "type" := Str(opts.monitorType),
      "interval" := interval,
      "method" := Str(opts.httpMethod),
      "maxretries" := retries,
      "active" := Num(1)];
    var withKeyword := if Given(opts.keyword) then base["keyword" := Str(opts.keyword.value)]["type" := Str("keyword")] else base;
    if headers.Some? then withKeyword["headers" := headers.value] else withKeyword
  }

  /** Every member of the body, whatever the parsed numbers are. */
  lemma PayloadMembers(name: string, url: string, opts: AddOptions, interval: Value, retries: Value, headers: Option<Value>)
    ensures var p := Payload(name, url, opts, interval, retries, headers);
      && p.Keys == {"name", "url", "type", "interval", "method", "maxretries", "active"}
        + (if Given(opts.keyword) then {"keyword"} else {})
        + (if headers.Some? then {"headers"} else {})
      && p["name"] == Str(name) && p["url"] == Str(url) && p["active"] == Num(1)
      && p["interval"] == interval && p["maxretries"] == retries && p["method"] == Str(opts.httpMethod)
      && p["type"] == Str(if Given(opts.keyword) then "keyword" else opts.monitorType)
  {
    PayloadKeys(name, url, opts, interval, retries, headers);
    PayloadValues(name, url, opts, interval, retries, headers);
  }

  /** The names of its members. */
  lemma PayloadKeys(name: string, url: string, opts: AddOptions, interval: Value, retries: Value, headers: Option<Value>)
    ensures Payload(name, url, opts, interval, retries, headers).Keys ==
      {"name", "url", "type", "interval", "method", "maxretries", "active"}
        + (if Given(opts.keyword) then {"keyword"} else {})
        + (if headers.Some? then {"headers"} else {})
  {
  }

  /** The values of its fixed members. */
  lemma PayloadValues(name: string, url: string, opts: AddOptions, interval: Value, retries: Value, headers: Option<Value>)
    ensures var p := Payload(name, url, opts, interval, retries, headers);
      && "name" in p && "url" in p && "active" in p && "interval" in p && "maxretries" in p && "method" in p && "type" in p
      && p["name"] == Str(name) && p["url"] == Str(url) && p["active"] == Num(1)
      && p["interval"] == interval && p["maxretries"] == retries && p["method"] == Str(opts.httpMethod)
      && p["type"] == Str(if Given(opts.keyword) then "keyword" else opts.monitorType)
  {
  }

  /** `add <name> <url>`: invalid `--headers` JSON exits with 1 before any
      request; otherwise the payload is posted to `/monitors`. `parseJson` is
      `JSON.parse`, None when it throws. */
  function AddCommand(name: string, url: string, opts: AddOptions, parseJson: string -> Option<Value>): (step: Step)
    ensures step.Exit? <==> Given(opts.headers) && parseJson(opts.headers.value).None?
    ensures step.Exit? ==> step.code == 1
    ensures step.Send? ==>
      step.request == Post("/monitors", Obj(AddPayload(name, url, opts,
        if Given(opts.headers) then parseJson(opts.headers.value) else None)))
  {
    if Given(opts.headers) then
      match parseJson(opts.headers.value)
      case None => Exit(1)
      case Some(h) => Send(Post("/monitors", Obj(AddPayload(name, url, opts, Some(h)))))
    else Send(Post("/monitors", Obj(AddPayload(name, url, opts, None))))
  }

  /** The members of the posted payload: the name, the target, the parsed
      interval and retry count, the method and `active` 1; a keyword makes the
      check a keyword check whatever `-t` said; nothing else but `keyword`
      when one is given and `headers` when they parsed. */
  lemma AddPayloadMembers(name: string, url: string, opts: AddOptions, headers: Option<Value>)
    ensures var p := AddPayload(name, url, opts, headers);
      && p.Keys == {"name", "url", "type", "interval", "method", "maxretries", "active"}
        + (if Given(opts.keyword) then {"keyword"} else {})
        + (if headers.Some? then {"headers"} else {})
      && p["name"] == Str(name) && p["url"] == Str(url) && p["active"] == Num(1)
      && p["interval"] == ParsedNumber(opts.interval) && p["maxretries"] == ParsedNumber(opts.retries)
      && p["method"] == Str(opts.httpMethod)
      && p["type"] == Str(if Given(opts.keyword) then "keyword" else opts.monitorType)
  {
    PayloadMembers(name, url, opts, ParsedNumber(opts.interval), ParsedNumber(opts.retries), headers);
  }

  /** With the default options the payload is an HTTP GET check every 60
      seconds with no retries. */
  lemma AddDefaultsPayload(name: string, url: string)
    ensures var p := AddPayload(name, url, AddDefaults, None);
      p["type"] == Str("http") && p["interval"] == Num(60) && p["method"] == Str("GET") && p["maxretries"] == Num(0)
  {
    assert ParsedNumber("60") == Num(60) by {
      ParseIntShowNat(60);
      assert ShowNat(60) == "60";
    }
    assert ParsedNumber("0") == Num(0) by {
      ParseIntShowNat(0);
      assert ShowNat(0) == "0";
    }
    PayloadMembers(name, url, AddDefaults, Num(60), Num(0), None);
  }

  /** A payload with a name, a target and a type passes the create route's
      validation. */
  lemma AddPayloadAccepted(name: string, url: string, opts: AddOptions, headers: Option<Value>, uid: int)
    requires name != "" && url != "" && (Given(opts.keyword) || opts.monitorType != "")
    ensures PrepareMonitor(AddPayload(name, url, opts, headers), uid).Some?
  {
    var p := AddPayload(name, url, opts, headers);
    assert IsSet(p, "name") && IsSet(p, "type") && IsSet(p, "url") by {
      AddPayloadMembers(name, url, opts, headers);
    }
    Validated(p, uid);
  }

  /** The payload's interval is truthy exactly when it parsed to a number other than 0. */
  lemma AddIntervalSet(name: string, url: string, opts: AddOptions, headers: Option<Value>)
    ensures var p := AddPayload(name, url, opts, headers);
      && (IsSet(p, "interval") <==> ParseInt(opts.interval).Some? && ParseInt(opts.interval).value != 0)
      && (IsSet(p, "interval") ==> p["interval"] == Num(ParseInt(opts.interval).value))
  {
    AddPayloadMembers(name, url, opts, headers);
  }

  /** The monitor created from an `add` payload checks at the parsed interval
      when that is a number other than 0, and every 60 seconds otherwise. */
  lemma AddIntervalStored(name: string, url: string, opts: AddOptions, headers: Option<Value>, uid: int)
    ensures Defaulted(AddPayload(name, url, opts, headers), uid)["interval"] ==
      if ParseInt(opts.interval).Some? && ParseInt(opts.interval).value != 0
      then Num(ParseInt(opts.interval).value) else Num(60)
  {
    var p := AddPayload(name, url, opts, headers);
    AddIntervalSet(name, url, opts, headers);
    DefaultedInterval(p, uid);
  }

  // ----- add-http, add-ping, add-tcp -----

  /** The options `add` sees when a quick-add command calls it with `-t` and
      `-i`: everything else keeps its default. */
  function QuickOptions(monitorType: string, interval: string): (opts: AddOptions)
    ensures !Given(opts.keyword) && !Given(opts.headers)
  {
    AddDefaults.(monitorType := monitorType, interval := interval)
  }

  /** A quick add posts a check of the given type on the given target at the
      given interval. */
  lemma QuickAddPosts(name: string, target: string, monitorType: string, interval: string, parseJson: string -> Option<Value>)
    ensures var step := AddCommand(name, target, QuickOptions(monitorType, interval), parseJson);
      && step.Send? && step.request.Post? && step.request.body.Obj?
      && Field(step.request.body.fields, "type") == Str(monitorType)
      && Field(step.request.body.fields, "url") == Str(target)
      && Field(step.request.body.fields, "interval") == ParsedNumber(interval)
  {
    var opts := QuickOptions(monitorType, interval);
    AddPayloadMembers(name, target, opts, None);
  }

  /** `add-http <name> <url>`: `add` with `-t http` and the given interval. */
  function AddHttp(name: string, url: string, interval: string, parseJson: string -> Option<Value>): (step: Step)
    ensures step == AddCommand(name, url, QuickOptions("http", interval), parseJson)
    ensures step.Send? && Field(step.request.body.fields, "type") == Str("http")
    ensures Field(step.request.body.fields, "url") == Str(url)
  {
    QuickAddPosts(name, url, "http", interval, parseJson);
    AddCommand(name, url, QuickOptions("http", interval), parseJson)
  }

  /** `add-ping <name> <hostname>`: `add` with `-t ping` and the given interval. */
  function AddPing(name: string, hostname: string, interval: string, parseJson: string -> Option<Value>): (step: Step)
    ensures step == AddCommand(name, hostname, QuickOptions("ping", interval), parseJson)
    ensures step.Send? && Field(step.request.body.fields, "type") == Str("ping")
    ensures Field(step.request.body.fields, "url") == Str(hostname)
  {
    QuickAddPosts(name, hostname, "ping", interval, parseJson);
    AddCommand(name, hostname, QuickOptions("ping", interval), parseJson)
  }

  /** The target `add-tcp` sends: `${hostname}:${port}`. */
  function TcpTarget(hostname: string, port: string): (t: string)
    ensures |t| == |hostname| + |port| + 1
    ensures hostname <= t && t[|hostname|] == ':'
    ensures t[|hostname| + 1..] == port
  {
    hostname + ":" + port
  }

  /** `add-tcp <name> <hostname> <port>`: `add` with `-t tcp`, the given
      interval and the target `hostname:port`. */
  function AddTcp(name: string, hostname: string, port: string, interval: string, parseJson: string -> Option<Value>): (step: Step)
    ensures step == AddCommand(name, TcpTarget(hostname, port), QuickOptions("tcp", interval), parseJson)
    ensures step.Send? && Field(step.request.body.fields, "type") == Str("tcp")
    ensures Field(step.request.body.fields, "url") == Str(TcpTarget(hostname, port))
  {
    QuickAddPosts(name, TcpTarget(hostname, port), "tcp", interval, parseJson);
    AddCommand(name, TcpTarget(hostname, port), QuickOptions("tcp", interval), parseJson)
  }

  /** The TCP target is undone by splitting on `:` when neither part holds one. */
  lemma TcpTargetSplits(hostname: string, port: string)
    requires ':' !in hostname && ':' !in port
    ensures Split(TcpTarget(hostname, port), ':') == [hostname, port]
  {
    SplitAtSeparator(hostname, port, ':');
    SplitWithoutSeparator(port, ':');
  }

  // ----- delete -----

  /** `delete <id>`: without `--force` nothing is sent and the command exits
      with 0; with it, the monitor's URL is deleted. */
  function DeleteCommand(id: string, force: bool): (step: Step)
    ensures !force <==> step == Exit(0)
    ensures force ==> step == Send(Delete("/monitors/" + id))
  {
    if !force then Exit(0) else Send(Delete("/monitors/" + id))
  }

  // ----- import -----

  /** The monitors in an import file: the array's items, or the value itself
      when the file holds anything but an array. */
  function ImportItems(data: Value): (items: seq<Value>)
    ensures data.Arr? ==> items == data.items
    ensures !data.Arr? ==> |items| == 1 && items[0] == data
  {
    if data.Arr? then data.items else [data]
  }

  /** How many of the first `n` posts succeeded; `post(i, item)` is the
      outcome of posting the i-th item. */
  function Successes(items: seq<Value>, post: (nat, Value) -> bool, n: nat): (k: nat)
    requires n <= |items|
    ensures k <= n
  {
    if n == 0 then 0
    else Successes(items, post, n - 1) + (if post(n - 1, items[n - 1]) then 1 else 0)
  }

  /** `import`: every item is posted in order, whatever happened to the ones
      before it, and each counts once as a success or a failure. */
  method Import(items: seq<Value>, post: (nat, Value) -> bool) returns (success: nat, failed: nat, sent: seq<Value>)
    ensures sent == items
    ensures success == Successes(items, post, |items|)
    ensures success + failed == |items|
  {
    success, failed, sent := 0, 0, [];
    var i := 0;
    while i < |items|
      invariant 0 <= i <= |items|
      invariant sent == items[..i]
      invariant success == Successes(items, post, i)
      invariant success + failed == i
    {
      if post(i, items[i]) {
        success := success + 1;
      } else {
        failed := failed + 1;
      }
      sent := sent + [items[i]];
      i := i + 1;
    }
  }

  /** Where the import loop as written stops: reading `.name` of a `null`
      item throws out of the loop, so the items up to the first `null` are
      posted and then the command exits with 1. */
  datatype ImportEnd = Completed(success: nat, failed: nat) | Aborted(code: int)

  function FirstNull(items: seq<Value>): (i: nat)
    ensures i <= |items|
    ensures forall j :: 0 <= j < i ==> items[j] != Null
    ensures i < |items| ==> items[i] == Null
  {
    if items == [] then 0
    else if items[0] == Null then 0
    else 1 + FirstNull(items[1..])
  }

  /** What the import loop as written posts: every item up to and including
      the first `null`. */
  function SentAsWritten(items: seq<Value>): seq<Value> {
    var k := FirstNull(items);
    if k < |items| then items[..k + 1] else items
  }

  /** The import loop as written. */
  method ImportAsWritten(items: seq<Value>, post: (nat, Value) -> bool) returns (end: ImportEnd, sent: seq<Value>)
    ensures sent == SentAsWritten(items)
    ensures end.Aborted? <==> Null in items
    ensures end.Aborted? ==> end.code == 1
    ensures end.Completed? ==> end.success + end.failed == |items|
    ensures end.Completed? ==> end.success == Successes(items, post, |items|)
  {
    var success, failed := 0, 0;
    sent := [];
    var i := 0;
    while i < |items|
      invariant 0 <= i <= |items|
      invariant sent == items[..i]
      invariant forall j :: 0 <= j < i ==> items[j] != Null
      invariant success == Successes(items, post, i)
      invariant success + failed == i
    {
      sent := sent + [items[i]];
      if items[i] == Null {
        assert FirstNull(items) == i;
        return Aborted(1), sent;
      }
      if post(i, items[i]) {
        success := success + 1;
      } else {
        failed := failed + 1;
      }
      i := i + 1;
    }
    assert FirstNull(items) == |items|;
    assert sent == items;
    end := Completed(success, failed);
  }

  /** The loop as written does not attempt every item: a `null` first item
      keeps a valid second one from being posted. */
  lemma ImportAsWrittenSkipsItems(m: Value)
    ensures var items := [Null, m];
      SentAsWritten(items) == [Null] && |SentAsWritten(items)| < |items|
  {
    assert FirstNull([Null, m]) == 0;
  }

  // ----- export -----

  /** The members `export` deletes from every monitor. */
  const ServerFields: set<string> := {"id", "user_id", "latestHeartbeat"}

  /** A monitor as `export` writes it. */
  function Stripped(m: Record): (r: Record)
    ensures r.Keys == m.Keys - ServerFields
    ensures forall k :: k in r ==> r[k] == m[k]
  {
    m - ServerFields
  }

  /** `export`: the listed monitors in the same order, each stripped of the
      server's members. */
  method Export(monitors: seq<Record>) returns (out: seq<Record>)
    ensures |out| == |monitors|
    ensures forall i :: 0 <= i < |out| ==> out[i] == Stripped(monitors[i])
  {
    out := [];
    for i := 0 to |monitors|
      invariant |out| == i
      invariant forall j :: 0 <= j < i ==> out[j] == Stripped(monitors[j])
    {
      var m := monitors[i];
      m := m - {"id"};
      m := m - {"user_id"};
      m := m - {"latestHeartbeat"};
      assert m == Stripped(monitors[i]);
      out := out + [m];
    }
  }

  /** A listed monitor exports as its stored columns without the owner. */
  lemma ExportedMonitor(id: int, m: Record, latest: Value)
    requires "id" !in m && "latestHeartbeat" !in m
    ensures Stripped(MonitorJson((id, m), latest)) == m - {"user_id"}
  {
    assert Stripped(MonitorJson((id, m), latest)).Keys == (m - {"user_id"}).Keys;
  }

  /** Dropping the owner keeps a record's defaulted members. */
  lemma KeepsDefaultsWithoutOwner(m: Record)
    requires KeepsDefaults(m)
    ensures KeepsDefaults(m - {"user_id"})
  {
    MonitorDefaultsFacts();
    forall i | 0 <= i < |MonitorDefaults|
      ensures MonitorDefaults[i].0 in m - {"user_id"}
    {
      assert MonitorDefaults[i].0 in DefaultedKeys;
    }
  }

  /** Giving an owner back to a record without one gives the record with that owner. */
  lemma OwnerRestored(m: Record, uid: int)
    requires "user_id" in m && "id" !in m
    ensures (m - {"user_id"})["user_id" := Num(uid)] == m["user_id" := Num(uid)]
    ensures "id" !in m["user_id" := Num(uid)]
  {
  }

  /** An exported monitor with a name, a type and a target passes the create
      route's validation. */
  lemma ReimportAccepted(m: Record, uid: int)
    requires IsSet(m, "name") && IsSet(m, "type") && IsSet(m, "url")
    ensures PrepareMonitor(m - {"user_id"}, uid).Some?
  {
    var b := m - {"user_id"};
    assert IsSet(b, "name") && IsSet(b, "type") && IsSet(b, "url");
  }

  /** Re-importing an exported monitor under another owner recreates it
      column for column, as long as its defaulted members would survive the
      create defaults. */
  lemma ReimportRecreates(m: Record, uid: int)
    requires "id" !in m && "user_id" in m
    requires IsSet(m, "name") && IsSet(m, "type") && IsSet(m, "url")
    requires KeepsDefaults(m)
    ensures PrepareMonitor(m - {"user_id"}, uid).Some?
    ensures NewMonitor(m - {"user_id"}, uid) == m["user_id" := Num(uid)]
  {
    var b := m - {"user_id"};
    KeepsDefaultsWithoutOwner(m);
    DefaultedKeepsDefaults(b, uid);
    OwnerRestored(m, uid);
    NewMonitorIs(b, uid, m["user_id" := Num(uid)]);
    ReimportAccepted(m, uid);
  }

  /** A paused monitor does not survive an export and re-import: the create
      route defaults its falsy `active` to 1, so it comes back running. */
  lemma ReimportResumesPaused(m: Record, uid: int)
    requires "active" in m && !IsActive(m)
    requires IsSet(m, "name") && IsSet(m, "type") && IsSet(m, "url")
    ensures PrepareMonitor(m - {"user_id"}, uid).Some?
    ensures NewMonitor(m - {"user_id"}, uid)["active"] == Num(1) != m["active"]
  {
    var b := m - {"user_id"};
    ReimportAccepted(m, uid);
    assert !IsSet(b, "active");
    DefaultedActiveValue(b, uid);
    DefaultedMembers(b, uid);
    NewMonitorMember(b, uid, Defaulted(b, uid), "active");
  }
}
