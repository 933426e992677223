# Uptime Kuma v2 API and command-line client, modelled in Dafny

This project models two parts of Uptime Kuma's v2 REST API:

- The server router (`server/routers/api-v2-router.js`). It is modelled as a
  class `Router.Api` that owns the database tables as maps from row id to
  record: monitors, heartbeats, status pages, tags and maintenance windows.
  It also shares one id counter and holds a `Router.Scheduler`, the set of
  running monitors together with a log of the `start`/`stop` calls. Each
  route is one method that does the following:
  - resolves the caller from the `Authorization` header (module `Auth`);
  - looks rows up scoped by owner;
  - validates the body;
  - changes the tables and the scheduler;
  - answers a status code and a body.

  Every route keeps one invariant, `Router.StoreValid`: the tables are well
  formed, status-page slugs are unique, and the scheduler runs exactly the
  active monitors.
- The command-line client (`cli/uptime-kuma-cli.js`, module `Cli`). It is
  modelled as what each command sends: the client configuration, the status
  labels, the `add` payload and its quick-add shortcuts, the `delete`
  confirmation guard, the `import` loop and `export` stripping.

The following modules support the two models:

| module | what it holds |
|---|---|
| `Json` | JSON values and records, with JavaScript truthiness and an SQL value order |
| `Sorting` | `ORDER BY` as an insertion sort over a total preorder |
| `Text` | `split`/`join` and `parseInt` |
| `Monitors` | The record-level logic shared by the routes and the client: create defaults, update merge, the scheduler reconciliation, row orders and the heartbeat query |

Request bodies and rows are `map<string, Value>`. This keeps
`Object.assign`, `delete` and the `if (!data.k)` defaults exact. The
following are parameters of the model:

- the base64 decoder;
- the latest-heartbeat lookup;
- the status-page link table;
- the package version;
- the clock;
- JSON parsing;
- the server's answer to each imported item.

## Model

| member | source | states |
|---|---|---|
| Auth.ParseAuthorization | server/routers/api-v2-router.js:26 | The scheme is the header up to the first space and holds no space. Credentials are absent exactly when the header has no space; otherwise they are the text between the first and the second space. |
| Auth.Username | server/routers/api-v2-router.js:30 | The username is the longest prefix of the decoded credentials without a `:`, and is followed by `:` unless it is the whole text. |
| Auth.FindActiveUser | server/routers/api-v2-router.js:32 | Finds an active user with exactly that username. It finds none exactly when no such user exists. |
| Auth.ResolveCaller | server/routers/api-v2-router.js:22-33 | A missing or empty header, or a scheme other than `Basic`, gives an anonymous caller. The header `Basic` alone makes decoding throw. Otherwise the caller is the active user named by the decoded credentials, or anonymous. |
| Router.Refusal | server/routers/api-v2-router.js:40-59 | An unknown caller gets 401; a header whose decoding throws gets 500. |
| Router.Scheduler.Start | server/routers/api-v2-router.js:123 | The monitor runs afterwards, and exactly one start call is logged. |
| Router.Scheduler.Stop | server/routers/api-v2-router.js:196 | The monitor no longer runs, and exactly one stop call is logged. |
| Router.Scheduler.Reconcile | server/routers/api-v2-router.js:160-168 | Logs exactly the calls the update route makes. Afterwards the monitor runs exactly when it is now active, and no other monitor changes. |
| Router.OwnedRows | server/routers/api-v2-router.js:45 | Gives every row with the caller's `user_id`, each exactly once, and no other row. |
| Router.ListsOwnedPermutation | server/routers/api-v2-router.js:45 | Any reordering of such a listing is still such a listing, so the sorted answer holds the same rows. |
| Router.OwnedIds | server/routers/api-v2-router.js:487 | The ids of the rows whose `user_id` is the caller, the rows `R.count` counts; `Router.ListingCount` ties it to the listings. |
| Router.ListingCount | server/routers/api-v2-router.js:487 | A listing of the caller's rows is as long as the count of rows the caller owns. |
| Router.InsertMonitorKeepsValid | server/routers/api-v2-router.js:118-124 | The next key is free. Storing an id-less record there, and starting it when it is active, keeps the store valid. |
| Router.ReplaceMonitorKeepsValid | server/routers/api-v2-router.js:157-168 | Replacing a monitor and starting or stopping it to match `active` keeps the store valid. |
| Router.DeleteMonitorKeepsValid | server/routers/api-v2-router.js:194-199 | Removing a monitor and stopping it keeps the store valid. |
| Router.InsertPageKeepsValid | server/routers/api-v2-router.js:370-377 | Adding a page whose slug no page holds keeps slugs unique and the store valid. |
| Router.InsertTagKeepsValid | server/routers/api-v2-router.js:417-421 | Adding a tag under the next key keeps the store valid. |
| Router.InsertMaintenanceKeepsValid | server/routers/api-v2-router.js:465-468 | Adding a maintenance window under the next key keeps the store valid. |
| Router.Api.ListMonitors | server/routers/api-v2-router.js:38-56 | Refuses unknown callers. Otherwise answers 200 with the caller's monitors, each once, sorted heaviest first and then by name, each paired with its latest heartbeat or null. |
| Router.Api.GetMonitor | server/routers/api-v2-router.js:64-86 | Refuses unknown callers. Gives 404 unless the caller owns the id. Otherwise gives 200 with the row and its latest heartbeat. |
| Router.Api.CreateMonitor | server/routers/api-v2-router.js:94-126 | Refuses unknown callers and changes nothing for them. Gives 400 with no change when name, type or url is falsy. Otherwise stores the defaulted body, owned by the caller, under a fresh key, starts it exactly once, and answers 201 with the stored row. The store stays valid. |
| Router.Api.StoreMonitor | server/routers/api-v2-router.js:118-124 | Stores the record under the next key, starts it exactly when it is active, and leaves the other tables alone. |
| Router.Api.UpdateMonitor | server/routers/api-v2-router.js:134-170 | Refuses unknown callers and gives 404 for monitors the caller does not own, with no change. Otherwise it merges the body into the row except `id` and `user_id`, so the row stays the caller's. It then stops and starts the monitor when it stays active, stops it when it becomes inactive, starts it when it becomes active, and answers 200 with the new row. The store stays valid. |
| Router.Api.DeleteMonitor | server/routers/api-v2-router.js:178-202 | Refuses unknown callers and gives 404 for monitors the caller does not own. Otherwise stops the monitor if it is active, removes it with its heartbeats and nothing else, and answers 200. |
| Router.Api.PauseMonitor | server/routers/api-v2-router.js:210-232 | An active monitor is stored with `active` 0 and stopped; an inactive one is left unchanged. Either way the monitor no longer runs, and the answer's `active` is falsy. |
| Router.Api.ResumeMonitor | server/routers/api-v2-router.js:240-262 | An inactive monitor is stored with `active` 1 and started; an active one is left unchanged. Either way the monitor runs, and the answer's `active` is truthy. |
| Router.Api.ListHeartbeats | server/routers/api-v2-router.js:270-294 | Refuses unknown callers and gives 404 for monitors the caller does not own. Otherwise answers the window of that monitor's heartbeats, all of them sorted newest first, that starts at the offset: at most `limit` beats when the limit is positive. |
| Router.Api.ListStatusPages | server/routers/api-v2-router.js:304-312 | Gives the caller's status pages, each once, sorted by title. |
| Router.Api.GetStatusPage | server/routers/api-v2-router.js:320-349 | Gives 200 with the caller's page that has that slug and its linked monitors. Gives 404 when the caller owns no page with that slug. |
| Router.Api.CreateStatusPage | server/routers/api-v2-router.js:355-379 | Gives 400 when slug or title is falsy. Gives 409 when any page of any user has that slug. Otherwise stores the page, owned by the caller, and answers 201. Only the page table changes, and slugs stay unique. |
| Router.Api.ListTags | server/routers/api-v2-router.js:389-397 | Gives the caller's tags, each once, sorted by name. |
| Router.Api.CreateTag | server/routers/api-v2-router.js:405-423 | Gives 400 when name or color is falsy. Otherwise stores exactly name, color and the owner, and answers 201. Only the tag table changes. |
| Router.Api.ListMaintenance | server/routers/api-v2-router.js:433-441 | Gives the caller's maintenance windows, each once, newest created first. |
| Router.Api.CreateMaintenance | server/routers/api-v2-router.js:449-470 | Gives 400 when title, start_date or end_date is falsy. Otherwise stores the body owned by the caller, with the server's creation time, and answers 201. Only the maintenance table changes. |
| Router.Api.GetInfo | server/routers/api-v2-router.js:480-492 | Answers the version, the number of monitors the caller owns, and the server time. |
| Monitors.MonitorDefaultsFacts | server/routers/api-v2-router.js:106-111 | The defaulted members are distinct and do not include user_id, name, type, url or id. |
| Monitors.WithDefault | server/routers/api-v2-router.js:106 | The member keeps a truthy value and otherwise takes the default; no other member changes. |
| Monitors.WithDefaults | server/routers/api-v2-router.js:106-111 | Every defaulted member holds the body's truthy value or its default, and every other member is kept. |
| Monitors.WithDefaultsKeeps | server/routers/api-v2-router.js:106-111 | Defaults are idempotent: a record whose defaulted members are truthy or already default is unchanged. |
| Monitors.Defaulted | server/routers/api-v2-router.js:102-111 | The body with `user_id` set to the caller and each of the six create defaults applied by `if (!data.k) data.k = d`; its properties are the `Monitors.Defaulted*` lemmas. |
| Monitors.PrepareMonitor | server/routers/api-v2-router.js:104-116 | A monitor is produced exactly when name, type and url are truthy, and it is the defaulted body. |
| Monitors.Validated | server/routers/api-v2-router.js:114-115 | A body with a truthy name, type and url passes validation. |
| Monitors.DefaultedOwned | server/routers/api-v2-router.js:105 | The stored owner is the caller, whatever `user_id` the body sent. |
| Monitors.DefaultedActive | server/routers/api-v2-router.js:110 | A created monitor is always active. |
| Monitors.DefaultedActiveValue | server/routers/api-v2-router.js:110 | The stored `active` is the body's when truthy, and 1 otherwise. |
| Monitors.DefaultedInterval | server/routers/api-v2-router.js:106 | The stored `interval` is the body's when truthy, and 60 otherwise. |
| Monitors.DefaultedMembers | server/routers/api-v2-router.js:104-111 | The stored keys are the body's plus the defaulted ones plus `user_id`, each defaulted member as the defaults say. |
| Monitors.DefaultedKeepsBody | server/routers/api-v2-router.js:102-118 | Every other member of the body is stored unchanged. |
| Monitors.DefaultedKeepsDefaults | server/routers/api-v2-router.js:104-111 | A body whose defaulted members survive is stored as given, with the caller as owner. |
| Monitors.NewMonitor | server/routers/api-v2-router.js:118-119 | The stored row: the defaulted body without `id`, since a table's key is not a member of its records; `Monitors.NewMonitorFacts` states its properties. |
| Monitors.NewMonitorFacts | server/routers/api-v2-router.js:105-123 | The created row has no `id`, holds `active`, is active, and is owned by the caller. |
| Monitors.CreatedMonitorIsActive | server/routers/api-v2-router.js:110-123 | Even `active: 0` in the body creates a monitor with `active` 1. |
| Monitors.ApplyUpdate | server/routers/api-v2-router.js:150-157 | Body members override the row's members, except that `id` and `user_id` keep their old values. Members the body lacks are kept. No member is lost. |
| Monitors.ApplyUpdateKeepsRow | server/routers/api-v2-router.js:150-157 | An update keeps a stored row without `id`, with `active`, and with its owner. |
| Monitors.ReconcileKeepsSchedulerInSync | server/routers/api-v2-router.js:160-168 | After the update's calls the monitor runs exactly when its new `active` is truthy. An active-to-active update restarts it; an inactive-to-inactive update makes no call. |
| Monitors.FieldLeFacts | server/routers/api-v2-router.js:311 | Ascending order on one column is total and transitive. |
| Monitors.MonitorOrder | server/routers/api-v2-router.js:45 | `ORDER BY weight DESC, name ASC` as a row order: a greater weight comes first, and equal weights go by name. |
| Monitors.TitleOrder | server/routers/api-v2-router.js:311 | `ORDER BY title ASC` as a row order. |
| Monitors.NameOrder | server/routers/api-v2-router.js:396 | `ORDER BY name ASC` as a row order. |
| Monitors.NewestCreatedFirst | server/routers/api-v2-router.js:440 | `ORDER BY created_date DESC` as a row order. |
| Monitors.NewestFirst | server/routers/api-v2-router.js:290 | `ORDER BY time DESC` as a heartbeat order. |
| Monitors.MonitorOrderIsTotalPreorder | server/routers/api-v2-router.js:45 | `weight DESC, name ASC` is a total preorder, so sorting by it is well defined. |
| Monitors.RowOrdersAreTotalPreorders | server/routers/api-v2-router.js:440 | The orders by title, by name and by created date (descending) are total preorders. |
| Monitors.NewestFirstIsTotalPreorder | server/routers/api-v2-router.js:290 | `time DESC` is a total preorder. |
| Monitors.HeartbeatsOf | server/routers/api-v2-router.js:289-292 | Gives exactly the heartbeats of that monitor, each as often as it occurs. |
| Monitors.WithoutMonitor | server/routers/api-v2-router.js:198-199 | Gives exactly the heartbeats of every other monitor, each as often as it occurs. |
| Monitors.Window | server/routers/api-v2-router.js:290-291 | SQLite's `LIMIT`/`OFFSET`: the elements are taken in order from the offset, a negative offset counts as 0, and a negative limit sets no bound. The length is the exact clipped count. |
| Monitors.QueryLimit | server/routers/api-v2-router.js:286 | The limit is the parsed number, which may be negative, unless that is 0 or the text does not parse; then it is 100. It is never 0. |
| Monitors.QueryOffset | server/routers/api-v2-router.js:287 | The offset is the parsed number, and 0 when the text does not parse. |
| Monitors.HeartbeatPage | server/routers/api-v2-router.js:286-294 | The page is a run of that monitor's heartbeats sorted newest first, starting at the offset. It holds at most `limit` beats when the limit is positive. Its length is exactly the clipped count. |
| Monitors.WindowOfSorted | server/routers/api-v2-router.js:290-291 | A window of a sorted sequence is sorted, is a run of it from the offset, and holds only its elements. |
| Monitors.LinkedMonitors | server/routers/api-v2-router.js:336-342 | Gives exactly the existing monitors linked to the page, each once. |
| Monitors.ReconcileCalls | server/routers/api-v2-router.js:161-168 | At most two calls, all on that monitor. The last call starts it when it is now active and stops it otherwise. No call is made exactly when it was and stays inactive. |
| Text.JoinSplit | server/routers/api-v2-router.js:26 | Joining the pieces of a split gives back the text. |
| Text.SplitInTwo | server/routers/api-v2-router.js:26 | A text splits into more than one piece exactly when it holds the separator. |
| Text.SecondPiece | server/routers/api-v2-router.js:26 | The second piece of a split runs from just after the first separator up to the next separator or the end of the text. |
| Text.SplitAtSeparator | cli/uptime-kuma-cli.js:300 | Splitting at a first separator gives the prefix, then the pieces of the rest. |
| Text.Split | server/routers/api-v2-router.js:26 | A split always gives at least one piece. |
| Text.ParseInt | server/routers/api-v2-router.js:286-287 | Gives a number exactly when a digit follows the optional sign. The number is negative only after a minus sign. |
| Text.ParseIntShowNat | server/routers/api-v2-router.js:286 | `parseInt` reads back any rendered natural number. |
| Text.ParseIntNegated | server/routers/api-v2-router.js:286 | A minus sign in front of a rendered number reads back as its negation. |
| Json.Truthy | server/routers/api-v2-router.js:106-114 | JavaScript truthiness: `null`, `false`, 0 and the empty text are falsy and every other value is truthy. It decides every `!data.k` test and `if (monitor.active)`. |
| Json.ValueLeTotal | server/routers/api-v2-router.js:45 | The SQL value order compares any two values. |
| Json.ValueLeTransitive | server/routers/api-v2-router.js:45 | The SQL value order is transitive. |
| Sorting.Sort | server/routers/api-v2-router.js:45 | `ORDER BY` keeps the rows: the result is a permutation of the input. |
| Sorting.SortSorted | server/routers/api-v2-router.js:45 | `ORDER BY` under a total preorder gives a sorted permutation. |
| Cli.FormatStatus | cli/uptime-kuma-cli.js:52-65 | Each label belongs exactly to its status number 0 to 3. Anything else, including text, is UNKNOWN. |
| Cli.CreateClient | cli/uptime-kuma-cli.js:37-49 | The base URL is the configured URL or the local default, followed by `/api/v2`. The user is the configured non-empty user name, otherwise `admin`. The password is the configured non-empty password, otherwise empty. The timeout is 10 s. |
| Cli.EmptyConfigClient | cli/uptime-kuma-cli.js:37-49 | With no configuration the client talks to `http://localhost:3001/api/v2` as `admin`. |
| Cli.ParsedNumber | cli/uptime-kuma-cli.js:147-149 | `parseInt(option)` as it is sent in the JSON body: the parsed number, or `null` for NaN. |
| Cli.AddCommand | cli/uptime-kuma-cli.js:143-167 | Exits with 1 exactly when `--headers` was given and does not parse. Otherwise it posts the payload to `/monitors`. |
| Cli.AddPayload | cli/uptime-kuma-cli.js:143-165 | The payload holds at least the seven fixed members. |
| Cli.PayloadMembers | cli/uptime-kuma-cli.js:143-165 | For any parsed numbers, the body has exactly the fixed members plus `keyword` and `headers` when given, and each member's value. |
| Cli.AddPayloadMembers | cli/uptime-kuma-cli.js:143-165 | The payload carries the name and the url, the parsed interval and retries, the method and `active` 1. A keyword turns the type into `keyword`. It holds exactly the seven fixed members, plus `keyword` and `headers` when given. |
| Cli.AddDefaultsPayload | cli/uptime-kuma-cli.js:132-136 | By default the payload is an HTTP GET every 60 seconds with no retries. |
| Cli.AddPayloadAccepted | cli/uptime-kuma-cli.js:143-151 | A payload with a name, a url and a type passes the create route's validation. |
| Cli.AddIntervalSet | cli/uptime-kuma-cli.js:147 | The interval is truthy exactly when it parses to a number other than 0. |
| Cli.AddIntervalStored | cli/uptime-kuma-cli.js:147 | The created monitor checks at the parsed interval when that is not 0, and every 60 s otherwise. |
| Cli.QuickOptions | cli/uptime-kuma-cli.js:283 | A quick add passes only `-t` and `-i`: no keyword and no headers. |
| Cli.QuickAddPosts | cli/uptime-kuma-cli.js:281-283 | A quick add always posts, with the given type, target and parsed interval. |
| Cli.AddHttp | cli/uptime-kuma-cli.js:277-284 | `add` with `-t http`: posts an HTTP check of the url. |
| Cli.AddPing | cli/uptime-kuma-cli.js:286-293 | `add` with `-t ping`: posts a ping check of the host. |
| Cli.AddTcp | cli/uptime-kuma-cli.js:295-303 | `add` with `-t tcp`: posts a TCP check of `hostname:port`. |
| Cli.TcpTarget | cli/uptime-kuma-cli.js:300 | The target is the host name, a `:`, then the port. |
| Cli.TcpTargetSplits | cli/uptime-kuma-cli.js:300 | The TCP target splits back into host and port when neither holds a `:`. |
| Cli.DeleteCommand | cli/uptime-kuma-cli.js:189-195 | Without `--force` nothing is sent and the exit code is 0. With it, exactly `/monitors/<id>` is deleted. |
| Cli.ImportItems | cli/uptime-kuma-cli.js:314-315 | An array imports its items; any other value imports as the single item. |
| Cli.Successes | cli/uptime-kuma-cli.js:319-329 | Among the first `n` posts, at most `n` succeed. |
| Cli.Import | cli/uptime-kuma-cli.js:319-333 | Every item is posted in order. Successes count the accepted posts, and successes plus failures equal the item count. |
| Cli.ImportAsWritten | cli/uptime-kuma-cli.js:322-331 | Posts the items up to and including the first `null`, then aborts with 1. Without a `null` it completes, and its successes count the accepted posts. |
| Cli.ImportAsWrittenSkipsItems | cli/uptime-kuma-cli.js:322-331 | A `null` first item keeps the next item from being posted. |
| Cli.FirstNull | cli/uptime-kuma-cli.js:324-330 | Gives the index of the first `null` item, or the length when there is none. |
| Cli.Stripped | cli/uptime-kuma-cli.js:350-356 | An exported monitor has every member except `id`, `user_id` and `latestHeartbeat`, with unchanged values. |
| Cli.Export | cli/uptime-kuma-cli.js:350-356 | The listed monitors are exported in order, each stripped. |
| Cli.ExportedMonitor | cli/uptime-kuma-cli.js:350-356 | A listed monitor exports as its stored columns without the owner. |
| Cli.KeepsDefaultsWithoutOwner | cli/uptime-kuma-cli.js:353 | Dropping the owner keeps the defaulted members. |
| Cli.OwnerRestored | cli/uptime-kuma-cli.js:353 | Giving the owner back restores the record under the new owner. |
| Cli.ReimportAccepted | cli/uptime-kuma-cli.js:324 | An exported monitor with a name, a type and a url passes validation on re-import. |
| Cli.ReimportRecreates | cli/uptime-kuma-cli.js:324 | Re-importing an exported monitor recreates it column for column under the importing user, provided its name, type and url are set and each of its six defaulted members is present and truthy or already the default. A paused monitor, or one with `weight` 0, comes back changed (`Cli.ReimportResumesPaused`). |
| Cli.ReimportResumesPaused | cli/uptime-kuma-cli.js:324 | A paused monitor comes back active after export and re-import. |

## Left out

- Authentication middleware and password checks (`server/auth`) are not part
  of this model. A caller is a user found by username alone, as
  `getUserFromRequest` does.
- Base64 and UTF-8 decoding are the parameter `decode`. Section 4 of RFC 4648
  is not modelled.
- The database is not modelled: the ORM, SQL and transactions. Tables are
  maps. The `status_page_cname` link table is a given list of (page,
  monitor) pairs that no route changes.
- `monitor.start`/`monitor.stop` internals are not modelled: timers, sockets
  and checks. The scheduler records which monitors run and the calls made.
- `Monitor.getPreviousHeartbeat` is a parameter `latest`, and `toJSON` is
  the record itself (`RowJson`/`MonitorJson`).
- The package version and `dayjs` time stamps are parameters (`version`,
  `serverTime`, `now`).
- Concurrency between requests is not modelled. Each route is one atomic
  step.
- Status 500 is modelled only for the header `Basic` with no credentials,
  where decoding throws. Database and network failures are not modelled.
- Router.Api.CreateMonitor: an `id` in the body is not honoured as a key.
  The row always gets the next key, and the stored record drops `id`. In the
  source the body's `id` is copied onto the bean, so storing it may overwrite
  the row with that id, whoever owns it. That ORM behaviour is not modelled.
- Router.Api.CreateStatusPage: an `id` in the body is dropped in the same way
  and the page always gets the next key. Storing a page bean that carries an
  `id` may overwrite the page with that id, whoever owns it; this is not
  modelled.
- Router.Api.CreateMaintenance: an `id` in the body is dropped in the same
  way and the window always gets the next key. Storing a maintenance bean
  that carries an `id` may overwrite the window with that id, whoever owns
  it; this is not modelled.
- Router.Api: every table draws its keys from one shared counter `nextId`.
  The database gives each table its own autoincrement key, so the ids the
  model hands out differ from the real ones. Only their uniqueness within a
  table is modelled.
- Router.Api.DeleteMonitor: only heartbeats are modelled as related data
  removed with a monitor. Other dependent tables are not part of this model.
- Sorting.Sort: rows that tie under an `ORDER BY` come out in insertion-sort
  order. Their real order depends on the database.
- Router.Api.GetStatusPage: the empty `id IN ()` list is taken to select no
  monitor, as SQLite does.
- Monitors.LinkedMonitors: the monitors come in link order, a monitor
  linked twice at its last link. The query has no `ORDER BY`, so the real
  order depends on the database.
- Text.ParseInt: it reads an optional sign and leading decimal digits only.
  Leading whitespace, other radixes and numbers in non-decimal notation are
  not modelled.
- Cli: reading and writing files, the console, colours, tables and
  `process.exit` are not modelled. A command's effect is a `Step`: one
  request to send, or an exit code. The server's answer to an import post
  is the parameter `post`. `JSON.parse` is the parameter `parseJson`.
- Cli: the `config`, `list`, `get`, `pause` and `resume` commands are
  rendering and one request each. Only the client they share
  (`CreateClient`) and the status labels (`FormatStatus`) are modelled.
- Cli.CreateClient: configuration values that are not strings are not
  modelled.
- Cli.AddHttp: commander options that persist between two
  `parseAsync` calls on the same `add` command are not modelled. Each quick
  add starts from `add`'s defaults, and the same holds for Cli.AddPing and
  Cli.AddTcp.

Two behaviours of the code are easy to misread, and the model follows the
code in both:

- Router.Api.PauseMonitor and Router.Api.ResumeMonitor answer with the stored
  `active` unchanged when nothing changes. That value is falsy after a pause
  and truthy after a resume, but it is not necessarily 0 or 1.
- Export followed by import is not an identity. A paused monitor comes back
  active (`Cli.ReimportResumesPaused`). Only monitors whose defaulted members
  survive the create defaults come back column for column
  (`Cli.ReimportRecreates`).

## Findings

| source | as written | input that shows it | evidently intended | confidence | as-written member | corrected member |
|---|---|---|---|---|---|---|
| cli/uptime-kuma-cli.js:322-331 | The catch block reads `monitor.name`. For a `null` item this throws out of the loop, so the import stops and exits with 1. | the file `[null, {"name":"a","type":"http","url":"u"}]`: only `null` is posted | Each item is attempted and counted as a success or a failure. | not executed | Cli.ImportAsWrittenSkipsItems | Cli.Import |
