# Routing proxy and access gate, modelled in Dafny

This project models the two pieces of a replicated MySQL cluster front end
that hold real decision logic.

- **The routing proxy** (`proxy.py`) classifies each SQL query as a write or a
  read. Writes always go to the manager (the primary). Reads go to a backend
  chosen by the routing mode:
  - `direct`: the manager;
  - `random`: any worker (replica);
  - `custom`: the worker with the lowest measured connection latency.

  The proxy counts one hit per routed query under the key
  `"<host> (<label>)"`. Its `/stats` endpoint returns the counts and clears
  them, and its `/set_mode` endpoint switches the mode after validating it.
- **The gatekeeper** (`gatekeeper.py`) checks a shared API key, refuses empty
  queries, and rejects any query that matches one of four denylist regular
  expressions. It matches them case-insensitively. Anything else is forwarded
  to the proxy unchanged.

Files:

- `text.dfy`: module `Wrappers` (`Option`), and module `Text`, which holds the
  Python string operations used: `str.isspace` (also what `\s` matches),
  `str.lower`, `str.strip`, `startswith` and the regex class `\w`.
- `gatekeeper.dfy`: module `Gatekeeper`. It holds the denylist as data (one
  `Rule` per pattern), `IsSafe`, the guard chain `HandleRequest` and the stats
  key check. Each pattern is written twice:
  - as a left-to-right scanner (`MatchesAt`, `Search`), which `IsSafe` runs;
  - as the set of strings the regular expression describes (`RegexAt`,
    `RegexSearch`).

  Each scanner's contract states that the two agree.
- `proxy.dfy`: module `Proxy`. It holds the pure functions `IsWrite`,
  `ParseMode`, `Hostname` and `Bump`, the probing loop of `fastest_worker` as
  the method `ProbeScan`, and the class `Router`. `Router` has the immutable
  `manager`/`workers` registry and the mutable `mode` and `stats` fields that
  the source keeps as module globals.
- `pipeline.dfy`: module `Pipeline`. It composes the two tiers: in `Serve`, a
  query sent to the gate reaches the router only if the gate forwards it.

Backend I/O is passed in as parameters:

- the latency probes of `custom` mode are a `seq<Option<int>>`, one entry per
  worker, where `None` means the connection failed;
- the result of running the query is an abstract `Outcome`;
- `random.choice` is a free choice of an index into the workers.

Behaviour of the code worth knowing, which the model keeps as written:

- `DELETE FROM actor;` passes the gate. The pattern `delete\s+from\s+\w+\s*$`
  matches only when the text ends with the table name or with whitespace
  after it, and a trailing `;` prevents both. `TerminatedDeleteIsSafe` proves this case, and
  `DeleteNeedsCleanEnd` gives the general reason.
- `is_safe` returns only a boolean, so the gate cannot say which pattern
  matched: every rejection gets the same `Query rejected by Gatekeeper`
  message.
- `fastest_worker` returns `best or random.choice(WORKERS)`. A worker whose
  name is the empty string is falsy, so even when it is the fastest the
  result is a random worker. `FastestWorker` models that.
- The proxy always starts in `direct` mode (`proxy.py:17`). No environment
  setting changes this.
- The proxy's own routes (`/query`, `/set_mode`, `/stats`, `proxy.py:91-172`)
  check no API key and run no denylist. The proxy listens on `0.0.0.0:5000`
  (`proxy.py:175`), and the provisioning code opens port 5000 to `0.0.0.0/0`
  (`manage_instances.py:31,73`). A client that reaches the proxy directly can
  therefore run `DROP TABLE actor;` past the gate. The `Router` methods take
  no key, as in the source.
- The gate has only `/stats` and `/gatekeeper`. It has no `/set_mode` route,
  so every mode change goes straight to the proxy, with no key at all.
- The gate uses one `PROXY_URL` for two different forwards. It POSTs a query
  to `PROXY_URL` itself (`gatekeeper.py:56`), which must therefore be the
  proxy's `/query` route (`proxy.py:126`). It GETs `f"{PROXY_URL}/stats"`
  (`gatekeeper.py:27`), which needs `PROXY_URL` to be the proxy's base URL
  (`proxy.py:110`). No single value serves both. With `.../query`, the stats
  request goes to `/query/stats` and gets a 404, the gate's `.json()` raises
  and the gate answers 500, and the proxy's counters are never cleared. With
  the base URL, the query POST goes to `/`, gets a 404, and nothing is routed
  or counted.

## Model

| member | source | states |
|---|---|---|
| `Gatekeeper.SafeUnder` | gatekeeper.py:33-36 | Trying the rules in order and stopping at the first match gives "safe" exactly when no rule of the list matches. |
| `Gatekeeper.IsSafe` | gatekeeper.py:31-36 | `is_safe(sql)` holds exactly when no entry of the denylist matches the lower-cased query. |
| `Gatekeeper.DropTableAt` | gatekeeper.py:14 | The scanner for `drop\s+table` accepts a string exactly when it has the form `drop`, one or more whitespace characters, then `table`. |
| `Gatekeeper.DeleteAt` | gatekeeper.py:15 | The scanner for `delete\s+from\s+\w+\s*$` accepts exactly the strings of the form `delete`, whitespace, `from`, whitespace, a word, optional whitespace, then the end of the string or a final newline (Python's `$`). |
| `Gatekeeper.MatchesAt` | gatekeeper.py:13-18 | A rule's scanner accepts a string exactly when the rule's pattern matches at its start. |
| `Gatekeeper.Search` | gatekeeper.py:34 | The left-to-right search finds a rule exactly when its pattern matches at some position, as `re.search` does. |
| `Gatekeeper.IsSafeIff` | gatekeeper.py:13-18 | A query is safe exactly when none of the four patterns (`drop table`, unconditional `delete from`, `truncate`, `shutdown`) occurs in its lower-cased text. |
| `Gatekeeper.SafeUnderOrderFree` | gatekeeper.py:33-35 | Reordering the denylist does not change the verdict. |
| `Gatekeeper.IsSafeIgnoresCase` | gatekeeper.py:32 | `is_safe(s) == is_safe(s.lower())`. |
| `Gatekeeper.SubstringRuleRejects` | gatekeeper.py:16-17 | `truncate` or `shutdown` anywhere in the lower-cased query makes it unsafe, even inside an identifier. |
| `Gatekeeper.DropTableRejects` | gatekeeper.py:14 | `drop`, a whitespace run and `table`, anywhere in the lower-cased query, make it unsafe. |
| `Gatekeeper.DeleteNeedsCleanEnd` | gatekeeper.py:15 | The delete rule matches only queries whose last character is whitespace or a word character, so a trailing `;` defeats it. |
| `Gatekeeper.NeedsLetter` | gatekeeper.py:13-18 | A query lacking one of the letters a rule spells cannot match that rule. |
| `Gatekeeper.DeleteWithWhereIsSafe` | gatekeeper.py:15 | `DELETE FROM actor WHERE actor_id=1;` is safe. |
| `Gatekeeper.BareDeleteIsUnsafe` | gatekeeper.py:15 | `DELETE FROM actor` is unsafe. |
| `Gatekeeper.TerminatedDeleteIsSafe` | gatekeeper.py:15 | `DELETE FROM actor;` is safe as written. |
| `Gatekeeper.DropTableStatementIsUnsafe` | gatekeeper.py:14 | `DROP TABLE actor;` is unsafe. |
| `Gatekeeper.PlainSelectIsSafe` | gatekeeper.py:13-18 | `SELECT * FROM actor;` is safe. |
| `Gatekeeper.HandleRequest` | gatekeeper.py:40-57 | A wrong or missing key gives 403 before the body is looked at. With the right key, an absent or empty query gives 400 and an unsafe one gives 400 "rejected". Only a non-empty safe query is forwarded, and it is forwarded unchanged. Each case holds in both directions. |
| `Gatekeeper.UnsafeNeverForwarded` | gatekeeper.py:53-56 | A query that matches any denylist pattern is never forwarded, whatever the key. |
| `Gatekeeper.StatsGate` | gatekeeper.py:21-28 | The gate's stats endpoint contacts the proxy exactly when the key matches. |
| `Proxy.StripEndIrrelevant` | proxy.py:44 | Stripping trailing whitespace never changes whether a write keyword is a prefix of the lower-cased query. |
| `Proxy.IsWrite` | proxy.py:36-45 | A query is a write exactly when, after its leading whitespace and in lower case, it starts with `insert`, `update`, `delete` or `create`. |
| `Proxy.BlankIsRead` | proxy.py:44-45 | The empty query, and a query made only of whitespace, are reads. |
| `Proxy.PrefixNotWord` | proxy.py:45 | The test is on a prefix, not a word: `"  InsertX"` is a write. |
| `Proxy.ParseMode` | proxy.py:101-104 | A requested mode is accepted exactly when its lower-cased text names one of `direct`, `random`, `custom`, and the accepted mode is the one so named. |
| `Proxy.ParseModeName` | proxy.py:101-106 | Every mode is accepted under its own name, in any letter case. |
| `Proxy.Hostname` | proxy.py:72-88 | The label is `manager` exactly for the manager host (checked first), `worker1` exactly for the first worker otherwise, and `worker2` for every other input. |
| `Proxy.KeyOfInjective` | proxy.py:155-156 | Two different hosts are never counted under the same `"<host> (<label>)"` key. |
| `Proxy.Bump` | proxy.py:156 | Incrementing a counter adds one to the given key, with a missing key counting as zero, and leaves every other key's count unchanged. |
| `Proxy.FastestUnique` | proxy.py:63-65 | At most one worker is the fastest in the sense of the probing loop. |
| `Proxy.ProbeScan` | proxy.py:54-67 | The loop keeps the probed worker with the strictly smallest latency below 99999, and ties go to the earliest worker. It keeps none exactly when no probe succeeded below that bound. |
| `Proxy.FastestWorker` | proxy.py:48-69 | The result is always a worker. It is the fastest worker whenever a probe succeeded and that worker's name is non-empty; otherwise it is an arbitrary worker. |
| `Proxy.Router.constructor` | proxy.py:11-18 | The proxy starts in `direct` mode with no hits, over a non-empty worker list. |
| `Proxy.Router.SetMode` | proxy.py:98-107 | An invalid mode returns 400 and leaves the mode unchanged. A valid one sets the mode to the lower-cased request and reports it. |
| `Proxy.Router.GetStats` | proxy.py:117-123 | Returns the current mode and the previous hit map, and leaves the counter empty. |
| `Proxy.Router.ChooseTarget` | proxy.py:141-153 | Writes go to the manager. Reads go to the manager in `direct` mode, to some worker in `random` mode, and to the worker `fastest_worker` picks in `custom` mode. |
| `Proxy.Router.Query` | proxy.py:135-172 | A missing or empty query returns 400 and leaves the stats unchanged. Otherwise the target is chosen by the routing rule, and exactly one key, that target's, goes up by one. This happens whatever the execution outcome, so a failed query still counts. |
| `Proxy.StatsTwice` | proxy.py:117-123 | Two stats reads in a row: the first sees the hits, the second sees none. |
| `Proxy.BogusRejected` | proxy.py:101-104 | `bogus` names no mode, so `set_mode` rejects it. |
| `Proxy.BogusModeKeepsRouting` | proxy.py:103-104 | Setting the mode `bogus` is rejected, and the next query is routed under the previous mode. |
| `Pipeline.Serve` | gatekeeper.py:40-57 | A query reaches the router exactly when the gate forwards it. A refused query leaves the counters unchanged. A forwarded one is routed and counted once. |
| `Pipeline.ServeStats` | gatekeeper.py:21-28 | A wrong key gives 403 and leaves the counters alone. The right key returns the proxy's snapshot and clears it. |
| `Pipeline.DirectSelectHitsManager` | proxy.py:146-147 | With the right key and `direct` mode, a plain select reaches the manager, and the manager's count goes up by one. |

## Left out

- HTTP and Flask plumbing: routing, JSON encoding, status codes as numbers, and `app.run`. The handlers' decisions are modelled as result values.
- A request body that is not JSON, and a `query` or `mode` field that is not a string. A falsy non-string `query` (`0`, `false`, `[]`, `{}`) gets the same 400 as an empty query, from `if not sql` (`gatekeeper.py:50`, `proxy.py:138`). A truthy non-string `query`, or any non-string `mode`, raises in `.lower()` or `.strip()` and gives a 500. The model types both fields as strings, so it covers only the falsy value `""`.
- The gate relays the proxy's JSON with status 200 even when the proxy answered 400 or 500. The model relays the response value unchanged and does not model status codes.
- `Pipeline.Serve` and `Pipeline.ServeStats` each assume that their hop from the gate reaches the router. As explained above, no single `PROXY_URL` makes both hops reach it: with the URL of `/query` only `Serve` describes a deployment, and with the base URL only `ServeStats` does. The URL itself, and the failing hop (a 404, then a 500 from the gate), are not modelled.
- Reading `API_KEY` from the environment (`os.getenv("API_KEY", "secret123")`) is deployment configuration too. The gate's handlers take the configured key as a parameter, and `DefaultApiKey` is the fallback value.
- pymysql connections, query execution and the commit after a write. Execution is an abstract `Outcome` passed to `Query`.
- Latency measurement: `time.time()` float seconds are replaced by given integer latencies. Fractional latencies and clock effects are not modelled.
- `random.choice` is a free choice among the workers. Its uniform distribution is not modelled.
- Concurrency: Flask worker threads share `MODE` and `stats`, and the source holds no lock. Every operation is modelled as atomic and sequential.
- `Text.Lower` lowers only the ASCII letters A-Z. Python's full Unicode `str.lower` (for example, the Kelvin sign becoming `k`) is not modelled.
- `Text.IsWordChar` covers only ASCII letters, digits and `_`. The Unicode letters and digits that Python's `\w` also matches are not modelled.
- manage_instances.py, main.py and benchmark.py are not part of this model. They are cloud provisioning, remote shell scripts and a load client.
