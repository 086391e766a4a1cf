/**
 * The routing proxy: classifies each query as a write or a read, picks the
 * backend that runs it under the current routing mode, and counts one hit
 * per routed query under the backend's label.
 *
 * The cluster is one manager (the primary, which takes every write) and a
 * non-empty, ordered list of workers (the replicas). The process-wide mode
 * and hit counter are the fields of `Router`.
 */
module Proxy {
  import opened Wrappers
  import opened Text

  // ---------------------------------------------------------------------
  // Query classification

  /** The statement keywords that make a query a write. */
  const WriteKeywords: seq<string> := ["insert", "update", "delete", "create"]

  /** `is_write_query`: the stripped, lower-cased query starts with one of
      the write keywords. This is a prefix test, not a word test, and the
      whitespace the strip removes at the end never matters. */
  function IsWrite(query: string): (b: bool)
    ensures b <==> exists kw :: kw in WriteKeywords && StartsWith(Lower(TrimLeft(query)), kw)
  {
    StripEndIrrelevant(query);
    var q := Lower(Strip(query));
    StartsWith(q, "insert") || StartsWith(q, "update") ||
    StartsWith(q, "delete") || StartsWith(q, "create")
  }

  lemma KeywordsHaveNoSpace(kw: string)
    requires kw in WriteKeywords
    ensures forall i :: 0 <= i < |kw| ==> !IsSpace(kw[i])
  {
  }

  /** Trailing whitespace cannot overlap a keyword that holds none. */
  lemma KeywordBeforeTrailing(t: string, kw: string)
    requires forall i :: 0 <= i < |kw| ==> !IsSpace(kw[i])
    requires StartsWith(Lower(t), kw)
    ensures |kw| <= |t| - TrailingSpace(t)
  {
    var n := TrailingSpace(t);
    forall x | |t| - n <= x < |t| ensures IsSpace(t[x]) {
      assert t[|t| - n..][x - (|t| - n)] == t[x];
    }
    forall x | 0 <= x < |kw| ensures !IsSpace(t[x]) {
      assert Lower(t)[..|kw|][x] == kw[x];
    }
    if n > 0 {
      assert IsSpace(t[|t| - n]);
    }
  }

  /** A keyword is a prefix of the stripped query exactly when it is a prefix
      of the query with only its leading whitespace removed: stripping the
      end never matters to a keyword that holds no whitespace. */
  lemma StripEndIrrelevant(query: string)
    ensures forall kw :: kw in WriteKeywords ==>
      (StartsWith(Lower(Strip(query)), kw) <==> StartsWith(Lower(TrimLeft(query)), kw))
  {
    var t := TrimLeft(query);
    var u := t[..|t| - TrailingSpace(t)];
    assert Strip(query) == u;
    forall kw | kw in WriteKeywords
      ensures StartsWith(Lower(u), kw) <==> StartsWith(Lower(t), kw)
    {
      KeywordsHaveNoSpace(kw);
      if StartsWith(Lower(t), kw) {
        KeywordBeforeTrailing(t, kw);
        assert Lower(u)[..|kw|] == Lower(t)[..|kw|];
      }
      if StartsWith(Lower(u), kw) {
        assert Lower(u)[..|kw|] == Lower(t)[..|kw|];
      }
    }
  }

  /** The empty query and one made only of whitespace are reads. */
  lemma BlankIsRead(query: string)
    requires AllSpace(query)
    ensures !IsWrite(query)
  {
    assert query[..|query|] == query;
    SpaceRunExact(query, |query|);
    assert Strip(query) == [];
  }

  /** The test is on a prefix: `InsertX` after leading blanks is a write. */
  lemma PrefixNotWord()
    ensures IsWrite("  InsertX")
  {
    var q := "  InsertX";
    assert q[..2] == "  " && q[2] == 'I';
    SpaceRunExact(q, 2);
    assert TrimLeft(q) == "InsertX";
    assert Lower("InsertX")[..6] == "insert";
    assert "insert" in WriteKeywords;
  }

  // ---------------------------------------------------------------------
  // Routing modes

  datatype Mode = Direct | Random | Custom

  /** The name under which a mode is set and reported. */
  function ModeName(m: Mode): (name: string)
  {
    match m
    case Direct => "direct"
    case Random => "random"
    case Custom => "custom"
  }

  /** The validation in `set_mode`: lower-case the requested name and accept
      it only if it names a mode. */
  function ParseMode(requested: string): (r: Option<Mode>)
    ensures r.Some? ==> ModeName(r.value) == Lower(requested)
    ensures r.None? <==> forall m: Mode :: ModeName(m) != Lower(requested)
  {
    var name := Lower(requested);
    if name == "direct" then Some(Direct)
    else if name == "random" then Some(Random)
    else if name == "custom" then Some(Custom)
    else None
  }

  /** Every mode is accepted under its own name, in any case. */
  lemma ParseModeName(m: Mode, spelled: string)
    requires Lower(spelled) == ModeName(m)
    ensures ParseMode(spelled) == Some(m)
  {
  }

  // ---------------------------------------------------------------------
  // Host labels and hit keys

  /** `get_hostname`: the manager first, then the first worker; every other
      host, known or not, is `worker2`. */
  function Hostname(host: string, manager: string, workers: seq<string>): (name: string)
    requires |workers| > 0
    ensures name == "manager" <==> host == manager
    ensures name == "worker1" <==> host != manager && host == workers[0]
    ensures name == "worker2" <==> host != manager && host != workers[0]
  {
    if host == manager then "manager"
    else if host == workers[0] then "worker1"
    else "worker2"
  }

  /** The counter key `"<host> (<label>)"`. */
  function HitKey(host: string, tag: string): (key: string)
  {
    host + " (" + tag + ")"
  }

  /** The key a routed query is counted under. */
  function KeyOf(host: string, manager: string, workers: seq<string>): (key: string)
    requires |workers| > 0
  {
    HitKey(host, Hostname(host, manager, workers))
  }

  /** Different hosts are never counted under the same key: all labels
      have the same length, so the key determines the host. */
  lemma KeyOfInjective(h1: string, h2: string, manager: string, workers: seq<string>)
    requires |workers| > 0
    requires KeyOf(h1, manager, workers) == KeyOf(h2, manager, workers)
    ensures h1 == h2
  {
    var k1 := KeyOf(h1, manager, workers);
    assert |k1| == |h1| + 10 && |KeyOf(h2, manager, workers)| == |h2| + 10;
    assert k1[..|h1|] == h1;
    assert KeyOf(h2, manager, workers)[..|h2|] == h2;
  }

  // ---------------------------------------------------------------------
  // The hit counter

  /** A `Counter`: a missing key counts zero. */
  function Count(hits: map<string, nat>, key: string): (n: nat)
  {
    if key in hits then hits[key] else 0
  }

  /** `stats[key] += 1`. */
  function Bump(hits: map<string, nat>, key: string): (r: map<string, nat>)
    ensures r.Keys == hits.Keys + {key}
    ensures Count(r, key) == Count(hits, key) + 1
    ensures forall k :: k != key ==> Count(r, k) == Count(hits, k)
  {
    hits[key := Count(hits, key) + 1]
  }

  // ---------------------------------------------------------------------
  // Selection of the fastest worker

  /** The initial `best_time`: only latencies below it count. */
  const Cutoff: int := 99999

  /** A probe that connected, within the cutoff. */
  predicate Succeeded(probe: Option<int>)
  {
    probe.Some? && probe.value < Cutoff
  }

  /** Worker `k` is the one `fastest_worker` keeps: it connected within the
      cutoff, every earlier probe was strictly slower (ties go to the earlier
      worker) and no later probe was faster. */
  predicate IsFastest(probes: seq<Option<int>>, k: int)
  {
    0 <= k < |probes| && Succeeded(probes[k]) &&
    (forall j :: 0 <= j < k && probes[j].Some? ==> probes[j].value > probes[k].value) &&
    (forall j :: k < j < |probes| && probes[j].Some? ==> probes[j].value >= probes[k].value)
  }

  lemma FastestUnique(probes: seq<Option<int>>, a: int, b: int)
    requires IsFastest(probes, a) && IsFastest(probes, b)
    ensures a == b
  {
  }

  /** The probing loop of `fastest_worker`, over the latencies it measured,
      one per worker (`None` when the connection failed). */
  method ProbeScan(probes: seq<Option<int>>) returns (best: Option<nat>)
    ensures best.Some? ==> IsFastest(probes, best.value)
    ensures best.None? <==> forall j :: 0 <= j < |probes| ==> !Succeeded(probes[j])
  {
    best := None;
    var bestTime := Cutoff;
    for i := 0 to |probes|
      invariant best.None? ==> bestTime == Cutoff
      invariant best.None? ==> forall j :: 0 <= j < i ==> !Succeeded(probes[j])
      invariant best.Some? ==> best.value < i && probes[best.value] == Some(bestTime)
      invariant bestTime <= Cutoff
      invariant best.Some? ==> bestTime < Cutoff
      invariant best.Some? ==>
        forall j :: 0 <= j < best.value && probes[j].Some? ==> probes[j].value > bestTime
      invariant forall j :: 0 <= j < i && probes[j].Some? ==> probes[j].value >= bestTime
    {
      match probes[i] {
        case None =>
        case Some(latency) =>
          if latency < bestTime {
            best, bestTime := Some(i), latency;
          }
      }
    }
  }

  /** What `fastest_worker` may return: a worker, and the fastest one
      whenever some probe succeeded and that worker's name is not empty
      (an empty name is falsy, so `best or random.choice(...)` falls back). */
  predicate CustomChoice(workers: seq<string>, probes: seq<Option<int>>, host: string)
    requires |probes| == |workers|
  {
    host in workers &&
    forall k :: 0 <= k < |probes| && IsFastest(probes, k) && workers[k] != "" ==> host == workers[k]
  }

  /** `fastest_worker`, with the measured latencies given and the random
      fallback a free choice among the workers. */
  method FastestWorker(workers: seq<string>, probes: seq<Option<int>>) returns (host: string)
    requires |workers| > 0 && |probes| == |workers|
    ensures CustomChoice(workers, probes, host)
    ensures (exists j :: 0 <= j < |probes| && Succeeded(probes[j])) ==>
      exists k :: IsFastest(probes, k) && (workers[k] != "" ==> host == workers[k])
  {
    var best := ProbeScan(probes);
    if best.Some? && workers[best.value] != "" {
      host := workers[best.value];
    } else {
      var pick :| 0 <= pick < |workers|;
      host := workers[pick];
      if best.Some? {
        forall k | IsFastest(probes, k) ensures workers[k] == "" {
          FastestUnique(probes, k, best.value);
        }
      }
    }
  }

  // ---------------------------------------------------------------------
  // Target selection

  /** The targets `query` may pick: the manager for every write, whatever
      the mode; for a read, the manager in `direct` mode, any worker in
      `random` mode, and the choice of `fastest_worker` in `custom` mode. */
  predicate RouteAllowed(mode: Mode, manager: string, workers: seq<string>,
                         sql: string, probes: seq<Option<int>>, target: string)
    requires |probes| == |workers|
  {
    if IsWrite(sql) then target == manager
    else match mode
      case Direct => target == manager
      case Random => target in workers
      case Custom => CustomChoice(workers, probes, target)
  }

  // ---------------------------------------------------------------------
  // The proxy's state and handlers

  /** What `query` answers: 400 for a missing query; otherwise the target
      and the abstract outcome of running the query there (200 with rows,
      or 500 with the error). */
  datatype Outcome = Rows(rows: seq<seq<string>>) | Failed(message: string)
  datatype QueryResponse = MissingQuery | Executed(target: string, outcome: Outcome)

  /** What `set_mode` answers: 400 `Invalid mode`, or 200 with the mode. */
  datatype ModeReply = InvalidMode | ModeUpdated(mode: string)

  /** What `get_stats` answers. */
  datatype StatsReply = StatsReply(mode: string, hits: map<string, nat>)

  class Router {
    const manager: string
    const workers: seq<string>
    var mode: Mode
    var stats: map<string, nat>

    /** The keys routed queries can be counted under. */
    function BackendKeys(): set<string>
      requires |workers| > 0
    {
      set h | h in [manager] + workers :: KeyOf(h, manager, workers)
    }

    /** At least one worker; every counted key is a backend's key, with at
        least one hit. */
    ghost predicate Valid()
      reads this
    {
      |workers| > 0 &&
      stats.Keys <= BackendKeys() &&
      forall key :: key in stats ==> stats[key] >= 1
    }

    /** Start-up: mode `direct`, no hits. */
    constructor (manager: string, workers: seq<string>)
      requires |workers| > 0
      ensures Valid()
      ensures this.manager == manager && this.workers == workers
      ensures mode == Direct && stats == map[]
    {
      this.manager := manager;
      this.workers := workers;
      mode := Direct;
      stats := map[];
    }

    /** `set_mode`; an absent `mode` field arrives as `""`. */
    method SetMode(requested: string) returns (reply: ModeReply)
      requires Valid()
      modifies this`mode
      ensures Valid()
      ensures ParseMode(requested).None? ==> reply == InvalidMode && mode == old(mode)
      ensures ParseMode(requested).Some? ==>
        mode == ParseMode(requested).value && reply == ModeUpdated(Lower(requested))
    {
      var parsed := ParseMode(requested);
      if parsed.None? {
        return InvalidMode;
      }
      mode := parsed.value;
      reply := ModeUpdated(ModeName(mode));
    }

    /** `get_stats`: the mode and the hits so far, and the counter is
        cleared. */
    method GetStats() returns (reply: StatsReply)
      requires Valid()
      modifies this`stats
      ensures Valid()
      ensures reply == StatsReply(ModeName(mode), old(stats))
      ensures stats == map[]
    {
      reply := StatsReply(ModeName(mode), stats);
      stats := map[];
    }

    /** The target selection of `query`. */
    method ChooseTarget(sql: string, probes: seq<Option<int>>) returns (target: string)
      requires Valid() && |probes| == |workers|
      ensures IsWrite(sql) ==> target == manager
      ensures !IsWrite(sql) && mode == Direct ==> target == manager
      ensures !IsWrite(sql) && mode == Random ==> target in workers
      ensures !IsWrite(sql) && mode == Custom ==> CustomChoice(workers, probes, target)
    {
      if IsWrite(sql) {
        target := manager;
      } else {
        match mode {
          case Direct =>
            target := manager;
          case Random =>
            var pick :| 0 <= pick < |workers|;
            target := workers[pick];
          case Custom =>
            target := FastestWorker(workers, probes);
        }
      }
    }

    /** `query`: a missing or empty query is refused and counts nothing;
        otherwise one hit is counted for the chosen target before the query
        runs, so a query that then fails still counts. */
    method Query(sql: Option<string>, probes: seq<Option<int>>, execute: Outcome)
      returns (resp: QueryResponse)
      requires Valid() && |probes| == |workers|
      modifies this`stats
      ensures Valid()
      ensures (sql.None? || sql.value == "") ==> resp == MissingQuery && stats == old(stats)
      ensures sql.Some? && sql.value != "" ==>
        resp.Executed? && resp.outcome == execute &&
        RouteAllowed(mode, manager, workers, sql.value, probes, resp.target) &&
        stats == Bump(old(stats), KeyOf(resp.target, manager, workers))
    {
      if sql.None? || sql.value == "" {
        return MissingQuery;
      }
      var target := ChooseTarget(sql.value, probes);
      assert target in [manager] + workers;
      stats := Bump(stats, KeyOf(target, manager, workers));
      resp := Executed(target, execute);
    }
  }

  /** Two stats reads in a row: the second sees no hits. */
  method StatsTwice(router: Router) returns (first: StatsReply, second: StatsReply)
    requires router.Valid()
    modifies router`stats
    ensures first.hits == old(router.stats)
    ensures second.hits == map[] && router.stats == map[]
  {
    first := router.GetStats();
    second := router.GetStats();
  }

  /** `bogus` names no mode. */
  lemma BogusRejected()
    ensures ParseMode("bogus").None?
  {
    assert Lower("bogus") == "bogus";
  }

  /** A rejected mode change leaves the routing of the next query as it was. */
  method BogusModeKeepsRouting(router: Router, sql: string, probes: seq<Option<int>>)
    returns (reply: ModeReply, target: string)
    requires router.Valid() && |probes| == |router.workers|
    modifies router`mode
    ensures reply == InvalidMode && router.mode == old(router.mode)
    ensures RouteAllowed(old(router.mode), router.manager, router.workers, sql, probes, target)
  {
    BogusRejected();
    reply := router.SetMode("bogus");
    target := router.ChooseTarget(sql, probes);
  }
}
