/**
 * The two tiers together: a request sent to the gate reaches the router
 * only if the gate forwards it, and the gate relays the router's answer as
 * its own. The router's own handlers check no key; see `Proxy.Router`.
 */
module Pipeline {
  import opened Wrappers
  import opened Gatekeeper
  import opened Proxy

  /** What a client of the gate receives for a query. */
  datatype ServeReply =
    | Refused(reply: GateReply)      // 403 or 400 from the gate itself
    | Relayed(response: QueryResponse)

  /** A query sent to the gate: refused there, or forwarded unchanged to the
      router, which routes and counts it. */
  method Serve(router: Router, apiKey: string, key: Option<string>, query: Option<string>,
               probes: seq<Option<int>>, execute: Outcome)
    returns (reply: ServeReply)
    requires router.Valid() && |probes| == |router.workers|
    modifies router`stats
    ensures router.Valid()
    ensures reply.Relayed? <==> HandleRequest(apiKey, key, query).Forward?
    ensures reply.Refused? ==>
      reply.reply == HandleRequest(apiKey, key, query) && router.stats == old(router.stats)
    ensures reply.Relayed? ==>
      reply.response.Executed? && reply.response.outcome == execute &&
      RouteAllowed(router.mode, router.manager, router.workers, query.value, probes,
                   reply.response.target) &&
      router.stats == Bump(old(router.stats),
                           KeyOf(reply.response.target, router.manager, router.workers))
  {
    var verdict := HandleRequest(apiKey, key, query);
    if !verdict.Forward? {
      return Refused(verdict);
    }
    var response := router.Query(Some(verdict.sql), probes, execute);
    reply := Relayed(response);
  }

  /** The gate's `/stats`: a wrong or missing key gets 403 and the router's
      counters are left alone; otherwise the router's `get_stats` runs. */
  method ServeStats(router: Router, apiKey: string, key: Option<string>)
    returns (reply: Option<StatsReply>)
    requires router.Valid()
    modifies router`stats
    ensures router.Valid()
    ensures reply.None? <==> StatsGate(apiKey, key) == StatsUnauthorized
    ensures reply.None? ==> router.stats == old(router.stats)
    ensures reply.Some? ==>
      reply.value == StatsReply(ModeName(router.mode), old(router.stats)) && router.stats == map[]
  {
    if StatsGate(apiKey, key) == StatsUnauthorized {
      return None;
    }
    var snapshot := router.GetStats();
    reply := Some(snapshot);
  }

  /** The end-to-end case: the right key, `direct` mode and a plain select
      reach the manager, and the manager's count goes up by one. */
  method DirectSelectHitsManager(router: Router, probes: seq<Option<int>>, execute: Outcome)
    returns (reply: ServeReply)
    requires router.Valid() && |probes| == |router.workers|
    requires router.mode == Direct
    modifies router`stats
    ensures reply.Relayed? && reply.response.Executed?
    ensures reply.response.target == router.manager
    ensures Count(router.stats, HitKey(router.manager, "manager")) ==
            Count(old(router.stats), HitKey(router.manager, "manager")) + 1
  {
    PlainSelectIsSafe();
    reply := Serve(router, DefaultApiKey, Some(DefaultApiKey),
                   Some("SELECT * FROM actor;"), probes, execute);
  }
}
