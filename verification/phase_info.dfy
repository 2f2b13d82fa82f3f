/** The cached view of the backseat's current mission (src/backseat_api_get.py).
    The cache is the pair (`_last_phase_info`, `_last_fetch_time`) threaded
    through as a value; the clock reading and the outcome of the HTTP GET
    are parameters. The JSON body is reduced to the three keys the
    controller reads. */
module PhaseInfo {
  import opened Optional

  /** How long a fetched answer is served without asking again (seconds). */
  const CacheTtl: real := 0.5

  /** The keys of the mission JSON that are read; a missing key is `None`. */
  datatype Info = Info(currentPhaseId: Option<int>, name: Option<string>, state: Option<string>)

  datatype Cache = Cache(info: Option<Info>, fetchTime: real)

  /** The module's initial state: nothing fetched, fetch time 0. */
  const Initial: Cache := Cache(None, 0.0)

  /** What the GET gave: a decoded body, or any failure (connection error,
      timeout, non-2xx status, undecodable body). */
  datatype Fetch = Fetched(body: Info) | FetchFailed

  /** A cached answer younger than the time-to-live. */
  predicate Fresh(c: Cache, now: real) {
    c.info.Some? && now - c.fetchTime < CacheTtl
  }

  /** `get_current_phase_info`: the answer handed out and the cache after
      the call. A fresh cache is served without a request; otherwise a
      successful fetch replaces the cache and is returned, and a failed one
      falls back to the last answer however old it is. */
  function GetInfo(c: Cache, now: real, forceRefresh: bool, fetch: Fetch): (r: (Option<Info>, Cache))
    ensures r.0 == r.1.info
    ensures !forceRefresh && Fresh(c, now) ==> r.1 == c
    ensures (forceRefresh || !Fresh(c, now)) && fetch.Fetched? ==>
              r.1 == Cache(Some(fetch.body), now)
    ensures fetch.FetchFailed? ==> r.1 == c
    ensures c.info.Some? ==> r.0.Some?
  {
    if !forceRefresh && c.info.Some? && now - c.fetchTime < CacheTtl then (c.info, c)
    else
      match fetch
      case Fetched(body) => (Some(body), Cache(Some(body), now))
      case FetchFailed => (c.info, c)
  }

  /** `get_current_phase_id`. */
  function PhaseId(info: Option<Info>): (id: Option<int>)
    ensures id.Some? ==> info.Some? && info.value.currentPhaseId == id
    ensures info.Some? ==> id == info.value.currentPhaseId
  {
    match info
    case None => None
    case Some(i) => i.currentPhaseId
  }

  /** `get_current_mission_name`. */
  function MissionName(info: Option<Info>): (name: Option<string>)
    ensures name.Some? ==> info.Some? && info.value.name == name
    ensures info.Some? ==> name == info.value.name
  {
    match info
    case None => None
    case Some(i) => i.name
  }

  /** `is_phase_enabled`: only an answer whose state is exactly `Enabled`;
      no answer counts as disabled. */
  function IsPhaseEnabled(info: Option<Info>): (enabled: bool)
    ensures enabled <==> info.Some? && info.value.state == Some("Enabled")
  {
    match info
    case None => false
    case Some(i) => i.state == Some("Enabled")
  }

  /** A series of calls: one clock reading and one fetch outcome per call
      (the outcome is ignored when the cache is fresh). */
  function Calls(c: Cache, nows: seq<real>, fetches: seq<Fetch>): (r: Cache)
    requires |nows| == |fetches|
    decreases |nows|
  {
    if |nows| == 0 then c
    else Calls(GetInfo(c, nows[0], false, fetches[0]).1, nows[1..], fetches[1..])
  }

  /** The body of the last successful fetch among `fetches`, if any. */
  function LastFetched(fetches: seq<Fetch>): Option<Info>
    decreases |fetches|
  {
    if |fetches| == 0 then None
    else if fetches[|fetches| - 1].Fetched? then Some(fetches[|fetches| - 1].body)
    else LastFetched(fetches[..|fetches| - 1])
  }

  /** Starting from an empty cache, and when every fetch is attempted
      (the clock moves by at least the time-to-live between calls), the
      answer held is the body of the last successful fetch: a failure never
      erases an earlier answer, and nothing but a fetched body is served. */
  lemma {:induction false} CacheHoldsLastSuccess(c: Cache, nows: seq<real>, fetches: seq<Fetch>)
    requires |nows| == |fetches|
    requires c.info.None?
    requires forall i :: 0 < i < |nows| ==> nows[i] - nows[i - 1] >= CacheTtl
    ensures Calls(c, nows, fetches).info == LastFetched(fetches)
    decreases |nows|
  {
    if |nows| > 0 {
      CallsHold(c, nows, fetches, None);
    }
  }

  /** Generalisation carried by the induction: from a cache holding `held`
      whose fetch time is at most the first clock reading minus the
      time-to-live before every clock reading (or empty), the final answer is the last success, or
      `held` when no fetch succeeded. */
  lemma {:induction false} CallsHold(c: Cache, nows: seq<real>, fetches: seq<Fetch>, held: Option<Info>)
    requires |nows| == |fetches|
    requires c.info == held
    requires forall i :: 0 < i < |nows| ==> nows[i] - nows[i - 1] >= CacheTtl
    requires forall i :: 0 <= i < |nows| ==> c.fetchTime <= nows[i] - CacheTtl || c.info.None?
    ensures Calls(c, nows, fetches).info == if LastFetched(fetches).Some? then LastFetched(fetches) else held
    decreases |nows|
  {
    if |nows| > 0 {
      var next := GetInfo(c, nows[0], false, fetches[0]).1;
      assert !Fresh(c, nows[0]);
      var held' := if fetches[0].Fetched? then Some(fetches[0].body) else held;
      assert next.info == held';
      if |nows| > 1 {
        assert nows[1] - nows[0] >= CacheTtl;
        forall i | 0 <= i < |nows[1..]|
          ensures next.fetchTime <= nows[1..][i] - CacheTtl || next.info.None?
        {
          if fetches[0].Fetched? {
            MonotoneFrom(nows, 1, i + 1);
          }
        }
      }
      CallsHold(next, nows[1..], fetches[1..], held');
      LastFetchedCons(fetches);
    }
  }

  lemma {:induction false} MonotoneFrom(nows: seq<real>, i: nat, j: nat)
    requires forall k :: 0 < k < |nows| ==> nows[k] - nows[k - 1] >= CacheTtl
    requires 0 < i <= j < |nows|
    ensures nows[j] - nows[i - 1] >= CacheTtl
    decreases j - i
  {
    if i < j {
      MonotoneFrom(nows, i + 1, j);
    }
  }

  /** `LastFetched` read from the front: the last success of the tail, or
      the head when the tail has none. */
  lemma {:induction false} LastFetchedCons(fetches: seq<Fetch>)
    requires |fetches| > 0
    ensures LastFetched(fetches) ==
      if LastFetched(fetches[1..]).Some? then LastFetched(fetches[1..])
      else if fetches[0].Fetched? then Some(fetches[0].body) else None
    decreases |fetches|
  {
    var n := |fetches|;
    if n > 1 && fetches[n - 1].FetchFailed? {
      assert fetches[..n - 1][1..] == fetches[1..][..n - 2];
      LastFetchedCons(fetches[..n - 1]);
    } else if n > 1 {
      assert fetches[1..][n - 2] == fetches[n - 1];
    } else {
      assert fetches[..0] == [];
    }
  }
}
