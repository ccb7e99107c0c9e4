/** Clients of the configuration store: back-off, replica discovery and failover
    (internal/loader/configuration_client_manager.go, and ExecuteFailoverPolicy and
    updateClientBackoffStatus in internal/loader/configuration_setting_loader.go).

    Times are nanoseconds since the zero time, which is 0. Whatever the network answers is
    a parameter. */
module ClientManager {
  import opened Wrappers
  import opened Backoff
  import opened Clock
  import opened Rotation

  const FALLBACK_CLIENT_REFRESH_EXPIRE_INTERVAL: Time := 3_600 * SECOND
  const MINIMAL_CLIENT_REFRESH_INTERVAL: Time := 30 * SECOND

  class ConfigurationClientWrapper {
    const endpoint: string
    var backOffEndTime: Time
    var failedAttempts: int

    constructor (endpoint: string)
      ensures this.endpoint == endpoint && backOffEndTime == 0 && failedAttempts == 0
    {
      this.endpoint := endpoint;
      backOffEndTime := 0;
      failedAttempts := 0;
    }

    /** Counter and back-off after one more attempt that completed at `now`. */
    twostate predicate Updated(successful: bool, now: Time, random: real)
      reads this
    {
      && failedAttempts == AttemptsAfter(old(failedAttempts), successful)
      && backOffEndTime == if successful then 0 else now + CalculateBackoffDuration(failedAttempts, random)
    }

    twostate predicate UpdatedBy<R>(new answer: Answer<R>)
      reads this
    {
      Updated(answer.outcome.Settings?, answer.at, answer.random)
    }

    method UpdateBackoffStatus(successful: bool, now: Time, random: real)
      requires 0.0 <= random < 1.0
      modifies this
      ensures Updated(successful, now, random)
      ensures !successful ==> backOffEndTime >= now + MIN_BACKOFF_DURATION
    {
      if successful {
        backOffEndTime := 0;
        if failedAttempts > 0 {
          failedAttempts := 0;
        }
        failedAttempts := failedAttempts - 1;
      } else {
        if failedAttempts < 0 {
          failedAttempts := 0;
        }
        failedAttempts := failedAttempts + 1;
        BackoffBounds(failedAttempts, random);
        backOffEndTime := now + CalculateBackoffDuration(failedAttempts, random);
      }
    }
  }

  lemma DistinctConcat<T>(a: seq<T>, b: seq<T>)
    requires Distinct(a) && Distinct(b) && forall x :: x in b ==> x !in a
    ensures Distinct(a + b)
  {
    forall i, j | 0 <= i < j < |a + b|
      ensures (a + b)[i] != (a + b)[j]
    {
      if i < |a| <= j {
        assert b[j - |a|] in b;
      }
    }
  }

  // ---------------------------------------------------------------- available clients

  /** The wrappers, in order, whose back-off has ended before now. */
  ghost function Available(ws: seq<ConfigurationClientWrapper>, now: Time): seq<ConfigurationClientWrapper>
    reads ws
  {
    if ws == [] then []
    else (if now > ws[0].backOffEndTime then [ws[0]] else []) + Available(ws[1..], now)
  }

  /** Exactly the wrappers not in back-off are available, each once. */
  lemma {:induction false} AvailableIsExact(ws: seq<ConfigurationClientWrapper>, now: Time)
    ensures forall w :: w in Available(ws, now) <==> w in ws && now > w.backOffEndTime
    ensures Distinct(ws) ==> Distinct(Available(ws, now))
  {
    if ws != [] {
      AvailableIsExact(ws[1..], now);
    }
  }

  lemma {:induction false} AvailableAppend(ws: seq<ConfigurationClientWrapper>,
                                           more: seq<ConfigurationClientWrapper>, now: Time)
    ensures Available(ws + more, now) == Available(ws, now) + Available(more, now)
  {
    if ws == [] {
      assert ws + more == more;
    } else {
      assert (ws + more)[1..] == ws[1..] + more;
      AvailableAppend(ws[1..], more, now);
    }
  }

  ghost function Endpoints(ws: seq<ConfigurationClientWrapper>): (es: seq<string>)
    ensures |es| == |ws|
    ensures forall k :: 0 <= k < |ws| ==> es[k] == ws[k].endpoint
  {
    seq(|ws|, k requires 0 <= k < |ws| => ws[k].endpoint)
  }

  // ---------------------------------------------------------------- replica discovery

  /** What a discovery meets: the looked-up hosts, unless the lookup fails or times out; the
      generator's draws; which hosts pass the domain test and are not the primary endpoint;
      and whether a client can be built for each accepted host. */
  datatype Discovery = Discovery(
    hosts: Option<seq<string>>, draws: nat -> nat, accepted: string -> bool, buildable: string -> bool)

  /** The endpoints of the accepted hosts, in order. */
  function AcceptedEndpoints(hosts: seq<string>, accepted: string -> bool): seq<string> {
    if hosts == [] then []
    else (if accepted(hosts[0]) then ["https://" + hosts[0]] else []) + AcceptedEndpoints(hosts[1..], accepted)
  }

  /** Each accepted host gives an endpoint each time that it is listed, and nothing else does. */
  ghost predicate AreEndpointsOf(endpoints: seq<string>, hosts: seq<string>, accepted: string -> bool) {
    && (forall h :: multiset(endpoints)["https://" + h] == if accepted(h) then multiset(hosts)[h] else 0)
    && forall e :: e in endpoints ==> exists h :: e == "https://" + h
  }

  lemma {:induction false} AcceptedExactly(hosts: seq<string>, accepted: string -> bool)
    ensures AreEndpointsOf(AcceptedEndpoints(hosts, accepted), hosts, accepted)
    decreases hosts
  {
    if hosts != [] {
      AcceptedExactly(hosts[1..], accepted);
      assert hosts == [hosts[0]] + hosts[1..];
      OneMoreHost(AcceptedEndpoints(hosts[1..], accepted), hosts[0], hosts[1..], accepted);
    }
  }

  lemma OneMoreHost(endpoints: seq<string>, host: string, hosts: seq<string>, accepted: string -> bool)
    requires AreEndpointsOf(endpoints, hosts, accepted)
    ensures AreEndpointsOf((if accepted(host) then ["https://" + host] else []) + endpoints, [host] + hosts, accepted)
  {
    var first := if accepted(host) then ["https://" + host] else [];
    forall h
      ensures multiset(first + endpoints)["https://" + h] == if accepted(h) then multiset([host] + hosts)[h] else 0
    {
      SameEndpoint(h, host);
      assert multiset(first + endpoints) == multiset(first) + multiset(endpoints);
      assert multiset([host] + hosts) == multiset([host]) + multiset(hosts);
    }
  }

  lemma SameEndpoint(a: string, b: string)
    ensures "https://" + a == "https://" + b ==> a == b
  {
    assert ("https://" + a)[8..] == a && ("https://" + b)[8..] == b;
  }

  lemma SameHosts(endpoints: seq<string>, a: seq<string>, b: seq<string>, accepted: string -> bool)
    requires AreEndpointsOf(endpoints, a, accepted) && multiset(a) == multiset(b)
    ensures AreEndpointsOf(endpoints, b, accepted)
  {
  }

  /** Swaps every slot with one drawn from the slots up to it. */
  method Shuffle(hosts: array<string>, draws: nat -> nat)
    modifies hosts
    ensures multiset(hosts[..]) == multiset(old(hosts[..]))
  {
    for i := 0 to hosts.Length
      invariant multiset(hosts[..]) == multiset(old(hosts[..]))
    {
      var j := draws(i) % (i + 1);
      hosts[i], hosts[j] := hosts[j], hosts[i];
    }
  }

  /** A fresh wrapper per accepted host; fails with the first client that cannot be built. */
  method BuildClients(hosts: seq<string>, discovery: Discovery)
    returns (built: bool, ws: seq<ConfigurationClientWrapper>)
    ensures fresh(ws) && Distinct(ws)
    ensures built <==> forall h :: h in hosts && discovery.accepted(h) ==> discovery.buildable(h)
    ensures built ==> Endpoints(ws) == AcceptedEndpoints(hosts, discovery.accepted)
    ensures forall w :: w in ws ==> w.backOffEndTime == 0 && w.failedAttempts == 0
  {
    ws := [];
    var k := 0;
    while k < |hosts|
      invariant 0 <= k <= |hosts|
      invariant fresh(ws) && Distinct(ws)
      invariant forall h :: h in hosts[..k] && discovery.accepted(h) ==> discovery.buildable(h)
      invariant forall w :: w in ws ==> w.backOffEndTime == 0 && w.failedAttempts == 0
      invariant Endpoints(ws) + AcceptedEndpoints(hosts[k..], discovery.accepted)
             == AcceptedEndpoints(hosts, discovery.accepted)
    {
      assert hosts[k..][1..] == hosts[k + 1..];
      assert hosts[..k + 1] == hosts[..k] + [hosts[k]];
      if discovery.accepted(hosts[k]) {
        if !discovery.buildable(hosts[k]) {
          return false, ws;
        }
        var w := new ConfigurationClientWrapper("https://" + hosts[k]);
        assert Endpoints(ws + [w]) == Endpoints(ws) + ["https://" + hosts[k]];
        ws := ws + [w];
      }
      k := k + 1;
    }
    assert hosts[..k] == hosts;
    assert AcceptedEndpoints(hosts[k..], discovery.accepted) == [];
    built := true;
  }

  /** The lookup answers, and a client can be built for every accepted host. */
  ghost predicate Succeeds(discovery: Discovery) {
    discovery.hosts.Some? && forall h :: h in discovery.hosts.value && discovery.accepted(h) ==> discovery.buildable(h)
  }

  lemma ShuffledAlike(shuffled: seq<string>, discovery: Discovery)
    requires discovery.hosts.Some? && multiset(shuffled) == multiset(discovery.hosts.value)
    ensures Succeeds(discovery) <==> forall h :: h in shuffled && discovery.accepted(h) ==> discovery.buildable(h)
  {
    assert forall h :: h in shuffled <==> h in multiset(shuffled);
    assert forall h :: h in discovery.hosts.value <==> h in multiset(discovery.hosts.value);
  }

  /** One endpoint per accepted host, in some order. */
  ghost predicate DiscoveredEndpoints(endpoints: seq<string>, discovery: Discovery)
    requires discovery.hosts.Some?
  {
    AreEndpointsOf(endpoints, discovery.hosts.value, discovery.accepted)
  }

  /** Shuffles the hosts and builds a wrapper per accepted one. */
  method BuildShuffled(discovery: Discovery) returns (built: bool, ws: seq<ConfigurationClientWrapper>)
    requires discovery.hosts.Some?
    ensures fresh(ws) && Distinct(ws)
    ensures built <==> Succeeds(discovery)
    ensures built ==> AreDiscovered(ws, discovery)
  {
    hide AreEndpointsOf, AcceptedEndpoints, Endpoints, Succeeds;
    var hosts := discovery.hosts.value;
    var srvTargetHosts := new string[|hosts|](k requires 0 <= k < |hosts| => hosts[k]);
    assert srvTargetHosts[..] == hosts;
    Shuffle(srvTargetHosts, discovery.draws);
    var shuffled := srvTargetHosts[..];
    ShuffledAlike(shuffled, discovery);
    built, ws := BuildClients(shuffled, discovery);
    AcceptedExactly(shuffled, discovery.accepted);
    if built {
      SameHosts(Endpoints(ws), shuffled, hosts, discovery.accepted);
    }
  }

  /** A wrapper per accepted host, none in back-off. */
  ghost predicate AreDiscovered(ws: seq<ConfigurationClientWrapper>, discovery: Discovery)
    requires discovery.hosts.Some?
    reads ws
  {
    && DiscoveredEndpoints(Endpoints(ws), discovery)
    && forall w :: w in ws ==> w.backOffEndTime == 0 && w.failedAttempts == 0
  }

  // ---------------------------------------------------------------- requests

  datatype Outcome<R> = Settings(response: R) | FailoverableError | FatalError

  /** The answer to one attempt, when it came in and the draw for a back-off. */
  datatype Answer<R> = Answer(outcome: Outcome<R>, at: Time, random: real)

  /** Answers come in after the request was made, one after the other, before it returns. */
  ghost predicate Timely<R>(answers: nat -> Answer<R>, start: Time, end: Time) {
    && (forall k: nat :: start <= answers(k).at <= end && 0.0 <= answers(k).random < 1.0)
    && (forall j: nat, k: nat :: j <= k ==> answers(j).at <= answers(k).at)
  }

  /** The first of n attempts that ends the request, or n when all n are failed over. */
  function Conclusive<R>(answers: nat -> Answer<R>, n: nat): (k: nat)
    ensures k <= n
    ensures forall i :: 0 <= i < k ==> answers(i).outcome.FailoverableError?
    ensures k < n ==> !answers(k).outcome.FailoverableError?
  {
    if n == 0 then 0
    else var k := Conclusive(answers, n - 1);
      if k < n - 1 || !answers(n - 1).outcome.FailoverableError? then k else n
  }

  datatype RequestError = NoClientAvailable | AllClientsFailed | ClientFailed

  /** What a request of n clients returns. */
  function Response<R>(answers: nat -> Answer<R>, n: nat): Result<R, RequestError> {
    var k := Conclusive(answers, n);
    if n == 0 then Failure(NoClientAvailable)
    else if k == n then Failure(AllClientsFailed)
    else if answers(k).outcome.Settings? then Success(answers(k).outcome.response)
    else Failure(ClientFailed)
  }

  /** A request succeeds exactly when some client succeeds and every client tried before it
      fails failoverably; in particular, one success among failoverable failures is enough. */
  lemma RequestSucceeds<R>(answers: nat -> Answer<R>, n: nat)
    ensures Response(answers, n).Success? <==>
              exists k :: 0 <= k < n && answers(k).outcome.Settings?
                       && forall i :: 0 <= i < k ==> answers(i).outcome.FailoverableError?
    ensures (exists k :: 0 <= k < n && answers(k).outcome.Settings?)
            && (forall i :: 0 <= i < n ==> !answers(i).outcome.FatalError?)
            ==> Response(answers, n).Success?
  {
    var k := Conclusive(answers, n);
    if j :| 0 <= j < n && answers(j).outcome.Settings? {
      assert k <= j;
    }
  }

  /** One attempt: the wrapper, when the request was made, when it failed or succeeded. */
  datatype Attempt = Attempt(client: ConfigurationClientWrapper, requestedAt: Time, completedAt: Time, successful: bool)

  /** No attempt follows a failed attempt of the same wrapper within the minimum back-off. */
  ghost predicate NoEarlyRetry(log: seq<Attempt>) {
    forall i, j :: 0 <= i < j < |log| && log[i].client == log[j].client && !log[i].successful ==>
      log[j].requestedAt > log[i].completedAt + MIN_BACKOFF_DURATION
  }

  /** The attempts of a request: the first m wrappers of its order. */
  ghost function AttemptsOf<R>(order: seq<ConfigurationClientWrapper>, answers: nat -> Answer<R>, now: Time,
                               m: nat): seq<Attempt>
    requires m <= |order|
  {
    seq(m, k requires 0 <= k < m => Attempt(order[k], now, answers(k).at, answers(k).outcome.Settings?))
  }

  /** How many of n clients a request tries. */
  function Tried<R>(answers: nat -> Answer<R>, n: nat): nat {
    var k := Conclusive(answers, n); if k < n then k + 1 else n
  }

  class ConfigurationClientManager {
    const replicaDiscoveryEnabled: bool
    var staticClientWrappers: seq<ConfigurationClientWrapper>
    var dynamicClientWrappers: Option<seq<ConfigurationClientWrapper>>
    var lastFallbackClientAttempt: Time
    var lastFallbackClientRefresh: Time
    var lastSuccessfulEndpoint: string
    ghost var log: seq<Attempt>
    ghost var clock: Time

    ghost function Clients(): seq<ConfigurationClientWrapper>
      reads this
    {
      staticClientWrappers + dynamicClientWrappers.GetOr([])
    }

    /** A wrapper is in back-off for the minimum duration after each failure, unless that
        much time has passed. */
    ghost predicate BackingOff(w: ConfigurationClientWrapper)
      reads this, w
    {
      forall k :: 0 <= k < |log| && log[k].client == w && !log[k].successful ==>
        || w.backOffEndTime >= log[k].completedAt + MIN_BACKOFF_DURATION
        || clock > log[k].completedAt + MIN_BACKOFF_DURATION
    }

    ghost predicate Valid()
      reads this, Clients()
    {
      && Distinct(Clients())
      && (forall w :: w in Clients() ==> BackingOff(w))
      && NoEarlyRetry(log)
    }

    constructor (endpoint: string, replicaDiscoveryEnabled: bool)
      ensures Valid() && fresh(Clients()) && log == [] && clock == 0
      ensures |staticClientWrappers| == 1 && staticClientWrappers[0].endpoint == endpoint
    {
      this.replicaDiscoveryEnabled := replicaDiscoveryEnabled;
      var w := new ConfigurationClientWrapper(endpoint);
      staticClientWrappers := [w];
      dynamicClientWrappers := None;
      lastFallbackClientAttempt, lastFallbackClientRefresh := 0, 0;
      lastSuccessfulEndpoint := "";
      log, clock := [], 0;
    }

    /** A discovery that succeeds replaces the dynamic wrappers by fresh ones, one per accepted
        host; any other leaves everything alone. */
    twostate predicate Rediscovered(discovery: Discovery, now: Time)
      reads this, dynamicClientWrappers.GetOr([])
    {
      if Succeeds(discovery) then
        && dynamicClientWrappers.Some? && fresh(dynamicClientWrappers.value) && lastFallbackClientRefresh == now
        && AreDiscovered(dynamicClientWrappers.value, discovery)
      else NotDiscovered()
    }

    twostate predicate NotDiscovered()
      reads this
    {
      dynamicClientWrappers == old(dynamicClientWrappers) && lastFallbackClientRefresh == old(lastFallbackClientRefresh)
    }

    method DiscoverFallbackClients(discovery: Discovery, now: Time)
      requires Valid()
      modifies this`dynamicClientWrappers, this`lastFallbackClientRefresh
      ensures Valid() && Rediscovered(discovery, now)
    {
      if discovery.hosts.None? {
        return;
      }
      var built, newDynamicClients := BuildShuffled(discovery);
      if !built {
        return;
      }
      ReplaceDynamicClients(newDynamicClients, now);
    }

    method ReplaceDynamicClients(ws: seq<ConfigurationClientWrapper>, now: Time)
      requires Valid() && Distinct(ws)
      requires forall w :: w in ws ==> w !in staticClientWrappers && forall k :: 0 <= k < |log| ==> log[k].client != w
      modifies this`dynamicClientWrappers, this`lastFallbackClientRefresh
      ensures Valid()
      ensures dynamicClientWrappers == Some(ws) && lastFallbackClientRefresh == now
    {
      ghost var before := Clients();
      assert forall k :: 0 <= k < |staticClientWrappers| ==> before[k] == staticClientWrappers[k];
      DistinctConcat(staticClientWrappers, ws);
      dynamicClientWrappers := Some(ws);
      lastFallbackClientRefresh := now;
      assert forall w :: w in staticClientWrappers ==> w in before;
      assert Clients() == staticClientWrappers + ws;
    }

    /** A minimal interval after the last attempt, when there are no dynamic clients yet or
        they have expired. */
    ghost predicate DiscoveryDue(now: Time)
      reads this
    {
      && now > lastFallbackClientAttempt + MINIMAL_CLIENT_REFRESH_INTERVAL
      && (dynamicClientWrappers.None? || now > lastFallbackClientRefresh + FALLBACK_CLIENT_REFRESH_EXPIRE_INTERVAL)
    }

    /** Within thirty seconds of an attempt none is due, and with clients found within the hour none
        is either. */
    lemma DiscoveryIsRare(now: Time)
      ensures now <= lastFallbackClientAttempt + 30 * SECOND ==> !DiscoveryDue(now)
      ensures dynamicClientWrappers.Some? && now <= lastFallbackClientRefresh + 3_600 * SECOND ==> !DiscoveryDue(now)
      ensures now > lastFallbackClientAttempt + 30 * SECOND
              && (dynamicClientWrappers.None? || now > lastFallbackClientRefresh + 3_600 * SECOND)
              ==> DiscoveryDue(now)
    {
    }

    /** Looks up the dynamic clients when, and only when, that is due. */
    method DiscoverIfDue(now: Time, discovery: Discovery)
      requires Valid()
      modifies this`dynamicClientWrappers, this`lastFallbackClientRefresh, this`lastFallbackClientAttempt
      ensures Valid()
      ensures if old(DiscoveryDue(now)) then lastFallbackClientAttempt == now && Rediscovered(discovery, now)
              else lastFallbackClientAttempt == old(lastFallbackClientAttempt) && NotDiscovered()
    {
      if now > lastFallbackClientAttempt + MINIMAL_CLIENT_REFRESH_INTERVAL &&
         (dynamicClientWrappers.None? || now > lastFallbackClientRefresh + FALLBACK_CLIENT_REFRESH_EXPIRE_INTERVAL)
      {
        lastFallbackClientAttempt := now;
        DiscoverFallbackClients(discovery, now);
      }
    }

    /** The available clients in order: the static wrappers, then, with replica discovery,
        the dynamic ones, which are first looked up if that is due. */
    method GetClients(now: Time, discovery: Discovery) returns (clients: seq<ConfigurationClientWrapper>)
      requires Valid()
      modifies this`dynamicClientWrappers, this`lastFallbackClientRefresh, this`lastFallbackClientAttempt
      ensures Valid()
      ensures if replicaDiscoveryEnabled && old(DiscoveryDue(now))
              then lastFallbackClientAttempt == now && Rediscovered(discovery, now)
              else lastFallbackClientAttempt == old(lastFallbackClientAttempt) && NotDiscovered()
      ensures clients == Available(staticClientWrappers, now)
                         + if replicaDiscoveryEnabled then Available(dynamicClientWrappers.GetOr([]), now) else []
    {
      clients := SelectAvailable(staticClientWrappers, now);
      if !replicaDiscoveryEnabled {
        return;
      }
      DiscoverIfDue(now, discovery);
      var dynamics := SelectAvailable(dynamicClientWrappers.GetOr([]), now);
      clients := clients + dynamics;
    }

    /** Discovers again, at most once per minimal interval. */
    method RefreshClients(now: Time, discovery: Discovery)
      requires Valid()
      modifies this`dynamicClientWrappers, this`lastFallbackClientRefresh, this`lastFallbackClientAttempt
      ensures Valid()
      ensures if replicaDiscoveryEnabled && now > old(lastFallbackClientAttempt) + MINIMAL_CLIENT_REFRESH_INTERVAL
              then lastFallbackClientAttempt == now && Rediscovered(discovery, now)
              else lastFallbackClientAttempt == old(lastFallbackClientAttempt) && NotDiscovered()
    {
      if replicaDiscoveryEnabled && now > lastFallbackClientAttempt + MINIMAL_CLIENT_REFRESH_INTERVAL {
        lastFallbackClientAttempt := now;
        DiscoverFallbackClients(discovery, now);
      }
    }

    /** One attempt of a request made at `start`, with what it does to the wrapper. */
    method RecordAttempt(w: ConfigurationClientWrapper, start: Time, successful: bool, at: Time, random: real)
      requires Valid() && w in Clients() && w.backOffEndTime < start
      requires clock == start <= at && 0.0 <= random < 1.0
      modifies this`log, w
      ensures Valid() && w.Updated(successful, at, random)
      ensures log == old(log) + [Attempt(w, start, at, successful)]
    {
      assert BackingOff(w);
      w.UpdateBackoffStatus(successful, at, random);
      log := log + [Attempt(w, start, at, successful)];
      forall v | v in Clients()
        ensures BackingOff(v)
      {
        assert old(BackingOff(v));
      }
    }

    method SetLastSuccessful(endpoint: string)
      requires Valid()
      modifies this`lastSuccessfulEndpoint
      ensures Valid() && lastSuccessfulEndpoint == endpoint
    {
      lastSuccessfulEndpoint := endpoint;
    }

    /** The loop over the ordered clients. */
    method TryInOrder<R>(order: seq<ConfigurationClientWrapper>, start: Time, end: Time, answers: nat -> Answer<R>)
      returns (r: Result<R, RequestError>)
      requires Valid() && clock == start && Timely(answers, start, end) && order != []
      requires Distinct(order)
      requires forall w :: w in order ==> w in Clients() && w.backOffEndTime < start
      modifies this`log, this`lastSuccessfulEndpoint, order
      ensures Valid()
      ensures r == Response(answers, |order|)
      ensures log == old(log) + AttemptsOf(order, answers, start, Tried(answers, |order|))
      ensures forall i :: 0 <= i < |order| ==>
                if i < Tried(answers, |order|) then order[i].UpdatedBy(answers(i)) else unchanged(order[i])
      ensures r.Success? ==> lastSuccessfulEndpoint == order[Conclusive(answers, |order|)].endpoint
      ensures r.Failure? ==> lastSuccessfulEndpoint == old(lastSuccessfulEndpoint)
    {
      hide AttemptsOf, Response, Tried, Valid;
      AttemptsStep(order, answers, start);
      var k := 0;
      while k < |order|
        invariant 0 <= k <= |order|
        invariant Valid()
        invariant forall i :: k <= i < |order| ==> unchanged(order[i])
        invariant forall i :: 0 <= i < k ==> answers(i).outcome.FailoverableError? && order[i].UpdatedBy(answers(i))
        invariant log == old(log) + AttemptsOf(order, answers, start, k)
        invariant lastSuccessfulEndpoint == old(lastSuccessfulEndpoint)
      {
        var answer := answers(k);
        ResponseAt(answers, |order|, k);
        assert order[k] in order && order[k] in Clients() && unchanged(order[k]);
        if answer.outcome.Settings? {
          SetLastSuccessful(order[k].endpoint);
        }
        RecordAttempt(order[k], start, answer.outcome.Settings?, answer.at, answer.random);
        match answer.outcome {
          case FailoverableError =>
          case FatalError => return Failure(ClientFailed);
          case Settings(response) => return Success(response);
        }
        k := k + 1;
      }
      ResponseAt(answers, |order|, |order|);
      r := Failure(AllClientsFailed);
    }

    /** The order in which a request tries the available clients: with load balancing, the
        one after the last that succeeded comes first. */
    method OrderClients(available: seq<ConfigurationClientWrapper>, loadBalancing: bool)
      returns (order: seq<ConfigurationClientWrapper>)
      ensures order == RotatedLeft(available, FirstTried(Endpoints(available), loadBalancing, lastSuccessfulEndpoint))
    {
      var nextClientIndex := |available|;
      if loadBalancing && lastSuccessfulEndpoint != "" && |available| > 1 {
        nextClientIndex := FindNextIndex(available, lastSuccessfulEndpoint);
      }
      if nextClientIndex < |available| {
        order := RotatedCopy(available, nextClientIndex);
      } else {
        order := available;
      }
    }

    /** The clients of a request in the order it will try them. */
    method PrepareClients(loadBalancing: bool, start: Time, discovery: Discovery)
      returns (order: seq<ConfigurationClientWrapper>, ghost available: seq<ConfigurationClientWrapper>)
      requires Valid()
      modifies this`dynamicClientWrappers, this`lastFallbackClientRefresh, this`lastFallbackClientAttempt
      ensures Valid()
      ensures if replicaDiscoveryEnabled && old(DiscoveryDue(start))
              then lastFallbackClientAttempt == start && Rediscovered(discovery, start)
              else lastFallbackClientAttempt == old(lastFallbackClientAttempt) && NotDiscovered()
      ensures available == Available(staticClientWrappers, start)
                           + if replicaDiscoveryEnabled then Available(dynamicClientWrappers.GetOr([]), start) else []
      ensures order == RotatedLeft(available, FirstTried(Endpoints(available), loadBalancing, lastSuccessfulEndpoint))
      ensures Distinct(order)
      ensures forall k :: 0 <= k < |order| ==> order[k] in Clients() && order[k].backOffEndTime < start
    {
      hide Endpoints, Rediscovered, DiscoveryDue, Available, RotatedLeft, FirstTried;
      var clients := GetClients(start, discovery);
      available := clients;
      AvailableMembers(available, start);
      order := OrderClients(clients, loadBalancing);
      RotatedMembers(available, FirstTried(Endpoints(available), loadBalancing, lastSuccessfulEndpoint));
    }

    lemma AvailableMembers(available: seq<ConfigurationClientWrapper>, start: Time)
      requires Valid()
      requires available == Available(staticClientWrappers, start)
                            + if replicaDiscoveryEnabled then Available(dynamicClientWrappers.GetOr([]), start) else []
      ensures Distinct(available) && forall w :: w in available ==> w in Clients() && w.backOffEndTime < start
    {
      var candidates := if replicaDiscoveryEnabled then Clients() else staticClientWrappers;
      AvailableAppend(staticClientWrappers, dynamicClientWrappers.GetOr([]), start);
      assert available == Available(candidates, start);
      AvailableIsExact(candidates, start);
      StaticsAreDistinct();
    }

    lemma StaticsAreDistinct()
      requires Valid()
      ensures Distinct(staticClientWrappers)
    {
      assert forall k :: 0 <= k < |staticClientWrappers| ==> Clients()[k] == staticClientWrappers[k];
    }

    /** Discovery is due at the start of a request, and succeeds. */
    ghost predicate Discovers(start: Time, discovery: Discovery)
      reads this
    {
      replicaDiscoveryEnabled && DiscoveryDue(start) && Succeeds(discovery)
    }

    /** The dynamic clients that a request counts on are those known before, or else those it
        has discovered; available are, in order, the clients not in back-off. */
    twostate predicate CountsOn(new available: seq<ConfigurationClientWrapper>,
                                new replicas: seq<ConfigurationClientWrapper>,
                                start: Time, new discovery: Discovery)
    {
      if old(Discovers(start, discovery)) then
        && fresh(replicas) && DiscoveredEndpoints(Endpoints(replicas), discovery)
        && available == old(Available(staticClientWrappers, start)) + if start > 0 then replicas else []
      else
        && replicas == old(if replicaDiscoveryEnabled then dynamicClientWrappers.GetOr([]) else [])
        && available == old(Available(staticClientWrappers, start)) + old(Available(replicas, start))
    }

    /** Every attempt updates its wrapper's back-off, and no other wrapper changes. */
    twostate predicate OnlyAttemptedChange<R>(clients: seq<ConfigurationClientWrapper>,
                                              new attempted: seq<ConfigurationClientWrapper>,
                                              new answers: nat -> Answer<R>)
      reads clients
    {
      && (forall i :: 0 <= i < |attempted| && attempted[i] in clients ==> attempted[i].UpdatedBy(answers(i)))
      && forall w :: w in clients && w !in attempted ==> unchanged(w)
    }

    ghost method AdvanceClock(start: Time)
      requires Valid() && clock <= start
      modifies this`clock
      ensures Valid() && clock == start
    {
      clock := start;
    }

    /** The start of a request: its clients in order. */
    method SelectClients(loadBalancing: bool, start: Time, discovery: Discovery)
      returns (order: seq<ConfigurationClientWrapper>,
               ghost available: seq<ConfigurationClientWrapper>, ghost replicas: seq<ConfigurationClientWrapper>)
      requires Valid() && clock <= start
      modifies this`dynamicClientWrappers, this`lastFallbackClientRefresh, this`lastFallbackClientAttempt, this`clock
      ensures Valid() && clock == start
      ensures CountsOn(available, replicas, start, discovery)
      ensures order == RotatedLeft(available, FirstTried(Endpoints(available), loadBalancing, lastSuccessfulEndpoint))
      ensures Distinct(order)
      ensures forall k :: 0 <= k < |order| ==> order[k] in Clients() && order[k].backOffEndTime < start
      ensures forall w :: w in Clients() ==> w in old(Clients()) || fresh(w)
      ensures !old(replicaDiscoveryEnabled && DiscoveryDue(start)) ==> NotDiscovered()
    {
      hide RotatedLeft, FirstTried, Endpoints, Available, Valid;
      AdvanceClock(start);
      order, available := PrepareClients(loadBalancing, start, discovery);
      replicas := if replicaDiscoveryEnabled then dynamicClientWrappers.GetOr([]) else [];
      DiscoveredAreAvailable(replicas, start);
      assert Available([], start) == [] by { NoneAvailable(start); }
    }

    /** Tries the clients in order, if there are any. */
    method TryClients<R>(order: seq<ConfigurationClientWrapper>, start: Time, end: Time, answers: nat -> Answer<R>,
                         ghost clients: seq<ConfigurationClientWrapper>)
      returns (r: Result<R, RequestError>)
      requires Valid() && clock == start && Timely(answers, start, end)
      requires Distinct(order)
      requires forall w :: w in order ==> w in Clients() && w.backOffEndTime < start
      modifies this`log, this`lastSuccessfulEndpoint, order
      ensures Valid()
      ensures r == Response(answers, |order|)
      ensures log == old(log) + AttemptsOf(order, answers, start, Tried(answers, |order|))
      ensures OnlyAttemptedChange(clients, order[..Tried(answers, |order|)], answers)
      ensures r.Success? ==> lastSuccessfulEndpoint == order[Conclusive(answers, |order|)].endpoint
      ensures r.Failure? ==> lastSuccessfulEndpoint == old(lastSuccessfulEndpoint)
    {
      hide AttemptsOf, Response;
      NothingTried(order, answers, start);
      if |order| == 0 {
        return Failure(NoClientAvailable);
      }
      r := TryInOrder(order, start, end, answers);
      ghost var attempted := order[..Tried(answers, |order|)];
      forall w | w in clients && w !in attempted
        ensures unchanged(w)
      {
        if w in order {
          var k :| 0 <= k < |order| && order[k] == w;
          NotInPrefix(order, |attempted|, k);
        }
      }
      assert forall i :: 0 <= i < |attempted| ==> attempted[i] == order[i];
    }

    /** The attempts of a request, from the choice of its clients to its outcome. */
    method SelectAndTry<R>(loadBalancing: bool, start: Time, end: Time, answers: nat -> Answer<R>, discovery: Discovery)
      returns (r: Result<R, RequestError>, order: seq<ConfigurationClientWrapper>,
               ghost available: seq<ConfigurationClientWrapper>, ghost replicas: seq<ConfigurationClientWrapper>)
      requires Valid() && clock <= start <= end && Timely(answers, start, end)
      modifies this, Clients()
      ensures Valid() && clock == start
      ensures staticClientWrappers == old(staticClientWrappers)
      ensures CountsOn(available, replicas, start, discovery)
      ensures order == RotatedLeft(available,
                                   FirstTried(Endpoints(available), loadBalancing, old(lastSuccessfulEndpoint)))
      ensures Distinct(order)
      ensures r == Response(answers, |order|)
      ensures log == old(log) + AttemptsOf(order, answers, start, Tried(answers, |order|))
      ensures OnlyAttemptedChange(old(Clients()), order[..Tried(answers, |order|)], answers)
      ensures r.Success? ==> lastSuccessfulEndpoint == order[Conclusive(answers, |order|)].endpoint
      ensures !old(replicaDiscoveryEnabled && DiscoveryDue(start)) ==> NotDiscovered()
      ensures r.Failure? ==> lastSuccessfulEndpoint == old(lastSuccessfulEndpoint)
    {
      hide RotatedLeft, FirstTried, Endpoints, Available, CountsOn, Rediscovered, AttemptsOf, Response, Conclusive,
           DiscoveryDue,
           Valid;
      order, available, replicas := SelectClients(loadBalancing, start, discovery);
      ghost var clients := old(Clients());
      assert forall w :: w in clients ==> unchanged(w);
      label Selected:
      r := TryClients(order, start, end, answers, clients);
      ghost var attempted := order[..Tried(answers, |order|)];
      forall w | w in clients && w !in attempted
        ensures unchanged(w)
      {
        assert unchanged@Selected(w);
      }
      forall i | 0 <= i < |attempted| && attempted[i] in clients
        ensures attempted[i].UpdatedBy(answers(i))
      {
        assert attempted[i].UpdatedBy@Selected(answers(i));
      }
      assert OnlyAttemptedChange(clients, attempted, answers);
    }

    /** One request made at `start` and over by `end`. The available clients are tried, each
        at most once, until one succeeds or fails fatally. */
    method ExecuteFailoverPolicy<R>(loadBalancing: bool, start: Time, end: Time, answers: nat -> Answer<R>,
                                    first: Discovery, second: Discovery)
      returns (r: Result<R, RequestError>, order: seq<ConfigurationClientWrapper>,
               ghost available: seq<ConfigurationClientWrapper>, ghost replicas: seq<ConfigurationClientWrapper>)
      requires Valid() && clock <= start <= end && Timely(answers, start, end)
      modifies this, Clients()
      ensures Valid() && clock == end
      ensures staticClientWrappers == old(staticClientWrappers)
      ensures CountsOn(available, replicas, start, first)
      ensures order == RotatedLeft(available,
                                   FirstTried(Endpoints(available), loadBalancing, old(lastSuccessfulEndpoint)))
      ensures IsTryingOrder(order, available, Endpoints(available), loadBalancing, old(lastSuccessfulEndpoint))
      ensures Distinct(order)
      ensures r == Response(answers, |order|)
      ensures log == old(log) + AttemptsOf(order, answers, start, Tried(answers, |order|))
      ensures OnlyAttemptedChange(old(Clients()), order[..Tried(answers, |order|)], answers)
      ensures r.Success? ==> lastSuccessfulEndpoint == order[Conclusive(answers, |order|)].endpoint
      ensures r.Success? && !old(replicaDiscoveryEnabled && DiscoveryDue(start)) ==> NotDiscovered()
      ensures r.Failure? ==> lastSuccessfulEndpoint == old(lastSuccessfulEndpoint)
    {
      hide RotatedLeft, FirstTried, Endpoints, Available, CountsOn, Rediscovered, AttemptsOf, Response, Conclusive,
           DiscoveryDue, OnlyAttemptedChange, IsTryingOrder;
      ghost var last := lastSuccessfulEndpoint;
      r, order, available, replicas := SelectAndTry(loadBalancing, start, end, answers, first);
      TriesInOrder(available, Endpoints(available), loadBalancing, last);
      if r == Failure(NoClientAvailable) || r == Failure(AllClientsFailed) {
        RefreshClients(end, second);
      }
      clock := end;
    }
  }

  lemma AttemptsStep<R>(order: seq<ConfigurationClientWrapper>, answers: nat -> Answer<R>, now: Time)
    ensures AttemptsOf(order, answers, now, 0) == []
    ensures forall k: nat :: k < |order| ==>
              AttemptsOf(order, answers, now, k + 1)
              == AttemptsOf(order, answers, now, k)
                + [Attempt(order[k], now, answers(k).at, answers(k).outcome.Settings?)]
  {
  }

  /** The response once the first k of n clients have failed failoverably. */
  lemma ResponseAt<R>(answers: nat -> Answer<R>, n: nat, k: nat)
    requires 0 < n && k <= n && forall i :: 0 <= i < k ==> answers(i).outcome.FailoverableError?
    ensures k < n && !answers(k).outcome.FailoverableError? ==>
              && Conclusive(answers, n) == k && Tried(answers, n) == k + 1
              && Response(answers, n) == if answers(k).outcome.Settings? then Success(answers(k).outcome.response)
                 else Failure(ClientFailed)
    ensures k == n ==>
              Conclusive(answers, n) == n && Tried(answers, n) == n && Response(answers, n) == Failure(AllClientsFailed)
  {
  }

  lemma RotatedMembers<T>(s: seq<T>, k: nat)
    requires k <= |s|
    ensures |RotatedLeft(s, k)| == |s| && forall i :: 0 <= i < |s| ==> RotatedLeft(s, k)[i] in s
    ensures Distinct(s) ==> Distinct(RotatedLeft(s, k))
  {
    RotationKeepsMembers(s, k);
  }

  lemma NotInPrefix<T>(s: seq<T>, n: nat, k: nat)
    requires n <= |s| && k < |s| && s[k] !in s[..n]
    ensures k >= n
  {
  }

  lemma NothingTried<R>(order: seq<ConfigurationClientWrapper>, answers: nat -> Answer<R>, now: Time)
    ensures order == [] ==>
              && Response(answers, |order|) == Failure(NoClientAvailable) && Tried(answers, |order|) == 0
              && AttemptsOf(order, answers, now, 0) == []
  {
  }

  lemma NoneAvailable(now: Time)
    ensures Available([], now) == []
  {
  }

  /** Wrappers that are not in back-off are all available. */
  lemma {:induction false} DiscoveredAreAvailable(ws: seq<ConfigurationClientWrapper>, now: Time)
    ensures (forall w :: w in ws ==> w.backOffEndTime == 0) ==> Available(ws, now) == if now > 0 then ws else []
  {
    if ws != [] {
      DiscoveredAreAvailable(ws[1..], now);
    }
  }

  /** Rotates the slice of clients in place; no one else holds it. */
  method RotatedCopy(available: seq<ConfigurationClientWrapper>,
                     k: nat) returns (order: seq<ConfigurationClientWrapper>)
    requires k < |available|
    ensures order == RotatedLeft(available, k)
  {
    var clients := new ConfigurationClientWrapper[|available|](i requires 0 <= i < |available| => available[i]);
    assert clients[..] == available;
    SmallRemainder(k, clients.Length);
    Rotate(clients, k);
    order := clients[..];
  }

  /** The loop that looks for the client after the last successful one. */
  method FindNextIndex(clients: seq<ConfigurationClientWrapper>,
                       lastSuccessfulEndpoint: string) returns (nextClientIndex: nat)
    ensures nextClientIndex == NextIndex(Endpoints(clients), lastSuccessfulEndpoint)
  {
    ghost var endpoints := Endpoints(clients);
    nextClientIndex := 0;
    assert endpoints[0..] == endpoints;
    while nextClientIndex < |clients|
      invariant 0 <= nextClientIndex <= |clients|
      invariant nextClientIndex + NextIndex(endpoints[nextClientIndex..], lastSuccessfulEndpoint)
             == NextIndex(endpoints, lastSuccessfulEndpoint)
    {
      var clientWrapper := clients[nextClientIndex];
      assert endpoints[nextClientIndex..][1..] == endpoints[nextClientIndex + 1..];
      nextClientIndex := nextClientIndex + 1;
      if clientWrapper.endpoint == lastSuccessfulEndpoint {
        return;
      }
    }
  }

  /** The loop over a list of wrappers that keeps those not in back-off. */
  method SelectAvailable(ws: seq<ConfigurationClientWrapper>,
                         now: Time) returns (clients: seq<ConfigurationClientWrapper>)
    ensures clients == Available(ws, now)
  {
    hide Available;
    assert ws[0..] == ws;
    clients := [];
    var k := 0;
    while k < |ws|
      invariant 0 <= k <= |ws|
      invariant clients + Available(ws[k..], now) == Available(ws, now)
    {
      AvailableStep(ws, k, now);
      if now > ws[k].backOffEndTime {
        clients := clients + [ws[k]];
      }
      k := k + 1;
    }
    NoneAvailable(now);
    assert ws[k..] == [];
  }

  lemma AvailableStep(ws: seq<ConfigurationClientWrapper>, k: nat, now: Time)
    requires k < |ws|
    ensures Available(ws[k..], now)
            == (if now > ws[k].backOffEndTime then [ws[k]] else []) + Available(ws[k + 1..], now)
  {
    assert ws[k..][1..] == ws[k + 1..];
  }
}
