/** Requests in a row with load balancing on: as long as they succeed, the clients of a
    configuration store take turns (ExecuteFailoverPolicy in
    internal/loader/configuration_setting_loader.go). */
module LoadBalancing {
  import opened Clock
  import opened Rotation
  import opened ClientManager

  lemma {:induction false} AllAvailable(ws: seq<ConfigurationClientWrapper>, now: Time)
    requires forall w :: w in ws ==> w.backOffEndTime < now
    ensures Available(ws, now) == ws
  {
    if ws != [] {
      AllAvailable(ws[1..], now);
      assert ws == [ws[0]] + ws[1..];
    }
  }

  lemma {:induction false} FirstIsConclusive<R>(answers: nat -> Answer<R>, n: nat)
    requires n > 0 && !answers(0).outcome.FailoverableError?
    ensures Conclusive(answers, n) == 0 && Tried(answers, n) == 1
  {
    if n > 1 {
      FirstIsConclusive(answers, n - 1);
    }
  }

  /** Every run of as many entries as there are clients names each client exactly once. */
  ghost predicate IsFair(clients: seq<ConfigurationClientWrapper>, served: seq<ConfigurationClientWrapper>) {
    forall from: nat, i: nat :: from + |clients| <= |served| && i < |clients| ==> OnceWithin(served, from, |clients|,
        clients[i])
  }

  ghost predicate OnceWithin(served: seq<ConfigurationClientWrapper>, from: nat, length: nat,
                             client: ConfigurationClientWrapper)
    requires from + length <= |served|
  {
    exists k :: from <= k < from + length && served[k] == client
             && forall k' :: from <= k' < from + length && served[k'] == client ==> k' == k
  }

  /** The clients that n successful requests in a row are served by. */
  ghost function ServedBy(clients: seq<ConfigurationClientWrapper>, lastSuccessful: string,
                          n: nat): seq<ConfigurationClientWrapper>
    requires clients != []
  {
    seq(n, k requires 0 <= k < n => clients[Serving(Endpoints(clients), lastSuccessful, k)])
  }

  lemma TurnsAreFair(clients: seq<ConfigurationClientWrapper>, lastSuccessful: string, n: nat)
    requires |clients| >= 2 && Distinct(Endpoints(clients)) && "" !in Endpoints(clients)
    ensures IsFair(clients, ServedBy(clients, lastSuccessful, n))
  {
    var endpoints, served := Endpoints(clients), ServedBy(clients, lastSuccessful, n);
    forall from: nat, i: nat | from + |clients| <= n && i < |clients|
      ensures OnceWithin(served, from, |clients|, clients[i])
    {
      RoundRobinIsFair(endpoints, lastSuccessful, from, i);
      var k :| from <= k < from + |clients| && Serving(endpoints, lastSuccessful, k) == i;
      assert served[k] == clients[i];
      forall k' | from <= k' < from + |clients| && served[k'] == clients[i]
        ensures k' == k
      {
        var i' := Serving(endpoints, lastSuccessful, k');
        assert endpoints[i'] == endpoints[i];
        assert i' == i;
      }
    }
  }

  ghost function ClientsOf(log: seq<Attempt>): seq<ConfigurationClientWrapper> {
    seq(|log|, k requires 0 <= k < |log| => log[k].client)
  }

  /** The manager's clients are all available from a time on, and known until the last request. */
  ghost predicate Ready(manager: ConfigurationClientManager, first: Time, last: Time)
    reads manager, manager.Clients()
  {
    && manager.replicaDiscoveryEnabled && manager.dynamicClientWrappers.Some?
    && last <= manager.lastFallbackClientRefresh + FALLBACK_CLIENT_REFRESH_EXPIRE_INTERVAL
    && forall w :: w in manager.Clients() ==> w.backOffEndTime < first
  }

  /** One request that its first client answers. */
  method Serve<R>(manager: ConfigurationClientManager, now: Time, response: R, ghost first: Time, ghost last: Time,
                  discovery: Discovery)
    requires manager.Valid() && Ready(manager, first, last) && manager.clock <= now && first <= now <= last
    requires manager.Clients() != []
    modifies manager, manager.Clients()
    ensures manager.Valid() && Ready(manager, first, last) && manager.clock == now
            && manager.Clients() == old(manager.Clients())
    ensures var k := FirstTried(Endpoints(manager.Clients()), true, old(manager.lastSuccessfulEndpoint));
            && k < |manager.Clients()|
            && manager.lastSuccessfulEndpoint == manager.Clients()[k].endpoint
            && ClientsOf(manager.log) == old(ClientsOf(manager.log)) + [manager.Clients()[k]]
  {
    hide Endpoints, Available, FirstTried, AttemptsOf, ClientsOf, Conclusive, RotatedLeft;
    ghost var clients, before := manager.Clients(), manager.log;
    ghost var k := FirstTried(Endpoints(clients), true, manager.lastSuccessfulEndpoint);
    ReadyClients(manager, now, first, last);
    TriedIsClient(Endpoints(clients), manager.lastSuccessfulEndpoint);
    RotatedHead(clients, k);
    var answers := (i: nat) => Answer(Settings(response), now, 0.0);
    FirstIsConclusive(answers, |clients|);
    var r, order, available, counted := manager.ExecuteFailoverPolicy(true, now, now, answers, discovery, discovery);
    assert available == clients;
    OneAttempt(before, order, answers, now);
    assert order[..1] == [clients[k]];
  }

  lemma ReadyClients(manager: ConfigurationClientManager, now: Time, first: Time, last: Time)
    requires Ready(manager, first, last) && first <= now <= last
    ensures Available(manager.staticClientWrappers, now) == manager.staticClientWrappers
    ensures Available(manager.dynamicClientWrappers.value, now) == manager.dynamicClientWrappers.value
    ensures !manager.DiscoveryDue(now)
  {
    var statics, replicas := manager.staticClientWrappers, manager.dynamicClientWrappers.value;
    assert forall w :: w in statics ==> w in manager.Clients();
    assert forall w :: w in replicas ==> w in manager.Clients();
    AllAvailable(statics, now);
    AllAvailable(replicas, now);
  }

  lemma RotatedHead<T>(s: seq<T>, k: nat)
    requires k < |s|
    ensures |RotatedLeft(s, k)| == |s| && RotatedLeft(s, k)[0] == s[k]
  {
  }

  lemma OneAttempt<R>(log: seq<Attempt>, order: seq<ConfigurationClientWrapper>, answers: nat -> Answer<R>, now: Time)
    requires order != []
    ensures ClientsOf(log + AttemptsOf(order, answers, now, 1)) == ClientsOf(log) + [order[0]]
  {
  }

  lemma TriedIsClient(endpoints: seq<string>, lastSuccessful: string)
    requires endpoints != []
    ensures FirstTried(endpoints, true, lastSuccessful) < |endpoints|
  {
  }

  /** Requests in a row, each answered by the first client that it tries: the log shows that the
      clients take turns. */
  method ServeInTurn<R>(manager: ConfigurationClientManager, times: seq<Time>, responses: nat -> R,
                        discovery: Discovery)
    requires manager.Valid() && times != [] && manager.clock <= times[0]
    requires forall j, k :: 0 <= j <= k < |times| ==> times[j] <= times[k]
    requires Ready(manager, times[0], times[|times| - 1])
    requires |manager.Clients()| >= 2 && Distinct(Endpoints(manager.Clients())) && "" !in Endpoints(manager.Clients())
    modifies manager, manager.Clients()
    ensures manager.Valid() && manager.Clients() == old(manager.Clients())
    ensures |manager.log| == |old(manager.log)| + |times|
    ensures IsFair(manager.Clients(), ClientsOf(manager.log)[|old(manager.log)|..])
  {
    hide Endpoints, FirstTried;
    ghost var clients, lastSuccessful := manager.Clients(), manager.lastSuccessfulEndpoint;
    ghost var first, last := times[0], times[|times| - 1];
    var k := 0;
    while k < |times|
      invariant 0 <= k <= |times|
      invariant manager.Valid() && manager.Clients() == clients && Ready(manager, first, last)
      invariant manager.clock <= if k == 0 then first else times[k - 1]
      invariant ClientsOf(manager.log) == old(ClientsOf(manager.log)) + ServedBy(clients, lastSuccessful, k)
      invariant manager.lastSuccessfulEndpoint
                == if k == 0 then lastSuccessful
                  else Endpoints(clients)[Serving(Endpoints(clients), lastSuccessful, k - 1)]
    {
      Serve(manager, times[k], responses(k), first, last, discovery);
      ServesNext(clients, lastSuccessful, k);
      k := k + 1;
    }
    TurnsAreFair(clients, lastSuccessful, |times|);
    assert ClientsOf(manager.log)[|old(manager.log)|..] == ServedBy(clients, lastSuccessful, |times|);
  }

  lemma ServesNext(clients: seq<ConfigurationClientWrapper>, lastSuccessful: string, k: nat)
    requires clients != []
    ensures var endpoints := Endpoints(clients);
            var before := if k == 0 then lastSuccessful else endpoints[Serving(endpoints, lastSuccessful, k - 1)];
            && Serving(endpoints, lastSuccessful, k) == FirstTried(endpoints, true, before)
            && endpoints[Serving(endpoints, lastSuccessful, k)]
               == clients[Serving(endpoints, lastSuccessful, k)].endpoint
            && ServedBy(clients, lastSuccessful, k + 1)
               == ServedBy(clients, lastSuccessful, k) + [clients[Serving(endpoints, lastSuccessful, k)]]
  {
    hide FirstTried;
  }
}
