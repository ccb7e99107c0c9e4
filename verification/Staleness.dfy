/** How fresh the ConfigMap and the Secrets are: drift is repaired by a full load, what is due
    is brought up to the store as of the start of the reconcile, and a run that comes back when
    it is asked to examines every refresh soon after its deadline. */
module Staleness {
  import opened Clock
  import opened Wrappers
  import opened TypedSetting
  import opened ReconcileTypes
  import opened Processor
  import opened Reconciler
  import opened NoLostUpdate
  import opened SecretGuarantees
  import opened Deadlines
  import opened Convergence
  import opened SecretRefresh

  // ---------------------------------------------------------------- what is examined

  lemma ExaminedBefore(still: bool, spec: Spec, store: Store, env: Env, full: bool, before: Recon, prepared: Recon,
                       v: nat, w: nat)
    requires Examined(still, spec, store, env, full, prepared, v, w)
    requires forall kind :: DeadlineOf(prepared, kind) == DeadlineOf(before, kind)
    ensures Examined(still, spec, store, env, full, before, v, w)
  {
    assert DeadlineOf(prepared, KeyValue) == prepared.nextKeyValue
           && DeadlineOf(before, KeyValue) == before.nextKeyValue;
    assert DeadlineOf(prepared, FeatureFlag) == prepared.nextFeatureFlag
           && DeadlineOf(before, FeatureFlag) == before.nextFeatureFlag;
  }

  /** After a reconcile that is done, the ConfigMap stands for versions v and w of the store that
      are as fresh as what was examined, and the recorded ETags are at most these. */
  lemma DoneExamines(c: Codec, still: bool, s: State, env: Env, store: Store) returns (v: nat, w: nat)
    requires Inverse(c) && Invariant(c, still, s) && ValidEnv(env, s.store, store)
             && (still && !InStep(s) ==> SentinelsStill(env, store))
    ensures var r := Reconcile(c, s.(store := store), env);
            r.outcome.Done? ==>
              && StandsFor(c, s.provider.spec, r.state.cluster, store, v, w)
              && r.state.recon.Some? && AllAtMost(still, r.state.recon.value, s.provider.spec, store, v, w)
              && Examined(still, s.provider.spec, store, env, !InStep(s), s.recon.GetOr(INITIAL), v, w)
  {
    hide PopulateAndWrite, SyncSecrets, Prepare, Invariant, Prepared, InStep, Examined, DeadlineOf, StandsFor,
         ShouldReconcile;
    v, w := 0, 0;
    ForgetSentinels(c, still, s);
    var (ready, recon) := Prepare(s.provider, s.cluster, s.recon, env);
    if ValidSpec(s.provider.spec) && ready {
      MiddleFacts(c, s, env, store, recon);
      PrepareFacts(s.provider, s.cluster, s.recon, env);
      PreparedDrift(c, s, env, recon);
      var prepared := s.(store := store, recon := recon);
      PreparedWith(c, still, s, env, store, recon);
      v, w := PopulateAndWriteFacts(c, still, prepared, env, s.store, recon.value);
      var written := PopulateAndWrite(c, s.(store := store), env, recon.value);
      if written.Go? {
        ExaminedBefore(still, s.provider.spec, store, env, !InStep(s), s.recon.GetOr(INITIAL), recon.value, v, w);
        var existing := Live(s.cluster, NamesToCollect(s.provider.spec, recon.value));
        var synced := SyncSecrets(c, s.provider, env, existing, written.run);
        SyncSecretsKeepsCore(c, s.provider, env, existing, written.run);
        SyncKeepsWritten(c, still, prepared, env, written.run, synced.run, v, w);
        WrittenStands(c, still, prepared, env, synced.run, v, w);
      }
    }
  }

  lemma PreparedWith(c: Codec, still: bool, s: State, env: Env, store: Store, recon: Option<Recon>)
    requires Inverse(c) && Invariant(c, still, s) && ValidEnv(env, s.store, store) && ValidSpec(s.provider.spec)
    requires Prepare(s.provider, s.cluster, s.recon, env) == (true, recon) && recon.Some?
             && (still && !InStep(s) ==> SentinelsStill(env, store))
    ensures Prepared(c, still, s.(store := store, recon := recon), env, s.store, recon.value)
  {
    hide Prepare, Invariant, InStep, ShouldReconcile;
    ForgetSentinels(c, still, s);
    PreparedDrift(c, s, env, recon);
    PrepareKeepsInvariant(c, still, s, env);
    assert s.(store := store, recon := recon).(store := s.store) == s.(recon := recon);
  }

  lemma WrittenStands(c: Codec, still: bool, s: State, env: Env, run: Run, v: nat, w: nat)
    requires Written(c, still, s, env, run, v, w)
    ensures StandsFor(c, s.provider.spec, run.cluster, s.store, v, w)
    ensures AllAtMost(still, FinishedRecon(s.provider, run), s.provider.spec, s.store, v, w)
  {
    hide StandsFor;
  }

  // ---------------------------------------------------------------- what is due is fresh

  /** As to this kind of refresh, the cluster is as fresh as the store was when the reconcile
      started; with sentinels that have been still, it has what they had
      announced by then. */
  ghost predicate IsFresh(c: Codec, still: bool, s: State, env: Env, store: Store, r: State, kind: Kind)
    requires s.store.keyValues != []
  {
    match kind
    case KeyValue =>
      exists v: nat, w: nat ::
        && StandsFor(c, s.provider.spec, r.cluster, store, v, w)
        && (if s.provider.spec.monitoring then
              still ==> SentinelAt(s.store, |s.store.keyValues| - 1) <= SentinelAt(store, v)
            else |s.store.keyValues| - 1 <= v)
    case FeatureFlag =>
      exists v: nat, w: nat :: StandsFor(c, s.provider.spec, r.cluster, store, v, w) && |s.store.featureFlags| - 1 <= w
    case SecretReference =>
      s.provider.spec.secret.Some? && r.recon.Some? &&
      forall n :: n in r.recon.value.secrets ==>
        && n in r.cluster.secrets
        && HoldsCurrentValues(c, s.provider.spec, env, n, r.recon.value.secrets[n], r.cluster.secrets[n].data)
  }

  lemma SentinelsSince(start: Store, store: Store, env: Env)
    requires ValidEnv(env, start, store)
    ensures var before := SentinelAt(start, |start.keyValues| - 1);
            before <= SentinelAt(store, env.sentinelChecked) && before <= SentinelAt(store, env.keyValuesFetched)
  {
    var last := |start.keyValues| - 1;
    assert SentinelAt(start, last) == SentinelAt(store, last);
  }

  /** Whatever a reconcile that is done has examined is fresh afterwards. */
  lemma ExaminedIsFresh(c: Codec, still: bool, s: State, env: Env, store: Store, kind: Kind)
    requires Inverse(c) && Invariant(c, still, s) && ValidEnv(env, s.store, store)
             && (still && !InStep(s) ==> SentinelsStill(env, store))
    requires IsExamined(s.provider.spec, DeadlineOf(s.recon.GetOr(INITIAL), kind), env, !InStep(s), kind)
    ensures Reconcile(c, s.(store := store), env).outcome.Done? ==>
              IsFresh(c, still, s, env, store, Reconcile(c, s.(store := store), env).state, kind)
  {
    hide Reconcile, Invariant, InStep, StandsFor, HoldsCurrentValues;
    ForgetSentinels(c, still, s);
    SentinelsSince(s.store, store, env);
    var r := Reconcile(c, s.(store := store), env).state;
    var v, w := DoneExamines(c, still, s, env, store);
    if kind.SecretReference? && Reconcile(c, s.(store := store), env).outcome.Done? {
      forall n | n in r.recon.value.secrets
        ensures n in r.cluster.secrets
        ensures HoldsCurrentValues(c, s.provider.spec, env, n, r.recon.value.secrets[n], r.cluster.secrets[n].data)
      {
        DueSecretsAreRenewed(c, s, env, store, n);
      }
    }
  }

  // ---------------------------------------------------------------- when to come back

  function Max(a: Time, b: Time): Time { if a < b then b else a }

  /** The requeue is at least a second, and comes back no later than any deadline that is set,
      or else in a second; it comes back no earlier than the earliest deadline. */
  lemma RequeueMeetsDeadlines(recon: Recon, finish: Time, kind: Kind)
    ensures RequeueAfter(recon, finish) >= SECOND
    ensures DeadlineOf(recon, kind) != 0 ==>
              finish + RequeueAfter(recon, finish) <= Max(DeadlineOf(recon, kind), finish + SECOND)
    ensures RequeueAfter(recon, finish) == SECOND
            || exists k :: DeadlineOf(recon, k) != 0 && finish + RequeueAfter(recon, finish) == DeadlineOf(recon, k)
  {
    var next := EarlierOf(EarlierOf(EarlierOf(0, recon.nextKeyValue), recon.nextSecret), recon.nextFeatureFlag);
    assert DeadlineOf(recon, KeyValue) == recon.nextKeyValue;
    assert DeadlineOf(recon, SecretReference) == recon.nextSecret;
    assert DeadlineOf(recon, FeatureFlag) == recon.nextFeatureFlag;
    assert next == DeadlineOf(recon, KeyValue) || next == DeadlineOf(recon, SecretReference)
           || next == DeadlineOf(recon, FeatureFlag);
  }

  /** After a reconcile that is done, enabled deadlines are not in the past, disabled ones are
      zero, and the requeue is at least a second. */
  lemma DoneSetsDeadlines(c: Codec, s: State, env: Env, store: Store, kind: Kind)
    requires Inverse(c) && Invariant(c, false, s) && ValidEnv(env, s.store, store)
    ensures var r := Reconcile(c, s.(store := store), env);
            r.outcome.Done? ==>
              && r.state.recon.Some?
              && (if IsEnabled(s.provider.spec, kind) then DeadlineOf(r.state.recon.value, kind) >= env.now
                  else DeadlineOf(r.state.recon.value, kind) == 0)
              && (r.outcome.requeueAfter.Some? <==> AnyEnabled(s.provider.spec))
              && (r.outcome.requeueAfter.Some? ==> r.outcome.requeueAfter.value >= SECOND)
  {
    hide Reconcile, Invariant, InStep;
    DoneSettles(c, s, env, store);
  }

  // ---------------------------------------------------------------- timely runs

  /** One reconcile in a run: the state it starts in, its environment, and the store at its end. */
  datatype Visit = Visit(start: State, env: Env, store: Store)

  ghost predicate Successful(c: Codec, still: bool, visit: Visit) {
    && Invariant(c, still, visit.start) && (still && !InStep(visit.start) ==> SentinelsStill(visit.env, visit.store))
    && ValidEnv(visit.env, visit.start.store, visit.store)
    && Reconcile(c, visit.start.(store := visit.store), visit.env).outcome.Done?
  }

  ghost function ResultOf(c: Codec, visit: Visit): Reconciled
    requires ValidEnv(visit.env, visit.start.store, visit.store)
  {
    Reconcile(c, visit.start.(store := visit.store), visit.env)
  }

  /** The next reconcile comes no later than asked for; in between, others may edit the cluster,
      the store and the annotations, but not the spec. */
  ghost predicate Follows(c: Codec, still: bool, visit: Visit, next: Visit)
    requires Successful(c, still, visit)
  {
    var r := ResultOf(c, visit);
    && next.start.recon == r.state.recon && next.start.provider.spec == visit.start.provider.spec
    && visit.env.finish <= next.env.now
    && (r.outcome.requeueAfter.Some? ==> next.env.now <= visit.env.finish + r.outcome.requeueAfter.value)
  }

  ghost predicate Timely(c: Codec, still: bool, visits: seq<Visit>) {
    && (forall i :: 0 <= i < |visits| ==> Successful(c, still, visits[i]))
    && (forall i :: 0 <= i < |visits| - 1 ==> Follows(c, still, visits[i], visits[i + 1]))
  }

  /** The deadline that a visit meets, and whether it examines that kind of refresh. */
  function DeadlineMet(visit: Visit, kind: Kind): Time { DeadlineOf(visit.start.recon.GetOr(INITIAL), kind) }

  ghost predicate Examines(visit: Visit, kind: Kind) {
    IsExamined(visit.start.provider.spec, DeadlineMet(visit, kind), visit.env, !InStep(visit.start), kind)
  }

  lemma OneVisit(c: Codec, still: bool, visit: Visit, next: Visit, kind: Kind)
    requires Inverse(c) && Successful(c, still, visit) && Follows(c, still, visit, next)
             && IsEnabled(visit.start.provider.spec, kind)
    ensures DeadlineMet(next, kind) >= visit.env.now
    ensures !Examines(visit, kind) ==> DeadlineMet(next, kind) == DeadlineMet(visit, kind)
    ensures next.env.now <= Max(DeadlineMet(next, kind), visit.env.finish + SECOND)
  {
    hide Reconcile, Invariant, InStep, RequeueAfter;
    ForgetSentinels(c, still, visit.start);
    DoneSettles(c, visit.start, visit.env, visit.store);
    var r := ResultOf(c, visit);
    RequeueMeetsDeadlines(r.state.recon.value, visit.env.finish, kind);
    DoneSetsDeadlines(c, visit.start, visit.env, visit.store, kind);
    var d := DeadlineOf(r.state.recon.value, kind);
    assert DeadlineMet(next, kind) == d;
    assert AnyEnabled(visit.start.provider.spec);
    assert visit.env.now > 0 && d != 0;
  }

  /** The deadline stays as long as the refresh is not examined. */
  lemma {:induction false} DeadlineStays(c: Codec, still: bool, visits: seq<Visit>, i: nat, j: nat, kind: Kind)
    requires Inverse(c) && Timely(c, still, visits) && i < j < |visits|
             && IsEnabled(visits[0].start.provider.spec, kind)
    requires forall k :: i < k < j ==> !Examines(visits[k], kind)
    ensures DeadlineMet(visits[j], kind) == DeadlineMet(visits[i + 1], kind)
    ensures IsEnabled(visits[j].start.provider.spec, kind)
  {
    hide Successful, Follows, Examines;
    SameSpec(c, still, visits, j);
    if j > i + 1 {
      DeadlineStays(c, still, visits, i, j - 1, kind);
      assert Follows(c, still, visits[j - 1], visits[j - 1 + 1]);
      OneVisit(c, still, visits[j - 1], visits[j], kind);
    }
  }

  lemma {:induction false} SameSpec(c: Codec, still: bool, visits: seq<Visit>, i: nat)
    requires Timely(c, still, visits) && i < |visits|
    ensures visits[i].start.provider.spec == visits[0].start.provider.spec
  {
    hide Successful;
    if i > 0 {
      SameSpec(c, still, visits, i - 1);
      assert Follows(c, still, visits[i - 1], visits[i - 1 + 1]);
    }
  }

  /** Bounded staleness: let d be the deadline of an enabled refresh after visit i, and j a later
      visit such that none in between examines the refresh. Then those in between were not later
      than d, visit j comes no later than d or a second after the previous one finished, and if
      it comes after d, it examines the refresh and leaves it fresh. */
  lemma BoundedStaleness(c: Codec, still: bool, visits: seq<Visit>, i: nat, j: nat, kind: Kind)
    requires Inverse(c) && Timely(c, still, visits) && i < j < |visits|
             && IsEnabled(visits[0].start.provider.spec, kind)
    requires forall k :: i < k < j ==> !Examines(visits[k], kind)
    ensures var d := DeadlineMet(visits[i + 1], kind);
            && (forall k :: i < k < j ==> visits[k].env.now <= d)
            && visits[j].env.now <= Max(d, visits[j - 1].env.finish + SECOND)
            && (visits[j].env.now > d ==>
                  && Successful(c, still, visits[j]) && Examines(visits[j], kind)
                  && IsFresh(c, still, visits[j].start, visits[j].env, visits[j].store, ResultOf(c, visits[j]).state,
                             kind))
  {
    hide Reconcile, Invariant, InStep, IsFresh;
    var d := DeadlineMet(visits[i + 1], kind);
    forall k | i < k < j
      ensures visits[k].env.now <= d
    {
      DeadlineStays(c, still, visits, i, k, kind);
      assert !Examines(visits[k], kind);
    }
    DeadlineStays(c, still, visits, i, j, kind);
    assert Follows(c, still, visits[j - 1], visits[j - 1 + 1]);
    SameSpec(c, still, visits, j - 1);
    OneVisit(c, still, visits[j - 1], visits[j], kind);
    if visits[j].env.now > d {
      ExaminedIsFresh(c, still, visits[j].start, visits[j].env, visits[j].store, kind);
    }
  }

  /** If reconciles take no time, every enabled refresh is examined at most a second after its
      deadline. */
  lemma InstantaneousStaleness(c: Codec, still: bool, visits: seq<Visit>, i: nat, j: nat, kind: Kind)
    requires Inverse(c) && Timely(c, still, visits) && i < j < |visits|
             && IsEnabled(visits[0].start.provider.spec, kind)
    requires forall k :: i < k < j ==> !Examines(visits[k], kind)
    requires visits[j - 1].env.finish == visits[j - 1].env.now
    ensures visits[j].env.now <= DeadlineMet(visits[i + 1], kind) + SECOND
  {
    hide Reconcile, Invariant, InStep, IsFresh;
    BoundedStaleness(c, still, visits, i, j, kind);
    SameSpec(c, still, visits, i);
    assert Follows(c, still, visits[i], visits[i + 1]);
    OneVisit(c, still, visits[i], visits[i + 1], kind);
  }
}
