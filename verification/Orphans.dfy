/** Secrets of the provider that it does not look at any more: how they come about, and that
    they stay. */
module Orphans {
  import opened Wrappers
  import opened TypedSetting
  import opened ReconcileTypes
  import opened Processor
  import opened Reconciler
  import opened NoLostUpdate
  import opened SecretSync
  import opened SecretGuarantees
  import opened Deadlines
  import opened Convergence
  import opened SecretRefresh
  import opened Repair
  import opened SecretCalls
  import opened RecordedVersions
  import opened StoppedLoads
  import opened Stopping
  import opened Failures
  import opened Plans

  /** A live Secret of the provider that is neither the target nor tracked. */
  ghost predicate Orphan(s: State, n: string) {
    && n in s.cluster.secrets && Owned(s.cluster.secrets[n].owners, s.provider)
    && n !in NamesToCollect(s.provider.spec, s.recon.GetOr(INITIAL))
  }

  /** Without a section for Secrets none is touched, and none stays tracked: once the section is
      removed, all Secrets that there are stay behind. */
  lemma RemovedSectionDeletesNothing(c: Codec, s: State, env: Env, store: Store)
    requires Inverse(c) && Invariant(c, false, s) && ValidEnv(env, s.store, store) && s.provider.spec.secret.None?
    ensures var r := Reconcile(c, s.(store := store), env);
            && r.state.cluster.secrets == s.cluster.secrets
            && (r.outcome.Done? ==> r.state.recon.Some? && r.state.recon.value.secrets == map[])
            && forall n ::
                 Orphan(r.state, n) <==> n in s.cluster.secrets && Owned(s.cluster.secrets[n].owners, s.provider)
  {
    hide PopulateAndWrite, Prepare, Invariant, ReadyToSync, Prepared, KeepsCore, ExpelSecrets;
    ReconcileKeepsProvider(c, s.(store := store), env);
    var (ready, recon) := Prepare(s.provider, s.cluster, s.recon, env);
    if ValidSpec(s.provider.spec) && ready {
      MiddleFacts(c, s, env, store, recon);
      PrepareFacts(s.provider, s.cluster, s.recon, env);
      var prepared := s.(store := store, recon := recon);
      PopulateAndWriteFrame(c, prepared, env, s.store, recon.value);
      var written := PopulateAndWrite(c, prepared, env, recon.value);
      if written.Go? {
        NotPopulatedWithoutSecret(prepared, recon.value, written.run);
        SameCluster(prepared, recon.value, written.run);
        ExistingIs(prepared, recon.value);
        NothingToExpel(c, prepared, env, recon.value, written.run);
      }
    }
  }

  lemma SyncLeavesOthers(c: Codec, s: State, env: Env, recon: Recon, run: Run, n: string)
    requires ListsKeys(env) && ReadyToSync(s, recon, run) && s.provider.spec.secret.Some?
    requires n !in NamesToCollect(s.provider.spec, recon)
    requires run.options.secretSettingPopulated ==> n !in run.settings.secrets
    ensures SameAt(s.cluster, SyncSecrets(c, s.provider, env, Existing(s, recon), run).run.cluster, n)
  {
    hide SyncCalls, Effective, NewAt, WriteSecrets, ExpelSecrets;
    if run.options.secretSettingPopulated {
      if ReadsNew(s.provider, env, Existing(s, recon), run) {
        SyncTouches(c, s, env, recon, run, n);
        assert n !in Collected(Existing(s, recon), run);
      } else {
        UnreadStops(c, s.provider, env, Existing(s, recon), run);
      }
    }
  }

  /** Of the names that are neither live nor looked at, a sync creates those with an effective
      write; it deletes none of those that are live. */
  lemma SyncCreates(c: Codec, s: State, env: Env, recon: Recon, run: Run, n: string)
    requires ListsKeys(env) && ReadyToSync(s, recon, run) && n !in NamesToCollect(s.provider.spec, recon)
    ensures run.options.secretSettingPopulated ==> s.provider.spec.secret.Some?
    ensures var secrets, copied := run.settings.secrets, run.settings.metadata.Shared?;
            var after := SyncSecrets(c, s.provider, env, Existing(s, recon), run).run;
            && (n in after.cluster.secrets <==>
                  || n in s.cluster.secrets
                  || (run.options.secretSettingPopulated && NamesRead(s, recon, env, secrets)
                      && PutSecret(n) in Effective(PlanCalls(c, s, recon, env, secrets, copied), env.fault)))
  {
    hide SyncCalls, Effective, Existing, Reads, WriteSecrets, ExpelSecrets, NewAt;
    SameCluster(s, recon, run);
    CollectedByPlan(s, recon, run);
    ExistingIs(s, recon);
    if run.options.secretSettingPopulated {
      assert ReadsNew(s.provider, env, Existing(s, recon), run) <==> NamesRead(s, recon, env, run.settings.secrets);
      if ReadsNew(s.provider, env, Existing(s, recon), run) {
        SyncTouches(c, s, env, recon, run, n);
        NewIsLive(run.cluster, SyncSecrets(c, s.provider, env, Existing(s, recon), run).run.cluster, n);
      } else {
        UnreadStops(c, s.provider, env, Existing(s, recon), run);
      }
    } else if s.provider.spec.secret.None? {
      NothingToExpel(c, s, env, recon, run);
    }
  }

  lemma NewIsLive(before: Cluster, after: Cluster, n: string)
    ensures NewAt(before, after, n) ==> n in after.secrets
  {
  }

  lemma SyncedIsOwned(c: Codec, s: State, env: Env, recon: Recon, run: Run, n: string)
    requires ListsKeys(env) && OwnedIfLive(run.cluster, s.provider, n)
    ensures OwnedIfLive(SyncSecrets(c, s.provider, env, Existing(s, recon), run).run.cluster, s.provider, n)
  {
    hide WriteSecrets, ExpelSecrets, OwnedIfLive;
    var existing := Existing(s, recon);
    if !run.options.secretSettingPopulated {
      ExpelsKeepOwned(env, MetadataOf(run).Keys, env.order(existing.Keys), run, s.provider, n);
    } else if ReadsNew(s.provider, env, existing, run) {
      var names := env.order(run.settings.secrets.Keys);
      assert Lists(names, run.settings.secrets.Keys);
      var collected := Collected(existing, run);
      WritesKeepOwned(c, s.provider, env, collected, names, run, n);
      var step := WriteSecrets(c, s.provider, env, collected, names, run);
      ExpelsKeepOwned(env, MetadataOf(step.run).Keys, env.order(collected.Keys), step.run, s.provider, n);
    }
  }

  // ---------------------------------------------------------------- main results

  /** Conservation, for every name: the orphans after a reconcile that is done are those of
      before that have not been selected since. It deletes none and leaves no new ones. */
  lemma OrphansAreConserved(c: Codec, s: State, env: Env, store: Store, n: string)
    requires Inverse(c) && Invariant(c, false, s) && ValidEnv(env, s.store, store) && s.provider.spec.secret.Some?
    ensures var r := Reconcile(c, s.(store := store), env);
            r.outcome.Done? ==>
              r.state.recon.Some? && (Orphan(r.state, n) <==> Orphan(s, n) && n !in r.state.recon.value.secrets)
  {
    hide PopulateAndWrite, SyncSecrets, Prepare, Invariant, ReadyToSync, Prepared, Existing, InStep, Sourced,
         LiveAsPopulated, KeepsCore, IsRefreshed, IsExamined, FinishedRecon;
    var r := Reconcile(c, s.(store := store), env);
    if r.outcome.Done? {
      ReconcileKeepsProvider(c, s.(store := store), env);
      SecretsAreConserved(c, s, env, store);
      DoneTracksTarget(c, s, env, store);
      DoneMeansValid(c, s, env, store);
      if n !in NamesToCollect(s.provider.spec, s.recon.GetOr(INITIAL)) && n !in r.state.recon.value.secrets {
        DoneLeavesOthers(c, s, env, store, n);
      }
    }
  }

  lemma DoneLeavesOthers(c: Codec, s: State, env: Env, store: Store, n: string)
    requires Inverse(c) && Invariant(c, false, s) && ValidEnv(env, s.store, store) && s.provider.spec.secret.Some?
    requires Reconcile(c, s.(store := store), env).outcome.Done? && ValidSpec(s.provider.spec)
    requires n !in NamesToCollect(s.provider.spec, s.recon.GetOr(INITIAL))
    requires var r := Reconcile(c, s.(store := store), env).state; r.recon.Some? && n !in r.recon.value.secrets
    ensures SameAt(s.cluster, Reconcile(c, s.(store := store), env).state.cluster, n)
  {
    hide PopulateAndWrite, SyncSecrets, Prepare, Invariant, ReadyToSync, Prepared, Existing, InStep, Sourced,
         LiveAsPopulated, KeepsCore, IsRefreshed, IsExamined, FinishedRecon;
    var (ready, recon) := Prepare(s.provider, s.cluster, s.recon, env);
    MiddleFacts(c, s, env, store, recon);
    DonePopulates(c, s, env, store);
    PrepareChecksOwners(s.provider, s.cluster, s.recon, env);
    var prepared := s.(store := store, recon := recon);
    ExistingIs(prepared, recon.value);
    SyncLeavesOthers(c, prepared, env, recon.value, Populated(c, s, env, store), n);
  }

  /** A reconcile gets past the ConfigMap, reads all names, and the write of n takes effect. */
  ghost predicate Creates(c: Codec, s: State, env: Env, store: Store, n: string)
    requires ValidEnv(env, s.store, store)
  {
    var t, full := s.(store := store), !InStep(s);
    var (ready, recon) := Prepare(s.provider, s.cluster, s.recon, env);
    && !s.running && ValidSpec(s.provider.spec) && ready && recon.Some?
    && EndingOf(t, env, recon.value, full) == Through
    && DataGoes(c, t, env, PlannedData(c, t, recon.value, env, full))
    && var secrets := PlannedSecrets(c, t, recon.value, env, full);
       && secrets.Some? && s.provider.spec.secret.Some? && NamesRead(t, recon.value, env, secrets.value)
       && PutSecret(n) in Effective(PlanCalls(c, t, recon.value, env, secrets.value,
                                              !SecretsLoad(t, recon.value, env, full)),
                                    env.fault)
  }

  /** What a reconcile leaves of a name that it does not look at. */
  lemma UnlookedAfter(c: Codec, s: State, env: Env, store: Store, n: string)
    requires Inverse(c) && Invariant(c, false, s) && ValidEnv(env, s.store, store)
    requires n !in NamesToCollect(s.provider.spec, s.recon.GetOr(INITIAL))
    ensures var after := Reconcile(c, s.(store := store), env).state.cluster;
            && (n in after.secrets <==> n in s.cluster.secrets || Creates(c, s, env, store, n))
            && (OwnedIfLive(s.cluster, s.provider, n) ==> OwnedIfLive(after, s.provider, n))
  {
    hide PopulateAndWrite, SyncSecrets, Prepare, Invariant, Prepared, Existing, InStep, ShouldReconcile, ReadyToSync,
         DataGoes, PlannedData, PlannedSecrets, SecretsLoad, PopulatingEnding, NamesRead, PlanCalls, Effective;
    var (ready, recon) := Prepare(s.provider, s.cluster, s.recon, env);
    if !s.running && ValidSpec(s.provider.spec) && ready {
      MiddleFacts(c, s, env, store, recon);
      PreparedDrift(c, s, env, recon);
      PrepareChecksOwners(s.provider, s.cluster, s.recon, env);
      var t, prepared := s.(store := store), s.(store := store, recon := recon);
      ExistingIs(prepared, recon.value);
      DataGoesExactly(c, prepared, env, s.store, recon.value);
      SamePlan(c, t, recon, env, !InStep(s));
      SameNames(c, t, recon, env);
      PopulateAndWriteFrame(c, prepared, env, s.store, recon.value);
      var written := PopulateAndWrite(c, prepared, env, recon.value);
      if written.Go? {
        SyncCreates(c, prepared, env, recon.value, written.run, n);
        if OwnedIfLive(s.cluster, s.provider, n) {
          SyncedIsOwned(c, prepared, env, recon.value, written.run, n);
        }
      }
    }
  }

  lemma SameNames(c: Codec, s: State, recon: Option<Recon>, env: Env)
    requires recon.Some? && ListsKeys(env)
    ensures var p, r := s.(recon := recon), recon.value;
            && (forall secrets: map<string, SecretContent> ::
                  NamesRead(p, r, env, secrets) == NamesRead(s, r, env, secrets))
            && (s.provider.spec.secret.Some? ==>
                  forall secrets: map<string, SecretContent>, copied: bool ::
                    PlanCalls(c, p, r, env, secrets, copied) == PlanCalls(c, s, r, env, secrets, copied))
  {
    hide SyncCalls, Reads;
  }

  /** A reconcile that is not done looks at the same names afterwards. */
  lemma NotDoneKeepsNames(c: Codec, s: State, env: Env, store: Store)
    requires Inverse(c) && Invariant(c, false, s) && ValidEnv(env, s.store, store)
    ensures var r := Reconcile(c, s.(store := store), env);
            !r.outcome.Done? ==>
              NamesToCollect(s.provider.spec, r.state.recon.GetOr(INITIAL))
              == NamesToCollect(s.provider.spec, s.recon.GetOr(INITIAL))
  {
    hide PopulateAndWrite, SyncSecrets, Prepare, Invariant, Prepared, Existing, ReadyToSync, KeepsCore;
    var (ready, recon) := Prepare(s.provider, s.cluster, s.recon, env);
    PreparedNames(s.provider, s.cluster, s.recon, env);
    if !s.running && ValidSpec(s.provider.spec) && ready {
      MiddleFacts(c, s, env, store, recon);
      var prepared := s.(store := store, recon := recon);
      ExistingIs(prepared, recon.value);
      PopulateAndWriteKeepsRecord(c, prepared, env, s.store, recon.value);
      var written := PopulateAndWrite(c, prepared, env, recon.value);
      SyncSecretsKeepsCore(c, s.provider, env, Existing(prepared, recon.value), written.run);
      KeepsTrackedNames(written.run, SyncSecrets(c, s.provider, env, Existing(prepared, recon.value), written.run).run);
    }
  }

  lemma PreparedNames(provider: Provider, cluster: Cluster, before: Option<Recon>, env: Env)
    ensures var recon := Prepare(provider, cluster, before, env).1;
            NamesToCollect(provider.spec, recon.GetOr(INITIAL)) == NamesToCollect(provider.spec, before.GetOr(INITIAL))
  {
    var recon := before.GetOr(INITIAL);
    assert Reset(provider.spec, recon, cluster).secrets.Keys
        == if provider.spec.secret.None? then {} else recon.secrets.Keys;
  }

  lemma KeepsTrackedNames(before: Run, after: Run)
    requires KeepsCore(before, after)
    ensures after.recon.secrets.Keys == before.recon.secrets.Keys
  {
  }

  /** A reconcile that is not done, whatever its kind, leaves a new orphan exactly when it has
      created a Secret that was neither the target nor tracked: it gets past the ConfigMap, loads
      Secrets, reads all names, and the write takes effect before some other call fails. */
  lemma OrphanIsCreatedExactly(c: Codec, s: State, env: Env, store: Store, n: string)
    requires Inverse(c) && Invariant(c, false, s) && ValidEnv(env, s.store, store) && !Orphan(s, n)
    ensures var r := Reconcile(c, s.(store := store), env);
            !r.outcome.Done? ==>
              (Orphan(r.state, n) <==>
                 && n !in NamesToCollect(s.provider.spec, s.recon.GetOr(INITIAL)) && n !in s.cluster.secrets
                 && Creates(c, s, env, store, n))
  {
    hide Reconcile, Invariant, Creates;
    ReconcileKeepsProvider(c, s.(store := store), env);
    NotDoneKeepsNames(c, s, env, store);
    if n !in NamesToCollect(s.provider.spec, s.recon.GetOr(INITIAL)) {
      UnlookedAfter(c, s, env, store, n);
      if n in s.cluster.secrets {
        ForeignSecretsAreLeftAlone(c, s, env, store, n);
      }
    }
  }

  // ---------------------------------------------------------------- adoption

  lemma UnpopulatedTracksTheSame(c: Codec, s: State, env: Env, store: Store)
    requires Inverse(c) && Invariant(c, false, s) && ValidEnv(env, s.store, store) && s.provider.spec.secret.Some?
    requires Reconcile(c, s.(store := store), env).outcome.Done? && ValidSpec(s.provider.spec)
    ensures Prepare(s.provider, s.cluster, s.recon, env).1.Some?
    ensures !Populated(c, s, env, store).options.secretSettingPopulated ==>
              var r := Reconcile(c, s.(store := store), env).state;
              r.recon.Some? && r.recon.value.secrets.Keys == s.recon.GetOr(INITIAL).secrets.Keys
  {
    hide PopulateAndWrite, SyncSecrets, Prepare, Invariant, ReadyToSync, Prepared, Existing, KeepsCore;
    var (ready, recon) := Prepare(s.provider, s.cluster, s.recon, env);
    MiddleFacts(c, s, env, store, recon);
    PreparedTracked(s.provider, s.cluster, s.recon, env);
    var prepared := s.(store := store, recon := recon);
    ExistingIs(prepared, recon.value);
    PopulateAndWriteKeepsRecord(c, prepared, env, s.store, recon.value);
    if !Populated(c, s, env, store).options.secretSettingPopulated {
      UnpopulatedKeepsRecon(c, s.provider, env, Existing(prepared, recon.value), Populated(c, s, env, store));
    }
  }

  lemma PreparedTracked(provider: Provider, cluster: Cluster, before: Option<Recon>, env: Env)
    requires provider.spec.secret.Some?
    ensures var recon := Prepare(provider, cluster, before, env).1;
            recon.GetOr(INITIAL).secrets.Keys == before.GetOr(INITIAL).secrets.Keys
  {
    var recon := before.GetOr(INITIAL);
    assert Reset(provider.spec, recon, cluster).secrets.Keys == recon.secrets.Keys;
  }

  /** A name that is not looked at is tracked by a reconcile that is done exactly when that loads
      Secrets and the version fetched selects the name. */
  lemma AdoptedExactly(c: Codec, s: State, env: Env, store: Store, n: string)
    requires Inverse(c) && Invariant(c, false, s) && ValidEnv(env, s.store, store) && s.provider.spec.secret.Some?
    requires n !in NamesToCollect(s.provider.spec, s.recon.GetOr(INITIAL))
    ensures var t, r := s.(store := store), Reconcile(c, s.(store := store), env);
            var recon := Prepare(s.provider, s.cluster, s.recon, env).1;
            r.outcome.Done? ==>
              && r.state.recon.Some? && recon.Some?
              && (n in r.state.recon.value.secrets <==>
                    SecretsLoad(t, recon.value, env, !InStep(s))
                    && n in store.keyValues[env.keyValuesFetched].references)
  {
    hide PopulateAndWrite, SyncSecrets, Prepare, Invariant, ReadyToSync, Prepared, Existing, InStep, Sourced,
         LiveAsPopulated, KeepsCore, IsRefreshed, IsExamined, SecretsLoad, PlannedData, ShouldReconcile,
         PopulatingEnding, DataGoes;
    var r := Reconcile(c, s.(store := store), env);
    if r.outcome.Done? {
      DoneMeansValid(c, s, env, store);
      var (ready, recon) := Prepare(s.provider, s.cluster, s.recon, env);
      MiddleFacts(c, s, env, store, recon);
      PreparedDrift(c, s, env, recon);
      PreparedTracked(s.provider, s.cluster, s.recon, env);
      DonePopulates(c, s, env, store);
      UnpopulatedTracksTheSame(c, s, env, store);
      var t, prepared := s.(store := store), s.(store := store, recon := recon);
      DataGoesExactly(c, prepared, env, s.store, recon.value);
      SamePlan(c, t, recon, env, !InStep(s));
      PlannedNames(c, prepared, recon.value, env, !InStep(s), n);
    }
  }

  /** The names that are planned for beside those looked at anyway. */
  lemma PlannedNames(c: Codec, s: State, recon: Recon, env: Env, full: bool, n: string)
    requires env.keyValuesFetched < |s.store.keyValues| && s.provider.spec.secret.Some?
    requires n !in NamesToCollect(s.provider.spec, recon)
    ensures var secrets := PlannedSecrets(c, s, recon, env, full);
            secrets.Some? && n in secrets.value
            <==> SecretsLoad(s, recon, env, full) && n in s.store.keyValues[env.keyValuesFetched].references
  {
    hide SecretsLoad, RefreshedSecrets, Resolved, SelectedMetadata;
    var content := s.store.keyValues[env.keyValuesFetched];
    SelectedNames(s.provider.spec, content.references);
    ResolvedNames(c, env, SecretOptions(s.provider.spec), SelectedMetadata(s.provider.spec, content.references));
    RefreshedKeys(c, s.provider.spec, env, recon.secrets, Existing(s, recon));
    assert n !in Existing(s, recon);
  }

  lemma ResolvedNames(c: Codec, env: Env, options: Option<DataOptions>, secrets: map<string, Tracked>)
    ensures Resolved(c, env, options, secrets).Keys == secrets.Keys
  {
    hide ResolvedData;
  }

  // ---------------------------------------------------------------- every event

  /** Whether n is an orphan after an event. */
  ghost predicate OrphanAfter(c: Codec, s: State, e: Event, n: string)
    requires Allowed(s, e)
  {
    var names, live := NamesToCollect(s.provider.spec, s.recon.GetOr(INITIAL)),
                       n in s.cluster.secrets && Owned(s.cluster.secrets[n].owners, s.provider);
    match e
    case Reconciles(env, store) =>
      if Reconcile(c, s.(store := store), env).outcome.Done?
      then Orphan(s, n) && !Adopts(s, env, store, n)
      else Orphan(s, n) || (n !in names && n !in s.cluster.secrets && Creates(c, s, env, store, n))
    case EditsSpec(_, spec, _, _) => live && n !in NamesToCollect(spec, s.recon.GetOr(INITIAL))
    case EditsSecret(name, secret) =>
      if n == name then secret.Some? && Owned(secret.value.0, s.provider) && n !in names else Orphan(s, n)
    case Restarts => live && !(s.provider.spec.secret.Some? && n == s.provider.spec.secret.value.target)
    case _ => Orphan(s, n)
  }

  /** Secrets are loaded, and the version fetched selects n. */
  ghost predicate Adopts(s: State, env: Env, store: Store, n: string)
    requires ValidEnv(env, s.store, store)
  {
    var recon := Prepare(s.provider, s.cluster, s.recon, env).1;
    && s.provider.spec.secret.Some? && recon.Some?
    && SecretsLoad(s.(store := store), recon.value, env, !InStep(s))
    && n in store.keyValues[env.keyValuesFetched].references
  }

  /** When a Secret is an orphan, for every event. New orphans are those that a reconcile that is
      not done has created, those that a new spec or a restart takes out of sight, and those that
      others make; one is adopted only by a load that selects it, by a new spec, or goes by the
      hand of others. */
  lemma OrphansExactly(c: Codec, s: State, e: Event, n: string)
    requires Inverse(c) && Invariant(c, false, s) && Allowed(s, e)
    ensures Orphan(Next(c, s, e), n) <==> OrphanAfter(c, s, e, n)
  {
    hide Reconcile, Invariant, Creates, Adopts;
    if e.Reconciles? {
      ReconcileOrphans(c, s, e.env, e.store, n);
    }
  }

  lemma ReconcileOrphans(c: Codec, s: State, env: Env, store: Store, n: string)
    requires Inverse(c) && Invariant(c, false, s) && ValidEnv(env, s.store, store)
    ensures Orphan(Reconcile(c, s.(store := store), env).state, n) <==> OrphanAfter(c, s, Reconciles(env, store), n)
  {
    hide Reconcile, Invariant, Creates, SecretsLoad, Prepare, InStep;
    var r, names := Reconcile(c, s.(store := store), env), NamesToCollect(s.provider.spec, s.recon.GetOr(INITIAL));
    ReconcileKeepsProvider(c, s.(store := store), env);
    if !r.outcome.Done? {
      NotDoneKeepsNames(c, s, env, store);
      if Orphan(s, n) {
        UnlookedAfter(c, s, env, store, n);
      } else {
        OrphanIsCreatedExactly(c, s, env, store, n);
      }
    } else if s.provider.spec.secret.None? {
      RemovedSectionDeletesNothing(c, s, env, store);
    } else {
      OrphansAreConserved(c, s, env, store, n);
      if n !in names {
        AdoptedExactly(c, s, env, store, n);
      }
    }
  }

  /** A Secret that is deselected while the controller is down stays behind: the first load after
      the restart, if it is done, leaves it as it is and does not track it. */
  lemma DeselectedOverRestart(c: Codec, s: State, env: Env, store: Store, n: string)
    requires Inverse(c) && Invariant(c, false, s) && s.provider.spec.secret.Some?
    requires n in s.cluster.secrets && Owned(s.cluster.secrets[n].owners, s.provider)
    requires n != s.provider.spec.secret.value.target
    requires ValidEnv(env, s.store, store) && n !in store.keyValues[env.keyValuesFetched].references
    ensures var restarted := Next(c, s, Restarts);
            var r := Reconcile(c, restarted.(store := store), env);
            && Orphan(restarted, n)
            && (r.outcome.Done? ==> Orphan(r.state, n) && SameAt(s.cluster, r.state.cluster, n))
  {
    hide Reconcile, Invariant, SameAt;
    var restarted := Next(c, s, Restarts);
    EditKeepsInvariant(c, false, s, Restarts);
    OrphansExactly(c, s, Restarts, n);
    ReconcileOrphans(c, restarted, env, store, n);
    if Reconcile(c, restarted.(store := store), env).outcome.Done? {
      DoneMeansValid(c, restarted, env, store);
      AdoptedExactly(c, restarted, env, store, n);
      DoneLeavesOthers(c, restarted, env, store, n);
    }
  }
}
