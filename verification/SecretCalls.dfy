/** The calls with which Secrets are written and deleted, which of them take effect when one
    fails, and what each leaves in the cluster. */
module SecretCalls {
  import opened TypedSetting
  import opened ReconcileTypes
  import opened Processor
  import opened Reconciler
  import opened NoLostUpdate
  import opened Rotation
  import opened SecretSync
  import opened SecretWrites

  // ---------------------------------------------------------------- the calls

  /** The writes that populated Secrets need, in the order in which their map is visited. */
  function PutCalls(c: Codec, spec: SecretSpec, existing: map<string, Secret>, secrets: map<string, SecretContent>,
                    copied: bool, names: seq<string>): seq<Call>
    requires forall n :: n in names ==> n in secrets
  {
    if names == [] then []
    else
      var rest := PutCalls(c, spec, existing, secrets, copied, names[1..]);
      var latest, live := secrets[names[0]].data, SecretDataOf(existing, names[0]);
      if ShouldCreateOrUpdateSecret(c, spec, names[0], latest, copied, live) then [PutSecret(names[0])] + rest else rest
  }

  /** The deletions of what is not kept. */
  function DeleteCalls(keep: set<string>, names: seq<string>): seq<Call> {
    if names == [] then []
    else if names[0] in keep then DeleteCalls(keep, names[1..])
    else [DeleteSecret(names[0])] + DeleteCalls(keep, names[1..])
  }

  predicate AllFine(calls: seq<Call>, fault: Call -> Fault) {
    forall i :: 0 <= i < |calls| ==> fault(calls[i]) == Fine
  }

  /** The calls that take effect: those before the first that fails, and that one too if only
      its acknowledgement is lost. */
  function Effective(calls: seq<Call>, fault: Call -> Fault): set<Call> {
    if calls == [] then {}
    else match fault(calls[0])
      case Fine => {calls[0]} + Effective(calls[1..], fault)
      case Lost => {}
      case Unacknowledged => {calls[0]}
  }

  lemma {:induction false} EffectiveAppend(a: seq<Call>, b: seq<Call>, fault: Call -> Fault)
    ensures AllFine(a + b, fault) <==> AllFine(a, fault) && AllFine(b, fault)
    ensures Effective(a + b, fault) == Effective(a, fault) + if AllFine(a, fault) then Effective(b, fault) else {}
    decreases a
  {
    assert forall i :: 0 <= i < |b| ==> b[i] == (a + b)[|a| + i];
    assert forall i :: 0 <= i < |a| ==> a[i] == (a + b)[i];
    if a == [] {
      assert a + b == b;
    } else {
      assert (a + b)[1..] == a[1..] + b;
      EffectiveAppend(a[1..], b, fault);
      assert forall i :: 0 <= i < |a[1..]| ==> a[1..][i] == a[i + 1];
      assert AllFine(a, fault) <==> fault(a[0]) == Fine && AllFine(a[1..], fault) by {
        assert forall i :: 0 < i < |a| ==> a[i] == a[1..][i - 1];
      }
    }
  }

  lemma {:induction false} EffectiveIsCalled(calls: seq<Call>, fault: Call -> Fault, call: Call)
    requires call in Effective(calls, fault)
    ensures call in calls
    decreases calls
  {
    if call != calls[0] {
      EffectiveIsCalled(calls[1..], fault, call);
    }
  }

  lemma {:induction false} PutsAreListed(c: Codec, spec: SecretSpec, existing: map<string, Secret>,
                                         secrets: map<string, SecretContent>,
                                        copied: bool, names: seq<string>, call: Call)
    requires forall n :: n in names ==> n in secrets
    requires call in PutCalls(c, spec, existing, secrets, copied, names)
    ensures call.PutSecret? && call.name in names
    decreases names
  {
    hide ShouldCreateOrUpdateSecret;
    if call != PutSecret(names[0]) {
      PutsAreListed(c, spec, existing, secrets, copied, names[1..], call);
    }
  }

  lemma {:induction false} DeletesAreListed(keep: set<string>, names: seq<string>, call: Call)
    requires call in DeleteCalls(keep, names)
    ensures call.DeleteSecret? && call.name in names && call.name !in keep
    decreases names
  {
    if names[0] in keep || call != DeleteSecret(names[0]) {
      DeletesAreListed(keep, names[1..], call);
    }
  }

  // ---------------------------------------------------------------- what they touch

  ghost predicate SameAt(before: Cluster, after: Cluster, n: string) {
    && (n in after.secrets <==> n in before.secrets)
    && (n in after.secrets ==> after.secrets[n] == before.secrets[n])
  }

  /** The Secret has been written since. */
  ghost predicate NewAt(before: Cluster, after: Cluster, n: string) {
    n in after.secrets && after.secrets[n].version >= before.nextVersion
  }

  lemma OnePutTouches(c: Codec, provider: Provider, env: Env, existing: map<string, Secret>, name: string, run: Run,
                      n: string)
    requires name in run.settings.secrets && name in MetadataOf(run) && provider.spec.secret.Some?
    requires Current(existing, run, [name])
    ensures var step := WriteOneSecret(c, provider, env, existing, name, run);
            var calls := PutCalls(c, provider.spec.secret.value, existing, run.settings.secrets,
                                  run.settings.metadata.Shared?, [name]);
            && (step.Go? <==> AllFine(calls, env.fault))
            && (PutSecret(n) in Effective(calls, env.fault) ==> n == name && NewAt(run.cluster, step.run.cluster, n))
            && (PutSecret(n) !in Effective(calls, env.fault) ==> SameAt(run.cluster, step.run.cluster, n))
            && (run.settings.metadata.Own? ==> step.run.recon == run.recon)
  {
    hide ShouldCreateOrUpdateSecret;
    var copied := run.settings.metadata.Shared?;
    assert name in [name];
    var rest: seq<string> := [name][1..];
    assert rest == [] && PutCalls(c, provider.spec.secret.value, existing, run.settings.secrets, copied, rest) == [];
    var calls := PutCalls(c, provider.spec.secret.value, existing, run.settings.secrets, copied, [name]);
    if calls != [] {
      assert calls == [PutSecret(name)] && calls[1..] == [];
      assert Effective(calls, env.fault) == if env.fault(PutSecret(name)) == Lost then {} else {PutSecret(name)};
    }
  }

  lemma SameThenSame(a: Cluster, b: Cluster, d: Cluster, n: string)
    requires b.nextVersion >= a.nextVersion
    ensures SameAt(a, b, n) && SameAt(b, d, n) ==> SameAt(a, d, n)
    ensures NewAt(a, b, n) && SameAt(b, d, n) ==> NewAt(a, d, n)
    ensures NewAt(b, d, n) ==> NewAt(a, d, n)
  {
  }

  /** Writing, in any order: exactly the Secrets with an effective call are written, and it goes
      through exactly when no call fails. */
  lemma {:induction false} WritesTouch(c: Codec, provider: Provider, env: Env, existing: map<string, Secret>,
                                       names: seq<string>,
                                      run: Run, n: string)
    requires Distinct(names) && provider.spec.secret.Some? && Current(existing, run, names)
    requires forall m :: m in names ==> m in run.settings.secrets && m in MetadataOf(run)
    ensures var step := WriteSecrets(c, provider, env, existing, names, run);
            var calls := PutCalls(c, provider.spec.secret.value, existing, run.settings.secrets,
                                  run.settings.metadata.Shared?, names);
            && (step.Go? <==> AllFine(calls, env.fault))
            && (PutSecret(n) in Effective(calls, env.fault) ==> n in names && NewAt(run.cluster, step.run.cluster, n))
            && (PutSecret(n) !in Effective(calls, env.fault) ==> SameAt(run.cluster, step.run.cluster, n))
            && (run.settings.metadata.Own? ==> step.run.recon == run.recon)
    decreases names
  {
    hide WriteOneSecret, KeepsCore, Current, SameAt, NewAt, ShouldCreateOrUpdateSecret, Effective, AllFine;
    var spec, copied := provider.spec.secret.value, run.settings.metadata.Shared?;
    if names == [] {
      NothingTouched(run.cluster, env.fault, n);
    } else {
      assert Current(existing, run, [names[0]]) by { CurrentHead(existing, run, names); }
      OnePutTouches(c, provider, env, existing, names[0], run, n);
      OneWriteKeepsCurrent(c, provider, env, existing, names, run);
      var step := WriteOneSecret(c, provider, env, existing, names[0], run);
      WriteOneSecretKeepsCore(c, provider, env, existing, names[0], run);
      KeepsCoreCluster(run, step.run);
      var first := PutCalls(c, spec, existing, run.settings.secrets, copied, [names[0]]);
      var rest := PutCalls(c, spec, existing, run.settings.secrets, copied, names[1..]);
      HeadCalls(c, spec, existing, run.settings.secrets, copied, names);
      EffectiveAppend(first, rest, env.fault);
      if step.Go? {
        assert forall i :: 0 <= i < |names[1..]| ==> names[1..][i] == names[i + 1];
        WritesTouch(c, provider, env, existing, names[1..], step.run, n);
        SameThenSame(run.cluster, step.run.cluster,
                     WriteSecrets(c, provider, env, existing, names[1..], step.run).run.cluster, n);
        assert names[0] !in names[1..];
      }
    }
  }

  lemma NothingTouched(cluster: Cluster, fault: Call -> Fault, n: string)
    ensures SameAt(cluster, cluster, n) && AllFine([], fault) && Effective([], fault) == {}
  {
  }

  lemma KeepsCoreCluster(before: Run, after: Run)
    requires KeepsCore(before, after)
    ensures after.cluster.nextVersion >= before.cluster.nextVersion
    ensures after.settings.secrets == before.settings.secrets
            && after.settings.metadata.Own? == before.settings.metadata.Own?
  {
  }

  lemma HeadCalls(c: Codec, spec: SecretSpec, existing: map<string, Secret>, secrets: map<string, SecretContent>,
                  copied: bool,
                  names: seq<string>)
    requires names != [] && forall n :: n in names ==> n in secrets
    ensures PutCalls(c, spec, existing, secrets, copied, names)
            == PutCalls(c, spec, existing, secrets, copied, [names[0]])
              + PutCalls(c, spec, existing, secrets, copied, names[1..])
  {
    hide ShouldCreateOrUpdateSecret;
    var head := [names[0]];
    assert head[1..] == [] && PutCalls(c, spec, existing, secrets, copied, head[1..]) == [];
  }

  /** Deleting, in any order. */
  lemma {:induction false} DeletesTouch(env: Env, keep: set<string>, names: seq<string>, run: Run, n: string)
    ensures var step := ExpelSecrets(env, keep, names, run);
            var calls := DeleteCalls(keep, names);
            && (step.Go? <==> AllFine(calls, env.fault))
            && (DeleteSecret(n) in Effective(calls, env.fault) ==>
                  n in names && n !in keep && n !in step.run.cluster.secrets)
            && (DeleteSecret(n) !in Effective(calls, env.fault) ==> SameAt(run.cluster, step.run.cluster, n))
            && (n !in run.cluster.secrets ==> n !in step.run.cluster.secrets)
            && step.run.recon == run.recon && step.run.settings == run.settings
            && step.run.cluster.nextVersion == run.cluster.nextVersion
    decreases names
  {
    if names != [] {
      assert names == [names[0]] + names[1..];
      if names[0] in keep {
        DeletesTouch(env, keep, names[1..], run, n);
      } else {
        var calls, rest := DeleteCalls(keep, names), DeleteCalls(keep, names[1..]);
        assert calls == [DeleteSecret(names[0])] + rest;
        assert calls[1..] == rest;
        assert AllFine(calls, env.fault) <==> env.fault(calls[0]) == Fine && AllFine(rest, env.fault) by {
          EffectiveAppend([DeleteSecret(names[0])], rest, env.fault);
        }
        var called := Called(run, DeleteSecret(names[0]));
        var deleted := called.(cluster := run.cluster.(secrets := run.cluster.secrets - {names[0]}));
        DeletesTouch(env, keep, names[1..], deleted, n);
      }
    }
  }

  // ---------------------------------------------------------------- writing and deleting

  /** All calls of a sync of populated Secrets. */
  function SyncCalls(c: Codec, spec: SecretSpec, env: Env, collected: map<string, Secret>,
                     secrets: map<string, SecretContent>,
                     copied: bool): seq<Call>
    requires ListsKeys(env)
  {
    var names := env.order(secrets.Keys);
    assert Lists(names, secrets.Keys);
    PutCalls(c, spec, collected, secrets, copied, names) + DeleteCalls(secrets.Keys, env.order(collected.Keys))
  }

  /** When the names are read, a sync writes and deletes exactly what its effective calls say. */
  lemma SyncTouches(c: Codec, s: State, env: Env, recon: Recon, run: Run, n: string)
    requires ListsKeys(env) && ReadyToSync(s, recon, run) && run.options.secretSettingPopulated
             && s.provider.spec.secret.Some?
    requires ReadsNew(s.provider, env, Existing(s, recon), run)
    ensures var step := SyncSecrets(c, s.provider, env, Existing(s, recon), run);
            var collected := Collected(Existing(s, recon), run);
            var calls := SyncCalls(c, s.provider.spec.secret.value, env, collected, run.settings.secrets,
                                   run.settings.metadata.Shared?);
            && !step.Crash? && (step.Go? <==> AllFine(calls, env.fault))
            && (DeleteSecret(n) in Effective(calls, env.fault) ==>
                  n in collected && n !in run.settings.secrets && n !in step.run.cluster.secrets)
            && (PutSecret(n) in Effective(calls, env.fault) ==>
                  n in run.settings.secrets && NewAt(run.cluster, step.run.cluster, n))
            && (PutSecret(n) !in Effective(calls, env.fault) && DeleteSecret(n) !in Effective(calls, env.fault) ==>
                  SameAt(run.cluster, step.run.cluster, n))
            && (run.settings.metadata.Own? ==> step.run.recon == run.recon)
  {
    hide WriteSecrets, ExpelSecrets, Current, KeepsCore, Existing, SameAt, NewAt, Effective, AllFine, PutCalls,
         DeleteCalls, ReadsNew;
    var existing := Existing(s, recon);
    var names := env.order(run.settings.secrets.Keys);
    assert Lists(names, run.settings.secrets.Keys);
    var collected := Collected(existing, run);
    CollectedIsCurrent(s, recon, run, names);
    var step := WriteSecrets(c, s.provider, env, collected, names, run);
    WriteSecretsAt(c, s.provider, env, collected, names, run, n);
    WriteSecretsKeepsCore(c, s.provider, env, collected, names, run);
    KeepsCoreKeys(run, step.run);
    KeepsCoreCluster(run, step.run);
    WritesTouch(c, s.provider, env, collected, names, run, n);
    var keep, listed := MetadataOf(step.run).Keys, env.order(collected.Keys);
    assert Lists(listed, collected.Keys);
    var puts := PutCalls(c, s.provider.spec.secret.value, collected, run.settings.secrets,
                         run.settings.metadata.Shared?, names);
    var deletes := DeleteCalls(keep, listed);
    EffectiveAppend(puts, deletes, env.fault);
    OnlyPuts(c, s.provider.spec.secret.value, env, collected, run.settings.secrets, run.settings.metadata.Shared?,
             names, n);
    OnlyDeletes(env, keep, listed, n);
    if step.Go? {
      ExpelSecretsKeepsCore(env, keep, listed, step.run);
      DeletesTouch(env, keep, listed, step.run, n);
      SameThenSame(run.cluster, step.run.cluster, ExpelSecrets(env, keep, listed, step.run).run.cluster, n);
    }
  }

  lemma OnlyPuts(c: Codec, spec: SecretSpec, env: Env, existing: map<string, Secret>,
                 secrets: map<string, SecretContent>, copied: bool,
                 names: seq<string>, n: string)
    requires forall m :: m in names ==> m in secrets
    ensures DeleteSecret(n) !in Effective(PutCalls(c, spec, existing, secrets, copied, names), env.fault)
    ensures PutSecret(n) in Effective(PutCalls(c, spec, existing, secrets, copied, names), env.fault) ==> n in names
  {
    hide PutCalls, Effective;
    var calls := PutCalls(c, spec, existing, secrets, copied, names);
    forall call | call in Effective(calls, env.fault)
      ensures call.PutSecret? && call.name in names
    {
      EffectiveIsCalled(calls, env.fault, call);
      PutsAreListed(c, spec, existing, secrets, copied, names, call);
    }
  }

  lemma OnlyDeletes(env: Env, keep: set<string>, names: seq<string>, n: string)
    ensures PutSecret(n) !in Effective(DeleteCalls(keep, names), env.fault)
    ensures DeleteSecret(n) in Effective(DeleteCalls(keep, names), env.fault) ==> n in names && n !in keep
  {
    hide DeleteCalls, Effective;
    var calls := DeleteCalls(keep, names);
    forall call | call in Effective(calls, env.fault)
      ensures call.DeleteSecret? && call.name in names && call.name !in keep
    {
      EffectiveIsCalled(calls, env.fault, call);
      DeletesAreListed(keep, names, call);
    }
  }
}
