// When the registry file and the bridge rules list exactly the stored spaces.
module Publishing {
  import opened Text
  import Registry
  import opened Lifecycle
  import opened LifecycleProofs

  predicate Agrees(s: State) { s.published == Published(View(s.disk.configs), View(s.disk.configs)) }

  predicate ChangesSpaces(step: Step) { step.Create? || step.Destroy? }

  /** After a create or destroy that answered Ok, registry and rules list exactly the stored spaces. */
  lemma OkPublishes(s: State, step: Step)
    requires ChangesSpaces(step) && Apply(s, step).1 == Ok
    ensures Agrees(Apply(s, step).0)
  {
    hide WriteVolumes, View, DeleteTap, VolumesOk;
    if step.Create? {
      var made := s.disk.configs[step.id := Config(step.cid, step.digest, step.passphrase == Given)];
      VolumesKeepConfigs(s.disk.(configs := made), step.id, step.digest, step.passphrase, step.volumes);
    }
  }

  lemma OthersKeepView(s: State, step: Step)
    requires !ChangesSpaces(step)
    ensures var t := Apply(s, step).0; t.published == s.published && View(t.disk.configs) == View(s.disk.configs)
  {
    hide WriteImage, DeleteTap, MakeTap, KillAndReap, VolumesOk;
  }

  // ---- the exact condition ----

  predicate LosesConfig(removal: Removal) { removal == Removed || removal.configGone }

  /** A create spoils the agreement when it fails after the registry was written, or its rollback leaves the
      config; a destroy when it fails after the config was lost. */
  predicate Spoils(s: State, step: Step) {
    match step
    case Create(_, passphrase, _, _, _, _, volumes, refresh, removal) =>
      && Passed(s, step) && !CreateOk(step)
      && !((!VolumesOk(passphrase, volumes) || refresh == WriteFailed) && LosesConfig(removal))
    case Destroy(id, seen, deleted, removal, refresh) =>
      && id in s.disk.configs && !seen && (s.disk.configs[id].cid in s.net.links ==> deleted)
      && LosesConfig(removal) && !(removal == Removed && refresh == Applied)
    case _ => false
  }

  lemma ViewAt(configs: map<string, Config>, id: string)
    ensures id in View(configs) <==> id in configs
    ensures id in configs ==> View(configs)[id] == configs[id].cid
  {
  }

  lemma CreateAgreement(s: State, q: Step)
    requires Agrees(s) && q.Create?
    ensures Agrees(CreateStep(s, q).0) <==> !Spoils(s, q)
  {
    hide WriteVolumes, VolumesOk, View;
    var c := Config(q.cid, q.digest, q.passphrase == Given);
    var made := s.disk.(configs := s.disk.configs[q.id := c]);
    VolumesKeepConfigs(made, q.id, q.digest, q.passphrase, q.volumes);
    if q.id !in s.disk.configs {
      assert Remove(made.configs, q.id) == s.disk.configs;
      ViewAt(s.disk.configs, q.id);
      ViewAt(made.configs, q.id);
    }
  }

  lemma DestroyAgreement(s: State, q: Step)
    requires Agrees(s) && q.Destroy?
    ensures Agrees(DestroyStep(s, q).0) <==> !Spoils(s, q)
  {
    hide View, DeleteTap;
    ViewAt(s.disk.configs, q.id);
    ViewAt(Remove(s.disk.configs, q.id), q.id);
  }

  /** One step keeps the agreement if and only if it does not spoil it so. */
  lemma AgreementStep(s: State, step: Step)
    requires Agrees(s)
    ensures Agrees(Apply(s, step).0) <==> !Spoils(s, step)
  {
    hide View, CreateStep, DestroyStep, StartStep, StopStep, ResetSystemStep, ResetAllStep, UpdateImageStep, VolumesOk;
    if step.Create? { CreateAgreement(s, step); }
    else if step.Destroy? { DestroyAgreement(s, step); }
    else { OthersKeepView(s, step); }
  }

  predicate AlwaysAgrees(s: State, steps: seq<Step>)
    decreases |steps|
  {
    Agrees(s) && (steps == [] || AlwaysAgrees(Apply(s, steps[0]).0, steps[1..]))
  }

  predicate NeverSpoils(s: State, steps: seq<Step>)
    decreases |steps|
  {
    steps == [] || (!Spoils(s, steps[0]) && NeverSpoils(Apply(s, steps[0]).0, steps[1..]))
  }

  /** Along any run registry and rules list exactly the stored spaces, at every moment, if and only if no
      step spoils the agreement. */
  lemma {:induction false} AgreementLasts(s: State, steps: seq<Step>)
    requires Agrees(s)
    ensures AlwaysAgrees(s, steps) <==> NeverSpoils(s, steps)
    ensures NeverSpoils(s, steps) ==> Agrees(After(s, steps))
    decreases |steps|
  {
    if steps != [] {
      AgreementStep(s, steps[0]);
      hide Apply, Agrees, Spoils;
      if !Spoils(s, steps[0]) { AgreementLasts(Apply(s, steps[0]).0, steps[1..]); }
      else { AgreesNow(Apply(s, steps[0]).0, steps[1..]); }
    }
  }

  lemma AgreesNow(s: State, steps: seq<Step>)
    ensures AlwaysAgrees(s, steps) ==> Agrees(s)
  {
  }

  /** The empty daemon agrees with an empty registry. */
  lemma InitAgrees()
    ensures Agrees(INIT)
  {
    assert View(map[]) == map[];
  }

  /** A create that fails to apply the rules is rolled back, but the registry file still names its space. */
  lemma FailedCreateMayStayListed()
    ensures exists step ::
      && Enabled(INIT, step) && step.Create? && Apply(INIT, step).1 != Ok
      && var t := Apply(INIT, step).0; t.disk.configs == map[] && t.published.registry == map["a" := 3]
  {
    var volumes := Volumes(true, Rebuilt(true), false, Rebuilt(true));
    var step := Create("a", Absent, "1", 3, None, true, volumes, RulesFailed, Removed);
    assert "a" != Registry.MIYORI_NET by { assert |"a"| == 1 && |Registry.MIYORI_NET| == 10; }
    assert Enabled(INIT, step);
    var t := Apply(INIT, step).0;
    assert t.disk.configs == map[];
    assert t.published.registry == map["a" := 3];
  }
}
