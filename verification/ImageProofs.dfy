// The images of spaces over the daemon's runs: which operations rewrite them, when an overlay is on the
// recorded template, and when images are encrypted as their config says.
module ImageProofs {
  import opened Text
  import Registry
  import opened Lifecycle
  import opened LifecycleProofs

  // ---- writing images ----

  /** An intact image is encrypted exactly as asked. */
  predicate Encrypted(volumes: map<string, Volume>, id: string, encrypted: bool) {
    id in volumes && volumes[id].Intact? ==> volumes[id].encrypted == encrypted
  }

  /** An intact overlay is based on the template asked for. */
  predicate Based(volumes: map<string, Volume>, id: string, digest: string) {
    id in volumes && volumes[id].Intact? ==> volumes[id].base == digest
  }

  predicate OnRecordedImage(s: State, id: string) {
    id in s.disk.configs && id in s.disk.overlays
      && s.disk.overlays[id] == Intact(s.disk.configs[id].digest, s.disk.configs[id].encrypted)
  }

  predicate SameImages(d: Disk, e: Disk, id: string) {
    SameAt(d.overlays, e.overlays, id) && SameAt(d.datas, e.datas, id)
  }

  lemma WriteVolumesEffect(d: Disk, id: string, digest: string, passphrase: Passphrase, v: Volumes)
    ensures var e := WriteVolumes(d, id, digest, passphrase, v);
      && e.configs == d.configs
      && (forall x :: x != id ==> SameImages(d, e, x))
      && (Encrypted(d.overlays, id, passphrase != Absent) ==> Encrypted(e.overlays, id, passphrase != Absent))
      && (Encrypted(d.datas, id, passphrase != Absent) ==> Encrypted(e.datas, id, passphrase != Absent))
      && (Based(d.overlays, id, digest) ==> Based(e.overlays, id, digest))
      && (VolumesOk(passphrase, v) ==> id in e.overlays && e.overlays[id] == Intact(digest, passphrase != Absent))
      && (!v.hasData ==> e.datas == d.datas)
  {
  }

  lemma RemoveFilesOthers(d: Disk, id: string, removal: Removal, other: string)
    requires id != other
    ensures SameImages(d, RemoveFiles(d, id, removal), other)
    ensures SameAt(d.configs, RemoveFiles(d, id, removal).configs, other)
  {
  }

  /** The operations that take an id. */
  predicate Concerns(step: Step, id: string) {
    match step
    case Create(x, _, _, _, _, _, _, _, _) => x == id
    case Start(x, _, _, _, _, _, _, _, _) => x == id
    case Stop(x, _, _, _, _) => x == id
    case ResetSystem(x, _, _, _, _) => x == id
    case ResetAll(x, _, _, _, _) => x == id
    case UpdateImage(x, _, _, _, _, _, _, _) => x == id
    case Destroy(x, _, _, _, _) => x == id
    case _ => false
  }

  lemma CreateOthers(s: State, q: Step, id: string)
    requires q.Create? && q.id != id
    ensures var d := CreateStep(s, q).0.disk; SameImages(s.disk, d, id) && SameAt(s.disk.configs, d.configs, id)
  {
    hide View, WriteVolumes, VolumesOk, RemoveFiles;
    var made := s.disk.(configs := s.disk.configs[q.id := Config(q.cid, q.digest, q.passphrase == Given)]);
    WriteVolumesEffect(made, q.id, q.digest, q.passphrase, q.volumes);
    var d := WriteVolumes(made, q.id, q.digest, q.passphrase, q.volumes);
    assert SameImages(made, d, id) && SameAt(s.disk.configs, d.configs, id);
    RemoveFilesOthers(d, q.id, q.removal, id);
  }

  /** An operation leaves config and images of every other space alone, whatever fails. */
  lemma OthersUntouched(s: State, step: Step, id: string)
    requires !Concerns(step, id)
    ensures var d := Apply(s, step).0.disk; SameImages(s.disk, d, id) && SameAt(s.disk.configs, d.configs, id)
  {
    hide View, WriteVolumes, VolumesOk, DeleteTap, MakeTap, KillAndReap, RemoveFiles;
    if step.Create? { CreateOthers(s, step, id); }
    if step.Destroy? { RemoveFilesOthers(s.disk, step.id, step.removal, id); }
    if (step.ResetSystem? || step.ResetAll? || step.UpdateImage?) && step.id in s.disk.configs {
      var v := if step.ResetAll? then step.volumes else Volumes(step.secret, step.overlay, false, step.overlay);
      var digest :=
        if step.UpdateImage? && step.latest.Some? then step.latest.value else s.disk.configs[step.id].digest;
      WriteVolumesEffect(s.disk, step.id, digest, step.passphrase, v);
      assert SameImages(s.disk, WriteVolumes(s.disk, step.id, digest, step.passphrase, v), id);
    }
  }

  // ---- runs, step by step ----

  lemma {:induction false} AfterSnoc(s: State, steps: seq<Step>, step: Step)
    ensures After(s, steps + [step]) == Apply(After(s, steps), step).0
    decreases |steps|
  {
    hide Apply;
    if steps == [] {
      assert [] + [step] == [step] && [step][1..] == [];
    } else {
      AfterSnoc(Apply(s, steps[0]).0, steps[1..], step);
      assert (steps + [step])[1..] == steps[1..] + [step];
    }
  }

  lemma LastStep(s: State, steps: seq<Step>)
    requires steps != []
    ensures var n := |steps| - 1; After(s, steps) == Apply(After(s, steps[..n]), steps[n]).0
  {
    hide Apply, After;
    AfterSnoc(s, steps[..|steps| - 1], steps[|steps| - 1]);
    assert steps[..|steps| - 1] + [steps[|steps| - 1]] == steps;
  }

  // ---- creation ----

  /** A create that answers Ok has recorded the space and built its images on the recorded template. */
  lemma CreateMakesSpace(s: State, q: Step)
    requires q.Create? && CreateStep(s, q).1 == Ok
    ensures var t := CreateStep(s, q).0;
      && t.disk.configs == s.disk.configs[q.id := Config(q.cid, q.digest, q.passphrase == Given)]
      && q.id !in s.disk.configs && OnRecordedImage(t, q.id)
      && (q.volumes.hasData ==> q.id in t.disk.datas && t.disk.datas[q.id] == Intact("", q.passphrase == Given))
  {
    hide View;
  }

  /** One that fails leaves the list of spaces as it was, provided its rollback works. */
  lemma CreateAllOrNothing(s: State, q: Step)
    requires q.Create? && CreateStep(s, q).1 != Ok && q.removal == Removed
    ensures CreateStep(s, q).0.disk.configs == s.disk.configs
    ensures q.id !in s.disk.configs && CreateStep(s, q).0 != s ==>
      q.id !in CreateStep(s, q).0.disk.overlays && q.id !in CreateStep(s, q).0.disk.datas
  {
    hide WriteVolumes, VolumesOk, View;
    var made := s.disk.(configs := s.disk.configs[q.id := Config(q.cid, q.digest, q.passphrase == Given)]);
    WriteVolumesEffect(made, q.id, q.digest, q.passphrase, q.volumes);
    if q.id !in s.disk.configs { assert Remove(made.configs, q.id) == s.disk.configs; }
  }

  /** An existing overlay survives such a create, under the new config: nothing rewrites it, and the
      rollback leaves both it and the config behind. */
  predicate InheritsOverlay(s: State, q: Step)
    requires q.Create?
  {
    && Passed(s, q) && !CreateOk(q) && q.removal.Partly? && !q.removal.configGone && !q.removal.overlayGone
    && (q.volumes.overlay == FailedOld || (q.passphrase != Absent && !q.volumes.secret))
  }

  /** An existing data volume survives: it is not reached or not rewritten, and the create answers Ok or its
      rollback leaves it and the config behind. */
  predicate InheritsData(s: State, q: Step)
    requires q.Create?
  {
    && Passed(s, q)
    && (CreateOk(q) || (q.removal.Partly? && !q.removal.configGone && !q.removal.dataGone))
    && var v := q.volumes;
       || !v.hasData || v.data == FailedOld || !ImageOk(v.overlay) || (q.passphrase != Absent && !v.secret)
  }

  // ---- encryption ----

  /** The intact images of a stored space are encrypted exactly when its config says so. */
  predicate KindsRight(disk: Disk, id: string) {
    id in disk.configs ==>
      Encrypted(disk.overlays, id, disk.configs[id].encrypted) && Encrypted(disk.datas, id, disk.configs[id].encrypted)
  }

  /** The create puts a config over left images of the other kind. */
  predicate MixesKinds(s: State, step: Step, id: string) {
    && step.Create? && step.id == id
    && var encrypted := step.passphrase != Absent;
       || (InheritsOverlay(s, step) && !Encrypted(s.disk.overlays, id, encrypted))
       || (InheritsData(s, step) && !Encrypted(s.disk.datas, id, encrypted))
  }

  lemma CreateOverlayKind(s: State, q: Step)
    requires q.Create? && q.id !in s.disk.configs
    ensures var t := CreateStep(s, q).0; q.id in t.disk.configs ==>
      (Encrypted(t.disk.overlays, q.id, q.passphrase != Absent) <==>
        !(InheritsOverlay(s, q) && !Encrypted(s.disk.overlays, q.id, q.passphrase != Absent)))
  {
    hide View, InheritsData;
  }

  lemma CreateDataKind(s: State, q: Step)
    requires q.Create? && q.id !in s.disk.configs
    ensures var t := CreateStep(s, q).0; q.id in t.disk.configs ==>
      (Encrypted(t.disk.datas, q.id, q.passphrase != Absent) <==>
        !(InheritsData(s, q) && !Encrypted(s.disk.datas, q.id, q.passphrase != Absent)))
  {
    hide View, InheritsOverlay;
  }

  lemma CreatedConfig(s: State, q: Step)
    requires q.Create? && q.id !in s.disk.configs
    ensures var t := CreateStep(s, q).0;
      if q.id in t.disk.configs then t.disk.configs[q.id].encrypted == (q.passphrase != Absent)
      else !InheritsOverlay(s, q) && !InheritsData(s, q)
  {
    hide View, WriteImage;
  }

  lemma CreateKinds(s: State, q: Step)
    requires q.Create? && q.id !in s.disk.configs
    ensures KindsRight(CreateStep(s, q).0.disk, q.id) <==> !MixesKinds(s, q, q.id)
  {
    CreateOverlayKind(s, q);
    CreateDataKind(s, q);
    CreatedConfig(s, q);
    hide CreateStep, InheritsOverlay, InheritsData, Encrypted;
  }

  /** A create that answers Ok makes images of the right kind if and only if it makes the data volume too,
      or no data volume of the other kind was left by an earlier space of that name. */
  lemma CreateKindsIff(s: State, q: Step)
    requires q.Create? && CreateStep(s, q).1 == Ok
    ensures KindsRight(CreateStep(s, q).0.disk, q.id) <==>
      q.volumes.hasData || Encrypted(s.disk.datas, q.id, q.passphrase != Absent)
  {
    hide View, Encrypted;
    CreateKinds(s, q);
  }

  lemma RewriteKeepsKinds(d: Disk, id: string, digest: string, passphrase: Passphrase, v: Volumes)
    requires id in d.configs && Matches(d.configs[id].encrypted, passphrase) && KindsRight(d, id)
    ensures KindsRight(WriteVolumes(d, id, digest, passphrase, v), id)
  {
    WriteVolumesEffect(d, id, digest, passphrase, v);
    hide WriteVolumes, Encrypted;
  }

  lemma RemoveKeepsKinds(d: Disk, id: string, removal: Removal)
    requires KindsRight(d, id)
    ensures KindsRight(RemoveFiles(d, id, removal), id)
  {
  }

  /** One step keeps the kinds of a space's images right if and only if it is not such a create. */
  lemma KindsStep(s: State, step: Step, id: string)
    requires KindsRight(s.disk, id)
    ensures KindsRight(Apply(s, step).0.disk, id) <==> !MixesKinds(s, step, id)
  {
    hide View, WriteVolumes, VolumesOk, DeleteTap, MakeTap, KillAndReap, RemoveFiles, Encrypted;
    hide InheritsOverlay, InheritsData;
    if !Concerns(step, id) {
      OthersUntouched(s, step, id);
      SameKinds(s.disk, Apply(s, step).0.disk, id);
    } else if step.Create? {
      CreateKindsStep(s, step);
    } else if step.Destroy? {
      RemoveKeepsKinds(s.disk, id, step.removal);
    } else if (step.ResetSystem? || step.ResetAll? || step.UpdateImage?)
              && Checks(s, id, step.passphrase, step.seen).None? {
      RebuildKeepsKinds(s, step);
    }
  }

  lemma CreateKindsStep(s: State, q: Step)
    requires q.Create? && KindsRight(s.disk, q.id)
    ensures KindsRight(CreateStep(s, q).0.disk, q.id) <==> !MixesKinds(s, q, q.id)
  {
    if q.id !in s.disk.configs { CreateKinds(s, q); }
    hide View, WriteVolumes, VolumesOk, RemoveFiles, Encrypted;
  }

  lemma RebuildKeepsKinds(s: State, q: Step)
    requires (q.ResetSystem? || q.ResetAll? || q.UpdateImage?) && KindsRight(s.disk, q.id)
    requires Checks(s, q.id, q.passphrase, q.seen).None?
    ensures KindsRight(Apply(s, q).0.disk, q.id)
  {
    hide WriteVolumes, VolumesOk, Encrypted;
    var v := if q.ResetAll? then q.volumes else Volumes(q.secret, q.overlay, false, q.overlay);
    var digest := if q.UpdateImage? && q.latest.Some? then q.latest.value else s.disk.configs[q.id].digest;
    RewriteKeepsKinds(s.disk, q.id, digest, q.passphrase, v);
    VolumesKeepConfigs(s.disk, q.id, digest, q.passphrase, v);
  }

  lemma SameKinds(d: Disk, e: Disk, id: string)
    requires SameImages(d, e, id) && SameAt(d.configs, e.configs, id)
    ensures KindsRight(d, id) <==> KindsRight(e, id)
  {
  }

  predicate KindsAlwaysRight(s: State, steps: seq<Step>, id: string)
    decreases |steps|
  {
    KindsRight(s.disk, id) && (steps == [] || KindsAlwaysRight(Apply(s, steps[0]).0, steps[1..], id))
  }

  predicate NeverMixes(s: State, steps: seq<Step>, id: string)
    decreases |steps|
  {
    steps == [] || (!MixesKinds(s, steps[0], id) && NeverMixes(Apply(s, steps[0]).0, steps[1..], id))
  }

  lemma {:induction false} KindsRun(s: State, steps: seq<Step>, id: string)
    requires KindsRight(s.disk, id)
    ensures KindsAlwaysRight(s, steps, id) <==> NeverMixes(s, steps, id)
    ensures NeverMixes(s, steps, id) ==> KindsRight(After(s, steps).disk, id)
    decreases |steps|
  {
    if steps != [] {
      KindsStep(s, steps[0], id);
      hide Apply, KindsRight, MixesKinds;
      if !MixesKinds(s, steps[0], id) { KindsRun(Apply(s, steps[0]).0, steps[1..], id); }
      else { KindsNow(Apply(s, steps[0]).0, steps[1..], id); }
    }
  }

  lemma KindsNow(s: State, steps: seq<Step>, id: string)
    ensures KindsAlwaysRight(s, steps, id) ==> KindsRight(s.disk, id)
  {
  }

  /** Along any run the images of a space are encrypted exactly when its config says so, at every moment, if
      and only if no create of that name ever puts its config over left images of the other kind. */
  lemma EncryptionAsRecorded(steps: seq<Step>, id: string)
    ensures KindsAlwaysRight(INIT, steps, id) <==> NeverMixes(INIT, steps, id)
    ensures NeverMixes(INIT, steps, id) ==> KindsRight(After(INIT, steps).disk, id)
  {
    hide KindsAlwaysRight, NeverMixes, After;
    KindsRun(INIT, steps, id);
  }

  // ---- where left images come from ----

  /** Removing a space's directory loses the config and fails before the rest is gone. */
  predicate Tears(step: Step, id: string) {
    (step.Create? || step.Destroy?) && step.id == id && step.removal.Partly? && step.removal.configGone
  }

  predicate NothingLeft(disk: Disk, id: string) { id in disk.configs || (id !in disk.overlays && id !in disk.datas) }

  lemma StepLeavesNothing(s: State, step: Step, id: string)
    requires NothingLeft(s.disk, id) && !Tears(step, id)
    ensures NothingLeft(Apply(s, step).0.disk, id)
  {
    hide View, WriteVolumes, VolumesOk, DeleteTap, MakeTap, KillAndReap, RemoveFiles;
    if !Concerns(step, id) {
      OthersUntouched(s, step, id);
    } else if step.Create? {
      VolumesKeepConfigs(
        s.disk.(configs := s.disk.configs[step.id := Config(step.cid, step.digest, step.passphrase == Given)]),
        step.id, step.digest, step.passphrase, step.volumes);
      RemoveLeavesNothing(CreateDisk(s, step), id, step.removal);
    } else if step.Destroy? {
      RemoveLeavesNothing(s.disk, id, step.removal);
    } else if (step.ResetSystem? || step.ResetAll? || step.UpdateImage?)
              && Checks(s, id, step.passphrase, step.seen).None? {
      var v := if step.ResetAll? then step.volumes else Volumes(step.secret, step.overlay, false, step.overlay);
      var digest := if step.UpdateImage? && step.latest.Some? then step.latest.value else s.disk.configs[id].digest;
      VolumesKeepConfigs(s.disk, id, digest, step.passphrase, v);
    }
  }

  lemma RemoveLeavesNothing(d: Disk, id: string, removal: Removal)
    requires NothingLeft(d, id) && !(removal.Partly? && removal.configGone)
    ensures NothingLeft(RemoveFiles(d, id, removal), id)
  {
  }

  /** Without such a removal no create finds anything to mix, so every image is of the right kind. */
  lemma {:induction false} UntornRunsAreRight(s: State, steps: seq<Step>, id: string)
    requires KindsRight(s.disk, id) && NothingLeft(s.disk, id)
    requires forall i :: 0 <= i < |steps| ==> !Tears(steps[i], id)
    ensures KindsAlwaysRight(s, steps, id)
    decreases |steps|
  {
    if steps != [] {
      StepLeavesNothing(s, steps[0], id);
      KindsStep(s, steps[0], id);
      NothingToMix(s, steps[0], id);
      hide Apply, KindsRight, MixesKinds, NothingLeft, Tears;
      UntornRunsAreRight(Apply(s, steps[0]).0, steps[1..], id);
    }
  }

  lemma NothingToMix(s: State, step: Step, id: string)
    requires NothingLeft(s.disk, id)
    ensures !MixesKinds(s, step, id)
  {
  }

  /** With one it happens: a data volume outlives its encrypted space and meets a plain one. */
  lemma LeftFilesBreakEncryption()
    ensures exists steps ::
      && Possible(INIT, steps)
      && var s := After(INIT, steps);
         "a" in s.disk.configs && !s.disk.configs["a"].encrypted
         && "a" in s.disk.datas && s.disk.datas["a"] == Intact("", true)
  {
    var both := Volumes(true, Rebuilt(true), true, Rebuilt(true));
    var none := Volumes(true, Rebuilt(true), false, Rebuilt(true));
    var create := Create("a", Given, "1", 3, None, true, both, Applied, Removed);
    var destroy := Destroy("a", false, true, Partly(true, false, false), Applied);
    var again := Create("a", Absent, "1", 3, None, true, none, Applied, Removed);
    assert "a" != Registry.MIYORI_NET by { assert |"a"| == 1 && |Registry.MIYORI_NET| == 10; }
    var s1 := Apply(INIT, create).0;
    assert s1.disk ==
      Disk(map["a" := Config(3, "1", true)], map["a" := Intact("1", true)], map["a" := Intact("", true)]);
    var s2 := Apply(s1, destroy).0;
    assert s2.disk == s1.disk.(configs := map[]) && s2.net == INIT.net;
    var s3 := Apply(s2, again).0;
    assert s3.disk.datas == s2.disk.datas && s3.disk.configs == map["a" := Config(3, "1", false)];
    RunOfThree(create, destroy, again, s1, s2, s3);
    assert Possible(INIT, [create, destroy, again]);
  }

  // ---- the recorded image ----

  /** An intact overlay of a stored space is on the image its config records. */
  predicate OnRecord(disk: Disk, id: string) {
    id in disk.configs ==> Based(disk.overlays, id, disk.configs[id].digest)
  }

  /** An update rewrites the overlay on another image and then does not record that image. */
  predicate StopsHalfway(s: State, step: Step, id: string) {
    && step.UpdateImage? && step.id == id && Checks(s, id, step.passphrase, step.seen).None?
    && step.latest.Some? && step.latest.value != s.disk.configs[id].digest && step.complete
    && (step.passphrase != Absent ==> step.secret) && (step.overlay.Rebuilt? || step.overlay.FailedNew?)
    && !(ImageOk(step.overlay) && step.written)
  }

  /** That, or a create whose rollback leaves its config over a left overlay on another image. */
  predicate Strays(s: State, step: Step, id: string) {
    || StopsHalfway(s, step, id)
    || (step.Create? && step.id == id && InheritsOverlay(s, step) && !Based(s.disk.overlays, id, step.digest))
  }

  lemma CreateRecord(s: State, q: Step)
    requires q.Create? && q.id !in s.disk.configs
    ensures OnRecord(CreateStep(s, q).0.disk, q.id) <==> !Strays(s, q, q.id)
  {
    hide View;
  }

  lemma UpdateRecord(s: State, q: Step)
    requires q.UpdateImage? && OnRecord(s.disk, q.id)
    ensures OnRecord(UpdateImageStep(s, q).0.disk, q.id) <==> !StopsHalfway(s, q, q.id)
  {
  }

  lemma ResetRecord(s: State, q: Step)
    requires (q.ResetSystem? || q.ResetAll?) && OnRecord(s.disk, q.id)
    ensures OnRecord(Apply(s, q).0.disk, q.id)
  {
    hide WriteVolumes, VolumesOk, Based;
    if q.id in s.disk.configs {
      var v := if q.ResetAll? then q.volumes else Volumes(q.secret, q.overlay, false, q.overlay);
      WriteVolumesEffect(s.disk, q.id, s.disk.configs[q.id].digest, q.passphrase, v);
    }
  }

  lemma RemoveRecord(d: Disk, id: string, removal: Removal)
    requires OnRecord(d, id)
    ensures OnRecord(RemoveFiles(d, id, removal), id)
  {
  }

  lemma SameRecord(d: Disk, e: Disk, id: string)
    requires SameImages(d, e, id) && SameAt(d.configs, e.configs, id)
    ensures OnRecord(d, id) <==> OnRecord(e, id)
  {
  }

  /** One step keeps an overlay on record if and only if it is neither of the two: resets never break it. */
  lemma RecordStep(s: State, step: Step, id: string)
    requires OnRecord(s.disk, id)
    ensures OnRecord(Apply(s, step).0.disk, id) <==> !Strays(s, step, id)
  {
    hide View, WriteVolumes, VolumesOk, DeleteTap, MakeTap, KillAndReap, RemoveFiles;
    hide Based, InheritsOverlay, UpdateImageStep;
    if !Concerns(step, id) {
      OthersUntouched(s, step, id);
      SameRecord(s.disk, Apply(s, step).0.disk, id);
    } else if step.Create? {
      if id !in s.disk.configs { CreateRecord(s, step); } else { NotPassed(s, step); }
    } else if step.Destroy? {
      RemoveRecord(s.disk, id, step.removal);
    } else if step.UpdateImage? {
      UpdateRecord(s, step);
    } else if step.ResetSystem? || step.ResetAll? {
      ResetRecord(s, step);
    }
  }

  lemma NotPassed(s: State, q: Step)
    requires q.Create? && q.id in s.disk.configs
    ensures CreateStep(s, q).0 == s && !InheritsOverlay(s, q)
  {
  }

  /** The step puts the overlay on record whatever it was, or ends the space: an Ok of create, of either
      reset, or of an update to another image. */
  predicate Settles(s: State, step: Step, id: string) {
    || id !in Apply(s, step).0.disk.configs
    || (Concerns(step, id) && Apply(s, step).1 == Ok
        && (step.Create? || step.ResetSystem? || step.ResetAll?
            || (step.UpdateImage? && id in s.disk.configs && step.latest != Some(s.disk.configs[id].digest))))
  }

  lemma SettledIsOnRecord(s: State, step: Step, id: string)
    requires Settles(s, step, id)
    ensures OnRecord(Apply(s, step).0.disk, id)
  {
    hide View, WriteVolumes, VolumesOk, DeleteTap, MakeTap, KillAndReap, RemoveFiles;
    if id in Apply(s, step).0.disk.configs {
      if step.Create? { CreateMakesSpace(s, step); }
      else if step.ResetSystem? { ResetRestores(s, step); }
      else if step.ResetAll? { ResetAllRestores(s, step); }
      else { UpdateRestoresIff(s, step); }
    }
  }

  predicate StraysAt(s: State, steps: seq<Step>, i: nat, id: string)
    requires i < |steps|
  {
    Strays(After(s, steps[..i]), steps[i], id)
  }

  predicate SettlesAt(s: State, steps: seq<Step>, i: nat, id: string)
    requires i < |steps|
  {
    Settles(After(s, steps[..i]), steps[i], id)
  }

  /** A mismatch is explained by the run: some update stopped halfway, or some create was left over an old
      overlay, and nothing has settled that space's overlay since. */
  ghost predicate Explained(s: State, steps: seq<Step>, id: string) {
    exists i ::
      && 0 <= i < |steps| && StraysAt(s, steps, i, id)
      && forall j :: i < j < |steps| ==> !SettlesAt(s, steps, j, id)
  }

  /** Along any run an intact overlay is off the recorded image only if the run explains it so. */
  lemma {:induction false} MismatchHistory(s: State, steps: seq<Step>, id: string)
    requires OnRecord(s.disk, id)
    ensures !OnRecord(After(s, steps).disk, id) ==> Explained(s, steps, id)
    decreases |steps|
  {
    hide Apply, OnRecord, Strays, Settles;
    if steps != [] && !OnRecord(After(s, steps).disk, id) {
      var n := |steps| - 1;
      var init, t := steps[..n], After(s, steps[..n]);
      LastStep(s, steps);
      if OnRecord(t.disk, id) {
        RecordStep(t, steps[n], id);
        assert StraysAt(s, steps, n, id);
      } else {
        MismatchHistory(s, init, id);
        if Settles(t, steps[n], id) { SettledIsOnRecord(t, steps[n], id); }
        var i :|
          && 0 <= i < |init| && StraysAt(s, init, i, id)
          && forall j :: i < j < |init| ==> !SettlesAt(s, init, j, id);
        Longer(s, steps, i, id);
        forall j | i < j < |steps| ensures !SettlesAt(s, steps, j, id) {
          if j < n { Longer(s, steps, j, id); }
        }
      }
    }
  }

  lemma Longer(s: State, steps: seq<Step>, i: nat, id: string)
    requires i < |steps| - 1
    ensures StraysAt(s, steps[..|steps| - 1], i, id) == StraysAt(s, steps, i, id)
    ensures SettlesAt(s, steps[..|steps| - 1], i, id) == SettlesAt(s, steps, i, id)
  {
    hide Strays, Settles, After;
    assert steps[..|steps| - 1][..i] == steps[..i];
  }

  predicate AlwaysOnRecord(s: State, steps: seq<Step>, id: string)
    decreases |steps|
  {
    OnRecord(s.disk, id) && (steps == [] || AlwaysOnRecord(Apply(s, steps[0]).0, steps[1..], id))
  }

  predicate NeverStrays(s: State, steps: seq<Step>, id: string)
    decreases |steps|
  {
    steps == [] || (!Strays(s, steps[0], id) && NeverStrays(Apply(s, steps[0]).0, steps[1..], id))
  }

  /** And the overlay is on record at every moment if and only if no step strays. */
  lemma {:induction false} RecordRun(s: State, steps: seq<Step>, id: string)
    requires OnRecord(s.disk, id)
    ensures AlwaysOnRecord(s, steps, id) <==> NeverStrays(s, steps, id)
    ensures NeverStrays(s, steps, id) ==> OnRecord(After(s, steps).disk, id)
    decreases |steps|
  {
    if steps != [] {
      RecordStep(s, steps[0], id);
      hide Apply, OnRecord, Strays;
      if !Strays(s, steps[0], id) { RecordRun(Apply(s, steps[0]).0, steps[1..], id); }
      else { RecordNow(Apply(s, steps[0]).0, steps[1..], id); }
    }
  }

  lemma RecordNow(s: State, steps: seq<Step>, id: string)
    ensures AlwaysOnRecord(s, steps, id) ==> OnRecord(s.disk, id)
  {
  }

  // ---- the order of an image update ----

  /** The recorded digest changes only to one the overlay has already been built on. */
  lemma DigestFollowsOverlay(s: State, step: Step, id: string)
    requires id in s.disk.configs && id in Apply(s, step).0.disk.configs
    requires Apply(s, step).0.disk.configs[id].digest != s.disk.configs[id].digest
    ensures step.UpdateImage? && step.id == id && Apply(s, step).1 == Ok
    ensures OnRecordedImage(Apply(s, step).0, id)
  {
    ConfigsChange(s, step, id);
    if step.UpdateImage? {
      hide WriteVolumes, View, DeleteTap, MakeTap;
      var v := Volumes(step.secret, step.overlay, false, step.overlay);
      if step.latest.Some? { WriteVolumesEffect(s.disk, step.id, step.latest.value, step.passphrase, v); }
    }
  }

  /** Which operations change the config of a space that stays. */
  lemma ConfigsChange(s: State, step: Step, id: string)
    requires id in s.disk.configs && id in Apply(s, step).0.disk.configs
    ensures Apply(s, step).0.disk.configs[id] == s.disk.configs[id] || (step.UpdateImage? && step.id == id)
  {
    hide WriteImage, View, DeleteTap, MakeTap, KillAndReap, VolumesOk;
  }

  /** The config of the space stays in place all along. */
  predicate Stays(s: State, steps: seq<Step>, id: string)
    decreases |steps|
  {
    id in s.disk.configs && (steps == [] || Stays(Apply(s, steps[0]).0, steps[1..], id))
  }

  /** Moments of a run at which an update of the space has just succeeded. */
  predicate UpdatedAt(s: State, steps: seq<Step>, i: nat, id: string)
    requires i < |steps|
  {
    && steps[i].UpdateImage? && steps[i].id == id
    && Apply(After(s, steps[..i]), steps[i]).1 == Ok && OnRecordedImage(After(s, steps[..i + 1]), id)
  }

  /** Along any run a recorded digest that has changed was recorded by a successful update, at a moment
      when the overlay was already on it. */
  lemma {:induction false} DigestHistory(s: State, steps: seq<Step>, id: string)
    requires Stays(s, steps, id)
    ensures id in After(s, steps).disk.configs
    ensures After(s, steps).disk.configs[id].digest != s.disk.configs[id].digest ==>
      exists i :: 0 <= i < |steps| && UpdatedAt(s, steps, i, id)
    decreases |steps|
  {
    hide Apply, OnRecordedImage;
    if steps != [] {
      var t, rest := Apply(s, steps[0]).0, steps[1..];
      DigestHistory(t, rest, id);
      if t.disk.configs[id].digest != s.disk.configs[id].digest {
        DigestFollowsOverlay(s, steps[0], id);
        assert steps[..0] == [] && steps[..1] == [steps[0]] && [steps[0]][1..] == [];
        assert After(s, steps[..1]) == t;
        assert UpdatedAt(s, steps, 0, id);
      } else if After(t, rest).disk.configs[id].digest != t.disk.configs[id].digest {
        var i :| 0 <= i < |rest| && UpdatedAt(t, rest, i, id);
        ShiftRun(s, steps, i);
        ShiftRun(s, steps, i + 1);
        assert UpdatedAt(s, steps, i + 1, id);
      }
    }
  }

  lemma ShiftRun(s: State, steps: seq<Step>, i: nat)
    requires steps != [] && i < |steps|
    ensures After(s, steps[..i + 1]) == After(Apply(s, steps[0]).0, steps[1..][..i])
  {
    hide Apply;
    assert steps[..i + 1][1..] == steps[1..][..i];
  }

  /** A reset of the system that answers Ok puts the overlay back on the recorded image. */
  lemma ResetRestores(s: State, q: Step)
    requires q.ResetSystem? && ResetSystemStep(s, q).1 == Ok
    ensures OnRecordedImage(ResetSystemStep(s, q).0, q.id)
  {
    hide WriteVolumes;
    var v := Volumes(q.secret, q.overlay, false, q.overlay);
    if q.id in s.disk.configs { WriteVolumesEffect(s.disk, q.id, s.disk.configs[q.id].digest, q.passphrase, v); }
  }

  /** A reset of everything does so too, and renews the data volume if the profile has one. */
  lemma ResetAllRestores(s: State, q: Step)
    requires q.ResetAll? && ResetAllStep(s, q).1 == Ok
    ensures var t := ResetAllStep(s, q).0;
      && OnRecordedImage(t, q.id) && t.disk.configs == s.disk.configs
      && (q.volumes.hasData ==>
           q.id in t.disk.datas && t.disk.datas[q.id] == Intact("", t.disk.configs[q.id].encrypted))
  {
  }

  /** An update that answers Ok leaves the overlay on the recorded image exactly when the image was not
      already the recorded one, or the overlay was on it before: it does not repair a failed reset. */
  lemma UpdateRestoresIff(s: State, q: Step)
    requires q.UpdateImage? && UpdateImageStep(s, q).1 == Ok
    ensures q.id in s.disk.configs
    ensures OnRecordedImage(UpdateImageStep(s, q).0, q.id) <==>
      q.latest != Some(s.disk.configs[q.id].digest) || OnRecordedImage(s, q.id)
  {
    hide WriteVolumes;
    var v := Volumes(q.secret, q.overlay, false, q.overlay);
    if q.latest.Some? { WriteVolumesEffect(s.disk, q.id, q.latest.value, q.passphrase, v); }
  }

  /** An operation that may change the config of a space. */
  predicate Reconfigures(step: Step, id: string) {
    (step.Create? || step.UpdateImage? || step.Destroy?) && step.id == id
  }

  lemma {:induction false} ConfigStays(s: State, steps: seq<Step>, id: string)
    requires id in s.disk.configs && forall i :: 0 <= i < |steps| ==> !Reconfigures(steps[i], id)
    ensures SameAt(s.disk.configs, After(s, steps).disk.configs, id)
    decreases |steps|
  {
    if steps != [] {
      ConfigKept(s, steps[0], id);
      hide Apply, Reconfigures;
      ConfigStays(Apply(s, steps[0]).0, steps[1..], id);
    }
  }

  lemma ConfigKept(s: State, step: Step, id: string)
    requires !Reconfigures(step, id)
    ensures SameAt(s.disk.configs, Apply(s, step).0.disk.configs, id)
  {
    hide View, WriteVolumes, VolumesOk, DeleteTap, MakeTap, KillAndReap, RemoveFiles;
    if !Concerns(step, id) {
      OthersUntouched(s, step, id);
    } else if (step.ResetSystem? || step.ResetAll?) && id in s.disk.configs {
      var v := if step.ResetAll? then step.volumes else Volumes(step.secret, step.overlay, false, step.overlay);
      VolumesKeepConfigs(s.disk, id, s.disk.configs[id].digest, step.passphrase, v);
    }
  }

  /** An update to a new image that failed is completed by repeating it while `latest` stays, after any run
      of other operations, resets and starts of the same space included. */
  lemma RetryCompletesUpdate(s: State, q: Step, steps: seq<Step>, r: Step)
    requires q.UpdateImage? && r.UpdateImage? && q.id == r.id && q.latest == r.latest && q.id in s.disk.configs
    requires q.latest != Some(s.disk.configs[q.id].digest) && UpdateImageStep(s, q).1 != Ok
    requires forall i :: 0 <= i < |steps| ==> !Reconfigures(steps[i], q.id)
    requires UpdateImageStep(After(UpdateImageStep(s, q).0, steps), r).1 == Ok
    ensures var u := UpdateImageStep(After(UpdateImageStep(s, q).0, steps), r).0;
      OnRecordedImage(u, q.id) && Some(u.disk.configs[q.id].digest) == q.latest
  {
    var t := UpdateImageStep(s, q).0;
    FailedUpdateKeepsConfigs(s, q);
    ConfigStays(t, steps, q.id);
    hide After, WriteVolumes, Reconfigures;
    var w := After(t, steps);
    UpdateRestoresIff(w, r);
    assert w.disk.configs[q.id].digest == s.disk.configs[q.id].digest;
    OkUpdateRecords(w, r);
  }

  lemma OkUpdateRecords(s: State, q: Step)
    requires q.UpdateImage? && UpdateImageStep(s, q).1 == Ok
    ensures q.id in UpdateImageStep(s, q).0.disk.configs
    ensures Some(UpdateImageStep(s, q).0.disk.configs[q.id].digest) == q.latest
  {
    hide WriteVolumes;
  }

  lemma FailedUpdateKeepsConfigs(s: State, q: Step)
    requires q.UpdateImage? && UpdateImageStep(s, q).1 != Ok
    ensures UpdateImageStep(s, q).0.disk.configs == s.disk.configs
  {
    hide WriteImage;
  }

  /** Neither operation touches any data volume, whatever fails. */
  lemma DataUntouched(s: State, step: Step)
    requires step.ResetSystem? || step.UpdateImage?
    ensures Apply(s, step).0.disk.datas == s.disk.datas
  {
    hide WriteImage;
  }

  /** Why the condition in UpdateRestoresIff matters: an update that failed after rebuilding the overlay,
      then `latest` moved back, and the next update says Ok over an overlay of the other image. */
  lemma UpdateCanLeaveMismatch()
    ensures exists steps ::
      && Possible(INIT, steps) && steps != []
      && Apply(After(INIT, steps[..|steps| - 1]), steps[|steps| - 1]).1 == Ok
      && var s := After(INIT, steps);
         "a" in s.disk.configs && s.disk.configs["a"].digest == "1"
         && "a" in s.disk.overlays && s.disk.overlays["a"] == Intact("2", false)
  {
    var create := PlainCreate();
    var fail := UpdateImage("a", Absent, false, Some("2"), true, true, Rebuilt(false), true);
    var again := UpdateImage("a", Absent, false, Some("1"), true, true, Rebuilt(true), true);
    PlainCreated();
    var s1 := Apply(INIT, create).0;
    hide CreateStep, StartStep, StopStep, ResetAllStep, ResetSystemStep, DestroyStep;
    var s2 := Apply(s1, fail).0;
    assert s2.disk == s1.disk.(overlays := map["a" := Intact("2", false)]) && s2.procs == s1.procs;
    assert Apply(s2, again) == (s2, Ok);
    var steps := [create, fail, again];
    RunOfThree(create, fail, again, s1, s2, s2);
    assert steps[..|steps| - 1] == [create, fail];
  }

  function PlainCreate(): Step {
    Create("a", Absent, "1", 3, None, true, Volumes(true, Rebuilt(true), false, Rebuilt(true)), Applied, Removed)
  }

  lemma PlainCreated()
    ensures Enabled(INIT, PlainCreate())
    ensures var s := Apply(INIT, PlainCreate()).0;
      && s.disk == Disk(map["a" := Config(3, "1", false)], map["a" := Intact("1", false)], map[])
      && s.procs == INIT.procs
  {
    assert "a" != Registry.MIYORI_NET by { assert |"a"| == 1 && |Registry.MIYORI_NET| == 10; }
  }

  lemma RunOfThree(a: Step, b: Step, c: Step, s1: State, s2: State, s3: State)
    requires Enabled(INIT, a) && Apply(INIT, a).0 == s1
    requires Enabled(s1, b) && Apply(s1, b).0 == s2
    requires Enabled(s2, c) && Apply(s2, c).0 == s3
    ensures Possible(INIT, [a, b, c]) && After(INIT, [a, b, c]) == s3 && After(INIT, [a, b]) == s2
  {
    hide Apply, Enabled;
    assert [a, b, c][1..] == [b, c] && [b, c][1..] == [c] && [c][1..] == [] && [a, b][1..] == [b] && [b][1..] == [];
    assert After(s2, [c]) == s3 && Possible(s2, [c]);
    assert After(s1, [b, c]) == s3 && Possible(s1, [b, c]);
    assert After(s1, [b]) == s2;
  }

  // ---- running spaces ----

  /** No step rewrites or removes an image of a space whose recorded QEMU runs. */
  lemma LiveImagesUntouched(s: State, step: Step, id: string)
    requires Inv(s) && Enabled(s, step) && Live(s, id)
    ensures SameImages(s.disk, Apply(s, step).0.disk, id)
    ensures id in Apply(s, step).0.disk.configs
  {
    assert id in s.disk.configs;
    hide CidInv, LinkInv, ProcInv, WriteVolumes, View, DeleteTap, MakeTap, KillAndReap;
    hide VolumesOk, Allocatable, RemoveFiles;
    if !Concerns(step, id) { OthersUntouched(s, step, id); }
  }

  predicate AlwaysLive(s: State, steps: seq<Step>, id: string)
    decreases |steps|
  {
    Live(s, id) && (steps == [] || AlwaysLive(Apply(s, steps[0]).0, steps[1..], id))
  }

  /** Over any run during which the recorded QEMU of a space lives, its images stay exactly as they were. */
  lemma {:induction false} RunningImagesStay(s: State, steps: seq<Step>, id: string)
    requires Inv(s) && Possible(s, steps) && AlwaysLive(s, steps, id)
    ensures SameImages(s.disk, After(s, steps).disk, id)
    decreases |steps|
  {
    if steps != [] {
      StepKeepsInv(s, steps[0]);
      LiveImagesUntouched(s, steps[0], id);
      hide Inv, Apply, Live;
      RunningImagesStay(Apply(s, steps[0]).0, steps[1..], id);
    }
  }
}
