// The store of image templates: builds that finish it concurrently and without a lock, spaces that are
// based on its templates, and the script that deletes the templates nobody needs.
module Templates {
  import opened Text

  /** A template's place: its profile and its digest. */
  datatype Place = Place(profile: string, digest: string)

  datatype Phase =
    | Staged        // built, not yet looked for
    | Absent        // its place was seen to be free
    | Moved         // moved into its place
    | Settled       // in its place, owned by root or found there
    | Unlinked      // the old `latest` is removed
    | Over

  datatype Build = Build(place: Place, content: string, phase: Phase)

  /** `holders` are the spaces with the templates their configs record, `overlays` the templates that the
      overlays in the spaces' directories are built on. */
  datatype State = State(
    stored: map<Place, string>, latest: map<string, string>, builds: map<nat, Build>,
    holders: map<string, Place>, overlays: map<string, Place>)

  datatype Step =
    | Begin(b: nat, place: Place, content: string)
    | LookUp(b: nat)
    | Move(b: nat, works: bool)
    | Chown(b: nat, works: bool)
    | Unlink(b: nat, works: bool)
    | Symlink(b: nat, works: bool)
    | Register(id: string, place: Place)
    | Rebase(id: string, place: Place)
    | Record(id: string)
    | Leave(id: string, left: bool)
    | Prune(unreadable: bool, dirs: nat, victims: set<Place>)

  const INIT := State(map[], map[], map[], map[], map[])

  function WithPhase(s: State, b: nat, phase: Phase): map<nat, Build>
    requires b in s.builds
  {
    s.builds[b := s.builds[b].(phase := phase)]
  }

  // ---- pruning ----

  function UsedDigests(s: State): set<string> { set id | id in s.holders :: s.holders[id].digest }

  /** Neither `latest` of its profile nor the digest of any space. */
  predicate Garbage(s: State, p: Place) {
    p in s.stored && !(p.profile in s.latest && s.latest[p.profile] == p.digest) && p.digest !in UsedDigests(s)
  }

  /** The script stops before deleting anything: a config it cannot read, or spaces without digests. */
  predicate PruneRefuses(s: State, unreadable: bool, dirs: nat) { unreadable || (dirs > 0 && UsedDigests(s) == {}) }

  predicate AboutToLink(s: State, p: Place) {
    exists b :: b in s.builds && s.builds[b].place == p && (s.builds[b].phase in {Moved, Settled, Unlinked})
  }

  // ---- steps ----

  predicate InPhase(s: State, b: nat, phase: Phase) { b in s.builds && s.builds[b].phase == phase }

  predicate Enabled(s: State, step: Step) {
    match step
    case Begin(b, _, _) => b !in s.builds
    case LookUp(b) => InPhase(s, b, Staged)
    case Move(b, _) => InPhase(s, b, Absent)
    case Chown(b, _) => InPhase(s, b, Moved)
    case Unlink(b, _) => InPhase(s, b, Settled)
    case Symlink(b, _) => InPhase(s, b, Unlinked)
    // create writes the config first
    case Register(id, _) => id !in s.holders
    // create, the resets and update build an overlay, the last on what was `latest` some time before
    case Rebase(id, place) => id in s.holders && place.profile == s.holders[id].profile && place in s.stored
    // update writes the digest after the overlay
    case Record(id) => id in s.holders && id in s.overlays && s.overlays[id].profile == s.holders[id].profile
    // removing a directory may stop with the config gone and the overlay left
    case Leave(id, _) => id in s.holders
    // deleting may stop anywhere, so any part of the garbage may go
    case Prune(unreadable, dirs, victims) =>
      (PruneRefuses(s, unreadable, dirs) ==> victims == {}) && forall p :: p in victims ==> Garbage(s, p)
  }

  function MoveStep(s: State, b: nat, works: bool): State
    requires b in s.builds
  {
    var build := s.builds[b];
    // renaming onto a directory that is there and not empty fails
    if build.place in s.stored || !works then s.(builds := WithPhase(s, b, Over))
    else s.(stored := s.stored[build.place := build.content], builds := WithPhase(s, b, Moved))
  }

  function UnlinkStep(s: State, b: nat, works: bool): State
    requires b in s.builds
  {
    s.(latest := if works then s.latest - {s.builds[b].place.profile} else s.latest,
       builds := WithPhase(s, b, Unlinked))
  }

  function SymlinkStep(s: State, b: nat, works: bool): State
    requires b in s.builds
  {
    var place := s.builds[b].place;
    // the link must not exist yet; a failure is only logged
    s.(latest := if works && place.profile !in s.latest then s.latest[place.profile := place.digest] else s.latest,
       builds := WithPhase(s, b, Over))
  }

  function Apply(s: State, step: Step): State
    requires Enabled(s, step)
  {
    match step
    case Begin(b, place, content) => s.(builds := s.builds[b := Build(place, content, Staged)])
    case LookUp(b) => s.(builds := WithPhase(s, b, if s.builds[b].place in s.stored then Settled else Absent))
    case Move(b, works) => MoveStep(s, b, works)
    case Chown(b, works) => s.(builds := WithPhase(s, b, if works then Settled else Over))
    case Unlink(b, works) => UnlinkStep(s, b, works)
    case Symlink(b, works) => SymlinkStep(s, b, works)
    case Register(id, place) => s.(holders := s.holders[id := place])
    case Rebase(id, place) => s.(overlays := s.overlays[id := place])
    case Record(id) => s.(holders := s.holders[id := s.overlays[id]])
    case Leave(id, left) =>
      s.(holders := s.holders - {id}, overlays := if left then s.overlays else s.overlays - {id})
    case Prune(_, _, victims) => s.(stored := s.stored - victims)
  }

  predicate Possible(s: State, steps: seq<Step>)
    decreases |steps|
  {
    steps == [] || (Enabled(s, steps[0]) && Possible(Apply(s, steps[0]), steps[1..]))
  }

  function After(s: State, steps: seq<Step>): State
    requires Possible(s, steps)
    decreases |steps|
  {
    if steps == [] then s else After(Apply(s, steps[0]), steps[1..])
  }

  /** A prune deletes nothing when a config cannot be read, or when there are spaces but no digest was found. */
  lemma PruneHoldsBack(s: State, unreadable: bool, dirs: nat, victims: set<Place>)
    requires Enabled(s, Prune(unreadable, dirs, victims))
    ensures unreadable || (dirs > 0 && s.holders == map[]) ==> victims == {}
    ensures forall p :: p in victims ==>
      p in s.stored && forall id :: id in s.holders ==> s.holders[id].digest != p.digest
  {
    forall p, id | p in victims && id in s.holders ensures s.holders[id].digest != p.digest {
      assert Garbage(s, p) && s.holders[id].digest in UsedDigests(s);
    }
  }

  /** A build that fails to move or to own its template is over, and so is one that has tried to link it. */
  lemma BuildEnds(s: State, step: Step)
    requires Enabled(s, step) && (step.Move? || step.Chown? || step.Symlink?)
    ensures var t := Apply(s, step);
      && step.b in t.builds && t.builds[step.b].place == s.builds[step.b].place
      && (t.builds[step.b].phase == Over <==>
            step.Symlink? || !step.works || (step.Move? && s.builds[step.b].place in s.stored))
  {
  }

  /** And then it takes no further step. */
  lemma OverIsOver(s: State, step: Step, b: nat)
    requires Enabled(s, step) && InPhase(s, b, Over)
    ensures InPhase(Apply(s, step), b, Over)
    ensures step.LookUp? || step.Move? || step.Chown? || step.Unlink? || step.Symlink? ==> step.b != b
  {
    hide Garbage, UsedDigests, PruneRefuses;
  }

  /** What a config records of a space and what its overlay is on change only with the operations on that space. */
  lemma SpaceChanges(s: State, step: Step, id: string)
    requires Enabled(s, step)
    ensures var t := Apply(s, step);
      && (id in t.holders <==>
            (step.Register? && step.id == id) || (id in s.holders && !(step.Leave? && step.id == id)))
      && (id in t.holders ==>
            if step.Register? && step.id == id then t.holders[id] == step.place
            else t.holders[id] == if step == Record(id) then s.overlays[id] else s.holders[id])
      && (id in t.overlays <==>
            (step.Rebase? && step.id == id) || (id in s.overlays && !(step.Leave? && step.id == id && !step.left)))
      && (id in t.overlays ==> t.overlays[id] == (if step.Rebase? && step.id == id then step.place else s.overlays[id]))
  {
    hide Garbage, UsedDigests, PruneRefuses;
  }

  // ---- stored templates ----

  /** What a step may do to a stored template: nothing, or delete it as garbage. */
  lemma StoredNeverChanges(s: State, step: Step, p: Place)
    requires Enabled(s, step) && p in s.stored
    ensures var t := Apply(s, step);
      if p in t.stored then t.stored[p] == s.stored[p] else step.Prune? && Garbage(s, p)
  {
  }

  predicate NoPrune(steps: seq<Step>) { forall i :: 0 <= i < |steps| ==> !steps[i].Prune? }

  /** Over every interleaving of builds a template once stored under a digest stays, unchanged. */
  lemma {:induction false} StoredForGood(s: State, steps: seq<Step>, p: Place)
    requires Possible(s, steps) && NoPrune(steps) && p in s.stored
    ensures p in After(s, steps).stored && After(s, steps).stored[p] == s.stored[p]
    decreases |steps|
  {
    if steps != [] {
      hide Garbage;
      StoredNeverChanges(s, steps[0], p);
      assert !steps[0].Prune?;
      hide Apply, Enabled;
      StoredForGood(Apply(s, steps[0]), steps[1..], p);
    }
  }

  // ---- what `latest` names ----

  predicate BuildsReady(s: State) {
    forall b :: b in s.builds && s.builds[b].phase in {Moved, Settled, Unlinked} ==> s.builds[b].place in s.stored
  }

  predicate LatestReady(s: State) {
    forall profile :: profile in s.latest ==> Place(profile, s.latest[profile]) in s.stored
  }

  /** Every `latest` names a stored template, and so does every build that is still to link its own. */
  predicate Ready(s: State) { BuildsReady(s) && LatestReady(s) }

  /** A prune that takes a template which a build has settled and not yet linked. */
  predicate PrunesLinking(s: State, step: Step) {
    step.Prune? && exists p :: p in step.victims && AboutToLink(s, p)
  }

  /** A build that links a template which is gone. */
  predicate LinksMissing(s: State, step: Step) {
    && step.Symlink? && step.works && step.b in s.builds
    && s.builds[step.b].place.profile !in s.latest && s.builds[step.b].place !in s.stored
  }

  lemma PruneReady(s: State, step: Step)
    requires Ready(s) && step.Prune? && Enabled(s, step)
    ensures Ready(Apply(s, step)) <==> !PrunesLinking(s, step)
  {
    var t := Apply(s, step);
    forall p | p in step.victims ensures Garbage(s, p) {}
    if PrunesLinking(s, step) {
      var p :| p in step.victims && AboutToLink(s, p);
      var b :| b in s.builds && s.builds[b].place == p && s.builds[b].phase in {Moved, Settled, Unlinked};
      assert t.builds[b].place !in t.stored;
    }
    forall b | !PrunesLinking(s, step) && b in t.builds && t.builds[b].phase in {Moved, Settled, Unlinked}
      ensures t.builds[b].place in t.stored
    {
      assert AboutToLink(s, s.builds[b].place);
    }
  }

  /** Only a prune under a build that is still to link its template ends readiness, and every such prune does. */
  lemma ReadyStep(s: State, step: Step)
    requires Ready(s) && Enabled(s, step)
    ensures Ready(Apply(s, step)) <==> !PrunesLinking(s, step)
  {
    if step.Prune? { PruneReady(s, step); } else { hide Garbage, UsedDigests, PruneRefuses, AboutToLink; }
  }

  /** What every `latest` names stays stored in every step but one: linking a template that is gone. */
  lemma LatestStep(s: State, step: Step)
    requires LatestReady(s) && Enabled(s, step)
    ensures LatestReady(Apply(s, step)) <==> !LinksMissing(s, step)
  {
    var t := Apply(s, step);
    if step.Prune? {
      forall p | p in step.victims ensures Garbage(s, p) {}
    } else {
      hide Garbage, UsedDigests, PruneRefuses, AboutToLink;
      if LinksMissing(s, step) {
        var p := s.builds[step.b].place;
        assert p.profile in t.latest && Place(p.profile, t.latest[p.profile]) == p;
      }
    }
  }

  ghost predicate AlwaysReady(s: State, steps: seq<Step>)
    requires Possible(s, steps)
    decreases |steps|
  {
    Ready(s) && (steps == [] || AlwaysReady(Apply(s, steps[0]), steps[1..]))
  }

  /** Every prune of the run spares the templates that builds are about to link. */
  ghost predicate SparesLinks(s: State, steps: seq<Step>)
    requires Possible(s, steps)
    decreases |steps|
  {
    steps == [] || (!PrunesLinking(s, steps[0]) && SparesLinks(Apply(s, steps[0]), steps[1..]))
  }

  ghost predicate AlwaysStored(s: State, steps: seq<Step>)
    requires Possible(s, steps)
    decreases |steps|
  {
    LatestReady(s) && (steps == [] || AlwaysStored(Apply(s, steps[0]), steps[1..]))
  }

  ghost predicate NeverLinksMissing(s: State, steps: seq<Step>)
    requires Possible(s, steps)
    decreases |steps|
  {
    steps == [] || (!LinksMissing(s, steps[0]) && NeverLinksMissing(Apply(s, steps[0]), steps[1..]))
  }

  /** Over a whole run: ready throughout exactly when every prune spares the templates about to be linked. */
  lemma {:induction false} ReadyRun(s: State, steps: seq<Step>)
    requires Ready(s) && Possible(s, steps)
    ensures AlwaysReady(s, steps) <==> SparesLinks(s, steps)
    ensures SparesLinks(s, steps) ==> Ready(After(s, steps))
    decreases |steps|
  {
    if steps != [] {
      ReadyStep(s, steps[0]);
      hide Ready, Apply, Enabled, PrunesLinking;
      var t := Apply(s, steps[0]);
      if Ready(t) {
        ReadyRun(t, steps[1..]);
      } else {
        assert !AlwaysReady(t, steps[1..]);
      }
    }
  }

  /** Over a whole run: `latest` names stored templates throughout exactly when no build links a missing one. */
  lemma {:induction false} LatestRun(s: State, steps: seq<Step>)
    requires LatestReady(s) && Possible(s, steps)
    ensures AlwaysStored(s, steps) <==> NeverLinksMissing(s, steps)
    decreases |steps|
  {
    if steps != [] {
      LatestStep(s, steps[0]);
      hide LatestReady, Apply, Enabled, LinksMissing;
      var t := Apply(s, steps[0]);
      if LatestReady(t) {
        LatestRun(t, steps[1..]);
      } else {
        assert !AlwaysStored(t, steps[1..]);
      }
    }
  }

  /** From the start, on every run whose prunes spare those templates, `latest` names a stored one. */
  lemma LatestIsStored(steps: seq<Step>, profile: string)
    requires Possible(INIT, steps) && SparesLinks(INIT, steps) && profile in After(INIT, steps).latest
    ensures Place(profile, After(INIT, steps).latest[profile]) in After(INIT, steps).stored
  {
    ReadyRun(INIT, steps);
  }

  lemma {:induction false} NoPruneSpares(s: State, steps: seq<Step>)
    requires Possible(s, steps) && NoPrune(steps)
    ensures SparesLinks(s, steps)
    decreases |steps|
  {
    if steps != [] {
      assert !steps[0].Prune?;
      hide Apply, Enabled;
      NoPruneSpares(Apply(s, steps[0]), steps[1..]);
    }
  }

  /** Over every interleaving of concurrent builds `latest`, when present, names a stored template. */
  lemma LatestWithoutPrune(steps: seq<Step>, profile: string)
    requires Possible(INIT, steps) && NoPrune(steps) && profile in After(INIT, steps).latest
    ensures Place(profile, After(INIT, steps).latest[profile]) in After(INIT, steps).stored
  {
    NoPruneSpares(INIT, steps);
    LatestIsStored(steps, profile);
  }

  /** `latest` of a profile changes only when a build takes the old link away or makes its own. */
  lemma LatestChanges(s: State, step: Step, profile: string)
    requires Enabled(s, step)
    ensures var t := Apply(s, step);
      if step.Unlink? && step.works && s.builds[step.b].place.profile == profile then profile !in t.latest
      else if step.Symlink? && step.works && s.builds[step.b].place.profile == profile && profile !in s.latest
      then profile in t.latest && t.latest[profile] == s.builds[step.b].place.digest
      else
        && (profile in t.latest <==> profile in s.latest)
        && (profile in t.latest ==> t.latest[profile] == s.latest[profile])
  {
    hide Garbage, UsedDigests, PruneRefuses;
  }

  // ---- what the spaces are based on ----

  /** No space's overlay has lost its template. */
  predicate Based(s: State) {
    forall id :: id in s.holders && id in s.overlays ==> s.overlays[id] in s.stored
  }

  /** Every overlay is on the template that its space's config records. */
  predicate Recorded(s: State) {
    forall id :: id in s.holders && id in s.overlays ==> s.overlays[id] == s.holders[id]
  }

  /** A prune that takes what a space's overlay is built on, or a space that finds such an overlay left. */
  predicate LosesBase(s: State, step: Step) {
    || (step.Prune? && exists id :: id in s.holders && id in s.overlays && s.overlays[id] in step.victims)
    || (step.Register? && step.id in s.overlays && s.overlays[step.id] !in s.stored)
  }

  lemma BasedStep(s: State, step: Step)
    requires Based(s) && Enabled(s, step)
    ensures Based(Apply(s, step)) <==> !LosesBase(s, step)
  {
    hide Garbage, UsedDigests, PruneRefuses, AboutToLink;
    var t := Apply(s, step);
    if LosesBase(s, step) {
      var id := if step.Register? then step.id else
        var id :| id in s.holders && id in s.overlays && s.overlays[id] in step.victims; id;
      assert id in t.holders && id in t.overlays && t.overlays[id] !in t.stored;
    }
  }

  /** A prune takes an overlay's template only while the config records another one and `latest` does too. */
  lemma LostIsUnrecorded(s: State, step: Step, id: string)
    requires Enabled(s, step) && step.Prune?
    requires id in s.holders && id in s.overlays && s.overlays[id] in step.victims
    ensures var p := s.overlays[id];
      && s.holders[id].digest != p.digest
      && !(p.profile in s.latest && s.latest[p.profile] == p.digest)
  {
    assert Garbage(s, s.overlays[id]);
    assert s.holders[id].digest in UsedDigests(s);
  }

  ghost predicate AlwaysBased(s: State, steps: seq<Step>)
    requires Possible(s, steps)
    decreases |steps|
  {
    Based(s) && (steps == [] || AlwaysBased(Apply(s, steps[0]), steps[1..]))
  }

  ghost predicate NeverLosesBase(s: State, steps: seq<Step>)
    requires Possible(s, steps)
    decreases |steps|
  {
    steps == [] || (!LosesBase(s, steps[0]) && NeverLosesBase(Apply(s, steps[0]), steps[1..]))
  }

  /** Over a whole run: no space loses its template exactly when no prune hits the overlay of a space, and
      none is created over an overlay that was left on a pruned template. */
  lemma {:induction false} BasedRun(s: State, steps: seq<Step>)
    requires Based(s) && Possible(s, steps)
    ensures AlwaysBased(s, steps) <==> NeverLosesBase(s, steps)
    ensures NeverLosesBase(s, steps) ==> Based(After(s, steps))
    decreases |steps|
  {
    if steps != [] {
      BasedStep(s, steps[0]);
      hide Based, Apply, Enabled, LosesBase;
      var t := Apply(s, steps[0]);
      if Based(t) {
        BasedRun(t, steps[1..]);
      } else {
        assert !AlwaysBased(t, steps[1..]);
      }
    }
  }

  /** What an operator can see to: prune while every overlay is on record, and let no space start on a
      leftover one. */
  ghost predicate PrunesOnRecord(s: State, steps: seq<Step>)
    requires Possible(s, steps)
    decreases |steps|
  {
    steps == [] ||
    (&& (steps[0].Prune? ==> Recorded(s))
     && (steps[0].Register? ==> steps[0].id !in s.overlays)
     && PrunesOnRecord(Apply(s, steps[0]), steps[1..]))
  }

  lemma {:induction false} OnRecordLosesNothing(s: State, steps: seq<Step>)
    requires Possible(s, steps) && PrunesOnRecord(s, steps)
    ensures NeverLosesBase(s, steps)
    decreases |steps|
  {
    if steps != [] {
      var step := steps[0];
      if LosesBase(s, step) {
        var id :| id in s.holders && id in s.overlays && s.overlays[id] in step.victims;
        LostIsUnrecorded(s, step, id);
        assert false;
      }
      hide LosesBase, Recorded, Apply, Enabled;
      OnRecordLosesNothing(Apply(s, step), steps[1..]);
    }
  }

  /** On such a run no space loses the template that its overlay is built on, whatever else happens. */
  lemma NoSpaceLosesItsTemplate(steps: seq<Step>, id: string)
    requires Possible(INIT, steps) && PrunesOnRecord(INIT, steps)
    requires id in After(INIT, steps).holders && id in After(INIT, steps).overlays
    ensures After(INIT, steps).overlays[id] in After(INIT, steps).stored
  {
    OnRecordLosesNothing(INIT, steps);
    BasedRun(INIT, steps);
  }

  /** And on every run, however pruned, the template that a config records stays as long as it records it. */
  lemma {:induction false} RecordedTemplateStays(s: State, steps: seq<Step>, id: string)
    requires Possible(s, steps) && id in s.holders && s.holders[id] in s.stored
    requires forall i :: 0 <= i < |steps| ==> steps[i] != Record(id) && !(steps[i].Leave? && steps[i].id == id)
    ensures var t := After(s, steps);
      id in t.holders && t.holders[id] == s.holders[id] && t.holders[id] in t.stored
    decreases |steps|
  {
    if steps != [] {
      var step, t := steps[0], Apply(s, steps[0]);
      assert t.holders[id] == s.holders[id] && t.holders[id] in t.stored by {
        assert step != Record(id) && !(step.Leave? && step.id == id);
        StoredNeverChanges(s, step, s.holders[id]);
        assert s.holders[id].digest in UsedDigests(s);
      }
      forall i | 0 <= i < |steps[1..]| ensures steps[1..][i] == steps[i + 1] {}
      hide Apply, Enabled;
      RecordedTemplateStays(t, steps[1..], id);
    }
  }

  // ---- which template a profile stands for ----

  function Latest(s: State, profile: string): Option<string> {
    if profile in s.latest then Some(s.latest[profile]) else None
  }

  /** For create: `latest` if it is there, otherwise the only directory. For update there is no otherwise. */
  function Resolve(latest: Option<string>, candidates: seq<string>): Option<string> {
    if latest.Some? then latest else if |candidates| == 1 then Some(candidates[0]) else None
  }

  ghost predicate ListsProfile(s: State, profile: string, candidates: seq<string>) {
    && (forall d :: d in candidates <==> Place(profile, d) in s.stored)
    && (forall i, j :: 0 <= i < j < |candidates| ==> candidates[i] != candidates[j])
  }

  /** On every run whose prunes spare the templates about to be linked, the digest that create or update
      resolves is stored, and is `latest` if there is one; without `latest`, create finds one exactly when
      the profile has a single template. */
  lemma ResolvedIsStored(steps: seq<Step>, profile: string, candidates: seq<string>)
    requires Possible(INIT, steps) && SparesLinks(INIT, steps)
    requires ListsProfile(After(INIT, steps), profile, candidates)
    ensures var s := After(INIT, steps); var d := Resolve(Latest(s, profile), candidates);
      && (d.Some? ==> Place(profile, d.value) in s.stored)
      && (profile in s.latest ==> d == Some(s.latest[profile]))
      && (profile !in s.latest ==> (d.Some? <==>
            exists e :: Place(profile, e) in s.stored && forall f :: Place(profile, f) in s.stored ==> f == e))
  {
    hide After, Possible;
    var s := After(INIT, steps);
    if profile in s.latest {
      LatestIsStored(steps, profile);
    } else {
      OnlyOne(s, profile, candidates);
    }
  }

  lemma OnlyOne(s: State, profile: string, candidates: seq<string>)
    requires ListsProfile(s, profile, candidates)
    ensures |candidates| == 1 ==> Place(profile, candidates[0]) in s.stored
    ensures |candidates| == 1 <==>
      exists e :: Place(profile, e) in s.stored && forall f :: Place(profile, f) in s.stored ==> f == e
  {
    if |candidates| == 1 {
      assert candidates[0] in candidates;
      assert forall f :: f in candidates ==> f == candidates[0];
    }
    if |candidates| > 1 {
      assert candidates[0] in candidates && candidates[1] in candidates && candidates[0] != candidates[1];
    }
  }

  // ---- a build that goes through undisturbed ----

  /** Such a build as far as `phase`; it keeps a template that is there. */
  function Building(s: State, b: nat, p: Place, content: string, phase: Phase): State {
    s.(stored := if phase in {Staged, Absent} || p in s.stored then s.stored else s.stored[p := content],
       latest := if phase == Unlinked then s.latest - {p.profile} else s.latest,
       builds := s.builds[b := Build(p, content, phase)])
  }

  function Linked(s: State, b: nat, p: Place, content: string): State {
    s.(stored := if p in s.stored then s.stored else s.stored[p := content],
       latest := s.latest[p.profile := p.digest], builds := s.builds[b := Build(p, content, Over)])
  }

  lemma BuildBegins(s: State, b: nat, p: Place, content: string)
    requires b !in s.builds
    ensures Enabled(s, Begin(b, p, content)) && Apply(s, Begin(b, p, content)) == Building(s, b, p, content, Staged)
    ensures var t := Building(s, b, p, content, Staged);
      && Enabled(t, LookUp(b))
      && Apply(t, LookUp(b)) == Building(s, b, p, content, if p in s.stored then Settled else Absent)
  {
  }

  lemma BuildMoves(s: State, b: nat, p: Place, content: string)
    requires p !in s.stored
    ensures var t := Building(s, b, p, content, Absent);
      Enabled(t, Move(b, true)) && Apply(t, Move(b, true)) == Building(s, b, p, content, Moved)
  {
  }

  lemma BuildSettles(s: State, b: nat, p: Place, content: string)
    ensures var t := Building(s, b, p, content, Moved);
      Enabled(t, Chown(b, true)) && Apply(t, Chown(b, true)) == Building(s, b, p, content, Settled)
    ensures var t := Building(s, b, p, content, Settled);
      Enabled(t, Unlink(b, true)) && Apply(t, Unlink(b, true)) == Building(s, b, p, content, Unlinked)
  {
  }

  lemma BuildLinks(s: State, b: nat, p: Place, content: string)
    ensures var t := Building(s, b, p, content, Unlinked);
      Enabled(t, Symlink(b, true)) && Apply(t, Symlink(b, true)) == Linked(s, b, p, content)
  {
    assert (s.latest - {p.profile})[p.profile := p.digest] == s.latest[p.profile := p.digest];
  }

  ghost predicate Reaches(s: State, t: State) { exists steps :: Possible(s, steps) && After(s, steps) == t }

  lemma ReachesSelf(s: State)
    ensures Reaches(s, s)
  {
    var none: seq<Step> := [];
    assert Possible(s, none) && After(s, none) == s;
  }

  lemma Then(s: State, step: Step, rest: seq<Step>)
    requires Enabled(s, step) && Possible(Apply(s, step), rest)
    ensures Possible(s, [step] + rest) && After(s, [step] + rest) == After(Apply(s, step), rest)
  {
    hide Enabled, Apply;
    assert ([step] + rest)[1..] == rest;
  }

  lemma ReachesStep(s: State, step: Step, t: State)
    requires Enabled(s, step) && Reaches(Apply(s, step), t)
    ensures Reaches(s, t)
  {
    var rest :| Possible(Apply(s, step), rest) && After(Apply(s, step), rest) == t;
    Then(s, step, rest);
  }

  /** Its steps: a template found there is not moved again. */
  function WholeBuild(s: State, b: nat, p: Place, content: string): seq<Step> {
    var relink := [Unlink(b, true)] + ([Symlink(b, true)] + []);
    if p in s.stored then [Begin(b, p, content)] + ([LookUp(b)] + relink)
    else [Begin(b, p, content)] + ([LookUp(b)] + ([Move(b, true)] + ([Chown(b, true)] + relink)))
  }

  /** Such a build leaves its template stored, a stored one as it was, and `latest` on it; nothing else changes. */
  lemma BuildPublishes(s: State, b: nat, p: Place, content: string)
    requires b !in s.builds
    ensures Possible(s, WholeBuild(s, b, p, content))
    ensures After(s, WholeBuild(s, b, p, content)) ==
      s.(stored := if p in s.stored then s.stored else s.stored[p := content],
         latest := s.latest[p.profile := p.digest], builds := s.builds[b := Build(p, content, Over)])
  {
    BuildBegins(s, b, p, content);
    BuildSettles(s, b, p, content);
    BuildLinks(s, b, p, content);
    if p !in s.stored { BuildMoves(s, b, p, content); }
    NoSteps(Linked(s, b, p, content));
    hide After, Possible, Enabled, Apply, Building;
    var relink := [Unlink(b, true)] + ([Symlink(b, true)] + []);
    Then(Building(s, b, p, content, Unlinked), Symlink(b, true), []);
    Then(Building(s, b, p, content, Settled), Unlink(b, true), [Symlink(b, true)] + []);
    if p in s.stored {
      Then(Building(s, b, p, content, Staged), LookUp(b), relink);
      Then(s, Begin(b, p, content), [LookUp(b)] + relink);
    } else {
      Then(Building(s, b, p, content, Moved), Chown(b, true), relink);
      Then(Building(s, b, p, content, Absent), Move(b, true), [Chown(b, true)] + relink);
      var rest := [Move(b, true)] + ([Chown(b, true)] + relink);
      Then(Building(s, b, p, content, Staged), LookUp(b), rest);
      Then(s, Begin(b, p, content), [LookUp(b)] + rest);
    }
  }

  lemma NoSteps(s: State)
    ensures Possible(s, []) && After(s, []) == s
  {
  }

  // ---- runs that lose what they should not ----

  lemma BuildsUpToLink(s: State, b: nat, p: Place, t: State)
    requires b !in s.builds && p !in s.stored && Reaches(Building(s, b, p, "", Unlinked), t)
    ensures Reaches(s, t)
  {
    BuildBegins(s, b, p, "");
    BuildMoves(s, b, p, "");
    BuildSettles(s, b, p, "");
    hide Enabled, Apply, Reaches, Building;
    ReachesStep(Building(s, b, p, "", Settled), Unlink(b, true), t);
    ReachesStep(Building(s, b, p, "", Moved), Chown(b, true), t);
    ReachesStep(Building(s, b, p, "", Absent), Move(b, true), t);
    ReachesStep(Building(s, b, p, "", Staged), LookUp(b), t);
    ReachesStep(s, Begin(b, p, ""), t);
  }

  lemma BuildsAndLinks(s: State, b: nat, p: Place, t: State)
    requires b !in s.builds && p !in s.stored && Reaches(Linked(s, b, p, ""), t)
    ensures Reaches(s, t)
  {
    BuildLinks(s, b, p, "");
    hide Enabled, Apply, Reaches, Building, Linked;
    ReachesStep(Building(s, b, p, "", Unlinked), Symlink(b, true), t);
    BuildsUpToLink(s, b, p, t);
  }

  const FIRST := Place("p", "1")
  const SECOND := Place("p", "2")
  const THIRD := Place("p", "3")

  const DANGLING := State(map[], map["p" := "1"], map[0 := Build(FIRST, "", Over)], map[], map[])

  lemma PruneThenLink()
    ensures var s := Building(INIT, 0, FIRST, "", Unlinked); var t := s.(stored := map[]);
      && Enabled(s, Prune(false, 0, {FIRST})) && Apply(s, Prune(false, 0, {FIRST})) == t
      && Enabled(t, Symlink(0, true)) && Apply(t, Symlink(0, true)) == DANGLING
  {
    var s := Building(INIT, 0, FIRST, "", Unlinked);
    assert UsedDigests(s) == {};
    assert s.stored - {FIRST} == map[];
  }

  /** A prune between a build's settling its template and linking it leaves `latest` naming nothing. */
  lemma LatestCanDangle()
    ensures Reaches(INIT, DANGLING)
    ensures "p" in DANGLING.latest && Place("p", DANGLING.latest["p"]) !in DANGLING.stored
  {
    PruneThenLink();
    ReachesSelf(DANGLING);
    hide Enabled, Apply, Reaches, Building;
    var s := Building(INIT, 0, FIRST, "", Unlinked);
    ReachesStep(s.(stored := map[]), Symlink(0, true), DANGLING);
    ReachesStep(s, Prune(false, 0, {FIRST}), DANGLING);
    BuildsUpToLink(INIT, 0, FIRST, DANGLING);
  }

  /** The first template is built and space "x" created on it, the second built, and the overlay moved to it
      without the digest being written; then the third is built. */
  function WithSpace(): State {
    Linked(INIT, 0, FIRST, "").(holders := map["x" := FIRST], overlays := map["x" := FIRST])
  }

  function Rebased(): State { Linked(WithSpace(), 1, SECOND, "").(overlays := map["x" := SECOND]) }

  function BeforePrune(): State { Linked(Rebased(), 2, THIRD, "") }

  function Lost(): State { BeforePrune().(stored := map[FIRST := "", THIRD := ""]) }

  lemma SpaceSteps()
    ensures var s := Linked(INIT, 0, FIRST, ""); var t := s.(holders := map["x" := FIRST]);
      && Enabled(s, Register("x", FIRST)) && Apply(s, Register("x", FIRST)) == t
      && Enabled(t, Rebase("x", FIRST)) && Apply(t, Rebase("x", FIRST)) == WithSpace()
  {
  }

  lemma UpdateSteps()
    ensures var s := Linked(WithSpace(), 1, SECOND, "");
      && s.latest == map["p" := "2"]
      && Enabled(s, Rebase("x", SECOND)) && Apply(s, Rebase("x", SECOND)) == Rebased()
  {
  }

  lemma OneHolder(s: State, id: string, p: Place)
    requires s.holders == map[id := p]
    ensures UsedDigests(s) == {p.digest}
  {
    assert s.holders[id].digest in UsedDigests(s);
  }

  lemma LosingPrune()
    ensures Enabled(BeforePrune(), Prune(false, 1, {SECOND}))
    ensures Apply(BeforePrune(), Prune(false, 1, {SECOND})) == Lost()
  {
    var s := BeforePrune();
    assert s.stored == map[FIRST := "", SECOND := "", THIRD := ""] && s.latest == map["p" := "3"];
    assert s.holders == map["x" := FIRST];
    OneHolder(s, "x", FIRST);
    assert s.stored - {SECOND} == map[FIRST := "", THIRD := ""];
  }

  lemma BeforeLosing()
    requires Reaches(BeforePrune(), Lost())
    ensures Reaches(INIT, Lost())
  {
    SpaceSteps();
    UpdateSteps();
    assert 2 !in Rebased().builds && THIRD !in Rebased().stored;
    assert 1 !in WithSpace().builds && SECOND !in WithSpace().stored;
    assert BeforePrune() == Linked(Rebased(), 2, THIRD, "");
    hide Enabled, Apply, Reaches, Linked, WithSpace, Rebased, BeforePrune, Lost;
    BuildsAndLinks(Rebased(), 2, THIRD, Lost());
    ReachesStep(Linked(WithSpace(), 1, SECOND, ""), Rebase("x", SECOND), Lost());
    BuildsAndLinks(WithSpace(), 1, SECOND, Lost());
    var s := Linked(INIT, 0, FIRST, "");
    ReachesStep(s.(holders := map["x" := FIRST]), Rebase("x", FIRST), Lost());
    ReachesStep(s, Register("x", FIRST), Lost());
    BuildsAndLinks(INIT, 0, FIRST, Lost());
  }

  /** Between an update's new overlay and its digest, a build and a prune take the template from under the space. */
  lemma UpdateCanLoseTemplate()
    ensures Reaches(INIT, Lost())
    ensures "x" in Lost().holders && "x" in Lost().overlays && Lost().overlays["x"] !in Lost().stored
  {
    LosingPrune();
    ReachesSelf(Lost());
    ReachesStep(BeforePrune(), Prune(false, 1, {SECOND}), Lost());
    BeforeLosing();
  }

  // ---- the pruning script ----

  function PlacesOf(profile: string, digests: seq<string>): seq<Place> {
    if digests == [] then [] else PlacesOf(profile, digests[..|digests| - 1]) + [Place(profile, digests[|digests| - 1])]
  }

  function Flatten(listing: seq<(string, seq<string>)>): seq<Place> {
    if listing == [] then []
    else
      var (profile, digests) := listing[|listing| - 1];
      Flatten(listing[..|listing| - 1]) + PlacesOf(profile, digests)
  }

  function GarbageIn(s: State, places: seq<Place>): set<Place> { set p | p in places && Garbage(s, p) }

  function TotalSize(s: State, places: seq<Place>, size: Place -> nat): nat {
    if places == [] then 0
    else
      var p := places[|places| - 1];
      TotalSize(s, places[..|places| - 1], size) + if Garbage(s, p) then size(p) else 0
  }

  /** Every template directory is listed, and once. */
  predicate ListsAll(stored: map<Place, string>, places: seq<Place>) {
    (forall p :: p in stored ==> p in places) && forall i, j :: 0 <= i < j < |places| ==> places[i] != places[j]
  }

  lemma {:induction false} PlacesPrefix(profile: string, digests: seq<string>, j: nat)
    requires j <= |digests|
    ensures PlacesOf(profile, digests[..j]) <= PlacesOf(profile, digests)
  {
    if j == |digests| {
      assert digests[..j] == digests;
    } else {
      PlacesPrefix(profile, digests[..|digests| - 1], j);
      assert digests[..|digests| - 1][..j] == digests[..j];
    }
  }

  lemma {:induction false} FlattenPrefix(listing: seq<(string, seq<string>)>, i: nat)
    requires i <= |listing|
    ensures Flatten(listing[..i]) <= Flatten(listing)
  {
    if i == |listing| {
      assert listing[..i] == listing;
    } else {
      FlattenPrefix(listing[..|listing| - 1], i);
      assert listing[..|listing| - 1][..i] == listing[..i];
    }
  }

  lemma ListedOnce(listing: seq<(string, seq<string>)>, i: nat, j: nat)
    requires i < |listing| && j < |listing[i].1|
    requires forall a, b :: 0 <= a < b < |Flatten(listing)| ==> Flatten(listing)[a] != Flatten(listing)[b]
    ensures Place(listing[i].0, listing[i].1[j]) !in Flatten(listing[..i]) + PlacesOf(listing[i].0, listing[i].1[..j])
  {
    var (profile, digests) := listing[i];
    var p, seen := Place(profile, digests[j]), Flatten(listing[..i]) + PlacesOf(profile, digests[..j]);
    assert listing[..i + 1][..i] == listing[..i] && digests[..j + 1][..j] == digests[..j];
    PlacesPrefix(profile, digests, j + 1);
    FlattenPrefix(listing, i + 1);
    assert seen + [p] == Flatten(listing[..i]) + PlacesOf(profile, digests[..j + 1]);
    assert seen + [p] <= Flatten(listing[..i + 1]) <= Flatten(listing);
    forall k | 0 <= k < |seen| ensures seen[k] != p {
      assert (seen + [p])[k] == Flatten(listing)[k] && (seen + [p])[|seen|] == Flatten(listing)[|seen|];
    }
  }

  lemma GarbageIff(s: State, p: Place)
    ensures Garbage(s, p) <==>
      p in s.stored && !(p.profile in s.latest && p.digest == s.latest[p.profile]) && p.digest !in UsedDigests(s)
  {
  }

  lemma GarbageSnoc(s: State, places: seq<Place>, p: Place, size: Place -> nat)
    ensures GarbageIn(s, places + [p]) == GarbageIn(s, places) + if Garbage(s, p) then {p} else {}
    ensures TotalSize(s, places + [p], size) == TotalSize(s, places, size) + if Garbage(s, p) then size(p) else 0
  {
    hide Garbage;
    assert (places + [p])[..|places|] == places;
  }

  /** The sizes of some templates together. */
  ghost function SizeOf(places: set<Place>, size: Place -> nat): nat {
    if places == {} then 0 else var p :| p in places; size(p) + SizeOf(places - {p}, size)
  }

  lemma {:induction false} SizeOfOneMore(places: set<Place>, p: Place, size: Place -> nat)
    requires p !in places
    ensures SizeOf(places + {p}, size) == SizeOf(places, size) + size(p)
  {
    var all := places + {p};
    var q :| q in all && SizeOf(all, size) == size(q) + SizeOf(all - {q}, size);
    if q == p {
      assert all - {p} == places;
    } else {
      assert all - {q} == (places - {q}) + {p};
      SizeOfOneMore(places - {q}, p, size);
      SizeOfOneMore(places - {q}, q, size);
      assert (places - {q}) + {q} == places;
    }
  }

  lemma {:induction false} TotalIsSum(s: State, places: seq<Place>, size: Place -> nat)
    requires forall i, j :: 0 <= i < j < |places| ==> places[i] != places[j]
    ensures TotalSize(s, places, size) == SizeOf(GarbageIn(s, places), size)
  {
    if places == [] {
      NothingSeen(s, false, size);
      assert GarbageIn(s, places) == {};
    } else {
      hide Garbage, SizeOf, TotalSize;
      var init, p := places[..|places| - 1], places[|places| - 1];
      assert places == init + [p];
      TotalIsSum(s, init, size);
      GarbageSnoc(s, init, p, size);
      var g := GarbageIn(s, init);
      assert p !in init && p !in g;
      if Garbage(s, p) { SizeOfOneMore(g, p, size); } else { assert g + {} == g; }
    }
  }

  function AllGarbage(s: State): set<Place> { set p | p in s.stored && Garbage(s, p) }

  lemma TotalIsSize(s: State, places: seq<Place>, size: Place -> nat)
    requires ListsAll(s.stored, places)
    ensures TotalSize(s, places, size) == SizeOf(AllGarbage(s), size)
  {
    TotalIsSum(s, places, size);
    assert GarbageIn(s, places) == AllGarbage(s);
  }

  /** What is left once the garbage among `seen` is gone. */
  function Kept(s: State, seen: seq<Place>, dry: bool): map<Place, string> {
    if dry then s.stored else s.stored - GarbageIn(s, seen)
  }

  lemma NothingSeen(s: State, dry: bool, size: Place -> nat)
    ensures Kept(s, [], dry) == s.stored && TotalSize(s, [], size) == 0
  {
    assert GarbageIn(s, []) == {};
    assert s.stored - {} == s.stored;
  }

  lemma AllSeen(s: State, places: seq<Place>, dry: bool)
    requires ListsAll(s.stored, places)
    ensures Kept(s, places, dry) == if dry then s.stored else map p | p in s.stored && !Garbage(s, p) :: s.stored[p]
  {
    hide Garbage;
  }

  lemma KeptStep(s: State, seen: seq<Place>, p: Place, dry: bool)
    requires p !in seen
    ensures var t := s.(stored := Kept(s, seen, dry));
      && Garbage(t, p) == Garbage(s, p) && UsedDigests(t) == UsedDigests(s)
      && Kept(s, seen + [p], dry) == if dry || !Garbage(s, p) then t.stored else t.stored - {p}
  {
    var t := s.(stored := Kept(s, seen, dry));
    assert UsedDigests(t) == UsedDigests(s);
    assert GarbageIn(s, seen + [p]) == GarbageIn(s, seen) + if Garbage(s, p) then {p} else {};
    if Garbage(s, p) && !dry {
      assert s.stored - (GarbageIn(s, seen) + {p}) == s.stored - GarbageIn(s, seen) - {p};
    }
  }

  lemma ListedOnceIn(s: State, listing: seq<(string, seq<string>)>, i: nat, j: nat)
    requires i < |listing| && j < |listing[i].1| && ListsAll(s.stored, Flatten(listing))
    ensures Place(listing[i].0, listing[i].1[j]) !in Flatten(listing[..i]) + PlacesOf(listing[i].0, listing[i].1[..j])
  {
    ListedOnce(listing, i, j);
  }

  /** The script run on its own: it goes through the profiles and their template directories. */
  class Script {
    var stored: map<Place, string>
    const latest: map<string, string>
    const holders: map<string, Place>

    ghost function Abstract(): State
      reads this
    {
      State(stored, latest, map[], holders, map[])
    }

    constructor (stored: map<Place, string>, latest: map<string, string>, holders: map<string, Place>)
      ensures this.stored == stored && this.latest == latest && this.holders == holders
    {
      this.stored, this.latest, this.holders := stored, latest, holders;
    }

    /** One template directory: deleted if it is garbage. */
    method PruneDirectory(p: Place, used: set<string>, size: Place -> nat, dry: bool) returns (freed: nat)
      requires used == UsedDigests(Abstract())
      modifies this`stored
      ensures freed == if Garbage(old(Abstract()), p) then size(p) else 0
      ensures stored == if dry || !Garbage(old(Abstract()), p) then old(stored) else old(stored) - {p}
    {
      GarbageIff(Abstract(), p);
      if p !in stored { return 0; }
      if p.profile in latest && p.digest == latest[p.profile] { return 0; }
      if p.digest in used { return 0; }
      if !dry { stored := stored - {p}; }
      return size(p);
    }

    /** The template directories of one profile, after those of the profiles before it. */
    method PruneProfile(listing: seq<(string, seq<string>)>, i: nat, used: set<string>, size: Place -> nat,
                        dry: bool, ghost was: State)
      returns (freed: nat)
      requires i < |listing| && ListsAll(was.stored, Flatten(listing)) && used == UsedDigests(was)
      requires Abstract() == was.(stored := Kept(was, Flatten(listing[..i]), dry))
      modifies this`stored
      ensures Abstract() == was.(stored := Kept(was, Flatten(listing[..i + 1]), dry))
      ensures TotalSize(was, Flatten(listing[..i]), size) + freed == TotalSize(was, Flatten(listing[..i + 1]), size)
    {
      hide Garbage, GarbageIn, TotalSize, ListsAll, Kept;
      var (profile, digests) := listing[i];
      ghost var before := Flatten(listing[..i]);
      freed := 0;
      assert before + PlacesOf(profile, digests[..0]) == before;
      for j := 0 to |digests|
        invariant Abstract() == was.(stored := Kept(was, before + PlacesOf(profile, digests[..j]), dry))
        invariant TotalSize(was, before, size) + freed == TotalSize(was, before + PlacesOf(profile, digests[..j]), size)
      {
        var p := Place(profile, digests[j]);
        ghost var seen := before + PlacesOf(profile, digests[..j]);
        assert digests[..j + 1][..j] == digests[..j];
        assert before + PlacesOf(profile, digests[..j + 1]) == seen + [p];
        GarbageSnoc(was, seen, p, size);
        ListedOnceIn(was, listing, i, j);
        KeptStep(was, seen, p, dry);
        var more := PruneDirectory(p, used, size, dry);
        freed := freed + more;
      }
      assert digests[..|digests|] == digests;
      assert listing[..i + 1][..i] == listing[..i];
    }

    /** Deletes all garbage and nothing else, or nothing at all; reports its size either way. */
    method Prune(listing: seq<(string, seq<string>)>, size: Place -> nat, unreadable: bool, dirs: nat, dry: bool)
      returns (ok: bool, total: nat)
      requires ListsAll(stored, Flatten(listing))
      modifies this`stored
      ensures ok <==> !unreadable && !(dirs > 0 && holders == map[])
      ensures !ok || dry ==> stored == old(stored)
      ensures ok && !dry ==> stored == map p | p in old(stored) && !Garbage(old(Abstract()), p) :: old(stored)[p]
      ensures ok ==> total == SizeOf(AllGarbage(old(Abstract())), size)
    {
      ghost var was := Abstract();
      total := 0;
      if unreadable { return false, 0; }
      var used := set id | id in holders :: holders[id].digest;
      assert forall id :: id in holders ==> holders[id].digest in used;
      if dirs > 0 && used == {} { return false, 0; }
      hide Garbage, GarbageIn, TotalSize, ListsAll, Kept;
      NothingSeen(was, dry, size);
      for i := 0 to |listing|
        invariant Abstract() == was.(stored := Kept(was, Flatten(listing[..i]), dry))
        invariant total == TotalSize(was, Flatten(listing[..i]), size)
      {
        var freed := PruneProfile(listing, i, used, size, dry, was);
        total := total + freed;
      }
      assert listing[..|listing|] == listing;
      AllSeen(was, Flatten(listing), dry);
      TotalIsSize(was, Flatten(listing), size);
      ok := true;
    }
  }
}
