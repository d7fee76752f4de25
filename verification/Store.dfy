// The daemon's list of spaces, kept in memory sorted by id and on disk one file per space.
module Store {
  import opened Text
  import Registry

  const UID_BASE: nat := 70000

  const MAX_CID: nat := 255

  datatype SpaceConfig = SpaceConfig(
    id: string, profile: string, digest: string, cid: nat, uid: nat, mark: string, color: string,
    created: string, clean: Option<bool>, encrypted: bool)

  type Configs = seq<SpaceConfig>

  type Disk = map<string, SpaceConfig>

  // ---- the list ----

  predicate SortedById(s: Configs) { forall i, j :: 0 <= i < j < |s| ==> StrLess(s[i].id, s[j].id) }

  function Insert(c: SpaceConfig, s: Configs): Configs {
    if s == [] || !StrLess(c.id, s[|s| - 1].id) then s + [c]
    else Insert(c, s[..|s| - 1]) + [s[|s| - 1]]
  }

  /** A stable sort by id. */
  function Sort(s: Configs): Configs {
    if s == [] then [] else Insert(s[|s| - 1], Sort(s[..|s| - 1]))
  }

  predicate Has(s: Configs, id: string) { exists c :: c in s && c.id == id }

  predicate HasCid(s: Configs, cid: nat) { exists c :: c in s && c.cid == cid }

  lemma {:induction false} InsertKeeps(c: SpaceConfig, s: Configs, x: SpaceConfig)
    ensures x in Insert(c, s) <==> x in s || x == c
  {
    if s != [] && StrLess(c.id, s[|s| - 1].id) {
      InsertKeeps(c, s[..|s| - 1], x);
      assert s == s[..|s| - 1] + [s[|s| - 1]];
    }
  }

  lemma {:induction false} InsertSorted(c: SpaceConfig, s: Configs)
    requires SortedById(s) && !Has(s, c.id)
    ensures SortedById(Insert(c, s))
  {
    hide StrLess;
    if s != [] {
      var init, last := s[..|s| - 1], s[|s| - 1];
      assert last in s;
      StrTotal(c.id, last.id);
      if StrLess(c.id, last.id) {
        assert !Has(init, c.id);
        InsertSorted(c, init);
        var r := Insert(c, init);
        forall i | 0 <= i < |r| ensures StrLess(r[i].id, last.id) {
          InsertKeeps(c, init, r[i]);
        }
      } else {
        forall i | 0 <= i < |s| ensures StrLess(s[i].id, c.id) {
          if i < |s| - 1 { StrTransitive(s[i].id, last.id, c.id); }
        }
      }
    }
  }

  lemma StrTransitive(a: string, b: string, c: string)
    requires StrLess(a, b) && StrLess(b, c)
    ensures StrLess(a, c)
  {
    LexTransitive(Codes(a), Codes(b), Codes(c));
  }

  lemma {:induction false} SortKeeps(s: Configs, x: SpaceConfig)
    ensures x in Sort(s) <==> x in s
  {
    if s != [] {
      SortKeeps(s[..|s| - 1], x);
      InsertKeeps(s[|s| - 1], Sort(s[..|s| - 1]), x);
      assert s == s[..|s| - 1] + [s[|s| - 1]];
    }
  }

  predicate DistinctIds(s: Configs) { forall i, j :: 0 <= i < j < |s| ==> s[i].id != s[j].id }

  lemma {:induction false} SortSorted(s: Configs)
    requires DistinctIds(s)
    ensures SortedById(Sort(s))
  {
    if s != [] {
      var init, last := s[..|s| - 1], s[|s| - 1];
      SortSorted(init);
      forall x ensures x in Sort(init) <==> x in init { SortKeeps(init, x); }
      assert !Has(Sort(init), last.id);
      InsertSorted(last, Sort(init));
    }
  }

  /** A sorted list is determined by its elements. */
  lemma {:induction false} SortedUnique(s: Configs, t: Configs)
    requires SortedById(s) && SortedById(t) && forall x :: x in s <==> x in t
    ensures s == t
  {
    hide StrLess;
    assert (s != [] ==> s[0] in s) && (t != [] ==> t[0] in t);
    if s != [] && t != [] {
      var a, b := s[|s| - 1], t[|t| - 1];
      LastIsGreatest(s, b);
      LastIsGreatest(t, a);
      StrTotal(a.id, b.id);
      assert a == b;
      var s', t' := s[..|s| - 1], t[..|t| - 1];
      assert s == s' + [a] && t == t' + [b];
      LastOnce(s);
      LastOnce(t);
      forall x ensures x in s' <==> x in t' {
        assert x in s <==> x in s' || x == a;
        assert x in t <==> x in t' || x == a;
      }
      SortedUnique(s', t');
    }
  }

  lemma LastIsGreatest(s: Configs, x: SpaceConfig)
    requires SortedById(s) && x in s
    ensures x == s[|s| - 1] || StrLess(x.id, s[|s| - 1].id)
  {
  }

  lemma LastOnce(s: Configs)
    requires SortedById(s) && s != []
    ensures s[|s| - 1] !in s[..|s| - 1]
  {
    StrTotal(s[|s| - 1].id, s[|s| - 1].id);
  }

  lemma SortedDistinct(s: Configs)
    requires SortedById(s)
    ensures DistinctIds(s)
  {
    forall i, j | 0 <= i < j < |s| ensures s[i].id != s[j].id { StrTotal(s[i].id, s[j].id); }
  }

  // ---- what holds of the list ----

  predicate Candidate(cid: nat) { 3 <= cid <= MAX_CID && cid != Registry.NET_CID }

  predicate GoodConfig(c: SpaceConfig) {
    Registry.IsSafeSlug(c.id) && c.id != Registry.MIYORI_NET && Candidate(c.cid) && c.uid == UID_BASE + c.cid
  }

  predicate DistinctCids(s: Configs) { forall c, d :: c in s && d in s && c.cid == d.cid ==> c == d }

  predicate Good(s: Configs) { SortedById(s) && (forall c :: c in s ==> GoodConfig(c)) && DistinctCids(s) }

  // ---- allocation ----

  predicate Free(s: Configs, taps: set<nat>, cid: nat) { Candidate(cid) && !HasCid(s, cid) && cid !in taps }

  /** The least free cid not below `from`; `taps` are the cids whose port exists on the host. */
  function LeastFree(s: Configs, taps: set<nat>, from: nat): (r: Option<nat>)
    ensures r.Some? ==> from <= r.value && Free(s, taps, r.value)
    ensures r.Some? ==> forall d :: from <= d < r.value ==> !Free(s, taps, d)
    ensures r.None? ==> forall d :: from <= d ==> !Free(s, taps, d)
    decreases MAX_CID + 1 - from
  {
    if from > MAX_CID then None
    else if Free(s, taps, from) then Some(from)
    else LeastFree(s, taps, from + 1)
  }

  function Cids(s: Configs): (r: set<nat>)
    ensures forall cid :: cid in r <==> HasCid(s, cid)
  {
    set c | c in s :: c.cid
  }

  lemma {:induction false} CidCount(s: Configs)
    requires DistinctIds(s) && DistinctCids(s)
    ensures |Cids(s)| == |s|
  {
    if s != [] {
      var init, last := s[..|s| - 1], s[|s| - 1];
      assert s == init + [last];
      assert DistinctCids(init);
      CidCount(init);
      assert Cids(s) == Cids(init) + {last.cid};
      forall c | c in init ensures c.cid != last.cid {
        var i :| 0 <= i < |init| && init[i] == c;
        assert s[i] == c && s[i].id != s[|s| - 1].id;
        assert c in s && c != last;
      }
    }
  }

  function Candidates(): (r: set<nat>)
    ensures forall cid :: cid in r <==> Candidate(cid)
    ensures |r| == 252
  {
    var all := Below(MAX_CID + 1);
    assert |all - {0, 1, 2, 9}| == 252 by {
      assert {0, 1, 2, 9} <= all;
    }
    all - {0, 1, 2, 9}
  }

  /** With no foreign ports on the host, allocation fails exactly when 252 spaces exist. */
  lemma FullAt252(s: Configs, taps: set<nat>)
    requires Good(s) && forall cid :: cid in taps ==> HasCid(s, cid)
    ensures LeastFree(s, taps, 3).None? <==> |s| == 252
  {
    SortedDistinct(s);
    CidCount(s);
    assert Cids(s) <= Candidates();
    if |s| == 252 {
      SubsetFull(Cids(s), Candidates());
    } else {
      if Cids(s) == Candidates() { assert false; }
      var cid :| cid in Candidates() && cid !in Cids(s);
      assert Free(s, taps, cid);
    }
  }

  lemma SubsetFull(a: set<nat>, b: set<nat>)
    requires a <= b && |a| == |b|
    ensures a == b
  {
    assert |b - a| == |b| - |a|;
    assert b == a + (b - a);
  }

  // ---- steps ----

  /** How removing a space's directory ends: `Torn` loses the config file and then fails. */
  datatype Removal = Gone | Kept | Torn

  datatype Request = Request(id: string, profile: string, digest: string, mark: string, color: string, encrypted: bool)

  datatype Created = Made(config: SpaceConfig) | Reserved | Exists | NoCid | UidTaken | WriteFailed

  datatype Step =
    | Create(request: Request, created: string, uids: set<nat>, taps: set<nat>, written: bool)
    | SetClean(id: string, clean: bool, written: bool)
    | SetDigest(id: string, digest: string, written: bool)
    | Remove(id: string, removal: Removal)
    | Reload(listing: seq<string>)

  /** `stale` are the spaces whose last write or removal failed; nothing in the code remembers it. */
  datatype State = State(spaces: Configs, disk: Disk, stale: set<string>)

  const INIT := State([], map[], {})

  function Outcome(s: Configs, step: Step): Created
    requires step.Create?
  {
    var r := step.request;
    if r.id == Registry.MIYORI_NET then Reserved
    else if Has(s, r.id) then Exists
    else
      match LeastFree(s, step.taps, 3)
      case None => NoCid
      case Some(cid) =>
        if UID_BASE + cid in step.uids then UidTaken
        else if !step.written then WriteFailed
        else Made(SpaceConfig(r.id, r.profile, r.digest, cid, UID_BASE + cid, r.mark, r.color, step.created,
          None, r.encrypted))
  }

  /** Every config file of the directory, in the order the directory lists them. */
  function ReadAll(disk: Disk, listing: seq<string>): Configs {
    if listing == [] then []
    else
      var before := ReadAll(disk, listing[..|listing| - 1]);
      var id := listing[|listing| - 1];
      if id in disk then before + [disk[id]] else before
  }

  function Position(s: Configs, id: string): (r: Option<nat>)
    ensures r.Some? ==> r.value < |s| && s[r.value].id == id
    ensures r.None? ==> !Has(s, id)
  {
    if s == [] then None
    else if s[0].id == id then Some(0)
    else
      var r := Position(s[1..], id);
      if r.None? then None else Some(r.value + 1)
  }

  /** Memory takes the new config in any case, the disk only when the write succeeds. */
  function Write(s: State, i: nat, c: SpaceConfig, written: bool): State
    requires i < |s.spaces|
  {
    State(s.spaces[i := c], if written then s.disk[c.id := c] else s.disk,
          if written then s.stale - {c.id} else s.stale + {c.id})
  }

  function CreateStep(s: State, step: Step): State
    requires step.Create?
  {
    var outcome := Outcome(s.spaces, step);
    if outcome.Made? then
      var c := outcome.config;
      State(Sort(s.spaces + [c]), s.disk[c.id := c], s.stale - {c.id})
    else s
  }

  function RemoveStep(s: State, id: string, removal: Removal): State {
    match Position(s.spaces, id)
    case None => s
    case Some(i) =>
      match removal
      case Kept => s
      case Torn => s.(disk := s.disk - {id}, stale := s.stale + {id})
      case Gone => State(s.spaces[..i] + s.spaces[i + 1..], s.disk - {id}, s.stale - {id})
  }

  function SetCleanStep(s: State, id: string, clean: bool, written: bool): State {
    match Position(s.spaces, id)
    case None => s
    case Some(i) => Write(s, i, s.spaces[i].(clean := Some(clean)), written)
  }

  function SetDigestStep(s: State, id: string, digest: string, written: bool): State {
    match Position(s.spaces, id)
    case None => s
    case Some(i) => Write(s, i, s.spaces[i].(digest := digest), written)
  }

  function ReloadStep(s: State, listing: seq<string>): State {
    State(Sort(ReadAll(s.disk, listing)), s.disk, {})
  }

  function Apply(s: State, step: Step): State {
    match step
    case Create(_, _, _, _, _) => CreateStep(s, step)
    case SetClean(id, clean, written) => SetCleanStep(s, id, clean, written)
    case SetDigest(id, digest, written) => SetDigestStep(s, id, digest, written)
    case Remove(id, removal) => RemoveStep(s, id, removal)
    case Reload(listing) => ReloadStep(s, listing)
  }

  /** The ids requests carry are safe slugs, and a directory is listed once, in any order. */
  predicate Enabled(s: State, step: Step) {
    match step
    case Create(request, _, _, _, _) => Registry.IsSafeSlug(request.id)
    case Reload(listing) => Lists(listing, s.disk)
    case _ => true
  }

  predicate Lists(listing: seq<string>, disk: Disk) {
    (forall id :: id in disk ==> id in listing) && forall i, j :: 0 <= i < j < |listing| ==> listing[i] != listing[j]
  }

  // ---- what holds on every run ----

  /** The two differ at most in what later writes change. */
  predicate SameSpace(c: SpaceConfig, d: SpaceConfig) { c == d.(digest := c.digest, clean := c.clean) }

  /** What the disk may hold of a space in memory. */
  predicate Backed(disk: Disk, stale: set<string>, c: SpaceConfig) {
    && (c.id in disk ==> SameSpace(c, disk[c.id]))
    && (c.id !in stale ==> c.id in disk && disk[c.id] == c)
  }

  predicate OnlyStored(s: Configs, disk: Disk) { forall id :: id in disk ==> Has(s, id) }

  predicate Inv(s: State) {
    Good(s.spaces) && OnlyStored(s.spaces, s.disk) && forall c :: c in s.spaces ==> Backed(s.disk, s.stale, c)
  }

  lemma IdUnique(s: Configs, c: SpaceConfig, d: SpaceConfig)
    requires SortedById(s) && c in s && d in s && c.id == d.id
    ensures c == d
  {
    SortedDistinct(s);
    var i, j :| 0 <= i < |s| && s[i] == c && 0 <= j < |s| && s[j] == d;
    assert !(i < j) && !(j < i);
  }

  lemma CreateKeepsInv(s: State, step: Step)
    requires Inv(s) && step.Create? && Enabled(s, step)
    ensures Inv(CreateStep(s, step))
  {
    var outcome := Outcome(s.spaces, step);
    if outcome.Made? {
      hide StrLess, SortedById, Registry.IsSafeSlug, Sort;
      var c := outcome.config;
      var all, t := s.spaces + [c], CreateStep(s, step);
      AddSorted(s.spaces, c);
      forall x ensures x in t.spaces <==> x in s.spaces || x == c { SortKeeps(all, x); }
      assert DistinctCids(t.spaces);
      forall id | id in t.disk ensures Has(t.spaces, id) {
        if id in s.disk { assert Has(s.spaces, id); } else { assert c in t.spaces; }
      }
      forall x | x in t.spaces ensures Backed(t.disk, t.stale, x) {
        if x != c { assert x in s.spaces && x.id != c.id; }
      }
    }
  }

  lemma AddSorted(s: Configs, c: SpaceConfig)
    requires SortedById(s) && !Has(s, c.id)
    ensures SortedById(Sort(s + [c]))
  {
    SortedDistinct(s);
    assert forall x :: x in s ==> x.id != c.id;
    assert DistinctIds(s + [c]);
    SortSorted(s + [c]);
  }

  lemma WriteKeepsInv(s: State, i: nat, c: SpaceConfig, written: bool)
    requires Inv(s) && i < |s.spaces| && SameSpace(s.spaces[i], c)
    ensures Inv(Write(s, i, c, written))
  {
    var was, t := s.spaces[i], Write(s, i, c, written);
    SortedDistinct(s.spaces);
    forall x ensures x in t.spaces <==> x == c || (x in s.spaces && x.id != c.id) {
      ReplacedElements(s.spaces, i, c, x);
    }
    assert SortedById(t.spaces);
    hide SortedById, StrLess, Registry.IsSafeSlug;
    assert was in s.spaces && c in t.spaces;
    assert DistinctCids(t.spaces);
    forall id | id in t.disk ensures Has(t.spaces, id) {
      if id != c.id {
        var d :| d in s.spaces && d.id == id;
        assert d in t.spaces;
      }
    }
  }

  lemma ReplacedElements(s: Configs, i: nat, c: SpaceConfig, x: SpaceConfig)
    requires DistinctIds(s) && i < |s| && s[i].id == c.id
    ensures x in s[i := c] <==> x == c || (x in s && x.id != c.id)
  {
    if x in s && x.id != c.id {
      var j :| 0 <= j < |s| && s[j] == x;
      assert s[i := c][j] == x;
    }
    if x == c { assert s[i := c][i] == x; }
  }

  lemma RemoveKeepsInv(s: State, id: string, removal: Removal)
    requires Inv(s)
    ensures Inv(RemoveStep(s, id, removal))
  {
    var p, t := Position(s.spaces, id), RemoveStep(s, id, removal);
    if p.Some? && removal == Gone {
      SortedDistinct(s.spaces);
      forall x ensures x in t.spaces <==> x in s.spaces && x.id != id { RemainingElements(s.spaces, p.value, x); }
      assert SortedById(t.spaces);
      hide SortedById, StrLess, Registry.IsSafeSlug;
      forall d | d in t.disk ensures Has(t.spaces, d) {
        var c :| c in s.spaces && c.id == d;
        assert c in t.spaces;
      }
    }
  }

  lemma RemainingElements(s: Configs, i: nat, x: SpaceConfig)
    requires DistinctIds(s) && i < |s|
    ensures x in s[..i] + s[i + 1..] <==> x in s && x.id != s[i].id
  {
    var t := s[..i] + s[i + 1..];
    if x in s && x.id != s[i].id {
      var j :| 0 <= j < |s| && s[j] == x;
      assert t[if j < i then j else j - 1] == x;
    }
    if x in t {
      var j :| 0 <= j < |t| && t[j] == x;
      assert s[if j < i then j else j + 1] == x;
    }
  }

  lemma {:induction false} ReadAllElements(disk: Disk, listing: seq<string>, x: SpaceConfig)
    ensures x in ReadAll(disk, listing) <==> exists id :: id in listing && id in disk && disk[id] == x
  {
    if listing != [] {
      var init, last := listing[..|listing| - 1], listing[|listing| - 1];
      assert listing == init + [last];
      ReadAllElements(disk, init, x);
    }
  }

  lemma {:induction false} ReadAllDistinct(disk: Disk, listing: seq<string>)
    requires forall id :: id in disk ==> disk[id].id == id
    requires forall i, j :: 0 <= i < j < |listing| ==> listing[i] != listing[j]
    ensures DistinctIds(ReadAll(disk, listing))
  {
    if listing != [] {
      var init, last := listing[..|listing| - 1], listing[|listing| - 1];
      ReadAllDistinct(disk, init);
      var before := ReadAll(disk, init);
      forall i | 0 <= i < |before| ensures before[i].id != last {
        ReadAllElements(disk, init, before[i]);
        var id :| id in init && id in disk && disk[id] == before[i];
        var k :| 0 <= k < |init| && init[k] == id;
        assert listing[k] != listing[|listing| - 1];
      }
    }
  }

  /** Whatever the disk holds, loading it in any directory order gives a good list. */
  lemma ReloadKeepsInv(s: State, listing: seq<string>)
    requires Inv(s) && Lists(listing, s.disk)
    ensures Inv(ReloadStep(s, listing))
    ensures forall c :: c in ReloadStep(s, listing).spaces <==> c.id in s.disk && s.disk[c.id] == c
  {
    var all, t := ReadAll(s.disk, listing), ReloadStep(s, listing);
    DiskKeys(s);
    ReadAllDistinct(s.disk, listing);
    SortSorted(all);
    hide StrLess, SortedById, Registry.IsSafeSlug, Sort, ReadAll;
    forall c ensures c in t.spaces <==> c.id in s.disk && s.disk[c.id] == c {
      SortKeeps(all, c);
      ReadAllElements(s.disk, listing, c);
    }
    forall c | c in t.spaces ensures GoodConfig(c) && Backed(t.disk, t.stale, c) { StoredIsGood(s, c); }
    forall c, d | c in t.spaces && d in t.spaces && c.cid == d.cid ensures c == d { StoredCidsDistinct(s, c, d); }
    forall id | id in t.disk ensures Has(t.spaces, id) { assert t.disk[id] in t.spaces; }
  }

  lemma DiskKeys(s: State)
    requires Inv(s)
    ensures forall id :: id in s.disk ==> s.disk[id].id == id
  {
    hide StrLess, SortedById, Registry.IsSafeSlug;
    forall id | id in s.disk ensures s.disk[id].id == id {
      var c :| c in s.spaces && c.id == id;
      assert Backed(s.disk, s.stale, c);
    }
  }

  lemma StoredCidsDistinct(s: State, c: SpaceConfig, d: SpaceConfig)
    requires Inv(s) && c.id in s.disk && s.disk[c.id] == c && d.id in s.disk && s.disk[d.id] == d && c.cid == d.cid
    ensures c == d
  {
    hide StrLess, SortedById, Registry.IsSafeSlug, Backed, GoodConfig;
    StoredIsGood(s, c);
    StoredIsGood(s, d);
    var x, y :| x in s.spaces && SameSpace(x, c) && y in s.spaces && SameSpace(y, d);
    assert x == y;
  }

  lemma StoredIsGood(s: State, d: SpaceConfig)
    requires Inv(s) && d.id in s.disk && s.disk[d.id] == d
    ensures GoodConfig(d) && exists c :: c in s.spaces && SameSpace(c, d)
  {
    hide StrLess, SortedById, Registry.IsSafeSlug;
    var c :| c in s.spaces && c.id == d.id;
    assert Backed(s.disk, s.stale, c);
  }

  lemma StepKeepsInv(s: State, step: Step)
    requires Inv(s) && Enabled(s, step)
    ensures Inv(Apply(s, step))
  {
    hide Inv, CreateStep, RemoveStep, ReloadStep, Write, Registry.IsSafeSlug;
    match step
    case Create(_, _, _, _, _) => CreateKeepsInv(s, step);
    case SetClean(id, clean, written) =>
      var p := Position(s.spaces, id);
      if p.Some? { WriteKeepsInv(s, p.value, s.spaces[p.value].(clean := Some(clean)), written); }
    case SetDigest(id, digest, written) =>
      var p := Position(s.spaces, id);
      if p.Some? { WriteKeepsInv(s, p.value, s.spaces[p.value].(digest := digest), written); }
    case Remove(id, removal) => RemoveKeepsInv(s, id, removal);
    case Reload(listing) => ReloadKeepsInv(s, listing);
  }

  function After(s: State, steps: seq<Step>): State
    decreases |steps|
  {
    if steps == [] then s else After(Apply(s, steps[0]), steps[1..])
  }

  predicate Possible(s: State, steps: seq<Step>)
    decreases |steps|
  {
    steps == [] || (Enabled(s, steps[0]) && Possible(Apply(s, steps[0]), steps[1..]))
  }

  lemma {:induction false} RunKeepsInv(s: State, steps: seq<Step>)
    requires Inv(s) && Possible(s, steps)
    ensures Inv(After(s, steps))
    decreases |steps|
  {
    hide Inv;
    if steps != [] {
      StepKeepsInv(s, steps[0]);
      RunKeepsInv(Apply(s, steps[0]), steps[1..]);
    }
  }

  /**
   * On every run from the empty store, failed writes, torn removals and restarts included, the list is
   * strictly sorted by id, no id is reserved, cids are distinct candidates and uids follow from them.
   */
  lemma StoreRun(steps: seq<Step>)
    requires Possible(INIT, steps)
    ensures Good(After(INIT, steps).spaces)
  {
    RunKeepsInv(INIT, steps);
  }

  /** Unless a space's last write or removal failed, a restart gives the same list, in any directory order. */
  lemma ReloadGivesSameList(s: State, listing: seq<string>)
    requires Inv(s) && Lists(listing, s.disk)
    ensures ReloadStep(s, listing).spaces == s.spaces <==>
      forall c :: c in s.spaces ==> c.id in s.disk && s.disk[c.id] == c
    ensures s.stale == {} ==> ReloadStep(s, listing).spaces == s.spaces
  {
    hide ReloadStep, StrLess, SortedById, Registry.IsSafeSlug;
    ReloadKeepsInv(s, listing);
    var t := ReloadStep(s, listing);
    if forall c :: c in s.spaces ==> c.id in s.disk && s.disk[c.id] == c {
      forall c ensures c in t.spaces <==> c in s.spaces {
        if c in t.spaces {
          var d :| d in s.spaces && d.id == c.id;
          assert s.disk[d.id] == d;
        }
      }
      SortedUnique(s.spaces, t.spaces);
    }
    assert s.stale == {} ==> forall c :: c in s.spaces ==> Backed(s.disk, s.stale, c);
  }

  /** When a space is created, and as what: with the least free cid, next to the spaces that were there. */
  lemma CreateOutcome(s: State, step: Step)
    requires Inv(s) && step.Create? && Enabled(s, step)
    ensures var o, id := Outcome(s.spaces, step), step.request.id;
      o.Made? <==>
        && id != Registry.MIYORI_NET && !Has(s.spaces, id) && step.written
        && exists cid: nat :: Free(s.spaces, step.taps, cid) && 70000 + cid !in step.uids
             && forall d :: 3 <= d < cid ==> !Free(s.spaces, step.taps, d)
    ensures var o, t := Outcome(s.spaces, step), CreateStep(s, step);
      if o.Made? then
        && Free(s.spaces, step.taps, o.config.cid) && o.config.uid == 70000 + o.config.cid
        && (forall d :: 3 <= d < o.config.cid ==> !Free(s.spaces, step.taps, d))
        && (forall c :: c in t.spaces <==> c in s.spaces || c == o.config)
        && o.config.id in t.disk && t.disk == s.disk[o.config.id := o.config]
      else t == s
    ensures var o, r := Outcome(s.spaces, step), step.request;
      o.Made? ==>
        && o.config.id == r.id && o.config.profile == r.profile && o.config.digest == r.digest
        && o.config.mark == r.mark && o.config.color == r.color && o.config.encrypted == r.encrypted
        && o.config.created == step.created && o.config.clean == None
  {
    hide Good, Sort, Registry.IsSafeSlug, HasCid;
    var o := Outcome(s.spaces, step);
    forall cid | Free(s.spaces, step.taps, cid) ensures 3 <= cid {}
    if o.Made? {
      forall c ensures c in Sort(s.spaces + [o.config]) <==> c in s.spaces || c == o.config {
        SortKeeps(s.spaces + [o.config], c);
      }
    }
  }

  /** Why a space is not created: in this order, the reserved id, one already there, no free cid, its uid taken
      by an account of the host, and a config that could not be written. */
  lemma CreateRefused(s: State, step: Step)
    requires step.Create?
    ensures var o, id := Outcome(s.spaces, step), step.request.id;
      && (o == Reserved <==> id == "miyori-net")
      && (o == Exists <==> id != "miyori-net" && Has(s.spaces, id))
      && (o == NoCid <==> id != "miyori-net" && !Has(s.spaces, id) && forall d :: !Free(s.spaces, step.taps, d))
      && (o == UidTaken || o == WriteFailed ==>
            exists d: nat ::
              && Free(s.spaces, step.taps, d) && (o == UidTaken <==> 70000 + d in step.uids)
              && forall e :: 3 <= e < d ==> !Free(s.spaces, step.taps, e))
      && (o == WriteFailed ==> !step.written)
  {
    hide HasCid, Has;
    forall d | Free(s.spaces, step.taps, d) ensures 3 <= d {}
  }

  /** Removing takes a space off the list exactly when its directory is gone; a removal that fails keeps the list,
      and then the file is there unless it was lost on the way. */
  lemma RemoveOutcome(s: State, id: string, removal: Removal)
    requires Inv(s)
    ensures var t := RemoveStep(s, id, removal);
      && (forall c :: c in t.spaces <==> c in s.spaces && !(c.id == id && removal == Gone))
      && (forall d :: d in t.disk <==> d in s.disk && !(d == id && removal != Kept))
      && (forall d :: d in t.disk ==> t.disk[d] == s.disk[d])
      && (removal != Gone ==> t.spaces == s.spaces)
  {
    hide GoodConfig, DistinctCids, Backed;
    var p := Position(s.spaces, id);
    if p.Some? {
      SortedDistinct(s.spaces);
      forall x ensures x in s.spaces[..p.value] + s.spaces[p.value + 1..] <==> x in s.spaces && x.id != id {
        RemainingElements(s.spaces, p.value, x);
      }
    } else {
      assert forall c :: c in s.spaces ==> c.id != id;
      assert id !in s.disk;
    }
  }

  /** How a stop went is recorded like a digest. */
  lemma CleanSaved(s: State, c: SpaceConfig, clean: bool, written: bool)
    requires Inv(s) && c in s.spaces
    ensures var t, d := SetCleanStep(s, c.id, clean, written), c.(clean := Some(clean));
      && (forall x :: x in t.spaces <==> x == d || (x in s.spaces && x.id != c.id))
      && t.disk == if written then s.disk[c.id := d] else s.disk
  {
    hide Good, Registry.IsSafeSlug;
    assert SortedById(s.spaces) by { assert Good(s.spaces); GoodIsSorted(s.spaces); }
    var i := Position(s.spaces, c.id).value;
    assert s.spaces[i] in s.spaces;
    IdUnique(s.spaces, c, s.spaces[i]);
    SortedDistinct(s.spaces);
    var d := c.(clean := Some(clean));
    forall x ensures x in s.spaces[i := d] <==> x == d || (x in s.spaces && x.id != c.id) {
      ReplacedElements(s.spaces, i, d, x);
    }
  }

  /** A new digest reaches memory in any case and the file when the write succeeds; nothing else changes. */
  lemma DigestSaved(s: State, c: SpaceConfig, digest: string, written: bool)
    requires Inv(s) && c in s.spaces
    ensures var t, d := SetDigestStep(s, c.id, digest, written), c.(digest := digest);
      && (forall x :: x in t.spaces <==> x == d || (x in s.spaces && x.id != c.id))
      && t.disk == if written then s.disk[c.id := d] else s.disk
  {
    hide Good, Registry.IsSafeSlug;
    assert SortedById(s.spaces) by { assert Good(s.spaces); GoodIsSorted(s.spaces); }
    var i := Position(s.spaces, c.id).value;
    assert s.spaces[i] in s.spaces;
    IdUnique(s.spaces, c, s.spaces[i]);
    SortedDistinct(s.spaces);
    forall x
      ensures x in s.spaces[i := c.(digest := digest)] <==> x == c.(digest := digest) || (x in s.spaces && x.id != c.id)
    {
      ReplacedElements(s.spaces, i, c.(digest := digest), x);
    }
  }

  lemma GoodIsSorted(s: Configs)
    requires Good(s)
    ensures SortedById(s)
  {
  }

  // ---- the registry it feeds ----

  function Entries(s: Configs): seq<Registry.Entry> {
    if s == [] then [] else [Registry.Entry(s[0].id, s[0].cid, s[0].mark, s[0].color)] + Entries(s[1..])
  }

  lemma {:induction false} EntryAt(s: Configs, i: nat)
    requires i < |s|
    ensures |Entries(s)| == |s| && Entries(s)[i] == Registry.Entry(s[i].id, s[i].cid, s[i].mark, s[i].color)
  {
    if i > 0 { EntryAt(s[1..], i - 1); } else { EntriesLength(s); }
  }

  lemma {:induction false} EntriesLength(s: Configs)
    ensures |Entries(s)| == |s|
  {
    if s != [] { EntriesLength(s[1..]); }
  }

  lemma EntriesProper(s: Configs)
    requires Good(s)
    ensures Registry.Proper(Entries(s))
    ensures forall e :: e in Entries(s) ==> e.id != Registry.MIYORI_NET && Registry.IsSafeSlug(e.id)
  {
    hide Registry.IsSafeSlug, StrLess;
    var entries := Entries(s);
    EntriesLength(s);
    SortedDistinct(s);
    forall i | 0 <= i < |s| ensures entries[i].id == s[i].id && entries[i].cid == s[i].cid && GoodConfig(s[i]) {
      EntryAt(s, i);
      assert s[i] in s;
    }
    forall i, j | 0 <= i < j < |entries| ensures entries[i].cid != entries[j].cid && entries[i].id != entries[j].id {
      assert s[i] in s && s[j] in s && s[i].id != s[j].id;
    }
  }

  lemma {:induction false} SpacesAll(entries: seq<Registry.Entry>)
    requires forall e :: e in entries ==> e.id != Registry.MIYORI_NET
    ensures Registry.Spaces(entries) == entries
  {
    if entries != [] {
      SpacesAll(entries[1..]);
      assert entries[0] in entries;
      assert entries == [entries[0]] + entries[1..];
    }
  }

  /**
   * The broker accepts the registry rendered of any reachable store, and finds there under each cid
   * exactly the stored space of that cid.
   */
  lemma StoreFeedsBroker(s: Configs, c: SpaceConfig)
    requires Good(s) && c in s
    ensures Registry.Acceptable(Registry.RenderRegistry(Entries(s)))
    ensures Registry.ByCid(Registry.RenderRegistry(Entries(s)), c.cid) ==
      Some(Registry.Entry(c.id, c.cid, c.mark, c.color))
  {
    hide Registry.Acceptable, Registry.RenderRegistry, Registry.ByCid, Registry.IsSafeSlug, Registry.Proper,
      Entries, StrLess;
    EntriesProper(s);
    SpacesAll(Entries(s));
    Registry.RegistryAgreement(Entries(s), c.cid);
    var i :| 0 <= i < |s| && s[i] == c;
    EntryAt(s, i);
    assert Entries(s)[i] in Entries(s);
  }

  // ---- the store itself ----

  class Store {
    var spaces: Configs
    var disk: Disk
    ghost var stale: set<string>

    ghost function Abstract(): State
      reads this
    {
      State(spaces, disk, stale)
    }

    constructor ()
      ensures Abstract() == INIT && Inv(Abstract())
    {
      spaces, disk, stale := [], map[], {};
    }

    /** Reads every config file; one that cannot be read fails the whole load. */
    method Load(listing: seq<string>, unreadable: set<string>) returns (ok: bool)
      requires Inv(Abstract()) && Lists(listing, disk)
      modifies this
      ensures ok <==> forall id :: id in listing && id in disk ==> id !in unreadable
      ensures Abstract() == if ok then Apply(old(Abstract()), Reload(listing)) else old(Abstract())
      ensures Inv(Abstract())
    {
      hide Inv, Sort;
      ReloadKeepsInv(Abstract(), listing);
      var read: Configs := [];
      for i := 0 to |listing|
        invariant read == ReadAll(disk, listing[..i])
        invariant forall id :: id in listing[..i] && id in disk ==> id !in unreadable
      {
        assert listing[..i + 1] == listing[..i] + [listing[i]];
        assert listing[..i + 1][..i] == listing[..i];
        // a directory without a config file is passed over
        if listing[i] in disk {
          if listing[i] in unreadable { return false; }
          read := read + [disk[listing[i]]];
        }
      }
      assert listing[..|listing|] == listing;
      spaces := Sort(read);
      stale := {};
      return true;
    }

    method AllocateCid(taps: set<nat>) returns (cid: Option<nat>)
      ensures cid == LeastFree(spaces, taps, 3)
    {
      for c := 3 to MAX_CID + 1
        invariant LeastFree(spaces, taps, 3) == LeastFree(spaces, taps, c)
      {
        if c == Registry.NET_CID { continue; }
        var used := UsesCid(c);
        if used { continue; }
        if c in taps { continue; }
        return Some(c);
      }
      return None;
    }

    method UsesCid(cid: nat) returns (used: bool)
      ensures used == HasCid(spaces, cid)
    {
      for i := 0 to |spaces|
        invariant forall j :: 0 <= j < i ==> spaces[j].cid != cid
      {
        if spaces[i].cid == cid {
          assert spaces[i] in spaces;
          return true;
        }
      }
      return false;
    }

    method CreateSpace(request: Request, created: string, uids: set<nat>, taps: set<nat>, written: bool)
      returns (r: Created)
      requires Inv(Abstract()) && Registry.IsSafeSlug(request.id)
      modifies this
      ensures r == Outcome(old(spaces), Create(request, created, uids, taps, written))
      ensures Abstract() == Apply(old(Abstract()), Create(request, created, uids, taps, written))
      ensures Inv(Abstract())
    {
      hide Inv, Sort, Registry.IsSafeSlug;
      ghost var step := Create(request, created, uids, taps, written);
      StepKeepsInv(Abstract(), step);
      if request.id == Registry.MIYORI_NET { return Reserved; }
      if Position(spaces, request.id).Some? {
        assert spaces[Position(spaces, request.id).value] in spaces;
        return Exists;
      }
      var cid := AllocateCid(taps);
      if cid.None? { return NoCid; }
      var uid := UID_BASE + cid.value;
      if uid in uids { return UidTaken; }
      var c := SpaceConfig(request.id, request.profile, request.digest, cid.value, uid, request.mark, request.color,
        created, None, request.encrypted);
      if !written { return WriteFailed; }
      disk := disk[c.id := c];
      stale := stale - {c.id};
      spaces := Sort(spaces + [c]);
      return Made(c);
    }

    /** Memory first, then the file. */
    method Save(i: nat, c: SpaceConfig, written: bool)
      requires i < |spaces|
      modifies this
      ensures Abstract() == Write(old(Abstract()), i, c, written)
    {
      spaces := spaces[i := c];
      if written { disk := disk[c.id := c]; }
      stale := if written then stale - {c.id} else stale + {c.id};
    }

    method SetCleanShutdown(id: string, clean: bool, written: bool) returns (ok: bool)
      requires Inv(Abstract())
      modifies this
      ensures ok == (Has(old(spaces), id) && written)
      ensures Abstract() == Apply(old(Abstract()), SetClean(id, clean, written))
      ensures Inv(Abstract())
    {
      hide Inv, Write;
      StepKeepsInv(Abstract(), SetClean(id, clean, written));
      var p := Position(spaces, id);
      if p.None? { return false; }
      assert spaces[p.value] in spaces;
      Save(p.value, spaces[p.value].(clean := Some(clean)), written);
      return written;
    }

    method SaveDigest(id: string, digest: string, written: bool) returns (ok: bool)
      requires Inv(Abstract())
      modifies this
      ensures ok == (Has(old(spaces), id) && written)
      ensures Abstract() == Apply(old(Abstract()), SetDigest(id, digest, written))
      ensures Inv(Abstract())
    {
      hide Inv, Write;
      StepKeepsInv(Abstract(), SetDigest(id, digest, written));
      var p := Position(spaces, id);
      if p.None? { return false; }
      assert spaces[p.value] in spaces;
      Save(p.value, spaces[p.value].(digest := digest), written);
      return written;
    }

    method RemoveSpace(id: string, removal: Removal) returns (ok: bool)
      requires Inv(Abstract())
      modifies this
      ensures ok == (Has(old(spaces), id) && removal == Gone)
      ensures Abstract() == Apply(old(Abstract()), Remove(id, removal))
      ensures Inv(Abstract())
    {
      hide Inv;
      StepKeepsInv(Abstract(), Remove(id, removal));
      var p := Position(spaces, id);
      if p.None? { return false; }
      assert spaces[p.value] in spaces;
      if removal == Kept { return false; }
      disk := disk - {id};
      if removal == Torn {
        stale := stale + {id};
        return false;
      }
      stale := stale - {id};
      spaces := spaces[..p.value] + spaces[p.value + 1..];
      return true;
    }
  }
}
