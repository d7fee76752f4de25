// The registry of spaces: what the daemon renders from its list, what the broker accepts of it and
// looks up in it, and how two lists are merged.
module Registry {
  import opened Text

  const RESERVED_CIDS: set<nat> := {0, 1, 2}

  predicate IsSafeSlug(s: string) {
    0 < |s| <= 32 && forall i :: 0 <= i < |s| ==> 'a' <= s[i] <= 'z' || '0' <= s[i] <= '9' || s[i] == '-'
  }

  /** A safe id is one to 32 characters with the codes of small letters, digits and the dash, so that it is a file
      name of its own anywhere. */
  lemma SlugIff(s: string)
    ensures IsSafeSlug(s) <==>
      && s != "" && |s| < 33
      && forall c :: c in s ==> 97 <= c as int < 123 || 48 <= c as int < 58 || c as int == 45
    ensures IsSafeSlug(s) ==> '/' !in s && '.' !in s && '\0' !in s && ' ' !in s
  {
    assert forall i :: 0 <= i < |s| ==> s[i] in s;
  }

  datatype Entry = Entry(id: string, cid: nat, mark: string, color: string)

  const MIYORI_NET := "miyori-net"

  const NET_CID: nat := 9

  const NET_ENTRY := Entry(MIYORI_NET, NET_CID, "trusted", "#2f9e44")

  // ---- a stable sort by cid ----

  predicate SortedByCid(s: seq<Entry>) { forall i, j :: 0 <= i < j < |s| ==> s[i].cid <= s[j].cid }

  /** Puts `e` behind every entry whose cid is not greater. */
  function Insert(e: Entry, s: seq<Entry>): (r: seq<Entry>)
    ensures multiset(r) == multiset(s) + multiset{e}
  {
    if s == [] || s[|s| - 1].cid <= e.cid then s + [e]
    else
      assert s == s[..|s| - 1] + [s[|s| - 1]];
      Insert(e, s[..|s| - 1]) + [s[|s| - 1]]
  }

  function Sort(s: seq<Entry>): (r: seq<Entry>)
    ensures multiset(r) == multiset(s)
  {
    if s == [] then []
    else
      assert s == s[..|s| - 1] + [s[|s| - 1]];
      Insert(s[|s| - 1], Sort(s[..|s| - 1]))
  }

  lemma {:induction false} InsertSorts(e: Entry, s: seq<Entry>)
    requires SortedByCid(s)
    ensures SortedByCid(Insert(e, s))
  {
    if s != [] && s[|s| - 1].cid > e.cid {
      var r := Insert(e, s[..|s| - 1]);
      InsertSorts(e, s[..|s| - 1]);
      forall i | 0 <= i < |r| ensures r[i].cid <= s[|s| - 1].cid {
        assert r[i] in multiset(r);
      }
    }
  }

  lemma {:induction false} SortSorts(s: seq<Entry>)
    ensures SortedByCid(Sort(s))
  {
    if s != [] {
      SortSorts(s[..|s| - 1]);
      InsertSorts(s[|s| - 1], Sort(s[..|s| - 1]));
    }
  }

  lemma SortKeeps(s: seq<Entry>, e: Entry)
    ensures e in Sort(s) <==> e in s
    ensures |Sort(s)| == |s|
  {
    assert e in multiset(Sort(s)) <==> e in multiset(s);
    assert |multiset(Sort(s))| == |multiset(s)|;
  }

  // ---- rendering ----

  /** All entries but the network VM's. */
  function Spaces(entries: seq<Entry>): (r: seq<Entry>)
    ensures forall e :: e in r <==> e in entries && e.id != MIYORI_NET
  {
    if entries == [] then []
    else if entries[0].id != MIYORI_NET then [entries[0]] + Spaces(entries[1..])
    else Spaces(entries[1..])
  }

  /** The rows of the registry file, in order. */
  function RenderRegistry(entries: seq<Entry>): seq<Entry> { Sort(Spaces(entries) + [NET_ENTRY]) }

  // ---- what the broker accepts ----

  datatype Problem = UnsafeId | ReservedCid | RepeatedCid | RepeatedId

  predicate Acceptable(rows: seq<Entry>) {
    && (forall e :: e in rows ==> IsSafeSlug(e.id) && e.cid !in RESERVED_CIDS)
    && (forall i, j :: 0 <= i < j < |rows| ==> rows[i].cid != rows[j].cid && rows[i].id != rows[j].id)
  }

  /** The first check row `i` fails, given that the rows before it are in order. */
  predicate Fails(rows: seq<Entry>, i: nat, p: Problem)
    requires i < |rows|
  {
    var row := rows[i];
    var cidSeen := exists j :: 0 <= j < i && rows[j].cid == row.cid;
    var idSeen := exists j :: 0 <= j < i && rows[j].id == row.id;
    match p
    case UnsafeId => !IsSafeSlug(row.id)
    case ReservedCid => IsSafeSlug(row.id) && row.cid in RESERVED_CIDS
    case RepeatedCid => IsSafeSlug(row.id) && row.cid !in RESERVED_CIDS && cidSeen
    case RepeatedId => IsSafeSlug(row.id) && row.cid !in RESERVED_CIDS && !cidSeen && idSeen
  }

  /** Accepts exactly the acceptable registries, and otherwise names the first bad row and its first fault. */
  method Validate(rows: seq<Entry>) returns (r: Option<(nat, Problem)>)
    ensures r.None? <==> Acceptable(rows)
    ensures r.Some? ==> r.value.0 < |rows| && Acceptable(rows[..r.value.0]) && Fails(rows, r.value.0, r.value.1)
  {
    var seenCid: set<nat>, seenId: set<string> := {}, {};
    for i := 0 to |rows|
      invariant Acceptable(rows[..i])
      invariant forall c :: c in seenCid <==> exists j :: 0 <= j < i && rows[j].cid == c
      invariant forall d :: d in seenId <==> exists j :: 0 <= j < i && rows[j].id == d
    {
      var row := rows[i];
      assert row in rows;
      if !IsSafeSlug(row.id) { return Some((i, UnsafeId)); }
      if row.cid in RESERVED_CIDS { return Some((i, ReservedCid)); }
      if row.cid in seenCid { return Some((i, RepeatedCid)); }
      seenCid := seenCid + {row.cid};
      if row.id in seenId { return Some((i, RepeatedId)); }
      seenId := seenId + {row.id};
      assert rows[..i + 1] == rows[..i] + [row];
    }
    assert rows[..|rows|] == rows;
    return None;
  }

  function ByCid(rows: seq<Entry>, cid: nat): Option<Entry> {
    if rows == [] then None
    else if rows[0].cid == cid then Some(rows[0])
    else ByCid(rows[1..], cid)
  }

  lemma {:induction false} ByCidFinds(rows: seq<Entry>, cid: nat)
    ensures match ByCid(rows, cid)
      case None => forall e :: e in rows ==> e.cid != cid
      case Some(e) => e in rows && e.cid == cid
  {
    if rows != [] && rows[0].cid != cid {
      ByCidFinds(rows[1..], cid);
      assert rows == [rows[0]] + rows[1..];
    }
  }

  // ---- agreement of the two sides ----

  /** What the daemon's store keeps of its own list, apart from the order (see Store). */
  predicate Proper(entries: seq<Entry>) {
    && (forall e :: e in entries ==> IsSafeSlug(e.id) && e.cid > 2 && e.cid != 9)
    && (forall i, j :: 0 <= i < j < |entries| ==> entries[i].cid != entries[j].cid && entries[i].id != entries[j].id)
  }

  /** No row of `s` has the cid or the id of `e`. */
  predicate Apart(s: seq<Entry>, e: Entry) { forall x :: x in s ==> x.cid != e.cid && x.id != e.id }

  predicate Distinct(s: seq<Entry>) {
    s == [] || (Distinct(s[..|s| - 1]) && Apart(s[..|s| - 1], s[|s| - 1]))
  }

  lemma {:induction false} DistinctIff(s: seq<Entry>)
    ensures Distinct(s) <==> forall i, j :: 0 <= i < j < |s| ==> s[i].cid != s[j].cid && s[i].id != s[j].id
  {
    if s != [] {
      var init, last := s[..|s| - 1], s[|s| - 1];
      DistinctIff(init);
      assert forall i :: 0 <= i < |init| ==> init[i] == s[i] && init[i] in init;
    }
  }

  lemma DistinctSnoc(s: seq<Entry>, e: Entry)
    ensures Distinct(s + [e]) <==> Distinct(s) && Apart(s, e)
  {
    assert (s + [e])[..|s|] == s;
  }

  lemma InsertKeeps(e: Entry, s: seq<Entry>, x: Entry)
    ensures x in Insert(e, s) <==> x in s || x == e
  {
    assert x in Insert(e, s) <==> x in multiset(Insert(e, s));
  }

  lemma {:induction false} InsertDistinct(e: Entry, s: seq<Entry>)
    ensures Distinct(Insert(e, s)) <==> Distinct(s) && Apart(s, e)
  {
    if s == [] || s[|s| - 1].cid <= e.cid {
      DistinctSnoc(s, e);
    } else {
      hide Distinct;
      var init, last := s[..|s| - 1], s[|s| - 1];
      assert s == init + [last];
      InsertDistinct(e, init);
      DistinctSnoc(init, last);
      DistinctSnoc(Insert(e, init), last);
      forall x ensures x in Insert(e, init) <==> x in init || x == e { InsertKeeps(e, init, x); }
    }
  }

  lemma {:induction false} SortDistinct(s: seq<Entry>)
    ensures Distinct(Sort(s)) <==> Distinct(s)
  {
    if s != [] {
      var init, last := s[..|s| - 1], s[|s| - 1];
      SortDistinct(init);
      InsertDistinct(last, Sort(init));
      forall e ensures e in Sort(init) <==> e in init { SortKeeps(init, e); }
    }
  }

  /**
   * The broker accepts what the daemon renders exactly when the spaces on the list have distinct,
   * unreserved ids and cids; it then finds under each cid the space that has it, under 9 miyori-net,
   * and under any other nothing.
   */
  lemma RegistryAgreement(entries: seq<Entry>, cid: nat)
    requires forall e :: e in entries ==> IsSafeSlug(e.id)
    ensures Acceptable(RenderRegistry(entries)) <==> Proper(Spaces(entries))
    ensures SortedByCid(RenderRegistry(entries))
    ensures Proper(Spaces(entries)) && cid == 9 ==> ByCid(RenderRegistry(entries), cid) == Some(NET_ENTRY)
    ensures Proper(Spaces(entries)) && cid != 9 ==> forall e ::
      ByCid(RenderRegistry(entries), cid) == Some(e) <==> e in entries && e.id != MIYORI_NET && e.cid == cid
  {
    hide Sort, Spaces, ByCid, IsSafeSlug, SortedByCid;
    var rows := RenderRegistry(entries);
    RenderedRows(entries);
    SortSorts(Spaces(entries) + [NET_ENTRY]);
    ByCidFinds(rows, cid);
    if Proper(Spaces(entries)) {
      assert NET_ENTRY in rows;
      forall d, e | d in rows && e in rows && d.cid == e.cid ensures d == e {
        var i, j :| 0 <= i < |rows| && 0 <= j < |rows| && rows[i] == d && rows[j] == e;
      }
    }
  }

  lemma NetEntryIsSafe()
    ensures IsSafeSlug(MIYORI_NET)
  {
  }

  lemma RenderedRows(entries: seq<Entry>)
    requires forall e :: e in entries ==> IsSafeSlug(e.id)
    ensures Acceptable(RenderRegistry(entries)) <==> Proper(Spaces(entries))
    ensures forall e :: e in RenderRegistry(entries) <==> e in Spaces(entries) || e == NET_ENTRY
  {
    var spaces := Spaces(entries);
    var all := spaces + [NET_ENTRY];
    NetEntryIsSafe();
    RowsDistinct(spaces);
    hide Sort, IsSafeSlug, Distinct, Spaces;
    forall e ensures e in Sort(all) <==> e in spaces || e == NET_ENTRY { SortKeeps(all, e); }
    DistinctIff(spaces);
    DistinctIff(Sort(all));
  }

  lemma RowsDistinct(spaces: seq<Entry>)
    ensures Distinct(Sort(spaces + [NET_ENTRY])) <==> Distinct(spaces) && Apart(spaces, NET_ENTRY)
  {
    hide Distinct, Sort, Apart;
    DistinctSnoc(spaces, NET_ENTRY);
    SortDistinct(spaces + [NET_ENTRY]);
  }

  // ---- merging two lists ----

  predicate SamePair(d: Entry, e: Entry) { d.id == e.id && d.cid == e.cid }

  predicate Clash(d: Entry, e: Entry) { (d.id == e.id) != (d.cid == e.cid) }

  /** The entries of `all` without repetitions of a pair, None once a cid has two ids or an id two cids. */
  function Merged(all: seq<Entry>): Option<seq<Entry>> {
    if all == [] then Some([])
    else
      match Merged(all[..|all| - 1])
      case None => None
      case Some(merged) =>
        var e := all[|all| - 1];
        if Clashes(merged, e) then None
        else if Covered(merged, e) then Some(merged)
        else Some(merged + [e])
  }

  predicate Consistent(all: seq<Entry>) { forall d, e :: d in all && e in all ==> !Clash(d, e) }

  predicate Covered(merged: seq<Entry>, e: Entry) { exists d :: d in merged && SamePair(d, e) }

  predicate Clashes(merged: seq<Entry>, e: Entry) { exists d :: d in merged && Clash(d, e) }

  /** `d` stands in `all`, before any other entry of its pair. */
  predicate First(all: seq<Entry>, d: Entry) {
    all != [] && (First(all[..|all| - 1], d) || (all[|all| - 1] == d && !Covered(all[..|all| - 1], d)))
  }

  /** One entry for each pair of `all`, the first of that pair. */
  predicate Represents(merged: seq<Entry>, all: seq<Entry>) {
    && Distinct(merged)
    && (forall e :: e in all ==> Covered(merged, e))
    && (forall d :: d in merged ==> d in all && First(all, d))
  }

  /** Merging succeeds exactly when no cid has two ids and no id two cids, and keeps each pair once. */
  lemma {:induction false} MergedIff(all: seq<Entry>)
    ensures Merged(all).Some? <==> Consistent(all)
    ensures Merged(all).Some? ==> Represents(Merged(all).value, all)
  {
    if all != [] {
      hide Distinct, Covered, First, Clash;
      var init, e := all[..|all| - 1], all[|all| - 1];
      assert all == init + [e];
      MergedIff(init);
      if Merged(init).Some? {
        var merged := Merged(init).value;
        ConsistentStep(merged, init, e);
        if !Clashes(merged, e) { RepresentsStep(merged, init, e); }
      }
    }
  }

  lemma ConsistentStep(merged: seq<Entry>, init: seq<Entry>, e: Entry)
    requires Represents(merged, init) && Consistent(init)
    ensures Consistent(init + [e]) <==> !Clashes(merged, e)
  {
    hide Distinct, First;
    if !Clashes(merged, e) {
      forall c | c in init ensures !Clash(c, e) && !Clash(e, c) {
        assert Covered(merged, c);
      }
    }
  }

  lemma RepresentsStep(merged: seq<Entry>, init: seq<Entry>, e: Entry)
    requires Represents(merged, init) && !Clashes(merged, e)
    ensures Covered(merged, e) ==> Represents(merged, init + [e])
    ensures !Covered(merged, e) ==> Represents(merged + [e], init + [e])
  {
    var all := init + [e];
    assert all[..|init|] == init;
    forall d | First(init, d) ensures First(all, d) {}
    if !Covered(merged, e) {
      hide First;
      assert Distinct(merged + [e]) by { DistinctSnoc(merged, e); }
      forall c | c in init ensures !SamePair(c, e) && Covered(merged + [e], c) {
        assert Covered(merged, c);
        CoveredMore(merged, c, e);
        var d :| d in merged && SamePair(d, c);
        assert !SamePair(d, e);
      }
      assert !Covered(init, e);
      FirstHere(init, e);
      assert Covered(merged + [e], e) by { assert e in merged + [e] && SamePair(e, e); }
    }
  }

  lemma FirstHere(init: seq<Entry>, e: Entry)
    requires !Covered(init, e)
    ensures First(init + [e], e)
  {
    assert (init + [e])[..|init|] == init;
  }

  lemma CoveredMore(merged: seq<Entry>, c: Entry, e: Entry)
    requires Covered(merged, c)
    ensures Covered(merged + [e], c)
  {
    var d :| d in merged && SamePair(d, c);
    assert d in merged + [e];
  }

  lemma MergedStep(all: seq<Entry>)
    requires all != [] && Merged(all[..|all| - 1]).Some?
    ensures var merged, e := Merged(all[..|all| - 1]).value, all[|all| - 1];
      Merged(all) ==
        if Clashes(merged, e) then None else if Covered(merged, e) then Some(merged) else Some(merged + [e])
  {
  }

  /** The inner loop may stop at the first entry that shares the cid or the id. */
  lemma CoveredIsFinal(merged: seq<Entry>, e: Entry)
    requires Distinct(merged)
    ensures Covered(merged, e) ==> !Clashes(merged, e)
  {
    forall c, d | c in merged && d in merged && (c.cid == d.cid || c.id == d.id) ensures c == d {
      DistinctUnique(merged, c, d);
    }
  }

  lemma DistinctUnique(s: seq<Entry>, c: Entry, d: Entry)
    requires Distinct(s) && c in s && d in s && (c.cid == d.cid || c.id == d.id)
    ensures c == d
  {
    hide Distinct;
    DistinctIff(s);
    var i, j :| 0 <= i < |s| && s[i] == c && 0 <= j < |s| && s[j] == d;
    assert !(i < j) && !(j < i);
  }

  lemma ClashSpoils(all: seq<Entry>, n: nat)
    requires n <= |all| && Merged(all[..n]).None?
    ensures !Consistent(all)
  {
    MergedIff(all[..n]);
    var d, e :| d in all[..n] && e in all[..n] && Clash(d, e);
    assert d in all && e in all;
  }

  lemma SortRepresents(merged: seq<Entry>, all: seq<Entry>)
    requires Represents(merged, all)
    ensures Represents(Sort(merged), all)
  {
    hide Sort, Distinct, First;
    SortDistinct(merged);
    forall e ensures e in Sort(merged) <==> e in merged { SortKeeps(merged, e); }
    forall e | e in all ensures Covered(Sort(merged), e) {
      var d :| d in merged && SamePair(d, e);
      assert d in Sort(merged);
    }
  }

  datatype Verdict = Fresh | Known | Conflict

  /** The inner loop: it stops at the first entry that shares the cid or the id. */
  method Compare(merged: seq<Entry>, entry: Entry) returns (v: Verdict)
    requires Distinct(merged)
    ensures v == if Clashes(merged, entry) then Conflict else if Covered(merged, entry) then Known else Fresh
  {
    hide Distinct;
    CoveredIsFinal(merged, entry);
    for j := 0 to |merged|
      invariant forall d :: d in merged[..j] ==> !SamePair(d, entry) && !Clash(d, entry)
    {
      var existing := merged[j];
      assert existing in merged && (SamePair(existing, entry) || Clash(existing, entry)
        || (existing.cid != entry.cid && existing.id != entry.id));
      if existing.cid == entry.cid && existing.id == entry.id { return Known; }
      if existing.cid == entry.cid { return Conflict; }
      if existing.id == entry.id { return Conflict; }
      assert merged[..j + 1] == merged[..j] + [existing];
    }
    assert merged[..|merged|] == merged;
    return Fresh;
  }

  /** The merged list is sorted by cid; `a` is the registry file, `b` the daemon's own state. */
  method MergeEntries(a: seq<Entry>, b: seq<Entry>) returns (r: Option<seq<Entry>>)
    ensures r.Some? <==> Consistent(a + b)
    ensures r.Some? ==> SortedByCid(r.value) && Represents(r.value, a + b)
  {
    hide Consistent, Distinct, Covered, First, Clashes;
    var all := a + b;
    var merged: seq<Entry> := [];
    for i := 0 to |all|
      invariant Merged(all[..i]) == Some(merged)
    {
      assert all[..i + 1][..i] == all[..i];
      MergedIff(all[..i]);
      MergedStep(all[..i + 1]);
      var verdict := Compare(merged, all[i]);
      if verdict == Conflict {
        ClashSpoils(all, i + 1);
        return None;
      }
      if verdict == Fresh { merged := merged + [all[i]]; }
    }
    assert all[..|all|] == all;
    MergedIff(all);
    SortSorts(merged);
    SortRepresents(merged, all);
    return Some(Sort(merged));
  }
}
