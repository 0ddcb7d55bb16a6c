/** The merge-request cache of app/services/mr_sync.py, reconciled with an upstream listing. */
module MrSync {
  import opened Wrappers

  /** The synced columns. */
  datatype Fields = Fields(
    title: string, author: string, sourceBranch: string, targetBranch: string,
    sha: string, webUrl: string, state: string, updatedAt: Option<int>)

  datatype Snapshot = Snapshot(iid: int, fields: Fields)

  datatype Row = Row(project: string, iid: int, fields: Fields, lastSeen: int)

  datatype Kind = Added | Updated | Unchanged

  // ---------------------------------------------------------------- one upsert

  function FindRow(rows: seq<Row>, project: string, iid: int): (k: Option<nat>)
    ensures k.Some? ==> k.value < |rows| && rows[k.value].project == project && rows[k.value].iid == iid
                        && forall i :: 0 <= i < k.value ==> !(rows[i].project == project && rows[i].iid == iid)
    ensures k.None? ==> forall i :: 0 <= i < |rows| ==> !(rows[i].project == project && rows[i].iid == iid)
  {
    if rows == [] then None
    else if rows[0].project == project && rows[0].iid == iid then Some(0)
    else
      var k := FindRow(rows[1..], project, iid);
      if k.None? then None else Some(k.value + 1)
  }

  /** The cached row of a merge request. */
  function Cached(rows: seq<Row>, project: string, iid: int): Option<Row> {
    var k := FindRow(rows, project, iid);
    if k.None? then None else Some(rows[k.value])
  }

  function Upsert(rows: seq<Row>, project: string, snap: Snapshot, now: int): seq<Row> {
    var row := Row(project, snap.iid, snap.fields, now);
    var k := FindRow(rows, project, snap.iid);
    if k.None? then rows + [row] else rows[k.value := row]
  }

  function KindOf(rows: seq<Row>, project: string, snap: Snapshot): Kind {
    var row := Cached(rows, project, snap.iid);
    if row.None? then Added else if row.value.fields != snap.fields then Updated else Unchanged
  }

  ghost predicate Unique(rows: seq<Row>) {
    forall i, j :: 0 <= i < j < |rows| ==> rows[i].project != rows[j].project || rows[i].iid != rows[j].iid
  }

  /** Nothing was deleted: every old row is still there, at its place, under its key. */
  ghost predicate Kept(rows: seq<Row>, rows': seq<Row>, project: string) {
    && |rows| <= |rows'|
    && (forall i :: 0 <= i < |rows| ==> rows'[i].project == rows[i].project && rows'[i].iid == rows[i].iid)
    && (forall i :: 0 <= i < |rows| && rows[i].project != project ==> rows'[i] == rows[i])
    && (forall i :: |rows| <= i < |rows'| ==> rows'[i].project == project)
  }

  lemma UpsertKeeps(rows: seq<Row>, project: string, snap: Snapshot, now: int)
    ensures Kept(rows, Upsert(rows, project, snap, now), project)
    ensures Unique(rows) ==> Unique(Upsert(rows, project, snap, now))
  {
  }

  lemma UpsertCached(rows: seq<Row>, project: string, snap: Snapshot, now: int, iid: int)
    ensures Cached(Upsert(rows, project, snap, now), project, iid) ==
            if iid == snap.iid then Some(Row(project, iid, snap.fields, now)) else Cached(rows, project, iid)
  {
    var r := Upsert(rows, project, snap, now);
    var k, k' := FindRow(rows, project, iid), FindRow(r, project, iid);
    var s := FindRow(rows, project, snap.iid);
    if iid == snap.iid {
      var at := if s.Some? then s.value else |rows|;
      assert r[at].project == project && r[at].iid == iid;
      assert forall i :: 0 <= i < at ==> r[i] == rows[i];
      assert k' == Some(at);
    } else if k.Some? {
      assert r[k.value] == rows[k.value];
      assert k' == k;
    } else {
      assert k'.None?;
    }
  }

  // ---------------------------------------------------------------- many upserts

  function UpsertAll(rows: seq<Row>, project: string, snaps: seq<Snapshot>, now: int): seq<Row> {
    if snaps == [] then rows
    else Upsert(UpsertAll(rows, project, snaps[..|snaps| - 1], now), project, snaps[|snaps| - 1], now)
  }

  /** How many of the upserts were of a kind. */
  function Count(rows: seq<Row>, project: string, snaps: seq<Snapshot>, now: int, kind: Kind): nat {
    if snaps == [] then 0
    else
      var before := snaps[..|snaps| - 1];
      Count(rows, project, before, now, kind)
      + if KindOf(UpsertAll(rows, project, before, now), project, snaps[|snaps| - 1]) == kind then 1 else 0
  }

  lemma {:induction false} CountsAddUp(rows: seq<Row>, project: string, snaps: seq<Snapshot>, now: int)
    ensures Count(rows, project, snaps, now, Added) + Count(rows, project, snaps, now, Updated)
            + Count(rows, project, snaps, now, Unchanged) == |snaps|
    decreases |snaps|
  {
    if snaps != [] { CountsAddUp(rows, project, snaps[..|snaps| - 1], now); }
  }

  /** A row of the project with this iid is cached. */
  ghost predicate IsCached(rows: seq<Row>, project: string, iid: int) {
    exists i :: 0 <= i < |rows| && rows[i].project == project && rows[i].iid == iid
  }

  lemma CachedIff(rows: seq<Row>, project: string, iid: int)
    ensures Cached(rows, project, iid).Some? <==> IsCached(rows, project, iid)
  {
  }

  /** The iids among the snapshots that the cache does not hold. */
  ghost function NewIids(rows: seq<Row>, project: string, snaps: seq<Snapshot>): set<int> {
    set k | 0 <= k < |snaps| && !IsCached(rows, project, snaps[k].iid) :: snaps[k].iid
  }

  lemma NewIidsGrow(rows: seq<Row>, project: string, snaps: seq<Snapshot>)
    requires snaps != []
    ensures var n := |snaps| - 1;
            var before, last := NewIids(rows, project, snaps[..n]), snaps[n].iid;
            && NewIids(rows, project, snaps) == (if IsCached(rows, project, last) then before else before + {last})
            && (last in before <==> !IsCached(rows, project, last) && Listed(snaps[..n], last))
  {
    var n := |snaps| - 1;
    var all, before, last := NewIids(rows, project, snaps), NewIids(rows, project, snaps[..n]), snaps[n].iid;
    forall x | x in before ensures x in all {
      var k :| 0 <= k < n && !IsCached(rows, project, snaps[..n][k].iid) && snaps[..n][k].iid == x;
      assert snaps[k].iid == x;
    }
    forall x | x in all && x != last ensures x in before {
      var k :| 0 <= k < |snaps| && !IsCached(rows, project, snaps[k].iid) && snaps[k].iid == x;
      assert snaps[..n][k].iid == x;
    }
    if !IsCached(rows, project, last) && Listed(snaps[..n], last) {
      var k :| 0 <= k < n && snaps[..n][k].iid == last;
      assert last in before;
    }
    if last in before {
      var k :| 0 <= k < n && !IsCached(rows, project, snaps[..n][k].iid) && snaps[..n][k].iid == last;
      assert Listed(snaps[..n], last);
    }
  }

  lemma AddedIff(rows: seq<Row>, project: string, before: seq<Snapshot>, now: int, snap: Snapshot)
    ensures KindOf(UpsertAll(rows, project, before, now), project, snap) == Added <==>
            !IsCached(rows, project, snap.iid) && !Listed(before, snap.iid)
  {
    UpsertAllCached(rows, project, before, now, snap.iid);
    LastOfListed(before, snap.iid);
    CachedIff(rows, project, snap.iid);
  }

  /** "Added" counts the distinct merge requests that the cache did not hold. */
  lemma {:induction false} AddedAreTheNew(rows: seq<Row>, project: string, snaps: seq<Snapshot>, now: int)
    ensures Count(rows, project, snaps, now, Added) == |NewIids(rows, project, snaps)|
    decreases |snaps|
  {
    if snaps == [] {
      assert NewIids(rows, project, snaps) == {};
    } else {
      var n := |snaps| - 1;
      var last := snaps[n].iid;
      AddedAreTheNew(rows, project, snaps[..n], now);
      NewIidsGrow(rows, project, snaps);
      AddedIff(rows, project, snaps[..n], now, snaps[n]);
      var before := NewIids(rows, project, snaps[..n]);
      if last in before { assert before + {last} == before; }
    }
  }

  /** The snapshots of a listing that are cached with other fields. */
  ghost function ChangedIids(rows: seq<Row>, project: string, snaps: seq<Snapshot>): set<int> {
    set k | 0 <= k < |snaps| && HasOtherFields(rows, project, snaps[k]) :: snaps[k].iid
  }

  ghost predicate HasOtherFields(rows: seq<Row>, project: string, snap: Snapshot) {
    exists i :: 0 <= i < |rows| && rows[i].project == project && rows[i].iid == snap.iid
                && rows[i].fields != snap.fields
  }

  lemma ChangedIff(rows: seq<Row>, project: string, snap: Snapshot)
    requires Unique(rows)
    ensures HasOtherFields(rows, project, snap) <==>
            Cached(rows, project, snap.iid).Some? && Cached(rows, project, snap.iid).value.fields != snap.fields
  {
    if HasOtherFields(rows, project, snap) {
      var i :| 0 <= i < |rows| && rows[i].project == project && rows[i].iid == snap.iid
        && rows[i].fields != snap.fields;
      assert FindRow(rows, project, snap.iid) == Some(i);
    }
  }

  lemma ChangedIidsGrow(rows: seq<Row>, project: string, snaps: seq<Snapshot>)
    requires snaps != [] && DistinctIids(snaps)
    ensures var n := |snaps| - 1;
            var before, last := ChangedIids(rows, project, snaps[..n]), snaps[n];
            && last.iid !in before
            && ChangedIids(rows, project, snaps) ==
               (if HasOtherFields(rows, project, last) then before + {last.iid} else before)
  {
    var n := |snaps| - 1;
    var all, before := ChangedIids(rows, project, snaps), ChangedIids(rows, project, snaps[..n]);
    forall x | x in before ensures x in all && x != snaps[n].iid {
      var k :| 0 <= k < n && HasOtherFields(rows, project, snaps[..n][k]) && snaps[..n][k].iid == x;
      assert snaps[k] == snaps[..n][k];
    }
    forall x | x in all && x != snaps[n].iid ensures x in before {
      var k :| 0 <= k < |snaps| && HasOtherFields(rows, project, snaps[k]) && snaps[k].iid == x;
      assert snaps[..n][k] == snaps[k];
    }
    if snaps[n].iid in all {
      var k :| 0 <= k < |snaps| && HasOtherFields(rows, project, snaps[k]) && snaps[k].iid == snaps[n].iid;
      assert k == n;
    }
  }

  /** "Updated" counts, for a listing without repetition, those cached with other fields. */
  lemma {:induction false} UpdatedAreTheChanged(rows: seq<Row>, project: string, snaps: seq<Snapshot>, now: int)
    requires Unique(rows) && DistinctIids(snaps)
    ensures Count(rows, project, snaps, now, Updated) == |ChangedIids(rows, project, snaps)|
    decreases |snaps|
  {
    if snaps == [] {
      assert ChangedIids(rows, project, snaps) == {};
    } else {
      var n := |snaps| - 1;
      UpdatedAreTheChanged(rows, project, snaps[..n], now);
      ChangedIidsGrow(rows, project, snaps);
      ChangedIff(rows, project, snaps[n]);
      UpsertAllCached(rows, project, snaps[..n], now, snaps[n].iid);
      LastOfListed(snaps[..n], snaps[n].iid);
    }
  }

  lemma {:induction false} UpsertAllKeeps(rows: seq<Row>, project: string, snaps: seq<Snapshot>, now: int)
    ensures Kept(rows, UpsertAll(rows, project, snaps, now), project)
    ensures Unique(rows) ==> Unique(UpsertAll(rows, project, snaps, now))
    decreases |snaps|
  {
    if snaps != [] {
      var n := |snaps| - 1;
      UpsertAllKeeps(rows, project, snaps[..n], now);
      UpsertKeeps(UpsertAll(rows, project, snaps[..n], now), project, snaps[n], now);
    }
  }

  /** The last snapshot of a merge request in a listing. */
  function LastOf(snaps: seq<Snapshot>, iid: int): (s: Option<Snapshot>)
    ensures s.Some? ==> s.value in snaps && s.value.iid == iid
    ensures s.None? ==> forall k :: 0 <= k < |snaps| ==> snaps[k].iid != iid
  {
    if snaps == [] then None
    else if snaps[|snaps| - 1].iid == iid then Some(snaps[|snaps| - 1])
    else LastOf(snaps[..|snaps| - 1], iid)
  }

  /** After many upserts a merge request has its last snapshot, or what it had. */
  lemma {:induction false} UpsertAllCached(rows: seq<Row>, project: string, snaps: seq<Snapshot>, now: int, iid: int)
    ensures Cached(UpsertAll(rows, project, snaps, now), project, iid) ==
            match LastOf(snaps, iid)
            case Some(s) => Some(Row(project, iid, s.fields, now))
            case None => Cached(rows, project, iid)
    decreases |snaps|
  {
    if snaps != [] {
      var n := |snaps| - 1;
      UpsertAllCached(rows, project, snaps[..n], now, iid);
      UpsertCached(UpsertAll(rows, project, snaps[..n], now), project, snaps[n], now, iid);
    }
  }

  // ---------------------------------------------------------------- the whole sync

  predicate Listed(snaps: seq<Snapshot>, iid: int) {
    exists k :: 0 <= k < |snaps| && snaps[k].iid == iid
  }

  /** Cached rows of the project still marked opened but missing from the listing. */
  function StaleIids(rows: seq<Row>, project: string, listing: seq<Snapshot>): (iids: seq<int>)
    ensures forall x :: x in iids <==>
              exists i :: 0 <= i < |rows| && rows[i].project == project && rows[i].fields.state == "opened"
                && rows[i].iid == x && !Listed(listing, x)
  {
    if rows == [] then []
    else
      var last := rows[|rows| - 1];
      var rest := StaleIids(rows[..|rows| - 1], project, listing);
      assert forall i :: 0 <= i < |rows| - 1 ==> rows[..|rows| - 1][i] == rows[i];
      if last.project == project && last.fields.state == "opened" && !Listed(listing, last.iid)
      then rest + [last.iid] else rest
  }

  /** The snapshots of the refetches that succeed. */
  function Refetched(iids: seq<int>, refetch: int -> Option<Snapshot>): (snaps: seq<Snapshot>)
    ensures forall k :: 0 <= k < |snaps| ==> exists i :: 0 <= i < |iids| && refetch(iids[i]) == Some(snaps[k])
  {
    if iids == [] then []
    else
      var rest := Refetched(iids[..|iids| - 1], refetch);
      var snap := refetch(iids[|iids| - 1]);
      if snap.Some? then rest + [snap.value] else rest
  }

  function AfterListing(rows: seq<Row>, project: string, listing: seq<Snapshot>, now: int): seq<Row> {
    UpsertAll(rows, project, listing, now)
  }

  function SecondRound(
    rows: seq<Row>, project: string, listing: seq<Snapshot>, refetch: int -> Option<Snapshot>, now: int): seq<Snapshot>
  {
    Refetched(StaleIids(AfterListing(rows, project, listing, now), project, listing), refetch)
  }

  function SyncRows(
    rows: seq<Row>, project: string, listing: seq<Snapshot>, refetch: int -> Option<Snapshot>, now: int): seq<Row>
  {
    var listed := AfterListing(rows, project, listing, now);
    UpsertAll(listed, project, SecondRound(rows, project, listing, refetch, now), now)
  }

  /** A refetch answers for the merge request it was asked about. */
  predicate AnswersFor(refetch: int -> Option<Snapshot>, iid: int) {
    refetch(iid).Some? ==> refetch(iid).value.iid == iid
  }

  ghost predicate Answers(refetch: int -> Option<Snapshot>) {
    forall iid :: AnswersFor(refetch, iid)
  }

  ghost predicate DistinctIids(snaps: seq<Snapshot>) {
    forall i, j :: 0 <= i < j < |snaps| ==> snaps[i].iid != snaps[j].iid
  }

  /** (project, iid) stays unique, no row is deleted, other projects are untouched. */
  lemma SyncKeeps(
    rows: seq<Row>, project: string, listing: seq<Snapshot>, refetch: int -> Option<Snapshot>, now: int)
    ensures Kept(rows, SyncRows(rows, project, listing, refetch, now), project)
    ensures Unique(rows) ==> Unique(SyncRows(rows, project, listing, refetch, now))
  {
    UpsertAllKeeps(rows, project, listing, now);
    UpsertAllKeeps(AfterListing(rows, project, listing, now), project,
                   SecondRound(rows, project, listing, refetch, now), now);
  }

  /** The second round asks only for unlisted merge requests, and gets only those back. */
  lemma SecondRoundIsUnlisted(
    rows: seq<Row>, project: string, listing: seq<Snapshot>, refetch: int -> Option<Snapshot>, now: int)
    requires Answers(refetch)
    ensures var again := SecondRound(rows, project, listing, refetch, now);
            var stale := StaleIids(AfterListing(rows, project, listing, now), project, listing);
            forall k :: 0 <= k < |again| ==>
              !Listed(listing, again[k].iid) && again[k].iid in stale && refetch(again[k].iid) == Some(again[k])
  {
    var stale := StaleIids(AfterListing(rows, project, listing, now), project, listing);
    var again := Refetched(stale, refetch);
    forall k | 0 <= k < |again|
      ensures !Listed(listing, again[k].iid) && again[k].iid in stale && refetch(again[k].iid) == Some(again[k])
    {
      var i :| 0 <= i < |stale| && refetch(stale[i]) == Some(again[k]);
      assert stale[i] in stale && AnswersFor(refetch, stale[i]);
    }
  }

  lemma LastOfListed(snaps: seq<Snapshot>, iid: int)
    ensures LastOf(snaps, iid).Some? <==> Listed(snaps, iid)
  {
    var s := LastOf(snaps, iid);
    if s.Some? {
      var k :| 0 <= k < |snaps| && snaps[k] == s.value;
      assert snaps[k].iid == iid;
    }
  }

  /** Every listed merge request ends with its last snapshot. */
  lemma ListedRowsAreCurrent(
    rows: seq<Row>, project: string, listing: seq<Snapshot>, refetch: int -> Option<Snapshot>, now: int, iid: int)
    requires Answers(refetch) && Listed(listing, iid)
    ensures LastOf(listing, iid).Some?
    ensures Cached(SyncRows(rows, project, listing, refetch, now), project, iid)
            == Some(Row(project, iid, LastOf(listing, iid).value.fields, now))
  {
    var again := SecondRound(rows, project, listing, refetch, now);
    LastOfListed(listing, iid);
    SecondRoundIsUnlisted(rows, project, listing, refetch, now);
    LastOfListed(again, iid);
    UpsertAllCached(rows, project, listing, now, iid);
    UpsertAllCached(AfterListing(rows, project, listing, now), project, again, now, iid);
  }

  // ---------------------------------------------------------------- a second sync

  /** Upstream has nothing new for the cache. */
  ghost predicate UpToDate(rows: seq<Row>, project: string, snap: Snapshot) {
    Cached(rows, project, snap.iid).Some? && Cached(rows, project, snap.iid).value.fields == snap.fields
  }

  /** Upserting snapshots the cache already agrees with counts only as unchanged. */
  lemma {:induction false} QuietUpserts(rows: seq<Row>, project: string, snaps: seq<Snapshot>, now: int)
    requires forall k :: 0 <= k < |snaps| ==> UpToDate(rows, project, snaps[k])
    ensures Count(rows, project, snaps, now, Unchanged) == |snaps|
    ensures forall iid :: SameFields(rows, UpsertAll(rows, project, snaps, now), project, iid)
    decreases |snaps|
  {
    if snaps != [] {
      var n := |snaps| - 1;
      QuietUpserts(rows, project, snaps[..n], now);
      var before := UpsertAll(rows, project, snaps[..n], now);
      assert SameFields(rows, before, project, snaps[n].iid);
      forall iid ensures SameFields(rows, UpsertAll(rows, project, snaps, now), project, iid) {
        UpsertCached(before, project, snaps[n], now, iid);
        assert SameFields(rows, before, project, iid);
      }
    }
  }

  ghost predicate SameFields(rows: seq<Row>, rows': seq<Row>, project: string, iid: int) {
    var a, b := Cached(rows, project, iid), Cached(rows', project, iid);
    (a.Some? <==> b.Some?) && (a.Some? ==> a.value.fields == b.value.fields)
  }

  /** Every snapshot upstream would send now is already cached. */
  ghost predicate Settled(rows: seq<Row>, project: string, listing: seq<Snapshot>, refetch: int -> Option<Snapshot>) {
    && (forall k :: 0 <= k < |listing| ==> UpToDate(rows, project, listing[k]))
    && (forall iid :: Refetchable(rows, project, listing, iid) && refetch(iid).Some? ==>
          Cached(rows, project, iid).value.fields == refetch(iid).value.fields)
  }

  /** The row is cached as opened and not listed. */
  predicate Refetchable(rows: seq<Row>, project: string, listing: seq<Snapshot>, iid: int) {
    && Cached(rows, project, iid).Some? && Cached(rows, project, iid).value.fields.state == "opened"
    && !Listed(listing, iid)
  }

  lemma StaleIffRefetchable(rows: seq<Row>, project: string, listing: seq<Snapshot>, iid: int)
    requires Unique(rows)
    ensures iid in StaleIids(rows, project, listing) <==> Refetchable(rows, project, listing, iid)
  {
    var k := FindRow(rows, project, iid);
    if iid in StaleIids(rows, project, listing) {
      var i :| 0 <= i < |rows| && rows[i].project == project && rows[i].fields.state == "opened"
        && rows[i].iid == iid && !Listed(listing, iid);
      assert k == Some(i);
    }
  }

  lemma LastOfDistinct(snaps: seq<Snapshot>, k: nat)
    requires DistinctIids(snaps) && k < |snaps|
    ensures LastOf(snaps, snaps[k].iid) == Some(snaps[k])
  {
    LastOfListed(snaps, snaps[k].iid);
  }

  /** One sync leaves the cache settled against the same upstream. */
  lemma SyncSettles(
    rows: seq<Row>, project: string, listing: seq<Snapshot>, refetch: int -> Option<Snapshot>, now: int)
    requires Unique(rows) && DistinctIids(listing) && Answers(refetch)
    ensures Settled(SyncRows(rows, project, listing, refetch, now), project, listing, refetch)
  {
    var mid := AfterListing(rows, project, listing, now);
    var again := SecondRound(rows, project, listing, refetch, now);
    var done := SyncRows(rows, project, listing, refetch, now);
    forall k | 0 <= k < |listing| ensures UpToDate(done, project, listing[k]) {
      assert Listed(listing, listing[k].iid);
      ListedRowsAreCurrent(rows, project, listing, refetch, now, listing[k].iid);
      LastOfDistinct(listing, k);
    }
    UpsertAllKeeps(rows, project, listing, now);
    SecondRoundIsUnlisted(rows, project, listing, refetch, now);
    forall iid | Refetchable(done, project, listing, iid) && refetch(iid).Some?
      ensures Cached(done, project, iid).value.fields == refetch(iid).value.fields
    {
      UpsertAllCached(mid, project, again, now, iid);
      StaleIffRefetchable(mid, project, listing, iid);
      assert AnswersFor(refetch, iid);
      RefetchedIncludes(StaleIids(mid, project, listing), refetch, iid);
      LastOfListed(again, iid);
    }
  }

  lemma ListedAppend(snaps: seq<Snapshot>, last: Snapshot, iid: int)
    ensures Listed(snaps + [last], iid) <==> Listed(snaps, iid) || last.iid == iid
  {
    var all := snaps + [last];
    assert all[|snaps|] == last;
    if Listed(snaps, iid) {
      var k :| 0 <= k < |snaps| && snaps[k].iid == iid;
      assert all[k].iid == iid;
    }
  }

  /** A refetch that succeeds is among the refetched snapshots. */
  lemma {:induction false} RefetchedIncludes(iids: seq<int>, refetch: int -> Option<Snapshot>, iid: int)
    requires AnswersFor(refetch, iid) && refetch(iid).Some?
    ensures iid in iids ==> Listed(Refetched(iids, refetch), iid)
    decreases |iids|
  {
    if iids != [] {
      var n := |iids| - 1;
      RefetchedIncludes(iids[..n], refetch, iid);
      var snap := refetch(iids[n]);
      if snap.Some? {
        ListedAppend(Refetched(iids[..n], refetch), snap.value, iid);
      }
    }
  }

  /** A sync of a settled cache reports nothing added and nothing updated. */
  lemma SettledSyncIsQuiet(
    rows: seq<Row>, project: string, listing: seq<Snapshot>, refetch: int -> Option<Snapshot>, now: int)
    requires Unique(rows) && Answers(refetch) && Settled(rows, project, listing, refetch)
    ensures Count(rows, project, listing, now, Unchanged) == |listing|
    ensures var mid := AfterListing(rows, project, listing, now);
            var again := SecondRound(rows, project, listing, refetch, now);
            Count(mid, project, again, now, Unchanged) == |again|
  {
    var mid := AfterListing(rows, project, listing, now);
    var again := SecondRound(rows, project, listing, refetch, now);
    QuietUpserts(rows, project, listing, now);
    UpsertAllKeeps(rows, project, listing, now);
    SecondRoundIsUnlisted(rows, project, listing, refetch, now);
    forall k | 0 <= k < |again| ensures UpToDate(mid, project, again[k]) {
      var iid := again[k].iid;
      StaleIffRefetchable(mid, project, listing, iid);
      assert SameFields(rows, mid, project, iid);
      assert Refetchable(rows, project, listing, iid);
    }
    QuietUpserts(mid, project, again, now);
  }

  /**
    A second sync against an unchanged upstream with distinct iids reports 0 added and 0
    updated: everything it looks at counts as unchanged.
   */
  lemma SecondSyncReportsNothing(
    rows: seq<Row>, project: string, listing: seq<Snapshot>, refetch: int -> Option<Snapshot>, now: int, later: int)
    requires Unique(rows) && DistinctIids(listing) && Answers(refetch)
    ensures var first := SyncRows(rows, project, listing, refetch, now);
            var mid := AfterListing(first, project, listing, later);
            var again := SecondRound(first, project, listing, refetch, later);
            && Count(first, project, listing, later, Added) == 0
            && Count(first, project, listing, later, Updated) + Count(mid, project, again, later, Updated) == 0
  {
    var first := SyncRows(rows, project, listing, refetch, now);
    SyncKeeps(rows, project, listing, refetch, now);
    SyncSettles(rows, project, listing, refetch, now);
    SettledSyncIsQuiet(first, project, listing, refetch, later);
    CountsAddUp(first, project, listing, later);
    CountsAddUp(AfterListing(first, project, listing, later), project,
                SecondRound(first, project, listing, refetch, later), later);
  }

  /** One turn of the refetch loop. */
  lemma RefetchedStep(
    rows: seq<Row>, project: string, iids: seq<int>, k: nat, refetch: int -> Option<Snapshot>, now: int)
    requires k < |iids|
    ensures var before, snap := Refetched(iids[..k], refetch), refetch(iids[k]);
            var after := Refetched(iids[..k + 1], refetch);
            if snap.None? then after == before
            else
              && after == before + [snap.value]
              && UpsertAll(rows, project, after, now)
                 == Upsert(UpsertAll(rows, project, before, now), project, snap.value, now)
              && Count(rows, project, after, now, Updated) == Count(rows, project, before, now, Updated)
                 + if KindOf(UpsertAll(rows, project, before, now), project, snap.value) == Updated then 1 else 0
  {
    assert iids[..k + 1][..k] == iids[..k];
    var before, snap := Refetched(iids[..k], refetch), refetch(iids[k]);
    if snap.Some? {
      assert (before + [snap.value])[..|before|] == before;
    }
  }

  // ---------------------------------------------------------------- the sync as it runs

  /** listing None stands for a GitLab or transport error; refetch None likewise. */
  class MrCache {
    var rows: seq<Row>

    constructor ()
      ensures rows == []
    {
      rows := [];
    }

    method UpsertSnapshot(project: string, snap: Snapshot, now: int) returns (kind: Kind)
      modifies this
      ensures kind == KindOf(old(rows), project, snap)
      ensures rows == Upsert(old(rows), project, snap, now)
    {
      var k := FindRow(rows, project, snap.iid);
      if k.None? {
        rows := rows + [Row(project, snap.iid, snap.fields, now)];
        return Added;
      }
      var existing := rows[k.value];
      var changed := existing.fields != snap.fields;
      if changed {
        existing := existing.(fields := snap.fields);
      }
      rows := rows[k.value := existing.(lastSeen := now)];
      return if changed then Updated else Unchanged;
    }

    method SyncOpenMrs(
      configured: bool, project: string, listing: Option<seq<Snapshot>>,
      refetch: int -> Option<Snapshot>, now: int)
      returns (added: nat, updated: nat, same: nat, ok: bool)
      modifies this
      ensures ok <==> configured && listing.Some?
      ensures !ok ==> rows == old(rows) && added == updated == same == 0
      ensures ok ==>
                && var snaps := listing.value;
                   var mid := AfterListing(old(rows), project, snaps, now);
                   var again := SecondRound(old(rows), project, snaps, refetch, now);
                   && rows == SyncRows(old(rows), project, snaps, refetch, now)
                   && added == Count(old(rows), project, snaps, now, Added) == |NewIids(old(rows), project, snaps)|
                   && updated == Count(old(rows), project, snaps, now, Updated)
                                 + Count(mid, project, again, now, Updated)
                   && added + updated + same == |snaps| + |again|
    {
      added, updated, same, ok := 0, 0, 0, false;
      if !configured || listing.None? {
        return;
      }
      ok := true;
      var snaps := listing.value;
      ghost var rows0 := rows;
      for k := 0 to |snaps|
        invariant rows == UpsertAll(rows0, project, snaps[..k], now)
        invariant added == Count(rows0, project, snaps[..k], now, Added)
        invariant updated == Count(rows0, project, snaps[..k], now, Updated)
        invariant same == Count(rows0, project, snaps[..k], now, Unchanged)
      {
        assert snaps[..k + 1][..k] == snaps[..k];
        var kind := UpsertSnapshot(project, snaps[k], now);
        match kind
        case Added => added := added + 1;
        case Updated => updated := updated + 1;
        case Unchanged => same := same + 1;
      }
      assert snaps[..|snaps|] == snaps;
      CountsAddUp(rows0, project, snaps, now);
      AddedAreTheNew(rows0, project, snaps, now);
      var updatedAgain, rest := Reconcile(project, snaps, refetch, now);
      updated, same := updated + updatedAgain, same + rest;
    }

    /** The second loop: refetch what is cached as opened but no longer listed. */
    method Reconcile(project: string, snaps: seq<Snapshot>, refetch: int -> Option<Snapshot>, now: int)
      returns (updated: nat, others: nat)
      modifies this
      ensures var again := Refetched(StaleIids(old(rows), project, snaps), refetch);
              && rows == UpsertAll(old(rows), project, again, now)
              && updated == Count(old(rows), project, again, now, Updated)
              && updated + others == |again|
    {
      var stale := StaleIids(rows, project, snaps);
      ghost var mid := rows;
      updated, others := 0, 0;
      for k := 0 to |stale|
        invariant rows == UpsertAll(mid, project, Refetched(stale[..k], refetch), now)
        invariant updated == Count(mid, project, Refetched(stale[..k], refetch), now, Updated)
        invariant updated + others == |Refetched(stale[..k], refetch)|
      {
        RefetchedStep(mid, project, stale, k, refetch, now);
        var snap := refetch(stale[k]);
        if snap.None? {
          continue;
        }
        var kind := UpsertSnapshot(project, snap.value, now);
        if kind == Updated {
          updated := updated + 1;
        } else {
          others := others + 1;
        }
      }
      assert stale[..|stale|] == stale;
    }
  }
}
