/**
 * The client's snapshot history: an append-only list of snapshots, a cursor
 * naming the snapshot on display (-1 for none) and the working map from marker
 * id to marker. A change is accepted only at the newest snapshot; while an older
 * one is on display, adding and deleting are refused and nothing changes.
 */
module MarkerManagement {
  import opened Wrappers
  import opened QtTypes
  import opened MarkerData
  import opened SnapshotData

  /** Every entry of the working map is filed under its own marker's id. */
  ghost predicate IdKeyed(m: map<string, Marker>) {
    forall k :: k in m ==> m[k].id == k
  }

  ghost function Ids(ms: seq<Marker>): set<string> {
    set i | 0 <= i < |ms| :: ms[i].id
  }

  /**
   * The working map rebuilt from a marker list: cleared, then `m[marker.id] = marker`
   * for each marker in order, so a later marker with the same id replaces an earlier one.
   */
  ghost function MapOf(ms: seq<Marker>): (m: map<string, Marker>)
    ensures m.Keys == Ids(ms)
    ensures IdKeyed(m)
  {
    if ms == [] then map[]
    else
      var last := ms[|ms| - 1];
      assert Ids(ms) == Ids(ms[..|ms| - 1]) + {last.id} by {
        forall k | k in Ids(ms) ensures k in Ids(ms[..|ms| - 1]) + {last.id} {
          var i :| 0 <= i < |ms| && ms[i].id == k;
          if i < |ms| - 1 { assert ms[..|ms| - 1][i] == ms[i]; }
        }
      }
      MapOf(ms[..|ms| - 1])[last.id := last]
  }

  /** The map keeps, for each id, the last marker in the list that carries it. */
  lemma {:induction false} MapOfKeepsLast(ms: seq<Marker>, i: int)
    requires 0 <= i < |ms|
    requires forall j :: i < j < |ms| ==> ms[j].id != ms[i].id
    ensures MapOf(ms)[ms[i].id] == ms[i]
    decreases |ms|
  {
    if i < |ms| - 1 {
      var init := ms[..|ms| - 1];
      assert init[i] == ms[i];
      forall j | i < j < |init| ensures init[j].id != init[i].id {
        assert init[j] == ms[j];
      }
      MapOfKeepsLast(init, i);
    }
  }

  /** `s` lists exactly the values of `m`, each once, in some order (what `values()` returns). */
  ghost predicate Enumerates(s: seq<Marker>, m: map<string, Marker>) {
    && |s| == |m|
    && (forall i :: 0 <= i < |s| ==> s[i].id in m && m[s[i].id] == s[i])
    && (forall i, j :: 0 <= i < j < |s| ==> s[i].id != s[j].id)
  }

  /** Dropping the last listed marker leaves a listing of the map without it. */
  lemma EnumerationDropLast(s: seq<Marker>, m: map<string, Marker>)
    requires Enumerates(s, m) && |s| > 0
    ensures Enumerates(s[..|s| - 1], m - {s[|s| - 1].id})
  {
    var x := s[|s| - 1];
    var init := s[..|s| - 1];
    var rest := m - {x.id};
    assert rest.Keys == m.Keys - {x.id};
    assert |rest.Keys| == |m.Keys| - 1;
    forall i | 0 <= i < |init| ensures init[i].id in rest && rest[init[i].id] == init[i] {
      assert init[i] == s[i];
    }
    forall i, j | 0 <= i < j < |init| ensures init[i].id != init[j].id {
      assert init[i] == s[i] && init[j] == s[j];
    }
  }

  /** Rebuilding the map from any listing of its values gives the same map back. */
  lemma {:induction false} EnumerationRebuildsMap(s: seq<Marker>, m: map<string, Marker>)
    requires Enumerates(s, m)
    ensures MapOf(s) == m
    decreases |s|
  {
    if s == [] {
      assert |m.Keys| == 0;
      assert m == map[];
    } else {
      var x := s[|s| - 1];
      var rest := m - {x.id};
      EnumerationDropLast(s, m);
      EnumerationRebuildsMap(s[..|s| - 1], rest);
      assert x.id in m && m[x.id] == x;
      assert rest[x.id := x] == m;
    }
  }

  /** A listing of the values misses none of them. */
  lemma EnumerationListsEveryValue(s: seq<Marker>, m: map<string, Marker>, k: string)
    requires Enumerates(s, m)
    requires k in m
    ensures exists i :: 0 <= i < |s| && s[i] == m[k]
  {
    EnumerationRebuildsMap(s, m);
    assert k in Ids(s);
    var i :| 0 <= i < |s| && s[i].id == k;
    assert s[i] == m[k];
  }

  /** `values()`: the working map's markers, in an order this model leaves unspecified. */
  method Values(m: map<string, Marker>) returns (s: seq<Marker>)
    requires IdKeyed(m)
    ensures Enumerates(s, m)
  {
    s := [];
    var rest := m.Keys;
    while rest != {}
      invariant rest <= m.Keys
      invariant |s| + |rest| == |m|
      invariant forall i :: 0 <= i < |s| ==> s[i].id in m && s[i].id !in rest && m[s[i].id] == s[i]
      invariant forall i, j :: 0 <= i < j < |s| ==> s[i].id != s[j].id
      decreases |rest|
    {
      var k :| k in rest;
      s := s + [m[k]];
      rest := rest - {k};
    }
  }

  /** Clears a working map and refills it from a snapshot's markers, one at a time. */
  method MapFromMarkers(ms: seq<Marker>) returns (m: map<string, Marker>)
    ensures m == MapOf(ms)
  {
    m := map[];
    var i := 0;
    while i < |ms|
      invariant 0 <= i <= |ms|
      invariant m == MapOf(ms[..i])
    {
      assert ms[..i + 1][..i] == ms[..i];
      m := m[ms[i].id := ms[i]];
      i := i + 1;
    }
    assert ms[..|ms|] == ms;
  }

  /** The first marker of the list with the given id, if any (the scan in `findMarker`). */
  function FirstWithId(ms: seq<Marker>, id: string): (r: Option<Marker>)
    ensures r.None? <==> forall i :: 0 <= i < |ms| ==> ms[i].id != id
    ensures r.Some? ==> exists i :: 0 <= i < |ms| && ms[i] == r.value && ms[i].id == id &&
                                    forall j :: 0 <= j < i ==> ms[j].id != id
  {
    if ms == [] then None
    else if ms[0].id == id then Some(ms[0])
    else
      var r := FirstWithId(ms[1..], id);
      assert forall i :: 1 <= i < |ms| ==> ms[1..][i - 1] == ms[i];
      r
  }

  /** A snapshot never holds a marker that the map rebuilt from it lacks. */
  lemma FirstWithIdAbsent(ms: seq<Marker>, id: string)
    requires id !in MapOf(ms)
    ensures FirstWithId(ms, id) == None
  {
    forall i | 0 <= i < |ms| ensures ms[i].id != id {
      assert ms[i].id in Ids(ms);
    }
  }

  class MarkerManager {
    var snapshots: seq<Snapshot>
    var currentIndex: int
    var currentMarkers: map<string, Marker>

    /** Holds at every step, even between assignments of a wholesale load. */
    ghost predicate Sound()
      reads this
    {
      currentIndex >= -1 && IdKeyed(currentMarkers)
    }

    /**
     * The object invariant: with any history, the cursor names one of its snapshots and the
     * working map is that snapshot's markers. An empty history leaves both as they were.
     */
    ghost predicate Valid()
      reads this
    {
      && Sound()
      && (|snapshots| > 0 ==>
            0 <= currentIndex < |snapshots| &&
            currentMarkers == MapOf(snapshots[currentIndex].markers))
    }

    /** The cursor names an existing snapshot. */
    predicate Viewing()
      reads this
    {
      0 <= currentIndex < |snapshots|
    }

    /** An older snapshot than the newest is on display. */
    predicate Browsing()
      reads this
    {
      0 <= currentIndex < |snapshots| - 1
    }

    ghost function Tip(): Snapshot
      reads this
      requires |snapshots| > 0
    {
      snapshots[|snapshots| - 1]
    }

    constructor ()
      ensures Valid()
      ensures snapshots == [] && currentIndex == -1 && currentMarkers == map[]
    {
      snapshots := [];
      currentIndex := -1;
      currentMarkers := map[];
    }

    /**
     * Adds `marker` (replacing any marker with its id) and records the change as a
     * new newest snapshot; refused, with nothing changed, while browsing.
     */
    method AddMarker(marker: Marker, createdBy: string, now: DateTime) returns (ok: bool)
      requires Valid()
      modifies this
      ensures Valid()
      ensures ok <==> !old(Browsing())
      ensures !ok ==> snapshots == old(snapshots) && currentIndex == old(currentIndex)
                      && currentMarkers == old(currentMarkers)
      ensures ok ==> |snapshots| == |old(snapshots)| + 1 && snapshots[..|old(snapshots)|] == old(snapshots)
      ensures ok ==> currentIndex == |snapshots| - 1
      ensures ok ==> currentMarkers == old(currentMarkers)[marker.id := marker]
      ensures ok && |old(snapshots)| > 0 ==>
                currentMarkers == MapOf(old(snapshots)[|old(snapshots)| - 1].markers)[marker.id := marker]
      ensures ok ==> Enumerates(Tip().markers, currentMarkers)
      ensures ok ==> Tip().timestamp == now && Tip().description == Describe(AddPrefix, marker.note, createdBy)
    {
      if Browsing() {
        return false;
      }
      if |snapshots| > 0 {
        RestoreLatestSnapshot();
      }
      currentMarkers := currentMarkers[marker.id := marker];
      var description := Describe(AddPrefix, marker.note, createdBy);
      CreateSnapshot(description, now);
      ok := true;
    }

    /**
     * Removes the marker with id `markerId` and records the change as a new newest
     * snapshot; refused, with nothing changed, when the id is not in the working map
     * (checked first) or while browsing.
     */
    method DeleteMarker(markerId: string, deletedBy: string, now: DateTime) returns (ok: bool)
      requires Valid()
      modifies this
      ensures Valid()
      ensures ok <==> markerId in old(currentMarkers) && !old(Browsing())
      ensures !ok ==> snapshots == old(snapshots) && currentIndex == old(currentIndex)
                      && currentMarkers == old(currentMarkers)
      ensures ok ==> |snapshots| == |old(snapshots)| + 1 && snapshots[..|old(snapshots)|] == old(snapshots)
      ensures ok ==> currentIndex == |snapshots| - 1
      ensures ok ==> currentMarkers == old(currentMarkers) - {markerId}
      ensures ok && |old(snapshots)| > 0 ==>
                currentMarkers == MapOf(old(snapshots)[|old(snapshots)| - 1].markers) - {markerId}
      ensures ok ==> Enumerates(Tip().markers, currentMarkers)
      ensures ok ==> Tip().timestamp == now &&
                     Tip().description == Describe(DeletePrefix, old(currentMarkers)[markerId].note, deletedBy)
    {
      if markerId !in currentMarkers {
        return false;
      }
      if Browsing() {
        return false;
      }
      if |snapshots| > 0 {
        RestoreLatestSnapshot();
      }
      var marker := currentMarkers[markerId];
      currentMarkers := currentMarkers - {markerId};
      var description := Describe(DeletePrefix, marker.note, deletedBy);
      CreateSnapshot(description, now);
      ok := true;
    }

    /**
     * The markers on display: those of the snapshot under the cursor, or the working
     * map's values when the cursor names none. Either way they rebuild the working map.
     */
    method CurrentMarkers() returns (r: seq<Marker>)
      requires Valid()
      ensures Viewing() ==> r == snapshots[currentIndex].markers
      ensures !Viewing() ==> Enumerates(r, currentMarkers)
      ensures MapOf(r) == currentMarkers
    {
      if 0 <= currentIndex < |snapshots| {
        return snapshots[currentIndex].markers;
      }
      r := Values(currentMarkers);
      EnumerationRebuildsMap(r, currentMarkers);
    }

    /**
     * Looks `markerId` up in the working map, then in the snapshot under the cursor;
     * an empty-id marker when neither has it.
     */
    method FindMarker(markerId: string, qt: Qt) returns (r: Marker)
      ensures markerId in currentMarkers ==> r == currentMarkers[markerId]
      ensures markerId !in currentMarkers && Viewing()
              && FirstWithId(snapshots[currentIndex].markers, markerId).Some? ==>
                r == FirstWithId(snapshots[currentIndex].markers, markerId).value
      ensures markerId !in currentMarkers
              && (!Viewing() || FirstWithId(snapshots[currentIndex].markers, markerId).None?) ==>
                r == DefaultMarker(qt)
    {
      if markerId in currentMarkers {
        return currentMarkers[markerId];
      }
      if 0 <= currentIndex < |snapshots| {
        var markers := snapshots[currentIndex].markers;
        var i := 0;
        while i < |markers|
          invariant 0 <= i <= |markers|
          invariant FirstWithId(markers, markerId) == FirstWithId(markers[i..], markerId)
        {
          if markers[i].id == markerId {
            return markers[i];
          }
          assert markers[i..][1..] == markers[i + 1..];
          i := i + 1;
        }
        assert markers[i..] == [];
      }
      return DefaultMarker(qt);
    }

    /** Under the invariant the snapshot scan of `FindMarker` never finds what the working map lacks. */
    lemma FindMarkerFallbackFindsNothing(markerId: string)
      requires Valid()
      requires markerId !in currentMarkers && Viewing()
      ensures FirstWithId(snapshots[currentIndex].markers, markerId) == None
    {
      FirstWithIdAbsent(snapshots[currentIndex].markers, markerId);
    }

    /**
     * Puts snapshot `index` on display and rebuilds the working map from it; an
     * out-of-range index changes nothing. The history itself is never touched.
     */
    method RestoreSnapshot(index: int) returns (ok: bool)
      requires Sound()
      modifies this
      ensures Sound()
      ensures ok <==> 0 <= index < |old(snapshots)|
      ensures snapshots == old(snapshots)
      ensures ok ==> Valid() && currentIndex == index && currentMarkers == MapOf(snapshots[index].markers)
      ensures !ok ==> currentIndex == old(currentIndex) && currentMarkers == old(currentMarkers)
      ensures old(Valid()) ==> Valid()
    {
      if index < 0 || index >= |snapshots| {
        return false;
      }
      currentIndex := index;
      var snapshot := snapshots[index];
      currentMarkers := MapFromMarkers(snapshot.markers);
      ok := true;
    }

    /** Puts the newest snapshot on display; does nothing on an empty history. */
    method RestoreLatestSnapshot()
      requires Sound()
      modifies this
      ensures Valid()
      ensures snapshots == old(snapshots)
      ensures |snapshots| == 0 ==> currentIndex == old(currentIndex) && currentMarkers == old(currentMarkers)
      ensures |snapshots| > 0 ==> currentIndex == |snapshots| - 1 && currentMarkers == MapOf(Tip().markers)
    {
      if |snapshots| == 0 {
        return;
      }
      var _ := RestoreSnapshot(|snapshots| - 1);
    }

    /** The snapshot that `createSnapshot` would append: the working map's markers, stamped and described. */
    method CreateSnapshotInternal(description: string, now: DateTime) returns (snapshot: Snapshot)
      requires IdKeyed(currentMarkers)
      ensures snapshot.timestamp == now && snapshot.description == description
      ensures Enumerates(snapshot.markers, currentMarkers)
    {
      var markers := Values(currentMarkers);
      snapshot := Snapshot(now, markers, description);
    }

    /** Appends a snapshot of the working map, moves the cursor to it and rebuilds the map from it. */
    method CreateSnapshot(description: string, now: DateTime)
      requires IdKeyed(currentMarkers)
      modifies this
      ensures Valid()
      ensures |snapshots| == |old(snapshots)| + 1 && snapshots[..|old(snapshots)|] == old(snapshots)
      ensures currentIndex == |snapshots| - 1
      ensures currentMarkers == old(currentMarkers)
      ensures Enumerates(Tip().markers, currentMarkers)
      ensures Tip().timestamp == now && Tip().description == description
    {
      var snapshot := CreateSnapshotInternal(description, now);
      snapshots := snapshots + [snapshot];
      currentIndex := |snapshots| - 1;
      currentMarkers := MapFromMarkers(snapshot.markers);
      EnumerationRebuildsMap(snapshot.markers, old(currentMarkers));
    }

    /** The snapshot at `index`, or an empty default one when `index` is out of range. */
    function SnapshotAt(index: int, qt: Qt): (r: Snapshot)
      reads this
      ensures 0 <= index < |snapshots| ==> r == snapshots[index]
      ensures !(0 <= index < |snapshots|) ==> r == DefaultSnapshot(qt)
    {
      if index < 0 || index >= |snapshots| then DefaultSnapshot(qt) else snapshots[index]
    }

    /**
     * Replaces the whole history (after a fetch from the server) and shows its newest
     * snapshot; an empty list leaves the cursor and the working map as they were.
     */
    method LoadFromSnapshots(list: seq<Snapshot>)
      requires Valid()
      modifies this
      ensures Valid()
      ensures snapshots == list
      ensures |list| > 0 ==> currentIndex == |list| - 1 && currentMarkers == MapOf(list[|list| - 1].markers)
      ensures |list| == 0 ==> currentIndex == old(currentIndex) && currentMarkers == old(currentMarkers)
    {
      snapshots := list;
      if |snapshots| > 0 {
        RestoreLatestSnapshot();
      }
    }
  }

  /** Two additions to a fresh manager: two snapshots, the second holding both markers. */
  method TwoAdditions(m1: Marker, m2: Marker, t1: DateTime, t2: DateTime)
    returns (manager: MarkerManager)
    requires m1.id != m2.id
    ensures fresh(manager) && manager.Valid()
    ensures |manager.snapshots| == 2 && manager.currentIndex == 1
    ensures MapOf(manager.snapshots[0].markers) == map[m1.id := m1]
    ensures manager.currentMarkers == map[m1.id := m1][m2.id := m2]
  {
    manager := new MarkerManager();
    var ok := manager.AddMarker(m1, "", t1);
    assert ok && |manager.snapshots| == 1;
    ghost var first := manager.snapshots[0];
    EnumerationRebuildsMap(first.markers, map[m1.id := m1]);

    ok := manager.AddMarker(m2, "", t2);
    assert ok && |manager.snapshots| == 2 && manager.snapshots[0] == first;
  }

  /** A look back at the first of two snapshots, where a deletion is refused. */
  method RefusedWhileBrowsing(manager: MarkerManager, m1: Marker, t: DateTime)
    requires manager.Valid() && |manager.snapshots| == 2 && manager.currentIndex == 1
    requires MapOf(manager.snapshots[0].markers) == map[m1.id := m1]
    modifies manager
    ensures manager.Valid() && manager.snapshots == old(manager.snapshots)
    ensures manager.currentIndex == 0 && manager.currentMarkers == map[m1.id := m1]
  {
    var ok := manager.RestoreSnapshot(0);
    assert ok && manager.Browsing();
    ok := manager.DeleteMarker(m1.id, "", t);
    assert !ok;
  }

  /**
   * Two additions, a look back at the first snapshot, a deletion refused while
   * browsing, and the same deletion accepted once the newest snapshot is back on display.
   */
  method BrowsingScenario(m1: Marker, m2: Marker, t1: DateTime, t2: DateTime, t3: DateTime)
    requires m1.id != m2.id
  {
    var manager := TwoAdditions(m1, m2, t1, t2);
    ghost var before := manager.currentMarkers;
    RefusedWhileBrowsing(manager, m1, t3);

    manager.RestoreLatestSnapshot();
    assert manager.currentMarkers == before;

    var ok := manager.DeleteMarker(m1.id, "", t3);
    assert ok && |manager.snapshots| == 3 && manager.currentIndex == 2;
    assert manager.currentMarkers == before - {m1.id};
  }
}
