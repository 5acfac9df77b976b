/**
 * The folder operations of the folders screen, stated on the values of the
 * records: deleting a folder (a bulk removal), renaming a folder (a bulk
 * update of the `folder` field) and deleting one record.
 */
module FolderOps {
  import opened DataItem
  import opened Grouping

  /** The records left after every record of folder `name` is deleted. */
  function OutsideFolder(scans: seq<Scan>, name: string): (r: seq<Scan>)
    ensures forall x :: x in r <==> x in scans && x.folder != name
  {
    if scans == [] then []
    else (if scans[0].folder != name then [scans[0]] else []) + OutsideFolder(scans[1..], name)
  }

  lemma {:induction false} OutsideFolderGroup(scans: seq<Scan>, name: string, k: string)
    ensures InFolder(OutsideFolder(scans, name), k) == if k == name then [] else InFolder(scans, k)
    decreases |scans|
  {
    if scans != [] {
      OutsideFolderGroup(scans[1..], name, k);
      var head := if scans[0].folder != name then [scans[0]] else [];
      var rest := OutsideFolder(scans[1..], name);
      if head == [] {
        assert OutsideFolder(scans, name) == rest;
      } else {
        assert OutsideFolder(scans, name) == [scans[0]] + rest;
        assert ([scans[0]] + rest)[1..] == rest;
      }
    }
  }

  /**
   * Deleting folder `name` removes exactly its group from the folder view and
   * leaves every other group as it was.
   */
  lemma DeleteFolderGroups(scans: seq<Scan>, name: string)
    ensures Grouped(OutsideFolder(scans, name)) == Grouped(scans) - {name}
  {
    var rest := OutsideFolder(scans, name);
    FoldersOutside(scans, name);
    var g, g' := Grouped(scans), Grouped(rest);
    forall k | k in g' ensures g'[k] == (g - {name})[k] {
      OutsideFolderGroup(scans, name, k);
    }
  }

  lemma FoldersOutside(scans: seq<Scan>, name: string)
    ensures Folders(OutsideFolder(scans, name)) == Folders(scans) - {name}
  {
    var rest := OutsideFolder(scans, name);
    forall k | k in Folders(rest) ensures k in Folders(scans) && k != name {
      var x :| x in rest && x.folder == k;
    }
    forall k | k in Folders(scans) && k != name ensures k in Folders(rest) {
      var x :| x in scans && x.folder == k;
      assert x in rest;
    }
  }

  /** Deleting a folder nobody uses changes nothing. */
  lemma DeleteUnknownFolder(scans: seq<Scan>, name: string)
    requires name !in Folders(scans)
    ensures OutsideFolder(scans, name) == scans
  {
    forall i | 0 <= i < |scans| ensures scans[i].folder != name {
      assert scans[i] in scans;
    }
    KeepAllOutside(scans, name);
  }

  lemma {:induction false} KeepAllOutside(scans: seq<Scan>, name: string)
    requires forall i :: 0 <= i < |scans| ==> scans[i].folder != name
    ensures OutsideFolder(scans, name) == scans
    decreases |scans|
  {
    if scans != [] {
      KeepAllOutside(scans[1..], name);
      assert scans == [scans[0]] + scans[1..];
    }
  }

  /** A record moved to folder `to`. */
  function Moved(s: Scan, to: string): (m: Scan)
    ensures m.folder == to && m.id == s.id && m.diagnosis == s.diagnosis && m.image == s.image && m.date == s.date
  {
    s.(folder := to)
  }

  /** The records after every record of folder `from` is moved to folder `to`. */
  function Renamed(scans: seq<Scan>, from: string, to: string): (r: seq<Scan>)
    ensures |r| == |scans|
    ensures forall i :: 0 <= i < |scans| ==> r[i] == if scans[i].folder == from then Moved(scans[i], to) else scans[i]
  {
    if scans == [] then []
    else [if scans[0].folder == from then Moved(scans[0], to) else scans[0]] + Renamed(scans[1..], from, to)
  }

  /** Every record moved to folder `to`. */
  function AllMoved(scans: seq<Scan>, to: string): (r: seq<Scan>)
    ensures |r| == |scans|
    ensures forall i :: 0 <= i < |scans| ==> r[i] == Moved(scans[i], to)
  {
    if scans == [] then [] else [Moved(scans[0], to)] + AllMoved(scans[1..], to)
  }

  /** The records of folder `a` or folder `b`, in store order. */
  function InEither(scans: seq<Scan>, a: string, b: string): (r: seq<Scan>)
    ensures forall x :: x in r <==> x in scans && (x.folder == a || x.folder == b)
  {
    if scans == [] then []
    else (if scans[0].folder == a || scans[0].folder == b then [scans[0]] else []) + InEither(scans[1..], a, b)
  }

  /** The record count and every field other than `folder` are kept by a rename. */
  lemma RenameKeepsRecords(scans: seq<Scan>, from: string, to: string)
    ensures |Renamed(scans, from, to)| == |scans|
    ensures forall i :: 0 <= i < |scans| ==>
      var r := Renamed(scans, from, to)[i];
      r.id == scans[i].id && r.diagnosis == scans[i].diagnosis && r.image == scans[i].image && r.date == scans[i].date
    ensures UniqueIds(scans) ==> UniqueIds(Renamed(scans, from, to))
    ensures Ids(Renamed(scans, from, to)) == Ids(scans)
  {
    var r := Renamed(scans, from, to);
    forall id | id in Ids(scans) ensures id in Ids(r) {
      var i :| 0 <= i < |scans| && scans[i].id == id;
      assert r[i] in r;
    }
    forall id | id in Ids(r) ensures id in Ids(scans) {
      var i :| 0 <= i < |r| && r[i].id == id;
      assert scans[i] in scans;
    }
  }

  /** Renaming a folder to its own name changes nothing. */
  lemma RenameToSame(scans: seq<Scan>, name: string)
    ensures Renamed(scans, name, name) == scans
  {
  }

  lemma {:induction false} RenamedOtherGroup(scans: seq<Scan>, a: string, b: string, k: string)
    requires k != a && k != b
    ensures InFolder(Renamed(scans, a, b), k) == InFolder(scans, k)
    decreases |scans|
  {
    if scans != [] {
      RenamedOtherGroup(scans[1..], a, b, k);
      var r := Renamed(scans, a, b);
      assert r == [r[0]] + Renamed(scans[1..], a, b);
    }
  }

  lemma {:induction false} RenamedTargetGroup(scans: seq<Scan>, a: string, b: string)
    ensures InFolder(Renamed(scans, a, b), b) == AllMoved(InEither(scans, a, b), b)
    decreases |scans|
  {
    if scans != [] {
      RenamedTargetGroup(scans[1..], a, b);
      var r := Renamed(scans, a, b);
      assert r == [r[0]] + Renamed(scans[1..], a, b);
      var e := InEither(scans[1..], a, b);
      if scans[0].folder == a || scans[0].folder == b {
        assert InEither(scans, a, b) == [scans[0]] + e;
        assert AllMoved([scans[0]] + e, b) == [Moved(scans[0], b)] + AllMoved(e, b);
      } else {
        assert InEither(scans, a, b) == e;
      }
    }
  }

  /**
   * Renaming folder `a` to `b` merges the two: afterwards no group is named
   * `a`, group `b` holds the records of both old groups in store order (all
   * now filed under `b`), and every other group is unchanged.
   */
  lemma RenameMergesGroups(scans: seq<Scan>, a: string, b: string)
    requires a != b
    ensures a !in Grouped(Renamed(scans, a, b))
    ensures b in Grouped(Renamed(scans, a, b)) <==> a in Grouped(scans) || b in Grouped(scans)
    ensures b in Grouped(Renamed(scans, a, b)) ==> Grouped(Renamed(scans, a, b))[b] == AllMoved(InEither(scans, a, b), b)
    ensures forall k :: k != a && k != b ==> (k in Grouped(Renamed(scans, a, b)) <==> k in Grouped(scans))
    ensures forall k :: k != a && k != b && k in Grouped(scans) ==> Grouped(Renamed(scans, a, b))[k] == Grouped(scans)[k]
  {
    var r := Renamed(scans, a, b);
    var g, g' := Grouped(scans), Grouped(r);
    RenamedFolders(scans, a, b);
    assert b in g' ==> g'[b] == AllMoved(InEither(scans, a, b), b) by {
      RenamedTargetGroup(scans, a, b);
    }
    forall k | k != a && k != b && k in g ensures g'[k] == g[k] {
      RenamedOtherGroup(scans, a, b, k);
    }
  }

  /**
   * The merged group `b` is the old group `b` plus the old group `a` moved to
   * `b`: its size is the sum of the two, and it holds exactly their records.
   */
  lemma RenameMergeContents(scans: seq<Scan>, a: string, b: string)
    requires a != b
    ensures |InFolder(Renamed(scans, a, b), b)| == |InFolder(scans, a)| + |InFolder(scans, b)|
    ensures forall x :: x in InFolder(Renamed(scans, a, b), b) <==>
      x in InFolder(scans, b) || x in AllMoved(InFolder(scans, a), b)
  {
    RenamedTargetGroup(scans, a, b);
    InEitherSize(scans, a, b);
    MergedFromEither(scans, a, b);
    EitherFromOld(scans, a, b);
  }

  lemma MergedFromEither(scans: seq<Scan>, a: string, b: string)
    ensures forall x :: x in AllMoved(InEither(scans, a, b), b) ==> x in InFolder(scans, b) || x in AllMoved(InFolder(scans, a), b)
  {
    var e := InEither(scans, a, b);
    var ga := InFolder(scans, a);
    var moved := AllMoved(e, b);
    forall x | x in moved ensures x in InFolder(scans, b) || x in AllMoved(ga, b) {
      var i :| 0 <= i < |moved| && moved[i] == x;
      if e[i].folder == a {
        assert e[i] in ga;
        var j :| 0 <= j < |ga| && ga[j] == e[i];
        assert AllMoved(ga, b)[j] == x;
      } else {
        assert x == e[i];
      }
    }
  }

  lemma EitherFromOld(scans: seq<Scan>, a: string, b: string)
    ensures forall x :: x in InFolder(scans, b) || x in AllMoved(InFolder(scans, a), b) ==> x in AllMoved(InEither(scans, a, b), b)
  {
    var e := InEither(scans, a, b);
    var ga := InFolder(scans, a);
    var moved := AllMoved(e, b);
    forall x | x in InFolder(scans, b) ensures x in moved {
      var i :| 0 <= i < |e| && e[i] == x;
      assert moved[i] == x;
    }
    forall x | x in AllMoved(ga, b) ensures x in moved {
      var j :| 0 <= j < |ga| && AllMoved(ga, b)[j] == x;
      assert ga[j] in e;
      var i :| 0 <= i < |e| && e[i] == ga[j];
      assert moved[i] == x;
    }
  }

  lemma {:induction false} InEitherSize(scans: seq<Scan>, a: string, b: string)
    requires a != b
    ensures |InEither(scans, a, b)| == |InFolder(scans, a)| + |InFolder(scans, b)|
    decreases |scans|
  {
    if scans != [] {
      InEitherSize(scans[1..], a, b);
    }
  }

  /** The folder names in use after renaming `a` to `b`. */
  lemma RenamedFolders(scans: seq<Scan>, a: string, b: string)
    requires a != b
    ensures a !in Folders(Renamed(scans, a, b))
    ensures b in Folders(Renamed(scans, a, b)) <==> a in Folders(scans) || b in Folders(scans)
    ensures forall k :: k != a && k != b ==> (k in Folders(Renamed(scans, a, b)) <==> k in Folders(scans))
  {
    var r := Renamed(scans, a, b);
    forall k | k in Folders(r) ensures k != a && (k == b || k in Folders(scans)) {
      var x :| x in r && x.folder == k;
      var i :| 0 <= i < |r| && r[i] == x;
      assert scans[i] in scans;
    }
    forall k | k in Folders(scans) ensures (k == a || k == b) ==> b in Folders(r) {
      var x :| x in scans && x.folder == k;
      var i :| 0 <= i < |scans| && scans[i] == x;
      assert r[i] in r;
    }
    forall k | k in Folders(scans) && k != a && k != b ensures k in Folders(r) {
      var x :| x in scans && x.folder == k;
      var i :| 0 <= i < |scans| && scans[i] == x;
      assert r[i] in r;
    }
  }

  /** The records left after deleting the record with identifier `id`. */
  function WithoutId(scans: seq<Scan>, id: string): (r: seq<Scan>)
    ensures forall x :: x in r <==> x in scans && x.id != id
  {
    if scans == [] then []
    else (if scans[0].id != id then [scans[0]] else []) + WithoutId(scans[1..], id)
  }

  /** Deleting records keeps the remaining identifiers unique. */
  lemma {:induction false} WithoutIdKeepsUnique(scans: seq<Scan>, id: string)
    requires UniqueIds(scans)
    ensures UniqueIds(WithoutId(scans, id))
    decreases |scans|
  {
    if scans != [] {
      var tail := scans[1..];
      WithoutIdKeepsUnique(tail, id);
      var rest := WithoutId(tail, id);
      if scans[0].id != id {
        var r := [scans[0]] + rest;
        forall j | 0 <= j < |rest| ensures rest[j].id != scans[0].id {
          var k :| 0 <= k < |tail| && tail[k] == rest[j];
          assert scans[k + 1] == rest[j];
        }
        forall i, j | 0 <= i < j < |r| ensures r[i].id != r[j].id {
          assert r[j] == rest[j - 1];
          if i > 0 {
            assert r[i] == rest[i - 1];
          }
        }
      }
    }
  }

  /** With unique identifiers, deleting a record's identifier removes that record and no other. */
  lemma {:induction false} DeleteOneRecord(scans: seq<Scan>, i: nat)
    requires UniqueIds(scans) && i < |scans|
    ensures WithoutId(scans, scans[i].id) == scans[..i] + scans[i + 1..]
    decreases |scans|
  {
    var id := scans[i].id;
    if i == 0 {
      KeepAllOtherIds(scans[1..], id);
      assert scans[1..] == scans[i + 1..];
    } else {
      DeleteOneRecord(scans[1..], i - 1);
      assert scans[1..][i - 1].id == id;
      assert scans[..i] == [scans[0]] + scans[1..][..i - 1];
      assert scans[i + 1..] == scans[1..][i..];
    }
  }

  lemma {:induction false} KeepAllOtherIds(scans: seq<Scan>, id: string)
    requires forall x :: x in scans ==> x.id != id
    ensures WithoutId(scans, id) == scans
    decreases |scans|
  {
    if scans != [] {
      assert scans[0] in scans;
      KeepAllOtherIds(scans[1..], id);
      assert scans == [scans[0]] + scans[1..];
    }
  }

  /** Saving a record and then deleting it leaves the store as it was before the save. */
  lemma InsertThenDelete(scans: seq<Scan>, s: Scan)
    requires s.id !in Ids(scans)
    ensures WithoutId(scans + [s], s.id) == scans
  {
    forall x | x in scans ensures x.id != s.id {
    }
    WithoutIdAppend(scans, s);
    KeepAllOtherIds(scans, s.id);
  }

  lemma {:induction false} WithoutIdAppend(scans: seq<Scan>, s: Scan)
    ensures WithoutId(scans + [s], s.id) == WithoutId(scans, s.id)
    decreases |scans|
  {
    if scans == [] {
      assert WithoutId([s], s.id) == [] + WithoutId([], s.id);
    } else {
      assert (scans + [s])[1..] == scans[1..] + [s];
      WithoutIdAppend(scans[1..], s);
    }
  }
}
