/**
 * The derived folder view shared by the folders screen and the save menu:
 * `Dictionary(grouping: items, by: { $0.folder })` and its sorted keys.
 * Folders are not stored; they are the distinct values of the `folder` field.
 */
module Grouping {
  import opened DataItem
  import opened Strings

  /** The records filed under `name`, in store order (reference definition of one group). */
  function InFolder(scans: seq<Scan>, name: string): (r: seq<Scan>)
    ensures forall x :: x in r <==> x in scans && x.folder == name
  {
    if scans == [] then []
    else
      var rest := InFolder(scans[1..], name);
      assert scans == [scans[0]] + scans[1..];
      (if scans[0].folder == name then [scans[0]] else []) + rest
  }

  /** A group holds every copy of every record of its folder, and nothing else. */
  lemma {:induction false} InFolderCounts(scans: seq<Scan>, name: string, x: Scan)
    ensures multiset(InFolder(scans, name))[x] == if x.folder == name then multiset(scans)[x] else 0
    decreases |scans|
  {
    if scans != [] {
      InFolderCounts(scans[1..], name, x);
      assert scans == [scans[0]] + scans[1..];
    }
  }

  /** The folder names in use. */
  function Folders(scans: seq<Scan>): set<string> {
    set x | x in scans :: x.folder
  }

  lemma {:induction false} InFolderAppend(scans: seq<Scan>, s: Scan, name: string)
    ensures InFolder(scans + [s], name) == InFolder(scans, name) + (if s.folder == name then [s] else [])
    decreases |scans|
  {
    if scans == [] {
      assert scans + [s] == [s] && [s][1..] == [];
    } else {
      var t := scans + [s];
      assert t[0] == scans[0];
      assert t[1..] == scans[1..] + [s];
      InFolderAppend(scans[1..], s, name);
    }
  }

  /**
   * `Dictionary(grouping:by:)`: walks the records in order and appends each
   * one to the group of its folder. Each group is exactly `InFolder` of its
   * key, and the keys are exactly the folder names in use.
   */
  function Grouped(scans: seq<Scan>): (g: map<string, seq<Scan>>)
    ensures g.Keys == Folders(scans)
    ensures forall k :: k in g ==> g[k] == InFolder(scans, k)
    decreases |scans|
  {
    if scans == [] then map[]
    else
      var init := scans[..|scans| - 1];
      var s := scans[|scans| - 1];
      var g := Grouped(init);
      GroupedStep(init, s, g);
      assert scans == init + [s];
      g[s.folder := (if s.folder in g then g[s.folder] else []) + [s]]
  }

  /** One step of the grouping walk: appending a record extends exactly its own group. */
  lemma GroupedStep(init: seq<Scan>, s: Scan, g: map<string, seq<Scan>>)
    requires g.Keys == Folders(init)
    requires forall k :: k in g ==> g[k] == InFolder(init, k)
    ensures var g' := g[s.folder := (if s.folder in g then g[s.folder] else []) + [s]];
      g'.Keys == Folders(init + [s]) && forall k :: k in g' ==> g'[k] == InFolder(init + [s], k)
  {
    var g' := g[s.folder := (if s.folder in g then g[s.folder] else []) + [s]];
    FoldersAppend(init, s);
    forall k | k in g' ensures g'[k] == InFolder(init + [s], k) {
      InFolderAppend(init, s, k);
      if k == s.folder && k !in g {
        EmptyGroup(init, k);
      }
    }
  }

  lemma FoldersAppend(init: seq<Scan>, s: Scan)
    ensures Folders(init + [s]) == Folders(init) + {s.folder}
  {
    forall f | f in Folders(init + [s]) ensures f in Folders(init) + {s.folder} {
      var x :| x in init + [s] && x.folder == f;
      assert x in init || x == s;
    }
    forall f | f in Folders(init) ensures f in Folders(init + [s]) {
      var x :| x in init && x.folder == f;
      assert x in init + [s];
    }
    assert s in init + [s];
  }

  /** A folder name nobody uses has an empty group. */
  lemma EmptyGroup(scans: seq<Scan>, name: string)
    requires name !in Folders(scans)
    ensures InFolder(scans, name) == []
  {
    var r := InFolder(scans, name);
    assert r != [] ==> r[0] in scans && r[0].folder == name;
  }

  /**
   * Saving a record into folder `s.folder` appends it to the end of that
   * folder's group (creating the group when the name is new) and leaves every
   * other group as it was.
   */
  lemma SaveJoinsGroup(scans: seq<Scan>, s: Scan)
    ensures s.folder in Grouped(scans + [s])
    ensures Grouped(scans + [s])[s.folder] ==
      (if s.folder in Grouped(scans) then Grouped(scans)[s.folder] else []) + [s]
    ensures forall k :: k != s.folder ==> (k in Grouped(scans + [s]) <==> k in Grouped(scans))
    ensures forall k :: k != s.folder && k in Grouped(scans) ==> Grouped(scans + [s])[k] == Grouped(scans)[k]
  {
    InFolderAppend(scans, s, s.folder);
    FoldersAppend(scans, s);
    if s.folder !in Grouped(scans) {
      EmptyGroup(scans, s.folder);
    }
    assert s in scans + [s];
    forall k | k != s.folder && k in Grouped(scans) ensures Grouped(scans + [s])[k] == Grouped(scans)[k] {
      InFolderAppend(scans, s, k);
    }
  }

  /**
   * The groups partition the records: every record sits in the group of its
   * own folder as often as it occurs in the store, a group holds only
   * records of its folder, and no group is empty.
   */
  lemma GroupedPartitions(scans: seq<Scan>)
    ensures forall i :: 0 <= i < |scans| ==> scans[i].folder in Grouped(scans)
    ensures forall x :: x in scans ==> multiset(Grouped(scans)[x.folder])[x] == multiset(scans)[x]
    ensures forall k, x :: k in Grouped(scans) && x in Grouped(scans)[k] ==> x.folder == k && x in scans
    ensures forall k :: k in Grouped(scans) ==> |Grouped(scans)[k]| > 0
  {
    var g := Grouped(scans);
    forall x | x in scans ensures multiset(g[x.folder])[x] == multiset(scans)[x] {
      InFolderCounts(scans, x.folder, x);
    }
    forall k | k in g ensures |g[k]| > 0 {
      var x :| x in scans && x.folder == k;
      assert x in g[k];
    }
  }

  /** `r` is `s` with some elements left out and the rest in their original order. */
  predicate IsSubsequence(r: seq<Scan>, s: seq<Scan>)
    decreases |s|
  {
    if r == [] then true
    else if s == [] then false
    else (r[0] == s[0] && IsSubsequence(r[1..], s[1..])) || IsSubsequence(r, s[1..])
  }

  /** Within a group, records keep their relative order from the store. */
  lemma {:induction false} GroupKeepsOrder(scans: seq<Scan>, name: string)
    ensures IsSubsequence(InFolder(scans, name), scans)
    decreases |scans|
  {
    if scans != [] {
      GroupKeepsOrder(scans[1..], name);
      var rest := InFolder(scans[1..], name);
      if scans[0].folder == name {
        assert InFolder(scans, name) == [scans[0]] + rest;
        assert ([scans[0]] + rest)[1..] == rest;
      } else {
        assert InFolder(scans, name) == rest;
        if rest != [] {
          assert IsSubsequence(rest, scans[1..]);
        }
      }
    }
  }

  /**
   * `groupedFiles.keys.sorted()`: the section headers of the folders screen
   * and the destinations of the save menu. Each folder name in use is listed
   * once, in ascending order.
   */
  function FolderNames(scans: seq<Scan>): (names: seq<string>)
    ensures StrictlyAscending(names)
    ensures forall k :: k in names <==> k in Grouped(scans)
    decreases |scans|
  {
    if scans == [] then []
    else
      var init := scans[..|scans| - 1];
      assert scans == init + [scans[|scans| - 1]];
      assert Folders(scans) == Folders(init) + {scans[|scans| - 1].folder};
      Insert(FolderNames(init), scans[|scans| - 1].folder)
  }

  /** The section list is the one sorted listing of the folder names, whatever the store order. */
  lemma FolderNamesDetermined(scans: seq<Scan>, sections: seq<string>)
    requires StrictlyAscending(sections)
    requires forall k :: k in sections <==> k in Folders(scans)
    ensures FolderNames(scans) == sections
  {
    AscendingUnique(FolderNames(scans), sections);
  }
}
