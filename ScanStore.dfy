/**
 * The app's mutable state: the table of `File` records, the shared pending
 * folder (`AppInformation.folder`) and the stored `userId`, with the
 * operations the screens apply to them. Each method states its new state
 * through the value functions of `DataItem`, `Grouping`, `FolderOps` and
 * `Session`, whose properties are proved there.
 *
 * Persistence is an in-memory sequence: a failed `context.save()` or a
 * failed bulk delete is only logged, so the state is what the in-memory
 * operations left.
 */
module ScanStore {
  import opened Optional
  import opened Strings
  import opened DataItem
  import opened Grouping
  import opened FolderOps
  import opened Session

  /** What the save screen offers: a direct save, or the existing folders plus "New Folder". */
  datatype SaveOptions = SaveDirectly(folder: string) | ChooseFolder(existing: seq<string>)

  /** The destination the user picks on the save screen. */
  datatype Destination = Pending | Existing(name: string) | NewFolder(name: string)

  /** The whole state as values. */
  datatype Snapshot = Snapshot(scans: seq<Scan>, pendingFolder: string, userId: string)

  /** `logOut`: the stored user id is removed; records and the pending folder stay. */
  function LoggedOut(s: Snapshot): (t: Snapshot)
    ensures t.scans == s.scans && t.pendingFolder == s.pendingFolder
    ensures ScreenFor(t.userId) == SignIn
  {
    s.(userId := NoUser)
  }

  /**
   * `deleteAccount`: the stored user id is removed first; then every record
   * is deleted, unless the bulk delete fails, which is only logged.
   */
  function AccountDeleted(s: Snapshot, deleteFails: bool): (t: Snapshot)
    ensures ScreenFor(t.userId) == SignIn && t.pendingFolder == s.pendingFolder
    ensures deleteFails ==> t.scans == s.scans
    ensures !deleteFails ==> t.scans == []
  {
    Snapshot(if deleteFails then s.scans else [], s.pendingFolder, NoUser)
  }

  /** Logging out twice is logging out once. */
  lemma LogOutIdempotent(s: Snapshot)
    ensures LoggedOut(LoggedOut(s)) == LoggedOut(s)
  {
  }

  /**
   * Deleting the account twice is deleting it once; the records survive only
   * when both bulk deletes fail.
   */
  lemma DeleteAccountIdempotent(s: Snapshot, firstFails: bool, secondFails: bool)
    ensures AccountDeleted(AccountDeleted(s, firstFails), secondFails) == AccountDeleted(s, firstFails && secondFails)
    ensures AccountDeleted(AccountDeleted(s, firstFails), firstFails) == AccountDeleted(s, firstFails)
  {
  }

  /** The records of `files` that are not in `gone`, in order. */
  function Except(files: seq<File>, gone: set<File>): seq<File> {
    if files == [] then []
    else (if files[0] in gone then [] else [files[0]]) + Except(files[1..], gone)
  }

  /** Removing `a` and then `b` is removing both at once. */
  lemma {:induction false} ExceptUnion(files: seq<File>, a: set<File>, b: set<File>)
    ensures Except(Except(files, a), b) == Except(files, a + b)
    decreases |files|
  {
    if files != [] {
      ExceptUnion(files[1..], a, b);
      var rest := Except(files[1..], a);
      if files[0] in a {
        assert Except(files, a) == rest;
      } else {
        var r := [files[0]] + rest;
        assert Except(files, a) == r;
        assert r[0] == files[0] && r[1..] == rest;
        assert Except(r, b) == (if files[0] in b then [] else [files[0]]) + Except(rest, b);
      }
    }
  }

  /** The values of the concatenation of two record lists. */
  lemma ValuesAppend(a: seq<File>, b: seq<File>)
    ensures Values(a + b) == Values(a) + Values(b)
  {
    assert forall i :: 0 <= i < |a + b| ==> Values(a + b)[i] == (Values(a) + Values(b))[i];
  }

  /** `groupedFiles[name] ?? []`: the records filed under `name`, in store order. */
  function Members(files: seq<File>, name: string): (r: seq<File>)
    reads set f | f in files
    ensures forall i :: 0 <= i < |r| ==> r[i] in files && r[i].folder == name
    ensures forall i :: 0 <= i < |files| && files[i].folder == name ==> files[i] in r
    decreases |files|
  {
    if files == [] then []
    else (if files[0].folder == name then [files[0]] else []) + Members(files[1..], name)
  }

  /** The values of a folder's records are the group `InFolder` describes. */
  lemma {:induction false} MembersAreGroup(files: seq<File>, name: string)
    ensures Values(Members(files, name)) == InFolder(Values(files), name)
    decreases |files|
  {
    if files != [] {
      MembersAreGroup(files[1..], name);
      var head := if files[0].folder == name then [files[0]] else [];
      ValuesAppend([files[0]], files[1..]);
      assert files == [files[0]] + files[1..];
      ValuesAppend(head, Members(files[1..], name));
    }
  }

  /** Deleting a folder's records leaves the values `OutsideFolder` describes. */
  lemma DeleteMembers(files: seq<File>, name: string)
    ensures Values(Except(files, set k | 0 <= k < |Members(files, name)| :: Members(files, name)[k])) ==
      OutsideFolder(Values(files), name)
  {
    var members := Members(files, name);
    ExceptFolder(files, set k | 0 <= k < |members| :: members[k], name);
  }

  /** Appending a record with an unused identifier. */
  lemma AppendValues(files: seq<File>, f: File)
    requires UniqueIds(Values(files)) && f.id !in Ids(Values(files))
    ensures Values(files + [f]) == Values(files) + [f.Value()]
    ensures UniqueIds(Values(files + [f]))
  {
    ValuesAppend(files, [f]);
    AppendFreshKeepsUnique(Values(files), f.Value());
  }

  /** Removing exactly the records of folder `name` leaves the values `OutsideFolder` describes. */
  lemma {:induction false} ExceptFolder(files: seq<File>, gone: set<File>, name: string)
    requires forall f :: f in files ==> (f in gone <==> f.folder == name)
    ensures Values(Except(files, gone)) == OutsideFolder(Values(files), name)
    decreases |files|
  {
    if files != [] {
      ExceptFolder(files[1..], gone, name);
      var head := if files[0] in gone then [] else [files[0]];
      ValuesAppend(head, Except(files[1..], gone));
      ValuesAppend([files[0]], files[1..]);
      assert files == [files[0]] + files[1..];
    }
  }

  /** Removing exactly the records with identifier `id` leaves the values `WithoutId` describes. */
  lemma {:induction false} ExceptId(files: seq<File>, gone: set<File>, id: string)
    requires forall f :: f in files ==> (f in gone <==> f.id == id)
    ensures Values(Except(files, gone)) == WithoutId(Values(files), id)
    decreases |files|
  {
    if files != [] {
      ExceptId(files[1..], gone, id);
      var head := if files[0] in gone then [] else [files[0]];
      ValuesAppend(head, Except(files[1..], gone));
      ValuesAppend([files[0]], files[1..]);
      assert files == [files[0]] + files[1..];
    }
  }

  /** With unique identifiers, a record is the only one carrying its identifier. */
  lemma OnlyOneWithId(files: seq<File>, f: File)
    requires UniqueIds(Values(files)) && f in files
    ensures forall g :: g in files ==> (g in {f} <==> g.id == f.id)
  {
    forall g | g in files && g.id == f.id ensures g == f {
      var i :| 0 <= i < |files| && files[i] == g;
      var j :| 0 <= j < |files| && files[j] == f;
      assert Values(files)[i].id == Values(files)[j].id;
    }
  }

  /** Deleting one record keeps identifiers unique. */
  lemma ExceptOneKeepsUnique(files: seq<File>, f: File)
    requires UniqueIds(Values(files))
    ensures UniqueIds(Values(Except(files, {f})))
  {
    if f in files {
      ExceptOneValues(files, f);
      WithoutIdKeepsUnique(Values(files), f.id);
    } else {
      NothingExcepted(files, {f});
    }
  }

  /** Deleting a record leaves the values `WithoutId` describes, or changes nothing when it is absent. */
  lemma ExceptOneValues(files: seq<File>, f: File)
    requires UniqueIds(Values(files))
    ensures f in files ==> Values(Except(files, {f})) == WithoutId(Values(files), f.id)
    ensures f !in files ==> Except(files, {f}) == files
  {
    if f in files {
      OnlyOneWithId(files, f);
      ExceptId(files, {f}, f.id);
    } else {
      NothingExcepted(files, {f});
    }
  }

  class Store {
    var files: seq<File>
    var pendingFolder: string
    var userId: string

    /** The records' current values, in store order. */
    function Scans(): seq<Scan>
      reads this, set f | f in files
    {
      Values(files)
    }

    function State(): Snapshot
      reads this, set f | f in files
    {
      Snapshot(Scans(), pendingFolder, userId)
    }

    /** Every record has its own identifier (and so is its own object). */
    predicate Valid()
      reads this, set f | f in files
    {
      UniqueIds(Scans())
    }

    /** A fresh install: no records, no pending folder, no user id. */
    constructor ()
      ensures State() == Snapshot([], "", NoUser)
      ensures Valid()
    {
      files := [];
      pendingFolder := "";
      userId := NoUser;
    }

    /** `ContentView.body`. */
    function CurrentScreen(): (screen: Screen)
      reads this
      ensures screen == SignIn <==> userId == NoUser
      ensures screen == Home <==> userId != NoUser
    {
      ScreenFor(userId)
    }

    /**
     * The save screen's button: a plain Save into the pending folder when
     * one is set, otherwise a menu of the existing folder names, sorted and
     * each listed once.
     */
    function Options(): (o: SaveOptions)
      reads this, set f | f in files
      ensures o.SaveDirectly? <==> pendingFolder != ""
      ensures o.SaveDirectly? ==> o.folder == pendingFolder
      ensures o.ChooseFolder? ==> StrictlyAscending(o.existing)
      ensures o.ChooseFolder? ==> forall k :: k in o.existing <==> k in Folders(Scans())
    {
      if pendingFolder == "" then ChooseFolder(FolderNames(Scans())) else SaveDirectly(pendingFolder)
    }

    /** The destinations the save screen offers in the current state. */
    predicate Offered(d: Destination)
      reads this, set f | f in files
    {
      match d
      case Pending => pendingFolder != ""
      case Existing(name) => pendingFolder == "" && name in FolderNames(Scans())
      case NewFolder(_) => pendingFolder == ""
    }

    /** The folder a destination names. */
    function Target(d: Destination): string
      reads this
    {
      match d
      case Pending => pendingFolder
      case Existing(name) => name
      case NewFolder(name) => name
    }

    /** The folders screen's Add action: the next scan goes into `name`. */
    method AddToFolder(name: string)
      modifies this
      ensures State() == old(State()).(pendingFolder := name)
      ensures files == old(files)
    {
      pendingFolder := name;
    }

    /** `context.insert`: the record is appended to the store. */
    method Insert(f: File)
      requires Valid() && f.id !in Ids(Scans())
      modifies this
      ensures files == old(files) + [f]
      ensures Scans() == old(Scans()) + [f.Value()]
      ensures pendingFolder == old(pendingFolder) && userId == old(userId)
      ensures Valid()
    {
      AppendValues(files, f);
      files := files + [f];
    }

    /**
     * `saveScan`: one new record with the given fields is appended and the
     * pending folder is cleared. The identifier `uuid` comes from a UUID
     * generator, so it is not in use yet.
     */
    method SaveScan(uuid: string, diagnosis: string, image: Bytes, date: Date, folder: string) returns (f: File)
      requires Valid() && uuid !in Ids(Scans())
      modifies this
      ensures fresh(f) && files == old(files) + [f]
      ensures Scans() == old(Scans()) + [Scan(uuid, diagnosis, Some(image), date, folder)]
      ensures pendingFolder == "" && userId == old(userId)
      ensures Valid()
    {
      f := new File(uuid, diagnosis, image, date, folder);
      Insert(f);
      pendingFolder := "";
    }

    /**
     * A save from the save screen to an offered destination. Without JPEG
     * data for the image nothing is saved and the pending folder is kept;
     * otherwise the scan is saved into the destination's folder.
     */
    method Save(d: Destination, jpeg: Option<Bytes>, uuid: string, diagnosis: string, date: Date)
      requires Valid() && Offered(d) && uuid !in Ids(Scans())
      modifies this
      ensures jpeg.None? ==> State() == old(State()) && files == old(files)
      ensures jpeg.Some? ==>
        State() == Snapshot(old(Scans()) + [Scan(uuid, diagnosis, jpeg, date, old(Target(d)))], "", old(userId))
      ensures Valid()
    {
      if jpeg.Some? {
        var f := SaveScan(uuid, diagnosis, jpeg.value, date, Target(d));
      }
    }

    /** `context.delete`: the record leaves the store; a record not in the store changes nothing. */
    method Delete(f: File)
      requires Valid()
      modifies this
      ensures files == Except(old(files), {f})
      ensures pendingFolder == old(pendingFolder) && userId == old(userId)
      ensures Valid()
    {
      ExceptOneKeepsUnique(files, f);
      files := Except(files, {f});
    }

    /** `deleteFile`: the given record is deleted and no other. */
    method DeleteFile(f: File)
      requires Valid()
      modifies this
      ensures f in old(files) ==> Scans() == WithoutId(old(Scans()), f.id)
      ensures f !in old(files) ==> files == old(files)
      ensures pendingFolder == old(pendingFolder) && userId == old(userId)
      ensures Valid()
    {
      ExceptOneValues(files, f);
      ghost var remaining := Values(Except(files, {f}));
      Delete(f);
      assert Scans() == remaining;
    }

    /**
     * `deleteFolder(files:)`: deletes the given records one by one; every
     * other record stays, in order.
     */
    method DeleteGroup(group: seq<File>)
      requires Valid()
      modifies this
      ensures files == Except(old(files), set k | 0 <= k < |group| :: group[k])
      ensures pendingFolder == old(pendingFolder) && userId == old(userId)
      ensures Valid()
    {
      ghost var before := files;
      ghost var done: set<File> := {};
      NothingExcepted(before, done);
      for i := 0 to |group|
        invariant done == set k | 0 <= k < i :: group[k]
        invariant files == Except(before, done)
        invariant pendingFolder == old(pendingFolder) && userId == old(userId)
        invariant Valid()
      {
        ExceptUnion(before, done, {group[i]});
        Delete(group[i]);
        done := done + {group[i]};
      }
    }

    /**
     * The folder menu's Delete action: `deleteFolder` applied to the group of
     * `name`. Exactly the records of folder `name` are deleted.
     */
    method DeleteFolder(name: string)
      requires Valid()
      modifies this
      ensures Scans() == OutsideFolder(old(Scans()), name)
      ensures pendingFolder == old(pendingFolder) && userId == old(userId)
      ensures Valid()
    {
      var members := Members(files, name);
      DeleteMembers(files, name);
      ghost var remaining := Values(Except(files, set k | 0 <= k < |members| :: members[k]));
      DeleteGroup(members);
      assert Scans() == remaining;
    }

    /**
     * The Rename alert's OK action: `renameFolder` applied to the group of
     * `from`. Every record of folder `from` is moved to `to`, in place;
     * nothing else about any record changes.
     */
    method RenameFolder(from: string, to: string)
      requires Valid()
      modifies set f | f in files
      ensures State() == old(State()).(scans := Renamed(old(Scans()), from, to))
      ensures Valid()
    {
      ghost var before := Scans();
      var members := Members(files, from);
      assert forall j :: 0 <= j < |files| ==> (files[j] in members <==> before[j].folder == from);
      MoveAll(members, to);
      forall j | 0 <= j < |files| ensures Scans()[j] == Renamed(before, from, to)[j] {
        if files[j] !in members {
          assert files[j].Value() == old(files[j].Value());
        }
      }
      assert Scans() == Renamed(before, from, to);
      RenameKeepsRecords(before, from, to);
    }

    /** `logOut`. */
    method LogOut()
      modifies this
      ensures State() == LoggedOut(old(State())) && files == old(files)
    {
      userId := NoUser;
    }

    /** `deleteAccount`; `deleteFails` says whether the bulk delete throws. */
    method DeleteAccount(deleteFails: bool)
      requires Valid()
      modifies this
      ensures State() == AccountDeleted(old(State()), deleteFails)
      ensures deleteFails ==> files == old(files)
      ensures Valid()
    {
      userId := NoUser;
      if !deleteFails {
        files := [];
      }
    }

    /** The sign-in completion handler. */
    method CompleteSignIn(result: SignInResult)
      modifies this
      ensures State() == old(State()).(userId := AfterSignIn(old(userId), result)) && files == old(files)
    {
      userId := AfterSignIn(userId, result);
    }
  }

  /** The loop of `renameFolder`: each given record's folder becomes `to`; nothing else changes. */
  method MoveAll(group: seq<File>, to: string)
    modifies set f | f in group
    ensures forall f :: f in group ==> f.Value() == Moved(old(f.Value()), to)
  {
    for i := 0 to |group|
      invariant forall k :: 0 <= k < i ==> group[k].folder == to
      invariant forall f :: f in group ==> f.Value() == old(f.Value()).(folder := f.folder)
    {
      group[i].folder := to;
    }
  }

  /** Removing records none of which is present changes nothing. */
  lemma {:induction false} NothingExcepted(files: seq<File>, gone: set<File>)
    requires forall f :: f in files ==> f !in gone
    ensures Except(files, gone) == files
    decreases |files|
  {
    if files != [] {
      assert files[0] in files;
      NothingExcepted(files[1..], gone);
      assert files == [files[0]] + files[1..];
    }
  }
}
