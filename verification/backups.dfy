/**
 * The backup handlers of main.cjs over an abstract backups directory: a
 * sequence of files in directory-listing order. A directory that does not
 * exist behaves as an empty one in every handler.
 */
module Backups {
  import opened Reminders
  import opened Lists

  datatype BackupFile = BackupFile(name: string, content: string, mtime: int, size: nat)

  /** An entry of the `list-backups` answer. */
  datatype BackupInfo = BackupInfo(name: string, time: int, size: nat)

  type Directory = seq<BackupFile>

  predicate IsJson(name: string)
  {
    |name| >= 5 && name[|name| - 5..] == ".json"
  }

  predicate IsJsonFile(f: BackupFile)
  {
    IsJson(f.name)
  }

  predicate IsOtherFile(f: BackupFile)
  {
    !IsJson(f.name)
  }

  function Info(f: BackupFile): BackupInfo
  {
    BackupInfo(f.name, f.mtime, f.size)
  }

  function InfosOf(fs: seq<BackupFile>): (r: seq<BackupInfo>)
    ensures |r| == |fs|
    ensures forall k :: 0 <= k < |fs| ==> r[k] == Info(fs[k])
  {
    if fs == [] then [] else [Info(fs[0])] + InfosOf(fs[1..])
  }

  predicate NewestFirst(s: seq<BackupInfo>)
  {
    forall i, j :: 0 <= i < j < |s| ==> s[i].time >= s[j].time
  }

  /**
   * Insert `x` before the first entry that is not newer, so that among equal
   * times an element that came earlier stays earlier (a stable sort).
   */
  function InsertNewest(x: BackupInfo, s: seq<BackupInfo>): (r: seq<BackupInfo>)
    requires NewestFirst(s)
    ensures NewestFirst(r)
    ensures multiset(r) == multiset(s) + multiset{x}
    ensures |r| == |s| + 1
    ensures r[0] == x || (s != [] && r[0] == s[0])
  {
    if s == [] || s[0].time <= x.time then [x] + s
    else
      var rest := InsertNewest(x, s[1..]);
      assert s == [s[0]] + s[1..];
      assert forall j :: 0 <= j < |rest| ==> rest[j].time <= rest[0].time;
      [s[0]] + rest
  }

  /** `.sort((a, b) => b.time - a.time)`, as an insertion sort. */
  function SortNewestFirst(s: seq<BackupInfo>): (r: seq<BackupInfo>)
    ensures NewestFirst(r)
    ensures multiset(r) == multiset(s)
  {
    if s == [] then []
    else
      assert s == [s[0]] + s[1..];
      InsertNewest(s[0], SortNewestFirst(s[1..]))
  }

  /** The `list-backups` handler: the `.json` entries with their times and sizes, newest first. */
  function ListBackups(dir: Directory): (r: seq<BackupInfo>)
  {
    SortNewestFirst(InfosOf(Filter(dir, IsJsonFile)))
  }

  /**
   * The listing is sorted newest first, lists every `.json` file once per
   * directory entry, and nothing else.
   */
  lemma ListBackupsSpec(dir: Directory)
    ensures NewestFirst(ListBackups(dir))
    ensures multiset(ListBackups(dir)) == multiset(InfosOf(Filter(dir, IsJsonFile)))
    ensures forall b :: b in ListBackups(dir) ==> IsJson(b.name)
    ensures forall f :: f in dir && IsJson(f.name) ==> Info(f) in ListBackups(dir)
  {
    var json := Filter(dir, IsJsonFile);
    var infos := InfosOf(json);
    forall b | b in ListBackups(dir) ensures IsJson(b.name) {
      assert b in multiset(infos);
      var k :| 0 <= k < |infos| && infos[k] == b;
      assert IsJsonFile(json[k]);
    }
    forall f | f in dir && IsJson(f.name) ensures Info(f) in ListBackups(dir) {
      assert f in json;
      var k :| 0 <= k < |json| && json[k] == f;
      assert infos[k] == Info(f);
      assert Info(f) in multiset(ListBackups(dir));
    }
  }

  /** The first entry named `name`, as `fs.existsSync` / `readFileSync` see it. */
  function Lookup(dir: Directory, name: string): (found: Option<BackupFile>)
    ensures found.None? <==> forall f :: f in dir ==> f.name != name
    ensures found.Some? ==> found.value in dir && found.value.name == name
  {
    if dir == [] then None
    else if dir[0].name == name then Some(dir[0])
    else
      assert forall f :: f in dir ==> f == dir[0] || f in dir[1..];
      Lookup(dir[1..], name)
  }

  datatype ReadResult = ReadOk(content: string) | ReadFailed(error: string)

  /** The `read-backup` handler: a missing name answers `{ success: false, error: 'not found' }`. */
  function ReadBackup(dir: Directory, name: string): (r: ReadResult)
    ensures r == ReadFailed("not found") <==> forall f :: f in dir ==> f.name != name
    ensures r.ReadOk? ==> exists f :: f in dir && f.name == name && f.content == r.content
  {
    var found := Lookup(dir, name);
    if found.None? then ReadFailed("not found") else ReadOk(found.value.content)
  }

  /** The directory after unlinking every entry whose name is in `names`. */
  function RemoveNamed(dir: Directory, names: set<string>): (r: Directory)
    ensures forall f :: f in r <==> f in dir && f.name !in names
  {
    if dir == [] then []
    else
      assert forall f :: f in dir ==> f == dir[0] || f in dir[1..];
      (if dir[0].name in names then [] else [dir[0]]) + RemoveNamed(dir[1..], names)
  }

  /** Unlinking no names leaves the directory as it is. */
  lemma {:induction false} RemoveNothing(dir: Directory)
    ensures RemoveNamed(dir, {}) == dir
  {
    if dir != [] {
      RemoveNothing(dir[1..]);
    }
  }

  /** Unlinking in two steps is unlinking the union. */
  lemma {:induction false} RemoveNamedTwice(dir: Directory, names: set<string>, more: set<string>)
    ensures RemoveNamed(RemoveNamed(dir, names), more) == RemoveNamed(dir, names + more)
  {
    if dir != [] {
      RemoveNamedTwice(dir[1..], names, more);
      var once := RemoveNamed(dir, names);
      if dir[0].name in names {
        assert once == RemoveNamed(dir[1..], names);
      } else {
        assert once == [dir[0]] + RemoveNamed(dir[1..], names);
        assert once[1..] == RemoveNamed(dir[1..], names);
      }
    }
  }

  /** Unlinking exactly the `.json` names keeps exactly the other files, in order. */
  lemma {:induction false} RemoveJsonNames(dir: Directory, names: set<string>)
    requires forall f :: f in dir ==> (f.name in names <==> IsJson(f.name))
    ensures RemoveNamed(dir, names) == Filter(dir, IsOtherFile)
  {
    if dir != [] {
      assert forall f :: f in dir[1..] ==> f in dir;
      RemoveJsonNames(dir[1..], names);
    }
  }

  /** The `delete-backup` handler: the entry is gone and success is reported even if it was missing. */
  function DeleteBackup(dir: Directory, name: string): (r: (Directory, bool))
    ensures r.1
    ensures forall f :: f in r.0 <==> f in dir && f.name != name
    ensures (forall f :: f in dir ==> f.name != name) ==> r.0 == dir
  {
    if forall f :: f in dir ==> f.name != name then
      (dir, true)
    else
      (RemoveNamed(dir, {name}), true)
  }

  function NamesOf(fs: seq<BackupFile>): (names: seq<string>)
    ensures |names| == |fs|
    ensures forall k :: 0 <= k < |fs| ==> names[k] == fs[k].name
  {
    if fs == [] then [] else [fs[0].name] + NamesOf(fs[1..])
  }

  /**
   * The `delete-all-backups` handler: unlink each `.json` name the listing
   * shows, one at a time; every other file stays, in order.
   */
  method DeleteAllBackups(dir: Directory) returns (after: Directory, success: bool)
    ensures after == Filter(dir, IsOtherFile)
    ensures success
  {
    var files := NamesOf(Filter(dir, IsJsonFile));
    after := dir;
    RemoveNothing(dir);
    var i := 0;
    while i < |files|
      invariant 0 <= i <= |files|
      invariant after == RemoveNamed(dir, NameSet(files[..i]))
    {
      UnlinkStep(dir, files, i);
      after := RemoveNamed(after, {files[i]});
      i := i + 1;
    }
    assert files[..i] == files;
    UnlinkListedJson(dir);
    success := true;
  }

  /** The set of names in a listing, accumulated front to back. */
  function NameSet(names: seq<string>): set<string>
  {
    if names == [] then {} else NameSet(names[..|names| - 1]) + {names[|names| - 1]}
  }

  lemma {:induction false} NameSetMembers(names: seq<string>)
    ensures forall n :: n in NameSet(names) <==> n in names
  {
    if names != [] {
      var pre := names[..|names| - 1];
      NameSetMembers(pre);
      assert names == pre + [names[|names| - 1]];
    }
  }

  /** One more unlink extends the set of removed names by the next listed name. */
  lemma UnlinkStep(dir: Directory, files: seq<string>, i: nat)
    requires i < |files|
    ensures RemoveNamed(RemoveNamed(dir, NameSet(files[..i])), {files[i]}) == RemoveNamed(dir, NameSet(files[..i + 1]))
  {
    assert files[..i + 1][..i] == files[..i];
    RemoveNamedTwice(dir, NameSet(files[..i]), {files[i]});
  }

  /** Unlinking every listed `.json` name leaves exactly the other files. */
  lemma UnlinkListedJson(dir: Directory)
    ensures RemoveNamed(dir, NameSet(NamesOf(Filter(dir, IsJsonFile)))) == Filter(dir, IsOtherFile)
  {
    var files := NamesOf(Filter(dir, IsJsonFile));
    NameSetMembers(files);
    ListedNamesAreJson(dir, NameSet(files));
    RemoveJsonNames(dir, NameSet(files));
  }

  /** The names delete-all-backups lists are exactly the `.json` names in the directory. */
  lemma ListedNamesAreJson(dir: Directory, names: set<string>)
    requires forall n :: n in names <==> n in NamesOf(Filter(dir, IsJsonFile))
    ensures forall f :: f in dir ==> (f.name in names <==> IsJson(f.name))
  {
    var json := Filter(dir, IsJsonFile);
    var files := NamesOf(json);
    forall f | f in dir
      ensures f.name in names <==> IsJson(f.name)
    {
      if IsJson(f.name) {
        assert f in json;
        var k :| 0 <= k < |json| && json[k] == f;
        assert files[k] == f.name;
      }
      if f.name in names {
        var k :| 0 <= k < |files| && files[k] == f.name;
        assert IsJsonFile(json[k]);
      }
    }
  }

  /** `str.replace(/[:.]/g, '-')` on the ISO timestamp. */
  function Dashed(stamp: string): (r: string)
    ensures |r| == |stamp|
    ensures forall k :: 0 <= k < |r| ==> r[k] != ':' && r[k] != '.'
    ensures forall k :: 0 <= k < |r| ==> stamp[k] != ':' && stamp[k] != '.' ==> r[k] == stamp[k]
    ensures forall k :: 0 <= k < |r| ==> stamp[k] == ':' || stamp[k] == '.' ==> r[k] == '-'
  {
    if stamp == [] then []
    else [if stamp[0] == ':' || stamp[0] == '.' then '-' else stamp[0]] + Dashed(stamp[1..])
  }

  /** The file name save-backup derives from the current ISO timestamp. */
  function BackupName(stamp: string): (name: string)
    ensures IsJson(name)
    ensures |name| == |stamp| + 12 && name[..7] == "backup-"
    ensures name[7..|name| - 5] == Dashed(stamp)
  {
    "backup-" + Dashed(stamp) + ".json"
  }

  /**
   * The `save-backup` handler: write the snapshot text under the derived
   * name (overwriting a file of that name) with modification time `now`.
   * `size` is the snapshot's length in characters.
   */
  function SaveBackup(dir: Directory, stamp: string, snapshot: string, now: int): (r: (Directory, string))
    ensures r.1 == BackupName(stamp)
    ensures ReadBackup(r.0, r.1) == ReadOk(snapshot)
    ensures BackupInfo(r.1, now, |snapshot|) in ListBackups(r.0)
    ensures forall f :: f in dir && f.name != r.1 ==> f in r.0
    ensures forall f :: f in r.0 ==> (f in dir && f.name != r.1) || f == BackupFile(r.1, snapshot, now, |snapshot|)
  {
    var name := BackupName(stamp);
    var file := BackupFile(name, snapshot, now, |snapshot|);
    var after := RemoveNamed(dir, {name}) + [file];
    LookupAfterRemove(RemoveNamed(dir, {name}), file);
    ListBackupsSpec(after);
    (after, name)
  }

  lemma {:induction false} LookupAfterRemove(dir: Directory, file: BackupFile)
    requires forall f :: f in dir ==> f.name != file.name
    ensures Lookup(dir + [file], file.name) == Some(file)
  {
    if dir != [] {
      assert (dir + [file])[1..] == dir[1..] + [file];
      LookupAfterRemove(dir[1..], file);
    }
  }

  /** After delete-backup the name reads as not found. */
  lemma DeleteThenRead(dir: Directory, name: string)
    ensures ReadBackup(DeleteBackup(dir, name).0, name) == ReadFailed("not found")
  {
  }

  /** After delete-all-backups the listing is empty and only non-`.json` files remain. */
  lemma DeleteAllThenList(dir: Directory)
    ensures ListBackups(Filter(dir, IsOtherFile)) == []
  {
    var rest := Filter(dir, IsOtherFile);
    assert forall f :: f in rest ==> !IsJsonFile(f);
    FilterKeepsNone(rest, IsJsonFile);
  }
}
