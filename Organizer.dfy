/**
 * What an organise run does to the chosen directory, as functions of the
 * listing: `create_dirs` makes the missing category folders, `move_file`
 * moves one file into its folder, `organize_files` does both over a snapshot
 * of the listing, and `backup_files` copies the whole tree into a new
 * subdirectory first. Each reports what went wrong as a list of errors, one
 * per error dialog the application would show.
 */
module Organizer {
  import opened Wrappers
  import opened OrderedDict
  import opened FileTree
  import opened Folders
  import opened Classifier

  /** The error dialogs of the application. */
  datatype Error =
    | FolderNotCreated(folder: string)
    | FileNotMoved(file: string)
    | BackupFailed
    | NotADirectory
    | MissingFolderInput

  /** A listing after a step, with the errors the step reported. */
  datatype Outcome = Outcome(entries: seq<Entry>, errors: seq<Error>)

  /**
   * One pass of the `create_dirs` loop: a name that exists already is left
   * alone; otherwise the folder is made, unless the filesystem refuses it
   * (`bad` holds the names `os.makedirs` fails on), which is reported.
   */
  function CreateOne(es: seq<Entry>, bad: set<string>, name: string): Outcome
  {
    if Exists(es, name) then Outcome(es, [])
    else if name in bad then Outcome(es, [FolderNotCreated(name)])
    else Outcome(MakeDir(es, name), [])
  }

  /** `create_dirs`: one pass per folder name, in order; a failure does not stop the loop. */
  function CreateAll(es: seq<Entry>, bad: set<string>, names: seq<string>): Outcome
    decreases |names|
  {
    if names == [] then Outcome(es, [])
    else
      var o := CreateOne(es, bad, names[0]);
      var rest := CreateAll(o.entries, bad, names[1..]);
      Outcome(rest.entries, o.errors + rest.errors)
  }

  /**
   * What existed is left as it was: the old listing is a prefix of the new
   * one, and everything after it is a new, empty folder named in `names`.
   */
  lemma {:induction false} CreateAllExtends(es: seq<Entry>, bad: set<string>, names: seq<string>)
    ensures var r := CreateAll(es, bad, names).entries;
      |es| <= |r| && r[..|es|] == es
      && forall k :: |es| <= k < |r| ==> r[k].node == Dir([]) && r[k].name in names
    decreases |names|
  {
    if names != [] {
      var o := CreateOne(es, bad, names[0]);
      CreateAllExtends(o.entries, bad, names[1..]);
      var r := CreateAll(es, bad, names).entries;
      assert r[..|o.entries|][..|es|] == r[..|es|];
    }
  }

  /**
   * After `create_dirs` a name is listed exactly when it was listed before,
   * or it is one of the folder names, not empty, and creatable.
   */
  lemma {:induction false} CreateAllNames(es: seq<Entry>, bad: set<string>, names: seq<string>, n: string)
    ensures n in Names(CreateAll(es, bad, names).entries) <==>
      n in Names(es) || (n in names && n != [] && n !in bad)
    decreases |names|
  {
    if names != [] {
      var o := CreateOne(es, bad, names[0]);
      CreateAllNames(o.entries, bad, names[1..], n);
      assert n in names <==> n == names[0] || n in names[1..];
    }
  }

  /**
   * `create_dirs` reports a folder exactly when it was named, did not exist
   * and could not be made; it reports nothing else.
   */
  lemma {:induction false} CreateAllErrors(es: seq<Entry>, bad: set<string>, names: seq<string>, n: string)
    ensures FolderNotCreated(n) in CreateAll(es, bad, names).errors <==>
      n in names && n in bad && !Exists(es, n)
    ensures forall e :: e in CreateAll(es, bad, names).errors ==> e.FolderNotCreated?
    decreases |names|
  {
    if names != [] {
      var o := CreateOne(es, bad, names[0]);
      CreateAllErrors(o.entries, bad, names[1..], n);
      assert n in names <==> n == names[0] || n in names[1..];
      if n in bad {
        assert Exists(o.entries, n) <==> Exists(es, n);
      }
    }
  }

  /** After `create_dirs` every folder of the mapping exists, or its failure was reported. */
  lemma CreateAllCovers(es: seq<Entry>, bad: set<string>, names: seq<string>, n: string)
    requires n in names
    ensures var o := CreateAll(es, bad, names);
      Exists(o.entries, n) != (FolderNotCreated(n) in o.errors)
  {
    CreateAllNames(es, bad, names, n);
    CreateAllErrors(es, bad, names, n);
  }

  /** `create_dirs` never lists a name twice, and adds no bytes. */
  lemma {:induction false} CreateAllUnique(es: seq<Entry>, bad: set<string>, names: seq<string>)
    requires UniqueNames(es)
    ensures UniqueNames(CreateAll(es, bad, names).entries)
    ensures TotalSize(CreateAll(es, bad, names).entries) == TotalSize(es)
    decreases |names|
  {
    if names != [] {
      var o := CreateOne(es, bad, names[0]);
      if o.entries != es {
        MakeDirUnique(es, names[0]);
      }
      CreateAllUnique(o.entries, bad, names[1..]);
    }
  }

  /** `create_dirs` leaves every entry that existed finding what it found. */
  lemma CreateAllFind(es: seq<Entry>, bad: set<string>, names: seq<string>, n: string)
    requires UniqueNames(es) && n in Names(es)
    ensures Find(CreateAll(es, bad, names).entries, n) == Find(es, n)
  {
    var r := CreateAll(es, bad, names).entries;
    CreateAllExtends(es, bad, names);
    CreateAllUnique(es, bad, names);
    var k :| 0 <= k < |es| && es[k].name == n;
    assert r[k] == es[k];
    FindAt(es, k);
    FindAt(r, k);
  }

  /**
   * A second `create_dirs` over the result of a first, here generalised: in
   * a listing where every name either exists or is refused, and where the
   * refused names exist exactly as they did in `es`, the loop changes nothing
   * and reports what it reported starting from `es`.
   */
  lemma {:induction false} CreateAllAgain(es: seq<Entry>, es2: seq<Entry>, bad: set<string>, names: seq<string>)
    requires forall n :: n in bad ==> (Exists(es2, n) <==> Exists(es, n))
    requires forall n :: n in names ==> Exists(es2, n) || n in bad
    ensures CreateAll(es2, bad, names) == Outcome(es2, CreateAll(es, bad, names).errors)
    decreases |names|
  {
    if names != [] {
      var o := CreateOne(es, bad, names[0]);
      assert forall n :: n in bad ==> (Exists(o.entries, n) <==> Exists(es, n));
      CreateAllAgain(o.entries, es2, bad, names[1..]);
    }
  }

  /**
   * `create_dirs` is idempotent: a second call with the same mapping changes
   * nothing and reports exactly the failures of the first, so none when the
   * first reported none.
   */
  lemma CreateAllIdempotent(es: seq<Entry>, bad: set<string>, names: seq<string>)
    ensures var o := CreateAll(es, bad, names);
      CreateAll(o.entries, bad, names) == o
  {
    var o := CreateAll(es, bad, names);
    forall n | n in bad
      ensures Exists(o.entries, n) <==> Exists(es, n)
    {
      CreateAllNames(es, bad, names, n);
    }
    forall n | n in names
      ensures Exists(o.entries, n) || n in bad
    {
      CreateAllNames(es, bad, names, n);
    }
    CreateAllAgain(es, o.entries, bad, names);
  }

  /**
   * `move_file`: the file is sent to the folder its extension picks, in a
   * single attempt; a move that fails leaves the listing as it was and is
   * reported.
   */
  function MoveOne(es: seq<Entry>, folders: Mapping, file: string): Outcome
  {
    match MoveInto(es, file, Destination(folders, FileExt(file)))
    case Some(r) => Outcome(r, [])
    case None => Outcome(es, [FileNotMoved(file)])
  }

  /** One pass of the loop of `organize_files`: a regular file is moved, anything else is skipped. */
  function Visit(es: seq<Entry>, folders: Mapping, name: string): Outcome
  {
    if IsFile(es, name) then MoveOne(es, folders, name) else Outcome(es, [])
  }

  /** The loop of `organize_files` over a listing: regular files are moved, anything else is skipped. */
  function MoveAll(es: seq<Entry>, folders: Mapping, names: seq<string>): Outcome
    decreases |names|
  {
    if names == [] then Outcome(es, [])
    else
      var o := Visit(es, folders, names[0]);
      var rest := MoveAll(o.entries, folders, names[1..]);
      Outcome(rest.entries, o.errors + rest.errors)
  }

  /**
   * `organize_files`: every folder is created before any file is moved, and
   * the files moved are those of the listing taken after the folders exist.
   */
  function Organize(es: seq<Entry>, bad: set<string>, folders: Mapping): Outcome
  {
    var c := CreateAll(es, bad, Keys(folders));
    var m := MoveAll(c.entries, folders, Names(c.entries));
    Outcome(m.entries, c.errors + m.errors)
  }

  /** Moving files neither creates nor destroys bytes, and never lists a name twice. */
  lemma {:induction false} MoveAllSize(es: seq<Entry>, folders: Mapping, names: seq<string>)
    requires UniqueNames(es)
    ensures TotalSize(MoveAll(es, folders, names).entries) == TotalSize(es)
    ensures UniqueNames(MoveAll(es, folders, names).entries)
    decreases |names|
  {
    if names != [] {
      var o := Visit(es, folders, names[0]);
      var dest := Destination(folders, FileExt(names[0]));
      if IsFile(es, names[0]) && MoveInto(es, names[0], dest).Some? {
        MoveIntoSize(es, names[0], dest);
        MoveIntoNames(es, names[0], dest);
      }
      MoveAllSize(o.entries, folders, names[1..]);
    }
  }

  /** The one-step form of `MoveAllKeeps`. */
  lemma MoveStepKeeps(es: seq<Entry>, folders: Mapping, file: string, n: string)
    requires UniqueNames(es)
    ensures var r := MoveOne(es, folders, file).entries;
      UniqueNames(r)
      && (n != file && !IsDir(es, n) ==> Find(r, n) == Find(es, n))
      && (IsDir(es, n) ==>
        IsDir(r, n) && Find(es, n).value.children <= Find(r, n).value.children)
  {
    var dest := Destination(folders, FileExt(file));
    if MoveInto(es, file, dest).Some? {
      MoveIntoNames(es, file, dest);
      MoveIntoFind(es, file, dest, n);
    }
  }

  /**
   * Moving files never touches what it was not asked to move: an entry that
   * is not a directory and not in `names` finds what it found before, and a
   * directory stays a directory whose old listing is a prefix of its new one
   * (subdirectories are never moved, and only gain files).
   */
  lemma {:induction false} MoveAllKeeps(es: seq<Entry>, folders: Mapping, names: seq<string>, n: string)
    requires UniqueNames(es)
    ensures var r := MoveAll(es, folders, names).entries;
      (n !in names && !IsDir(es, n) ==> Find(r, n) == Find(es, n))
      && (IsDir(es, n) ==>
        IsDir(r, n) && Find(es, n).value.children <= Find(r, n).value.children)
    decreases |names|
  {
    if names != [] {
      var o := Visit(es, folders, names[0]);
      MoveStepKeeps(es, folders, names[0], n);
      MoveAllKeeps(o.entries, folders, names[1..], n);
    }
  }

  /** Moving files reports only files it was asked to move. */
  lemma {:induction false} MoveAllErrors(es: seq<Entry>, folders: Mapping, names: seq<string>)
    ensures forall e :: e in MoveAll(es, folders, names).errors ==> e.FileNotMoved? && e.file in names
    decreases |names|
  {
    if names != [] {
      var o := Visit(es, folders, names[0]);
      MoveAllErrors(o.entries, folders, names[1..]);
    }
  }

  /**
   * Every regular file of a listing without repeated names either leaves the
   * top level or stays there with an error reported for it, and processing
   * goes on after a failure.
   */
  lemma {:induction false} MoveAllReports(es: seq<Entry>, folders: Mapping, names: seq<string>, n: string)
    requires UniqueNames(es) && Distinct(names)
    requires n in names && IsFile(es, n)
    ensures var o := MoveAll(es, folders, names);
      (n in Names(o.entries)) == (FileNotMoved(n) in o.errors)
    decreases |names|
  {
    var m := names[0];
    var s := Visit(es, folders, m);
    var rest := MoveAll(s.entries, folders, names[1..]);
    MoveAllErrors(s.entries, folders, names[1..]);
    if n == m {
      assert n !in names[1..];
      MoveStepKeeps(es, folders, m, n);
      MoveAllKeeps(s.entries, folders, names[1..], n);
      if s.errors == [] {
        MoveIntoFind(es, m, Destination(folders, FileExt(m)), n);
      }
    } else {
      assert n in names[1..];
      MoveStepKeeps(es, folders, m, n);
      assert forall i :: 1 <= i < |names| ==> names[i] != m;
      MoveAllReports(s.entries, folders, names[1..], n);
    }
  }

  /** The one-step form of `MoveAllLands`. */
  lemma MoveStepLands(es: seq<Entry>, folders: Mapping, file: string)
    requires UniqueNames(es) && IsFile(es, file)
    ensures var r := MoveOne(es, folders, file).entries;
      var dest := Destination(folders, FileExt(file));
      if file in Names(r) then r == es
      else IsDir(r, dest) && Entry(file, Find(es, file).value) in Find(r, dest).value.children
  {
    var dest := Destination(folders, FileExt(file));
    if MoveInto(es, file, dest).Some? {
      MoveIntoFind(es, file, dest, dest);
      MoveIntoFind(es, file, dest, file);
    }
  }

  /**
   * A file that leaves the top level ends up in the folder its extension
   * picks, listed there under its own name; a file that stays is unchanged.
   */
  lemma {:induction false} MoveAllLands(es: seq<Entry>, folders: Mapping, names: seq<string>, n: string)
    requires UniqueNames(es) && Distinct(names)
    requires n in names && IsFile(es, n)
    ensures var r := MoveAll(es, folders, names).entries;
      var dest := Destination(folders, FileExt(n));
      if n in Names(r) then Find(r, n) == Find(es, n)
      else IsDir(r, dest) && Entry(n, Find(es, n).value) in Find(r, dest).value.children
    decreases |names|
  {
    var m := names[0];
    var s := Visit(es, folders, m);
    var dest := Destination(folders, FileExt(n));
    MoveStepKeeps(es, folders, m, n);
    if n == m {
      assert n !in names[1..];
      MoveStepLands(es, folders, n);
      MoveAllKeeps(s.entries, folders, names[1..], n);
      MoveAllKeeps(s.entries, folders, names[1..], dest);
    } else {
      assert n in names[1..];
      assert forall i :: 1 <= i < |names| ==> names[i] != m;
      MoveAllLands(s.entries, folders, names[1..], n);
    }
  }

  /** A listing without repeated names has distinct names. */
  lemma UniqueDistinct(es: seq<Entry>)
    requires UniqueNames(es)
    ensures Distinct(Names(es))
  {
  }

  /**
   * `organize_files` adds no bytes and lists no name twice; every directory
   * stays a directory that still lists what it listed (subdirectories,
   * backups among them, are never moved).
   */
  lemma OrganizeKeeps(es: seq<Entry>, bad: set<string>, folders: Mapping, n: string)
    requires UniqueNames(es)
    ensures var r := Organize(es, bad, folders).entries;
      TotalSize(r) == TotalSize(es) && UniqueNames(r)
      && (IsDir(es, n) ==>
        IsDir(r, n) && Find(es, n).value.children <= Find(r, n).value.children)
  {
    var c := CreateAll(es, bad, Keys(folders));
    CreateAllUnique(es, bad, Keys(folders));
    MoveAllSize(c.entries, folders, Names(c.entries));
    if n in Names(es) {
      CreateAllFind(es, bad, Keys(folders), n);
    }
    MoveAllKeeps(c.entries, folders, Names(c.entries), n);
  }

  /**
   * Every regular file the directory held before `organize_files` either
   * ends up in the folder its extension picks, or stays where it was and is
   * reported; the run goes on after a failed move.
   */
  lemma OrganizeFiles(es: seq<Entry>, bad: set<string>, folders: Mapping, n: string)
    requires UniqueNames(es) && IsFile(es, n)
    ensures var o := Organize(es, bad, folders);
      var dest := Destination(folders, FileExt(n));
      (n in Names(o.entries) <==> FileNotMoved(n) in o.errors)
      && (if n in Names(o.entries) then Find(o.entries, n) == Find(es, n)
          else IsDir(o.entries, dest) && Entry(n, Find(es, n).value) in Find(o.entries, dest).value.children)
  {
    var c := CreateAll(es, bad, Keys(folders));
    CreateAllUnique(es, bad, Keys(folders));
    CreateAllFind(es, bad, Keys(folders), n);
    CreateAllErrors(es, bad, Keys(folders), n);
    UniqueDistinct(c.entries);
    MoveAllReports(c.entries, folders, Names(c.entries), n);
    MoveAllLands(c.entries, folders, Names(c.entries), n);
  }

  /**
   * A file whose extension is `mp3` (such as `test.mp3`), in a directory
   * holding Music and Others, leaves the top level for Music.
   */
  lemma Mp3MovesToMusic(file: string, size: nat)
    requires FileExt(file) == "mp3" && file != "Music" && file != OthersFolder
    ensures var es := [Entry("Music", Dir([])), Entry(OthersFolder, Dir([])), Entry(file, File(size))];
      var r := MoveOne(es, [("Music", ["mp3"]), (OthersFolder, [])], file);
      r.errors == [] && Find(r.entries, file) == None
      && Find(r.entries, "Music") == Some(Dir([Entry(file, File(size))]))
  {
    var es := [Entry("Music", Dir([])), Entry(OthersFolder, Dir([])), Entry(file, File(size))];
    var folders: Mapping := [("Music", ["mp3"]), (OthersFolder, [])];
    assert FirstMatch(folders, "mp3") == 0;
    assert Destination(folders, FileExt(file)) == "Music";
    assert "Music"[0] != OthersFolder[0];
    assert UniqueNames(es);
    FindAt(es, 0);
    FindAt(es, 2);
    assert MoveInto(es, file, "Music").Some?;
    var r := MoveOne(es, folders, file);
    assert r.entries == MoveInto(es, file, "Music").value;
    MoveIntoFind(es, file, "Music", file);
    MoveIntoFind(es, file, "Music", "Music");
    assert r.errors == [];
    assert Find(r.entries, file) == None;
    assert [] + [Entry(file, File(size))] == [Entry(file, File(size))];
    assert Find(r.entries, "Music") == Some(Dir([Entry(file, File(size))]));
  }

  /** The folder `backup_files` copies into: `backup_` followed by the time stamp. */
  function BackupName(stamp: string): string
  {
    "backup_" + stamp
  }

  /**
   * `backup_files`: the listing as it stands is copied into a new
   * subdirectory of the directory itself. It fails (`None`) when that name is
   * taken or when the copy fails (`copyOk` false, the outcome of
   * `shutil.copytree`).
   */
  function Backup(es: seq<Entry>, stamp: string, copyOk: bool): Option<seq<Entry>>
  {
    if !copyOk || Exists(es, BackupName(stamp)) then None
    else Some(es + [Entry(BackupName(stamp), Dir(es))])
  }

  /**
   * A backup keeps the listing, adds one directory holding a copy of it, and
   * so doubles the bytes under the directory.
   */
  lemma BackupCopies(es: seq<Entry>, stamp: string, copyOk: bool)
    requires UniqueNames(es)
    requires Backup(es, stamp, copyOk).Some?
    ensures var b := Backup(es, stamp, copyOk).value;
      b[..|es|] == es && UniqueNames(b)
      && Find(b, BackupName(stamp)) == Some(Dir(es))
      && TotalSize(b) == 2 * TotalSize(es)
  {
    var name := BackupName(stamp);
    var e := Entry(name, Dir(es));
    var b := es + [e];
    assert b[..|es|] == es;
    assert UniqueNames(b) by {
      forall i | 0 <= i < |es|
        ensures b[i].name != name
      {
        assert Names(es)[i] == es[i].name;
      }
    }
    assert Find(b, name) == Some(Dir(es)) by {
      FindAt(b, |es|);
    }
    assert TotalSize(b) == 2 * TotalSize(es) by {
      TotalSizeAppend(es, [e]);
      assert TotalSize([e]) == TotalSize(es) + TotalSize([e][1..]);
      assert [e][1..] == [];
    }
  }

  /**
   * The run after the directory check: back up, then organise only if the
   * backup succeeded; otherwise nothing is created or moved and the failure
   * is reported.
   */
  function BackupAndOrganize(es: seq<Entry>, bad: set<string>, folders: Mapping, stamp: string, copyOk: bool): Outcome
  {
    match Backup(es, stamp, copyOk)
    case None => Outcome(es, [BackupFailed])
    case Some(b) => Organize(b, bad, folders)
  }

  /**
   * A run whose backup succeeded ends with twice the bytes it started with
   * (the originals, moved or not, and their copy), and the backup still
   * holds a copy of everything the directory held.
   */
  lemma BackupAndOrganizeSize(es: seq<Entry>, bad: set<string>, folders: Mapping, stamp: string, copyOk: bool)
    requires UniqueNames(es) && Backup(es, stamp, copyOk).Some?
    ensures var r := BackupAndOrganize(es, bad, folders, stamp, copyOk).entries;
      TotalSize(r) == 2 * TotalSize(es)
      && IsDir(r, BackupName(stamp)) && es <= Find(r, BackupName(stamp)).value.children
  {
    var b := Backup(es, stamp, copyOk).value;
    BackupCopies(es, stamp, copyOk);
    OrganizeKeeps(b, bad, folders, BackupName(stamp));
  }
}
