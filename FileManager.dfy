/**
 * The application object and the directory it works on, step by step as
 * the code runs: `Directory` stands for the filesystem under the chosen
 * directory (the few calls the application makes on it), and `App` for the
 * `FileManagerApp` state that the core methods read and update. Each method
 * is proved to end in the state the functions of `Folders`, `Organizer`,
 * `Summary` and `Report` describe, so what is proved about those functions
 * holds for the methods.
 */
module FileManager {
  import opened Wrappers
  import opened OrderedDict
  import opened FileTree
  import Config
  import opened Folders
  import opened Classifier
  import opened Organizer
  import opened Summary
  import opened Report

  /**
   * The chosen directory: its top-level listing (each subdirectory holding
   * its own listing) and the names under which `os.makedirs` fails.
   */
  class Directory {
    var entries: seq<Entry>
    const unwritable: set<string>

    /** A directory never lists two entries under one name. */
    predicate Valid()
      reads this
    {
      UniqueNames(entries)
    }

    constructor (listing: seq<Entry>, refused: set<string>)
      requires UniqueNames(listing)
      ensures Valid()
      ensures entries == listing && unwritable == refused
    {
      entries := listing;
      unwritable := refused;
    }

    /** `os.path.exists(os.path.join(base, name))`. */
    predicate PathExists(name: string)
      reads this
    {
      Exists(entries, name)
    }

    /** `os.path.isfile(os.path.join(base, name))`. */
    predicate IsFileAt(name: string)
      reads this
    {
      IsFile(entries, name)
    }

    /** `os.listdir(base)`. */
    function ListDir(): seq<string>
      reads this
    {
      Names(entries)
    }

    /** `os.makedirs(os.path.join(base, name))`: fails on a name that exists or is refused. */
    method MakeDirs(name: string) returns (ok: bool)
      requires Valid()
      modifies this
      ensures Valid()
      ensures ok == (!Exists(old(entries), name) && name !in unwritable)
      ensures entries == if ok then MakeDir(old(entries), name) else old(entries)
    {
      ok := !PathExists(name) && name !in unwritable;
      if ok {
        MakeDirUnique(entries, name);
        entries := MakeDir(entries, name);
      }
    }

    /** `shutil.move(os.path.join(base, file), os.path.join(base, dest))`. */
    method Move(file: string, dest: string) returns (ok: bool)
      requires Valid()
      modifies this
      ensures Valid()
      ensures ok == MoveInto(old(entries), file, dest).Some?
      ensures entries == if ok then MoveInto(old(entries), file, dest).value else old(entries)
    {
      var r := MoveInto(entries, file, dest);
      ok := r.Some?;
      if ok {
        MoveIntoNames(entries, file, dest);
        entries := r.value;
      }
    }

    /**
     * `shutil.copytree(base, os.path.join(base, BackupName(stamp)))`, where
     * `copyOk` says whether copying the files succeeds.
     */
    method CopyTree(stamp: string, copyOk: bool) returns (ok: bool)
      requires Valid()
      modifies this
      ensures Valid()
      ensures ok == Backup(old(entries), stamp, copyOk).Some?
      ensures entries == if ok then Backup(old(entries), stamp, copyOk).value else old(entries)
    {
      var r := Backup(entries, stamp, copyOk);
      ok := r.Some?;
      if ok {
        BackupCopies(entries, stamp, copyOk);
        entries := r.value;
      }
    }
  }

  /** `organize_files` is the folder pass followed by the file pass over the listing taken in between. */
  lemma OrganizeParts(es: seq<Entry>, bad: set<string>, folders: Mapping, c: Outcome, m: Outcome)
    requires c == CreateAll(es, bad, Keys(folders))
    requires m == MoveAll(c.entries, folders, Names(c.entries))
    ensures Organize(es, bad, folders) == Outcome(m.entries, c.errors + m.errors)
  {
  }

  /** After a successful backup, a run is `organize_files` on the directory holding the backup. */
  lemma BackupParts(es: seq<Entry>, bad: set<string>, folders: Mapping, stamp: string, copyOk: bool, b: seq<Entry>)
    requires Backup(es, stamp, copyOk) == Some(b)
    ensures BackupAndOrganize(es, bad, folders, stamp, copyOk) == Organize(b, bad, folders)
  {
  }

  lemma AppendAssoc<T>(a: seq<T>, b: seq<T>, c: seq<T>)
    ensures a + b + c == a + (b + c)
  {
  }

  /**
   * The step of a "remaining work" loop invariant: when the rest of the run
   * from the current state, `before`, is one pass reporting `step` followed
   * by the rest of the run from the next state, `after`, the invariant holds
   * again with `step` counted as done.
   */
  lemma Advance(all: Outcome, before: Outcome, done: seq<Error>, step: seq<Error>, after: Outcome)
    requires before.entries == all.entries && done + before.errors == all.errors
    requires before.entries == after.entries && before.errors == step + after.errors
    ensures after.entries == all.entries && (done + step) + after.errors == all.errors
  {
    AppendAssoc(done, step, after.errors);
  }

  lemma SetAllSnoc<V>(d: Dict<V>, p: seq<(string, V)>, x: (string, V))
    ensures SetAll(d, p + [x]) == Set(SetAll(d, p), x.0, x.1)
  {
    SetAllAppend(d, p, [x]);
    assert [x][1..] == [];
  }

  /** One pass of the loop of `create_dirs`, from `es` to `es'` with the errors `step`, leaves the rest of the run to do. */
  lemma CreateAllStep(es: seq<Entry>, bad: set<string>, names: seq<string>, i: nat, es': seq<Entry>, step: seq<Error>)
    requires i < |names|
    requires CreateOne(es, bad, names[i]) == Outcome(es', step)
    ensures CreateAll(es, bad, names[i..]).entries == CreateAll(es', bad, names[i + 1..]).entries
    ensures CreateAll(es, bad, names[i..]).errors == step + CreateAll(es', bad, names[i + 1..]).errors
  {
    assert names[i..][1..] == names[i + 1..];
  }

  /** One pass of the loop of `organize_files`, from `es` to `es'` with the errors `step`, leaves the rest of the run to do. */
  lemma MoveAllStep(es: seq<Entry>, folders: Mapping, names: seq<string>, i: nat, es': seq<Entry>, step: seq<Error>)
    requires i < |names|
    requires Visit(es, folders, names[i]) == Outcome(es', step)
    ensures MoveAll(es, folders, names[i..]).entries == MoveAll(es', folders, names[i + 1..]).entries
    ensures MoveAll(es, folders, names[i..]).errors == step + MoveAll(es', folders, names[i + 1..]).errors
  {
    assert names[i..][1..] == names[i + 1..];
  }

  /** One pass of the inner loop of `summarize_files` adds the next file to the tally of those before it. */
  lemma AddFileStep(d: Sizes, files: seq<(string, nat)>, j: nat)
    requires j < |files|
    ensures Tally(d, ExtSizes(files[..j + 1])) ==
      AddSize(Tally(d, ExtSizes(files[..j])), ExtOf(files[j].0), files[j].1)
  {
    assert ExtSizes(files[..j + 1]) == ExtSizes(files[..j]) + [(ExtOf(files[j].0), files[j].1)];
    TallySnoc(d, ExtSizes(files[..j]), (ExtOf(files[j].0), files[j].1));
  }

  /** One pass of the outer loop of `summarize_files` tallies the next directory's files after those before. */
  lemma WalkStep(walk: seq<seq<(string, nat)>>, i: nat)
    requires i < |walk|
    ensures Tally([], ExtSizes(Flatten(walk[..i + 1]))) ==
      Tally(Tally([], ExtSizes(Flatten(walk[..i]))), ExtSizes(walk[i]))
  {
    FlattenSnoc(walk, i);
    var seen := Flatten(walk[..i]);
    assert ExtSizes(seen + walk[i]) == ExtSizes(seen) + ExtSizes(walk[i]);
    TallyAppend([], ExtSizes(seen), ExtSizes(walk[i]));
  }

  /** The inner loop of `summarize_files` over one directory's files. */
  method AddFiles(start: Sizes, files: seq<(string, nat)>) returns (sizes: Sizes)
    ensures sizes == Tally(start, ExtSizes(files))
  {
    sizes := start;
    var j := 0;
    assert files[..j] == [];
    while j < |files|
      invariant 0 <= j <= |files|
      invariant sizes == Tally(start, ExtSizes(files[..j]))
    {
      var name, size := files[j].0, files[j].1;
      var ext := ExtOf(name);
      var current: Option<nat> := Get<nat>(sizes, ext);
      AddFileStep(start, files, j);
      AddSizeBranches(sizes, ext, size, current);
      if current.Some? {
        sizes := Set<nat>(sizes, ext, current.value + size);
      } else {
        sizes := Set<nat>(sizes, ext, size);
      }
      j := j + 1;
    }
    assert files[..j] == files;
  }

  lemma FlattenSnoc<T>(xss: seq<seq<T>>, i: nat)
    requires i < |xss|
    ensures Flatten(xss[..i + 1]) == Flatten(xss[..i]) + xss[i]
  {
    assert xss[..i + 1] == xss[..i] + [xss[i]];
    FlattenAppend(xss[..i], [xss[i]]);
    assert [xss[i]][1..] == [];
  }

  lemma LinesSnoc(s: Sizes, i: nat)
    requires i < |s|
    ensures Lines(s[..i + 1]) == Lines(s[..i]) + LineText(s[i]) + "\n"
  {
    assert s[..i + 1] == s[..i] + [s[i]];
    var one: Sizes := [s[i]];
    LinesAppend(s[..i], one);
    assert one[1..] == [];
  }

  /** An extension's entry after one more file: `+=` on a present entry, `=` on a new one. */
  lemma AddSizeBranches(d: Sizes, ext: string, size: nat, current: Option<nat>)
    requires current == Get<nat>(d, ext)
    ensures current.Some? ==> AddSize(d, ext, size) == Set<nat>(d, ext, current.value + size)
    ensures current.None? ==> AddSize(d, ext, size) == Set<nat>(d, ext, size)
  {
  }

  /**
   * The loop of `move_file` over the folder mapping, in order: the first
   * folder whose extensions hold `ext`, or "Others" when none does.
   */
  method FindFolder(folders: Mapping, ext: string) returns (dest: string)
    ensures dest == Destination(folders, ext)
  {
    var i := 0;
    while i < |folders|
      invariant 0 <= i <= |folders|
      invariant forall k :: 0 <= k < i ==> ext !in folders[k].1
    {
      if ext in folders[i].1 {
        assert FirstMatch(folders, ext) == i;
        return folders[i].0;
      }
      i := i + 1;
    }
    assert FirstMatch(folders, ext) == -1;
    return OthersFolder;
  }

  /** The error dialogs the application has shown, in order. */
  class Page {
    var dialogs: seq<Error>

    constructor ()
      ensures dialogs == []
    {
      dialogs := [];
    }
  }

  /** The `FileManagerApp` state the core reads and writes. */
  class App {
    const page: Page
    /** The four category fields. */
    var musicName: string
    var photosName: string
    var docsName: string
    var videosName: string
    /** `self.custom_folders`: the custom folders added this session, in order. */
    var customFolders: seq<(string, seq<string>)>
    /** The text of the summary field. */
    var summaryText: string

    /** The window as it opens: default folder names, no custom folder, nothing shown. */
    constructor ()
      ensures Display() == DefaultNames
      ensures customFolders == [] && summaryText == "" && fresh(page) && page.dialogs == []
    {
      page := new Page();
      musicName := "Music";
      photosName := "Photos";
      docsName := "Documents";
      videosName := "Videos";
      customFolders := [];
      summaryText := "";
    }

    function Display(): DisplayNames
      reads this
    {
      DisplayNames(musicName, photosName, docsName, videosName)
    }

    /** `show_error_dialog`. */
    method ShowError(e: Error)
      modifies page
      ensures page.dialogs == old(page.dialogs) + [e]
    {
      page.dialogs := page.dialogs + [e];
    }

    /** `get_folders`: the dict display, one assignment per custom folder, then "Others". */
    method GetFolders() returns (folders: Mapping)
      ensures folders == Resolve(Display(), customFolders)
    {
      var head: seq<(string, seq<string>)> := [(musicName, Config.MusicExts), (photosName, Config.PhotosExts),
        (docsName, Config.DocsExts), (videosName, Config.VideosExts)];
      folders := [];
      var k := 0;
      while k < 4
        invariant 0 <= k <= 4
        invariant folders == SetAll([], head[..k])
      {
        SetAllSnoc([], head[..k], head[k]);
        assert head[..k + 1] == head[..k] + [head[k]];
        folders := Set(folders, head[k].0, head[k].1);
        k := k + 1;
      }
      assert head[..k] == head + customFolders[..0];
      var i := 0;
      while i < |customFolders|
        invariant 0 <= i <= |customFolders|
        invariant folders == SetAll([], head + customFolders[..i])
      {
        var (name, exts) := customFolders[i];
        SetAllSnoc([], head + customFolders[..i], customFolders[i]);
        assert head + customFolders[..i + 1] == head + customFolders[..i] + [customFolders[i]];
        folders := Set(folders, name, exts);
        i := i + 1;
      }
      SetAllSnoc([], head + customFolders, (OthersFolder, []));
      assert head + customFolders[..i] == head + customFolders;
      folders := Set(folders, OthersFolder, []);
    }

    /** `create_dirs(base_dir, folders)`. */
    method CreateDirs(d: Directory, folders: Mapping)
      requires d.Valid()
      modifies d, page
      ensures d.Valid()
      ensures var o := CreateAll(old(d.entries), d.unwritable, Keys(folders));
        d.entries == o.entries && page.dialogs == old(page.dialogs) + o.errors
    {
      var names := Keys(folders);
      ghost var all := CreateAll(d.entries, d.unwritable, names);
      ghost var done: seq<Error> := [];
      var i := 0;
      assert names[i..] == names;
      while i < |names|
        invariant 0 <= i <= |names|
        invariant d.Valid()
        invariant page.dialogs == old(page.dialogs) + done
        invariant CreateAll(d.entries, d.unwritable, names[i..]).entries == all.entries
        invariant done + CreateAll(d.entries, d.unwritable, names[i..]).errors == all.errors
      {
        var name := names[i];
        ghost var o := CreateOne(d.entries, d.unwritable, name);
        ghost var before := CreateAll(d.entries, d.unwritable, names[i..]);
        CreateAllStep(d.entries, d.unwritable, names, i, o.entries, o.errors);
        CreateFolder(d, name);
        Advance(all, before, done, o.errors, CreateAll(d.entries, d.unwritable, names[i + 1..]));
        done := done + o.errors;
        i := i + 1;
      }
    }

    /** One pass of the loop of `create_dirs`: a missing folder is made, and a failure is reported. */
    method CreateFolder(d: Directory, name: string)
      requires d.Valid()
      modifies d, page
      ensures d.Valid()
      ensures var o := CreateOne(old(d.entries), d.unwritable, name);
        d.entries == o.entries && page.dialogs == old(page.dialogs) + o.errors
    {
      if !d.PathExists(name) {
        var ok := d.MakeDirs(name);
        if !ok {
          ShowError(FolderNotCreated(name));
        }
      }
    }

    /** `move_file(file, base_dir, folders)`: one move into the file's folder; a failed move is reported. */
    method MoveFile(file: string, d: Directory, folders: Mapping)
      requires d.Valid()
      modifies d, page
      ensures d.Valid()
      ensures var o := MoveOne(old(d.entries), folders, file);
        d.entries == o.entries && page.dialogs == old(page.dialogs) + o.errors
    {
      var dest := FindFolder(folders, FileExt(file));
      var ok := d.Move(file, dest);
      if !ok {
        ShowError(FileNotMoved(file));
      }
    }

    /** One pass of the loop of `organize_files`: a regular file is moved, any other name is skipped. */
    method MoveIfFile(file: string, d: Directory, folders: Mapping)
      requires d.Valid()
      modifies d, page
      ensures d.Valid()
      ensures var o := Visit(old(d.entries), folders, file);
        d.entries == o.entries && page.dialogs == old(page.dialogs) + o.errors
    {
      if d.IsFileAt(file) {
        MoveFile(file, d, folders);
      }
    }

    /** `organize_files(src_dir, folders)`: the folders first, then each regular file of the listing. */
    method OrganizeFiles(d: Directory, folders: Mapping)
      requires d.Valid()
      modifies d, page
      ensures d.Valid()
      ensures var o := Organize(old(d.entries), d.unwritable, folders);
        d.entries == o.entries && page.dialogs == old(page.dialogs) + o.errors
    {
      ghost var es0, log0 := d.entries, page.dialogs;
      CreateDirs(d, folders);
      ghost var c := CreateAll(es0, d.unwritable, Keys(folders));
      var listing := d.ListDir();
      MoveListed(d, folders, listing);
      ghost var m := MoveAll(c.entries, folders, listing);
      OrganizeParts(es0, d.unwritable, folders, c, m);
      AppendAssoc(log0, c.errors, m.errors);
    }

    /** The loop of `organize_files`: each name of the listing that is a regular file is moved. */
    method MoveListed(d: Directory, folders: Mapping, listing: seq<string>)
      requires d.Valid()
      modifies d, page
      ensures d.Valid()
      ensures var o := MoveAll(old(d.entries), folders, listing);
        d.entries == o.entries && page.dialogs == old(page.dialogs) + o.errors
    {
      ghost var all := MoveAll(d.entries, folders, listing);
      ghost var done: seq<Error> := [];
      var i := 0;
      assert listing[i..] == listing;
      while i < |listing|
        invariant 0 <= i <= |listing|
        invariant d.Valid()
        invariant page.dialogs == old(page.dialogs) + done
        invariant MoveAll(d.entries, folders, listing[i..]).entries == all.entries
        invariant done + MoveAll(d.entries, folders, listing[i..]).errors == all.errors
      {
        var file := listing[i];
        ghost var o := Visit(d.entries, folders, file);
        ghost var before := MoveAll(d.entries, folders, listing[i..]);
        MoveAllStep(d.entries, folders, listing, i, o.entries, o.errors);
        MoveIfFile(file, d, folders);
        Advance(all, before, done, o.errors, MoveAll(d.entries, folders, listing[i + 1..]));
        done := done + o.errors;
        i := i + 1;
      }
    }

    /** `summarize_files(src_dir)`: the size of every regular file added to its extension's entry. */
    method SummarizeFiles(d: Directory) returns (sizes: Sizes)
      ensures sizes == Summarize(d.entries)
    {
      var walk := Walk(d.entries);
      sizes := [];
      var i := 0;
      assert walk[..i] == [];
      while i < |walk|
        invariant 0 <= i <= |walk|
        invariant sizes == Tally([], ExtSizes(Flatten(walk[..i])))
      {
        WalkStep(walk, i);
        sizes := AddFiles(sizes, walk[i]);
        i := i + 1;
      }
      assert walk[..i] == walk;
    }

    /** `format_summary(file_sizes)`. */
    method FormatSummary(sizes: Sizes) returns (text: string)
      ensures text == Render(sizes)
    {
      var sorted := SortBySize(sizes);
      var header := Title + "\n";
      text := header;
      var i := 0;
      assert Lines(sorted[..i]) == [];
      while i < |sorted|
        invariant 0 <= i <= |sorted|
        invariant text == header + Lines(sorted[..i])
      {
        LinesSnoc(sorted, i);
        AppendAssoc(text, LineText(sorted[i]), "\n");
        AppendAssoc(header, Lines(sorted[..i]), LineText(sorted[i]));
        AppendAssoc(header, Lines(sorted[..i]) + LineText(sorted[i]), "\n");
        text := text + LineText(sorted[i]) + "\n";
        i := i + 1;
      }
      assert sorted[..i] == sorted;
    }

    /** `backup_files(src_dir)`: true when the copy was made; a failure is reported. */
    method BackupFiles(d: Directory, stamp: string, copyOk: bool) returns (ok: bool)
      requires d.Valid()
      modifies d, page
      ensures d.Valid()
      ensures ok == Backup(old(d.entries), stamp, copyOk).Some?
      ensures d.entries == if ok then Backup(old(d.entries), stamp, copyOk).value else old(d.entries)
      ensures page.dialogs == old(page.dialogs) + if ok then [] else [BackupFailed]
    {
      ok := d.CopyTree(stamp, copyOk);
      if !ok {
        ShowError(BackupFailed);
      }
    }

    /**
     * `on_add_custom_click`: a folder with a name is appended with its parsed
     * extensions (there is always at least one, possibly empty); without a
     * name nothing is added and an error is shown.
     */
    method OnAddCustomClick(name: string, extsText: string)
      modifies this, page
      ensures name != [] ==>
        customFolders == old(customFolders) + [(name, ParseExtensions(extsText))] && page.dialogs == old(page.dialogs)
      ensures name == [] ==>
        customFolders == old(customFolders) && page.dialogs == old(page.dialogs) + [MissingFolderInput]
      ensures Display() == old(Display()) && summaryText == old(summaryText)
    {
      var exts := ParseExtensions(extsText);
      if name != [] && exts != [] {
        customFolders := customFolders + [(name, exts)];
      } else {
        ShowError(MissingFolderInput);
      }
    }

    /**
     * `on_organize_click`: only a directory is organised, and only after a
     * successful backup; then the summary field shows the report of the tree.
     * `d` is null when the chosen path is not a directory.
     */
    method OnOrganizeClick(d: Directory?, stamp: string, copyOk: bool)
      requires d != null ==> d.Valid()
      modifies this, d, page
      ensures d != null ==> d.Valid()
      ensures d == null ==> page.dialogs == old(page.dialogs) + [NotADirectory] && summaryText == old(summaryText)
      ensures d != null ==>
        var o := BackupAndOrganize(old(d.entries), d.unwritable, Resolve(old(Display()), old(customFolders)), stamp, copyOk);
        d.entries == o.entries && page.dialogs == old(page.dialogs) + o.errors
      ensures d != null ==>
        summaryText == if Backup(old(d.entries), stamp, copyOk).Some? then Render(Summarize(d.entries)) else old(summaryText)
      ensures customFolders == old(customFolders) && Display() == old(Display())
    {
      if d == null {
        ShowError(NotADirectory);
        return;
      }
      var folders := GetFolders();
      var ok := BackupThenOrganize(d, folders, stamp, copyOk);
      if ok {
        var sizes := SummarizeFiles(d);
        summaryText := FormatSummary(sizes);
      }
    }

    /** The part of `on_organize_click` that changes the directory: a backup, then, if it was made, the organisation. */
    method BackupThenOrganize(d: Directory, folders: Mapping, stamp: string, copyOk: bool) returns (ok: bool)
      requires d.Valid()
      modifies d, page
      ensures d.Valid()
      ensures ok == Backup(old(d.entries), stamp, copyOk).Some?
      ensures var o := BackupAndOrganize(old(d.entries), d.unwritable, folders, stamp, copyOk);
        d.entries == o.entries && page.dialogs == old(page.dialogs) + o.errors
    {
      ghost var es0, log0 := d.entries, page.dialogs;
      ok := BackupFiles(d, stamp, copyOk);
      if ok {
        assert page.dialogs == log0;
        ghost var b := d.entries;
        OrganizeFiles(d, folders);
        BackupParts(es0, d.unwritable, folders, stamp, copyOk, b);
      }
    }
  }
}
