# FILE-MANAGER in Dafny

A model of the core of FILE-MANAGER, a desktop tool that tidies a chosen
directory. Its window holds four category fields (Music, Photos, Documents,
Videos), a list of custom folders added in the session, and an "Organize"
button. Pressing the button does the following:

1. It checks that the chosen path is a directory.
2. It copies the whole tree into a `backup_<time stamp>` subdirectory.
3. It creates the category folders that are missing.
4. It moves every regular file of the top level into the first folder whose
   extension list holds the file's extension, or into "Others".
5. It adds up the bytes of every file in the tree per extension.
6. It shows the totals sorted by size, largest first.

The model is split by concern, one module per file:

- `Text`: the Python string operations the program uses (`lower`, `upper`,
  `strip`, `split`, `join`, `os.path.splitext` on a bare name), on ASCII.
- `OrderedDict`: Python's insertion-ordered `dict`, as a sequence of
  (key, value) pairs. Assigning to a present key replaces its value in
  place; assigning to a new key appends it.
- `Config`: the built-in extension table.
- `Folders`: `get_folders` (`Resolve`) and the parsing of a custom folder's
  comma-separated extensions (`ParseExtensions`).
- `Classifier`: the extension rule of `move_file` and its first-match
  choice of folder.
- `FileTree`: the directory as a tree of named entries. It provides the
  `shutil.move`, `os.makedirs` and `os.walk` effects as functions.
- `Organizer`: `create_dirs`, `move_file`, `organize_files` and
  `backup_files` as functions from a listing to an `Outcome`. An `Outcome`
  holds the new listing and the error dialogs shown. This module also holds
  the lemmas about those functions.
- `Summary`: `summarize_files` as a fold (`Tally`) over the files in walk
  order.
- `Report`: `format_summary`. This is a stable sort by decreasing size (an
  insertion sort), the `{:.1f}` rendering of a size in MiB, and the label
  `ext.upper()[1:]`.
- `FileManager`: the program in its own imperative form.
  - `Directory` is a class whose `entries` the filesystem methods update.
  - `Page` is a class that holds the error dialogs shown.
  - `App` is a class holding the four fields, the custom-folder list and the
    summary text.
  - Each `App` method runs the loops of the corresponding Python method and
    is proved equal to the function above that specifies it.

Two facts about the program follow from the model and are worth knowing:

- The backup folder is created inside the directory being organised.
  Organising never moves or enters a subdirectory, so the backup survives a
  run intact. Its files count in the summary: in the model, after a
  successful run the tree holds exactly twice the bytes it held before
  (`Organizer.BackupAndOrganizeSize`). The program can end with fewer. When
  a regular file at the top level has a folder's name, `shutil.move`
  renames another file over it. The model treats that move as a failure
  instead (see "Left out").
- `move_file` and `summarize_files` use different extension rules.
  `move_file` takes the text after the last dot, so a file called `mp3` goes
  to Music. `summarize_files` uses `os.path.splitext`, with the dot, and
  gives `""` to dotfiles.

Where the tests and the code disagree, the model follows the code.
`test_main.py:18-24` expects `get_folders()` to return the configuration
table keyed `'Docs'`, followed by "Others". But `main.py:56` opens the
third field with the value "Documents", and the field's value is the key.
`Folders.ResolveDefaults` states what the code returns.
`Folders.ResolveTable` states that the test's expectation holds when that
field reads "Docs". `Folders.ResolveDocsKey` states that, with the other
three fields as the window opens them, any other value of the third field
gives no "Docs" folder, while the expected table has one. The key sets differ, so the dicts differ whatever their order.

The guard `if folder_name and folder_exts` at `main.py:244` never fails on
its second half. Splitting any text on commas gives at least one piece, so
the parsed list is never empty: an empty field gives `[""]`. The model keeps
the check as written. `FileManager.App.OnAddCustomClick` states the
resulting behaviour: only an empty name is refused.

## Model

| member | source | states |
|---|---|---|
| Text.Lower | main.py:144 | `lower()` keeps the length, lowers each character, and leaves no upper-case letter |
| Text.Upper | main.py:205 | `upper()` keeps the length, raises each character, and leaves no lower-case letter |
| Text.TrimStart | main.py:243 | `lstrip()` removes only leading whitespace, and what is left does not start with whitespace |
| Text.TrimEnd | main.py:243 | `rstrip()` removes only trailing whitespace, and what is left does not end with whitespace |
| Text.Strip | main.py:243 | the result of `strip()` neither starts nor ends with whitespace |
| Text.StripSlice | main.py:243 | `strip()` is the slice of the text between its leading and trailing whitespace, and everything removed is whitespace |
| Text.StripLowerAbsent | main.py:243 | `strip().lower()` brings in no non-letter character the text did not hold |
| Text.LowerStripUnchanged | main.py:243 | text without whitespace or upper-case letters is its own `strip().lower()` |
| Text.LastIndex | main.py:144 | the position of the last occurrence of a character, or -1 when it does not occur |
| Text.Split | main.py:243 | `split(sep)` is never empty, and no piece holds the separator |
| Text.JoinSplit | main.py:243 | joining the pieces of a split with the separator gives back the text |
| Text.SplitJoin | main.py:243 | splitting pieces without the separator, once joined, gives back the pieces |
| Text.SplitPieces | main.py:243 | every character of a piece of a split occurs in the text |
| Text.LastPieceIsTail | main.py:144 | `split('.')[-1]` is the suffix after the last dot; it is the whole text, and the only piece, exactly when there is no dot |
| Text.SplitExtShape | main.py:190 | `os.path.splitext(name)[1]` is empty or a suffix that starts with its only dot; it is non-empty exactly when some non-dot comes before a dot |
| OrderedDict.Keys | main.py:146 | a dict has one key per item; `KeysAt` gives their order |
| OrderedDict.KeysAt | main.py:146 | the keys come in item order: the i-th key is the key of the i-th item |
| OrderedDict.Get | main.py:192 | a lookup finds a value exactly when the key is present |
| OrderedDict.Set | main.py:125 | after `d[k] = v` the key holds `v`, and every other key holds what it held |
| OrderedDict.SetKeys | main.py:125 | assigning to a present key keeps the key order; a new key is appended at the end |
| OrderedDict.SetNew | main.py:195 | assigning to a new key appends the pair |
| OrderedDict.SetDistinct | main.py:125 | assignment never lists a key twice |
| OrderedDict.SetAllAppend | main.py:120-126 | a run of assignments split in two is the second part applied after the first |
| OrderedDict.SetAllFresh | main.py:120-123 | assignments to distinct new keys give the pairs in order, as a dict display does |
| OrderedDict.Dedup | main.py:120-126 | the first occurrences of a sequence hold each element once and nothing else |
| OrderedDict.DedupSnoc | main.py:125 | one more key adds itself at the end when it is new and changes nothing otherwise |
| OrderedDict.LastValue | main.py:124-125 | the value of a key's last assignment exists exactly when the key is assigned, and is one of its assigned values |
| OrderedDict.SetAllKeys | main.py:120-126 | after a run of assignments the keys are the first occurrences of the assigned keys, in order |
| OrderedDict.SetAllGet | main.py:120-126 | after a run of assignments each assigned key holds its last assigned value, and the others hold what they held |
| Folders.Resolve | main.py:118-127 | computes `get_folders`: the dict display of the four fields with the table's lists, then each custom folder assigned in order, then "Others" assigned `[]`; `ResolveKeys`, `ResolveGet` and `ResolveOthers` state the result |
| Folders.ResolveKeys | main.py:118-127 | the folders come in order: the four display names, then custom names in the order added, then "Others"; a repeated name keeps its first place, and no folder is listed twice |
| Folders.ResolveGet | main.py:124-126 | every folder maps to the list of its last assignment |
| Folders.ResolveOthers | main.py:126 | "Others" always maps to no extension, even when a custom folder has that name |
| Folders.ResolveFresh | main.py:120-127 | when the four fields, the custom names and "Others" are all different, the mapping is the assignments themselves, in order |
| Folders.ResolveDefaults | main.py:54-57 | with the fields as the window opens them and no custom folder, the mapping is Music, Photos, Documents, Videos with the table's lists, then "Others" with none |
| Folders.TableAssignments | config.py:4-9 | helper for `ResolveTable`: with fields reading the table's keys, the assignments are the table followed by "Others" |
| Folders.ResolveTable | test_main.py:18-24 | the test's expected mapping is what `get_folders` returns when the third field reads "Docs" |
| Folders.ResolveDocsKey | test_main.py:18-24 | with no custom folder and the other three fields as the window opens them (Music, Photos, Videos), `get_folders` has a "Docs" folder exactly when the third field reads "Docs", and the test's expected dict always has one; for any other value, such as the default "Documents" of `main.py:56`, the two dicts have different keys |
| Folders.ParseExtensions | main.py:243 | there is one extension per comma-separated piece, so at least one; none holds a comma or an upper-case letter, or starts or ends with whitespace |
| Folders.CleanExt | main.py:243 | `ext.strip().lower()` holds no upper-case letter and no whitespace at either end |
| Folders.NormalisedSplit | main.py:243 | a piece of text that has no whitespace or capitals is its own parsed extension |
| Folders.ParseExtensionsJoin | main.py:243 | for text already lower-case and free of whitespace, joining the parsed extensions with commas gives the text back |
| Folders.ParseZipRar | main.py:243 | `"zip, rar"` parses to `["zip", "rar"]`: the space after the comma is dropped |
| Folders.ParseSingle | test_main.py:68-76 | `"custom"` parses to `["custom"]` |
| Folders.CleanPlain | main.py:243 | a piece without whitespace or upper-case letters is kept as typed |
| Folders.CleanLead | main.py:243 | one space before an otherwise plain piece is stripped |
| Classifier.FileExt | main.py:144 | computes `file.split('.')[-1].lower()`; `FileExtAfterLastDot` states what it is |
| Classifier.FileExtAfterLastDot | main.py:144 | the extension is the lower-cased text after the last dot, or the whole lower-cased name when there is no dot |
| Classifier.FirstMatch | main.py:146-152 | the loop stops at the first folder whose list holds the extension, and no earlier folder holds it; it is -1 when none does |
| Classifier.Destination | main.py:146-156 | computes the folder `move_file` moves to: the folder at `FirstMatch`, or "Others" when it is -1; `FirstMatch` states the choice |
| Classifier.Mp3Ext | main.py:144 | an eight-character name whose last dot is its fifth character has its last three characters, lower-cased, as extension |
| Classifier.Mp3GoesToMusic | test_main.py:33-45 | `test.mp3` has extension `mp3`, and with Music listed first it goes to Music |
| FileTree.Names | main.py:164 | helper: computes `os.listdir`, the entries' names in listing order |
| FileTree.IndexOf | main.py:149 | the position of the first entry with a name, or -1 when none has it |
| FileTree.Find | main.py:133 | a path is found exactly when its name is listed |
| FileTree.Exists | main.py:133 | computes `os.path.exists(os.path.join(base, name))`: the empty name (the base itself) or a listed name |
| FileTree.FindAt | main.py:133 | in a listing without repeated names, each entry is found under its own name |
| FileTree.RemoveAt | main.py:149 | helper: computes the listing without one entry, as the source side of a move leaves it; `TotalSizeRemoveAt` and `MoveIntoNames` state what follows |
| FileTree.ReplaceAt | main.py:149 | helper: computes the listing with one entry's contents replaced, as the destination of a move changes; `TotalSizeReplaceAt` states what follows |
| FileTree.TotalSizeAppend | main.py:186-189 | the bytes of two listings side by side add up |
| FileTree.TotalSizeRemoveAt | main.py:149 | removing an entry removes exactly its bytes |
| FileTree.TotalSizeReplaceAt | main.py:149 | replacing an entry's contents changes the bytes by the difference |
| FileTree.MoveInto | main.py:149 | computes `shutil.move(base/file, base/dest)`: the file's entry is removed from the top level and appended to the destination directory, or the move fails; `MoveIntoSucceeds`, `MoveIntoSize`, `MoveIntoNames` and `MoveIntoFind` state the result |
| FileTree.MoveIntoSucceeds | main.py:149 | a move succeeds exactly when the name is a regular file, the destination a directory, and the destination does not already list that name |
| FileTree.MoveIntoSize | main.py:149 | a move neither creates nor destroys bytes |
| FileTree.MoveIntoNames | main.py:149 | after a move the file's name is no longer listed, every other name still is, and no name is listed twice |
| FileTree.MoveIntoFind | main.py:149 | after a move the destination lists the file last, after what it held, and every other entry finds what it found |
| FileTree.MakeDir | main.py:135 | `os.makedirs` lists the new name last and adds no bytes |
| FileTree.MakeDirUnique | main.py:133-135 | making a folder under a name that is not listed keeps the names distinct |
| FileTree.Walk | main.py:186 | computes the `files` of each step of `os.walk`, top-down: the top level's regular files, then the walk of each subdirectory in listing order; `WalkSize` states what it covers |
| FileTree.FlattenAppend | main.py:186-187 | the files of two walks side by side are those of the first, then of the second |
| FileTree.SumSizesAppend | main.py:186-191 | the sizes of two runs of files add up |
| FileTree.WalkSize | main.py:186-189 | the files `os.walk` visits add up to the bytes of the whole tree |
| FileTree.SplitSizes | main.py:186-189 | the top-level files and the walks of the subdirectories together hold the bytes of the tree |
| Organizer.CreateOne | main.py:132-139 | computes one pass of `create_dirs`: an existing path is left alone, a refused name is reported, otherwise the folder is made |
| Organizer.CreateAll | main.py:129-139 | computes `create_dirs`: one pass per mapping key, in order, going on after a failure; the `CreateAll*` lemmas state the result |
| Organizer.CreateAllExtends | main.py:129-139 | `create_dirs` keeps the old listing as a prefix, and everything after it is a new empty folder named by the mapping |
| Organizer.CreateAllNames | main.py:131-135 | afterwards a name is listed exactly when it was listed before, or it is a mapping key that is non-empty and creatable |
| Organizer.CreateAllErrors | main.py:133-139 | a folder is reported exactly when it was named, did not exist and could not be made; nothing else is reported |
| Organizer.CreateAllCovers | main.py:129-139 | afterwards every mapping key either exists or has its failure reported, never both |
| Organizer.CreateAllUnique | main.py:131-135 | `create_dirs` never lists a name twice and adds no bytes |
| Organizer.CreateAllFind | main.py:133 | everything that existed before finds what it found |
| Organizer.CreateAllAgain | main.py:133 | over a listing where every key exists or is refused, the loop changes nothing and reports what it reported before |
| Organizer.CreateAllIdempotent | main.py:129-139 | a second `create_dirs` with the same mapping changes nothing and reports exactly the failures of the first |
| Organizer.MoveOne | main.py:141-159 | computes `move_file`: a move into `Destination` of `FileExt`, reported when it fails |
| Organizer.Visit | main.py:165-167 | computes one pass of the `organize_files` loop: `MoveOne` for a regular file, nothing otherwise |
| Organizer.MoveAll | main.py:164-167 | computes the loop of `organize_files`: one `Visit` per listed name, in order; the `MoveAll*` lemmas state the result |
| Organizer.Organize | main.py:161-167 | computes `organize_files`: `CreateAll` over the mapping's keys, then `MoveAll` over the listing taken afterwards; `OrganizeKeeps` and `OrganizeFiles` state the result |
| Organizer.MoveAllSize | main.py:164-167 | moving the files of a listing neither creates nor destroys bytes and never lists a name twice |
| Organizer.MoveStepKeeps | main.py:141-159 | one `move_file` keeps the names unique, leaves other non-directories alone, and only adds to directories |
| Organizer.MoveAllKeeps | main.py:164-167 | a name not in the listing that is not a directory finds what it found; a directory stays one and keeps what it listed |
| Organizer.MoveAllErrors | main.py:157-159 | the loop reports only files it was asked to move |
| Organizer.MoveAllReports | main.py:164-167 | every regular file of the listing either leaves the top level or is reported, never both, and processing goes on after a failure |
| Organizer.MoveStepLands | main.py:146-156 | one `move_file` either leaves the listing as it was or puts the file in the folder its extension picks |
| Organizer.MoveAllLands | main.py:164-167 | every regular file of the listing is either unchanged at the top level or sits in the folder its extension picks |
| Organizer.UniqueDistinct | main.py:164 | helper: the names `os.listdir` returns are distinct when no two entries share a name |
| Organizer.OrganizeKeeps | main.py:161-167 | `organize_files` adds no bytes and lists no name twice; every directory stays a directory that keeps what it listed |
| Organizer.OrganizeFiles | main.py:161-167 | every regular file either ends up in the folder its extension picks, or stays where it was and is reported, never both |
| Organizer.Mp3MovesToMusic | test_main.py:33-45 | with Music and Others present, `test.mp3` is moved without error into Music and is gone from the top level |
| Organizer.Backup | main.py:169-179 | computes `backup_files`: the listing copied into a new `backup_<stamp>` directory, or failure when the name is taken or the copy fails; `BackupCopies` states the result |
| Organizer.BackupCopies | main.py:172-173 | a backup keeps the listing, adds one directory holding a copy of it, and doubles the bytes |
| Organizer.BackupAndOrganize | main.py:266-269 | computes the run after the directory check: `Backup`, then `Organize` only if the backup was made; a failed backup changes nothing and is reported |
| Organizer.BackupAndOrganizeSize | main.py:266-269 | in the model, after a successful backup and organise, the tree holds twice its bytes and the backup still holds everything the directory held |
| Summary.ExtOf | main.py:190 | computes `os.path.splitext(file)[1].lower()`; `SplitExtShape` states its shape |
| Summary.AddSize | main.py:192-195 | one pass adds the size to its extension's entry, appending the key when it is new; other entries and the key order are kept, and the total grows by the size |
| Summary.ExtSizes | main.py:190-191 | helper: computes each file's lower-cased `splitext` extension with its size, in order; `ExtSizesSum` states what follows |
| Summary.Tally | main.py:186-195 | computes the accumulation loop: `AddSize` for each (extension, size), in order; the `Tally*` lemmas state the result |
| Summary.SizeOfExtAbsent | main.py:192-195 | an extension that no file has receives no bytes |
| Summary.TallyAppend | main.py:186-187 | accumulating two runs of files is accumulating the second after the first |
| Summary.TallyKeys | main.py:186-195 | the summary lists each extension once, at the place of its first file |
| Summary.TallyHas | main.py:192-195 | an extension has an entry exactly when it had one before or some file has it |
| Summary.TallyValue | main.py:192-195 | an entry gains the sizes of exactly the files with that extension |
| Summary.TallyGet | main.py:186-195 | each extension of some file maps to its earlier value plus the sizes of exactly its files; other entries are kept |
| Summary.SumValuesSet | main.py:193-195 | assigning to a key replaces its old value in the sum of the values |
| Summary.TallySum | main.py:192-195 | the values add up to what the dict held plus the sizes of all the files |
| Summary.ExtSizesSum | main.py:190-191 | taking extensions keeps the sizes |
| Summary.Summarize | main.py:181-198 | computes `summarize_files`: `Tally` from the empty dict over the extensions of the walk's files; `SummarizeTotal` states the result |
| Summary.SummarizeTotal | main.py:181-198 | the values of a tree's summary add up to its total bytes, and no two entries share an extension |
| Summary.TallyExample | test_main.py:47-61 | 10.5 MiB and 5.25 MiB under `.mp3` and 1 MiB under `.txt` give 15.75 MiB and 1 MiB |
| Summary.TestSummary | test_main.py:47-61 | the same for any three names whose extensions are `.mp3`, `.mp3` and `.txt` |
| Report.Insert | main.py:202 | computes one step of the sort: the entry goes before the first entry smaller than it, so after every entry of its own size; `InsertPerm`, `InsertDescending` and `InsertStable` state the result |
| Report.SortBySize | main.py:202 | computes `sorted(items, key=size, reverse=True)` as an insertion sort; `SortBySizeSorted` and `SortBySizeStable` state the result |
| Report.OfSizeAppend | main.py:202 | the entries of one size in two lists side by side are those of the first, then of the second |
| Report.OfSizeNone | main.py:202 | a list with no entry of a size has no entries of that size |
| Report.InsertPerm | main.py:202 | insertion adds exactly the new entry |
| Report.ConsDescending | main.py:202 | an entry at least as large as the head of a descending list keeps it descending |
| Report.InsertDescending | main.py:202 | insertion keeps a list in decreasing size |
| Report.InsertStable | main.py:202 | insertion puts the new entry after every entry of its own size |
| Report.SortBySizeSorted | main.py:202 | `sorted(..., key=size, reverse=True)` is in decreasing size and a permutation of the items |
| Report.SortBySizeStable | main.py:202 | entries of equal size keep their dict order (the sort is stable) |
| Report.Tenths | main.py:205 | `{:.1f}` rounds the MiB value to the nearest tenth, and to the even tenth on a tie |
| Report.NatString | main.py:205 | the whole part is printed as decimal digits without leading zeros |
| Report.ParseNatString | main.py:205 | reading the printed digits back gives the number |
| Report.FormatMb | main.py:205 | computes `{size:.1f}` of bytes/2^20: the rounded tenths divided by ten, a dot, then the remaining tenth as one digit; `FormatMbReads` states the result |
| Report.FormatMbReads | main.py:205 | the printed size is digits, a dot and one digit, and reads back as the rounded number of tenths |
| Report.FormatMbExamples | main.py:205 | 15.75 MiB prints as `15.8` and 1 MiB as `1.0` |
| Report.Label | main.py:205 | the label is the upper-cased extension without its first character, and empty for `""` |
| Report.LineText | main.py:205 | computes one line without its newline: `Label`, `": "`, `FormatMb`, `"MB"` |
| Report.Lines | main.py:204-205 | computes the lines of the loop, each followed by a newline; `LinesJoin` states the result |
| Report.Render | main.py:200-206 | computes `format_summary`: the header line, then `Lines` of `SortBySize`; `RenderLines` states the result |
| Report.LinesAppend | main.py:204-205 | the lines of two lists side by side are those of the first, then of the second |
| Report.LineTexts | main.py:204-205 | helper: computes the line text of each entry, in order; `LinesJoin` states what follows |
| Report.LinesJoin | main.py:204-205 | the lines are the line texts joined with newlines and ending with one |
| Report.LineTextNoNewline | main.py:205 | a line holds no newline when its extension holds none |
| Report.SortedKeysFrom | main.py:202 | sorting brings in no new entry |
| Report.LineTextsNoNewline | main.py:204-205 | no line text holds a newline |
| Report.SplitTitled | main.py:203-205 | split at its newlines, a title followed by the lines is the title, one line per entry, then the empty text after the last newline |
| Report.TitleHasNoNewline | main.py:203 | helper for `RenderLines`: the header literal holds no newline |
| Report.RenderLines | main.py:200-206 | split at newlines, the report is the header, then one line per extension in decreasing size, then the empty text after the last newline |
| FileManager.Directory.constructor | main.py:262 | a directory opened on a listing without repeated names is valid and holds that listing |
| FileManager.Directory.MakeDirs | main.py:133-135 | the folder is made exactly when nothing has that name and the filesystem accepts it; otherwise nothing changes; names stay distinct |
| FileManager.Directory.Move | main.py:149 | `shutil.move` succeeds exactly as `MoveInto` does, and the listing becomes its result; on failure nothing changes; names stay distinct |
| FileManager.Directory.CopyTree | main.py:172-173 | `shutil.copytree` into the stamped folder succeeds exactly when `Backup` does, and the listing becomes its result; names stay distinct |
| FileManager.FindFolder | main.py:146-156 | the loop over the mapping, leaving at the first folder that holds the extension (the source's `moved` flag and `break`), picks that folder, else "Others" |
| FileManager.AddFiles | main.py:187-195 | the inner loop over one directory's files leaves the dict that `Tally` specifies |
| FileManager.App.constructor | main.py:54-57 | the window opens with the fields Music, Photos, Documents, Videos, no custom folder, no summary and no dialog |
| FileManager.App.ShowError | main.py:299-306 | showing an error adds exactly one dialog |
| FileManager.App.GetFolders | main.py:118-127 | the dict built by the display and the assignment loop is `Resolve` of the fields and the custom folders |
| FileManager.App.CreateFolder | main.py:132-139 | one pass of `create_dirs` changes the directory and the dialogs as `CreateOne` specifies |
| FileManager.App.CreateDirs | main.py:129-139 | the loop leaves the directory and the dialogs that `CreateAll` specifies |
| FileManager.App.MoveFile | main.py:141-159 | one `move_file` changes the directory and the dialogs as `MoveOne` specifies |
| FileManager.App.MoveIfFile | main.py:165-167 | a name that is a regular file is moved; anything else is skipped |
| FileManager.App.MoveListed | main.py:164-167 | the loop over the listing leaves the directory and the dialogs that `MoveAll` specifies |
| FileManager.App.OrganizeFiles | main.py:161-167 | folders first, then the files of the listing taken afterwards, as `Organize` specifies |
| FileManager.App.SummarizeFiles | main.py:181-198 | the nested loops over the walk return `Summarize` of the tree |
| FileManager.App.FormatSummary | main.py:200-206 | the string built line by line is `Render` of the sizes |
| FileManager.App.BackupFiles | main.py:169-179 | the backup succeeds exactly when `Backup` does; on failure the model leaves the directory unchanged and one dialog is shown |
| FileManager.App.OnAddCustomClick | main.py:240-257 | a named folder is appended with its parsed extensions; without a name the list is unchanged and an error is shown |
| FileManager.App.OnOrganizeClick | main.py:259-286 | a non-directory only shows an error; otherwise the directory ends as `BackupAndOrganize` specifies, and the summary field shows the report of the tree only when the backup succeeded |
| FileManager.App.BackupThenOrganize | main.py:266-269 | organising happens only after a successful backup; in the model a failed backup leaves the directory unchanged and is reported |

## Left out

- The Flet user interface is not modelled: window setup, layout, the
  progress bar, `on_pick_src_click` and `on_pick_result`
  (`main.py:19-116`, `236-238`, `288-297`). The chosen path becomes the
  `Directory?` argument of `OnOrganizeClick`, null when the path is not a
  directory.
- Dialog texts are not modelled. Each dialog is a constructor of
  `Organizer.Error`. The success dialog and the custom-list label of
  `on_add_custom_click` (`main.py:246-255`) are left out.
- `plot_summary` (`main.py:208-234`) is left out. It renders a chart
  through matplotlib and writes an image file.
- Logging (`main.py:11` and the `logging` calls) is left out. It is output
  only.
- The clock is a parameter. The time stamp of the backup name is the
  `stamp` argument.
- Whether `shutil.copytree` succeeds is the `copyOk` argument. A backup
  name that is already taken also fails, as `copytree` refuses an existing
  destination. The model treats a failed copy as leaving no trace. The
  program does not: `copytree` creates the destination first and copies
  what it can before it raises, so a partial `backup_<stamp>` folder stays
  behind, and later runs list and summarise it.
- Which folders `os.makedirs` refuses is the `unwritable` set of a
  `Directory`. Permissions, links and concurrent changes to the directory
  are not modelled.
- Listing order: `os.listdir` and `os.walk` return names in an order the
  OS chooses. The model keeps a fixed order in which new folders and moved
  files are appended at the end.
- Sizes are whole bytes, not floating-point MiB.
- Summary.AddSize: sums whole bytes exactly, while the source adds
  floating-point MiB values. The two agree while the totals stay within
  the 53-bit precision of a float.
- Report.Tenths: rounds the exact quotient of bytes by 2^20. That is what
  `{:.1f}` does to the float, as long as the float holds the quotient
  exactly.
- Moves that `shutil.move` makes onto something that is not a directory are
  not modelled. Examples are a category folder that could not be created,
  or a regular file that already has the folder's name. Python then renames
  the file or overwrites the other one. The model treats such a move as a
  failure that leaves the file in place and is reported.
- Names are compared exactly, as on a case-sensitive filesystem. On a
  case-insensitive one (the Windows and macOS defaults), `os.path.exists`
  and the clash check of `shutil.move` ignore case. There, an existing
  `music` folder makes `create_dirs` skip `Music`, and a file whose name
  differs from one already in its folder only by case is refused. The model
  makes a second folder in the first case and lets the move succeed in the
  second. `Organizer.CreateAllNames`, `Organizer.CreateAllErrors`,
  `FileTree.MoveIntoSucceeds`, `FileManager.Directory.MakeDirs` and
  `FileManager.Directory.Move` describe a case-sensitive filesystem.
- Folder names are modelled as single path components: a folder is one
  entry of the top-level listing. The program joins the typed name to the
  base with `os.path.join`. A name holding a separator (`"a/b"`), an
  absolute name (`"/x"`), `"."` and `".."` are not modelled. Python would
  make nested folders, write outside the directory, or find that the path
  exists already and refuse the move.
- Text handles ASCII only. Unicode case mapping and Unicode whitespace are
  not modelled.
- The `try`/`except` of `on_organize_click` (`main.py:268-282`) is not
  modelled as a path. Within the model nothing in that block can fail: the
  failures of `create_dirs` and `move_file` are caught inside them, and the
  summary of a modelled tree always exists.
