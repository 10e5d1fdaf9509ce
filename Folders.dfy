/**
 * The folder mapping a run uses (`get_folders`): an insertion-ordered dict
 * from folder name to the extensions that go there, built from the four
 * display names the user may edit, the custom folders added in the session
 * and a final catch-all "Others".
 */
module Folders {
  import opened Wrappers
  import opened OrderedDict
  import opened Text
  import Config

  /** Folder name -> lower-case extensions (without the dot) sent to it. */
  type Mapping = Dict<seq<string>>

  /** The names typed into the four category fields. */
  datatype DisplayNames = DisplayNames(music: string, photos: string, docs: string, videos: string)

  /** What the four fields hold when the window opens. */
  const DefaultNames := DisplayNames("Music", "Photos", "Documents", "Videos")

  const OthersFolder := "Others"

  /**
   * The assignments `get_folders` performs, in order: the dict display with
   * the four categories, one assignment per custom folder, then "Others".
   */
  function Assignments(n: DisplayNames, custom: seq<(string, seq<string>)>): seq<(string, seq<string>)>
  {
    [(n.music, Config.MusicExts), (n.photos, Config.PhotosExts),
     (n.docs, Config.DocsExts), (n.videos, Config.VideosExts)]
    + custom + [(OthersFolder, [])]
  }

  /** The mapping `get_folders` returns. */
  function Resolve(n: DisplayNames, custom: seq<(string, seq<string>)>): Mapping
  {
    SetAll([], Assignments(n, custom))
  }

  /**
   * The folders come in the order of first assignment: the four display
   * names, then custom names in the order they were added, then "Others";
   * a name given twice keeps its first place and is listed once.
   */
  lemma ResolveKeys(n: DisplayNames, custom: seq<(string, seq<string>)>)
    ensures Keys(Resolve(n, custom)) ==
      Dedup([n.music, n.photos, n.docs, n.videos] + Keys(custom) + [OthersFolder])
    ensures Distinct(Keys(Resolve(n, custom)))
  {
    var head: seq<(string, seq<string>)> := [(n.music, Config.MusicExts), (n.photos, Config.PhotosExts),
     (n.docs, Config.DocsExts), (n.videos, Config.VideosExts)];
    SetAllKeys([], Assignments(n, custom));
    KeysAppend(head + custom, [(OthersFolder, [])]);
    KeysAppend(head, custom);
    KeysAt(head);
    assert Keys(head) == [n.music, n.photos, n.docs, n.videos];
    assert Keys<seq<string>>([(OthersFolder, [])]) == [OthersFolder];
    assert Keys<seq<string>>([]) + Keys(Assignments(n, custom)) ==
      [n.music, n.photos, n.docs, n.videos] + Keys(custom) + [OthersFolder];
  }

  /** Every folder holds the list of its last assignment. */
  lemma ResolveGet(n: DisplayNames, custom: seq<(string, seq<string>)>, k: string)
    ensures Get(Resolve(n, custom), k) == LastValue(Assignments(n, custom), k)
  {
    SetAllGet([], Assignments(n, custom), k);
  }

  /** "Others" always ends up mapped to no extension, whatever was assigned to it before. */
  lemma ResolveOthers(n: DisplayNames, custom: seq<(string, seq<string>)>)
    ensures Get(Resolve(n, custom), OthersFolder) == Some([])
  {
    ResolveGet(n, custom, OthersFolder);
    var a := Assignments(n, custom);
    assert a[|a| - 1] == (OthersFolder, []);
  }

  /**
   * When the five folder names are all different, the mapping is the
   * assignments themselves, in order.
   */
  lemma ResolveFresh(n: DisplayNames, custom: seq<(string, seq<string>)>)
    requires Distinct(Keys(Assignments(n, custom)))
    ensures Resolve(n, custom) == Assignments(n, custom)
  {
    assert [] + Assignments(n, custom) == Assignments(n, custom);
    SetAllFresh([], Assignments(n, custom));
  }

  /**
   * With the fields as the window opens them and no custom folder, the
   * mapping is the built-in table with the third category under "Documents",
   * followed by "Others".
   */
  lemma ResolveDefaults()
    ensures Resolve(DefaultNames, []) ==
      [("Music", Config.MusicExts), ("Photos", Config.PhotosExts), ("Documents", Config.DocsExts),
       ("Videos", Config.VideosExts), (OthersFolder, [])]
  {
    var a := Assignments(DefaultNames, []);
    InitialsDistinct(DefaultNames, a);
    ResolveFresh(DefaultNames, []);
  }

  /**
   * With the third field reading "Docs", the table's own key, and no custom
   * folder, the mapping is the configuration table followed by "Others".
   */
  lemma ResolveTable()
    ensures Resolve(DisplayNames("Music", "Photos", "Docs", "Videos"), []) ==
      Config.DefaultFolders + [(OthersFolder, [])]
  {
    var n := DisplayNames("Music", "Photos", "Docs", "Videos");
    InitialsDistinct(n, Assignments(n, []));
    ResolveFresh(n, []);
    TableAssignments();
  }

  /** The assignments for fields that read like the table's keys are the table followed by "Others". */
  lemma TableAssignments()
    ensures Assignments(DisplayNames("Music", "Photos", "Docs", "Videos"), []) ==
      Config.DefaultFolders + [(OthersFolder, [])]
  {
  }

  /**
   * With no custom folder, the mapping has a "Docs" folder exactly when the
   * third field reads "Docs", while the table always has one. For any other
   * reading (such as "Documents", as the window opens) the key sets differ,
   * so the two differ as dicts whatever their order; with "Docs" they are
   * equal (`ResolveTable`).
   */
  lemma ResolveDocsKey(x: string)
    ensures "Docs" in Keys(Resolve(DisplayNames("Music", "Photos", x, "Videos"), [])) <==> x == "Docs"
    ensures "Docs" in Keys(Config.DefaultFolders + [(OthersFolder, [])])
  {
    var n := DisplayNames("Music", "Photos", x, "Videos");
    ResolveKeys(n, []);
    var named := [n.music, n.photos, n.docs, n.videos] + Keys<seq<string>>([]) + [OthersFolder];
    assert named == ["Music", "Photos", x, "Videos", OthersFolder];
    assert "Docs" in named <==> x == "Docs";
    var t := Config.DefaultFolders + [(OthersFolder, [])];
    KeysAt(t);
    assert Keys(t)[2] == "Docs";
  }

  /** Five folder names that start with five different letters are distinct. */
  lemma InitialsDistinct(n: DisplayNames, a: seq<(string, seq<string>)>)
    requires a == Assignments(n, [])
    requires n.music != [] && n.photos != [] && n.docs != [] && n.videos != []
    requires n.music[0] == 'M' && n.photos[0] == 'P' && n.docs[0] == 'D' && n.videos[0] == 'V'
    ensures Distinct(Keys(a))
  {
    var ks := Keys(a);
    KeysAt(a);
    assert |ks| == 5;
    assert forall i :: 0 <= i < 5 ==> ks[i][0] == "MPDVO"[i];
  }

  /**
   * The extensions typed for a custom folder
   * (`[ext.strip().lower() for ext in text.split(',')]`): one per
   * comma-separated piece, so never none (the empty text gives `[""]`), each
   * without commas, surrounding whitespace or upper-case letters.
   */
  function ParseExtensions(text: string): (exts: seq<string>)
    ensures |exts| == |Split(text, ',')| >= 1
    ensures forall i :: 0 <= i < |exts| ==>
      ',' !in exts[i] && (forall k :: 0 <= k < |exts[i]| ==> !IsUpper(exts[i][k]))
    ensures forall i :: 0 <= i < |exts| && exts[i] != [] ==>
      !IsSpace(exts[i][0]) && !IsSpace(exts[i][|exts[i]| - 1])
  {
    var parts := Split(text, ',');
    seq(|parts|, i requires 0 <= i < |parts| => CleanExt(parts[i]))
  }

  /**
   * One piece, `ext.strip().lower()`: no upper-case letter, no whitespace
   * at either end, and no comma unless the piece had one.
   */
  function CleanExt(piece: string): (ext: string)
    ensures forall k :: 0 <= k < |ext| ==> !IsUpper(ext[k])
    ensures ext == [] || (!IsSpace(ext[0]) && !IsSpace(ext[|ext| - 1]))
    ensures ',' in ext ==> ',' in piece
  {
    StripLowerAbsent(piece, ',');
    Lower(Strip(piece))
  }

  /** Each comma-separated piece of such text is kept as it is. */
  lemma NormalisedSplit(text: string, i: nat)
    requires forall c :: c in text ==> !IsSpace(c) && !IsUpper(c)
    requires i < |Split(text, ',')|
    ensures var p := Split(text, ',')[i]; CleanExt(p) == p
  {
    var p := Split(text, ',')[i];
    SplitPieces(text, ',', i);
    assert forall k :: 0 <= k < |p| ==> p[k] in p;
    LowerStripUnchanged(p);
  }

  /** Typing `"zip, rar"` gives the two extensions, the space dropped. */
  lemma ParseZipRar()
    ensures ParseExtensions("zip, rar") == ["zip", "rar"]
  {
    SplitZipRar();
    CleanZip();
    CleanRar();
  }

  /** A single name with no comma, such as `"custom"`, gives one extension. */
  lemma ParseSingle()
    ensures ParseExtensions("custom") == ["custom"]
  {
    SplitCustom();
    CleanCustom();
  }

  lemma SplitZipRar()
    ensures Split("zip, rar", ',') == ["zip", " rar"]
  {
    assert Join(["zip", " rar"], ',') == "zip, rar";
    SplitJoin(["zip", " rar"], ',');
  }

  lemma SplitCustom()
    ensures Split("custom", ',') == ["custom"]
  {
    assert Join(["custom"], ',') == "custom";
    SplitJoin(["custom"], ',');
  }

  lemma CleanZip()
    ensures CleanExt("zip") == "zip"
  {
    CleanPlain("zip");
  }

  lemma CleanCustom()
    ensures CleanExt("custom") == "custom"
  {
    CleanPlain("custom");
  }

  lemma CleanRar()
    ensures CleanExt(" rar") == "rar"
  {
    assert " rar" == [' '] + "rar";
    CleanLead("rar");
  }

  /** A piece without whitespace or upper-case letters is its own cleaned form. */
  lemma CleanPlain(p: string)
    requires forall k :: 0 <= k < |p| ==> !IsSpace(p[k]) && !IsUpper(p[k])
    ensures CleanExt(p) == p
  {
    LowerStripUnchanged(p);
  }

  /** A space typed after the comma is dropped: one leading space before a plain piece is stripped. */
  lemma CleanLead(q: string)
    requires forall k :: 0 <= k < |q| ==> !IsSpace(q[k]) && !IsUpper(q[k])
    ensures CleanExt([' '] + q) == q
  {
    var p := [' '] + q;
    assert p[1..] == q;
    if q != [] {
      assert TrimStart(p) == TrimStart(q) == q;
    }
    LowerStripUnchanged(q);
  }

  /**
   * Text that is already lower-case and free of whitespace is read back
   * unchanged: joining the parsed extensions with commas gives the text.
   */
  lemma ParseExtensionsJoin(text: string)
    requires forall c :: c in text ==> !IsSpace(c) && !IsUpper(c)
    ensures Join(ParseExtensions(text), ',') == text
  {
    var parts := Split(text, ',');
    forall i | 0 <= i < |parts|
      ensures CleanExt(parts[i]) == parts[i]
    {
      NormalisedSplit(text, i);
    }
    assert ParseExtensions(text) == parts;
    JoinSplit(text, ',');
  }
}
