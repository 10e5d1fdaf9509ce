/**
 * How `move_file` picks a file's folder: the extension is the lower-cased
 * text after the last dot (the whole name when there is none), and the
 * folder is the first one in mapping order whose list holds it, else
 * "Others".
 */
module Classifier {
  import opened Text
  import opened Folders

  /** `file.split('.')[-1].lower()`. */
  function FileExt(file: string): string
  {
    Lower(LastPiece(file, '.'))
  }

  /**
   * The extension is the lower-cased text after the last dot of the name, and
   * the whole lower-cased name when it has no dot: a file called `mp3` has
   * extension "mp3", and `notes.` has the empty extension.
   */
  lemma {:induction false} FileExtAfterLastDot(file: string)
    ensures FileExt(file) == Lower(file[LastIndex(file, '.') + 1..])
  {
    LastPieceIsTail(file, '.');
    var last := LastPiece(file, '.');
    var start := |file| - |last|;
    var dot := LastIndex(file, '.');
    if |last| < |file| {
      assert file[start - 1] == '.';
      assert dot == start - 1 by {
        assert forall k :: start <= k < |file| ==> file[k] == last[k - start];
      }
    } else {
      assert dot == -1;
    }
  }

  /**
   * Where the loop over `folders.items()` stops: the position of the first
   * folder whose list holds `ext`, or -1 when none does.
   */
  function FirstMatch(folders: Mapping, ext: string): (i: int)
    ensures -1 <= i < |folders|
    ensures 0 <= i ==> ext in folders[i].1
    ensures forall k :: 0 <= k < |folders| && (i < 0 || k < i) ==> ext !in folders[k].1
  {
    if folders == [] then -1
    else if ext in folders[0].1 then 0
    else
      var j := FirstMatch(folders[1..], ext);
      if j < 0 then -1 else j + 1
  }

  /**
   * The folder a file with extension `ext` is sent to: the first folder
   * whose list holds it (`FirstMatch`), or "Others" when none does.
   */
  function Destination(folders: Mapping, ext: string): string
  {
    var i := FirstMatch(folders, ext);
    if i < 0 then OthersFolder else folders[i].0
  }

  /** A file named `test.mp3`, with Music listed first, is sent to Music. */
  lemma Mp3GoesToMusic()
    ensures FileExt("test.mp3") == "mp3"
    ensures Destination([("Music", ["mp3"]), (OthersFolder, [])], "mp3") == "Music"
  {
    var f := "test.mp3";
    Mp3Ext(f);
    assert f[5..] == "mp3";
    LowerUnchanged("mp3");
    assert "mp3" in ["mp3"];
  }

  /** The extension of an eight-character name whose last dot is its fifth character is the last three characters, lower-cased. */
  lemma Mp3Ext(f: string)
    requires |f| == 8 && f[4] == '.' && f[5] != '.' && f[6] != '.' && f[7] != '.'
    ensures FileExt(f) == Lower(f[5..])
  {
    FileExtAfterLastDot(f);
    var dot := LastIndex(f, '.');
    assert dot == 4;
  }
}
