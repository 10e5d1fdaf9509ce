/**
 * The handful of Python `str` operations the file manager relies on, restricted
 * to ASCII: `lower`, `upper`, `strip`, `split` on one character, `join`, and
 * `os.path.splitext` applied to a bare file name.
 */
module Text {

  /** ASCII letters, as Python's `str.lower`/`str.upper` see them. */
  predicate IsUpper(c: char) { 'A' <= c <= 'Z' }
  predicate IsLower(c: char) { 'a' <= c <= 'z' }

  function LowerChar(c: char): char
  {
    if IsUpper(c) then (c as int + 32) as char else c
  }

  function UpperChar(c: char): char
  {
    if IsLower(c) then (c as int - 32) as char else c
  }

  /** Python's `s.lower()` on ASCII text. */
  function Lower(s: string): (r: string)
    ensures |r| == |s|
    ensures forall i :: 0 <= i < |s| ==> r[i] == LowerChar(s[i])
    ensures forall i :: 0 <= i < |r| ==> !IsUpper(r[i])
  {
    seq(|s|, i requires 0 <= i < |s| => LowerChar(s[i]))
  }

  /** Python's `s.upper()` on ASCII text. */
  function Upper(s: string): (r: string)
    ensures |r| == |s|
    ensures forall i :: 0 <= i < |s| ==> r[i] == UpperChar(s[i])
    ensures forall i :: 0 <= i < |r| ==> !IsLower(r[i])
  {
    seq(|s|, i requires 0 <= i < |s| => UpperChar(s[i]))
  }

  /** The ASCII characters for which Python's `str.isspace` holds. */
  predicate IsSpace(c: char)
  {
    c == ' ' || 9 <= c as int <= 13 || 28 <= c as int <= 31
  }

  /** `s.lstrip()`: drops the leading whitespace and nothing else. */
  function TrimStart(s: string): (r: string)
    ensures |r| <= |s| && r == s[|s| - |r|..]
    ensures forall k :: 0 <= k < |s| - |r| ==> IsSpace(s[k])
    ensures r == [] || !IsSpace(r[0])
    decreases |s|
  {
    if s != [] && IsSpace(s[0]) then TrimStart(s[1..]) else s
  }

  /** `s.rstrip()`: drops the trailing whitespace and nothing else. */
  function TrimEnd(s: string): (r: string)
    ensures |r| <= |s| && r == s[..|r|]
    ensures forall k :: |r| <= k < |s| ==> IsSpace(s[k])
    ensures r == [] || !IsSpace(r[|r| - 1])
    decreases |s|
  {
    if s != [] && IsSpace(s[|s| - 1]) then TrimEnd(s[..|s| - 1]) else s
  }

  /** How many whitespace characters `s.lstrip()` removes. */
  function LeadingSpaces(s: string): nat
  {
    |s| - |TrimStart(s)|
  }

  /** `s.strip()`: what is left neither starts nor ends with whitespace (`StripSlice` says what it is). */
  function Strip(s: string): (r: string)
    ensures r == [] || (!IsSpace(r[0]) && !IsSpace(r[|r| - 1]))
  {
    var t := TrimStart(s);
    var r := TrimEnd(t);
    assert r != [] ==> r[0] == t[0];
    r
  }

  /** Text without upper-case letters is its own `lower()`. */
  lemma LowerUnchanged(s: string)
    requires forall k :: 0 <= k < |s| ==> !IsUpper(s[k])
    ensures Lower(s) == s
  {
  }

  /** A character that is not a letter occurs in `s.strip().lower()` only if it occurs in `s`. */
  lemma StripLowerAbsent(s: string, c: char)
    requires !IsUpper(c) && !IsLower(c)
    ensures c in Lower(Strip(s)) ==> c in s
  {
    if c !in s {
      StripSlice(s);
      var r := Strip(s);
      var i := LeadingSpaces(s);
      forall k | 0 <= k < |r| ensures Lower(r)[k] != c {
        assert r[k] == s[i + k];
      }
    }
  }

  /** Text without whitespace or upper-case letters is its own `strip().lower()`. */
  lemma LowerStripUnchanged(s: string)
    requires forall k :: 0 <= k < |s| ==> !IsSpace(s[k]) && !IsUpper(s[k])
    ensures Lower(Strip(s)) == s
  {
    StripUnpadded(s);
    LowerUnchanged(s);
  }

  /** A string that neither starts nor ends with whitespace is its own `strip()`. */
  lemma StripUnpadded(s: string)
    requires s == [] || (!IsSpace(s[0]) && !IsSpace(s[|s| - 1]))
    ensures Strip(s) == s
  {
    assert TrimStart(s) == s;
    assert TrimEnd(s) == s;
  }

  /**
   * `s.strip()` is the slice of `s` left after removing the whitespace at
   * both ends, and everything removed is whitespace.
   */
  lemma StripSlice(s: string)
    ensures var i, r := LeadingSpaces(s), Strip(s);
      i + |r| <= |s| && r == s[i..i + |r|]
        && (forall k :: 0 <= k < i ==> IsSpace(s[k]))
        && (forall k :: i + |r| <= k < |s| ==> IsSpace(s[k]))
  {
    var t := TrimStart(s);
    var r := TrimEnd(t);
    assert LeadingSpaces(s) == |s| - |t| && Strip(s) == r;
    TrimmedSlice(s, t, r);
  }

  /** A prefix `r` of a suffix `t` of `s`, with whitespace cut at both ends, is a slice of `s`. */
  lemma TrimmedSlice(s: string, t: string, r: string)
    requires |t| <= |s| && t == s[|s| - |t|..]
    requires forall k :: 0 <= k < |s| - |t| ==> IsSpace(s[k])
    requires |r| <= |t| && r == t[..|r|]
    requires forall k :: |r| <= k < |t| ==> IsSpace(t[k])
    ensures var i := |s| - |t|;
      i + |r| <= |s| && r == s[i..i + |r|]
        && (forall k :: i + |r| <= k < |s| ==> IsSpace(s[k]))
  {
    var i := |s| - |t|;
    assert forall k :: i + |r| <= k < |s| ==> s[k] == t[k - i];
  }

  /** Python's `rfind`: the last position of `c` in `s`, or -1 when there is none. */
  function LastIndex(s: string, c: char): (i: int)
    ensures -1 <= i < |s|
    ensures 0 <= i ==> s[i] == c
    ensures forall k :: i < k < |s| ==> s[k] != c
  {
    if s == [] then -1
    else if s[|s| - 1] == c then |s| - 1
    else LastIndex(s[..|s| - 1], c)
  }

  /** `sep.join(parts)` for a one-character separator. */
  function Join(parts: seq<string>, sep: char): string
  {
    if |parts| == 0 then ""
    else if |parts| == 1 then parts[0]
    else parts[0] + [sep] + Join(parts[1..], sep)
  }

  /**
   * Python's `s.split(sep)` for a one-character separator: never empty (the
   * empty string gives `[""]`) and no piece holds the separator.
   */
  function Split(s: string, sep: char): (parts: seq<string>)
    ensures |parts| >= 1
    ensures forall k :: 0 <= k < |parts| ==> sep !in parts[k]
  {
    if s == [] then [""]
    else
      var rest := Split(s[1..], sep);
      if s[0] == sep then [""] + rest
      else [[s[0]] + rest[0]] + rest[1..]
  }

  /** Joining the pieces of a split gives back the original string. */
  lemma {:induction false} JoinSplit(s: string, sep: char)
    ensures Join(Split(s, sep), sep) == s
  {
    if s != [] {
      var rest := Split(s[1..], sep);
      JoinSplit(s[1..], sep);
      if s[0] != sep {
        var parts := [[s[0]] + rest[0]] + rest[1..];
        if |rest| > 1 {
          assert parts[1..] == rest[1..];
          assert Join(rest, sep) == rest[0] + [sep] + Join(rest[1..], sep);
        }
        assert s == [s[0]] + s[1..];
      } else {
        var parts := [""] + rest;
        assert parts[1..] == rest;
      }
    }
  }

  /** Splitting what was joined gives back the pieces. */
  lemma {:induction false} SplitJoin(parts: seq<string>, sep: char)
    requires |parts| >= 1
    requires forall k :: 0 <= k < |parts| ==> sep !in parts[k]
    ensures Split(Join(parts, sep), sep) == parts
    decreases |Join(parts, sep)|
  {
    var s := Join(parts, sep);
    if s == [] {
      assert parts == [""];
    } else if parts[0] == [] {
      var tail := parts[1..];
      assert s == [sep] + Join(tail, sep);
      assert s[1..] == Join(tail, sep);
      SplitJoin(tail, sep);
      assert parts == [""] + tail;
    } else {
      var c := parts[0][0];
      var shorter := parts[0 := parts[0][1..]];
      assert c != sep;
      assert s == [c] + Join(shorter, sep) by {
        if |parts| > 1 {
          assert shorter[1..] == parts[1..];
        }
      }
      assert s[1..] == Join(shorter, sep);
      assert forall k :: 0 <= k < |shorter| ==> sep !in shorter[k] by {
        assert forall k :: 1 <= k < |shorter| ==> shorter[k] == parts[k];
        assert parts[0] == [c] + shorter[0];
      }
      SplitJoin(shorter, sep);
      assert parts[0] == [c] + shorter[0];
      assert parts == [[c] + shorter[0]] + shorter[1..];
    }
  }

  /** Every character of a piece is a character of the joined text. */
  lemma {:induction false} JoinHolds(parts: seq<string>, sep: char, i: nat)
    requires i < |parts|
    ensures forall c :: c in parts[i] ==> c in Join(parts, sep)
  {
    if |parts| > 1 {
      var rest := Join(parts[1..], sep);
      assert Join(parts, sep) == parts[0] + [sep] + rest;
      if i > 0 {
        JoinHolds(parts[1..], sep, i - 1);
      }
    }
  }

  /** Every character of a piece of a split is a character of the text split. */
  lemma SplitPieces(s: string, sep: char, i: nat)
    requires i < |Split(s, sep)|
    ensures forall c :: c in Split(s, sep)[i] ==> c in s
  {
    JoinSplit(s, sep);
    JoinHolds(Split(s, sep), sep, i);
  }

  /** `s.split(sep)[-1]`. */
  function LastPiece(s: string, sep: char): string
  {
    var parts := Split(s, sep);
    parts[|parts| - 1]
  }

  /** A character occurs in a non-empty string exactly when it is the first or occurs in the rest. */
  lemma InCons(s: string, c: char)
    requires s != []
    ensures c in s <==> s[0] == c || c in s[1..]
  {
    assert s == [s[0]] + s[1..];
  }

  /**
   * `s.split(sep)[-1]` is the text after the last `sep` of `s`: a suffix of
   * `s`, preceded by `sep` unless it is the whole of `s`; it is the whole of
   * `s`, and the split has a single piece, exactly when `s` holds no `sep`.
   */
  lemma {:induction false} LastPieceIsTail(s: string, sep: char)
    ensures |Split(s, sep)| == 1 <==> sep !in s
    ensures var last := LastPiece(s, sep);
      |last| <= |s| && last == s[|s| - |last|..]
        && (|last| < |s| ==> s[|s| - |last| - 1] == sep)
        && (|last| == |s| <==> sep !in s)
  {
    if s != [] {
      var t := s[1..];
      var rest := Split(t, sep);
      LastPieceIsTail(t, sep);
      var tl := LastPiece(t, sep);
      InCons(s, sep);
      if s[0] == sep || |rest| > 1 {
        assert Split(s, sep) == if s[0] == sep then [""] + rest else [[s[0]] + rest[0]] + rest[1..];
        assert LastPiece(s, sep) == tl;
        assert s[|s| - |tl|..] == t[|t| - |tl|..];
        if |tl| < |t| {
          assert s[|s| - |tl| - 1] == t[|t| - |tl| - 1];
        }
      } else {
        assert Split(s, sep) == [[s[0]] + rest[0]];
        assert tl == t;
      }
    }
  }

  /**
   * The extension `os.path.splitext(name)[1]` gives for a bare file name (no
   * directory part): from the last `.` to the end, unless every character
   * before that dot is itself a dot (`.bashrc`, `..x`, `...`), in which case
   * it is empty.
   */
  function SplitExt(name: string): (ext: string)
  {
    var dot := LastIndex(name, '.');
    if dot > 0 && !(forall k :: 0 <= k < dot ==> name[k] == '.') then name[dot..] else ""
  }

  lemma SplitExtShape(name: string)
    ensures var ext := SplitExt(name);
      ext == [] || (|ext| <= |name| && ext == name[|name| - |ext|..] && ext[0] == '.' && '.' !in ext[1..])
    ensures SplitExt(name) != [] <==>
      exists k, m :: 0 <= k < m < |name| && name[k] != '.' && name[m] == '.'
  {
    var dot := LastIndex(name, '.');
    var ext := SplitExt(name);
    if ext != [] {
      assert ext == name[dot..];
      assert forall k :: 0 <= k < |ext| - 1 ==> ext[1..][k] == name[dot + 1 + k];
    }
    if exists k, m :: 0 <= k < m < |name| && name[k] != '.' && name[m] == '.' {
      var k, m :| 0 <= k < m < |name| && name[k] != '.' && name[m] == '.';
      assert m <= dot;
      assert name[k] != '.' && k < dot;
    }
  }
}
