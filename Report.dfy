/**
 * `format_summary`: the per-extension sizes sorted by size, largest first
 * (a stable sort, so equal sizes keep the order of the dict), rendered as a
 * header line and one `LABEL: x.yMB` line per extension.
 */
module Report {
  import opened Text
  import opened Summary

  /**
   * Insertion into a list ordered by decreasing size: the new entry goes
   * after every entry at least as large, so it follows the earlier entries of
   * its own size.
   */
  function Insert(s: Sizes, x: (string, nat)): Sizes
  {
    if s == [] || s[0].1 < x.1 then [x] + s
    else [s[0]] + Insert(s[1..], x)
  }

  /** `sorted(file_sizes.items(), key=lambda x: x[1], reverse=True)`. */
  function SortBySize(d: Sizes): Sizes
    decreases |d|
  {
    if d == [] then [] else Insert(SortBySize(d[..|d| - 1]), d[|d| - 1])
  }

  predicate Descending(s: Sizes)
  {
    forall i, j :: 0 <= i < j < |s| ==> s[i].1 >= s[j].1
  }

  /** The entries of size `n`, in order. */
  function OfSize(s: Sizes, n: nat): Sizes
  {
    if s == [] then [] else (if s[0].1 == n then [s[0]] else []) + OfSize(s[1..], n)
  }

  lemma {:induction false} OfSizeAppend(a: Sizes, b: Sizes, n: nat)
    ensures OfSize(a + b, n) == OfSize(a, n) + OfSize(b, n)
    decreases |a|
  {
    if a == [] {
      assert a + b == b;
    } else {
      assert (a + b)[1..] == a[1..] + b;
      OfSizeAppend(a[1..], b, n);
    }
  }

  lemma {:induction false} OfSizeNone(s: Sizes, n: nat)
    requires forall i :: 0 <= i < |s| ==> s[i].1 != n
    ensures OfSize(s, n) == []
  {
    if s != [] {
      OfSizeNone(s[1..], n);
    }
  }

  lemma {:induction false} InsertPerm(s: Sizes, x: (string, nat))
    ensures multiset(Insert(s, x)) == multiset(s) + multiset{x}
  {
    if s != [] && s[0].1 >= x.1 {
      InsertPerm(s[1..], x);
      assert s == [s[0]] + s[1..];
    }
  }

  /** An entry at least as large as the head of a descending list can go in front of it. */
  lemma ConsDescending(a: (string, nat), t: Sizes)
    requires Descending(t)
    requires t != [] ==> a.1 >= t[0].1
    ensures Descending([a] + t)
  {
    var r := [a] + t;
    forall i, j | 0 <= i < j < |r|
      ensures r[i].1 >= r[j].1
    {
      if i == 0 {
        assert r[j] == t[j - 1];
      } else {
        assert r[i] == t[i - 1] && r[j] == t[j - 1];
      }
    }
  }

  lemma {:induction false} InsertDescending(s: Sizes, x: (string, nat))
    requires Descending(s)
    ensures Descending(Insert(s, x))
  {
    if s != [] && s[0].1 >= x.1 {
      var t := Insert(s[1..], x);
      InsertDescending(s[1..], x);
      assert t[0] == x || t[0] == s[1];
      ConsDescending(s[0], t);
    } else {
      ConsDescending(x, s);
    }
  }

  /** Insertion puts the new entry after every entry of its own size and keeps their order. */
  lemma {:induction false} InsertStable(s: Sizes, x: (string, nat), n: nat)
    requires Descending(s)
    ensures OfSize(Insert(s, x), n) == OfSize(s, n) + OfSize([x], n)
  {
    if s == [] {
      assert [x] + s == [x];
    } else if s[0].1 < x.1 {
      OfSizeAppend([x], s, n);
      if n == x.1 {
        OfSizeNone(s, n);
      } else {
        assert OfSize([x], n) == [];
      }
    } else {
      InsertStable(s[1..], x, n);
      assert Insert(s, x)[1..] == Insert(s[1..], x);
    }
  }

  /** The sort orders by decreasing size and keeps exactly the entries it was given. */
  lemma {:induction false} SortBySizeSorted(d: Sizes)
    ensures Descending(SortBySize(d))
    ensures multiset(SortBySize(d)) == multiset(d)
    decreases |d|
  {
    if d != [] {
      var p := d[..|d| - 1];
      SortBySizeSorted(p);
      InsertDescending(SortBySize(p), d[|d| - 1]);
      InsertPerm(SortBySize(p), d[|d| - 1]);
      assert d == p + [d[|d| - 1]];
    }
  }

  /** The sort is stable: the entries of any one size come out in the order they went in. */
  lemma {:induction false} SortBySizeStable(d: Sizes, n: nat)
    ensures OfSize(SortBySize(d), n) == OfSize(d, n)
    decreases |d|
  {
    if d != [] {
      var p, x := d[..|d| - 1], d[|d| - 1];
      SortBySizeStable(p, n);
      SortBySizeSorted(p);
      InsertStable(SortBySize(p), x, n);
      assert d == p + [x];
      OfSizeAppend(p, [x], n);
    }
  }

  const MiB: nat := 1048576

  function Abs(x: int): nat
  {
    if x < 0 then -x else x
  }

  /**
   * The size in tenths of a MiB as `{:.1f}` rounds it: the nearest whole
   * number of tenths to `bytes / 2^20`, and the even one on a tie.
   */
  function Tenths(bytes: nat): (t: nat)
    ensures 2 * Abs(10 * bytes - t * MiB) <= MiB
    ensures 2 * Abs(10 * bytes - t * MiB) == MiB ==> t % 2 == 0
  {
    var q, r := 10 * bytes / MiB, 10 * bytes % MiB;
    assert q * MiB + r == 10 * bytes;
    if 2 * r < MiB || (2 * r == MiB && q % 2 == 0) then q else q + 1
  }

  function DigitChar(d: nat): char
    requires d < 10
  {
    ('0' as int + d) as char
  }

  predicate IsDigit(c: char)
  {
    '0' <= c <= '9'
  }

  function DigitValue(c: char): nat
    requires IsDigit(c)
  {
    c as int - '0' as int
  }

  /** `str(n)`: the decimal digits of `n`, without leading zeros. */
  function NatString(n: nat): (s: string)
    ensures |s| >= 1
    ensures forall i :: 0 <= i < |s| ==> IsDigit(s[i])
    ensures |s| > 1 ==> s[0] != '0'
    decreases n
  {
    if n < 10 then [DigitChar(n)] else NatString(n / 10) + [DigitChar(n % 10)]
  }

  /** The value of a string of decimal digits. */
  function ParseNat(s: string): nat
    requires forall i :: 0 <= i < |s| ==> IsDigit(s[i])
  {
    if s == [] then 0 else 10 * ParseNat(s[..|s| - 1]) + DigitValue(s[|s| - 1])
  }

  /** Reading back the digits gives the number. */
  lemma {:induction false} ParseNatString(n: nat)
    ensures ParseNat(NatString(n)) == n
    decreases n
  {
    if n >= 10 {
      ParseNatString(n / 10);
      var s := NatString(n);
      assert s[..|s| - 1] == NatString(n / 10);
    }
  }

  /** The number of a line: whole MiB, a dot, and one decimal. */
  function FormatMb(bytes: nat): string
  {
    var t := Tenths(bytes);
    NatString(t / 10) + "." + [DigitChar(t % 10)]
  }

  /**
   * The rendered number reads back as the rounded size: the digits before
   * the dot are the whole MiB and the one digit after it is the tenths.
   */
  lemma FormatMbReads(bytes: nat)
    ensures var s := FormatMb(bytes);
      |s| >= 3 && s[|s| - 2] == '.' && IsDigit(s[|s| - 1])
      && (forall i :: 0 <= i < |s| - 2 ==> IsDigit(s[i]))
      && 10 * ParseNat(s[..|s| - 2]) + DigitValue(s[|s| - 1]) == Tenths(bytes)
  {
    var t := Tenths(bytes);
    var w := NatString(t / 10);
    var s := FormatMb(bytes);
    ParseNatString(t / 10);
    assert s == w + ['.', DigitChar(t % 10)];
    assert s[..|s| - 2] == w;
  }

  /** `ext.upper()[1:]`: the upper-cased extension without its first character. */
  function Label(ext: string): (r: string)
    ensures |r| == if ext == [] then 0 else |ext| - 1
    ensures forall i :: 0 <= i < |r| ==> r[i] == UpperChar(ext[i + 1])
  {
    if ext == [] then [] else Upper(ext)[1..]
  }

  const Title := "In order of size of each type of file:"

  /** One line of the report without its newline. */
  function LineText(e: (string, nat)): string
  {
    Label(e.0) + ": " + FormatMb(e.1) + "MB"
  }

  /** The lines of the report, each followed by a newline, in order. */
  function Lines(s: Sizes): string
  {
    if s == [] then "" else LineText(s[0]) + "\n" + Lines(s[1..])
  }

  /** `format_summary(file_sizes)`. */
  function Render(d: Sizes): string
  {
    Title + "\n" + Lines(SortBySize(d))
  }

  lemma {:induction false} LinesAppend(a: Sizes, b: Sizes)
    ensures Lines(a + b) == Lines(a) + Lines(b)
    decreases |a|
  {
    if a == [] {
      assert a + b == b;
    } else {
      assert (a + b)[1..] == a[1..] + b;
      LinesAppend(a[1..], b);
    }
  }

  /** The texts of the lines, one per entry. */
  function LineTexts(s: Sizes): (r: seq<string>)
    ensures |r| == |s|
    ensures forall i :: 0 <= i < |s| ==> r[i] == LineText(s[i])
  {
    seq(|s|, i requires 0 <= i < |s| => LineText(s[i]))
  }

  lemma {:induction false} LinesJoin(s: Sizes)
    ensures Lines(s) == Join(LineTexts(s) + [""], '\n')
  {
    if s != [] {
      LinesJoin(s[1..]);
      var ts := LineTexts(s) + [""];
      assert ts[1..] == LineTexts(s[1..]) + [""];
    }
  }

  lemma LineTextNoNewline(e: (string, nat))
    requires '\n' !in e.0
    ensures '\n' !in LineText(e)
  {
    var t := Tenths(e.1);
    var w := NatString(t / 10);
    assert FormatMb(e.1) == w + "." + [DigitChar(t % 10)];
    assert forall i :: 0 <= i < |e.0| ==> e.0[i] != '\n';
  }

  /** Sorting brings in no new extension. */
  lemma SortedKeysFrom(d: Sizes, i: nat)
    requires i < |SortBySize(d)|
    ensures exists j :: 0 <= j < |d| && d[j] == SortBySize(d)[i]
  {
    SortBySizeSorted(d);
    assert SortBySize(d)[i] in multiset(d);
  }

  lemma {:induction false} LineTextsNoNewline(s: Sizes)
    requires forall i :: 0 <= i < |s| ==> '\n' !in s[i].0
    ensures forall k :: 0 <= k < |s| ==> '\n' !in LineTexts(s)[k]
  {
    forall k | 0 <= k < |s|
      ensures '\n' !in LineTexts(s)[k]
    {
      LineTextNoNewline(s[k]);
    }
  }

  /** A title line followed by the lines of `s`, split at the newlines. */
  lemma SplitTitled(h: string, s: Sizes)
    requires '\n' !in h
    requires forall i :: 0 <= i < |s| ==> '\n' !in s[i].0
    ensures Split(h + "\n" + Lines(s), '\n') == [h] + LineTexts(s) + [""]
  {
    var ts := LineTexts(s);
    var parts := [h] + ts + [""];
    assert Join(parts, '\n') == h + "\n" + Lines(s) by {
      LinesJoin(s);
      assert parts[1..] == ts + [""];
    }
    assert forall k :: 0 <= k < |parts| ==> '\n' !in parts[k] by {
      LineTextsNoNewline(s);
      assert forall k :: 0 < k < |parts| - 1 ==> parts[k] == ts[k - 1];
    }
    SplitJoin(parts, '\n');
  }

  lemma TitleHasNoNewline()
    ensures '\n' !in Title
  {
  }

  /**
   * Split at its newlines, the report is the title, then one line per entry
   * in sorted order, then the empty text after the final newline (as long as
   * no extension holds a newline).
   */
  lemma RenderLines(d: Sizes)
    requires forall i :: 0 <= i < |d| ==> '\n' !in d[i].0
    ensures Split(Render(d), '\n') == [Title] + LineTexts(SortBySize(d)) + [""]
  {
    var s := SortBySize(d);
    forall i | 0 <= i < |s|
      ensures '\n' !in s[i].0
    {
      SortedKeysFrom(d, i);
    }
    TitleHasNoNewline();
    SplitTitled(Title, s);
  }

  /** 15.75 MiB is shown as `15.8` (a tie, rounded to the even tenth), 1 MiB as `1.0`. */
  lemma FormatMbExamples()
    ensures FormatMb(16515072) == "15.8"
    ensures FormatMb(1048576) == "1.0"
  {
    assert Tenths(16515072) == 158;
    assert Tenths(1048576) == 10;
  }
}
