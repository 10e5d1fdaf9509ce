/**
 * `summarize_files`: the bytes of every regular file in the tree, added up
 * per extension in an insertion-ordered dict. The extension here is
 * `os.path.splitext`'s, lower-cased: it keeps its leading dot and is empty
 * for a name without one and for a dotfile such as `.bashrc`.
 */
module Summary {
  import opened Wrappers
  import opened OrderedDict
  import opened Text
  import opened FileTree

  /** Extension -> bytes. */
  type Sizes = Dict<nat>

  /** `os.path.splitext(file)[1].lower()`. */
  function ExtOf(name: string): string
  {
    Lower(SplitExt(name))
  }

  function ValueOr(o: Option<nat>): nat
  {
    if o.Some? then o.value else 0
  }

  /**
   * One pass of the inner loop: add the file's size to its extension's
   * entry, which is created at the end when the extension is new.
   */
  function AddSize(d: Sizes, ext: string, size: nat): (r: Sizes)
    ensures Keys(r) == if ext in Keys(d) then Keys(d) else Keys(d) + [ext]
    ensures Get(r, ext) == Some(ValueOr(Get(d, ext)) + size)
    ensures forall k :: k != ext ==> Get(r, k) == Get(d, k)
    ensures SumValues(r) == SumValues(d) + size
  {
    var v: nat := ValueOr(Get(d, ext)) + size;
    SetKeys<nat>(d, ext, v);
    SumValuesSet(d, ext, v);
    Set<nat>(d, ext, v)
  }

  /** Each file's extension with its size, in order. */
  function ExtSizes(files: seq<(string, nat)>): (r: seq<(string, nat)>)
    ensures |r| == |files|
    ensures forall i :: 0 <= i < |files| ==> r[i] == (ExtOf(files[i].0), files[i].1)
  {
    seq(|files|, i requires 0 <= i < |files| => (ExtOf(files[i].0), files[i].1))
  }

  /** The inner loop run over (extension, size) pairs, in order. */
  function Tally(d: Sizes, items: seq<(string, nat)>): Sizes
    decreases |items|
  {
    if items == [] then d
    else Tally(AddSize(d, items[0].0, items[0].1), items[1..])
  }

  /** The total size of the items with extension `ext`. */
  function SizeOfExt(items: seq<(string, nat)>, ext: string): nat
  {
    if items == [] then 0
    else (if items[0].0 == ext then items[0].1 else 0) + SizeOfExt(items[1..], ext)
  }

  /** No item has an extension that does not occur. */
  lemma {:induction false} SizeOfExtAbsent(items: seq<(string, nat)>, ext: string)
    requires ext !in Keys(items)
    ensures SizeOfExt(items, ext) == 0
  {
    if items != [] {
      SizeOfExtAbsent(items[1..], ext);
    }
  }

  /** The sum of a dict's values. */
  function SumValues(d: Sizes): nat
  {
    if d == [] then 0 else d[0].1 + SumValues(d[1..])
  }

  lemma {:induction false} TallyAppend(d: Sizes, a: seq<(string, nat)>, b: seq<(string, nat)>)
    ensures Tally(d, a + b) == Tally(Tally(d, a), b)
    decreases |a|
  {
    if a == [] {
      assert a + b == b;
    } else {
      assert (a + b)[1..] == a[1..] + b;
      TallyAppend(AddSize(d, a[0].0, a[0].1), a[1..], b);
    }
  }

  /**
   * The summary lists each extension once, at the place of its first file:
   * its keys are the extensions without repeats, in order.
   */
  lemma {:induction false} TallyKeys(d: Sizes, items: seq<(string, nat)>)
    requires Distinct(Keys(d))
    ensures Keys(Tally(d, items)) == Dedup(Keys(d) + Keys(items))
    decreases |items|
  {
    if items == [] {
      DedupDistinct(Keys(d));
      assert Keys(d) + Keys(items) == Keys(d);
    } else {
      var n := |items| - 1;
      var p, x := items[..n], items[n];
      assert items == p + [x];
      TallySnoc(d, p, x);
      KeysSnoc(Keys(d), p, x);
      TallyKeys(d, p);
      AddSizeDedup(Tally(d, p), Keys(d) + Keys(p), x.0, x.1);
    }
  }

  lemma TallySnoc(d: Sizes, items: seq<(string, nat)>, x: (string, nat))
    ensures Tally(d, items + [x]) == AddSize(Tally(d, items), x.0, x.1)
  {
    TallyAppend(d, items, [x]);
    assert [x][1..] == [];
  }

  lemma KeysSnoc(ks: seq<string>, items: seq<(string, nat)>, x: (string, nat))
    ensures ks + Keys(items + [x]) == ks + Keys(items) + [x.0]
  {
    KeysAppend(items, [x]);
    assert Keys([x]) == [x.0];
  }

  /** An extension has an entry after the loop exactly when it had one before or some item has it. */
  lemma {:induction false} TallyHas(d: Sizes, items: seq<(string, nat)>, ext: string)
    ensures (ext in Keys(Tally(d, items))) == (ext in Keys(d) || ext in Keys(items))
    decreases |items|
  {
    if items != [] {
      var rest := items[1..];
      TallyHas(AddSize(d, items[0].0, items[0].1), rest, ext);
      assert Keys(items) == [items[0].0] + Keys(rest);
    }
  }

  /** The loop adds to an extension's entry the sizes of exactly the items with that extension. */
  lemma {:induction false} TallyValue(d: Sizes, items: seq<(string, nat)>, ext: string)
    ensures ValueOr(Get(Tally(d, items), ext)) == ValueOr(Get(d, ext)) + SizeOfExt(items, ext)
    decreases |items|
  {
    if items != [] {
      var e, size := items[0].0, items[0].1;
      var d' := AddSize(d, e, size);
      TallyValue(d', items[1..], ext);
      assert ValueOr(Get(d', ext)) == ValueOr(Get(d, ext)) + (if e == ext then size else 0);
    }
  }

  /** One step keeps the keys equal to the first occurrences of the extensions seen so far. */
  lemma AddSizeDedup(t: Sizes, q: seq<string>, ext: string, size: nat)
    requires Keys(t) == Dedup(q)
    ensures Keys(AddSize(t, ext, size)) == Dedup(q + [ext])
  {
    DedupSnoc(q, ext);
  }

  /**
   * Each extension's entry is what it held before plus the sizes of exactly
   * the items with that extension; an extension no item has keeps its entry.
   */
  lemma {:induction false} TallyGet(d: Sizes, items: seq<(string, nat)>, ext: string)
    ensures Get<nat>(Tally(d, items), ext) ==
      if ext in Keys(items) then Option<nat>.Some(ValueOr(Get(d, ext)) + SizeOfExt(items, ext)) else Get<nat>(d, ext)
  {
    TallyHas(d, items, ext);
    TallyValue(d, items, ext);
    if ext !in Keys(items) {
      SizeOfExtAbsent(items, ext);
    }
    EntryFrom(Tally(d, items), d, ext, ext in Keys(items), SizeOfExt(items, ext));
  }

  /**
   * An entry of `r` that exists exactly when `d` has one or `added` holds, and
   * whose value is `d`'s plus `extra`, where nothing is added without `added`.
   */
  lemma EntryFrom(r: Sizes, d: Sizes, ext: string, added: bool, extra: nat)
    requires (ext in Keys(r)) == (ext in Keys(d) || added)
    requires ValueOr(Get(r, ext)) == ValueOr(Get(d, ext)) + extra
    requires !added ==> extra == 0
    ensures Get<nat>(r, ext) == if added then Option<nat>.Some(ValueOr(Get(d, ext)) + extra) else Get<nat>(d, ext)
  {
  }

  /** Assigning to a key replaces its old value (or nothing) in the sum of the values. */
  lemma {:induction false} SumValuesSet(d: Sizes, k: string, v: nat)
    ensures SumValues(Set(d, k, v)) + ValueOr(Get(d, k)) == SumValues(d) + v
  {
    if d != [] && d[0].0 != k {
      SumValuesSet(d[1..], k, v);
      assert Set(d, k, v)[1..] == Set(d[1..], k, v);
    } else if d != [] {
      assert Set(d, k, v)[1..] == d[1..];
    }
  }

  /** The values of the summary add up to the sizes of all the items, plus what the dict held. */
  lemma {:induction false} TallySum(d: Sizes, items: seq<(string, nat)>)
    ensures SumValues(Tally(d, items)) == SumValues(d) + SumSizes(items)
    decreases |items|
  {
    if items != [] {
      TallySum(AddSize(d, items[0].0, items[0].1), items[1..]);
    }
  }

  /** The summary of a tree: the inner loop over every directory's files, in `os.walk` order. */
  function Summarize(es: seq<Entry>): Sizes
  {
    Tally([], ExtSizes(Flatten(Walk(es))))
  }

  lemma {:induction false} ExtSizesSum(files: seq<(string, nat)>)
    ensures SumSizes(ExtSizes(files)) == SumSizes(files)
  {
    if files != [] {
      assert ExtSizes(files)[1..] == ExtSizes(files[1..]);
      ExtSizesSum(files[1..]);
    }
  }

  /**
   * The values of a tree's summary add up to its total size, and no two
   * entries share an extension.
   */
  lemma SummarizeTotal(es: seq<Entry>)
    ensures SumValues(Summarize(es)) == TotalSize(es)
    ensures Distinct(Keys(Summarize(es)))
  {
    var files := Flatten(Walk(es));
    TallySum([], ExtSizes(files));
    ExtSizesSum(files);
    WalkSize(es);
    TallyKeys([], ExtSizes(files));
  }

  /**
   * The inner loop over two `.mp3` files of 10.5 MiB and 5.25 MiB and one
   * `.txt` file of 1 MiB leaves 15.75 MiB under `.mp3` and 1 MiB under `.txt`.
   */
  lemma TallyExample()
    ensures var d := Tally([], [(".mp3", 11010048), (".mp3", 5505024), (".txt", 1048576)]);
      Get(d, ".mp3") == Some(16515072) && Get(d, ".txt") == Some(1048576)
  {
    var items: seq<(string, nat)> := [(".mp3", 11010048), (".mp3", 5505024), (".txt", 1048576)];
    var d0: Sizes := [];
    var d1 := AddSize(d0, ".mp3", 11010048);
    var d2 := AddSize(d1, ".mp3", 5505024);
    var d3 := AddSize(d2, ".txt", 1048576);
    assert Tally(d0, items) == d3 by {
      assert Tally(d0, items) == Tally(d1, items[1..]);
      assert items[1..][1..] == items[2..];
      assert Tally(d1, items[1..]) == Tally(d2, items[2..]);
      assert items[2..][1..] == items[3..];
      assert Tally(d3, items[3..]) == d3;
    }
    assert ".mp3"[1] != ".txt"[1];
    assert Get(d0, ".mp3") == None && Get(d0, ".txt") == None;
    assert Get(d2, ".mp3") == Some(16515072);
    assert Get(d2, ".txt") == None;
  }

  /** The same three files, named so that `ExtOf` gives `.mp3`, `.mp3` and `.txt`. */
  lemma TestSummary(a: string, b: string, c: string)
    requires ExtOf(a) == ".mp3" && ExtOf(b) == ".mp3" && ExtOf(c) == ".txt"
    ensures var d := Tally([], ExtSizes([(a, 11010048), (b, 5505024), (c, 1048576)]));
      Get(d, ".mp3") == Some(16515072) && Get(d, ".txt") == Some(1048576)
  {
    var items := ExtSizes([(a, 11010048), (b, 5505024), (c, 1048576)]);
    assert items == [(".mp3", 11010048), (".mp3", 5505024), (".txt", 1048576)];
    TallyExample();
  }
}
