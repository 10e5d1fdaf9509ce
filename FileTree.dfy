/**
 * The part of the filesystem the organiser sees: the listing of the chosen
 * directory, where each entry is a regular file with a size in bytes or a
 * subdirectory with a listing of its own. Listings are kept in the order the
 * operating system reports them; new entries are appended.
 */
module FileTree {
  import opened Wrappers

  datatype Node = File(size: nat) | Dir(children: seq<Entry>)
  datatype Entry = Entry(name: string, node: Node)

  /** The names of a listing, in order (`os.listdir`). */
  function Names(es: seq<Entry>): (ns: seq<string>)
    ensures |ns| == |es|
    ensures forall i :: 0 <= i < |es| ==> ns[i] == es[i].name
  {
    seq(|es|, i requires 0 <= i < |es| => es[i].name)
  }

  /** A directory never lists two entries under one name. */
  predicate UniqueNames(es: seq<Entry>)
  {
    forall i, j :: 0 <= i < j < |es| ==> es[i].name != es[j].name
  }

  /** Where `name` is listed, or -1. */
  function IndexOf(es: seq<Entry>, name: string): (i: int)
    ensures -1 <= i < |es|
    ensures 0 <= i ==> es[i].name == name
    ensures forall k :: 0 <= k < |es| && (i < 0 || k < i) ==> es[k].name != name
  {
    if es == [] then -1
    else if es[0].name == name then 0
    else
      var j := IndexOf(es[1..], name);
      if j < 0 then -1 else j + 1
  }

  /** The node listed under `name`, if any. */
  function Find(es: seq<Entry>, name: string): (r: Option<Node>)
    ensures r.Some? <==> name in Names(es)
  {
    var i := IndexOf(es, name);
    if i < 0 then None else Some(es[i].node)
  }

  /** In a listing without repeated names, an entry is what its name finds. */
  lemma FindAt(es: seq<Entry>, k: int)
    requires UniqueNames(es) && 0 <= k < |es|
    ensures Find(es, es[k].name) == Some(es[k].node)
  {
    var i := IndexOf(es, es[k].name);
    assert !(i < 0 || k < i);
  }

  /** `os.path.isfile(base/name)`. */
  predicate IsFile(es: seq<Entry>, name: string)
  {
    Find(es, name).Some? && Find(es, name).value.File?
  }

  /** `os.path.isdir(base/name)`. */
  predicate IsDir(es: seq<Entry>, name: string)
  {
    Find(es, name).Some? && Find(es, name).value.Dir?
  }

  /**
   * `os.path.exists(os.path.join(base, name))`: an empty name joins to the
   * base directory itself, which exists.
   */
  predicate Exists(es: seq<Entry>, name: string)
  {
    name == [] || name in Names(es)
  }

  /** The listing without its `i`-th entry. */
  function RemoveAt(es: seq<Entry>, i: nat): (r: seq<Entry>)
    requires i < |es|
    ensures |r| == |es| - 1
    ensures forall k :: 0 <= k < i ==> r[k] == es[k]
    ensures forall k :: i <= k < |r| ==> r[k] == es[k + 1]
  {
    es[..i] + es[i + 1..]
  }

  /** The listing with the `i`-th entry's node replaced. */
  function ReplaceAt(es: seq<Entry>, i: nat, n: Node): (r: seq<Entry>)
    requires i < |es|
    ensures |r| == |es| && r[i] == Entry(es[i].name, n)
    ensures forall k :: 0 <= k < |es| && k != i ==> r[k] == es[k]
  {
    es[i := Entry(es[i].name, n)]
  }

  /** The number of bytes held by a node: its size, or everything under it. */
  function NodeSize(n: Node): nat
    decreases n, 1
  {
    match n
    case File(s) => s
    case Dir(ch) => TotalSize(ch)
  }

  /** The number of bytes held by every regular file under a listing. */
  function TotalSize(es: seq<Entry>): nat
    decreases es, 0
  {
    if es == [] then 0 else NodeSize(es[0].node) + TotalSize(es[1..])
  }

  lemma {:induction false} TotalSizeAppend(a: seq<Entry>, b: seq<Entry>)
    ensures TotalSize(a + b) == TotalSize(a) + TotalSize(b)
    decreases |a|
  {
    if a == [] {
      assert a + b == b;
    } else {
      assert (a + b)[1..] == a[1..] + b;
      TotalSizeAppend(a[1..], b);
    }
  }

  /** Taking an entry out of a listing takes away exactly the bytes under it. */
  lemma {:induction false} TotalSizeRemoveAt(es: seq<Entry>, i: nat)
    requires i < |es|
    ensures TotalSize(RemoveAt(es, i)) + NodeSize(es[i].node) == TotalSize(es)
    decreases i
  {
    if i > 0 {
      var r := RemoveAt(es[1..], i - 1);
      TotalSizeRemoveAt(es[1..], i - 1);
      assert RemoveAt(es, i) == [es[0]] + r;
      TotalSizeCons(es[0], r);
    } else {
      assert RemoveAt(es, i) == es[1..];
    }
  }

  lemma TotalSizeCons(e: Entry, b: seq<Entry>)
    ensures TotalSize([e] + b) == NodeSize(e.node) + TotalSize(b)
  {
    assert ([e] + b)[1..] == b;
  }

  /** Replacing an entry's node changes the total by the difference in size. */
  lemma TotalSizeReplaceAt(es: seq<Entry>, i: nat, n: Node)
    requires i < |es|
    ensures TotalSize(ReplaceAt(es, i, n)) + NodeSize(es[i].node) == TotalSize(es) + NodeSize(n)
  {
    var r := ReplaceAt(es, i, n);
    TotalSizeRemoveAt(es, i);
    TotalSizeRemoveAt(r, i);
    assert RemoveAt(r, i) == RemoveAt(es, i);
  }

  /**
   * `shutil.move(base/file, base/dest)` when `dest` is a directory: the file
   * is appended to `dest`'s listing under its own name and leaves the top
   * level. It fails (`None`) when `file` is not a regular file, when `dest`
   * is not a directory, or when `dest` already lists something called `file`.
   */
  function MoveInto(es: seq<Entry>, file: string, dest: string): Option<seq<Entry>>
  {
    var i := IndexOf(es, file);
    var j := IndexOf(es, dest);
    if i < 0 || j < 0 || !es[i].node.File? || !es[j].node.Dir? || file in Names(es[j].node.children) then None
    else
      var moved := Dir(es[j].node.children + [Entry(file, es[i].node)]);
      Some(RemoveAt(ReplaceAt(es, j, moved), i))
  }

  /**
   * A move succeeds exactly when `file` is a regular file, `dest` a
   * directory, and `dest` does not already list `file`.
   */
  lemma MoveIntoSucceeds(es: seq<Entry>, file: string, dest: string)
    ensures MoveInto(es, file, dest).Some? <==>
      (IsFile(es, file) && IsDir(es, dest) && file !in Names(Find(es, dest).value.children))
  {
  }

  /** A move neither creates nor destroys bytes. */
  lemma MoveIntoSize(es: seq<Entry>, file: string, dest: string)
    requires MoveInto(es, file, dest).Some?
    ensures TotalSize(MoveInto(es, file, dest).value) == TotalSize(es)
  {
    var i, j := IndexOf(es, file), IndexOf(es, dest);
    var ch := es[j].node.children;
    var f := Entry(file, es[i].node);
    var r := ReplaceAt(es, j, Dir(ch + [f]));
    TotalSizeReplaceAt(es, j, Dir(ch + [f]));
    TotalSizeAppend(ch, [f]);
    assert TotalSize([f]) == NodeSize(f.node);
    TotalSizeRemoveAt(r, i);
  }

  /** A move shifts the entries after the file's one place down and renames nothing. */
  lemma MoveIntoShift(es: seq<Entry>, file: string, dest: string)
    requires MoveInto(es, file, dest).Some?
    ensures var i, r := IndexOf(es, file), MoveInto(es, file, dest).value;
      0 <= i < |es| && |r| == |es| - 1
      && forall k :: 0 <= k < |r| ==> r[k].name == es[if k < i then k else k + 1].name
  {
    var i, j := IndexOf(es, file), IndexOf(es, dest);
    var moved := Dir(es[j].node.children + [Entry(file, es[i].node)]);
    var t := ReplaceAt(es, j, moved);
    assert forall m :: 0 <= m < |es| ==> t[m].name == es[m].name;
  }

  /**
   * Dropping the `i`-th name of a listing without repeats: `r` lists the
   * other entries' names in order, so it lists every name but that one.
   */
  lemma DropName(es: seq<Entry>, r: seq<Entry>, i: int)
    requires UniqueNames(es) && 0 <= i < |es| && |r| == |es| - 1
    requires forall k :: 0 <= k < |r| ==> r[k].name == es[if k < i then k else k + 1].name
    ensures UniqueNames(r) && es[i].name !in Names(r)
    ensures forall n :: n != es[i].name ==> (n in Names(r) <==> n in Names(es))
  {
    forall k | 0 <= k < |r|
      ensures r[k].name != es[i].name
    {
      assert r[k].name == es[if k < i then k else k + 1].name;
    }
    forall n | n != es[i].name
      ensures n in Names(r) <==> n in Names(es)
    {
      if n in Names(es) {
        var m :| 0 <= m < |es| && es[m].name == n;
        assert r[if m < i then m else m - 1].name == n;
      }
    }
  }

  /** A move takes the file's name out of the listing and no other name. */
  lemma MoveIntoNames(es: seq<Entry>, file: string, dest: string)
    requires UniqueNames(es)
    requires MoveInto(es, file, dest).Some?
    ensures var r := MoveInto(es, file, dest).value;
      UniqueNames(r) && file !in Names(r)
      && forall n :: n != file ==> (n in Names(r) <==> n in Names(es))
  {
    MoveIntoShift(es, file, dest);
    DropName(es, MoveInto(es, file, dest).value, IndexOf(es, file));
  }

  /**
   * In a listing without repeats, replacing the `j`-th node and then dropping
   * the `i`-th entry leaves every other name finding what it found, except
   * that the `j`-th name finds the new node.
   */
  lemma ReplaceDropFind(es: seq<Entry>, i: int, j: int, moved: Node, n: string)
    requires UniqueNames(es) && 0 <= i < |es| && 0 <= j < |es| && i != j
    ensures Find(RemoveAt(ReplaceAt(es, j, moved), i), n) ==
      if n == es[i].name then None
      else if n == es[j].name then Some(moved)
      else Find(es, n)
  {
    var r := RemoveAt(ReplaceAt(es, j, moved), i);
    assert forall k :: 0 <= k < |r| ==> r[k].name == es[if k < i then k else k + 1].name by {
      forall k | 0 <= k < |r|
        ensures r[k].name == es[if k < i then k else k + 1].name
      {
        ReplaceDropAt(es, i, j, moved, k);
      }
    }
    DropName(es, r, i);
    if n != es[i].name && n in Names(r) {
      var k :| 0 <= k < |r| && r[k].name == n;
      ReplaceDropAt(es, i, j, moved, k);
      FindAt(r, k);
      FindAt(es, if k < i then k else k + 1);
    } else if n != es[i].name {
      assert Names(es)[j] == es[j].name;
    }
  }

  /** The `k`-th entry after replacing the `j`-th node and dropping the `i`-th entry. */
  lemma ReplaceDropAt(es: seq<Entry>, i: int, j: int, moved: Node, k: int)
    requires 0 <= i < |es| && 0 <= j < |es| && 0 <= k < |es| - 1
    ensures var m := if k < i then k else k + 1;
      RemoveAt(ReplaceAt(es, j, moved), i)[k] == if m == j then Entry(es[j].name, moved) else es[m]
  {
  }

  /**
   * After a move the file is no longer listed, `dest` lists the file after
   * what it listed before, and every other name finds what it found before.
   */
  lemma MoveIntoFind(es: seq<Entry>, file: string, dest: string, n: string)
    requires UniqueNames(es)
    requires MoveInto(es, file, dest).Some?
    ensures var r := MoveInto(es, file, dest).value;
      Find(r, n) ==
        if n == file then None
        else if n == dest then Some(Dir(Find(es, dest).value.children + [Entry(file, Find(es, file).value)]))
        else Find(es, n)
  {
    var i, j := IndexOf(es, file), IndexOf(es, dest);
    var moved := Dir(es[j].node.children + [Entry(file, es[i].node)]);
    FindAt(es, i);
    FindAt(es, j);
    ReplaceDropFind(es, i, j, moved, n);
  }

  /** Appending a new empty directory (`os.makedirs(base/name)`). */
  function MakeDir(es: seq<Entry>, name: string): (r: seq<Entry>)
    ensures Names(r) == Names(es) + [name]
    ensures TotalSize(r) == TotalSize(es)
  {
    var r := es + [Entry(name, Dir([]))];
    TotalSizeAppend(es, [Entry(name, Dir([]))]);
    r
  }

  /** A new name keeps the listing free of repeats. */
  lemma MakeDirUnique(es: seq<Entry>, name: string)
    requires UniqueNames(es) && name !in Names(es)
    ensures UniqueNames(MakeDir(es, name))
  {
    var r := MakeDir(es, name);
    assert forall i :: 0 <= i < |es| ==> r[i] == es[i] && Names(es)[i] == es[i].name;
  }

  /** The regular files of one listing, as (name, size) pairs in listing order. */
  function TopFiles(es: seq<Entry>): seq<(string, nat)>
  {
    if es == [] then []
    else (match es[0].node
      case File(s) => [(es[0].name, s)]
      case Dir(_) => []) + TopFiles(es[1..])
  }

  /**
   * `os.walk(base)` top-down, keeping only each directory's regular files: the
   * base directory's files first, then the walk of every subdirectory in
   * listing order.
   */
  function Walk(es: seq<Entry>): seq<seq<(string, nat)>>
    decreases es, 1
  {
    [TopFiles(es)] + SubWalks(es)
  }

  function SubWalks(es: seq<Entry>): seq<seq<(string, nat)>>
    decreases es, 0
  {
    if es == [] then []
    else (match es[0].node
      case File(_) => []
      case Dir(ch) => Walk(ch)) + SubWalks(es[1..])
  }

  function Flatten<T>(xss: seq<seq<T>>): seq<T>
  {
    if xss == [] then [] else xss[0] + Flatten(xss[1..])
  }

  lemma {:induction false} FlattenAppend<T>(a: seq<seq<T>>, b: seq<seq<T>>)
    ensures Flatten(a + b) == Flatten(a) + Flatten(b)
    decreases |a|
  {
    if a == [] {
      assert a + b == b;
    } else {
      assert (a + b)[1..] == a[1..] + b;
      FlattenAppend(a[1..], b);
    }
  }

  /** The sum of the sizes in a list of (name, size) pairs. */
  function SumSizes(fs: seq<(string, nat)>): nat
  {
    if fs == [] then 0 else fs[0].1 + SumSizes(fs[1..])
  }

  lemma {:induction false} SumSizesAppend(a: seq<(string, nat)>, b: seq<(string, nat)>)
    ensures SumSizes(a + b) == SumSizes(a) + SumSizes(b)
    decreases |a|
  {
    if a == [] {
      assert a + b == b;
    } else {
      assert (a + b)[1..] == a[1..] + b;
      SumSizesAppend(a[1..], b);
    }
  }

  /** The sizes of the files the walk yields add up to the tree's total. */
  lemma {:induction false} WalkSize(es: seq<Entry>)
    ensures SumSizes(Flatten(Walk(es))) == TotalSize(es)
    decreases es, 1
  {
    FlattenAppend([TopFiles(es)], SubWalks(es));
    assert Flatten([TopFiles(es)]) == TopFiles(es);
    SumSizesAppend(TopFiles(es), Flatten(SubWalks(es)));
    SplitSizes(es);
  }

  /** The total of a listing is its own files' sizes plus the sizes found below its subdirectories. */
  lemma {:induction false} SplitSizes(es: seq<Entry>)
    ensures SumSizes(TopFiles(es)) + SumSizes(Flatten(SubWalks(es))) == TotalSize(es)
    decreases es, 0
  {
    if es != [] {
      SplitSizes(es[1..]);
      var head := match es[0].node case File(_) => [] case Dir(ch) => Walk(ch);
      FlattenAppend(head, SubWalks(es[1..]));
      SumSizesAppend(Flatten(head), Flatten(SubWalks(es[1..])));
      match es[0].node {
        case File(s) =>
          assert TopFiles(es) == [(es[0].name, s)] + TopFiles(es[1..]);
          SumSizesAppend([(es[0].name, s)], TopFiles(es[1..]));
        case Dir(ch) =>
          assert TopFiles(es) == TopFiles(es[1..]);
          assert SubWalks(es) == Walk(ch) + SubWalks(es[1..]);
          WalkSize(ch);
      }
    }
  }
}
