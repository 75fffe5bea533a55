/** The size probe: `FileUtil.fileSize` sums the lengths of the regular files
    below a path, and the size-unit constants. */
module FileUtil {
  import opened Java

  const KB: int32 := 1024
  const MB: int32 := KB * 1024
  const GB: int32 := MB * 1024

  /** The constants are powers of 1024 and all fit in a Java `int` (the
      subset type `int32` makes Dafny check the latter). */
  lemma UnitConstants()
    ensures KB == 1024 && MB == 1048576 && GB == 1073741824
    ensures GB <= INT_MAX
  {
  }

  /** What a `java.io.File` path denotes, as far as `fileSize` can tell:
      nothing (or a null reference), a regular file with its `length()`, a
      directory whose `listFiles()` gives `children`, a directory whose
      `listFiles()` returns null, or something that exists but is neither a
      file nor a directory. */
  datatype Node =
    | Absent
    | RegularFile(length: long)
    | Directory(children: seq<Node>)
    | UnlistableDirectory
    | Other

  /** The size the probe is meant to report: the sum of the lengths of all
      regular files in the tree. */
  function TotalSize(n: Node): int
    decreases n
  {
    match n
    case RegularFile(l) => l
    case Directory(cs) => SumSizes(cs)
    case _ => 0
  }

  function SumSizes(cs: seq<Node>): int
    decreases cs
  {
    if cs == [] then 0 else SumSizes(cs[..|cs| - 1]) + TotalSize(cs[|cs| - 1])
  }

  /** `fileSize(f)`: an early return for a missing path and for a regular
      file, otherwise a loop that accumulates the sizes of the children. */
  method FileSize(f: Node) returns (length: int)
    ensures length == TotalSize(f)
    ensures f.Absent? || f.UnlistableDirectory? || f.Other? ==> length == 0
    ensures f.RegularFile? ==> length == f.length
    ensures f.Directory? && f.children == [] ==> length == 0
    decreases f
  {
    length := 0;
    match f {
      case Absent =>
        return 0;
      case RegularFile(l) =>
        return l;
      case Directory(files) =>
        for i := 0 to |files|
          invariant length == SumSizes(files[..i])
        {
          var l := FileSize(files[i]);
          assert files[..i + 1][..i] == files[..i];
          length := length + l;
        }
        assert files[..|files|] == files;
      case UnlistableDirectory =>
      case Other =>
    }
  }

  /** Every regular file in the tree has a non-negative length. */
  predicate LengthsNonNegative(n: Node)
    decreases n
  {
    match n
    case RegularFile(l) => l >= 0
    case Directory(cs) => forall i :: 0 <= i < |cs| ==> LengthsNonNegative(cs[i])
    case _ => true
  }

  lemma {:induction false} TotalSizeNonNegative(n: Node)
    requires LengthsNonNegative(n)
    ensures TotalSize(n) >= 0
    decreases n, 1
  {
    if n.Directory? {
      SumSizesNonNegative(n.children);
    }
  }

  lemma {:induction false} SumSizesNonNegative(cs: seq<Node>)
    requires forall i :: 0 <= i < |cs| ==> LengthsNonNegative(cs[i])
    ensures SumSizes(cs) >= 0
    decreases cs, 0
  {
    if cs != [] {
      SumSizesNonNegative(cs[..|cs| - 1]);
      TotalSizeNonNegative(cs[|cs| - 1]);
    }
  }

  /** The sum over a listing splits over any division of the listing. */
  lemma {:induction false} SumSizesAppend(a: seq<Node>, b: seq<Node>)
    ensures SumSizes(a + b) == SumSizes(a) + SumSizes(b)
    decreases |b|
  {
    if b == [] {
      assert a + b == a;
    } else {
      assert (a + b)[..|a + b| - 1] == a + b[..|b| - 1];
      SumSizesAppend(a, b[..|b| - 1]);
    }
  }

  /** A path into the tree: the indices of the children to follow. */
  predicate IsPath(n: Node, path: seq<nat>)
    decreases path
  {
    path == [] || (n.Directory? && path[0] < |n.children| && IsPath(n.children[path[0]], path[1..]))
  }

  /** The node that `path` leads to. */
  function At(n: Node, path: seq<nat>): Node
    requires IsPath(n, path)
    decreases path
  {
    if path == [] then n else At(n.children[path[0]], path[1..])
  }

  /** The tree with the node at the end of `path` deleted from its
      directory's listing. */
  function RemoveAt(n: Node, path: seq<nat>): Node
    requires IsPath(n, path) && path != []
    decreases path
  {
    var cs := n.children;
    var i := path[0];
    if |path| == 1 then Directory(cs[..i] + cs[i + 1..])
    else Directory(cs[i := RemoveAt(cs[i], path[1..])])
  }

  lemma SumSizesSnoc(a: seq<Node>, x: Node)
    ensures SumSizes(a + [x]) == SumSizes(a) + TotalSize(x)
  {
    assert (a + [x])[..|a|] == a;
  }

  lemma SumSizesRemoveOne(cs: seq<Node>, i: nat)
    requires i < |cs|
    ensures SumSizes(cs[..i] + cs[i + 1..]) == SumSizes(cs) - TotalSize(cs[i])
  {
    var pre, post := cs[..i], cs[i + 1..];
    assert cs[..i + 1] + post == cs;
    SumSizesAppend(cs[..i + 1], post);
    assert cs[..i + 1][..i] == pre;
    SumSizesAppend(pre, post);
  }

  lemma SumSizesReplace(cs: seq<Node>, i: nat, c: Node)
    requires i < |cs|
    ensures SumSizes(cs[i := c]) == SumSizes(cs) - TotalSize(cs[i]) + TotalSize(c)
  {
    SumSizesRemoveOne(cs, i);
    SumSizesRemoveOne(cs[i := c], i);
    assert cs[i := c][..i] + cs[i := c][i + 1..] == cs[..i] + cs[i + 1..];
  }

  /** Deleting any one node lowers the probe's total by exactly that node's
      own total; for a regular file, by its length. */
  lemma {:induction false} RemoveLowersTotal(n: Node, path: seq<nat>)
    requires IsPath(n, path) && path != []
    ensures TotalSize(RemoveAt(n, path)) == TotalSize(n) - TotalSize(At(n, path))
    ensures At(n, path).RegularFile? ==>
      TotalSize(RemoveAt(n, path)) == TotalSize(n) - At(n, path).length
    decreases path
  {
    var cs := n.children;
    var i := path[0];
    if |path| == 1 {
      SumSizesRemoveOne(cs, i);
      assert At(cs[i], path[1..]) == cs[i];
    } else {
      RemoveLowersTotal(cs[i], path[1..]);
      SumSizesReplace(cs, i, RemoveAt(cs[i], path[1..]));
    }
  }
}
