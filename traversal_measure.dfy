/** Why the traversal's outer loop ends on a finite file system whose names are
    non-empty: every directory the loop pops is either unknown (it pushes nothing)
    or a known path of bounded length, and each of its at most `Bound` children is
    strictly longer. Weighting a path of rank `r` (how far its length is below the
    bound) by `(Bound + 1)^r`, one pop removes more weight than its pushes add. */
module TraversalMeasure {
  import opened Base
  import opened Native

  function Pow(base: nat, exponent: nat): (p: nat)
    ensures base >= 1 ==> p >= 1
  {
    if exponent == 0 then 1 else base * Pow(base, exponent - 1)
  }

  lemma {:induction false} PowMonotonic(base: nat, lo: nat, hi: nat)
    requires base >= 1 && lo <= hi
    ensures Pow(base, lo) <= Pow(base, hi)
    decreases hi
  {
    if lo < hi {
      PowMonotonic(base, lo, hi - 1);
      AtMostMultiple(base, Pow(base, hi - 1));
    }
  }

  lemma AtMostMultiple(a: nat, x: nat)
    requires a >= 1
    ensures x <= a * x
  {
  }

  lemma MultipleSucc(n: nat, p: nat)
    ensures p + n * p == (n + 1) * p
  {
  }

  function TotalBytes(batches: seq<seq<Byte>>): nat {
    if batches == [] then 0 else |batches[0]| + TotalBytes(batches[1..])
  }

  /** A bound on what one known path contributes: its length and its listing's size. */
  function EntryBound(path: Text, result: OpenResult): nat {
    var size := if result.Opened? then TotalBytes(result.listing.batches) else 0;
    if |path| >= size then |path| else size
  }

  ghost function Pick(keys: set<Text>): (k: Text)
    requires keys != {}
    ensures k in keys
  {
    var k :| k in keys; k
  }

  ghost function BoundOver(dirs: map<Text, OpenResult>, keys: set<Text>): nat
    requires keys <= dirs.Keys
    decreases keys
  {
    if keys == {} then 0
    else
      var k := Pick(keys);
      var rest := BoundOver(dirs, keys - {k});
      var here := EntryBound(k, dirs[k]);
      if here >= rest then here else rest
  }

  lemma {:induction false} BoundOverCovers(dirs: map<Text, OpenResult>, keys: set<Text>, path: Text)
    requires keys <= dirs.Keys && path in keys
    ensures EntryBound(path, dirs[path]) <= BoundOver(dirs, keys)
    decreases keys
  {
    var k := Pick(keys);
    if path != k {
      BoundOverCovers(dirs, keys - {k}, path);
    }
  }

  /** One number above every known path's length and every listing's byte count. */
  ghost function Bound(fs: FileSystem): nat {
    BoundOver(fs.dirs, fs.dirs.Keys)
  }

  lemma BoundCovers(fs: FileSystem, path: Text)
    requires path in fs.dirs
    ensures |path| <= Bound(fs)
    ensures fs.dirs[path].Opened? ==> TotalBytes(fs.dirs[path].listing.batches) <= Bound(fs)
  {
    BoundOverCovers(fs.dirs, fs.dirs.Keys, path);
  }

  ghost function Rank(fs: FileSystem, path: Text): nat {
    if |path| <= Bound(fs) then Bound(fs) + 1 - |path| else 0
  }

  ghost function PathWeight(fs: FileSystem, path: Text): (w: nat)
    ensures w >= 1
  {
    Pow(Bound(fs) + 1, Rank(fs, path))
  }

  /** The weight of a frontier: the sum of its paths' weights. */
  ghost function Weight(fs: FileSystem, stack: seq<DirectoryRef>): nat {
    if stack == [] then 0 else PathWeight(fs, stack[0].text) + Weight(fs, stack[1..])
  }

  lemma {:induction false} WeightAppend(fs: FileSystem, s: seq<DirectoryRef>, t: seq<DirectoryRef>)
    ensures Weight(fs, s + t) == Weight(fs, s) + Weight(fs, t)
  {
    if s == [] {
      assert s + t == t;
    } else {
      assert (s + t)[1..] == s[1..] + t;
      WeightAppend(fs, s[1..], t);
    }
  }

  /** Children strictly longer than a known parent weigh at most one power less each. */
  lemma {:induction false} ChildrenWeight(fs: FileSystem, parent: Text, children: seq<DirectoryRef>)
    requires parent in fs.dirs
    requires forall c :: c in children ==> |c.text| > |parent|
    ensures Rank(fs, parent) >= 1
    ensures Weight(fs, children) <= |children| * Pow(Bound(fs) + 1, Rank(fs, parent) - 1)
  {
    BoundCovers(fs, parent);
    if children != [] {
      var c := children[0];
      assert c in children;
      var b, r := Bound(fs) + 1, Rank(fs, parent);
      var p := Pow(b, r - 1);
      assert Rank(fs, c.text) <= r - 1;
      PowMonotonic(b, Rank(fs, c.text), r - 1);
      ChildrenWeight(fs, parent, children[1..]);
      var n := |children[1..]|;
      var w, rest := PathWeight(fs, c.text), Weight(fs, children[1..]);
      assert w <= p && rest <= n * p;
      assert Weight(fs, children) == w + rest;
      MultipleSucc(n, p);
    }
  }

  lemma FewerTimes(n: nat, b: nat, p: nat)
    requires n < b && p >= 1
    ensures n * p < b * p
  {
  }

  /** At most `Bound` children strictly longer than a known parent weigh less than it. */
  lemma ChildrenLighter(fs: FileSystem, parent: Text, children: seq<DirectoryRef>)
    requires parent in fs.dirs
    requires |children| <= Bound(fs)
    requires forall c :: c in children ==> |c.text| > |parent|
    ensures Weight(fs, children) < PathWeight(fs, parent)
  {
    ChildrenWeight(fs, parent, children);
    var b, r := Bound(fs) + 1, Rank(fs, parent);
    var p := Pow(b, r - 1);
    FewerTimes(|children|, b, p);
    assert PathWeight(fs, parent) == Pow(b, r) == b * p;
  }

  /** Popping a known directory and pushing at most `Bound` strictly longer children
      lowers the weight of the frontier. */
  lemma ReplaceByChildrenDecreases(fs: FileSystem, rest: seq<DirectoryRef>, parent: DirectoryRef, children: seq<DirectoryRef>)
    requires parent.text in fs.dirs
    requires |children| <= Bound(fs)
    requires forall c :: c in children ==> |c.text| > |parent.text|
    ensures Weight(fs, rest + children) < Weight(fs, rest + [parent])
  {
    ChildrenLighter(fs, parent.text, children);
    WeightAppend(fs, rest, children);
    PopDecreases(fs, rest, parent);
  }

  /** Popping a directory that pushes nothing lowers the weight of the frontier. */
  lemma PopDecreases(fs: FileSystem, rest: seq<DirectoryRef>, top: DirectoryRef)
    ensures Weight(fs, rest) < Weight(fs, rest + [top])
    ensures Weight(fs, rest + [top]) == Weight(fs, rest) + PathWeight(fs, top.text)
  {
    WeightAppend(fs, rest, [top]);
    assert Weight(fs, [top]) == PathWeight(fs, top.text);
  }
}
