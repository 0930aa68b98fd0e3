/** `gen_unique_path` and `is_system_file` of path_kit.py.

    The file system is seen through `FsView`: whether the parent directory
    and the path exist, and the set `taken` of the numbers i for which the
    candidate `{stem}{delimiter}{i}{suffix}` already exists in the parent.
    Distinct numbers give distinct candidate names, so the search is a search
    over `taken`. */
module PathKit {
  import opened Wrappers

  datatype FsView = FsView(parentExists: bool, pathExists: bool, taken: set<int>)

  /** What `gen_unique_path` returns: the path itself, or the candidate
      `parent / {stem}{delimiter}{index}{suffix}`. */
  datatype UniquePath = SamePath | Numbered(index: int)

  /** The ValueError `gen_unique_path` raises, with its message. */
  datatype PathError = ValueError(message: string)

  /** The taken numbers from `n` on; finite, and smaller for a larger `n`
      once `n` itself is taken. */
  ghost function TakenFrom(taken: set<int>, n: int): set<int>
  {
    set x | x in taken && x >= n
  }

  lemma TakenFromShrinks(taken: set<int>, n: int, m: int)
    requires n in taken && m > n
    ensures TakenFrom(taken, m) < TakenFrom(taken, n)
  {
    assert n in TakenFrom(taken, n) && n !in TakenFrom(taken, m);
  }

  predicate IsPowerOfTwo(n: int)
    decreases n
  {
    n == 1 || (n > 1 && n % 2 == 0 && IsPowerOfTwo(n / 2))
  }

  /** Every number in `taken` that is at least 1 has all the numbers from 1 up
      to it in `taken` as well: the candidates were created one after another. */
  ghost predicate Consecutive(taken: set<int>)
  {
    forall i, j :: 1 <= i <= j && j in taken ==> i in taken
  }

  /** The galloping phase: doubles `end` while its candidate exists. */
  function Gallop(taken: set<int>, end: int): (g: int)
    requires end >= 1
    ensures g >= end && g !in taken
    decreases TakenFrom(taken, end)
  {
    if end in taken then
      TakenFromShrinks(taken, end, 2 * end);
      Gallop(taken, 2 * end)
    else end
  }

  /** The binary search phase over [start, end]. */
  function Bisect(taken: set<int>, start: int, end: int): (b: int)
    requires 1 <= start <= end
    ensures start <= b <= end
    decreases end - start
  {
    if start < end then
      var mid := (start + end) / 2;
      if mid in taken then Bisect(taken, mid + 1, end) else Bisect(taken, start, mid)
    else start
  }

  /** The number `gen_unique_path` settles on when the path exists. */
  function SearchIndex(taken: set<int>): (n: int)
    ensures n >= 1 && n !in taken
  {
    var g := Gallop(taken, 1);
    BisectFindsFree(taken, 1, g);
    Bisect(taken, 1, g)
  }

  /** `gen_unique_path(path, delimiter)`. */
  method GenUniquePath(fs: FsView, parent: string) returns (r: Result<UniquePath, PathError>)
    ensures !fs.parentExists ==>
      r == Failure(ValueError("Invalid path or arguments: Parent directory not exists: " + parent))
    ensures fs.parentExists && !fs.pathExists ==> r == Success(SamePath)
    ensures fs.parentExists && fs.pathExists ==>
      && r.Success? && r.value.Numbered?
      && r.value.index >= 1 && r.value.index !in fs.taken
      && r.value.index == SearchIndex(fs.taken)
    ensures fs.parentExists && fs.pathExists && Consecutive(fs.taken) ==>
      forall i :: 1 <= i < r.value.index ==> i in fs.taken
  {
    if !fs.parentExists {
      // the ValueError raised inside the try block is caught by `except Exception`
      // and raised again as a new ValueError
      return Failure(ValueError("Invalid path or arguments: Parent directory not exists: " + parent));
    }
    if !fs.pathExists {
      return Success(SamePath);
    }
    var start, end := 1, 1;
    while end in fs.taken
      invariant end >= 1 && IsPowerOfTwo(end)
      invariant Gallop(fs.taken, end) == Gallop(fs.taken, 1)
      decreases TakenFrom(fs.taken, end)
    {
      TakenFromShrinks(fs.taken, end, end * 2);
      end := end * 2;
    }
    ghost var top := end;
    while start < end
      invariant 1 <= start <= end
      invariant end !in fs.taken
      invariant Bisect(fs.taken, start, end) == Bisect(fs.taken, 1, top)
      invariant Consecutive(fs.taken) ==> forall i :: 1 <= i < start ==> i in fs.taken
      decreases end - start
    {
      var mid := (start + end) / 2;
      if mid in fs.taken {
        start := mid + 1;
      } else {
        end := mid;
      }
    }
    return Success(Numbered(start));
  }

  /** The galloping phase ends on a power of two whose candidate is free,
      every smaller power of two being taken. */
  lemma {:induction false} GallopEndsFree(taken: set<int>, end: int)
    requires end >= 1 && IsPowerOfTwo(end)
    ensures var g := Gallop(taken, end);
      g >= end && IsPowerOfTwo(g) && g !in taken
      && forall k :: end <= k < g && IsPowerOfTwo(k) ==> k in taken
    decreases TakenFrom(taken, end)
  {
    if end in taken {
      TakenFromShrinks(taken, end, 2 * end);
      GallopEndsFree(taken, 2 * end);
      assert (2 * end) / 2 == end;
      forall k | end <= k < Gallop(taken, end) && IsPowerOfTwo(k)
        ensures k in taken
      {
        if k != end {
          PowersOfTwoDouble(end, k);
        }
      }
    }
  }

  /** There is no power of two strictly between p and 2p. */
  lemma {:induction false} PowersOfTwoDouble(p: int, k: int)
    requires IsPowerOfTwo(p) && IsPowerOfTwo(k) && p < k
    ensures 2 * p <= k
    decreases p
  {
    if p > 1 {
      assert k > 1;
      PowersOfTwoDouble(p / 2, k / 2);
    }
  }

  /** The binary search keeps 1 <= start <= end and "candidate end is free",
      so it ends on a free number in [start, end]; when the taken numbers are
      consecutive and everything below start is taken, it ends on the first
      free number. */
  lemma {:induction false} BisectFindsFree(taken: set<int>, start: int, end: int)
    requires 1 <= start <= end && end !in taken
    ensures var b := Bisect(taken, start, end);
      start <= b <= end && b !in taken
      && (Consecutive(taken) && (forall i :: 1 <= i < start ==> i in taken) ==>
          forall i :: 1 <= i < b ==> i in taken)
    decreases end - start
  {
    if start < end {
      var mid := (start + end) / 2;
      if mid in taken {
        BisectFindsFree(taken, mid + 1, end);
      } else {
        BisectFindsFree(taken, start, mid);
      }
    }
  }

  /** If the taken numbers are exactly 1 .. n-1, the result is n, the first
      available number. */
  lemma FirstFreeWhenConsecutive(taken: set<int>, n: int)
    requires n >= 1
    requires forall i :: 1 <= i ==> (i in taken <==> i < n)
    ensures SearchIndex(taken) == n
  {
    GallopEndsFree(taken, 1);
    var g := Gallop(taken, 1);
    BisectFindsFree(taken, 1, g);
    var b := SearchIndex(taken);
    assert b >= 1 && b !in taken;
    assert b >= n;
    assert n !in taken;
  }

  /** With a gap in the taken numbers the search does not end on the first
      free number: with 1, 2, 3, 4, 6 and 7 taken it ends on 8 while 5 is free. */
  lemma GapCounterexample()
    ensures var taken := {1, 2, 3, 4, 6, 7};
      5 !in taken && SearchIndex(taken) == 8
  {
    var taken := {1, 2, 3, 4, 6, 7};
    assert Gallop(taken, 8) == 8;
    assert Gallop(taken, 4) == 8;
    assert Gallop(taken, 2) == 8;
    assert Gallop(taken, 1) == 8;
    assert Bisect(taken, 8, 8) == 8;
    assert Bisect(taken, 7, 8) == 8;
    assert Bisect(taken, 5, 8) == 8;
    assert Bisect(taken, 1, 8) == 8;
  }

  /** The first free number: the result "find the first available number"
      describes, for any set of taken numbers. */
  method FirstFreeIndex(taken: set<int>) returns (k: int)
    ensures k >= 1 && k !in taken
    ensures forall i :: 1 <= i < k ==> i in taken
  {
    k := 1;
    while k in taken
      invariant k >= 1
      invariant forall i :: 1 <= i < k ==> i in taken
      decreases TakenFrom(taken, k)
    {
      TakenFromShrinks(taken, k, k + 1);
      k := k + 1;
    }
  }

  /** `gen_unique_path` with the search replaced by a first-free search. */
  method GenUniquePathFirstFree(fs: FsView, parent: string) returns (r: Result<UniquePath, PathError>)
    ensures !fs.parentExists ==>
      r == Failure(ValueError("Invalid path or arguments: Parent directory not exists: " + parent))
    ensures fs.parentExists && !fs.pathExists ==> r == Success(SamePath)
    ensures fs.parentExists && fs.pathExists ==>
      && r.Success? && r.value.Numbered?
      && r.value.index >= 1 && r.value.index !in fs.taken
      && forall i :: 1 <= i < r.value.index ==> i in fs.taken
  {
    if !fs.parentExists {
      return Failure(ValueError("Invalid path or arguments: Parent directory not exists: " + parent));
    }
    if !fs.pathExists {
      return Success(SamePath);
    }
    var k := FirstFreeIndex(fs.taken);
    return Success(Numbered(k));
  }

  // ----- is_system_file -----

  /** `os.path.basename`: what follows the last '/'. */
  function Basename(path: string): (b: string)
    ensures |b| <= |path| && b == path[|path| - |b|..]
    ensures forall i :: 0 <= i < |b| ==> b[i] != '/'
    ensures |b| == |path| || path[|path| - |b| - 1] == '/'
  {
    if |path| == 0 || path[|path| - 1] == '/' then ""
    else Basename(path[..|path| - 1]) + [path[|path| - 1]]
  }

  /** The five names `is_system_file` ignores. */
  const SystemFileNames: set<string> := {".DS_Store", "Thumbs.db", ".Spotlight-V100", ".Trashes", "desktop.ini"}

  /** `is_system_file(file_path)`. */
  function IsSystemFile(path: string): bool
  {
    Basename(path) in SystemFileNames
  }

  /** The base name of a directory part followed by a name without '/' is that name. */
  lemma {:induction false} BasenameOfJoin(dir: string, name: string)
    requires |dir| == 0 || dir[|dir| - 1] == '/'
    requires forall i :: 0 <= i < |name| ==> name[i] != '/'
    ensures Basename(dir + name) == name
    decreases |name|
  {
    if |name| == 0 {
      assert dir + name == dir;
    } else {
      assert (dir + name)[..|dir + name| - 1] == dir + name[..|name| - 1];
      BasenameOfJoin(dir, name[..|name| - 1]);
      assert name == name[..|name| - 1] + [name[|name| - 1]];
    }
  }

  /** `name` is the last component of `path`: the whole path, or what follows a '/'. */
  predicate EndsWithName(path: string, name: string)
  {
    |name| <= |path| && path[|path| - |name|..] == name
    && (|name| == |path| || path[|path| - |name| - 1] == '/')
  }

  /** A path is a system file exactly when its last component, the whole path
      or what follows a '/', is one of the five names. */
  lemma IsSystemFileIff(path: string)
    ensures IsSystemFile(path) <==> exists name :: name in SystemFileNames && EndsWithName(path, name)
  {
    if IsSystemFile(path) {
      assert EndsWithName(path, Basename(path));
    }
    forall name | name in SystemFileNames && EndsWithName(path, name)
      ensures IsSystemFile(path)
    {
      BasenameOfSuffix(path, name);
    }
  }

  lemma BasenameOfSuffix(path: string, name: string)
    requires name in SystemFileNames && EndsWithName(path, name)
    ensures Basename(path) == name
  {
    var dir := path[..|path| - |name|];
    assert path == dir + name;
    NoSlashInSystemNames(name);
    BasenameOfJoin(dir, name);
  }

  lemma NoSlashInSystemNames(name: string)
    requires name in SystemFileNames
    ensures forall i :: 0 <= i < |name| ==> name[i] != '/'
  {
  }
}
