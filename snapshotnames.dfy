/** pygadgettools/names/filename.py: the path of a snapshot file from its
    number, as directory + root name + zero-padded number + extension. */
module SnapshotNames {
  import opened PyStrings

  /** `get_full_path(n, root, dir, ndigits, ext)`. */
  function GetFullPath(n: nat, root: string := "snapshot_", dir: string := "./",
                       ndigits: int := 3, ext: string := ""): (path: string)
    ensures |path| >= |dir| + |root| + 1 + |ext|
    ensures |path| >= |root| + ndigits + |ext|
  {
    var numbering := ZFill(Str(n), ndigits);
    JoinDir(dir) + root + numbering + ext
  }

  /** The path splits into the joined directory, the root name, the
      numbering and the extension; the numbering is `max(len(str(n)),
      ndigits)` digits, zeros before `str(n)`, and reads back as `n`. */
  lemma PathParts(n: nat, root: string, dir: string, ndigits: int, ext: string)
    ensures var path, d, num := GetFullPath(n, root, dir, ndigits, ext), JoinDir(dir), ZFill(Str(n), ndigits);
      && |path| == |d| + |root| + |num| + |ext|
      && path[..|d|] == d
      && path[|d|..|d| + |root|] == root
      && path[|d| + |root|..|path| - |ext|] == num
      && path[|path| - |ext|..] == ext
      && |num| == (if ndigits <= |Str(n)| then |Str(n)| else ndigits)
      && num[|num| - |Str(n)|..] == Str(n)
      && (forall i :: 0 <= i < |num| - |Str(n)| ==> num[i] == '0')
      && AllDigits(num) && ParseNat(num) == n
  {
    ZFillDigits(Str(n), ndigits);
    ZFillStrRoundTrip(n, ndigits);
  }

  /** The directory part ends with a single '/' whenever a directory is given. */
  lemma DirectorySeparator(n: nat, root: string, dir: string, ndigits: int, ext: string)
    requires dir != []
    ensures var path, d := GetFullPath(n, root, dir, ndigits, ext), JoinDir(dir);
      && path[..|d|] == d
      && d[|d| - 1] == '/'
      && (dir[|dir| - 1] == '/' ==> d == dir)
      && (dir[|dir| - 1] != '/' ==> d == dir + "/")
  {
    JoinDirProperties(dir);
  }

  /** With the defaults, snapshot 7 is "./snapshot_007". */
  lemma DefaultPaths()
    ensures GetFullPath(7) == "./snapshot_007"
  {
    assert ZFill(Str(7), 3) == "007";
  }
}
