/** pygadgettools/filename.py: an older copy of the snapshot path builder. */
module LegacyFileName {
  import opened PyStrings
  import SnapshotNames

  /** `getFullPath(n, root, dir, ndigits, ext)`: the same chain of
      `zfill`, `os.path.join(dir, '')` and concatenation as
      `get_full_path`, to which it is equal for every argument. */
  function GetFullPath(n: nat, root: string := "snapshot_", dir: string := "./",
                       ndigits: int := 3, ext: string := ""): (path: string)
    ensures path == SnapshotNames.GetFullPath(n, root, dir, ndigits, ext)
  {
    var numbering := ZFill(Str(n), ndigits);
    var directory := JoinDir(dir);
    directory + root + numbering + ext
  }
}
