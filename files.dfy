/** The part of the file system `cleanup` touches. */
module Files {
  /** The paths that exist, and those among them whose removal throws (a directory, a
      file the process may not delete). */
  class FileStore {
    var files: set<string>
    var locked: set<string>

    constructor (files0: set<string>, locked0: set<string>)
      ensures files == files0 && locked == locked0
    {
      files := files0;
      locked := locked0;
    }

    /** A tool writes the file at `p`. */
    method Create(p: string)
      modifies this
      ensures files == old(files) + {p} && locked == old(locked)
    {
      files := files + {p};
    }

    /** `cleanup(...paths)`: each non-empty path that exists is removed; a removal that
        throws is logged and skipped. `warned` lists the paths the warning names. */
    method Cleanup(paths: seq<string>) returns (warned: seq<string>)
      modifies this
      ensures locked == old(locked)
      ensures files == old(files) - Deletable(paths, locked)
      ensures warned == Warnings(paths, old(files), locked)
    {
      var i := 0;
      warned := [];
      while i < |paths|
        invariant 0 <= i <= |paths|
        invariant locked == old(locked)
        invariant files == old(files) - Deletable(paths[..i], locked)
        invariant warned == Warnings(paths[..i], old(files), locked)
      {
        var p := paths[i];
        assert paths[..i + 1] == paths[..i] + [p];
        assert paths[..i + 1][..i] == paths[..i];
        if p != "" {
          if p in files {
            if p in locked {
              warned := warned + [p];
            } else {
              files := files - {p};
            }
          }
        }
        i := i + 1;
      }
      assert paths[..i] == paths;
    }
  }

  /** The listed paths whose removal, if they exist, succeeds. */
  function Deletable(paths: seq<string>, locked: set<string>): set<string> {
    set p | p in paths && p != "" && p !in locked
  }

  /** The listed paths, in order and with repeats, for which removal was attempted and
      threw. A locked path is never removed, so it still exists whenever it comes up. */
  function Warnings(paths: seq<string>, files: set<string>, locked: set<string>): seq<string> {
    if paths == [] then []
    else
      var last := paths[|paths| - 1];
      Warnings(paths[..|paths| - 1], files, locked) +
      (if last != "" && last in files && last in locked then [last] else [])
  }

  /** The file set after `cleanup(...paths)` on `files`. */
  function AfterCleanup(files: set<string>, paths: seq<string>, locked: set<string>): (r: set<string>)
    ensures r <= files
  {
    files - Deletable(paths, locked)
  }

  /** Afterwards no listed, non-empty, removable path exists. */
  lemma ListedGone(files: set<string>, paths: seq<string>, locked: set<string>, i: nat)
    requires i < |paths| && paths[i] != "" && paths[i] !in locked
    ensures paths[i] !in AfterCleanup(files, paths, locked)
  {
  }

  /** A path that is not listed is left as it was. */
  lemma UnlistedUnchanged(files: set<string>, paths: seq<string>, locked: set<string>, q: string)
    requires q !in paths
    ensures q in AfterCleanup(files, paths, locked) <==> q in files
  {
  }

  /** Empty paths are skipped. */
  lemma EmptyPathsIgnored(files: set<string>, paths: seq<string>, locked: set<string>)
    requires forall i :: 0 <= i < |paths| ==> paths[i] == ""
    ensures AfterCleanup(files, paths, locked) == files
    ensures Warnings(paths, files, locked) == []
  {
    EmptyPathsNoWarnings(paths, files, locked);
  }

  lemma {:induction false} EmptyPathsNoWarnings(paths: seq<string>, files: set<string>, locked: set<string>)
    requires forall i :: 0 <= i < |paths| ==> paths[i] == ""
    ensures Warnings(paths, files, locked) == []
  {
    if paths != [] {
      EmptyPathsNoWarnings(paths[..|paths| - 1], files, locked);
    }
  }

  /** A second cleanup of the same paths changes nothing and warns about the same paths. */
  lemma CleanupIdempotent(files: set<string>, paths: seq<string>, locked: set<string>)
    ensures var once := AfterCleanup(files, paths, locked);
            AfterCleanup(once, paths, locked) == once &&
            Warnings(paths, once, locked) == Warnings(paths, files, locked)
  {
    WarningsOnlyLocked(paths, files, AfterCleanup(files, paths, locked), locked);
  }

  /** Only the locked paths matter to the warnings, and cleanup keeps those. */
  lemma {:induction false} WarningsOnlyLocked(paths: seq<string>, f: set<string>, g: set<string>, locked: set<string>)
    requires f * locked == g * locked
    ensures Warnings(paths, f, locked) == Warnings(paths, g, locked)
  {
    if paths != [] {
      var last := paths[|paths| - 1];
      WarningsOnlyLocked(paths[..|paths| - 1], f, g, locked);
      assert (last in f && last in locked) <==> (last in g && last in locked) by {
        assert last in f * locked <==> last in g * locked;
      }
    }
  }

  /** Every warning names a listed, locked path that exists. */
  lemma {:induction false} WarningsAreLocked(paths: seq<string>, files: set<string>, locked: set<string>)
    ensures forall q :: q in Warnings(paths, files, locked) ==>
              q in paths && q in files && q in locked && q != ""
  {
    if paths != [] {
      var init := paths[..|paths| - 1];
      var last := paths[|paths| - 1];
      WarningsAreLocked(init, files, locked);
      assert forall q :: q in init ==> q in paths;
      var w0 := Warnings(init, files, locked);
      var tail := if last != "" && last in files && last in locked then [last] else [];
      assert Warnings(paths, files, locked) == w0 + tail;
    }
  }
}
