/**
 * Locating the nearest `.tox-index` (`testFile`, `getParent` and `findIndex` in
 * tox_core.py). The filesystem is the predicate `present` (which paths exist)
 * and the process's working directory is the parameter `cwd`.
 */
module IndexLocator {
  import opened Wrappers
  import opened Strings

  /** The index file's name. */
  const IndexFileBase: string := ".tox-index"

  /** What every path the locator returns ends with. */
  const IndexSuffix: string := "/" + IndexFileBase

  /** `'/'.join([dir, name])`. */
  function PathJoin(dir: string, name: string): (path: string)
    ensures StartsWith(path, dir) && EndsWith(path, "/" + name)
    ensures |path| == |dir| + 1 + |name|
  {
    assert (dir + "/" + name)[|dir|..] == "/" + name;
    dir + "/" + name
  }

  /** `testFile(dir, name)`: does `dir/name` exist? */
  predicate TestFile(present: string -> bool, dir: string, name: string)
  {
    present(PathJoin(dir, name))
  }

  /** `getParent(dir)`: `'/'.join(dir.split('/')[:-1])`, a prefix of `dir`, shorter when `dir` is not "". */
  function GetParent(dir: string): (parent: string)
    ensures |parent| <= |dir| && parent == dir[..|parent|]
    ensures dir != "" ==> |parent| < |dir|
  {
    JoinAllButLast(dir, '/');
    AllButLast(dir, '/')
  }

  /**
   * `getParent` drops the last `/`-component and the `/` before it: a path with
   * no `/` has parent "", and otherwise the parent stops at a `/` after which no
   * other `/` follows.
   */
  lemma ParentDropsLastComponent(dir: string)
    ensures '/' !in dir ==> GetParent(dir) == ""
    ensures '/' in dir ==> LastSeparatorAt(dir, '/', |GetParent(dir)|)
  {
    JoinAllButLast(dir, '/');
  }

  /** A top-level directory's parent is "", which is falsy in Python. */
  lemma TopLevelParentIsEmpty(name: string)
    requires '/' !in name
    ensures GetParent("/" + name) == ""
  {
    var d := "/" + name;
    ParentDropsLastComponent(d);
    assert d[1..] == name;
  }

  /** How one pass of the ancestor walk ends. */
  datatype PassEnd =
    | Hit(path: string)  // an index was found, at this path
    | AtRoot             // "/" was checked without success: `findIndex` returns None
    | Restart            // the parent was "": `findIndex("")` starts over at the cwd

  /** The starting directory: `xdir`, or the cwd when `xdir` is None or "". */
  function StartDir(cwd: string, xdir: Option<string>): (start: string)
    ensures start == cwd || Some(start) == xdir
    ensures start == "" ==> cwd == ""
    ensures xdir.Some? && xdir.value != "" ==> start == xdir.value
  {
    if xdir.None? || xdir.value == "" then cwd else xdir.value
  }

  /** `dir` begins with two slashes, the one way other than "/" itself to reach "/". */
  predicate DoubleRooted(dir: string)
  {
    StartsWith(dir, "//")
  }

  /**
   * One pass of `findIndex` from `dir` toward the root, following the body of `findIndex` in tox_core.py,
   * stopping where the recursion would be handed "".
   */
  function FindPass(present: string -> bool, dir: string): (r: PassEnd)
    ensures r.Hit? ==> present(r.path) && EndsWith(r.path, IndexSuffix)
    ensures r.Hit? ==> StartsWith(dir, r.path[..|r.path| - |IndexSuffix|])
    ensures TestFile(present, dir, IndexFileBase) ==> r == Hit(PathJoin(dir, IndexFileBase))
    ensures r.AtRoot? ==> dir == "/" || DoubleRooted(dir)
    decreases |dir|
  {
    if TestFile(present, dir, IndexFileBase) then Hit(PathJoin(dir, IndexFileBase))
    else if dir == "/" then AtRoot
    else
      var parent := GetParent(dir);
      if parent == "" then Restart
      else
        var r := FindPass(present, parent);
        assert r.AtRoot? ==> StartsWith(dir, "//") by {
          if r.AtRoot? && parent == "/" {
            ParentDropsLastComponent(dir);
            assert dir[..2] == parent + [dir[1]];
          }
        }
        r
  }

  /**
   * The directories one pass checks, in order: `dir`, its parent, and so on,
   * up to "/" or to the last directory whose parent is "".
   */
  function Walk(dir: string): (w: seq<string>)
    ensures |w| >= 1 && w[0] == dir
    ensures forall k :: 0 <= k < |w| - 1 ==> w[k] != "/" && GetParent(w[k]) != "" && w[k + 1] == GetParent(w[k])
    ensures forall k :: 0 <= k < |w| ==> StartsWith(dir, w[k])
    ensures w[|w| - 1] == "/" || GetParent(w[|w| - 1]) == ""
    decreases |dir|
  {
    if dir == "/" then [dir]
    else
      var parent := GetParent(dir);
      if parent == "" then [dir]
      else
        var w := [dir] + Walk(parent);
        assert forall k :: 1 <= k < |w| ==> w[k] == Walk(parent)[k - 1];
        w
  }

  /** Checking `dir` first, then the walk of its parent. */
  lemma WalkStep(dir: string)
    requires dir != "/" && GetParent(dir) != ""
    ensures Walk(dir) == [dir] + Walk(GetParent(dir))
  {
  }

  /**
   * When the `k`-th directory of the walk is the first one holding an index,
   * the pass returns the path of that index: the nearest one wins.
   */
  lemma {:induction false} NearestIndexWins(present: string -> bool, dir: string, k: nat)
    requires k < |Walk(dir)| && TestFile(present, Walk(dir)[k], IndexFileBase)
    requires forall j :: 0 <= j < k ==> !TestFile(present, Walk(dir)[j], IndexFileBase)
    ensures FindPass(present, dir) == Hit(PathJoin(Walk(dir)[k], IndexFileBase))
    decreases k
  {
    var w := Walk(dir);
    if k > 0 {
      assert !TestFile(present, w[0], IndexFileBase);
      var parent := GetParent(dir);
      WalkStep(dir);
      var w' := Walk(parent);
      assert forall j :: 0 <= j < k - 1 ==> w'[j] == w[j + 1];
      NearestIndexWins(present, parent, k - 1);
    }
  }

  /** Every hit is the index of a directory of the walk: the pass looks nowhere else. */
  lemma {:induction false} HitIsOnWalk(present: string -> bool, dir: string)
    requires FindPass(present, dir).Hit?
    ensures var w := Walk(dir);
            exists k :: 0 <= k < |w| && TestFile(present, w[k], IndexFileBase) &&
                        FindPass(present, dir).path == PathJoin(w[k], IndexFileBase)
    decreases |dir|
  {
    var w := Walk(dir);
    if TestFile(present, dir, IndexFileBase) {
      assert TestFile(present, w[0], IndexFileBase) && FindPass(present, dir).path == PathJoin(w[0], IndexFileBase);
    } else {
      var parent := GetParent(dir);
      WalkStep(dir);
      var w' := Walk(parent);
      HitIsOnWalk(present, parent);
      var k :| 0 <= k < |w'| && TestFile(present, w'[k], IndexFileBase) &&
               FindPass(present, parent).path == PathJoin(w'[k], IndexFileBase);
      assert w[k + 1] == w'[k];
    }
  }

  /** A pass from "/" or from a path beginning with "//" never restarts: its walk reaches "/". */
  lemma {:induction false} RootedNeverRestarts(present: string -> bool, dir: string)
    requires dir == "/" || DoubleRooted(dir)
    ensures !FindPass(present, dir).Restart?
    decreases |dir|
  {
    if !TestFile(present, dir, IndexFileBase) && dir != "/" {
      var parent := GetParent(dir);
      ParentDropsLastComponent(dir);
      assert dir[1] == '/' && '/' in dir;
      var n := |parent|;
      assert dir[1..][0] == '/';
      assert n >= 1;
      if n > 1 {
        assert parent[..2] == dir[..2];
      } else {
        assert parent == dir[..1] == "/";
      }
      RootedNeverRestarts(present, parent);
    }
  }

  /**
   * A pass with no hit found no index in any directory of its walk, and it ends
   * at the root exactly when its walk reached "/".
   */
  lemma {:induction false} MissCoversWalk(present: string -> bool, dir: string)
    requires !FindPass(present, dir).Hit?
    ensures var w := Walk(dir);
            && (forall k :: 0 <= k < |w| ==> !TestFile(present, w[k], IndexFileBase))
            && (FindPass(present, dir).AtRoot? <==> w[|w| - 1] == "/")
    decreases |dir|
  {
    var w := Walk(dir);
    if dir != "/" && GetParent(dir) != "" {
      var parent := GetParent(dir);
      WalkStep(dir);
      var w' := Walk(parent);
      MissCoversWalk(present, parent);
      assert forall j :: 1 <= j < |w| ==> w[j] == w'[j - 1];
    }
  }

  /** What `findIndex` finally does: return a path, return None, or recurse forever. */
  datatype Search = Found(path: string) | NoIndex | Diverges

  /** What a pass that does not restart makes of the whole search. */
  function Settle(e: PassEnd): Search
    requires !e.Restart?
  {
    if e.Hit? then Found(e.path) else NoIndex
  }

  /** The value a terminating `findIndex` returns. */
  function Answer(r: Search): Option<string>
    requires !r.Diverges?
  {
    if r.Found? then Some(r.path) else None
  }

  /**
   * `findIndex(xdir)` with the cwd `cwd`. A pass that restarts hands "" to
   * `findIndex`, which starts over at the cwd; if the pass from the cwd restarts
   * too, every later pass repeats it and the recursion never returns.
   */
  function FindIndex(present: string -> bool, cwd: string, xdir: Option<string>): (r: Search)
    ensures r.Found? ==> present(r.path) && EndsWith(r.path, IndexSuffix)
    ensures var start := StartDir(cwd, xdir);
            TestFile(present, start, IndexFileBase) ==> r == Found(PathJoin(start, IndexFileBase))
    ensures var start := StartDir(cwd, xdir);
            r.NoIndex? ==> start == "/" || DoubleRooted(start) || cwd == "/" || DoubleRooted(cwd)
  {
    var first := FindPass(present, StartDir(cwd, xdir));
    if !first.Restart? then Settle(first)
    else
      var again := FindPass(present, cwd);
      if !again.Restart? then Settle(again) else Diverges
  }

  /**
   * With no index anywhere, `findIndex` returns None only from "/" or a path
   * beginning with "//"; from any other start and cwd it never returns.
   */
  lemma NoIndexAnywhereDiverges(present: string -> bool, cwd: string, xdir: Option<string>)
    requires forall p :: !present(p)
    requires var start := StartDir(cwd, xdir);
             start != "/" && !DoubleRooted(start) && cwd != "/" && !DoubleRooted(cwd)
    ensures FindIndex(present, cwd, xdir) == Diverges
  {
    assert FindPass(present, StartDir(cwd, xdir)).Restart?;
    assert FindPass(present, cwd).Restart?;
  }

  /** A run of the recursion of `findIndex` (tox_core.py), cut off after `fuel` calls. */
  datatype Run = Returned(result: Option<string>) | Running

  /** `findIndex` in tox_core.py as written: each call replaces a falsy `xdir` by the cwd. */
  function FindIndexWithin(present: string -> bool, cwd: string, xdir: Option<string>, fuel: nat): (run: Run)
    ensures run.Returned? && run.result.Some? ==> present(run.result.value) && EndsWith(run.result.value, IndexSuffix)
    ensures run.Returned? ==> fuel > 0
    decreases fuel
  {
    if fuel == 0 then Running
    else
      var dir := StartDir(cwd, xdir);
      if TestFile(present, dir, IndexFileBase) then Returned(Some(PathJoin(dir, IndexFileBase)))
      else if dir == "/" then Returned(None)
      else FindIndexWithin(present, cwd, Some(GetParent(dir)), fuel - 1)
  }

  /** One call of the recursion, unfolded. */
  lemma WithinUnfold(present: string -> bool, cwd: string, xdir: Option<string>, fuel: nat)
    requires fuel > 0
    ensures var dir := StartDir(cwd, xdir);
            FindIndexWithin(present, cwd, xdir, fuel) ==
              if TestFile(present, dir, IndexFileBase) then Returned(Some(PathJoin(dir, IndexFileBase)))
              else if dir == "/" then Returned(None)
              else FindIndexWithin(present, cwd, Some(GetParent(dir)), fuel - 1)
  {
  }

  /** A pass that neither hits nor stops at "/" nor restarts goes on from the parent. */
  lemma PassContinues(present: string -> bool, dir: string)
    requires !TestFile(present, dir, IndexFileBase) && dir != "/"
    requires !FindPass(present, dir).Restart?
    ensures GetParent(dir) != "" && FindPass(present, dir) == FindPass(present, GetParent(dir))
  {
  }

  /** A pass that restarts tested no index at its start and restarts at, or after, the parent. */
  lemma PassRestarts(present: string -> bool, dir: string)
    requires FindPass(present, dir).Restart?
    ensures !TestFile(present, dir, IndexFileBase) && dir != "/"
    ensures GetParent(dir) == "" || FindPass(present, GetParent(dir)).Restart?
  {
  }

  /** A pass that ends by itself is what the recursion does, given enough calls. */
  lemma {:induction false} PassReturns(present: string -> bool, cwd: string, xdir: Option<string>, fuel: nat)
    requires !FindPass(present, StartDir(cwd, xdir)).Restart?
    requires fuel > |StartDir(cwd, xdir)|
    ensures FindIndexWithin(present, cwd, xdir, fuel) == Returned(Answer(Settle(FindPass(present, StartDir(cwd, xdir)))))
    decreases fuel
  {
    var dir := StartDir(cwd, xdir);
    WithinUnfold(present, cwd, xdir, fuel);
    if !TestFile(present, dir, IndexFileBase) && dir != "/" {
      var parent := GetParent(dir);
      PassContinues(present, dir);
      assert StartDir(cwd, Some(parent)) == parent;
      PassReturns(present, cwd, Some(parent), fuel - 1);
    }
  }

  /** A call whose parent is "" hands the next call the cwd. */
  lemma RestartFromTop(present: string -> bool, cwd: string, xdir: Option<string>, fuel: nat)
    requires !TestFile(present, StartDir(cwd, xdir), IndexFileBase) && StartDir(cwd, xdir) != "/"
    requires GetParent(StartDir(cwd, xdir)) == ""
    requires !FindPass(present, cwd).Restart?
    requires fuel > |cwd| + 1
    ensures FindIndexWithin(present, cwd, xdir, fuel) == Returned(Answer(Settle(FindPass(present, cwd))))
  {
    WithinUnfold(present, cwd, xdir, fuel);
    assert StartDir(cwd, Some("")) == cwd;
    PassReturns(present, cwd, Some(""), fuel - 1);
  }

  /** A pass that restarts is followed by the pass from the cwd. */
  lemma {:induction false} RestartReturns(present: string -> bool, cwd: string, xdir: Option<string>, fuel: nat)
    requires FindPass(present, StartDir(cwd, xdir)).Restart?
    requires !FindPass(present, cwd).Restart?
    requires fuel > |StartDir(cwd, xdir)| + |cwd| + 1
    ensures FindIndexWithin(present, cwd, xdir, fuel) == Returned(Answer(Settle(FindPass(present, cwd))))
    decreases fuel
  {
    var dir := StartDir(cwd, xdir);
    PassRestarts(present, dir);
    var parent := GetParent(dir);
    if parent == "" {
      RestartFromTop(present, cwd, xdir, fuel);
    } else {
      WithinUnfold(present, cwd, xdir, fuel);
      assert StartDir(cwd, Some(parent)) == parent;
      RestartReturns(present, cwd, Some(parent), fuel - 1);
    }
  }

  /** When the pass from the cwd restarts, a run that reaches it never returns. */
  lemma {:induction false} RestartLoops(present: string -> bool, cwd: string, xdir: Option<string>, fuel: nat)
    requires FindPass(present, StartDir(cwd, xdir)).Restart?
    requires FindPass(present, cwd).Restart?
    ensures FindIndexWithin(present, cwd, xdir, fuel) == Running
    decreases fuel
  {
    if fuel > 0 {
      RestartLoops(present, cwd, Some(GetParent(StartDir(cwd, xdir))), fuel - 1);
    }
  }

  /** Once the recursion has returned, more calls change nothing. */
  lemma {:induction false} WithinMonotone(present: string -> bool, cwd: string, xdir: Option<string>, fuel: nat, more: nat)
    requires FindIndexWithin(present, cwd, xdir, fuel).Returned?
    requires more >= fuel
    ensures FindIndexWithin(present, cwd, xdir, more) == FindIndexWithin(present, cwd, xdir, fuel)
    decreases fuel
  {
    var dir := StartDir(cwd, xdir);
    if !TestFile(present, dir, IndexFileBase) && dir != "/" {
      var next := Some(GetParent(dir));
      assert FindIndexWithin(present, cwd, xdir, fuel) == FindIndexWithin(present, cwd, next, fuel - 1);
      assert FindIndexWithin(present, cwd, xdir, more) == FindIndexWithin(present, cwd, next, more - 1);
      WithinMonotone(present, cwd, next, fuel - 1, more - 1);
    }
  }

  /**
   * `FindIndex` is exactly the recursion of `findIndex` in tox_core.py: whatever the recursion
   * returns is `FindIndex`'s answer; when `FindIndex` does not diverge the
   * recursion returns within a number of calls bounded by the lengths of the
   * start directory and the cwd; when it diverges the recursion never returns.
   */
  lemma FindIndexIsTheRecursion(present: string -> bool, cwd: string, xdir: Option<string>, fuel: nat)
    ensures var r := FindIndex(present, cwd, xdir);
            var run := FindIndexWithin(present, cwd, xdir, fuel);
            && (run.Returned? ==> !r.Diverges? && run.result == Answer(r))
            && (!r.Diverges? && fuel > |StartDir(cwd, xdir)| + |cwd| + 1 ==> run == Returned(Answer(r)))
            && (r.Diverges? ==> run == Running)
  {
    var start := StartDir(cwd, xdir);
    var r := FindIndex(present, cwd, xdir);
    var bound := |start| + |cwd| + 2;
    if r.Diverges? {
      RestartLoops(present, cwd, xdir, fuel);
    } else {
      if FindPass(present, start).Restart? {
        RestartReturns(present, cwd, xdir, bound);
        if fuel >= bound {
          RestartReturns(present, cwd, xdir, fuel);
        }
      } else {
        PassReturns(present, cwd, xdir, bound);
        if fuel >= bound {
          PassReturns(present, cwd, xdir, fuel);
        }
      }
      var run := FindIndexWithin(present, cwd, xdir, fuel);
      if run.Returned? && fuel < bound {
        WithinMonotone(present, cwd, xdir, fuel, bound);
      }
    }
  }
}
