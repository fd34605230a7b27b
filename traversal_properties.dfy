/**
 * What the walk guarantees, proved about the functions of `Traversal`:
 * the counters never decrease and always agree with the lines written, a
 * simulated run leaves the tree as it was, every line belongs to the
 * directory being cleaned, subdirectories are finished before their parent's
 * own files and emptiness check, the root is never removed, a tree of old
 * files collapses bottom-up in one pass, and the files counted are exactly
 * the deletion candidates.
 */
module TraversalProperties {
  import opened Wrappers
  import opened Arguments
  import opened Traversal

  // ---------------------------------------------------------------------------
  // Counters never decrease; lines are only appended
  // ---------------------------------------------------------------------------

  predicate Grows(t: Tally, u: Tally) {
    && t.files <= u.files && t.size <= u.size
    && t.directories <= u.directories && t.errors <= u.errors
    && |t.events| <= |u.events| && u.events[..|t.events|] == t.events
  }

  lemma GrowsTransitive(t: Tally, u: Tally, v: Tally)
    requires Grows(t, u) && Grows(u, v)
    ensures Grows(t, v)
  {
    assert v.events[..|t.events|] == v.events[..|u.events|][..|t.events|];
  }

  lemma {:induction false} FilesGrow(env: Env, dir: Path, fs: seq<File>, t: Tally)
    ensures Grows(t, Files(env, dir, fs, t).tally)
    decreases |fs|
  {
    if fs != [] {
      var p := Files(env, dir, fs[..|fs| - 1], t);
      FilesGrow(env, dir, fs[..|fs| - 1], t);
      GrowsTransitive(t, p.tally, Files(env, dir, fs, t).tally);
    }
  }

  /** The counters of a directory's walk only go up, and the lines written
      before it stay as they were. */
  lemma {:induction false} CleanDirGrows(env: Env, path: Path, d: Dir, t: Tally)
    ensures Grows(t, CleanDir(env, path, d, t).tally)
    decreases d, |d.subdirs| + 1
  {
    var subs := Subdirs(env, path, d, |d.subdirs|, t);
    SubdirsGrow(env, path, d, |d.subdirs|, t);
    FilesGrow(env, path, d.files, subs.tally);
    var files := Files(env, path, d.files, subs.tally);
    GrowsTransitive(t, subs.tally, files.tally);
    GrowsTransitive(t, files.tally, CleanDir(env, path, d, t).tally);
  }

  lemma {:induction false} SubdirsGrow(env: Env, path: Path, d: Dir, k: nat, t: Tally)
    requires k <= |d.subdirs|
    ensures Grows(t, Subdirs(env, path, d, k, t).tally)
    decreases d, k
  {
    if k > 0 {
      var p := Subdirs(env, path, d, k - 1, t);
      SubdirsGrow(env, path, d, k - 1, t);
      if env.config.recurse {
        var sub := d.subdirs[k - 1];
        CleanDirGrows(env, path + [sub.name], sub, p.tally);
        GrowsTransitive(t, p.tally, Subdirs(env, path, d, k, t).tally);
      }
    }
  }

  // ---------------------------------------------------------------------------
  // The counters agree with the lines written
  // ---------------------------------------------------------------------------

  function DeletedFiles(evs: seq<Event>): nat {
    if evs == [] then 0
    else DeletedFiles(evs[..|evs| - 1]) + (if evs[|evs| - 1].DeletedFile? then 1 else 0)
  }

  function DeletedBytes(evs: seq<Event>): nat {
    if evs == [] then 0
    else DeletedBytes(evs[..|evs| - 1]) + (if evs[|evs| - 1].DeletedFile? then evs[|evs| - 1].size else 0)
  }

  function DeletedDirs(evs: seq<Event>): nat {
    if evs == [] then 0
    else DeletedDirs(evs[..|evs| - 1]) + (if evs[|evs| - 1].DeletedDir? then 1 else 0)
  }

  function Errors(evs: seq<Event>): nat {
    if evs == [] then 0
    else Errors(evs[..|evs| - 1]) + (if evs[|evs| - 1].FileError? || evs[|evs| - 1].DirError? then 1 else 0)
  }

  /** Each counter equals what the lines written so far report. */
  predicate Consistent(t: Tally) {
    && t.files == DeletedFiles(t.events)
    && t.size == DeletedBytes(t.events)
    && t.directories == DeletedDirs(t.events)
    && t.errors == Errors(t.events)
  }

  /** Appending one line and moving the counter it reports keeps counters
      and lines in agreement. */
  lemma AppendConsistent(t: Tally, u: Tally, e: Event)
    requires Consistent(t) && u.events == t.events + [e]
    requires u.files == t.files + (if e.DeletedFile? then 1 else 0)
    requires u.size == t.size + (if e.DeletedFile? then e.size else 0)
    requires u.directories == t.directories + (if e.DeletedDir? then 1 else 0)
    requires u.errors == t.errors + (if e.FileError? || e.DirError? then 1 else 0)
    ensures Consistent(u)
  {
    assert u.events[..|u.events| - 1] == t.events;
  }

  lemma FileStepConsistent(env: Env, dir: Path, f: File, p: Progress<File>)
    requires Consistent(p.tally)
    ensures Consistent(FileStep(env, dir, f, p).tally)
  {
    var t, path := p.tally, dir + [f.name];
    if !Selected(RuleOf(env), f) {
    } else if Fails(env, path) {
      AppendConsistent(t, FileStep(env, dir, f, p).tally, FileError(path));
    } else {
      AppendConsistent(t, FileStep(env, dir, f, p).tally, DeletedFile(path, AgeOf(RuleOf(env), f), f.length));
    }
  }

  lemma {:induction false} FilesConsistent(env: Env, dir: Path, fs: seq<File>, t: Tally)
    requires Consistent(t)
    ensures Consistent(Files(env, dir, fs, t).tally)
    decreases |fs|
  {
    if fs != [] {
      FilesConsistent(env, dir, fs[..|fs| - 1], t);
      FileStepConsistent(env, dir, fs[|fs| - 1], Files(env, dir, fs[..|fs| - 1], t));
    }
  }

  /** Every counted deletion or error has exactly one line, and every line is
      counted: the summary can never disagree with the log. */
  lemma {:induction false} CleanDirConsistent(env: Env, path: Path, d: Dir, t: Tally)
    requires Consistent(t)
    ensures Consistent(CleanDir(env, path, d, t).tally)
    decreases d, |d.subdirs| + 1
  {
    var subs := Subdirs(env, path, d, |d.subdirs|, t);
    SubdirsConsistent(env, path, d, |d.subdirs|, t);
    var files := Files(env, path, d.files, subs.tally);
    FilesConsistent(env, path, d.files, subs.tally);
    var u := files.tally;
    var v := CleanDir(env, path, d, t).tally;
    if env.config.deleteEmpty && path != [] && files.done == [] && subs.done == [] {
      if Fails(env, path) {
        AppendConsistent(u, v, DirError(path));
      } else {
        AppendConsistent(u, v, DeletedDir(path));
      }
    }
  }

  lemma {:induction false} SubdirsConsistent(env: Env, path: Path, d: Dir, k: nat, t: Tally)
    requires k <= |d.subdirs| && Consistent(t)
    ensures Consistent(Subdirs(env, path, d, k, t).tally)
    decreases d, k
  {
    if k > 0 {
      var p := Subdirs(env, path, d, k - 1, t);
      SubdirsConsistent(env, path, d, k - 1, t);
      if env.config.recurse {
        var sub := d.subdirs[k - 1];
        CleanDirConsistent(env, path + [sub.name], sub, p.tally);
      }
    }
  }

  // ---------------------------------------------------------------------------
  // /SIM leaves the tree unchanged
  // ---------------------------------------------------------------------------

  lemma SimulatedStepKeeps(env: Env, dir: Path, f: File, p: Progress<File>)
    requires env.config.simulate
    ensures FileStep(env, dir, f, p).done == p.done + [f]
  {
  }

  lemma {:induction false} FilesSimulated(env: Env, dir: Path, fs: seq<File>, t: Tally)
    requires env.config.simulate
    ensures Files(env, dir, fs, t).done == fs
    decreases |fs|
  {
    if fs != [] {
      var init, f := fs[..|fs| - 1], fs[|fs| - 1];
      var p := Files(env, dir, init, t);
      FilesSimulated(env, dir, init, t);
      SimulatedStepKeeps(env, dir, f, p);
      assert Files(env, dir, fs, t).done == FileStep(env, dir, f, p).done;
      assert init + [f] == fs;
    }
  }

  /** Under `/SIM` no directory is removed and every file and subdirectory is
      still there, in the same order. */
  lemma {:induction false} CleanDirSimulated(env: Env, path: Path, d: Dir, t: Tally)
    requires env.config.simulate
    ensures CleanDir(env, path, d, t).dir == d && !CleanDir(env, path, d, t).removed
    decreases d, |d.subdirs| + 1
  {
    var subs := Subdirs(env, path, d, |d.subdirs|, t);
    SubdirsSimulated(env, path, d, |d.subdirs|, t);
    FilesSimulated(env, path, d.files, subs.tally);
    assert d.subdirs[..|d.subdirs|] == d.subdirs;
  }

  lemma {:induction false} SubdirsSimulated(env: Env, path: Path, d: Dir, k: nat, t: Tally)
    requires env.config.simulate && k <= |d.subdirs|
    ensures Subdirs(env, path, d, k, t).done == d.subdirs[..k]
    decreases d, k
  {
    if k > 0 {
      var p := Subdirs(env, path, d, k - 1, t);
      SubdirsSimulated(env, path, d, k - 1, t);
      if env.config.recurse {
        var sub := d.subdirs[k - 1];
        CleanDirSimulated(env, path + [sub.name], sub, p.tally);
      }
      assert d.subdirs[..k - 1] + [d.subdirs[k - 1]] == d.subdirs[..k];
    }
  }

  // ---------------------------------------------------------------------------
  // Where the lines of a directory's walk point, and in which order
  // ---------------------------------------------------------------------------

  /** A line about the directory at `path` itself or about one of its own files. */
  predicate Own(path: Path, e: Event) {
    if e.IsFileEvent() then |e.path| == |path| + 1 && path <= e.path
    else e.path == path
  }

  /** A line about something inside one of the subdirectories of `path`. */
  predicate Deep(path: Path, e: Event) {
    && path <= e.path
    && if e.IsFileEvent() then |e.path| >= |path| + 2 else |e.path| >= |path| + 1
  }

  /** The lines written between tallies `t` and `u` are all about files of `path`. */
  predicate OwnFileLines(path: Path, t: Tally, u: Tally) {
    forall i :: |t.events| <= i < |u.events| ==> u.events[i].IsFileEvent() && Own(path, u.events[i])
  }

  /** The lines written between `t` and `u` all lie inside subdirectories of `path`. */
  predicate DeepLines(path: Path, t: Tally, u: Tally) {
    forall i :: |t.events| <= i < |u.events| ==> Deep(path, u.events[i])
  }

  /** The lines written between `t` and `u` are about `path`, its files or its
      subtrees, and none of them names the root as a directory. */
  predicate LinesWithin(path: Path, t: Tally, u: Tally) {
    forall i :: |t.events| <= i < |u.events| ==>
      (Own(path, u.events[i]) || Deep(path, u.events[i])) &&
      (!u.events[i].IsFileEvent() ==> u.events[i].path != [])
  }

  /** No line inside a subtree of `path` follows a line about `path` or its own files. */
  predicate PostOrder(path: Path, t: Tally, u: Tally) {
    forall i, j :: |t.events| <= i < j < |u.events| && Own(path, u.events[i]) ==> !Deep(path, u.events[j])
  }

  /** A file step writes at most one line, about that file. */
  lemma FileStepWrites(env: Env, dir: Path, f: File, p: Progress<File>)
    ensures var q := FileStep(env, dir, f, p).tally;
      && |p.tally.events| <= |q.events| <= |p.tally.events| + 1
      && q.events[..|p.tally.events|] == p.tally.events
      && (|q.events| > |p.tally.events| ==>
            q.events[|p.tally.events|].IsFileEvent() && q.events[|p.tally.events|].path == dir + [f.name])
  {
  }

  lemma {:induction false} FilesOwn(env: Env, dir: Path, fs: seq<File>, t: Tally)
    ensures OwnFileLines(dir, t, Files(env, dir, fs, t).tally)
    decreases |fs|
  {
    if fs != [] {
      var init, f := fs[..|fs| - 1], fs[|fs| - 1];
      FilesOwn(env, dir, init, t);
      FilesGrow(env, dir, init, t);
      var p := Files(env, dir, init, t);
      FileStepWrites(env, dir, f, p);
      var u := Files(env, dir, fs, t).tally;
      assert u.events == FileStep(env, dir, f, p).tally.events;
      forall i | |t.events| <= i < |u.events| ensures u.events[i].IsFileEvent() && Own(dir, u.events[i]) {
        if i < |p.tally.events| {
          assert u.events[i] == p.tally.events[i];
        } else {
          assert (dir + [f.name])[..|dir|] == dir;
        }
      }
    }
  }

  /** Every line a directory's walk writes is about that directory, one of its
      files, or something inside one of its subdirectories; and no line names
      the root as a directory. */
  lemma {:induction false} CleanDirWithin(env: Env, path: Path, d: Dir, t: Tally)
    ensures LinesWithin(path, t, CleanDir(env, path, d, t).tally)
    decreases d, |d.subdirs| + 1
  {
    var subs := Subdirs(env, path, d, |d.subdirs|, t);
    var files := Files(env, path, d.files, subs.tally);
    SubdirsDeep(env, path, d, |d.subdirs|, t);
    SubdirsGrow(env, path, d, |d.subdirs|, t);
    FilesOwn(env, path, d.files, subs.tally);
    FilesGrow(env, path, d.files, subs.tally);
    var u := CleanDir(env, path, d, t).tally;
    assert |files.tally.events| <= |u.events| <= |files.tally.events| + 1;
    assert u.events[..|files.tally.events|] == files.tally.events;
    forall i | |t.events| <= i < |u.events|
      ensures (Own(path, u.events[i]) || Deep(path, u.events[i])) &&
              (!u.events[i].IsFileEvent() ==> u.events[i].path != [])
    {
      if i < |subs.tally.events| {
        assert u.events[i] == subs.tally.events[i];
        assert Deep(path, subs.tally.events[i]);
      } else if i < |files.tally.events| {
        assert u.events[i] == files.tally.events[i];
        assert Own(path, files.tally.events[i]);
      }
    }
  }

  /** Every line written while walking the subdirectories lies strictly inside them. */
  lemma {:induction false} SubdirsDeep(env: Env, path: Path, d: Dir, k: nat, t: Tally)
    requires k <= |d.subdirs|
    ensures DeepLines(path, t, Subdirs(env, path, d, k, t).tally)
    decreases d, k
  {
    if k > 0 {
      var p := Subdirs(env, path, d, k - 1, t);
      SubdirsDeep(env, path, d, k - 1, t);
      if env.config.recurse {
        var sub := d.subdirs[k - 1];
        var child := path + [sub.name];
        CleanDirWithin(env, child, sub, p.tally);
        CleanDirGrows(env, child, sub, p.tally);
        var u := Subdirs(env, path, d, k, t).tally;
        assert u == CleanDir(env, child, sub, p.tally).tally;
        forall i | |t.events| <= i < |u.events| ensures Deep(path, u.events[i]) {
          if i < |p.tally.events| {
            assert u.events[i] == p.tally.events[i];
          } else {
            var e := u.events[i];
            assert Own(child, e) || Deep(child, e);
            assert child <= e.path;
            assert e.path[..|path|] == e.path[..|child|][..|path|];
          }
        }
      }
    }
  }

  /** Post-order: once a line about the directory's own files or about the
      directory itself is written, no line about anything inside a
      subdirectory follows. Each subdirectory is finished, including its own
      removal, before the parent's files and emptiness check. */
  lemma CleanDirPostOrder(env: Env, path: Path, d: Dir, t: Tally)
    ensures PostOrder(path, t, CleanDir(env, path, d, t).tally)
  {
    var subs := Subdirs(env, path, d, |d.subdirs|, t);
    var files := Files(env, path, d.files, subs.tally);
    SubdirsDeep(env, path, d, |d.subdirs|, t);
    SubdirsGrow(env, path, d, |d.subdirs|, t);
    FilesOwn(env, path, d.files, subs.tally);
    FilesGrow(env, path, d.files, subs.tally);
    var u := CleanDir(env, path, d, t).tally;
    assert |files.tally.events| <= |u.events| <= |files.tally.events| + 1;
    assert u.events[..|files.tally.events|] == files.tally.events;
    forall i, j | |t.events| <= i < j < |u.events| && Own(path, u.events[i]) ensures !Deep(path, u.events[j]) {
      if i < |subs.tally.events| {
        assert false;
      }
      if j < |files.tally.events| {
        assert u.events[j] == files.tally.events[j];
        assert Own(path, files.tally.events[j]);
      }
    }
  }

  /** The root is never removed and no line names it as a deleted directory. */
  lemma RootNeverDeleted(env: Env, root: Dir, t: Tally)
    ensures !CleanDir(env, [], root, t).removed
    ensures forall i :: |t.events| <= i < |CleanDir(env, [], root, t).tally.events| ==>
      CleanDir(env, [], root, t).tally.events[i] != DeletedDir([])
  {
    CleanDirWithin(env, [], root, t);
  }

  // ---------------------------------------------------------------------------
  // Without /R subdirectories are not touched; without /D none is removed
  // ---------------------------------------------------------------------------

  lemma {:induction false} SubdirsUntouched(env: Env, path: Path, d: Dir, k: nat, t: Tally)
    requires !env.config.recurse && k <= |d.subdirs|
    ensures Subdirs(env, path, d, k, t) == Progress(d.subdirs[..k], t)
    decreases k
  {
    if k > 0 {
      SubdirsUntouched(env, path, d, k - 1, t);
      assert d.subdirs[..k - 1] + [d.subdirs[k - 1]] == d.subdirs[..k];
    }
  }

  /** Without `/R` the subdirectories are kept as they are, and every line is
      about one of the directory's own files or the directory itself. */
  lemma NoRecursion(env: Env, path: Path, d: Dir, t: Tally)
    requires !env.config.recurse
    ensures CleanDir(env, path, d, t).dir.subdirs == d.subdirs
    ensures forall i :: |t.events| <= i < |CleanDir(env, path, d, t).tally.events| ==>
      Own(path, CleanDir(env, path, d, t).tally.events[i])
  {
    SubdirsUntouched(env, path, d, |d.subdirs|, t);
    assert d.subdirs[..|d.subdirs|] == d.subdirs;
    FilesOwn(env, path, d.files, t);
    FilesGrow(env, path, d.files, t);
    var files := Files(env, path, d.files, t);
    var u := CleanDir(env, path, d, t).tally;
    assert u.events[..|files.tally.events|] == files.tally.events;
    forall i | |t.events| <= i < |u.events| ensures Own(path, u.events[i]) {
      if i < |files.tally.events| {
        assert u.events[i] == files.tally.events[i];
      }
    }
  }

  /** The lines written between `t` and `u` are all about files. */
  predicate FileLinesOnly(t: Tally, u: Tally) {
    forall i :: |t.events| <= i < |u.events| ==> u.events[i].IsFileEvent()
  }

  lemma {:induction false} FilesKeepDirectories(env: Env, dir: Path, fs: seq<File>, t: Tally)
    ensures Files(env, dir, fs, t).tally.directories == t.directories
    decreases |fs|
  {
    if fs != [] {
      FilesKeepDirectories(env, dir, fs[..|fs| - 1], t);
    }
  }

  /** Without `/D` no directory is removed or counted, and all lines are about files. */
  lemma {:induction false} NoPruningWithoutD(env: Env, path: Path, d: Dir, t: Tally)
    requires !env.config.deleteEmpty
    ensures !CleanDir(env, path, d, t).removed
    ensures CleanDir(env, path, d, t).tally.directories == t.directories
    ensures FileLinesOnly(t, CleanDir(env, path, d, t).tally)
    decreases d, |d.subdirs| + 1
  {
    var subs := Subdirs(env, path, d, |d.subdirs|, t);
    SubdirsNoPruning(env, path, d, |d.subdirs|, t);
    SubdirsGrow(env, path, d, |d.subdirs|, t);
    FilesOwn(env, path, d.files, subs.tally);
    FilesKeepDirectories(env, path, d.files, subs.tally);
    FilesGrow(env, path, d.files, subs.tally);
    var u := CleanDir(env, path, d, t).tally;
    forall i | |t.events| <= i < |u.events| ensures u.events[i].IsFileEvent() {
      if i < |subs.tally.events| {
        assert u.events[i] == subs.tally.events[i];
      }
    }
  }

  lemma {:induction false} SubdirsNoPruning(env: Env, path: Path, d: Dir, k: nat, t: Tally)
    requires !env.config.deleteEmpty && k <= |d.subdirs|
    ensures Subdirs(env, path, d, k, t).tally.directories == t.directories
    ensures FileLinesOnly(t, Subdirs(env, path, d, k, t).tally)
    decreases d, k
  {
    if k > 0 {
      var p := Subdirs(env, path, d, k - 1, t);
      SubdirsNoPruning(env, path, d, k - 1, t);
      if env.config.recurse {
        var sub := d.subdirs[k - 1];
        NoPruningWithoutD(env, path + [sub.name], sub, p.tally);
        CleanDirGrows(env, path + [sub.name], sub, p.tally);
        var u := Subdirs(env, path, d, k, t).tally;
        forall i | |t.events| <= i < |u.events| ensures u.events[i].IsFileEvent() {
          if i < |p.tally.events| {
            assert u.events[i] == p.tally.events[i];
          }
        }
      }
    }
  }

  // ---------------------------------------------------------------------------
  // With /R /D and no failures, a tree of old files collapses bottom-up
  // ---------------------------------------------------------------------------

  /** Every file of the tree is a deletion candidate. */
  predicate AllCandidates(rule: Rule, d: Dir)
    decreases d
  {
    && (forall i :: 0 <= i < |d.files| ==> Selected(rule, d.files[i]))
    && (forall i :: 0 <= i < |d.subdirs| ==> AllCandidates(rule, d.subdirs[i]))
  }

  /** A run that really deletes, recursively, removes empty directories, and meets no failure. */
  predicate Sweeping(env: Env) {
    env.config.recurse && env.config.deleteEmpty && !env.config.simulate && env.failing == {}
  }

  lemma {:induction false} FilesAllDeleted(env: Env, dir: Path, fs: seq<File>, t: Tally)
    requires !env.config.simulate && env.failing == {}
    requires forall i :: 0 <= i < |fs| ==> Selected(RuleOf(env), fs[i])
    ensures Files(env, dir, fs, t).done == []
    decreases |fs|
  {
    if fs != [] {
      FilesAllDeleted(env, dir, fs[..|fs| - 1], t);
    }
  }

  /** In one pass, every directory below the root whose files are all old is
      removed, its empty subdirectories first, and the root is left empty. */
  lemma {:induction false} CollapseBottomUp(env: Env, path: Path, d: Dir, t: Tally)
    requires Sweeping(env) && AllCandidates(RuleOf(env), d)
    ensures var o := CleanDir(env, path, d, t);
      o.dir == Dir(d.name, [], []) && o.removed == (path != [])
    decreases d, |d.subdirs| + 1
  {
    var subs := Subdirs(env, path, d, |d.subdirs|, t);
    SubdirsCollapse(env, path, d, |d.subdirs|, t);
    FilesAllDeleted(env, path, d.files, subs.tally);
  }

  lemma {:induction false} SubdirsCollapse(env: Env, path: Path, d: Dir, k: nat, t: Tally)
    requires Sweeping(env) && AllCandidates(RuleOf(env), d) && k <= |d.subdirs|
    ensures Subdirs(env, path, d, k, t).done == []
    decreases d, k
  {
    if k > 0 {
      var p := Subdirs(env, path, d, k - 1, t);
      SubdirsCollapse(env, path, d, k - 1, t);
      var sub := d.subdirs[k - 1];
      CollapseBottomUp(env, path + [sub.name], sub, p.tally);
    }
  }

  // ---------------------------------------------------------------------------
  // The files counted are exactly the deletion candidates
  // ---------------------------------------------------------------------------

  /** A number of files and their total length. */
  datatype Amount = Amount(count: nat, bytes: nat) {
    function Plus(other: Amount): Amount {
      Amount(count + other.count, bytes + other.bytes)
    }
  }

  function FileCandidates(rule: Rule, fs: seq<File>): Amount {
    if fs == [] then Amount(0, 0)
    else
      var f := fs[|fs| - 1];
      FileCandidates(rule, fs[..|fs| - 1]).Plus(if Selected(rule, f) then Amount(1, f.length) else Amount(0, 0))
  }

  /** The deletion candidates of a tree: the directory's own files, and with
      `/R` those of every subdirectory. */
  function TreeCandidates(rule: Rule, recurse: bool, d: Dir): Amount
    decreases d, |d.subdirs| + 1
  {
    FileCandidates(rule, d.files).Plus(
      if recurse then ForestCandidates(rule, recurse, d, |d.subdirs|) else Amount(0, 0))
  }

  function ForestCandidates(rule: Rule, recurse: bool, d: Dir, k: nat): Amount
    requires k <= |d.subdirs|
    decreases d, k
  {
    if k == 0 then Amount(0, 0)
    else ForestCandidates(rule, recurse, d, k - 1).Plus(TreeCandidates(rule, recurse, d.subdirs[k - 1]))
  }

  /** A run in which no deletion fails: a simulation, or one without failures. */
  predicate Unfailing(env: Env) {
    env.config.simulate || env.failing == {}
  }

  lemma {:induction false} FilesCount(env: Env, dir: Path, fs: seq<File>, t: Tally)
    requires Unfailing(env)
    ensures var u := Files(env, dir, fs, t).tally;
      && u.files == t.files + FileCandidates(RuleOf(env), fs).count
      && u.size == t.size + FileCandidates(RuleOf(env), fs).bytes
      && u.errors == t.errors
    decreases |fs|
  {
    if fs != [] {
      FilesCount(env, dir, fs[..|fs| - 1], t);
    }
  }

  /** When no delete fails, a directory's walk counts one file, and that
      file's length, for each deletion candidate of the tree it reaches, and
      no other file. */
  lemma {:induction false} CleanDirCounts(env: Env, path: Path, d: Dir, t: Tally)
    requires Unfailing(env)
    ensures var u := CleanDir(env, path, d, t).tally;
      && u.files == t.files + TreeCandidates(RuleOf(env), env.config.recurse, d).count
      && u.size == t.size + TreeCandidates(RuleOf(env), env.config.recurse, d).bytes
      && u.errors == t.errors
    decreases d, |d.subdirs| + 1
  {
    var subs := Subdirs(env, path, d, |d.subdirs|, t);
    SubdirsCount(env, path, d, |d.subdirs|, t);
    var v := Files(env, path, d.files, subs.tally).tally;
    FilesCount(env, path, d.files, subs.tally);
    var u := CleanDir(env, path, d, t).tally;
    assert u.files == v.files && u.size == v.size && u.errors == v.errors;
    var own := FileCandidates(RuleOf(env), d.files);
    var below := if env.config.recurse then ForestCandidates(RuleOf(env), true, d, |d.subdirs|) else Amount(0, 0);
    assert TreeCandidates(RuleOf(env), env.config.recurse, d) == own.Plus(below);
  }

  lemma {:induction false} SubdirsCount(env: Env, path: Path, d: Dir, k: nat, t: Tally)
    requires Unfailing(env) && k <= |d.subdirs|
    ensures var u := Subdirs(env, path, d, k, t).tally;
      var a := if env.config.recurse then ForestCandidates(RuleOf(env), true, d, k) else Amount(0, 0);
      && u.files == t.files + a.count
      && u.size == t.size + a.bytes
      && u.errors == t.errors
    decreases d, k
  {
    if k > 0 {
      var p := Subdirs(env, path, d, k - 1, t);
      SubdirsCount(env, path, d, k - 1, t);
      if env.config.recurse {
        var sub := d.subdirs[k - 1];
        CleanDirCounts(env, path + [sub.name], sub, p.tally);
      }
    }
  }

  /** Directories are another matter: a subdirectory whose only file is old is
      removed and counted by `/R /D`, but with `/SIM` added the emptiness
      check still sees the file, so nothing is counted. */
  lemma SimulationMissesEmptiedDirectories()
    ensures CleanDir(Env(Config("root", 0, true, true, false, false, None, None), 0, {}), [],
                     Dir("root", [], [Dir("a", [File("x.log", 10, 0, 0)], [])]), Zero).tally.directories == 1
    ensures CleanDir(Env(Config("root", 0, true, true, true, false, None, None), 0, {}), [],
                     Dir("root", [], [Dir("a", [File("x.log", 10, 0, 0)], [])]), Zero).tally.directories == 0
  {
    var a := Dir("a", [File("x.log", 10, 0, 0)], []);
    var tree := Dir("root", [], [a]);
    assert [] + [a.name] == ["a"];

    var env := Env(Config("root", 0, true, true, false, false, None, None), 0, {});
    assert Selected(RuleOf(env), a.files[0]);
    FilesAllDeleted(env, ["a"], a.files, Zero);
    FilesKeepDirectories(env, ["a"], a.files, Zero);
    var sub := CleanDir(env, ["a"], a, Zero);
    assert sub.removed && sub.tally.directories == 1;
    assert Subdirs(env, [], tree, 1, Zero).tally.directories == 1;

    var sim := Env(Config("root", 0, true, true, true, false, None, None), 0, {});
    FilesSimulated(sim, ["a"], a.files, Zero);
    FilesKeepDirectories(sim, ["a"], a.files, Zero);
    var simSub := CleanDir(sim, ["a"], a, Zero);
    assert simSub.tally.directories == 0;
    assert Subdirs(sim, [], tree, 1, Zero).tally.directories == 0;
  }
}
