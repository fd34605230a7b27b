/**
 * Counting with failing deletes. Every deletion candidate the walk reaches
 * is either counted as deleted, with its bytes, or counted as an error, and
 * the remaining errors are the directories whose delete threw.
 */
module Failures {
  import opened Traversal
  import opened TraversalProperties

  /** The candidates among the files `fs` whose delete throws. */
  function FailingFiles(env: Env, dir: Path, fs: seq<File>): Amount {
    if fs == [] then Amount(0, 0)
    else
      var f := fs[|fs| - 1];
      FailingFiles(env, dir, fs[..|fs| - 1]).Plus(
        if Selected(RuleOf(env), f) && Fails(env, dir + [f.name]) then Amount(1, f.length) else Amount(0, 0))
  }

  /** The failing candidates of the tree the walk of `d` reaches. */
  function FailingTree(env: Env, path: Path, d: Dir): Amount
    decreases d, |d.subdirs| + 1
  {
    FailingFiles(env, path, d.files).Plus(
      if env.config.recurse then FailingForest(env, path, d, |d.subdirs|) else Amount(0, 0))
  }

  function FailingForest(env: Env, path: Path, d: Dir, k: nat): Amount
    requires k <= |d.subdirs|
    decreases d, k
  {
    if k == 0 then Amount(0, 0)
    else
      var sub := d.subdirs[k - 1];
      FailingForest(env, path, d, k - 1).Plus(FailingTree(env, path + [sub.name], sub))
  }

  /** The number of `DirError` lines in `evs`. */
  function DirErrors(evs: seq<Event>): nat {
    if evs == [] then 0
    else DirErrors(evs[..|evs| - 1]) + (if evs[|evs| - 1].DirError? then 1 else 0)
  }

  lemma DirErrorsAppend(evs: seq<Event>, e: Event)
    ensures DirErrors(evs + [e]) == DirErrors(evs) + (if e.DirError? then 1 else 0)
  {
    assert (evs + [e])[..|evs|] == evs;
  }

  /** The file loop counts every candidate either as deleted or as an error,
      and writes no directory error. */
  lemma {:induction false} FilesTally(env: Env, dir: Path, fs: seq<File>, t: Tally)
    ensures var u := Files(env, dir, fs, t).tally;
      var c := FileCandidates(RuleOf(env), fs);
      var f := FailingFiles(env, dir, fs);
      && u.files + f.count == t.files + c.count
      && u.size + f.bytes == t.size + c.bytes
      && u.errors == t.errors + f.count
      && DirErrors(u.events) == DirErrors(t.events)
    decreases |fs|
  {
    if fs != [] {
      var init, file := fs[..|fs| - 1], fs[|fs| - 1];
      var p := Files(env, dir, init, t);
      FilesTally(env, dir, init, t);
      var path := dir + [file.name];
      DirErrorsAppend(p.tally.events, FileError(path));
      DirErrorsAppend(p.tally.events, DeletedFile(path, AgeOf(RuleOf(env), file), file.length));
    }
  }

  /** Over a whole walk, with any set of failing paths: the files and bytes
      counted are the candidates reached minus those whose delete throws;
      the errors counted are those failing candidates plus one per
      `DirError` line; and when no delete can fail there is no such line. */
  lemma {:induction false} CleanDirTally(env: Env, path: Path, d: Dir, t: Tally)
    ensures var u := CleanDir(env, path, d, t).tally;
      var c := TreeCandidates(RuleOf(env), env.config.recurse, d);
      var f := FailingTree(env, path, d);
      && u.files + f.count == t.files + c.count
      && u.size + f.bytes == t.size + c.bytes
      && u.errors + DirErrors(t.events) == t.errors + f.count + DirErrors(u.events)
      && (Unfailing(env) ==> DirErrors(u.events) == DirErrors(t.events))
    decreases d, |d.subdirs| + 1
  {
    var subs := Subdirs(env, path, d, |d.subdirs|, t);
    SubdirsTally(env, path, d, |d.subdirs|, t);
    FilesTally(env, path, d.files, subs.tally);
    EmptinessCheckTally(env, path, d, t);
    var own := FileCandidates(RuleOf(env), d.files);
    var below := if env.config.recurse then ForestCandidates(RuleOf(env), true, d, |d.subdirs|) else Amount(0, 0);
    assert TreeCandidates(RuleOf(env), env.config.recurse, d) == own.Plus(below);
    var ownFailing := FailingFiles(env, path, d.files);
    var belowFailing := if env.config.recurse then FailingForest(env, path, d, |d.subdirs|) else Amount(0, 0);
    assert FailingTree(env, path, d) == ownFailing.Plus(belowFailing);
  }

  /** The check whether a directory is now empty writes exactly one line
      when the directory is emptied under `/D` and is not the root, and none
      otherwise: a `DirError` counted as an error when its delete throws, a
      `DeletedDir` counted as a directory when it does not. It counts no
      file and no byte. */
  lemma EmptinessCheckTally(env: Env, path: Path, d: Dir, t: Tally)
    ensures var subs := Subdirs(env, path, d, |d.subdirs|, t);
      var files := Files(env, path, d.files, subs.tally);
      var v := files.tally;
      var u := CleanDir(env, path, d, t).tally;
      var emptied := env.config.deleteEmpty && path != [] && files.done == [] && subs.done == [];
      && u.events == v.events + (if emptied then [if Fails(env, path) then DirError(path) else DeletedDir(path)] else [])
      && u.directories == v.directories + (if emptied && !Fails(env, path) then 1 else 0)
      && u.errors == v.errors + (if emptied && Fails(env, path) then 1 else 0)
    ensures var v := Files(env, path, d.files, Subdirs(env, path, d, |d.subdirs|, t).tally).tally;
      var u := CleanDir(env, path, d, t).tally;
      && u.files == v.files && u.size == v.size
      && u.errors + DirErrors(v.events) == v.errors + DirErrors(u.events)
      && (Unfailing(env) ==> DirErrors(u.events) == DirErrors(v.events))
  {
    var subs := Subdirs(env, path, d, |d.subdirs|, t);
    var files := Files(env, path, d.files, subs.tally);
    var v := files.tally;
    var u := CleanDir(env, path, d, t).tally;
    if env.config.deleteEmpty && path != [] && files.done == [] && subs.done == [] {
      if Fails(env, path) {
        assert u.events == v.events + [DirError(path)] && u.errors == v.errors + 1;
        DirErrorsAppend(v.events, DirError(path));
      } else {
        assert u.events == v.events + [DeletedDir(path)] && u.errors == v.errors;
        DirErrorsAppend(v.events, DeletedDir(path));
      }
    } else {
      assert u == v;
    }
  }

  lemma {:induction false} SubdirsTally(env: Env, path: Path, d: Dir, k: nat, t: Tally)
    requires k <= |d.subdirs|
    ensures var u := Subdirs(env, path, d, k, t).tally;
      var c := if env.config.recurse then ForestCandidates(RuleOf(env), true, d, k) else Amount(0, 0);
      var f := if env.config.recurse then FailingForest(env, path, d, k) else Amount(0, 0);
      && u.files + f.count == t.files + c.count
      && u.size + f.bytes == t.size + c.bytes
      && u.errors + DirErrors(t.events) == t.errors + f.count + DirErrors(u.events)
      && (Unfailing(env) ==> DirErrors(u.events) == DirErrors(t.events))
    decreases d, k
  {
    if k > 0 {
      var p := Subdirs(env, path, d, k - 1, t);
      SubdirsTally(env, path, d, k - 1, t);
      if env.config.recurse {
        var sub := d.subdirs[k - 1];
        CleanDirTally(env, path + [sub.name], sub, p.tally);
      }
    }
  }
}
