/**
 * When the walk writes a line about a directory and when it removes one:
 * only with `/D`, never the root, and only when the directory is left with
 * no files and no subdirectories at that moment.
 */
module DirRemoval {
  import opened Traversal
  import opened TraversalProperties

  /** A `DeletedDir` or `DirError` line about the directory at `p`. */
  predicate IsDirLine(e: Event, p: Path) {
    (e.DeletedDir? || e.DirError?) && e.path == p
  }

  /** A directory is removed exactly when `/D` is given, it is not the root,
      the run is real, its delete does not throw, and it is left with no
      files and no subdirectories. */
  lemma RemovedOnlyWhenEmpty(env: Env, path: Path, d: Dir, t: Tally)
    ensures var o := CleanDir(env, path, d, t);
      o.removed <==>
        && env.config.deleteEmpty && path != [] && !env.config.simulate && !Fails(env, path)
        && o.dir.files == [] && o.dir.subdirs == []
  {
  }

  /** The walk of a directory writes a line about the directory itself
      exactly when `/D` is given, it is not the root, and it is left empty;
      that line is an error exactly when its delete throws in a real run. */
  lemma DirLineWhenEmptied(env: Env, path: Path, d: Dir, t: Tally)
    ensures var o := CleanDir(env, path, d, t);
      var u := o.tally;
      (exists i :: |t.events| <= i < |u.events| && IsDirLine(u.events[i], path)) <==>
        env.config.deleteEmpty && path != [] && o.dir.files == [] && o.dir.subdirs == []
    ensures var u := CleanDir(env, path, d, t).tally;
      forall i :: |t.events| <= i < |u.events| && IsDirLine(u.events[i], path) ==>
        (u.events[i].DirError? <==> Fails(env, path))
  {
    var subs := Subdirs(env, path, d, |d.subdirs|, t);
    var files := Files(env, path, d.files, subs.tally);
    var o := CleanDir(env, path, d, t);
    var u := o.tally;
    SubdirsDeep(env, path, d, |d.subdirs|, t);
    SubdirsGrow(env, path, d, |d.subdirs|, t);
    FilesOwn(env, path, d.files, subs.tally);
    FilesGrow(env, path, d.files, subs.tally);
    var n := |files.tally.events|;
    assert u.events[..n] == files.tally.events;
    forall i | |t.events| <= i < n
      ensures !IsDirLine(u.events[i], path)
    {
      assert u.events[i] == files.tally.events[i];
      if i < |subs.tally.events| {
        assert files.tally.events[i] == subs.tally.events[i];
        assert Deep(path, subs.tally.events[i]);
      } else {
        assert files.tally.events[i].IsFileEvent();
      }
    }
    if env.config.deleteEmpty && path != [] && o.dir.files == [] && o.dir.subdirs == [] {
      assert IsDirLine(u.events[n], path);
    } else {
      assert |u.events| == n;
    }
  }
}
