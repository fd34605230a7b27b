/**
 * What happens to each subdirectory of a directory: what is left of the
 * tree after the walk does not depend on the counters or lines so far, and
 * with `/R` a directory keeps, in order, exactly those subdirectories whose
 * own walk did not remove them, each as that walk left it.
 */
module SubdirFates {
  import opened Traversal
  import opened TraversalProperties
  import opened FileFates

  /** The files the file loop keeps do not depend on the tally it starts from. */
  lemma {:induction false} FilesShape(env: Env, dir: Path, fs: seq<File>, t1: Tally, t2: Tally)
    ensures Files(env, dir, fs, t1).done == Files(env, dir, fs, t2).done
    decreases |fs|
  {
    if fs != [] {
      FilesShape(env, dir, fs[..|fs| - 1], t1, t2);
    }
  }

  /** What is left of a directory, and whether it is removed, do not depend
      on the tally its walk starts from. */
  lemma {:induction false} CleanDirShape(env: Env, path: Path, d: Dir, t1: Tally, t2: Tally)
    ensures CleanDir(env, path, d, t1).dir == CleanDir(env, path, d, t2).dir
    ensures CleanDir(env, path, d, t1).removed == CleanDir(env, path, d, t2).removed
    decreases d, |d.subdirs| + 1
  {
    var s1 := Subdirs(env, path, d, |d.subdirs|, t1);
    var s2 := Subdirs(env, path, d, |d.subdirs|, t2);
    SubdirsShape(env, path, d, |d.subdirs|, t1, t2);
    FilesShape(env, path, d.files, s1.tally, s2.tally);
  }

  /** The subdirectories the loop keeps do not depend on the tally it starts from. */
  lemma {:induction false} SubdirsShape(env: Env, path: Path, d: Dir, k: nat, t1: Tally, t2: Tally)
    requires k <= |d.subdirs|
    ensures Subdirs(env, path, d, k, t1).done == Subdirs(env, path, d, k, t2).done
    decreases d, k
  {
    if k > 0 {
      var p1 := Subdirs(env, path, d, k - 1, t1);
      var p2 := Subdirs(env, path, d, k - 1, t2);
      SubdirsShape(env, path, d, k - 1, t1, t2);
      if env.config.recurse {
        var sub := d.subdirs[k - 1];
        CleanDirShape(env, path + [sub.name], sub, p1.tally, p2.tally);
      }
    }
  }

  /** The walk of `sub`, a subdirectory of the directory at `path`. */
  function Walked(env: Env, path: Path, sub: Dir): Outcome {
    CleanDir(env, path + [sub.name], sub, Zero)
  }

  /** The walks of the subdirectories `subs` of the directory at `path`, in order. */
  function Walks(env: Env, path: Path, subs: seq<Dir>): seq<Outcome> {
    seq(|subs|, i requires 0 <= i < |subs| => Walked(env, path, subs[i]))
  }

  /** What is left of the directories whose walk did not remove them, in order. */
  function Kept(os: seq<Outcome>): seq<Dir> {
    if os == [] then []
    else Kept(os[..|os| - 1]) + (if os[|os| - 1].removed then [] else [os[|os| - 1].dir])
  }

  /** Nothing is kept exactly when every walk removed its directory. */
  lemma {:induction false} NothingKept(os: seq<Outcome>)
    ensures Kept(os) == [] <==> forall i :: 0 <= i < |os| ==> os[i].removed
    decreases |os|
  {
    if os != [] {
      var init := os[..|os| - 1];
      NothingKept(init);
      assert forall i :: 0 <= i < |init| ==> init[i] == os[i];
    }
  }

  /** With `/R`, the subdirectories `subs` of the directory at `path` that
      their own walk does not remove, each as that walk leaves it, in order. */
  function SubdirSurvivors(env: Env, path: Path, subs: seq<Dir>): seq<Dir> {
    Kept(Walks(env, path, subs))
  }

  /** No subdirectory survives exactly when every one of them is removed by its walk. */
  lemma NoSubdirSurvivors(env: Env, path: Path, subs: seq<Dir>)
    ensures SubdirSurvivors(env, path, subs) == [] <==>
      forall i :: 0 <= i < |subs| ==> Walked(env, path, subs[i]).removed
  {
    var os := Walks(env, path, subs);
    NothingKept(os);
    assert forall i :: 0 <= i < |subs| ==> os[i] == Walked(env, path, subs[i]);
  }

  /** With `/R`, the subdirectory loop keeps exactly the surviving subdirectories. */
  lemma {:induction false} SubdirsSurvivors(env: Env, path: Path, d: Dir, k: nat, t: Tally)
    requires env.config.recurse && k <= |d.subdirs|
    ensures Subdirs(env, path, d, k, t).done == SubdirSurvivors(env, path, d.subdirs[..k])
    decreases k
  {
    if k > 0 {
      var p := Subdirs(env, path, d, k - 1, t);
      var sub := d.subdirs[k - 1];
      SubdirsSurvivors(env, path, d, k - 1, t);
      CleanDirShape(env, path + [sub.name], sub, p.tally, Zero);
      var os := Walks(env, path, d.subdirs[..k]);
      assert os[..k - 1] == Walks(env, path, d.subdirs[..k - 1]);
      assert os[k - 1] == Walked(env, path, sub);
    }
  }

  /** After its walk a directory holds, with `/R`, exactly its surviving
      subdirectories as their walks left them, and without `/R` its
      subdirectories unchanged. */
  lemma CleanDirSubdirs(env: Env, path: Path, d: Dir, t: Tally)
    ensures CleanDir(env, path, d, t).dir.subdirs ==
      if env.config.recurse then SubdirSurvivors(env, path, d.subdirs) else d.subdirs
  {
    if env.config.recurse {
      SubdirsSurvivors(env, path, d, |d.subdirs|, t);
      assert d.subdirs[..|d.subdirs|] == d.subdirs;
    } else {
      NoRecursion(env, path, d, t);
    }
  }

  /** A directory is removed only when each of its files was deleted and
      each of its subdirectories was removed by its own walk, first. */
  lemma RemovedAfterContents(env: Env, path: Path, d: Dir, t: Tally)
    ensures CleanDir(env, path, d, t).removed ==>
      && (forall f :: f in d.files ==> Deletes(env, path, f))
      && (forall i :: 0 <= i < |d.subdirs| ==> Walked(env, path, d.subdirs[i]).removed)
  {
    var o := CleanDir(env, path, d, t);
    if o.removed {
      CleanDirFiles(env, path, d, t);
      forall f | f in d.files
        ensures Deletes(env, path, f)
      {
        SurvivorsMembers(env, path, d.files, f);
      }
      CleanDirSubdirs(env, path, d, t);
      NoSubdirSurvivors(env, path, d.subdirs);
    }
  }
}
