/**
 * What happens to each file of a directory: which files are still there
 * after the walk, and the one line (or none) the walk writes about each.
 * Unlike the counting lemmas, nothing here assumes that deletes succeed.
 */
module FileFates {
  import opened Traversal

  /** The walk deletes `f`: it is a candidate, this is no simulation, and its
      delete does not throw. */
  predicate Deletes(env: Env, dir: Path, f: File) {
    Selected(RuleOf(env), f) && !env.config.simulate && !Fails(env, dir + [f.name])
  }

  /** The files of `fs` that are not deleted, in listing order. */
  function Survivors(env: Env, dir: Path, fs: seq<File>): seq<File> {
    if fs == [] then []
    else
      var f := fs[|fs| - 1];
      Survivors(env, dir, fs[..|fs| - 1]) + (if Deletes(env, dir, f) then [] else [f])
  }

  /** A file survives exactly when it is not selected, or its delete throws,
      or the run is a simulation. */
  lemma {:induction false} SurvivorsMembers(env: Env, dir: Path, fs: seq<File>, x: File)
    ensures x in Survivors(env, dir, fs) <==> x in fs && !Deletes(env, dir, x)
    decreases |fs|
  {
    if fs != [] {
      var init, f := fs[..|fs| - 1], fs[|fs| - 1];
      SurvivorsMembers(env, dir, init, x);
      assert fs == init + [f];
    }
  }

  /** The file loop keeps exactly the survivors, in order. */
  lemma {:induction false} FilesSurvivors(env: Env, dir: Path, fs: seq<File>, t: Tally)
    ensures Files(env, dir, fs, t).done == Survivors(env, dir, fs)
    decreases |fs|
  {
    if fs != [] {
      FilesSurvivors(env, dir, fs[..|fs| - 1], t);
    }
  }

  /** After its walk a directory holds exactly the survivors among its files. */
  lemma CleanDirFiles(env: Env, path: Path, d: Dir, t: Tally)
    ensures CleanDir(env, path, d, t).dir.files == Survivors(env, path, d.files)
  {
    FilesSurvivors(env, path, d.files, Subdirs(env, path, d, |d.subdirs|, t).tally);
  }

  /** The line written about `f`: none when it is not a candidate, an error
      when its delete throws in a real run, a deletion otherwise. */
  function FileLine(env: Env, dir: Path, f: File): seq<Event> {
    var p := dir + [f.name];
    if !Selected(RuleOf(env), f) then []
    else if Fails(env, p) then [FileError(p)]
    else [DeletedFile(p, AgeOf(RuleOf(env), f), f.length)]
  }

  /** The lines about the files `fs`, one file after the other. */
  function FileLines(env: Env, dir: Path, fs: seq<File>): seq<Event> {
    if fs == [] then []
    else FileLines(env, dir, fs[..|fs| - 1]) + FileLine(env, dir, fs[|fs| - 1])
  }

  /** The file loop appends exactly the lines about its files. */
  lemma {:induction false} FilesLines(env: Env, dir: Path, fs: seq<File>, t: Tally)
    ensures Files(env, dir, fs, t).tally.events == t.events + FileLines(env, dir, fs)
    decreases |fs|
  {
    if fs != [] {
      FilesLines(env, dir, fs[..|fs| - 1], t);
    }
  }

  /** The lines of `evs` about path `p`. */
  function About(evs: seq<Event>, p: Path): seq<Event> {
    if evs == [] then []
    else About(evs[..|evs| - 1], p) + (if evs[|evs| - 1].path == p then [evs[|evs| - 1]] else [])
  }

  lemma {:induction false} AboutAppend(a: seq<Event>, b: seq<Event>, p: Path)
    ensures About(a + b, p) == About(a, p) + About(b, p)
    decreases |b|
  {
    if b != [] {
      var init := b[..|b| - 1];
      assert (a + b)[..|a + b| - 1] == a + init;
      AboutAppend(a, init, p);
    } else {
      assert a + b == a;
    }
  }

  predicate DistinctNames(fs: seq<File>) {
    forall i, j :: 0 <= i < j < |fs| ==> fs[i].name != fs[j].name
  }

  lemma ChildPathsDiffer(dir: Path, a: string, b: string)
    requires a != b
    ensures dir + [a] != dir + [b]
  {
    assert (dir + [a])[|dir|] == a;
  }

  /** No line about the files `fs` names a file missing from them. */
  lemma {:induction false} FileLinesElsewhere(env: Env, dir: Path, fs: seq<File>, name: string)
    requires forall i :: 0 <= i < |fs| ==> fs[i].name != name
    ensures About(FileLines(env, dir, fs), dir + [name]) == []
    decreases |fs|
  {
    if fs != [] {
      var init, f := fs[..|fs| - 1], fs[|fs| - 1];
      FileLinesElsewhere(env, dir, init, name);
      AboutAppend(FileLines(env, dir, init), FileLine(env, dir, f), dir + [name]);
      ChildPathsDiffer(dir, f.name, name);
    }
  }

  /** In a directory whose file names are distinct, each file gets exactly
      its own line: one `DeletedFile` or `FileError` when it is a candidate,
      none when it is not. */
  lemma {:induction false} FileLinesPerFile(env: Env, dir: Path, fs: seq<File>, i: nat)
    requires i < |fs| && DistinctNames(fs)
    ensures About(FileLines(env, dir, fs), dir + [fs[i].name]) == FileLine(env, dir, fs[i])
    decreases |fs|
  {
    var init, f := fs[..|fs| - 1], fs[|fs| - 1];
    var p := dir + [fs[i].name];
    assert FileLines(env, dir, fs) == FileLines(env, dir, init) + FileLine(env, dir, f);
    AboutAppend(FileLines(env, dir, init), FileLine(env, dir, f), p);
    if i == |fs| - 1 {
      FileLinesElsewhere(env, dir, init, f.name);
    } else {
      FileLinesPerFile(env, dir, init, i);
      ChildPathsDiffer(dir, f.name, fs[i].name);
    }
  }

  /** The lines the file loop writes about one of its files are exactly that
      file's line. */
  lemma FilesLinePerFile(env: Env, dir: Path, fs: seq<File>, t: Tally, i: nat)
    requires i < |fs| && DistinctNames(fs)
    ensures var u := Files(env, dir, fs, t).tally;
      |t.events| <= |u.events| &&
      About(u.events[|t.events|..], dir + [fs[i].name]) == FileLine(env, dir, fs[i])
  {
    var u := Files(env, dir, fs, t).tally;
    FilesLines(env, dir, fs, t);
    assert u.events[|t.events|..] == FileLines(env, dir, fs);
    FileLinesPerFile(env, dir, fs, i);
  }
}
