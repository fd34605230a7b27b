/**
 * What one call of `CleanupDirectory` does, as functions over an in-memory
 * directory tree. A directory is visited in post-order: when `/R` is given
 * its subdirectories first (each one completely, including its own possible
 * removal), then its files, then the check whether it is now empty.
 *
 * The run's counters and the lines it writes are a `Tally`; every function
 * here takes the tally before the step and returns the one after it. A path
 * is the list of names from the root directory down, the root being `[]`.
 * Which deletions throw is given by `Env.failing`, the paths whose delete
 * fails.
 */
module Traversal {
  import opened Wrappers
  import opened Arguments
  import opened Glob
  import opened FileAge

  type Path = seq<string>

  /** A file as the walk reads it: name, length in bytes, and the last-write
      and creation times in ticks. */
  datatype File = File(name: string, length: nat, lastWrite: int, created: int)

  /** A directory with its files and subdirectories, in listing order. */
  datatype Dir = Dir(name: string, files: seq<File>, subdirs: seq<Dir>)

  /** A line the walk writes: a deleted (or, under `/SIM`, would-be deleted)
      file with its age and length, a file it could not delete, a deleted
      directory, a directory it could not delete. */
  datatype Event =
    | DeletedFile(path: Path, age: int, size: nat)
    | FileError(path: Path)
    | DeletedDir(path: Path)
    | DirError(path: Path)
  {
    predicate IsFileEvent() {
      DeletedFile? || FileError?
    }
  }

  /** The static counters `totalFiles`, `totalSize`, `totalDirectories`,
      `totalErrors`, and the lines written so far. */
  datatype Tally = Tally(files: int, size: int, directories: int, errors: int, events: seq<Event>)

  const Zero: Tally := Tally(0, 0, 0, 0, [])

  /** The options, today's midnight in ticks, and the paths whose delete throws. */
  datatype Env = Env(config: Config, today: int, failing: set<Path>)

  /** Part of a directory processed: the entries still there, and the tally. */
  datatype Progress<T> = Progress(done: seq<T>, tally: Tally)

  /** A directory processed: what is left of it, whether it was removed, and the tally. */
  datatype Outcome = Outcome(dir: Dir, removed: bool, tally: Tally)

  /** What decides whether a file is deleted: the filter, the age threshold, today. */
  datatype Rule = Rule(filter: Option<string>, maxAge: int, today: int)

  /** The delete of the entry at `p` throws: a real run and a failing path. */
  predicate Fails(env: Env, p: Path) {
    !env.config.simulate && p in env.failing
  }

  function RuleOf(env: Env): Rule {
    Rule(env.config.filter, env.config.maxAge, env.today)
  }

  function AgeOf(rule: Rule, f: File): int {
    Age(rule.today, f.lastWrite, f.created)
  }

  /** A deletion candidate: it passes the filter (if one is set) and is at
      least `maxAge` days old. */
  predicate Selected(rule: Rule, f: File) {
    (rule.filter.None? || Matches(rule.filter.value, f.name)) && AgeOf(rule, f) >= rule.maxAge
  }

  /** One file of the directory at `dir`. */
  function FileStep(env: Env, dir: Path, f: File, p: Progress<File>): Progress<File> {
    var t := p.tally;
    var path := dir + [f.name];
    if !Selected(RuleOf(env), f) then
      Progress(p.done + [f], t)
    else if Fails(env, path) then
      Progress(p.done + [f], t.(errors := t.errors + 1, events := t.events + [FileError(path)]))
    else
      Progress(if env.config.simulate then p.done + [f] else p.done,
        t.(files := t.files + 1, size := t.size + f.length,
           events := t.events + [DeletedFile(path, AgeOf(RuleOf(env), f), f.length)]))
  }

  /** The files `fs` of the directory at `dir`, in order. */
  function Files(env: Env, dir: Path, fs: seq<File>, t: Tally): Progress<File> {
    if fs == [] then Progress([], t)
    else FileStep(env, dir, fs[|fs| - 1], Files(env, dir, fs[..|fs| - 1], t))
  }

  /** The directory `d` at `path`: subdirectories, files, then the emptiness check. */
  function CleanDir(env: Env, path: Path, d: Dir, t: Tally): Outcome
    decreases d, |d.subdirs| + 1
  {
    var subs := Subdirs(env, path, d, |d.subdirs|, t);
    var files := Files(env, path, d.files, subs.tally);
    var left := Dir(d.name, files.done, subs.done);
    var u := files.tally;
    if env.config.deleteEmpty && path != [] && files.done == [] && subs.done == [] then
      if Fails(env, path) then
        Outcome(left, false, u.(errors := u.errors + 1, events := u.events + [DirError(path)]))
      else
        Outcome(left, !env.config.simulate,
          u.(directories := u.directories + 1, events := u.events + [DeletedDir(path)]))
    else
      Outcome(left, false, u)
  }

  /** The first `k` subdirectories of `d`: each one cleaned when `/R` is given
      (and dropped from the listing if that removed it), left alone otherwise. */
  function Subdirs(env: Env, path: Path, d: Dir, k: nat, t: Tally): Progress<Dir>
    requires k <= |d.subdirs|
    decreases d, k
  {
    if k == 0 then Progress([], t)
    else
      var p := Subdirs(env, path, d, k - 1, t);
      var sub := d.subdirs[k - 1];
      if env.config.recurse then
        var o := CleanDir(env, path + [sub.name], sub, p.tally);
        Progress(if o.removed then p.done else p.done + [o.dir], o.tally)
      else
        Progress(p.done + [sub], p.tally)
  }
}
