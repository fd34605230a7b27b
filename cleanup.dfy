/**
 * The program itself: the class holding the counters that `Program` keeps in
 * static fields, its recursive `CleanupDirectory`, and `Run`, which is `Main`
 * without its console and log output.
 */
module Cleanup {
  import opened Wrappers
  import opened Arguments
  import opened Traversal
  import opened TraversalProperties

  class Cleaner {
    const env: Env
    var totalFiles: int
    var totalSize: int
    var totalDirectories: int
    var totalErrors: int
    var events: seq<Event>

    function Totals(): Tally
      reads this
    {
      Tally(totalFiles, totalSize, totalDirectories, totalErrors, events)
    }

    constructor (env: Env)
      ensures this.env == env && Totals() == Zero
    {
      this.env := env;
      totalFiles, totalSize, totalDirectories, totalErrors := 0, 0, 0, 0;
      events := [];
    }

    /** Cleans the directory `dir` found at `path` and returns what is left of
        it and whether it was removed; the counters and lines move as
        `CleanDir` says. */
    method CleanupDirectory(dir: Dir, path: Path) returns (after: Dir, removed: bool)
      modifies this
      ensures Outcome(after, removed, Totals()) == CleanDir(env, path, dir, old(Totals()))
      decreases dir
    {
      var subs: seq<Dir> := [];
      var i := 0;
      while i < |dir.subdirs|
        invariant 0 <= i <= |dir.subdirs|
        invariant Subdirs(env, path, dir, i, old(Totals())) == Progress(subs, Totals())
      {
        var sub := dir.subdirs[i];
        if env.config.recurse {
          var left, gone := CleanupDirectory(sub, path + [sub.name]);
          if !gone {
            subs := subs + [left];
          }
        } else {
          subs := subs + [sub];
        }
        i := i + 1;
      }

      ghost var mid := Totals();
      var kept: seq<File> := [];
      var j := 0;
      while j < |dir.files|
        invariant 0 <= j <= |dir.files|
        invariant Files(env, path, dir.files[..j], mid) == Progress(kept, Totals())
      {
        assert dir.files[..j + 1][..j] == dir.files[..j];
        kept := HandleFile(dir.files[j], path, kept);
        j := j + 1;
      }
      assert dir.files[..j] == dir.files;

      after := Dir(dir.name, kept, subs);
      removed := false;
      if env.config.deleteEmpty && path != [] && |kept| == 0 && |subs| == 0 {
        if Fails(env, path) {
          events := events + [DirError(path)];
          totalErrors := totalErrors + 1;
        } else {
          removed := !env.config.simulate;
          totalDirectories := totalDirectories + 1;
          events := events + [DeletedDir(path)];
        }
      }
    }

    /** One file of the directory at `path`: skipped when the filter rejects
        its name or it is too young, otherwise deleted (unless simulating) and
        counted, or counted as an error when its delete throws. `kept` is the
        list of files still there, which the file joins unless deleted. */
    method HandleFile(file: File, path: Path, kept: seq<File>) returns (kept': seq<File>)
      modifies this
      ensures Progress(kept', Totals()) == FileStep(env, path, file, Progress(kept, old(Totals())))
    {
      var filePath := path + [file.name];
      var age := AgeOf(RuleOf(env), file);
      kept' := kept + [file];
      if env.config.filter.Some? && !Glob.Matches(env.config.filter.value, file.name) {
        return;
      }
      if age >= env.config.maxAge {
        if Fails(env, filePath) {
          events := events + [FileError(filePath)];
          totalErrors := totalErrors + 1;
        } else {
          events := events + [DeletedFile(filePath, age, file.length)];
          totalSize := totalSize + file.length;
          totalFiles := totalFiles + 1;
          if !env.config.simulate {
            kept' := kept;
          }
        }
      }
    }
  }

  /** How `Main` ends: with the usage text, because the directory does not
      exist, or after the walk, with the tree left behind and the totals. */
  datatype RunResult =
    | ShowedUsage(why: UsageError)
    | MissingDirectory(root: string)
    | Finished(tree: Dir, totals: Tally)
    | NullLogFile

  /** `Main` on the arguments `args`; `tree` is the directory they name, if it exists. */
  function RunSpec(args: seq<string>, tree: Option<Dir>, today: int, failing: set<Path>): RunResult {
    match Parse(args)
    case Usage(why) => ShowedUsage(why)
    case Ok(config) =>
      if tree.None? then MissingDirectory(config.root)
      else
        var o := CleanDir(Env(config, today, failing), [], tree.value, Zero);
        Finished(o.dir, o.tally)
  }

  /** `Main` as written: `Output` hands every line to `Log`, which writes to
      `logFile` unconditionally, and `logFile` is only opened under `/LOG`.
      Without it the first `Output`, before the walk, dereferences null. */
  function RunAsWritten(args: seq<string>, tree: Option<Dir>, today: int, failing: set<Path>): RunResult {
    match Parse(args)
    case Usage(why) => ShowedUsage(why)
    case Ok(config) =>
      if tree.None? then MissingDirectory(config.root)
      else if !config.log then NullLogFile
      else RunSpec(args, tree, today, failing)
  }

  /** As written, a run over an existing directory gets as far as the walk
      only when `/LOG` is given; otherwise both versions agree. */
  lemma RunAsWrittenNeedsLog(args: seq<string>, tree: Option<Dir>, today: int, failing: set<Path>)
    ensures RunAsWritten(args, tree, today, failing).NullLogFile? <==>
      Parse(args).Ok? && tree.Some? && !Parse(args).config.log
    ensures !RunAsWritten(args, tree, today, failing).NullLogFile? ==>
      RunAsWritten(args, tree, today, failing) == RunSpec(args, tree, today, failing)
  {
  }

  /** `Cleanup C:\Temp 30`, the plainest call there is, never reaches the walk
      as written, while the intended run finishes. */
  lemma PlainCallCrashes(d: Dir, today: int)
    ensures RunAsWritten(["C:\\Temp", "30"], Some(d), today, {}) == NullLogFile
    ensures RunSpec(["C:\\Temp", "30"], Some(d), today, {}).Finished?
  {
    var args := ["C:\\Temp", "30"];
    assert DigitsValue("3") == 3;
    assert "30"[..1] == "3";
    assert ParseInt("30") == Some(30);
    assert Upper(args[0])[0] == 'C' && Upper(args[1])[0] == '3';
    var c := Initial(args[0], 30);
    assert args[..1] == [args[0]] && args[..2] == args;
    assert ClassifyAll(c, args[..1], args[0], args[1]) == Scanned(c);
    assert ClassifyAll(c, args, args[0], args[1]) == Scanned(c);
  }

  /** A run that finishes has counters that agree with its lines, never
      removes the root, and under `/SIM` leaves the tree as it found it. */
  lemma FinishedRun(args: seq<string>, tree: Option<Dir>, today: int, failing: set<Path>)
    ensures RunSpec(args, tree, today, failing).Finished? ==>
      && Consistent(RunSpec(args, tree, today, failing).totals)
      && !CleanDir(Env(Parse(args).config, today, failing), [], tree.value, Zero).removed
      && (Parse(args).config.simulate ==> RunSpec(args, tree, today, failing).tree == tree.value)
  {
    if Parse(args).Ok? && tree.Some? {
      FinishedWalk(Env(Parse(args).config, today, failing), tree.value);
    }
  }

  lemma FinishedWalk(env: Env, d: Dir)
    ensures Consistent(CleanDir(env, [], d, Zero).tally)
    ensures !CleanDir(env, [], d, Zero).removed
    ensures env.config.simulate ==> CleanDir(env, [], d, Zero).dir == d
  {
    CleanDirConsistent(env, [], d, Zero);
    RootNeverDeleted(env, d, Zero);
    if env.config.simulate {
      CleanDirSimulated(env, [], d, Zero);
    }
  }

  method Run(args: seq<string>, tree: Option<Dir>, today: int, failing: set<Path>) returns (r: RunResult)
    ensures r == RunSpec(args, tree, today, failing)
  {
    var parsed := ParseArguments(args);
    if parsed.Usage? {
      return ShowedUsage(parsed.why);
    }
    var config := parsed.config;
    if tree.None? {
      return MissingDirectory(config.root);
    }
    var cleaner := new Cleaner(Env(config, today, failing));
    var left, removed := cleaner.CleanupDirectory(tree.value, []);
    r := Finished(left, cleaner.Totals());
  }
}
