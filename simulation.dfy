/** How a `/SIM` run compares with the run it stands in for. */
module Simulation {
  import opened Arguments
  import opened Traversal
  import opened TraversalProperties
  import opened DirRemoval

  /** Two runs that select files alike and recurse alike, and in which no
      delete fails, count the same number of files. */
  lemma SameRuleSameFiles(e1: Env, e2: Env, path: Path, d: Dir, t: Tally)
    requires Unfailing(e1) && Unfailing(e2)
    requires RuleOf(e1) == RuleOf(e2) && e1.config.recurse == e2.config.recurse
    ensures CleanDir(e1, path, d, t).tally.files == CleanDir(e2, path, d, t).tally.files
  {
    CleanDirCounts(e1, path, d, t);
    CleanDirCounts(e2, path, d, t);
  }

  /** The same two runs count the same number of bytes. */
  lemma SameRuleSameBytes(e1: Env, e2: Env, path: Path, d: Dir, t: Tally)
    requires Unfailing(e1) && Unfailing(e2)
    requires RuleOf(e1) == RuleOf(e2) && e1.config.recurse == e2.config.recurse
    ensures CleanDir(e1, path, d, t).tally.size == CleanDir(e2, path, d, t).tally.size
  {
    CleanDirCounts(e1, path, d, t);
    CleanDirCounts(e2, path, d, t);
  }

  /** `/SIM` reports the same number of files and bytes as the real run
      deletes when none of its deletes fails. */
  lemma SimulationCountsLikeRealRun(config: Config, today: int, failing: set<Path>, d: Dir, t: Tally)
    requires !config.simulate
    ensures CleanDir(Env(config.(simulate := true), today, failing), [], d, t).tally.files ==
            CleanDir(Env(config, today, {}), [], d, t).tally.files
    ensures CleanDir(Env(config.(simulate := true), today, failing), [], d, t).tally.size ==
            CleanDir(Env(config, today, {}), [], d, t).tally.size
  {
    SameRuleSameFiles(Env(config.(simulate := true), today, failing), Env(config, today, {}), [], d, t);
    SameRuleSameBytes(Env(config.(simulate := true), today, failing), Env(config, today, {}), [], d, t);
  }

  /** Under `/SIM` nothing is deleted, so a directory's line is written
      exactly when `/D` is given, it is not the root, and it was empty to
      begin with; and it is never an error. */
  lemma SimulatedDirLines(env: Env, path: Path, d: Dir, t: Tally)
    requires env.config.simulate
    ensures var u := CleanDir(env, path, d, t).tally;
      (exists i :: |t.events| <= i < |u.events| && IsDirLine(u.events[i], path)) <==>
        env.config.deleteEmpty && path != [] && d.files == [] && d.subdirs == []
    ensures var u := CleanDir(env, path, d, t).tally;
      forall i :: |t.events| <= i < |u.events| && IsDirLine(u.events[i], path) ==> u.events[i].DeletedDir?
  {
    CleanDirSimulated(env, path, d, t);
    DirLineWhenEmptied(env, path, d, t);
  }
}
