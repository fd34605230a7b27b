/**
 * The `/F:` name filter. The program escapes the filter text as a regular
 * expression, turns each `*` into `.+` and each `?` into `.`, anchors it with
 * `^...$` and tests file names with a case-sensitive `Regex.IsMatch`.
 * `Matches` is that test written as a direct recursive glob matcher;
 * `Compile` and `Denotes` are the regular expression the program builds and
 * its meaning, and `MatchesIffDenotes` shows the two agree on every name.
 */
module Glob {

  /** Whether the whole of `name` fits `pattern`: `*` takes one or more
      characters, `?` exactly one, anything else itself (case-sensitively). */
  predicate Matches(pattern: string, name: string)
    decreases |pattern| + |name|
  {
    if pattern == [] then name == []
    else if name == [] then false
    else if pattern[0] == '*' then Matches(pattern[1..], name[1..]) || Matches(pattern, name[1..])
    else if pattern[0] == '?' then Matches(pattern[1..], name[1..])
    else pattern[0] == name[0] && Matches(pattern[1..], name[1..])
  }

  /** One element of the compiled regular expression: an escaped literal,
      `.` (any one character) or `.+` (a run of one or more characters). */
  datatype Token = Literal(c: char) | AnyOne | AnyRun

  function TokenOf(c: char): Token {
    if c == '*' then AnyRun else if c == '?' then AnyOne else Literal(c)
  }

  /** The anchored expression built from a filter: every character escaped to
      a literal, except that `\*` becomes `.+` and `\?` becomes `.`. */
  function Compile(pattern: string): seq<Token> {
    seq(|pattern|, i requires 0 <= i < |pattern| => TokenOf(pattern[i]))
  }

  /** The strings an anchored token sequence matches, stated by splitting the
      string: a run token claims some non-empty prefix. */
  ghost predicate Denotes(re: seq<Token>, s: string)
    decreases |re|
  {
    if re == [] then s == []
    else match re[0]
      case Literal(c) => s != [] && s[0] == c && Denotes(re[1..], s[1..])
      case AnyOne => s != [] && Denotes(re[1..], s[1..])
      case AnyRun => exists k :: 1 <= k <= |s| && Denotes(re[1..], s[k..])
  }

  lemma CompileTail(pattern: string)
    requires pattern != []
    ensures Compile(pattern)[0] == TokenOf(pattern[0])
    ensures Compile(pattern)[1..] == Compile(pattern[1..])
  {
  }

  /** The matcher accepts exactly the names the compiled expression accepts. */
  lemma {:induction false} MatchesIffDenotes(pattern: string, name: string)
    ensures Matches(pattern, name) <==> Denotes(Compile(pattern), name)
    decreases |pattern| + |name|
  {
    if pattern != [] {
      var re := Compile(pattern);
      CompileTail(pattern);
      if name == [] {
        if pattern[0] != '*' && pattern[0] != '?' {
          assert re[0] == Literal(pattern[0]);
        }
      } else if pattern[0] == '*' {
        MatchesIffDenotes(pattern[1..], name[1..]);
        MatchesIffDenotes(pattern, name[1..]);
        if Matches(pattern, name) {
          if Matches(pattern[1..], name[1..]) {
            assert Denotes(re[1..], name[1..]);
          } else {
            var k :| 1 <= k <= |name[1..]| && Denotes(re[1..], name[1..][k..]);
            assert name[1..][k..] == name[k + 1..];
          }
        }
        if Denotes(re, name) {
          var k :| 1 <= k <= |name| && Denotes(re[1..], name[k..]);
          if k > 1 {
            assert name[1..][k - 1..] == name[k..];
            assert Denotes(re, name[1..]);
          }
        }
      } else {
        MatchesIffDenotes(pattern[1..], name[1..]);
      }
    }
  }

  predicate HasNoStar(pattern: string) {
    forall i :: 0 <= i < |pattern| ==> pattern[i] != '*'
  }

  /** Every pattern character consumes at least one name character, and
      without `*` exactly one: `*.log` needs at least five characters. */
  lemma {:induction false} MatchLength(pattern: string, name: string)
    requires Matches(pattern, name)
    ensures |name| >= |pattern|
    ensures HasNoStar(pattern) ==> |name| == |pattern|
    decreases |pattern| + |name|
  {
    if pattern != [] {
      if pattern[0] == '*' {
        if Matches(pattern[1..], name[1..]) {
          MatchLength(pattern[1..], name[1..]);
        } else {
          MatchLength(pattern, name[1..]);
        }
      } else {
        MatchLength(pattern[1..], name[1..]);
      }
    }
  }

  predicate IsLiteral(pattern: string) {
    forall i :: 0 <= i < |pattern| ==> pattern[i] != '*' && pattern[i] != '?'
  }

  /** A filter without wildcards matches only the identical name: the
      comparison is exact and case-sensitive. */
  lemma {:induction false} LiteralMatchesItselfOnly(pattern: string, name: string)
    requires IsLiteral(pattern)
    ensures Matches(pattern, name) <==> name == pattern
    decreases |pattern|
  {
    if pattern != [] && name != [] {
      LiteralMatchesItselfOnly(pattern[1..], name[1..]);
      if name == pattern {
        assert name[1..] == pattern[1..];
      }
      if Matches(pattern, name) {
        assert name == [name[0]] + name[1..];
        assert pattern == [pattern[0]] + pattern[1..];
      }
    }
  }

  /** A lone `*` is satisfied by every non-empty name and never by the empty one. */
  lemma {:induction false} StarNeedsOneCharacter(name: string)
    ensures Matches("*", name) <==> |name| >= 1
    decreases |name|
  {
    if |name| > 1 {
      StarNeedsOneCharacter(name[1..]);
    }
  }

  /** `*.log` accepts `app.log` but neither `.log` nor `app.LOG`. */
  lemma LogPatternExamples()
    ensures Matches("*.log", "app.log")
    ensures !Matches("*.log", ".log")
    ensures !Matches("*.log", "app.LOG")
  {
    assert Matches("*.log"[1..], "app.log"[3..]);
    assert Matches("*.log", "app.log"[2..]);
    assert Matches("*.log", "app.log"[1..]);
    if Matches("*.log", ".log") {
      MatchLength("*.log", ".log");
    }
    assert !Matches(".log", "p.LOG") && !Matches(".log", "LOG") && !Matches(".log", "OG");
  }
}
