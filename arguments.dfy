/**
 * Command-line classification in `Main`: `args[0]` is the directory, `args[1]`
 * the maximum age, and every argument (those two included) is then checked,
 * upper-cased, against the flags `/D`, `/R`, `/SIM`, `/LOG`, `/LOG:file` and
 * `/F:filter`. An argument that is no flag and is neither `args[0]` nor
 * `args[1]` stops the program with the usage text.
 */
module Arguments {
  import opened Wrappers

  /** The options the program keeps in static fields. `logName` and `filter`
      are `None` where the source leaves the field `null`. */
  datatype Config = Config(
    root: string,
    maxAge: int,
    deleteEmpty: bool,
    recurse: bool,
    simulate: bool,
    log: bool,
    logName: Option<string>,
    filter: Option<string>)

  datatype UsageError = MissingArguments | InvalidAge | IncorrectParameter(arg: string)

  datatype Parsed = Usage(why: UsageError) | Ok(config: Config)

  /** The outcome of checking a run of arguments one by one. */
  datatype Scan = Scanned(config: Config) | Rejected(arg: string)

  const DefaultLogName: string := "Cleanup.log"

  /** Upper-casing, restricted to ASCII letters. */
  function UpperChar(c: char): char {
    if 'a' <= c <= 'z' then (c as int - 32) as char else c
  }

  function Upper(s: string): string {
    seq(|s|, i requires 0 <= i < |s| => UpperChar(s[i]))
  }

  predicate StartsWith(s: string, prefix: string) {
    |prefix| <= |s| && s[..|prefix|] == prefix
  }

  // ---------------------------------------------------------------------------
  // int.Parse: an optional sign and one or more decimal digits, within 32 bits
  // ---------------------------------------------------------------------------

  predicate IsDigit(c: char) {
    '0' <= c <= '9'
  }

  predicate IsDigits(s: string) {
    |s| > 0 && forall i :: 0 <= i < |s| ==> IsDigit(s[i])
  }

  function DigitValue(c: char): nat
    requires IsDigit(c)
  {
    c as int - '0' as int
  }

  /** The number a string of digits spells, most significant digit first. */
  function DigitsValue(s: string): nat
    requires forall i :: 0 <= i < |s| ==> IsDigit(s[i])
  {
    if s == [] then 0 else 10 * DigitsValue(s[..|s| - 1]) + DigitValue(s[|s| - 1])
  }

  predicate IsInt32(n: int) {
    -0x8000_0000 <= n < 0x8000_0000
  }

  function ParseInt(s: string): (r: Option<int>)
    ensures r.Some? ==> IsInt32(r.value)
  {
    if |s| > 0 && (s[0] == '-' || s[0] == '+') then
      if !IsDigits(s[1..]) then None
      else
        var n: int := if s[0] == '-' then -(DigitsValue(s[1..]) as int) else DigitsValue(s[1..]);
        if IsInt32(n) then Some(n) else None
    else if IsDigits(s) && IsInt32(DigitsValue(s)) then Some(DigitsValue(s))
    else None
  }

  function DigitChar(d: nat): char
    requires d < 10
  {
    ('0' as int + d) as char
  }

  /** The decimal digits of a natural number, without leading zeros. */
  function Digits(n: nat): (s: string)
    ensures IsDigits(s)
  {
    if n < 10 then [DigitChar(n)] else Digits(n / 10) + [DigitChar(n % 10)]
  }

  lemma {:induction false} DigitsValueOfDigits(n: nat)
    ensures DigitsValue(Digits(n)) == n
  {
    if n >= 10 {
      var s := Digits(n);
      assert s[..|s| - 1] == Digits(n / 10);
      DigitsValueOfDigits(n / 10);
    }
  }

  /** The decimal text of a number. */
  function Decimal(n: int): string {
    if n < 0 then "-" + Digits(-n) else Digits(n)
  }

  /** Every 32-bit number written in decimal reads back as itself. */
  lemma ParseDecimal(n: int)
    requires IsInt32(n)
    ensures ParseInt(Decimal(n)) == Some(n)
  {
    if n < 0 {
      assert Decimal(n)[1..] == Digits(-n);
      DigitsValueOfDigits(-n);
    } else {
      DigitsValueOfDigits(n);
      assert Digits(n)[0] != '-' && Digits(n)[0] != '+';
    }
  }

  // ---------------------------------------------------------------------------
  // The flags
  // ---------------------------------------------------------------------------

  predicate IsLogFlag(x: string) {
    StartsWith(Upper(x), "/LOG")
  }

  predicate IsFilterFlag(x: string) {
    StartsWith(Upper(x), "/F:")
  }

  predicate IsFlag(x: string) {
    var u := Upper(x);
    u == "/D" || u == "/R" || u == "/SIM" || IsLogFlag(x) || IsFilterFlag(x)
  }

  /** An argument the program rejects: no flag, and neither of the first two. */
  predicate IsStray(x: string, first: string, second: string) {
    !IsFlag(x) && x != first && x != second
  }

  /** The log file a `/LOG` argument names: the text after `/LOG:`, or the default. */
  function LogNameOf(x: string): string
    requires IsLogFlag(x)
  {
    if StartsWith(Upper(x), "/LOG:") then x[5..] else DefaultLogName
  }

  /** The filter a `/F:` argument sets: the text after the colon, case kept. */
  function FilterOf(x: string): string
    requires IsFilterFlag(x)
  {
    x[3..]
  }

  /** One pass of the argument loop: the options after argument `x`, or
      `None` where the program shows the usage text. */
  function Classify(c: Config, x: string, first: string, second: string): (r: Option<Config>)
    ensures r.None? <==> IsStray(x, first, second)
  {
    var u := Upper(x);
    if u == "/D" then Some(c.(deleteEmpty := true))
    else if u == "/R" then Some(c.(recurse := true))
    else if u == "/SIM" then Some(c.(simulate := true))
    else if IsLogFlag(x) then Some(c.(log := true, logName := Some(LogNameOf(x))))
    else if IsFilterFlag(x) then Some(c.(filter := Some(FilterOf(x))))
    else if x != first && x != second then None
    else Some(c)
  }

  /** The argument loop over `xs`, in order, stopping at the first stray argument. */
  function ClassifyAll(c: Config, xs: seq<string>, first: string, second: string): Scan
  {
    if xs == [] then Scanned(c)
    else
      match ClassifyAll(c, xs[..|xs| - 1], first, second)
      case Rejected(a) => Rejected(a)
      case Scanned(c') =>
        match Classify(c', xs[|xs| - 1], first, second)
        case None => Rejected(xs[|xs| - 1])
        case Some(c'') => Scanned(c'')
  }

  /** Once a prefix of the arguments is rejected, the whole run is, for the same argument. */
  lemma {:induction false} RejectionIsFinal(c: Config, xs: seq<string>, n: nat, first: string, second: string)
    requires n <= |xs| && ClassifyAll(c, xs[..n], first, second).Rejected?
    ensures ClassifyAll(c, xs, first, second) == ClassifyAll(c, xs[..n], first, second)
    decreases |xs| - n
  {
    if n < |xs| {
      assert xs[..n + 1][..n] == xs[..n];
      RejectionIsFinal(c, xs, n + 1, first, second);
    } else {
      assert xs[..n] == xs;
    }
  }

  /** The flags are told apart by their text: at most one branch applies. */
  lemma FlagsExclusive(x: string)
    ensures IsLogFlag(x) ==> Upper(x) != "/D" && Upper(x) != "/R" && Upper(x) != "/SIM"
    ensures IsFilterFlag(x) ==> Upper(x) != "/D" && Upper(x) != "/R" && Upper(x) != "/SIM" && !IsLogFlag(x)
  {
    var u := Upper(x);
    if IsLogFlag(x) {
      assert u[1] == 'L' && u[2] == 'O';
    }
    if IsFilterFlag(x) {
      assert u[1] == 'F' && u[2] == ':';
    }
  }

  /** The options before the loop: every flag off, no log name, no filter. */
  function Initial(root: string, maxAge: int): Config {
    Config(root, maxAge, false, false, false, false, None, None)
  }

  /** What `Main` makes of its arguments: a usage failure (a missing argument,
      an age `int.Parse` refuses, a stray argument) or the options. */
  function Parse(args: seq<string>): Parsed {
    if |args| < 2 then Usage(MissingArguments)
    else
      match ParseInt(args[1])
      case None => Usage(InvalidAge)
      case Some(age) =>
        match ClassifyAll(Initial(args[0], age), args, args[0], args[1])
        case Rejected(x) => Usage(IncorrectParameter(x))
        case Scanned(c) => Ok(c)
  }

  /** The argument loop of `Main`, one argument at a time. */
  method ParseArguments(args: seq<string>) returns (r: Parsed)
    ensures r == Parse(args)
  {
    if |args| < 2 {
      return Usage(MissingArguments);
    }
    var age := ParseInt(args[1]);
    if age.None? {
      return Usage(InvalidAge);
    }
    var c := Initial(args[0], age.value);
    var i := 0;
    while i < |args|
      invariant 0 <= i <= |args|
      invariant ClassifyAll(Initial(args[0], age.value), args[..i], args[0], args[1]) == Scanned(c)
    {
      var x := args[i];
      var u := Upper(x);
      assert args[..i + 1][..i] == args[..i];
      if u == "/D" {
        c := c.(deleteEmpty := true);
      } else if u == "/R" {
        c := c.(recurse := true);
      } else if u == "/SIM" {
        c := c.(simulate := true);
      } else if StartsWith(u, "/LOG") {
        c := c.(log := true);
        if StartsWith(u, "/LOG:") {
          c := c.(logName := Some(x[5..]));
        } else {
          c := c.(logName := Some(DefaultLogName));
        }
      } else if StartsWith(u, "/F:") {
        c := c.(filter := Some(x[3..]));
      } else if x != args[0] && x != args[1] {
        RejectionIsFinal(Initial(args[0], age.value), args, i + 1, args[0], args[1]);
        return Usage(IncorrectParameter(x));
      }
      i := i + 1;
    }
    assert args[..i] == args;
    r := Ok(c);
  }

  // ---------------------------------------------------------------------------
  // What the parse promises
  // ---------------------------------------------------------------------------

  /** The loop rejects exactly when some argument is stray, and then names the first. */
  lemma {:induction false} ClassifyAllRejects(c: Config, xs: seq<string>, first: string, second: string)
    ensures ClassifyAll(c, xs, first, second).Rejected? <==>
      exists i :: 0 <= i < |xs| && IsStray(xs[i], first, second)
    ensures ClassifyAll(c, xs, first, second).Rejected? ==>
      exists i :: 0 <= i < |xs| && IsStray(xs[i], first, second) &&
        ClassifyAll(c, xs, first, second).arg == xs[i] &&
        forall j :: 0 <= j < i ==> !IsStray(xs[j], first, second)
    decreases |xs|
  {
    if xs != [] {
      var init := xs[..|xs| - 1];
      ClassifyAllRejects(c, init, first, second);
      assert forall i :: 0 <= i < |init| ==> init[i] == xs[i];
      if ClassifyAll(c, init, first, second).Rejected? {
        var i :| 0 <= i < |init| && IsStray(init[i], first, second) &&
          ClassifyAll(c, init, first, second).arg == init[i] &&
          forall j :: 0 <= j < i ==> !IsStray(init[j], first, second);
        assert IsStray(xs[i], first, second);
      } else if ClassifyAll(c, xs, first, second).Rejected? {
        assert IsStray(xs[|xs| - 1], first, second);
      } else {
        assert !IsStray(xs[|xs| - 1], first, second);
        forall i | 0 <= i < |xs| ensures !IsStray(xs[i], first, second) {
          if i < |init| { assert xs[i] == init[i]; }
        }
      }
    }
  }

  /** Usage is shown exactly when an argument is missing, the age is no
      32-bit integer, or some argument is stray. */
  lemma ParseFailsIff(args: seq<string>)
    ensures Parse(args).Usage? <==>
      |args| < 2 || ParseInt(args[1]).None? ||
      exists i :: 0 <= i < |args| && IsStray(args[i], args[0], args[1])
  {
    if |args| >= 2 && ParseInt(args[1]).Some? {
      ClassifyAllRejects(Initial(args[0], ParseInt(args[1]).value), args, args[0], args[1]);
    }
  }

  /** A scan keeps the directory and the age, and turns a switch on exactly
      when some argument, in any letter case, is that switch. */
  lemma {:induction false} ClassifyAllSwitches(root: string, age: int, xs: seq<string>, first: string, second: string)
    requires ClassifyAll(Initial(root, age), xs, first, second).Scanned?
    ensures var c := ClassifyAll(Initial(root, age), xs, first, second).config;
      && c.root == root && c.maxAge == age
      && (c.deleteEmpty <==> exists i :: 0 <= i < |xs| && Upper(xs[i]) == "/D")
      && (c.recurse <==> exists i :: 0 <= i < |xs| && Upper(xs[i]) == "/R")
      && (c.simulate <==> exists i :: 0 <= i < |xs| && Upper(xs[i]) == "/SIM")
      && (c.log <==> exists i :: 0 <= i < |xs| && IsLogFlag(xs[i]))
    decreases |xs|
  {
    if xs != [] {
      var init, last := xs[..|xs| - 1], xs[|xs| - 1];
      ClassifyAllSwitches(root, age, init, first, second);
      ClassifySwitches(ClassifyAll(Initial(root, age), init, first, second).config, last, first, second);
      SomeUpper(xs, init, "/D");
      SomeUpper(xs, init, "/R");
      SomeUpper(xs, init, "/SIM");
      SomeLogFlag(xs, init);
    }
  }

  /** Some argument upper-cases to `s` exactly when one before the last does or the last does. */
  lemma SomeUpper(xs: seq<string>, init: seq<string>, s: string)
    requires xs != [] && init == xs[..|xs| - 1]
    ensures (exists i :: 0 <= i < |xs| && Upper(xs[i]) == s) <==>
      (exists i :: 0 <= i < |init| && Upper(init[i]) == s) || Upper(xs[|xs| - 1]) == s
  {
    if exists i :: 0 <= i < |xs| && Upper(xs[i]) == s {
      var i :| 0 <= i < |xs| && Upper(xs[i]) == s;
      if i < |init| {
        assert init[i] == xs[i];
      }
    }
    if exists i :: 0 <= i < |init| && Upper(init[i]) == s {
      var i :| 0 <= i < |init| && Upper(init[i]) == s;
      assert xs[i] == init[i];
    }
  }

  /** Some argument is a `/LOG` flag exactly when one before the last is or the last is. */
  lemma SomeLogFlag(xs: seq<string>, init: seq<string>)
    requires xs != [] && init == xs[..|xs| - 1]
    ensures (exists i :: 0 <= i < |xs| && IsLogFlag(xs[i])) <==>
      (exists i :: 0 <= i < |init| && IsLogFlag(init[i])) || IsLogFlag(xs[|xs| - 1])
  {
    if exists i :: 0 <= i < |xs| && IsLogFlag(xs[i]) {
      var i :| 0 <= i < |xs| && IsLogFlag(xs[i]);
      if i < |init| {
        assert init[i] == xs[i];
      }
    }
    if exists i :: 0 <= i < |init| && IsLogFlag(init[i]) {
      var i :| 0 <= i < |init| && IsLogFlag(init[i]);
      assert xs[i] == init[i];
    }
  }

  /** One accepted argument keeps the directory and the age, and turns a
      switch on exactly when it is that switch; no switch is turned off. */
  lemma ClassifySwitches(c: Config, x: string, first: string, second: string)
    requires Classify(c, x, first, second).Some?
    ensures var c' := Classify(c, x, first, second).value;
      && c'.root == c.root && c'.maxAge == c.maxAge
      && (c'.deleteEmpty <==> c.deleteEmpty || Upper(x) == "/D")
      && (c'.recurse <==> c.recurse || Upper(x) == "/R")
      && (c'.simulate <==> c.simulate || Upper(x) == "/SIM")
      && (c'.log <==> c.log || IsLogFlag(x))
  {
    FlagsExclusive(x);
  }

  /** The last filter argument decides the filter; none leaves it unset. */
  lemma {:induction false} ClassifyAllFilter(root: string, age: int, xs: seq<string>, first: string, second: string)
    requires ClassifyAll(Initial(root, age), xs, first, second).Scanned?
    ensures var c := ClassifyAll(Initial(root, age), xs, first, second).config;
      && (c.filter.None? <==> forall i :: 0 <= i < |xs| ==> !IsFilterFlag(xs[i]))
      && forall i :: 0 <= i < |xs| && IsFilterFlag(xs[i]) ==>
           (forall j :: i < j < |xs| ==> !IsFilterFlag(xs[j])) ==> c.filter == Some(FilterOf(xs[i]))
    decreases |xs|
  {
    if xs != [] {
      var init := xs[..|xs| - 1];
      assert forall i :: 0 <= i < |init| ==> init[i] == xs[i];
      ClassifyAllFilter(root, age, init, first, second);
      ClassifyOptions(ClassifyAll(Initial(root, age), init, first, second).config, xs[|xs| - 1], first, second);
    }
  }

  /** The last `/LOG` argument decides the log file; none leaves it unset. */
  lemma {:induction false} ClassifyAllLogName(root: string, age: int, xs: seq<string>, first: string, second: string)
    requires ClassifyAll(Initial(root, age), xs, first, second).Scanned?
    ensures var c := ClassifyAll(Initial(root, age), xs, first, second).config;
      && (c.logName.None? <==> forall i :: 0 <= i < |xs| ==> !IsLogFlag(xs[i]))
      && forall i :: 0 <= i < |xs| && IsLogFlag(xs[i]) ==>
           (forall j :: i < j < |xs| ==> !IsLogFlag(xs[j])) ==> c.logName == Some(LogNameOf(xs[i]))
    decreases |xs|
  {
    if xs != [] {
      var init, last := xs[..|xs| - 1], xs[|xs| - 1];
      assert forall i :: 0 <= i < |init| ==> init[i] == xs[i];
      ClassifyAllLogName(root, age, init, first, second);
      var c0 := ClassifyAll(Initial(root, age), init, first, second).config;
      var c := ClassifyAll(Initial(root, age), xs, first, second).config;
      assert c == Classify(c0, last, first, second).value;
      ClassifyOptions(c0, last, first, second);
      forall i | 0 <= i < |xs| && IsLogFlag(xs[i]) && (forall j :: i < j < |xs| ==> !IsLogFlag(xs[j]))
        ensures c.logName == Some(LogNameOf(xs[i]))
      {
        if i < |init| {
          assert !IsLogFlag(last);
        }
      }
    }
  }

  /** One accepted argument sets the log file exactly when it is a `/LOG`
      argument and the filter exactly when it is an `/F:` argument, and
      leaves each alone otherwise. */
  lemma ClassifyOptions(c: Config, x: string, first: string, second: string)
    requires Classify(c, x, first, second).Some?
    ensures var c' := Classify(c, x, first, second).value;
      && c'.logName == (if IsLogFlag(x) then Some(LogNameOf(x)) else c.logName)
      && c'.filter == (if IsFilterFlag(x) then Some(FilterOf(x)) else c.filter)
  {
    FlagsExclusive(x);
  }

  /** What a successful parse holds: the directory, the age as `int.Parse`
      reads it, each switch set exactly when given in any letter case, and
      the log file and filter of the last argument that names one. */
  lemma ParseOk(args: seq<string>)
    requires Parse(args).Ok?
    ensures var c := Parse(args).config;
      && |args| >= 2 && c.root == args[0] && ParseInt(args[1]) == Some(c.maxAge)
      && (c.deleteEmpty <==> exists i :: 0 <= i < |args| && Upper(args[i]) == "/D")
      && (c.recurse <==> exists i :: 0 <= i < |args| && Upper(args[i]) == "/R")
      && (c.simulate <==> exists i :: 0 <= i < |args| && Upper(args[i]) == "/SIM")
      && (c.log <==> exists i :: 0 <= i < |args| && IsLogFlag(args[i]))
      && (c.logName.None? <==> !c.log)
      && (forall i :: 0 <= i < |args| && IsLogFlag(args[i]) ==>
           (forall j :: i < j < |args| ==> !IsLogFlag(args[j])) ==> c.logName == Some(LogNameOf(args[i])))
      && (c.filter.None? <==> forall i :: 0 <= i < |args| ==> !IsFilterFlag(args[i]))
      && (forall i :: 0 <= i < |args| && IsFilterFlag(args[i]) ==>
           (forall j :: i < j < |args| ==> !IsFilterFlag(args[j])) ==> c.filter == Some(FilterOf(args[i])))
  {
    var age := ParseInt(args[1]).value;
    ClassifyAllSwitches(args[0], age, args, args[0], args[1]);
    ClassifyAllFilter(args[0], age, args, args[0], args[1]);
    ClassifyAllLogName(args[0], age, args, args[0], args[1]);
  }

  /** A word that is no flag and not one of the first two arguments is a
      usage failure, as are a missing age and an age that is no number. */
  lemma ParseExamples()
    ensures Parse(["C:\\temp", "30", "extra"]) == Usage(IncorrectParameter("extra"))
    ensures Parse(["C:\\temp"]) == Usage(MissingArguments)
    ensures Parse(["C:\\temp", "thirty"]) == Usage(InvalidAge)
  {
    assert DigitsValue("3") == 3;
    assert "30"[..1] == "3";
    assert DigitsValue("30") == 30;
    assert ParseInt("30") == Some(30);
    assert Upper("C:\\temp")[0] == 'C';
    assert Upper("30")[0] == '3';
    assert Upper("extra")[0] == 'E';
    var args := ["C:\\temp", "30", "extra"];
    assert IsStray(args[2], args[0], args[1]);
    assert !IsStray(args[0], args[0], args[1]) && !IsStray(args[1], args[0], args[1]);
    ClassifyAllRejects(Initial(args[0], 30), args, args[0], args[1]);
    assert !IsDigits("thirty") by { assert !IsDigit("thirty"[0]); }
  }
}
