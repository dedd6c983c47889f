/** The command-line loop of `myMain` (ProcessEvent.log.py): each argument
    after the program name either fills a pending `-start`/`-end` bound, is one
    of the fixed switches, names the pattern file, names a user, or names an
    event file. */
module Arguments {
  import opened Wrappers
  import opened Text

  /** `start`/`end`: never mentioned (`None`), just seen as a switch (`True`),
      or the argument that followed the switch. */
  datatype Bound = Unset | Expecting | Given(value: string)

  /** An element of `files`: a path, or the list `glob.glob(pattern)` that the
      source appends as a single element; the expansion is not modelled. */
  datatype FileArg = Plain(path: string) | GlobOf(pattern: string)

  /** The globals that the loop updates, with the local `users` and `files`. */
  datatype Options = Options(start: Bound, end: Bound, debug: bool, typeFilter: Option<int>,
                             onlyFirst: bool, showDetail: bool, patternFile: string,
                             users: seq<string>, files: seq<FileArg>)

  const DefaultPatternFile: string := "EventPatterns.csv"
  const DefaultEventFile: string := "events.log"

  /** The module-level defaults and empty lists. */
  const Initial: Options := Options(Unset, Unset, false, None, false, false, DefaultPatternFile, [], [])

  predicate IsSwitch(arg: string) {
    arg in {"-debug", "-error0", "-error1", "-onlyFirst", "-showDetail", "-start", "-end"}
  }

  /** One turn of `for arg in argv[1:]`, in the order of its tests. */
  function Step(o: Options, arg: string): Options {
    if o.start == Expecting then o.(start := Given(arg))
    else if o.end == Expecting then o.(end := Given(arg))
    else if arg == "-debug" then o.(debug := true)
    else if arg == "-error0" then o.(typeFilter := Some(0))
    else if arg == "-error1" then o.(typeFilter := Some(1))
    else if arg == "-onlyFirst" then o.(onlyFirst := true)
    else if arg == "-showDetail" then o.(showDetail := true)
    else if arg == "-start" then o.(start := Expecting)
    else if arg == "-end" then o.(end := Expecting)
    else if Contains(Lower(arg), ".csv") then o.(patternFile := Lower(arg))
    else if '.' !in arg then o.(users := o.users + [Lower(arg)])
    else if '*' !in arg then o.(files := o.files + [Plain(arg)])
    else o.(files := o.files + [GlobOf(arg)])
  }

  /** The loop over all arguments. */
  function Fold(o: Options, args: seq<string>): Options {
    if args == [] then o else Step(Fold(o, args[..|args| - 1]), args[|args| - 1])
  }

  /** After the loop: an empty file list becomes `['events.log']`. */
  function Finish(o: Options): (r: Options)
    ensures r.files != []
    ensures o.files != [] ==> r == o
    ensures o.files == [] ==> r == o.(files := [Plain(DefaultEventFile)])
  {
    if |o.files| < 1 then o.(files := o.files + [Plain(DefaultEventFile)]) else o
  }

  /** `argv[1:]`. */
  function Tail(argv: seq<string>): seq<string> {
    if argv == [] then [] else argv[1..]
  }

  /** What `myMain(argv)` leaves in the globals and lists it hands to
      `mainLoop`. */
  function Parse(argv: seq<string>): Options {
    Finish(Fold(Initial, Tail(argv)))
  }

  /** The argument right after `-start` is the start bound, taken verbatim
      even when it looks like a switch. */
  lemma {:induction false} StartTakesNext(o: Options, pre: seq<string>, v: string)
    requires Fold(o, pre).start != Expecting && Fold(o, pre).end != Expecting
    ensures Fold(o, pre + ["-start", v]).start == Given(v)
    ensures Fold(o, pre + ["-start", v]) == Fold(o, pre).(start := Given(v))
  {
    FoldSnoc(o, pre, "-start", v);
  }

  /** Two more arguments are two more steps. */
  lemma FoldSnoc(o: Options, pre: seq<string>, x: string, y: string)
    ensures Fold(o, pre + [x]) == Step(Fold(o, pre), x)
    ensures Fold(o, pre + [x, y]) == Step(Step(Fold(o, pre), x), y)
  {
    var a := pre + [x];
    assert a[..|pre|] == pre;
    assert (pre + [x, y])[..|pre| + 1] == a;
  }

  /** Likewise for `-end`; while `-start` is pending, `-end` is the start
      bound itself. */
  lemma {:induction false} EndTakesNext(o: Options, pre: seq<string>, v: string)
    requires Fold(o, pre).start != Expecting && Fold(o, pre).end != Expecting
    ensures Fold(o, pre + ["-end", v]) == Fold(o, pre).(end := Given(v))
    ensures Fold(o, pre + ["-start", "-end"]).start == Given("-end")
  {
    FoldSnoc(o, pre, "-end", v);
    FoldSnoc(o, pre, "-start", "-end");
  }

  /** Where an ordinary argument goes: the pattern file (lower-cased) when it
      contains `.csv` in any case, a user (lower-cased) when it has no `.`,
      otherwise a file; nothing else changes. */
  lemma Classify(o: Options, arg: string)
    requires o.start != Expecting && o.end != Expecting && !IsSwitch(arg)
    ensures var r := Step(o, arg);
            if Contains(Lower(arg), ".csv") then r == o.(patternFile := Lower(arg))
            else if '.' !in arg then r == o.(users := o.users + [Lower(arg)])
            else r == o.(files := o.files + [if '*' in arg then GlobOf(arg) else Plain(arg)])
  {
  }

  /** What the lists and the pattern file can hold: users are lower case
      without a dot, files have a dot, a glob has a `*`, and the pattern file
      is the default or a lower-cased name containing `.csv`. */
  predicate WellClassified(o: Options) {
    && (forall i :: 0 <= i < |o.users| ==> IsLower(o.users[i]) && '.' !in o.users[i])
    && (forall i :: 0 <= i < |o.files| ==> FileOk(o.files[i]))
    && (o.patternFile == DefaultPatternFile
        || (IsLower(o.patternFile) && Contains(o.patternFile, ".csv")))
  }

  predicate FileOk(f: FileArg) {
    match f
    case Plain(p) => '.' in p && '*' !in p
    case GlobOf(p) => '.' in p && '*' in p
  }

  /** Lower-casing keeps exactly the dots of a string. */
  lemma LowerDots(s: string)
    ensures ('.' in Lower(s)) == ('.' in s)
  {
    if '.' in s {
      var i :| 0 <= i < |s| && s[i] == '.';
      assert Lower(s)[i] == '.';
    }
  }

  /** Every argument the loop files away is classified as above, and each adds
      at most one user or file. */
  lemma {:induction false} FoldClassified(args: seq<string>)
    ensures WellClassified(Fold(Initial, args))
    ensures |Fold(Initial, args).users| + |Fold(Initial, args).files| <= |args|
  {
    if args != [] {
      var pre := args[..|args| - 1];
      var arg := args[|args| - 1];
      FoldClassified(pre);
      StepClassified(Fold(Initial, pre), arg);
    }
  }

  /** One step keeps the classification and adds at most one entry. */
  lemma StepClassified(o: Options, arg: string)
    requires WellClassified(o)
    ensures WellClassified(Step(o, arg))
    ensures |Step(o, arg).users| + |Step(o, arg).files| <= |o.users| + |o.files| + 1
  {
    if o.start == Expecting || o.end == Expecting || IsSwitch(arg) {
      assert Step(o, arg).(start := o.start, end := o.end, debug := o.debug, typeFilter := o.typeFilter,
                           onlyFirst := o.onlyFirst, showDetail := o.showDetail) == o;
    } else if Contains(Lower(arg), ".csv") {
      LowerIsLower(arg);
    } else if '.' !in arg {
      LowerIsLower(arg);
      LowerDots(arg);
      UsersAppend(o.users, Lower(arg));
    } else {
      FilesAppend(o.files, if '*' in arg then GlobOf(arg) else Plain(arg));
    }
  }

  lemma UsersAppend(users: seq<string>, u: string)
    requires forall i :: 0 <= i < |users| ==> IsLower(users[i]) && '.' !in users[i]
    requires IsLower(u) && '.' !in u
    ensures forall i :: 0 <= i < |users + [u]| ==> IsLower((users + [u])[i]) && '.' !in (users + [u])[i]
  {
  }

  lemma FilesAppend(files: seq<FileArg>, f: FileArg)
    requires forall i :: 0 <= i < |files| ==> FileOk(files[i])
    requires FileOk(f)
    ensures forall i :: 0 <= i < |files + [f]| ==> FileOk((files + [f])[i])
  {
  }

  /** `myMain`'s loop and the default file list, on a local copy of the
      globals. */
  method ParseArguments(argv: seq<string>) returns (o: Options)
    ensures o == Parse(argv)
  {
    o := Initial;
    var args := if |argv| > 0 then argv[1..] else [];
    for k := 0 to |args|
      invariant o == Fold(Initial, args[..k])
    {
      var arg := args[k];
      assert args[..k + 1][..k] == args[..k];
      if o.start == Expecting {
        o := o.(start := Given(arg));
      } else if o.end == Expecting {
        o := o.(end := Given(arg));
      } else if arg == "-debug" {
        o := o.(debug := true);
      } else if arg == "-error0" {
        o := o.(typeFilter := Some(0));
      } else if arg == "-error1" {
        o := o.(typeFilter := Some(1));
      } else if arg == "-onlyFirst" {
        o := o.(onlyFirst := true);
      } else if arg == "-showDetail" {
        o := o.(showDetail := true);
      } else if arg == "-start" {
        o := o.(start := Expecting);
      } else if arg == "-end" {
        o := o.(end := Expecting);
      } else if Contains(Lower(arg), ".csv") {
        o := o.(patternFile := Lower(arg));
      } else if '.' !in arg {
        o := o.(users := o.users + [Lower(arg)]);
      } else if '*' !in arg {
        o := o.(files := o.files + [Plain(arg)]);
      } else {
        o := o.(files := o.files + [GlobOf(arg)]);
      }
    }
    assert args[..|args|] == args;
    if |o.files| < 1 {
      o := o.(files := o.files + [Plain(DefaultEventFile)]);
    }
  }
}
