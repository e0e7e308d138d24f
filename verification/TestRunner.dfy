/** The bundled test runner: which tests of a file are run or skipped, how each
    is judged, and the counters behind the report. */
module TestRunner {
  import opened Text
  import opened Shuffle

  // How a shell function ends: by returning, or by leaving its subshell.
  datatype Exit = Returns(code: nat) | Exits(code: nat)

  // What has happened so far: which files were opened and which of their tests
  // were run. Everything outside the runner may depend on it.
  datatype Event = Opening(path: string) | Running(path: string, test: string)

  type History = seq<Event>

  // The public functions of a test file, whether sourcing it comes to an end,
  // and how each function ends when called for a given test after what was run.
  datatype TestFile = TestFile(path: string, functions: seq<string>, sourced: History -> bool,
                               behaviour: (string, string, History) -> Exit)

  datatype Outcome = Success | Failing | Skipped

  datatype Options = Options(selects: string -> bool, random: bool, draws: nat -> Draws)

  const GLOBAL_SETUP := "global_setup"
  const GLOBAL_TEARDOWN := "global_teardown"
  const SETUP := "setup"
  const TEARDOWN := "teardown"

  predicate IsATest(f: string) {
    f != GLOBAL_SETUP && f != GLOBAL_TEARDOWN && f != SETUP && f != TEARDOWN
  }

  function Selected(functions: seq<string>, selects: string -> bool): seq<string> {
    if functions == [] then [] else
      var f := functions[|functions| - 1];
      Selected(functions[..|functions| - 1], selects) + (if IsATest(f) && selects(f) then [f] else [])
  }

  function Order<T>(s: seq<T>, random: bool, draws: Draws): seq<T> {
    if random then Shuffled(s, draws, 0) else s
  }

  // ----- judging

  // A function of the file if it has one, and otherwise nothing, successfully.
  function CallIfExists(file: TestFile, f: string, test: string, h: History): Exit {
    if f in file.functions then file.behaviour(f, test, h) else Returns(0)
  }

  // The status of the subshell that runs set-up, test and tear-down. An exit in
  // set-up or tear-down is the status of the whole; one in the test is not.
  function TestStatus(file: TestFile, test: string, h: History): nat {
    match CallIfExists(file, SETUP, test, h)
    case Exits(code) => code
    case Returns(setup) =>
      var status := if setup == 0 then file.behaviour(test, test, h).code else setup;
      match CallIfExists(file, TEARDOWN, test, h)
      case Exits(code) => code
      case Returns(teardown) => if teardown == 0 && status == 0 then 0 else 1
  }

  function Judge(file: TestFile, test: string, h: History): Outcome {
    if TestStatus(file, test, h) == 0 then Success else Failing
  }

  predicate GlobalSetupSucceeds(file: TestFile, h: History) {
    CallIfExists(file, GLOBAL_SETUP, "", h) == Returns(0)
  }

  // A file whose global set-up fails has all its tests skipped. One that exits
  // while it is sourced never reaches the set-up: it leaves the mark of the
  // previous file in place.
  function SetupFailed(file: TestFile, h: History, before: bool): bool {
    if file.sourced(h) then !GlobalSetupSucceeds(file, h) else before
  }

  function Opened(file: TestFile, h: History): History {
    h + [Opening(file.path)]
  }

  // What has been run once these tests of the file have.
  function Played(file: TestFile, tests: seq<string>, h: History): History {
    Opened(file, h) + Image(tests, (t: string) => Running(file.path, t))
  }

  lemma NonePlayed(file: TestFile, h: History)
    ensures Played(file, [], h) == Opened(file, h)
  {
  }

  lemma PlayedNext(file: TestFile, tests: seq<string>, i: nat, h: History)
    requires i < |tests|
    ensures Played(file, tests[..i + 1], h) == Played(file, tests[..i], h) + [Running(file.path, tests[i])]
  {
  }

  // The outcomes of running the tests one after the other.
  function Judged(file: TestFile, tests: seq<string>, h: History): seq<Outcome> {
    seq(|tests|, i requires 0 <= i < |tests| => Judge(file, tests[i], Played(file, tests[..i], h)))
  }

  lemma JudgedAt(file: TestFile, tests: seq<string>, h: History, i: nat)
    requires i < |tests|
    ensures |Judged(file, tests, h)| == |tests|
    ensures Judged(file, tests, h)[i] == Judge(file, tests[i], Played(file, tests[..i], h))
  {
  }

  lemma JudgedAll(file: TestFile, tests: seq<string>, h: History)
    ensures |Judged(file, tests, h)| == |tests|
  {
  }

  function FileOutcomes(file: TestFile, tests: seq<string>, h: History, before: bool): seq<Outcome> {
    if SetupFailed(file, h, before) then Image(tests, (t: string) => Skipped)
    else if file.sourced(h) then Judged(file, tests, h)
    else []
  }

  function FileHistory(file: TestFile, tests: seq<string>, h: History): History {
    if file.sourced(h) && GlobalSetupSucceeds(file, h) then Played(file, tests, h) else Opened(file, h)
  }

  // ----- the counters

  datatype Tally = Tally(successes: nat, failures: nat, skipped: nat, setupFailed: bool, history: History)

  function Count(t: Tally, o: Outcome): Tally {
    match o
    case Success => t.(successes := t.successes + 1)
    case Failing => t.(failures := t.failures + 1)
    case Skipped => t.(skipped := t.skipped + 1)
  }

  function Record(t: Tally, outcomes: seq<Outcome>): Tally {
    if outcomes == [] then t else Count(Record(t, outcomes[..|outcomes| - 1]), outcomes[|outcomes| - 1])
  }

  lemma RecordNone(t: Tally)
    ensures Record(t, []) == t
  {
  }

  lemma RecordNext(t: Tally, outcomes: seq<Outcome>, i: nat)
    requires i < |outcomes|
    ensures Record(t, outcomes[..i + 1]) == Count(Record(t, outcomes[..i]), outcomes[i])
  {
    assert outcomes[..i + 1][..i] == outcomes[..i];
  }

  lemma {:induction false} RecordMarked(t: Tally, outcomes: seq<Outcome>, h: History, h': History)
    ensures Record(t.(setupFailed := false, history := h), outcomes).(history := h') ==
            Record(t.(setupFailed := false, history := h'), outcomes)
    ensures !Record(t.(setupFailed := false, history := h), outcomes).setupFailed
  {
    if outcomes != [] {
      RecordMarked(t, outcomes[..|outcomes| - 1], h, h');
    }
  }

  // The mark and the history once a file has been run, before its outcomes are
  // counted.
  function Noted(t: Tally, file: TestFile, tests: seq<string>): Tally {
    t.(setupFailed := SetupFailed(file, t.history, t.setupFailed), history := FileHistory(file, tests, t.history))
  }

  function AfterFile(t: Tally, file: TestFile, opts: Options, draws: Draws): Tally {
    var tests := Order(Selected(file.functions, opts.selects), opts.random, draws);
    Record(Noted(t, file, tests), FileOutcomes(file, tests, t.history, t.setupFailed))
  }

  lemma OpenedIs(file: TestFile, h: History)
    ensures Opened(file, h) == h + [Opening(file.path)]
  {
  }

  // What a file does to the counters, by how far it gets.
  lemma FileCases(t: Tally, file: TestFile, tests: seq<string>, opts: Options, draws: Draws)
    requires tests == Order(Selected(file.functions, opts.selects), opts.random, draws)
    ensures var begun := Opened(file, t.history);
            var none := Image(tests, (test: string) => Skipped);
            AfterFile(t, file, opts, draws) ==
            if !file.sourced(t.history) then
              if t.setupFailed then Record(t.(history := begun), none) else t.(history := begun)
            else if GlobalSetupSucceeds(file, t.history) then
              Record(t.(setupFailed := false, history := Played(file, tests, t.history)),
                     Judged(file, tests, t.history))
            else Record(t.(setupFailed := true, history := begun), none)
  {
    hide Judged, Opened, Played, Image, Order, Selected, GlobalSetupSucceeds;
  }

  function AfterFiles(t: Tally, files: seq<TestFile>, opts: Options): Tally {
    if files == [] then t else
      AfterFile(AfterFiles(t, files[..|files| - 1], opts), files[|files| - 1], opts, opts.draws(|files|))
  }

  const START := Tally(0, 0, 0, false, [])

  function FinalTally(files: seq<TestFile>, opts: Options): Tally {
    AfterFiles(START, Order(files, opts.random, opts.draws(0)), opts)
  }

  predicate TestsAreSuccessful(t: Tally) {
    t.failures == 0 && t.skipped == 0
  }

  // ----- the runner, over its file-backed database

  const SUCCESSES := "sbu_successful_tests_count"
  const FAILURES := "sbu_failing_tests_count"
  const SKIPPED := "sbu_skipped_tests_count"
  const SETUP_FAILED := "sbu_current_global_setup_has_failed"

  lemma CellsDiffer()
    ensures SUCCESSES != FAILURES && SUCCESSES != SKIPPED && FAILURES != SKIPPED
    ensures SETUP_FAILED != SUCCESSES && SETUP_FAILED != FAILURES && SETUP_FAILED != SKIPPED
  {
    assert SUCCESSES[5] == 'u' && FAILURES[5] == 'a' && SKIPPED[5] == 'k' && SETUP_FAILED[5] == 'u';
    assert SUCCESSES[4] == 's' && SETUP_FAILED[4] == 'c';
  }

  function KeyOf(o: Outcome): string {
    match o
    case Success => SUCCESSES
    case Failing => FAILURES
    case Skipped => SKIPPED
  }

  class Runner {
    var cells: map<string, string>

    // What the calls so far have left behind outside the database.
    var history: History

    ghost predicate Valid()
      reads this
    {
      forall o :: KeyOf(o) in cells && AllDigits(cells[KeyOf(o)])
    }

    ghost function Abs(): Tally
      reads this
      requires Valid()
    {
      Tally(Value(cells[KeyOf(Success)]), Value(cells[KeyOf(Failing)]), Value(cells[KeyOf(Skipped)]), Marked(), history)
    }

    predicate Marked()
      reads this
    {
      SETUP_FAILED in cells && cells[SETUP_FAILED] == "yes"
    }

    // A database with whatever was stored before, but not the mark.
    constructor (stored: map<string, string>)
      requires SETUP_FAILED !in stored
      ensures cells == stored && history == []
    {
      cells, history := stored, [];
    }

    method StartRunning()
      modifies this
      ensures Valid() && Abs() == Tally(0, 0, 0, old(Marked()), old(history))
    {
      CellsDiffer();
      ValueOfDecimal(0);
      assert Decimal(0) == "0";
      cells := cells[SUCCESSES := "0"][FAILURES := "0"][SKIPPED := "0"];
      forall o
        ensures KeyOf(o) in cells && cells[KeyOf(o)] == "0"
      {
      }
    }

    method Increment(o: Outcome)
      requires Valid()
      modifies this
      ensures Valid() && Abs() == Count(old(Abs()), o) && history == old(history)
    {
      CellsDiffer();
      var count := Value(cells[KeyOf(o)]);
      ValueOfDecimal(count + 1);
      cells := cells[KeyOf(o) := Decimal(count + 1)];
    }

    method Mark(failed: bool)
      requires Valid()
      modifies this
      ensures Valid() && Abs() == old(Abs()).(setupFailed := failed)
    {
      CellsDiffer();
      cells := cells[SETUP_FAILED := if failed then "yes" else "no"];
      assert "yes"[0] != "no"[0];
    }

    method RunTest(file: TestFile, test: string)
      requires Valid()
      modifies this
      ensures Valid() && history == old(history) + [Running(file.path, test)]
      ensures Abs() == Count(old(Abs()), Judge(file, test, old(history))).(history := history)
    {
      var status := TestStatus(file, test, history);
      history := history + [Running(file.path, test)];
      if status == 0 {
        Increment(Success);
      } else {
        Increment(Failing);
      }
    }

    method CallAllTests(file: TestFile, tests: seq<string>, ghost h: History)
      requires Valid() && history == Opened(file, h)
      modifies this
      ensures Valid() && Abs() == Record(old(Abs()), Judged(file, tests, h)).(history := Played(file, tests, h))
    {
      hide Played, TestStatus, Judge, Judged, Record, Value, KeyOf;
      ghost var outcomes := Judged(file, tests, h);
      JudgedAll(file, tests, h);
      NonePlayed(file, h);
      RecordNone(Abs());
      for i := 0 to |tests|
        invariant Valid() && history == Played(file, tests[..i], h)
        invariant Abs() == Record(old(Abs()), outcomes[..i]).(history := history)
      {
        JudgedAt(file, tests, h, i);
        RecordNext(old(Abs()), outcomes, i);
        PlayedNext(file, tests, i, h);
        RunTest(file, tests[i]);
      }
      assert outcomes[..|tests|] == outcomes && tests[..|tests|] == tests;
    }

    method SkipAllTests(tests: seq<string>)
      requires Valid()
      modifies this
      ensures Valid() && Abs() == Record(old(Abs()), Image(tests, (t: string) => Skipped))
    {
      ghost var outcomes := Image(tests, (t: string) => Skipped);
      for i := 0 to |tests|
        invariant Valid() && Abs() == Record(old(Abs()), outcomes[..i])
      {
        assert outcomes[..i + 1][..i] == outcomes[..i];
        Increment(Skipped);
      }
      assert outcomes[..|tests|] == outcomes;
    }

    method TestFunctions(file: TestFile, opts: Options, draws: Draws) returns (tests: seq<string>)
      ensures tests == Order(Selected(file.functions, opts.selects), opts.random, draws)
    {
      var result: seq<string> := [];
      for i := 0 to |file.functions|
        invariant result == Selected(file.functions[..i], opts.selects)
      {
        assert file.functions[..i + 1][..i] == file.functions[..i];
        if IsATest(file.functions[i]) && opts.selects(file.functions[i]) {
          result := result + [file.functions[i]];
        }
      }
      assert file.functions[..|file.functions|] == file.functions;
      tests := result;
      if opts.random {
        tests := RandomizeArray(result, draws);
      }
    }

    // Runs or skips the tests of one file.
    method RunTestFile(file: TestFile, opts: Options, draws: Draws)
      requires Valid()
      modifies this
      ensures Valid() && Abs() == AfterFile(old(Abs()), file, opts, draws)
    {
      hide AfterFile, Record, Judged, Opened, Played, Image, Value, KeyOf, Order, Selected;
      var tests := TestFunctions(file, opts, draws);
      ghost var h, before := history, Abs();
      var sourced := file.sourced(history);
      var ready := CallIfExists(file, GLOBAL_SETUP, "", history) == Returns(0);
      history := history + [Opening(file.path)];
      OpenedIs(file, h);
      assert Abs() == before.(history := Opened(file, h));
      FileCases(before, file, tests, opts, draws);
      RecordMarked(before, Judged(file, tests, h), Opened(file, h), Played(file, tests, h));
      if sourced {
        Mark(true);
        if ready {
          Mark(false);
          CallAllTests(file, tests, h);
        }
      }
      if Marked() {
        SkipAllTests(tests);
      }
    }

    method Successful() returns (ok: bool)
      requires Valid()
      ensures ok == TestsAreSuccessful(Abs())
    {
      assert KeyOf(Failing) == FAILURES && KeyOf(Skipped) == SKIPPED;
      ok := Value(cells[FAILURES]) == 0 && Value(cells[SKIPPED]) == 0;
    }

    method RunAllTestFiles(files: seq<TestFile>, opts: Options) returns (ok: bool)
      modifies this
      requires !Marked() && history == []
      ensures Valid() && Abs() == FinalTally(files, opts) && ok == TestsAreSuccessful(Abs())
    {
      hide AfterFile, Value, KeyOf;
      StartRunning();
      var ordered := files;
      if opts.random {
        ordered := RandomizeArray(files, opts.draws(0));
      }
      for i := 0 to |ordered|
        invariant Valid() && Abs() == AfterFiles(START, ordered[..i], opts)
      {
        assert ordered[..i + 1][..i] == ordered[..i];
        RunTestFile(ordered[i], opts, opts.draws(i + 1));
      }
      assert ordered[..|ordered|] == ordered;
      ok := Successful();
    }
  }
}
