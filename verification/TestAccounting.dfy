/** What the runner's counters say about the selected tests, whatever the order
    in which files and tests are run. */
module TestAccounting {
  import opened Shuffle
  import opened TestRunner

  // A test is counted as a success exactly when set-up, test and tear-down all
  // return or end with success, or when set-up or tear-down leaves the subshell
  // with success, which hides a failure of the test. A set-up or tear-down that
  // the file does not have counts as one that returns with success.
  lemma SuccessExactly(file: TestFile, test: string, h: History)
    ensures var setup := if "setup" in file.functions then file.behaviour("setup", test, h) else Returns(0);
            var teardown := if "teardown" in file.functions then file.behaviour("teardown", test, h) else Returns(0);
            Judge(file, test, h) == Success <==>
              || setup == Exits(0)
              || (setup.Returns? && teardown == Exits(0))
              || (setup == Returns(0) && file.behaviour(test, test, h).code == 0 && teardown == Returns(0))
  {
  }

  // The file has no global set-up, or it returns with success.
  predicate SetUp(file: TestFile, h: History) {
    "global_setup" in file.functions ==> file.behaviour("global_setup", "", h) == Returns(0)
  }

  lemma SetUpExactly(file: TestFile, h: History)
    ensures GlobalSetupSucceeds(file, h) <==> SetUp(file, h)
  {
  }

  // Every selected test has one outcome: its own, after the tests before it, or
  // skipped together with all the others of its file, if its global set-up does
  // not return with success.
  lemma OneOutcomePerTest(file: TestFile, opts: Options, draws: Draws, h: History, before: bool)
    requires file.sourced(h)
    ensures var selected := Selected(file.functions, opts.selects);
            var tests := Order(selected, opts.random, draws);
            var outcomes := FileOutcomes(file, tests, h, before);
            && multiset(tests) == multiset(selected) && |outcomes| == |tests| == |selected|
            && forall i :: 0 <= i < |tests| ==>
                 outcomes[i] == if SetUp(file, h) then Judge(file, tests[i], Played(file, tests[..i], h)) else Skipped
  {
    hide Judge, GlobalSetupSucceeds, SetUp, Played;
    SetUpExactly(file, h);
    SameTests(file.functions, opts, draws);
  }

  // ----- which functions are selected

  // The tests are the functions that are none of the four by name and that the
  // pattern selects, in their order and as often as they occur.
  lemma {:induction false} SelectedConcat(a: seq<string>, b: seq<string>, selects: string -> bool)
    ensures Selected(a + b, selects) == Selected(a, selects) + Selected(b, selects)
  {
    if b == [] {
      assert a + b == a;
    } else {
      var init, last := b[..|b| - 1], b[|b| - 1];
      SelectedConcat(a, init, selects);
      assert (a + b)[..|a + b| - 1] == a + init;
      assert Selected(b, selects) == Selected(init, selects) + (if IsATest(last) && selects(last) then [last] else []);
    }
  }

  lemma SelectedOne(f: string, selects: string -> bool)
    ensures Selected([f], selects) ==
            if selects(f) && f != "global_setup" && f != "global_teardown" && f != "setup" && f != "teardown" then [f]
            else []
  {
    assert [f][..0] == [];
    assert Selected([f][..0], selects) == [];
  }

  lemma SameTests(functions: seq<string>, opts: Options, draws: Draws)
    ensures var selected := Selected(functions, opts.selects);
            var tests := Order(selected, opts.random, draws);
            multiset(tests) == multiset(selected) && |tests| == |selected|
  {
    var selected := Selected(functions, opts.selects);
    var tests := Order(selected, opts.random, draws);
    if opts.random {
      ShuffledIsPermutation(selected, draws, 0);
    }
    assert |multiset(tests)| == |tests| && |multiset(selected)| == |selected|;
  }

  // ----- how many tests are counted

  function Total(t: Tally): nat {
    t.successes + t.failures + t.skipped
  }

  lemma {:induction false} RecordTotal(t: Tally, outcomes: seq<Outcome>)
    ensures Total(Record(t, outcomes)) == Total(t) + |outcomes|
  {
    if outcomes != [] {
      RecordTotal(t, outcomes[..|outcomes| - 1]);
    }
  }

  // The counters when the i-th file of a run is reached.
  function Reached(files: seq<TestFile>, opts: Options, i: nat): Tally
    requires i <= |files|
  {
    AfterFiles(START, files[..i], opts)
  }

  predicate SourcedAt(files: seq<TestFile>, opts: Options, i: nat)
    requires i < |files|
  {
    files[i].sourced(Reached(files, opts, i).history)
  }

  predicate SetUpAt(files: seq<TestFile>, opts: Options, i: nat)
    requires i < |files|
  {
    SetUp(files[i], Reached(files, opts, i).history)
  }

  // The last file before the i-th one that was sourced to its end had a global
  // set-up that failed.
  predicate MarkedBefore(files: seq<TestFile>, opts: Options, i: nat)
    requires i <= |files|
  {
    exists j :: 0 <= j < i && SourcedAt(files, opts, j) && !SetUpAt(files, opts, j) &&
                forall k :: j < k < i ==> !SourcedAt(files, opts, k)
  }

  lemma ReachedFirst(files: seq<TestFile>, opts: Options)
    ensures Reached(files, opts, 0) == START
  {
  }

  lemma ReachedNext(files: seq<TestFile>, opts: Options, i: nat)
    requires i < |files|
    ensures Reached(files, opts, i + 1) == AfterFile(Reached(files, opts, i), files[i], opts, opts.draws(i + 1))
  {
    hide AfterFile;
    assert files[..i + 1][..i] == files[..i];
  }

  lemma MarkAfterFile(t: Tally, file: TestFile, opts: Options, draws: Draws)
    ensures AfterFile(t, file, opts, draws).setupFailed == SetupFailed(file, t.history, t.setupFailed)
  {
    hide FileOutcomes, FileHistory, Selected, SetupFailed;
    var tests := Order(Selected(file.functions, opts.selects), opts.random, draws);
    RecordKeepsMark(Noted(t, file, tests), FileOutcomes(file, tests, t.history, t.setupFailed));
  }

  lemma {:induction false} RecordKeepsMark(t: Tally, outcomes: seq<Outcome>)
    ensures Record(t, outcomes).setupFailed == t.setupFailed
  {
    if outcomes != [] {
      RecordKeepsMark(t, outcomes[..|outcomes| - 1]);
    }
  }

  lemma MarkedNext(files: seq<TestFile>, opts: Options, i: nat)
    requires i < |files|
    ensures MarkedBefore(files, opts, i + 1) <==>
            if SourcedAt(files, opts, i) then !SetUpAt(files, opts, i) else MarkedBefore(files, opts, i)
  {
    hide SourcedAt, SetUpAt;
    if j :| 0 <= j < i && SourcedAt(files, opts, j) && !SetUpAt(files, opts, j) &&
            forall k :: j < k < i ==> !SourcedAt(files, opts, k) {
      assert !SourcedAt(files, opts, i) ==> forall k :: j < k < i + 1 ==> !SourcedAt(files, opts, k);
    }
  }

  lemma {:induction false} MarkExactly(files: seq<TestFile>, opts: Options, i: nat)
    requires i <= |files|
    ensures Reached(files, opts, i).setupFailed <==> MarkedBefore(files, opts, i)
  {
    hide AfterFile, Reached, GlobalSetupSucceeds, SetUp;
    if i == 0 {
      ReachedFirst(files, opts);
    } else {
      hide MarkedBefore;
      SetUpExactly(files[i - 1], Reached(files, opts, i - 1).history);
      MarkExactly(files, opts, i - 1);
      ReachedNext(files, opts, i - 1);
      MarkAfterFile(Reached(files, opts, i - 1), files[i - 1], opts, opts.draws(i));
      MarkedNext(files, opts, i - 1);
    }
  }

  // The number of selected tests of the files that are sourced to their end, or
  // come after a file that left its mark.
  function CountedTests(files: seq<TestFile>, opts: Options, n: nat): nat
    requires n <= |files|
  {
    if n == 0 then 0 else
      CountedTests(files, opts, n - 1) +
      if SourcedAt(files, opts, n - 1) || MarkedBefore(files, opts, n - 1)
      then |Selected(files[n - 1].functions, opts.selects)| else 0
  }

  lemma FileTotal(t: Tally, file: TestFile, opts: Options, draws: Draws)
    ensures Total(AfterFile(t, file, opts, draws)) ==
            Total(t) + if file.sourced(t.history) || t.setupFailed then |Selected(file.functions, opts.selects)| else 0
  {
    hide Judge, GlobalSetupSucceeds, Played, Selected, FileHistory;
    var tests := Order(Selected(file.functions, opts.selects), opts.random, draws);
    SameTests(file.functions, opts, draws);
    RecordTotal(Noted(t, file, tests), FileOutcomes(file, tests, t.history, t.setupFailed));
  }

  lemma {:induction false} TotalSoFar(files: seq<TestFile>, opts: Options, n: nat)
    requires n <= |files|
    ensures Total(Reached(files, opts, n)) == CountedTests(files, opts, n)
  {
    hide AfterFile, Reached, MarkedBefore, Selected;
    if n == 0 {
      ReachedFirst(files, opts);
    } else {
      TotalSoFar(files, opts, n - 1);
      ReachedNext(files, opts, n - 1);
      MarkExactly(files, opts, n - 1);
      FileTotal(Reached(files, opts, n - 1), files[n - 1], opts, opts.draws(n));
    }
  }

  // The counters of any run sum to the number of those tests, in the order in
  // which the files are run.
  lemma CountedExactly(files: seq<TestFile>, opts: Options)
    ensures var ordered := Order(files, opts.random, opts.draws(0));
            Total(FinalTally(files, opts)) == CountedTests(ordered, opts, |ordered|)
  {
    hide AfterFiles, CountedTests;
    var ordered := Order(files, opts.random, opts.draws(0));
    assert ordered[..|ordered|] == ordered;
    TotalSoFar(ordered, opts, |ordered|);
  }

  // ----- when a run succeeds

  // The selected tests of the i-th file of a run, in the order they are run.
  function TestsOf(files: seq<TestFile>, opts: Options, i: nat): seq<string>
    requires i < |files|
  {
    Order(Selected(files[i].functions, opts.selects), opts.random, opts.draws(i + 1))
  }

  // At the time it is run, the i-th file has no selected test, or is set up and
  // all its tests pass.
  predicate Passes(files: seq<TestFile>, opts: Options, i: nat)
    requires i < |files|
  {
    var file, tests, h := files[i], TestsOf(files, opts, i), Reached(files, opts, i).history;
    tests == [] ||
    (SetUp(file, h) &&
     forall n :: 0 <= n < |tests| ==> Judge(file, tests[n], Played(file, tests[..n], h)) == Success)
  }

  predicate OnlySuccess(outcomes: seq<Outcome>) {
    forall i :: 0 <= i < |outcomes| ==> outcomes[i] == Success
  }

  lemma {:induction false} RecordSuccess(t: Tally, outcomes: seq<Outcome>)
    ensures TestsAreSuccessful(Record(t, outcomes)) <==> TestsAreSuccessful(t) && OnlySuccess(outcomes)
  {
    if outcomes != [] {
      var init, last := outcomes[..|outcomes| - 1], outcomes[|outcomes| - 1];
      RecordSuccess(t, init);
      assert outcomes == init + [last];
    }
  }

  // The file leaves the run successful: if it is sourced to its end it passes, and
  // otherwise it has no selected test that the mark of an earlier file skips.
  predicate Harmless(files: seq<TestFile>, opts: Options, i: nat)
    requires i < |files|
  {
    if SourcedAt(files, opts, i) then Passes(files, opts, i)
    else MarkedBefore(files, opts, i) ==> TestsOf(files, opts, i) == []
  }

  lemma FileSucceeds(files: seq<TestFile>, opts: Options, i: nat)
    requires i < |files|
    ensures TestsAreSuccessful(Reached(files, opts, i + 1)) <==>
            TestsAreSuccessful(Reached(files, opts, i)) && Harmless(files, opts, i)
  {
    hide TestStatus, GlobalSetupSucceeds, Selected, Reached, Played, FileHistory, MarkedBefore;
    ReachedNext(files, opts, i);
    MarkExactly(files, opts, i);
    SetUpExactly(files[i], Reached(files, opts, i).history);
    var file, tests, t := files[i], TestsOf(files, opts, i), Reached(files, opts, i);
    var outcomes := FileOutcomes(file, tests, t.history, t.setupFailed);
    RecordSuccess(Noted(t, file, tests), outcomes);
    if tests != [] && SetupFailed(file, t.history, t.setupFailed) {
      assert outcomes[0] == Skipped;
    } else if tests != [] && file.sourced(t.history) {
      assert forall n :: 0 <= n < |tests| ==> outcomes[n] == Judge(file, tests[n], Played(file, tests[..n], t.history));
    }
  }

  lemma {:induction false} SuccessSoFar(files: seq<TestFile>, opts: Options, n: nat)
    requires n <= |files|
    ensures TestsAreSuccessful(Reached(files, opts, n)) <==> forall i :: 0 <= i < n ==> Harmless(files, opts, i)
  {
    hide Harmless, Reached;
    if n == 0 {
      ReachedFirst(files, opts);
    } else {
      hide TestsAreSuccessful;
      SuccessSoFar(files, opts, n - 1);
      FileSucceeds(files, opts, n - 1);
    }
  }

  // A run succeeds exactly when none of its files does harm, in the order in
  // which they are run.
  lemma RunSucceedsExactly(files: seq<TestFile>, opts: Options)
    ensures var ordered := Order(files, opts.random, opts.draws(0));
            TestsAreSuccessful(FinalTally(files, opts)) <==>
              forall i :: 0 <= i < |ordered| ==> Harmless(ordered, opts, i)
  {
    hide AfterFiles, Harmless;
    var ordered := Order(files, opts.random, opts.draws(0));
    assert ordered[..|ordered|] == ordered;
    SuccessSoFar(ordered, opts, |ordered|);
  }

  // ----- files that are sourced to their end, whatever has been run before

  ghost predicate AllSourced(files: seq<TestFile>) {
    forall i, h :: 0 <= i < |files| ==> files[i].sourced(h)
  }

  function SelectedCount(files: seq<TestFile>, selects: string -> bool): nat {
    if files == [] then 0 else
      SelectedCount(files[..|files| - 1], selects) + |Selected(files[|files| - 1].functions, selects)|
  }

  lemma SourcedThen(files: seq<TestFile>, opts: Options, i: nat)
    requires AllSourced(files) && i < |files|
    ensures SourcedAt(files, opts, i)
  {
    hide Reached;
  }

  lemma {:induction false} AllCounted(files: seq<TestFile>, opts: Options, n: nat)
    requires AllSourced(files) && n <= |files|
    ensures CountedTests(files, opts, n) == SelectedCount(files[..n], opts.selects)
  {
    hide Selected, SourcedAt, MarkedBefore, AllSourced;
    if n > 0 {
      hide SelectedCount;
      AllCounted(files, opts, n - 1);
      SourcedThen(files, opts, n - 1);
      CountSnoc(files[..n - 1], files[n - 1], opts.selects);
      assert files[..n] == files[..n - 1] + [files[n - 1]];
    }
  }

  lemma StillSourced(files: seq<TestFile>, opts: Options)
    requires AllSourced(files)
    ensures AllSourced(Order(files, opts.random, opts.draws(0)))
  {
    var ordered := Order(files, opts.random, opts.draws(0));
    SameFiles(files, opts);
    forall i, h | 0 <= i < |ordered|
      ensures ordered[i].sourced(h)
    {
      assert ordered[i] in files;
    }
  }

  lemma SameFiles(files: seq<TestFile>, opts: Options)
    ensures forall file :: file in Order(files, opts.random, opts.draws(0)) ==> file in files
  {
    if opts.random {
      ShuffledIsPermutation(files, opts.draws(0), 0);
      forall file | file in Shuffled(files, opts.draws(0), 0)
        ensures file in files
      {
        assert file in multiset(Shuffled(files, opts.draws(0), 0));
      }
    }
  }

  lemma CountSnoc(files: seq<TestFile>, file: TestFile, selects: string -> bool)
    ensures SelectedCount(files + [file], selects) ==
            SelectedCount(files, selects) + |Selected(file.functions, selects)|
  {
    assert (files + [file])[..|files|] == files;
  }

  lemma {:induction false} CountConcat(a: seq<TestFile>, b: seq<TestFile>, selects: string -> bool)
    ensures SelectedCount(a + b, selects) == SelectedCount(a, selects) + SelectedCount(b, selects)
  {
    if b == [] {
      assert a + b == a;
    } else {
      var init, last := b[..|b| - 1], b[|b| - 1];
      CountConcat(a, init, selects);
      assert b == init + [last] && a + b == a + init + [last];
      CountSnoc(a + init, last, selects);
    }
  }

  lemma CountWithout(files: seq<TestFile>, i: nat, selects: string -> bool)
    requires i < |files|
    ensures SelectedCount(files, selects) ==
            SelectedCount([files[i]], selects) + SelectedCount(Without(files, i), selects)
  {
    hide SelectedCount;
    var front, back := files[..i], files[i + 1..];
    assert files == front + [files[i]] + back && Without(files, i) == front + back;
    CountConcat(front + [files[i]], back, selects);
    CountConcat(front, [files[i]], selects);
    CountConcat(front, back, selects);
  }

  lemma {:induction false} CountReordered(files: seq<TestFile>, draws: Draws, k: nat, selects: string -> bool)
    ensures SelectedCount(Shuffled(files, draws, k), selects) == SelectedCount(files, selects)
    decreases |files|
  {
    if files != [] {
      hide SelectedCount;
      var i := draws(k) % |files|;
      CountReordered(Without(files, i), draws, k + 1, selects);
      CountConcat([files[i]], Shuffled(Without(files, i), draws, k + 1), selects);
      CountWithout(files, i, selects);
    }
  }

  // Whatever the tests do to each other, if all files are sourced to their end,
  // every selected test is counted exactly once, and the run is successful exactly
  // when every file with selected tests is set up and they all pass.
  lemma EveryTestIsCountedOnce(files: seq<TestFile>, opts: Options)
    requires AllSourced(files)
    ensures var t, ordered := FinalTally(files, opts), Order(files, opts.random, opts.draws(0));
            && t.successes + t.failures + t.skipped == SelectedCount(files, opts.selects)
            && (TestsAreSuccessful(t) <==> forall i :: 0 <= i < |ordered| ==> Passes(ordered, opts, i))
  {
    hide AfterFiles, FinalTally, CountedTests, Passes, SelectedCount;
    StillSourced(files, opts);
    var ordered := Order(files, opts.random, opts.draws(0));
    if opts.random {
      CountReordered(files, opts.draws(0), 0, opts.selects);
    }
    assert ordered[..|ordered|] == ordered;
    CountedExactly(files, opts);
    AllCounted(ordered, opts, |ordered|);
    RunSucceedsExactly(files, opts);
    hide Reached, MarkedBefore;
    assert forall i :: 0 <= i < |ordered| ==> Harmless(ordered, opts, i) == Passes(ordered, opts, i);
  }

  // ----- a set-up that fails

  // The set-up of every test ends with failure, and the tear-down does not leave
  // the subshell with success.
  ghost predicate SetupFails(file: TestFile) {
    && "setup" in file.functions
    && (forall test, h :: file.behaviour("setup", test, h).code != 0)
    && ("teardown" in file.functions ==> forall test, h :: file.behaviour("teardown", test, h) != Exits(0))
  }

  lemma AllFail(file: TestFile, test: string, h: History)
    requires SetupFails(file)
    ensures Judge(file, test, h) == Failing
  {
    hide Judge;
    SuccessExactly(file, test, h);
    OwnOutcome(file, test, h);
  }

  lemma OwnOutcome(file: TestFile, test: string, h: History)
    ensures Judge(file, test, h) != Skipped
  {
  }

  lemma {:induction false} RecordFailures(t: Tally, outcomes: seq<Outcome>)
    requires forall i :: 0 <= i < |outcomes| ==> outcomes[i] == Failing
    ensures Record(t, outcomes).failures == t.failures + |outcomes|
    ensures Record(t, outcomes).successes == t.successes && Record(t, outcomes).skipped == t.skipped
  {
    if outcomes != [] {
      RecordFailures(t, outcomes[..|outcomes| - 1]);
    }
  }

  // Then all selected tests of the file are counted as failing, and only they,
  lemma FailingSetupFailsAll(t: Tally, file: TestFile, opts: Options, draws: Draws)
    requires SetupFails(file) && file.sourced(t.history) && SetUp(file, t.history)
    ensures var next := AfterFile(t, file, opts, draws);
            && next.failures == t.failures + |Selected(file.functions, opts.selects)|
            && next.successes == t.successes && next.skipped == t.skipped
  {
    hide Judge, SetUp, SetupFails, Selected, FileHistory, Played;
    var tests := Order(Selected(file.functions, opts.selects), opts.random, draws);
    var outcomes := FileOutcomes(file, tests, t.history, t.setupFailed);
    SetUpExactly(file, t.history);
    OneOutcomePerTest(file, opts, draws, t.history, t.setupFailed);
    forall i | 0 <= i < |outcomes|
      ensures outcomes[i] == Failing
    {
      AllFail(file, tests[i], Played(file, tests[..i], t.history));
    }
    RecordFailures(Noted(t, file, tests), outcomes);
  }

  // and the run is unsuccessful if there are any.
  lemma FailingSetupFailsRun(files: seq<TestFile>, opts: Options, i: nat)
    requires var ordered := Order(files, opts.random, opts.draws(0));
             i < |ordered| && SourcedAt(ordered, opts, i) && SetupFails(ordered[i]) &&
             Selected(ordered[i].functions, opts.selects) != []
    ensures !TestsAreSuccessful(FinalTally(files, opts))
  {
    hide Judge, SetupFails, Selected, FinalTally, Reached, SetUp, Played;
    var ordered := Order(files, opts.random, opts.draws(0));
    RunSucceedsExactly(files, opts);
    SameTests(ordered[i].functions, opts, opts.draws(i + 1));
    var tests, h := TestsOf(ordered, opts, i), Reached(ordered, opts, i).history;
    AllFail(ordered[i], tests[0], Played(ordered[i], tests[..0], h));
    assert !Harmless(ordered, opts, i);
  }

  // ----- files that exit while they are sourced

  lemma OneFileTally(file: TestFile, opts: Options)
    ensures FinalTally([file], opts) == AfterFile(START, file, opts, opts.draws(1))
  {
    hide AfterFile, Order;
    OneFileOrder(file, opts);
    assert [file][..0] == [] && AfterFiles(START, [], opts) == START;
  }

  lemma OneFileOrder(file: TestFile, opts: Options)
    ensures Order([file], opts.random, opts.draws(0)) == [file]
  {
    if opts.random {
      ShuffledOnce([file], opts.draws(0), 0);
      assert Without([file], 0) == [];
    }
  }

  // A file that does so, alone, loses its tests, and the run still reports
  // success.
  lemma LostTests(file: TestFile, opts: Options)
    requires !file.sourced([])
    ensures Total(FinalTally([file], opts)) == 0 && TestsAreSuccessful(FinalTally([file], opts))
  {
    OneFileTally(file, opts);
  }
}
