/** What running files and tests in random order can change. */
module TestOrder {
  import opened Shuffle
  import opened TestRunner
  import opened TestAccounting

  // ----- tests that do not depend on what was run before

  ghost predicate OrderFree(file: TestFile) {
    && (forall h :: file.sourced(h) == file.sourced([]))
    && (forall h :: GlobalSetupSucceeds(file, h) == GlobalSetupSucceeds(file, []))
    && (forall test, h :: Judge(file, test, h) == Judge(file, test, []))
  }

  ghost predicate AllOrderFree(files: seq<TestFile>) {
    forall i :: 0 <= i < |files| ==> OrderFree(files[i])
  }

  // The file leaves the mark of a failed global set-up.
  predicate LeavesMark(file: TestFile) {
    file.sourced([]) && !GlobalSetupSucceeds(file, [])
  }

  // The file has tests that are skipped if it finds a mark, and lost otherwise.
  predicate FeelsMark(file: TestFile, selects: string -> bool) {
    !file.sourced([]) && Selected(file.functions, selects) != []
  }

  predicate MarkFree(files: seq<TestFile>, selects: string -> bool) {
    (forall i :: 0 <= i < |files| ==> !LeavesMark(files[i])) ||
    (forall i :: 0 <= i < |files| ==> !FeelsMark(files[i], selects))
  }

  // The outcomes of a file that finds no mark, in declaration order.
  function OutcomesOf(file: TestFile, selects: string -> bool): seq<Outcome> {
    var tests := Selected(file.functions, selects);
    if !file.sourced([]) then []
    else if GlobalSetupSucceeds(file, []) then Image(tests, (t: string) => Judge(file, t, []))
    else Image(tests, (t: string) => Skipped)
  }

  lemma FixedOutcomes(file: TestFile, tests: seq<string>, h: History, before: bool)
    requires OrderFree(file) && (before && !file.sourced([]) ==> tests == [])
    ensures FileOutcomes(file, tests, h, before) ==
            if !file.sourced([]) then []
            else if GlobalSetupSucceeds(file, []) then Image(tests, (t: string) => Judge(file, t, []))
            else Image(tests, (t: string) => Skipped)
  {
    hide Judge, GlobalSetupSucceeds, Played;
    var alone := Image(tests, (t: string) => Judge(file, t, []));
    forall i | 0 <= i < |tests|
      ensures Judged(file, tests, h)[i] == alone[i]
    {
      assert Judge(file, tests[i], Played(file, tests[..i], h)) == Judge(file, tests[i], []);
    }
    assert Judged(file, tests, h) == alone;
  }

  lemma OrderKeepsOutcomes(file: TestFile, opts: Options, draws: Draws, h: History, before: bool)
    requires OrderFree(file) && (before ==> !FeelsMark(file, opts.selects))
    ensures var tests := Order(Selected(file.functions, opts.selects), opts.random, draws);
            multiset(FileOutcomes(file, tests, h, before)) == multiset(OutcomesOf(file, opts.selects))
  {
    hide Judge, GlobalSetupSucceeds, Image, FileOutcomes, OrderFree;
    var selected := Selected(file.functions, opts.selects);
    SameTests(file.functions, opts, draws);
    FixedOutcomes(file, Order(selected, opts.random, draws), h, before);
    if opts.random {
      ShuffledImage(selected, draws, 0, (t: string) => Skipped);
      ShuffledImage(selected, draws, 0, (t: string) => Judge(file, t, []));
    }
  }

  function AllOutcomes(files: seq<TestFile>, selects: string -> bool): seq<Outcome> {
    if files == [] then [] else
      AllOutcomes(files[..|files| - 1], selects) + OutcomesOf(files[|files| - 1], selects)
  }

  predicate Counts(t: Tally, bag: multiset<Outcome>) {
    t.successes == bag[Success] && t.failures == bag[Failing] && t.skipped == bag[Skipped]
  }

  lemma {:induction false} RecordCounts(t: Tally, outcomes: seq<Outcome>, bag: multiset<Outcome>)
    requires Counts(t, bag)
    ensures Counts(Record(t, outcomes), bag + multiset(outcomes))
  {
    if outcomes != [] {
      var init, last := outcomes[..|outcomes| - 1], outcomes[|outcomes| - 1];
      RecordCounts(t, init, bag);
      assert outcomes == init + [last];
    }
  }

  lemma MarkHasCause(files: seq<TestFile>, opts: Options)
    requires AllOrderFree(files) && AfterFiles(START, files, opts).setupFailed
    ensures exists i :: 0 <= i < |files| && LeavesMark(files[i])
  {
    hide AfterFiles, GlobalSetupSucceeds, Judge;
    assert files[..|files|] == files;
    MarkExactly(files, opts, |files|);
    var j :| 0 <= j < |files| && SourcedAt(files, opts, j) && !SetUpAt(files, opts, j);
    SetUpExactly(files[j], Reached(files, opts, j).history);
    assert OrderFree(files[j]);
  }

  lemma {:induction false} FilesCounted(files: seq<TestFile>, opts: Options)
    requires AllOrderFree(files) && MarkFree(files, opts.selects)
    ensures Counts(AfterFiles(START, files, opts), multiset(AllOutcomes(files, opts.selects)))
  {
    hide FileOutcomes, Selected, Record, SetupFailed, FileHistory, OrderFree, LeavesMark, FeelsMark;
    if files != [] {
      var init, file := files[..|files| - 1], files[|files| - 1];
      FilesCounted(init, opts);
      var t := AfterFiles(START, init, opts);
      var tests := Order(Selected(file.functions, opts.selects), opts.random, opts.draws(|files|));
      if t.setupFailed {
        MarkHasCause(init, opts);
        var i :| 0 <= i < |init| && LeavesMark(init[i]);
        assert LeavesMark(files[i]);
      }
      OrderKeepsOutcomes(file, opts, opts.draws(|files|), t.history, t.setupFailed);
      RecordCounts(Noted(t, file, tests), FileOutcomes(file, tests, t.history, t.setupFailed),
                   multiset(AllOutcomes(init, opts.selects)));
    }
  }

  lemma OutcomesSnoc(files: seq<TestFile>, file: TestFile, selects: string -> bool)
    ensures AllOutcomes(files + [file], selects) == AllOutcomes(files, selects) + OutcomesOf(file, selects)
  {
    hide OutcomesOf;
    assert (files + [file])[..|files|] == files;
  }

  lemma {:induction false} OutcomesConcat(a: seq<TestFile>, b: seq<TestFile>, selects: string -> bool)
    ensures AllOutcomes(a + b, selects) == AllOutcomes(a, selects) + AllOutcomes(b, selects)
  {
    hide OutcomesOf;
    if b == [] {
      assert a + b == a;
    } else {
      hide AllOutcomes;
      var init, last := b[..|b| - 1], b[|b| - 1];
      OutcomesConcat(a, init, selects);
      assert b == init + [last] && a + b == a + init + [last];
      OutcomesSnoc(a + init, last, selects);
      OutcomesSnoc(init, last, selects);
    }
  }

  lemma OutcomesWithout(files: seq<TestFile>, i: nat, selects: string -> bool)
    requires i < |files|
    ensures multiset(AllOutcomes(files, selects)) ==
            multiset(OutcomesOf(files[i], selects)) + multiset(AllOutcomes(Without(files, i), selects))
  {
    hide OutcomesOf, AllOutcomes;
    var front, back := files[..i], files[i + 1..];
    assert files == front + [files[i]] + back && Without(files, i) == front + back;
    OutcomesConcat(front + [files[i]], back, selects);
    OutcomesConcat(front, [files[i]], selects);
    OutcomesConcat(front, back, selects);
    OneFile(files[i], selects);
    MoveToFront(AllOutcomes(front, selects), OutcomesOf(files[i], selects), AllOutcomes(back, selects));
  }

  lemma MoveToFront(a: seq<Outcome>, b: seq<Outcome>, c: seq<Outcome>)
    ensures multiset(a + b + c) == multiset(b) + multiset(a + c)
  {
  }

  lemma OneFile(file: TestFile, selects: string -> bool)
    ensures AllOutcomes([file], selects) == OutcomesOf(file, selects)
  {
    assert [file][..0] == [];
  }

  lemma {:induction false} FilesReordered(files: seq<TestFile>, draws: Draws, k: nat, selects: string -> bool)
    ensures multiset(AllOutcomes(Shuffled(files, draws, k), selects)) == multiset(AllOutcomes(files, selects))
    decreases |files|
  {
    if files != [] {
      hide OutcomesOf, AllOutcomes;
      var i := draws(k) % |files|;
      var rest := Shuffled(Without(files, i), draws, k + 1);
      FilesReordered(Without(files, i), draws, k + 1, selects);
      OutcomesWithout(files, i, selects);
      OutcomesConcat([files[i]], rest, selects);
      OneFile(files[i], selects);
    }
  }

  // If no test depends on what was run before, and no file can find a mark that
  // matters to it, then with random order on or off the counters are those of the
  // outcomes in declaration order.
  lemma CountersAreOutcomes(files: seq<TestFile>, opts: Options)
    requires AllOrderFree(files) && MarkFree(files, opts.selects)
    ensures Counts(FinalTally(files, opts), multiset(AllOutcomes(files, opts.selects)))
  {
    hide OrderFree, AfterFiles, AllOutcomes, LeavesMark, FeelsMark;
    var ordered := Order(files, opts.random, opts.draws(0));
    if opts.random {
      FilesReordered(files, opts.draws(0), 0, opts.selects);
    }
    hide Order;
    SameFiles(files, opts);
    forall i | 0 <= i < |ordered|
      ensures exists j :: 0 <= j < |files| && ordered[i] == files[j]
    {
      assert ordered[i] in files;
    }
    FilesCounted(ordered, opts);
  }

  predicate SameCounters(t: Tally, u: Tally) {
    t.successes == u.successes && t.failures == u.failures && t.skipped == u.skipped
  }

  // So random order then changes no counter.
  lemma RandomOrderChangesNothing(files: seq<TestFile>, opts: Options)
    requires AllOrderFree(files) && MarkFree(files, opts.selects)
    ensures SameCounters(FinalTally(files, opts.(random := true)), FinalTally(files, opts.(random := false)))
  {
    hide FinalTally, AllOutcomes, MarkFree;
    CountersAreOutcomes(files, opts.(random := true));
    CountersAreOutcomes(files, opts.(random := false));
  }

  // ----- a mark that matters

  // How many tests are counted in the rest of a run, given whether it starts
  // with a mark.
  function CountedFrom(files: seq<TestFile>, selects: string -> bool, marked: bool): nat {
    if files == [] then 0 else
      var counted := files[0].sourced([]) || marked;
      (if counted then |Selected(files[0].functions, selects)| else 0) +
      CountedFrom(files[1..], selects, SetupFailed(files[0], [], marked))
  }

  lemma NextFile(done: seq<TestFile>, file: TestFile, opts: Options)
    ensures AfterFiles(START, done + [file], opts) ==
            AfterFile(AfterFiles(START, done, opts), file, opts, opts.draws(|done| + 1))
  {
    hide AfterFile;
    assert (done + [file])[..|done|] == done;
  }

  lemma FileStep(t: Tally, file: TestFile, opts: Options, draws: Draws)
    requires OrderFree(file)
    ensures var next := AfterFile(t, file, opts, draws);
            && next.setupFailed == SetupFailed(file, [], t.setupFailed)
            && Total(next) ==
               Total(t) + if file.sourced([]) || t.setupFailed then |Selected(file.functions, opts.selects)| else 0
  {
    hide AfterFile, Selected, GlobalSetupSucceeds, Judge;
    FileTotal(t, file, opts, draws);
    MarkAfterFile(t, file, opts, draws);
  }

  lemma RestOrderFree(files: seq<TestFile>)
    requires AllOrderFree(files) && files != []
    ensures OrderFree(files[0]) && AllOrderFree(files[1..])
  {
    hide OrderFree;
  }

  lemma {:induction false} TotalOfRest(done: seq<TestFile>, rest: seq<TestFile>, opts: Options)
    requires AllOrderFree(rest)
    ensures Total(AfterFiles(START, done + rest, opts)) ==
            Total(AfterFiles(START, done, opts)) +
            CountedFrom(rest, opts.selects, AfterFiles(START, done, opts).setupFailed)
    decreases |rest|
  {
    hide AfterFile, AfterFiles, Selected, SetupFailed, Total, OrderFree, AllOrderFree;
    if rest == [] {
      assert done + rest == done;
    } else {
      var file, t := rest[0], AfterFiles(START, done, opts);
      RestOrderFree(rest);
      NextFile(done, file, opts);
      FileStep(t, file, opts, opts.draws(|done| + 1));
      assert done + rest == done + [file] + rest[1..];
      TotalOfRest(done + [file], rest[1..], opts);
    }
  }

  lemma TotalOfRun(files: seq<TestFile>, opts: Options)
    requires AllOrderFree(files)
    ensures Total(AfterFiles(START, files, opts)) == CountedFrom(files, opts.selects, false)
  {
    hide CountedFrom;
    assert [] + files == files;
    TotalOfRest([], files, opts);
  }

  lemma SwappedTotals(a: TestFile, b: TestFile, rest: seq<TestFile>, selects: string -> bool)
    requires LeavesMark(a) && FeelsMark(b, selects)
    ensures CountedFrom([a, b] + rest, selects, false) != CountedFrom([b, a] + rest, selects, false)
  {
    hide GlobalSetupSucceeds, Selected;
    assert ([a, b] + rest)[1..] == [b] + rest && ([b] + rest)[1..] == rest;
    assert ([b, a] + rest)[1..] == [a] + rest && ([a] + rest)[1..] == rest;
    assert CountedFrom([b] + rest, selects, true) ==
           |Selected(b.functions, selects)| + CountedFrom(rest, selects, true);
    assert CountedFrom([a] + rest, selects, false) ==
           |Selected(a.functions, selects)| + CountedFrom(rest, selects, true);
  }

  function RandomOpts(opts: Options, draws: Draws): Options {
    opts.(random := true, draws := (k: nat) => draws)
  }

  lemma RunInOrder(files: seq<TestFile>, opts: Options, target: seq<TestFile>) returns (draws: Draws)
    requires AllOrderFree(files) && |files| <= RANDOM_LIMIT && multiset(target) == multiset(files)
    ensures (forall n :: draws(n) < RANDOM_LIMIT)
    ensures Total(FinalTally(files, RandomOpts(opts, draws))) == CountedFrom(target, opts.selects, false)
  {
    hide OrderFree, CountedFrom, AfterFiles;
    draws := EveryPermutationIsPossible(files, target, 0);
    assert Order(files, true, RandomOpts(opts, draws).draws(0)) == target;
    forall i | 0 <= i < |target|
      ensures OrderFree(target[i])
    {
      assert target[i] in multiset(files);
    }
    TotalOfRun(target, RandomOpts(opts, draws));
  }

  lemma BothFirst(files: seq<TestFile>, i: nat, j: nat) returns (rest: seq<TestFile>)
    requires i < |files| && j < |files| && i != j
    ensures multiset([files[i], files[j]] + rest) == multiset([files[j], files[i]] + rest) == multiset(files)
  {
    hide Without;
    var others := Without(files, i);
    var k := if j < i then j else j - 1;
    assert |others| == |files| - 1 && others[k] == files[j] by { WithoutAt(files, i, j); }
    rest := Without(others, k);
    TakenOut(files, i);
    TakenOut(others, k);
    TwoAndRest(files[i], files[j], rest);
    TwoAndRest(files[j], files[i], rest);
  }

  lemma WithoutAt(files: seq<TestFile>, i: nat, j: nat)
    requires i < |files| && j < |files| && i != j
    ensures |Without(files, i)| == |files| - 1 && Without(files, i)[if j < i then j else j - 1] == files[j]
  {
  }

  lemma TakenOut(files: seq<TestFile>, i: nat)
    requires i < |files|
    ensures multiset(files) == multiset{files[i]} + multiset(Without(files, i))
  {
    assert files == files[..i] + [files[i]] + files[i + 1..];
  }

  lemma TwoAndRest(a: TestFile, b: TestFile, rest: seq<TestFile>)
    ensures multiset([a, b] + rest) == multiset{a} + multiset{b} + multiset(rest)
  {
  }

  // Tests that do not depend on what was run before have the same counters in
  // every random order exactly when no file can find a mark that matters to it.
  lemma RandomOrderMattersOtherwise(files: seq<TestFile>, opts: Options) returns (draws: Draws)
    requires AllOrderFree(files) && |files| <= RANDOM_LIMIT && !MarkFree(files, opts.selects)
    ensures forall n :: draws(n) < RANDOM_LIMIT
    ensures !SameCounters(FinalTally(files, RandomOpts(opts, draws)), FinalTally(files, opts.(random := false)))
  {
    hide OrderFree, LeavesMark, FeelsMark, CountedFrom, FinalTally;
    var i :| 0 <= i < |files| && LeavesMark(files[i]);
    var j :| 0 <= j < |files| && FeelsMark(files[j], opts.selects);
    assert i != j by { MarksDiffer(files[i], opts.selects); }
    var rest := BothFirst(files, i, j);
    SwappedTotals(files[i], files[j], rest, opts.selects);
    draws := RunInOrder(files, opts, [files[i], files[j]] + rest);
    var swapped := RunInOrder(files, opts, [files[j], files[i]] + rest);
    if SameCounters(FinalTally(files, RandomOpts(opts, draws)), FinalTally(files, opts.(random := false))) {
      draws := swapped;
    }
  }

  lemma MarksDiffer(file: TestFile, selects: string -> bool)
    ensures !(LeavesMark(file) && FeelsMark(file, selects))
  {
  }

  // ----- tests that depend on others

  lemma OneFileRun(file: TestFile, opts: Options, first: string, second: string)
    requires file.sourced([]) && GlobalSetupSucceeds(file, [])
    requires Order(Selected(file.functions, opts.selects), opts.random, opts.draws(1)) == [first, second]
    ensures var h, h' := Opened(file, []), Opened(file, []) + [Running(file.path, first)];
            FinalTally([file], opts) ==
            Count(Count(START.(history := h' + [Running(file.path, second)]), Judge(file, first, h)),
                  Judge(file, second, h'))
  {
    hide Judge, GlobalSetupSucceeds, Selected, Order, Played, Opened, Record;
    OneFileTally(file, opts);
    var tests := [first, second];
    assert tests[..0] == [] && tests[..1] == [first] && tests[..2] == tests;
    PlayedNext(file, tests, 0, []);
    PlayedNext(file, tests, 1, []);
    NonePlayed(file, []);
    var one := Judge(file, first, Opened(file, []));
    var two := Judge(file, second, Opened(file, []) + [Running(file.path, first)]);
    assert FileOutcomes(file, tests, [], false) == [one, two];
    RecordTwo(START.(history := Played(file, tests, [])), one, two);
  }

  lemma RecordTwo(t: Tally, one: Outcome, two: Outcome)
    ensures Record(t, [one, two]) == Count(Count(t, one), two)
  {
    assert [one, two][..1] == [one] && [one][..0] == [];
    assert Record(t, [one]) == Count(t, one);
  }

  // Fails unless the test a was run before.
  function Needing(path: string, a: string, b: string): TestFile {
    TestFile(path, [a, b], (h: History) => true,
             (f: string, test: string, h: History) =>
               if f == b && Running(path, a) !in h then Returns(1) else Returns(0))
  }

  // Otherwise it can: a test that needs another one to have been run before it
  // passes in declaration order and fails in the reverse one.
  lemma RandomOrderCanMatter(path: string, a: string, b: string, selects: string -> bool)
    requires IsATest(a) && IsATest(b) && a != b && selects(a) && selects(b)
    ensures var file, opts := Needing(path, a, b), Options(selects, true, (k: nat) => (n: nat) => 1);
            var on, off := FinalTally([file], opts), FinalTally([file], opts.(random := false));
            && AllSourced([file]) && file.functions == [a, b]
            && off.successes == 2 && off.failures == 0 && on.successes == 1 && on.failures == 1
  {
    hide FinalTally, Selected, Order;
    var file, opts := Needing(path, a, b), Options(selects, true, (k: nat) => (n: nat) => 1);
    BothSelected(a, b, selects);
    ReverseOrder(a, b, opts);
    assert GlobalSetupSucceeds(file, []);
    OneFileRun(file, opts, b, a);
    OneFileRun(file, opts.(random := false), a, b);
    hide TestStatus;
    forall h
      ensures Judge(file, a, h) == Success && Judge(file, b, h) == if Running(path, a) in h then Success else Failing
    {
      JudgeNeeding(path, a, b, h);
    }
    var h := Opened(file, []);
    assert Running(path, a) in h + [Running(path, a)];
    assert Running(path, a) !in h;
  }

  lemma JudgeNeeding(path: string, a: string, b: string, h: History)
    requires IsATest(a) && IsATest(b) && a != b
    ensures var file := Needing(path, a, b);
            Judge(file, a, h) == Success && Judge(file, b, h) == if Running(path, a) in h then Success else Failing
  {
  }

  lemma BothSelected(a: string, b: string, selects: string -> bool)
    requires IsATest(a) && IsATest(b) && selects(a) && selects(b)
    ensures Selected([a, b], selects) == [a, b]
  {
    var both := [a, b];
    assert both[..1] == [a] && both[..1][..0] == [];
    assert Selected(both[..1], selects) == [a];
  }

  lemma ReverseOrder(a: string, b: string, opts: Options)
    requires opts.draws(1)(0) == 1
    ensures Order([a, b], true, opts.draws(1)) == [b, a]
    ensures Order([a, b], false, opts.draws(1)) == [a, b]
  {
    var draws := opts.draws(1);
    assert Without([a, b], 1) == [a];
    assert Without([a], 0) == [];
    assert draws(1) % 1 == 0;
    ShuffledOnce([a, b], draws, 0);
    ShuffledOnce([a], draws, 1);
  }
}
