/** The pipeline driver: which modules a run covers, the `--range` option,
    and the per-module loop of generation, test run and bounded repair.
    Generating, repairing and running pytest are an oracle here. */
module Pipeline {
  import opened Types
  import opened Seqs
  import opened PyStr
  import opened Tagging

  // ---------------------------------------------------------------------
  // iter_modules

  /** A directory entry `modules_dir.glob("module_*.py")` matches. */
  predicate IsModuleFile(name: string) {
    |name| >= 10 && StartsWith(name, "module_") && EndsWith(name, ".py")
  }

  /** `Path.stem` of a module file: its name without `.py`. */
  function Stem(name: string): string
    requires IsModuleFile(name)
  {
    name[..|name| - 3]
  }

  /** `int(f.stem.split("_")[-1])`, or `None` where it raises ValueError. */
  function ModuleIndex(name: string): Option<int>
    requires IsModuleFile(name)
  {
    var parts := Split(Stem(name), '_');
    ParseInt(parts[|parts| - 1])
  }

  /** The directory entries the glob matches, in listing order. */
  function Globbed(listing: seq<string>): (r: seq<string>)
    ensures forall k :: 0 <= k < |r| ==> IsModuleFile(r[k])
  {
    if listing == [] then []
    else
      var init, last := listing[..|listing| - 1], listing[|listing| - 1];
      if IsModuleFile(last) then Globbed(init) + [last] else Globbed(init)
  }

  lemma {:induction false} GlobbedHas(listing: seq<string>, x: string)
    ensures x in Globbed(listing) <==> x in listing && IsModuleFile(x)
    decreases |listing|
  {
    if listing != [] {
      var init := listing[..|listing| - 1];
      assert listing == init + [listing[|listing| - 1]];
      GlobbedHas(init, x);
    }
  }

  /** `sorted(modules_dir.glob("module_*.py"))`. */
  function ModuleFiles(listing: seq<string>): (r: seq<string>)
    ensures SortedStrs(r)
    ensures forall k :: 0 <= k < |r| ==> IsModuleFile(r[k])
  {
    var g := Globbed(listing);
    var r := SortStrings(g);
    assert forall k :: 0 <= k < |r| ==> IsModuleFile(r[k]) by {
      forall k | 0 <= k < |r| ensures IsModuleFile(r[k]) {
        SortStringsHas(g, r[k]);
      }
    }
    r
  }

  predicate InRange(idx: int, start: Option<int>, end: Option<int>) {
    (start.None? || idx >= start.value) && (end.None? || idx <= end.value)
  }

  /** A module file is selected when its suffix is an integer in range. */
  predicate Wanted(name: string, start: Option<int>, end: Option<int>)
    requires IsModuleFile(name)
  {
    ModuleIndex(name).Some? && InRange(ModuleIndex(name).value, start, end)
  }

  /** The module files kept by the index filter, in order. */
  function Selected(files: seq<string>, start: Option<int>, end: Option<int>): seq<string>
    requires forall k :: 0 <= k < |files| ==> IsModuleFile(files[k])
  {
    if files == [] then []
    else
      var init, last := files[..|files| - 1], files[|files| - 1];
      var r := Selected(init, start, end);
      if Wanted(last, start, end) then r + [last] else r
  }

  /** What `iter_modules` returns. */
  function IterModulesSpec(listing: seq<string>, start: Option<int>, end: Option<int>): seq<string> {
    var files := ModuleFiles(listing);
    if start.None? && end.None? then files else Selected(files, start, end)
  }

  /** One more file: it is kept exactly when it is wanted. */
  lemma SelectedStep(files: seq<string>, start: Option<int>, end: Option<int>, i: nat, idx: Option<int>)
    requires forall k :: 0 <= k < |files| ==> IsModuleFile(files[k])
    requires i < |files| && idx == ModuleIndex(files[i])
    ensures forall k :: 0 <= k < |files[..i]| ==> IsModuleFile(files[..i][k])
    ensures Selected(files[..i + 1], start, end) ==
      if idx.Some? && InRange(idx.value, start, end) then Selected(files[..i], start, end) + [files[i]]
      else Selected(files[..i], start, end)
  {
    assert files[..i + 1][..i] == files[..i];
  }

  /** `iter_modules`. */
  method IterModules(listing: seq<string>, start: Option<int>, end: Option<int>) returns (selected: seq<string>)
    ensures selected == IterModulesSpec(listing, start, end)
  {
    var files := ModuleFiles(listing);
    if start.None? && end.None? {
      return files;
    }
    selected := [];
    for i := 0 to |files|
      invariant selected == Selected(files[..i], start, end)
    {
      var idx := ModuleIndex(files[i]);
      SelectedStep(files, start, end, i, idx);
      if idx.None? {
        continue;
      }
      if (start.None? || idx.value >= start.value) && (end.None? || idx.value <= end.value) {
        selected := selected + [files[i]];
      }
    }
    assert files[..|files|] == files;
  }

  /** A file is selected iff it is a module file of the listing whose
      suffix is an integer within the inclusive range. */
  lemma {:induction false} SelectedHas(files: seq<string>, start: Option<int>, end: Option<int>, x: string)
    requires forall k :: 0 <= k < |files| ==> IsModuleFile(files[k])
    ensures x in Selected(files, start, end) <==> x in files && Wanted(x, start, end)
    decreases |files|
  {
    if files != [] {
      var init := files[..|files| - 1];
      assert files == init + [files[|files| - 1]];
      SelectedHas(init, start, end, x);
    }
  }

  /** The selection keeps the files' relative order: a subsequence. */
  lemma {:induction false} SelectedSubseq(files: seq<string>, start: Option<int>, end: Option<int>)
    requires forall k :: 0 <= k < |files| ==> IsModuleFile(files[k])
    ensures Subseq(Selected(files, start, end), files)
    decreases |files|
  {
    if files != [] {
      var init, last := files[..|files| - 1], files[|files| - 1];
      SelectedSubseq(init, start, end);
      var r := Selected(init, start, end);
      if Wanted(last, start, end) {
        assert (r + [last])[..|r|] == r;
      }
    }
  }

  /** A sorted file list stays sorted under the filter. */
  lemma {:induction false} SelectedSorted(files: seq<string>, start: Option<int>, end: Option<int>)
    requires forall k :: 0 <= k < |files| ==> IsModuleFile(files[k])
    requires SortedStrs(files)
    ensures SortedStrs(Selected(files, start, end))
    decreases |files|
  {
    if files != [] {
      var init, last := files[..|files| - 1], files[|files| - 1];
      SelectedSorted(init, start, end);
      var r := Selected(init, start, end);
      if Wanted(last, start, end) {
        forall i | 0 <= i < |r| ensures StrLe(r[i], last) {
          SelectedHas(init, start, end, r[i]);
          var k :| 0 <= k < |init| && init[k] == r[i];
          assert files[k] == r[i];
        }
      }
    }
  }

  /** `iter_modules` returns a sorted subsequence of the module files;
      with no bound, all of them, whatever their suffix; with a bound, just
      those whose integer suffix is in range. */
  lemma IterModulesSelects(listing: seq<string>, start: Option<int>, end: Option<int>, x: string)
    ensures var r := IterModulesSpec(listing, start, end);
      && SortedStrs(r) && Subseq(r, ModuleFiles(listing))
      && (start.None? && end.None? ==> (x in r <==> x in listing && IsModuleFile(x)))
      && (start.Some? || end.Some? ==> (x in r <==> x in listing && IsModuleFile(x) && Wanted(x, start, end)))
  {
    var files := ModuleFiles(listing);
    SortStringsHas(Globbed(listing), x);
    GlobbedHas(listing, x);
    if start.None? && end.None? {
      SubseqRefl(files);
    } else {
      SelectedSorted(files, start, end);
      SelectedSubseq(files, start, end);
      SelectedHas(files, start, end, x);
    }
  }

  // ---------------------------------------------------------------------
  // the --range option

  const RangeError := "--range must be like '1-20' (start-end)"

  /** A non-empty bound text must parse as an integer. */
  predicate BadBound(part: string) {
    part != "" && ParseInt(part).None?
  }

  function Bound(part: string): Option<int> {
    if part == "" then None else ParseInt(part)
  }

  /** The `--range` value as `(start, end)`, or the ValueError raised.
      An absent or empty option leaves both bounds unset. */
  function ParseRange(range: Option<string>): (r: Result<(Option<int>, Option<int>), string>)
    ensures range.None? || range.value == "" ==> r == Success((None, None))
    ensures r.Failure? ==> r.error == RangeError
    ensures r.Success? && r.value.0.Some? ==>
      range.Some? && Split(range.value, '-')[0] != "" && ParseInt(Split(range.value, '-')[0]) == r.value.0
    ensures r.Success? && r.value.1.Some? ==>
      range.Some? && |Split(range.value, '-')| > 1 && ParseInt(Split(range.value, '-')[1]) == r.value.1
  {
    if range.None? || range.value == "" then Success((None, None))
    else
      var parts := Split(range.value, '-');
      if BadBound(parts[0]) then Failure(RangeError)
      else if |parts| > 1 && BadBound(parts[1]) then Failure(RangeError)
      else Success((Bound(parts[0]), if |parts| > 1 then Bound(parts[1]) else None))
  }

  /** `start-end`, either side possibly empty: the bounds are what `int()`
      gives for the non-empty sides, and a side that is not an integer is
      an error. */
  lemma RangeTwoParts(a: string, b: string)
    requires '-' !in a && '-' !in b
    ensures ParseRange(Some(a + "-" + b)) ==
      if BadBound(a) || BadBound(b) then Failure(RangeError) else Success((Bound(a), Bound(b)))
  {
    SplitCons(a, b, '-');
    SplitNone(b, '-');
    assert a + "-" + b == a + ['-'] + b;
  }

  /** Parts after the second are ignored. */
  lemma RangeExtraPartsIgnored(a: string, b: string, rest: string)
    requires '-' !in a && '-' !in b
    ensures ParseRange(Some(a + "-" + b + "-" + rest)) == ParseRange(Some(a + "-" + b))
  {
    var long := a + "-" + b + "-" + rest;
    SplitOfParts(a, b, rest);
    RangeTwoParts(a, b);
    var parts := Split(long, '-');
    assert parts[0] == a && parts[1] == b && |parts| > 1;
  }

  lemma SplitOfParts(a: string, b: string, rest: string)
    requires '-' !in a && '-' !in b
    ensures var parts := Split(a + "-" + b + "-" + rest, '-');
      |parts| > 1 && parts[0] == a && parts[1] == b
  {
    var t := b + ['-'] + rest;
    assert a + "-" + b + "-" + rest == a + ['-'] + t;
    SplitCons(a, t, '-');
    SplitCons(b, rest, '-');
  }

  /** A lone number sets only the start. */
  lemma RangeNoDash(a: string)
    requires '-' !in a && a != ""
    ensures ParseRange(Some(a)) == if BadBound(a) then Failure(RangeError) else Success((Bound(a), None))
  {
    SplitNone(a, '-');
  }

  lemma DigitsHaveNoDash(n: nat)
    ensures '-' !in NatToString(n) && NatToString(n) != ""
  {
    var s := NatToString(n);
    assert forall i :: 0 <= i < |s| ==> s[i] != '-';
  }

  /** `"a-b"`, `"a-"` and `"-b"` for numbers `a` and `b`. */
  lemma RangeForms(a: nat, b: nat)
    ensures ParseRange(Some(NatToString(a) + "-" + NatToString(b))) == Success((Some(a), Some(b)))
    ensures ParseRange(Some(NatToString(a) + "-")) == Success((Some(a), None))
    ensures ParseRange(Some("-" + NatToString(b))) == Success((None, Some(b)))
  {
    RangeFormBoth(a, b);
    RangeFormStart(a);
    RangeFormEnd(b);
  }

  lemma RangeFormBoth(a: nat, b: nat)
    ensures ParseRange(Some(NatToString(a) + "-" + NatToString(b))) == Success((Some(a), Some(b)))
  {
    DigitsHaveNoDash(a);
    DigitsHaveNoDash(b);
    ParseIntOfNat(a);
    ParseIntOfNat(b);
    RangeTwoParts(NatToString(a), NatToString(b));
  }

  lemma RangeFormStart(a: nat)
    ensures ParseRange(Some(NatToString(a) + "-")) == Success((Some(a), None))
  {
    DigitsHaveNoDash(a);
    ParseIntOfNat(a);
    RangeTwoParts(NatToString(a), "");
    assert NatToString(a) + "-" + "" == NatToString(a) + "-";
  }

  lemma RangeFormEnd(b: nat)
    ensures ParseRange(Some("-" + NatToString(b))) == Success((None, Some(b)))
  {
    DigitsHaveNoDash(b);
    ParseIntOfNat(b);
    RangeTwoParts("", NatToString(b));
    assert "" + "-" + NatToString(b) == "-" + NatToString(b);
  }

  // ---------------------------------------------------------------------
  // the generation and repair loop

  /** What running pytest on a test file gives: pass or fail, and the log. */
  datatype Outcome = Outcome(passed: bool, log: string)

  datatype AttemptKind = Initial | Repair(iteration: nat)

  /** One entry of `metadata["attempts"]`. */
  datatype Attempt = Attempt(kind: AttemptKind, testFile: string, passed: bool, failureType: Option<FailureType>)

  /** The record of an attempt: a failure type exactly when it failed,
      the tag of its log. */
  function Record(kind: AttemptKind, testFile: string, o: Outcome): (a: Attempt)
    ensures a.failureType.None? <==> a.passed
    ensures a.passed == o.passed && a.kind == kind && a.testFile == testFile
    ensures !a.passed ==> a.failureType.value == TagFailure(o.log)
  {
    Attempt(kind, testFile, o.passed, if o.passed then None else Some(TagFailure(o.log)))
  }

  function RawPath(modDir: string, stem: string): string {
    modDir + "/" + stem + "_test_raw.py"
  }

  function RepairedPath(modDir: string, stem: string, k: nat): string {
    modDir + "/" + stem + "_test_repaired_" + NatToString(k) + ".py"
  }

  /** A module's run: the unit under test, the outcome of its initial
      test file, and the repair oracle. `repair(k, path, log)` is the
      outcome of the `k`-th repair, which is generated from the failing
      test file `path` and its pytest `log`. */
  datatype Run = Run(modDir: string, stem: string, initial: Outcome,
                     repair: (nat, string, string) -> Outcome, maxRetries: int)

  /** An attempt's record paired with the log it produced. */
  type Step = (Attempt, string)

  /** The `k`-th repair run on the failing file `cur` with its `log`. */
  function RepairStep(run: Run, k: nat, cur: string, log: string): Step {
    var o := run.repair(k, cur, log);
    (Record(Repair(k), RepairedPath(run.modDir, run.stem, k), o), o.log)
  }

  /** The repairs from `retries` on, starting from the failing file `cur`
      and its `log`: up to `maxRetries` in all, stopping at the first pass. */
  function RepairTrace(run: Run, retries: nat, cur: string, log: string): seq<Step>
    decreases run.maxRetries - retries
  {
    if retries >= run.maxRetries then []
    else
      var step := RepairStep(run, retries + 1, cur, log);
      if step.0.passed then [step] else [step] + RepairTrace(run, retries + 1, step.0.testFile, step.1)
  }

  /** Every attempt of a module's run, with its log. */
  function Trace(run: Run): seq<Step> {
    var raw := RawPath(run.modDir, run.stem);
    [(Record(Initial, raw, run.initial), run.initial.log)]
      + if run.initial.passed then [] else RepairTrace(run, 0, raw, run.initial.log)
  }

  function Records(t: seq<Step>): (r: seq<Attempt>)
    ensures |r| == |t| && forall i :: 0 <= i < |t| ==> r[i] == t[i].0
  {
    if t == [] then [] else [t[0].0] + Records(t[1..])
  }

  function FinalStatus(attempts: seq<Attempt>): string {
    if exists i :: 0 <= i < |attempts| && attempts[i].passed then "passed" else "failed"
  }

  lemma RecordsAppend(a: seq<Step>, b: seq<Step>)
    ensures Records(a + b) == Records(a) + Records(b)
  {
  }

  /** The records of a run start with the initial attempt. */
  lemma TraceStart(run: Run)
    ensures var raw := RawPath(run.modDir, run.stem);
      Records(Trace(run)) == [Record(Initial, raw, run.initial)]
        + if run.initial.passed then [] else Records(RepairTrace(run, 0, raw, run.initial.log))
  {
    var raw := RawPath(run.modDir, run.stem);
    RecordsAppend([(Record(Initial, raw, run.initial), run.initial.log)],
                  if run.initial.passed then [] else RepairTrace(run, 0, raw, run.initial.log));
  }

  /** The `k`-th iteration of the retry loop, with outcome `o` written to
      `path`: the records still to come start with this repair's, and end
      there when it passes. */
  lemma RetryStep(run: Run, k: nat, cur: string, log: string, attempts: seq<Attempt>, o: Outcome, path: string)
    requires 0 < k <= run.maxRetries
    requires Records(Trace(run)) == attempts + Records(RepairTrace(run, k - 1, cur, log))
    requires o == run.repair(k, cur, log) && path == RepairedPath(run.modDir, run.stem, k)
    ensures o.passed ==> Records(Trace(run)) == attempts + [Record(Repair(k), path, o)]
    ensures !o.passed ==>
      Records(Trace(run)) == attempts + [Record(Repair(k), path, o)] + Records(RepairTrace(run, k, path, o.log))
  {
    var step := RepairStep(run, k, cur, log);
    var r := Record(Repair(k), path, o);
    assert step == (r, o.log);
    if o.passed {
      assert RepairTrace(run, k - 1, cur, log) == [step];
      assert Records([step]) == [r];
    } else {
      var rest := RepairTrace(run, k, path, o.log);
      assert RepairTrace(run, k - 1, cur, log) == [step] + rest;
      RecordsAppend([step], rest);
      AppendAssoc(attempts, [r], Records(rest));
    }
  }

  /** The retry loop for one module: the attempts recorded and the final status. */
  method RunModule(run: Run) returns (attempts: seq<Attempt>, finalStatus: string)
    ensures attempts == Records(Trace(run))
    ensures finalStatus == FinalStatus(attempts)
  {
    var testFile := RawPath(run.modDir, run.stem);
    var passed, log := run.initial.passed, run.initial.log;
    attempts := [Record(Initial, testFile, run.initial)];
    TraceStart(run);
    if !passed {
      var retries := 0;
      var curTestPath := testFile;
      while retries < run.maxRetries
        invariant 0 <= retries
        invariant Records(Trace(run)) == attempts + Records(RepairTrace(run, retries, curTestPath, log))
        decreases run.maxRetries - retries
      {
        retries := retries + 1;
        var repairedPath := RepairedPath(run.modDir, run.stem, retries);
        var o := run.repair(retries, curTestPath, log);
        RetryStep(run, retries, curTestPath, log, attempts, o, repairedPath);
        attempts := attempts + [Record(Repair(retries), repairedPath, o)];
        passed, log := o.passed, o.log;
        if passed {
          break;
        }
        curTestPath := repairedPath;
      }
    }
    finalStatus := if exists i :: 0 <= i < |attempts| && attempts[i].passed then "passed" else "failed";
  }

  /** At most the retries left, and at least one while any are left, the
      first being the next repair of `cur`. */
  lemma {:induction false} RepairTraceLength(run: Run, retries: nat, cur: string, log: string)
    ensures |RepairTrace(run, retries, cur, log)| <= if run.maxRetries > retries then run.maxRetries - retries else 0
    ensures retries < run.maxRetries ==>
      RepairTrace(run, retries, cur, log) != [] && RepairTrace(run, retries, cur, log)[0] == RepairStep(run, retries + 1, cur, log)
    decreases run.maxRetries - retries
  {
    if retries < run.maxRetries {
      var step := RepairStep(run, retries + 1, cur, log);
      if !step.0.passed {
        RepairTraceLength(run, retries + 1, step.0.testFile, step.1);
      }
    }
  }

  /** The repairs are numbered consecutively from `retries + 1`, each file
      named by its number. */
  lemma {:induction false} RepairTraceNumbers(run: Run, retries: nat, cur: string, log: string)
    ensures forall j :: 0 <= j < |RepairTrace(run, retries, cur, log)| ==>
      RepairTrace(run, retries, cur, log)[j].0.kind == Repair(retries + j + 1)
      && RepairTrace(run, retries, cur, log)[j].0.testFile == RepairedPath(run.modDir, run.stem, retries + j + 1)
    decreases run.maxRetries - retries
  {
    if retries < run.maxRetries {
      var step := RepairStep(run, retries + 1, cur, log);
      if !step.0.passed {
        var t, t' := RepairTrace(run, retries, cur, log), RepairTrace(run, retries + 1, step.0.testFile, step.1);
        RepairTraceNumbers(run, retries + 1, step.0.testFile, step.1);
        forall j | 1 <= j < |t|
          ensures t[j].0.kind == Repair(retries + j + 1)
          ensures t[j].0.testFile == RepairedPath(run.modDir, run.stem, retries + j + 1)
        {
          assert t[j] == t'[j - 1];
          assert t'[j - 1].0.kind == Repair(retries + 1 + (j - 1) + 1);
          assert t'[j - 1].0.testFile == RepairedPath(run.modDir, run.stem, retries + 1 + (j - 1) + 1);
        }
      }
    }
  }

  /** Every repair but the last failed, and stopping before the retries
      run out means the last one passed. */
  lemma {:induction false} RepairTraceStops(run: Run, retries: nat, cur: string, log: string)
    ensures forall j :: 0 <= j < |RepairTrace(run, retries, cur, log)| - 1 ==> !RepairTrace(run, retries, cur, log)[j].0.passed
    ensures RepairTrace(run, retries, cur, log) != [] && |RepairTrace(run, retries, cur, log)| < run.maxRetries - retries ==>
      RepairTrace(run, retries, cur, log)[|RepairTrace(run, retries, cur, log)| - 1].0.passed
    decreases run.maxRetries - retries
  {
    if retries < run.maxRetries {
      var step := RepairStep(run, retries + 1, cur, log);
      if !step.0.passed {
        var t, t' := RepairTrace(run, retries, cur, log), RepairTrace(run, retries + 1, step.0.testFile, step.1);
        RepairTraceStops(run, retries + 1, step.0.testFile, step.1);
        RepairTraceLength(run, retries + 1, step.0.testFile, step.1);
        forall j | 1 <= j < |t| - 1 ensures !t[j].0.passed {
          assert t[j] == t'[j - 1];
        }
        if |t| < run.maxRetries - retries {
          assert t[|t| - 1] == t'[|t'| - 1];
        }
      }
    }
  }

  /** Each repair after the first is made from its predecessor's file and log. */
  lemma {:induction false} RepairTraceChain(run: Run, retries: nat, cur: string, log: string)
    ensures forall j :: 1 <= j < |RepairTrace(run, retries, cur, log)| ==>
      RepairTrace(run, retries, cur, log)[j] == RepairStep(run, retries + j + 1,
        RepairTrace(run, retries, cur, log)[j - 1].0.testFile, RepairTrace(run, retries, cur, log)[j - 1].1)
    decreases run.maxRetries - retries
  {
    if retries < run.maxRetries {
      var step := RepairStep(run, retries + 1, cur, log);
      if !step.0.passed {
        var t, t' := RepairTrace(run, retries, cur, log), RepairTrace(run, retries + 1, step.0.testFile, step.1);
        RepairTraceChain(run, retries + 1, step.0.testFile, step.1);
        RepairTraceLength(run, retries + 1, step.0.testFile, step.1);
        forall j | 1 <= j < |t|
          ensures t[j] == RepairStep(run, retries + j + 1, t[j - 1].0.testFile, t[j - 1].1)
        {
          assert t[j] == t'[j - 1];
          if j >= 2 {
            assert t[j - 1] == t'[j - 2];
          }
        }
      }
    }
  }

  /** The attempt list starts with the one initial record; repairs follow,
      numbered 1, 2, … in order, at most `max_retries` of them, none when
      the initial attempt passes or `max_retries` is not positive. */
  lemma AttemptsShape(run: Run)
    ensures var a := Records(Trace(run));
      && a[0].kind == Initial && a[0].testFile == RawPath(run.modDir, run.stem)
      && (forall k :: 1 <= k < |a| ==>
            a[k].kind == Repair(k) && a[k].testFile == RepairedPath(run.modDir, run.stem, k))
      && |a| <= 1 + (if run.maxRetries > 0 then run.maxRetries else 0)
      && (run.initial.passed || run.maxRetries <= 0 ==> |a| == 1)
  {
    var raw := RawPath(run.modDir, run.stem);
    RepairTraceLength(run, 0, raw, run.initial.log);
    RepairTraceNumbers(run, 0, raw, run.initial.log);
    var t := Trace(run);
    if !run.initial.passed {
      var r := RepairTrace(run, 0, raw, run.initial.log);
      forall k | 1 <= k < |t|
        ensures t[k].0.kind == Repair(k) && t[k].0.testFile == RepairedPath(run.modDir, run.stem, k)
      {
        assert t[k] == r[k - 1];
      }
    }
  }

  /** Every attempt but the last failed. */
  lemma TraceStops(run: Run)
    ensures forall k :: 0 <= k < |Trace(run)| - 1 ==> !Trace(run)[k].0.passed
  {
    var raw := RawPath(run.modDir, run.stem);
    var t := Trace(run);
    if !run.initial.passed {
      var r := RepairTrace(run, 0, raw, run.initial.log);
      RepairTraceStops(run, 0, raw, run.initial.log);
      forall k | 1 <= k < |t| - 1 ensures !t[k].0.passed {
        assert t[k] == r[k - 1];
      }
    }
  }

  /** The loop stops at the first passing attempt: every attempt but the
      last failed, and stopping before the retries run out means the last
      one passed. Each repair is made from the previous attempt's file and
      log. */
  lemma AttemptsStopAtFirstPass(run: Run)
    ensures forall k :: 0 <= k < |Trace(run)| - 1 ==> !Trace(run)[k].0.passed
    ensures |Trace(run)| < 1 + run.maxRetries ==> Trace(run)[|Trace(run)| - 1].0.passed || run.maxRetries <= 0
    ensures forall k :: 1 <= k < |Trace(run)| ==>
      Trace(run)[k] == RepairStep(run, k, Trace(run)[k - 1].0.testFile, Trace(run)[k - 1].1)
  {
    var raw := RawPath(run.modDir, run.stem);
    var t := Trace(run);
    TraceStops(run);
    if !run.initial.passed {
      var r := RepairTrace(run, 0, raw, run.initial.log);
      RepairTraceLength(run, 0, raw, run.initial.log);
      RepairTraceStops(run, 0, raw, run.initial.log);
      RepairTraceChain(run, 0, raw, run.initial.log);
      forall k | 1 <= k < |t|
        ensures t[k] == RepairStep(run, k, t[k - 1].0.testFile, t[k - 1].1)
      {
        assert t[k] == r[k - 1];
        if k >= 2 {
          assert t[k - 1] == r[k - 2];
        }
      }
      if |t| < 1 + run.maxRetries && run.maxRetries > 0 {
        assert t[|t| - 1] == r[|r| - 1];
      }
    }
  }

  /** The final status is "passed" iff some attempt passed, which is iff
      the last attempt passed. */
  lemma FinalStatusIsLast(run: Run)
    ensures FinalStatus(Records(Trace(run))) == "passed" <==> Records(Trace(run))[|Trace(run)| - 1].passed
    ensures FinalStatus(Records(Trace(run))) in {"passed", "failed"}
  {
    var t := Trace(run);
    var a := Records(t);
    TraceStops(run);
    if exists i :: 0 <= i < |a| && a[i].passed {
      var i :| 0 <= i < |a| && a[i].passed;
      assert a[i] == t[i].0;
    }
    assert a[|a| - 1] == t[|t| - 1].0;
  }

  /** The string-valued fields of the metadata `run_pipeline` writes for a
      module. */
  function PipelineMetadata(moduleName: string, model: string, template: string, finalStatus: string): (r: map<string, string>)
    ensures r.Keys == {"module", "model", "template", "final_status"}
    ensures "module_id" !in r && "prompt_id" !in r && "final_failure_type" !in r
    ensures r["module"] == moduleName && r["model"] == model && r["final_status"] == finalStatus
  {
    map["module" := moduleName, "model" := model, "template" := template, "final_status" := finalStatus]
  }
}
