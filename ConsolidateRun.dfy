/** The driver half of the consolidation script: `process_module`, which
    picks the test files of one passed module and writes their
    consolidation, and `main`, which walks the modules of a run summary.
    Directories are modelled as maps from file names to files. */
module ConsolidateRun {
  import opened Types
  import opened Seqs
  import opened PyStr
  import opened Consolidate

  // ---------------------------------------------------------------------
  // process_module

  /** A module's `metadata.json`: absent, present but not loadable as JSON,
      or loaded (its string-valued fields). */
  datatype Metadata = NoMetadata | BadMetadata | MetadataOf(fields: map<string, string>)

  /** A module directory: its name, its metadata file and its test files. */
  datatype ModuleDir = ModuleDir(name: string, metadata: Metadata, files: map<string, TestFile>)

  function RawName(id: string): string {
    id + "_test_raw.py"
  }

  function RepairName(id: string, k: nat): string {
    id + "_test_repaired_" + NatToString(k) + ".py"
  }

  function OutputName(id: string): string {
    id + "_test.py"
  }

  /** Different repair numbers name different files. */
  lemma RepairNameInjective(id: string, j: nat, k: nat)
    requires RepairName(id, j) == RepairName(id, k)
    ensures j == k
  {
    var p := id + "_test_repaired_";
    var a, b := NatToString(j), NatToString(k);
    assert RepairName(id, j) == p + a + ".py";
    assert RepairName(id, k) == p + b + ".py";
    assert |a| == |b|;
    assert a == RepairName(id, j)[|p|..|p| + |a|];
    assert b == RepairName(id, k)[|p|..|p| + |b|];
    NatToStringInjective(j, k);
  }

  /** The raw file is never mistaken for a repaired one. */
  lemma RawIsNotRepair(id: string, k: nat)
    ensures RawName(id) != RepairName(id, k)
  {
    assert RawName(id)[|id| + 7] == 'a';
    assert RepairName(id, k)[|id| + 7] == 'e';
  }

  /** The names of repairs `1..k-1`. */
  function RepairNames(id: string, k: nat): set<string> {
    set j | 1 <= j < k :: RepairName(id, j)
  }

  lemma {:induction false} RepairNamesCard(id: string, k: nat)
    ensures |RepairNames(id, k)| == if k == 0 then 0 else k - 1
    decreases k
  {
    if k > 1 {
      RepairNamesCard(id, k - 1);
      assert RepairNames(id, k) == RepairNames(id, k - 1) + {RepairName(id, k - 1)};
      if RepairName(id, k - 1) in RepairNames(id, k - 1) {
        var j :| 1 <= j < k - 1 && RepairName(id, j) == RepairName(id, k - 1);
        RepairNameInjective(id, j, k - 1);
      }
    } else {
      assert RepairNames(id, k) == {};
    }
  }

  /** While repairs `1..k-1` are all present, `k - 1` cannot exceed the
      number of files. */
  lemma RepairsBounded(files: map<string, TestFile>, id: string, k: nat)
    requires 1 <= k
    requires forall j :: 1 <= j < k ==> RepairName(id, j) in files
    ensures k - 1 <= |files.Keys|
  {
    RepairNamesCard(id, k);
    SubsetCard(RepairNames(id, k), files.Keys);
  }

  /** How many repaired files follow, numbered from `k` without a gap. */
  function RepairsFrom(files: map<string, TestFile>, id: string, k: nat): (n: nat)
    requires 1 <= k
    requires forall j :: 1 <= j < k ==> RepairName(id, j) in files
    ensures forall j :: k <= j < k + n ==> RepairName(id, j) in files
    ensures RepairName(id, k + n) !in files
    decreases |files.Keys| + 1 - k
  {
    RepairsBounded(files, id, k);
    if RepairName(id, k) in files then
      RepairsBounded(files, id, k + 1);
      1 + RepairsFrom(files, id, k + 1)
    else 0
  }

  /** The number of repaired files `process_module` picks up. */
  function RepairCount(files: map<string, TestFile>, id: string): nat {
    RepairsFrom(files, id, 1)
  }

  /** The repair count is the first missing repair number, less one: any
      count with the same two properties is this one. */
  lemma RepairCountUnique(files: map<string, TestFile>, id: string, n: nat)
    requires forall j :: 1 <= j <= n ==> RepairName(id, j) in files
    requires RepairName(id, n + 1) !in files
    ensures n == RepairCount(files, id)
  {
    var m := RepairCount(files, id);
    assert RepairName(id, m + 1) !in files;
    assert forall j :: 1 <= j <= m ==> RepairName(id, j) in files;
  }

  function RawPart(files: map<string, TestFile>, id: string): seq<TestFile> {
    if RawName(id) in files then [files[RawName(id)]] else []
  }

  /** The repaired files `1..n`, in order of their number. */
  function RepairedPart(files: map<string, TestFile>, id: string, n: nat): (r: seq<TestFile>)
    requires forall j :: 1 <= j <= n ==> RepairName(id, j) in files
    ensures |r| == n && forall j :: 0 <= j < n ==> r[j] == files[RepairName(id, j + 1)]
    decreases n
  {
    if n == 0 then [] else RepairedPart(files, id, n - 1) + [files[RepairName(id, n)]]
  }

  /** The files `process_module` consolidates: the raw file when present,
      then `repaired_1`, `repaired_2`, … up to the first missing number. */
  function TestFiles(files: map<string, TestFile>, id: string): seq<TestFile> {
    RawPart(files, id) + RepairedPart(files, id, RepairCount(files, id))
  }

  /** The file-list loop of `process_module`. */
  method TestFileList(files: map<string, TestFile>, id: string) returns (testFiles: seq<TestFile>)
    ensures testFiles == TestFiles(files, id)
  {
    testFiles := [];
    if RawName(id) in files {
      testFiles := testFiles + [files[RawName(id)]];
    }
    var repairNum := 1;
    while true
      invariant 1 <= repairNum
      invariant forall j :: 1 <= j < repairNum ==> RepairName(id, j) in files
      invariant RepairCount(files, id) == repairNum - 1 + RepairsFrom(files, id, repairNum)
      invariant testFiles == RawPart(files, id) + RepairedPart(files, id, repairNum - 1)
      decreases RepairsFrom(files, id, repairNum)
    {
      var name := RepairName(id, repairNum);
      if name in files {
        testFiles := testFiles + [files[name]];
        repairNum := repairNum + 1;
      } else {
        break;
      }
    }
  }

  /** A consolidated file `process_module` writes: its name, its content,
      and how many test files went into it. */
  datatype Written = Written(fileName: string, content: string, fileCount: nat)

  /** The module id `process_module` works under: the metadata's own
      `module_id` when it has one, else the one passed in, else the
      directory's name. */
  function EffectiveId(fields: map<string, string>, dir: ModuleDir, moduleId: Option<string>): (id: string)
    ensures "module_id" in fields ==> id == fields["module_id"]
    ensures "module_id" !in fields && moduleId.Some? ==> id == moduleId.value
    ensures "module_id" !in fields && moduleId.None? ==> id == dir.name
  {
    if "module_id" in fields then fields["module_id"] else moduleId.GetOr(dir.name)
  }

  /** What `process_module` writes, or `None` when it returns False. */
  function ProcessOutcome(dir: ModuleDir, moduleId: Option<string>): Option<Written> {
    match dir.metadata
    case NoMetadata => None
    case BadMetadata => None
    case MetadataOf(fields) =>
      if "final_status" !in fields || fields["final_status"] != "passed" then None
      else
        var id := EffectiveId(fields, dir, moduleId);
        var tf := TestFiles(dir.files, id);
        if tf == [] then None
        else if |tf| == 1 then Some(Written(OutputName(id), tf[0].source, 1))
        else Some(Written(OutputName(id), ConsolidatedText(tf), |tf|))
  }

  /** `process_module`. */
  method ProcessModule(dir: ModuleDir, moduleId: Option<string>) returns (w: Option<Written>)
    ensures w == ProcessOutcome(dir, moduleId)
  {
    if dir.metadata.NoMetadata? || dir.metadata.BadMetadata? {
      return None;
    }
    var fields := dir.metadata.fields;
    if "final_status" !in fields || fields["final_status"] != "passed" {
      return None;
    }
    var id := moduleId.GetOr(dir.name);
    if "module_id" in fields {
      id := fields["module_id"];
    }
    var testFiles := TestFileList(dir.files, id);
    if testFiles == [] {
      return None;
    }
    var content;
    if |testFiles| == 1 {
      content := testFiles[0].source;
    } else {
      content := ConsolidateTestFiles(testFiles);
    }
    w := Some(Written(OutputName(id), content, |testFiles|));
  }

  /** A module is consolidated only when its metadata loads and says it
      passed, and only when it has at least one test file. */
  lemma ProcessOnlyPassed(dir: ModuleDir, moduleId: Option<string>)
    requires ProcessOutcome(dir, moduleId).Some?
    ensures dir.metadata.MetadataOf?
    ensures "final_status" in dir.metadata.fields && dir.metadata.fields["final_status"] == "passed"
    ensures var id := EffectiveId(dir.metadata.fields, dir, moduleId);
      && TestFiles(dir.files, id) != []
      && ProcessOutcome(dir, moduleId).value.fileName == OutputName(id)
      && ProcessOutcome(dir, moduleId).value.fileCount == |TestFiles(dir.files, id)|
  {
  }

  /** The file list starts with the raw file iff it exists, and holds
      every repair up to the first gap and none after it. */
  lemma TestFilesShape(files: map<string, TestFile>, id: string)
    ensures var tf := TestFiles(files, id);
      var r := if RawName(id) in files then 1 else 0;
      && |tf| == r + RepairCount(files, id)
      && (RawName(id) in files ==> tf[0] == files[RawName(id)])
      && (forall j :: 1 <= j <= RepairCount(files, id) ==> files[RepairName(id, j)] == tf[r + j - 1])
      && RepairName(id, RepairCount(files, id) + 1) !in files
  {
  }

  /** A single test file is copied unchanged, so consolidating a module
      whose only file is an earlier output gives that output back. */
  lemma SingleFileCopied(dir: ModuleDir, moduleId: Option<string>, f: TestFile)
    requires dir.metadata.MetadataOf?
    requires "final_status" in dir.metadata.fields && dir.metadata.fields["final_status"] == "passed"
    requires TestFiles(dir.files, EffectiveId(dir.metadata.fields, dir, moduleId)) == [f]
    ensures ProcessOutcome(dir, moduleId).Some?
    ensures ProcessOutcome(dir, moduleId).value.content == f.source
  {
  }

  // ---------------------------------------------------------------------
  // main

  /** The run summary: absent, not loadable, or loaded (its module records;
      a missing `modules` key reads as no records). */
  datatype Summary = NoSummary | BadSummary | SummaryOf(modules: seq<map<string, string>>)

  /** `record.get(key)` is truthy: present and non-empty. */
  predicate Truthy(record: map<string, string>, key: string) {
    key in record && record[key] != ""
  }

  predicate IsPassedRecord(record: map<string, string>) {
    "final_status" in record && record["final_status"] == "passed" && Truthy(record, "path")
  }

  /** The records that passed and name a path, in order. */
  function PassedModules(records: seq<map<string, string>>): (r: seq<map<string, string>>)
    ensures forall k :: 0 <= k < |r| ==> IsPassedRecord(r[k])
    ensures Subseq(r, records)
  {
    if records == [] then []
    else
      var init, last := records[..|records| - 1], records[|records| - 1];
      var r := PassedModules(init);
      if IsPassedRecord(last) then r + [last] else r
  }

  /** `path.split("/")`: with at least two parts, the run's timestamp
      directory (first part) and the module directory (second to last). */
  function ModuleDirKey(path: string): (key: Option<(string, string)>)
    ensures key.Some? ==> '/' !in key.value.0 && '/' !in key.value.1
  {
    var parts := Split(path, '/');
    if |parts| >= 2 then Some((parts[0], parts[|parts| - 2])) else None
  }

  /** A path with `/`-free parts picks out its first and second to last part. */
  lemma ModuleDirKeyOfJoin(parts: seq<string>)
    requires |parts| >= 2 && forall i :: 0 <= i < |parts| ==> '/' !in parts[i]
    ensures ModuleDirKey(Join(parts, "/")) == Some((parts[0], parts[|parts| - 2]))
  {
    SplitJoin(parts, '/');
    assert Split(Join(parts, "/"), '/') == parts;
  }

  /** A path with no `/` names no module directory. */
  lemma ModuleDirKeyNoSlash(path: string)
    requires '/' !in path
    ensures ModuleDirKey(path).None?
  {
    SplitJoin([path], '/');
  }

  /** The state of `main`'s loop: the files written, in order, and the
      module ids consolidated so far. */
  datatype MainState = MainState(written: seq<Written>, processed: set<string>)

  /** One pass of `main`'s loop over a passed record. */
  function MainStep(st: MainState, record: map<string, string>, dirs: map<(string, string), ModuleDir>): MainState {
    if !Truthy(record, "module_id") || !Truthy(record, "path") then st
    else
      var id := record["module_id"];
      if id in st.processed then st
      else match ModuleDirKey(record["path"])
        case None => st
        case Some(key) =>
          if key !in dirs then st
          else match ProcessOutcome(dirs[key], Some(id))
            case None => st
            case Some(w) => MainState(st.written + [w], st.processed + {id})
  }

  function MainFold(passed: seq<map<string, string>>, dirs: map<(string, string), ModuleDir>): MainState {
    if passed == [] then MainState([], {})
    else MainStep(MainFold(passed[..|passed| - 1], dirs), passed[|passed| - 1], dirs)
  }

  /** Each module id is consolidated at most once, so the count of
      consolidated modules is the number of files written. */
  lemma {:induction false} MainFoldCounts(passed: seq<map<string, string>>, dirs: map<(string, string), ModuleDir>)
    ensures |MainFold(passed, dirs).written| == |MainFold(passed, dirs).processed|
    decreases |passed|
  {
    if passed != [] {
      MainFoldCounts(passed[..|passed| - 1], dirs);
    }
  }

  /** Every consolidated id comes from a passed record naming it. */
  lemma {:induction false} MainFoldIds(passed: seq<map<string, string>>, dirs: map<(string, string), ModuleDir>, id: string)
    requires id in MainFold(passed, dirs).processed
    ensures exists k :: 0 <= k < |passed| && Truthy(passed[k], "module_id") && passed[k]["module_id"] == id
    decreases |passed|
  {
    var init := passed[..|passed| - 1];
    if id in MainFold(init, dirs).processed {
      MainFoldIds(init, dirs, id);
      var k :| 0 <= k < |init| && Truthy(init[k], "module_id") && init[k]["module_id"] == id;
      assert passed[k] == init[k];
    }
  }

  /** The files written to the output directory, in order. */
  function WriteAll(out: map<string, string>, written: seq<Written>): map<string, string> {
    if written == [] then out
    else
      var last := written[|written| - 1];
      WriteAll(out, written[..|written| - 1])[last.fileName := last.content]
  }

  /** The output directory once `__init__.py` is ensured. */
  function WithInit(out: map<string, string>): map<string, string> {
    if "__init__.py" in out then out else out["__init__.py" := ""]
  }

  /** What `main` does: its exit code, the output directory afterwards, and
      the count it reports. */
  datatype MainResult = MainResult(code: int, out: map<string, string>, total: nat)

  function MainOutcome(summary: Summary, dirs: map<(string, string), ModuleDir>, out: map<string, string>): MainResult {
    if !summary.SummaryOf? || summary.modules == [] then MainResult(1, out, 0)
    else
      var passed := PassedModules(summary.modules);
      if passed == [] then MainResult(1, out, 0)
      else
        var st := MainFold(passed, dirs);
        MainResult(0, WriteAll(WithInit(out), st.written), |st.processed|)
  }

  /** One more record of `main`'s loop is one more step of the fold. */
  lemma MainFoldStep(passed: seq<map<string, string>>, dirs: map<(string, string), ModuleDir>, i: nat)
    requires i < |passed|
    ensures MainFold(passed[..i + 1], dirs) == MainStep(MainFold(passed[..i], dirs), passed[i], dirs)
  {
    assert passed[..i + 1][..i] == passed[..i];
  }

  /** Writing one more file updates that one name. */
  lemma WriteAllSnoc(out: map<string, string>, written: seq<Written>, w: Written)
    ensures WriteAll(out, written + [w]) == WriteAll(out, written)[w.fileName := w.content]
  {
    assert (written + [w])[..|written|] == written;
  }

  /** `main`, over the run directory `base_dir/run_id` given as the module
      directories by (timestamp, directory name), and the output directory
      `output_dir/run_id` given by its files. */
  method ConsolidateAll(summary: Summary, dirs: map<(string, string), ModuleDir>, out: map<string, string>)
    returns (code: int, outDir: map<string, string>, total: nat)
    ensures MainResult(code, outDir, total) == MainOutcome(summary, dirs, out)
  {
    if !summary.SummaryOf? {
      return 1, out, 0;
    }
    var modules := summary.modules;
    if modules == [] {
      return 1, out, 0;
    }
    var passed := PassedModules(modules);
    if passed == [] {
      return 1, out, 0;
    }
    outDir := out;
    if "__init__.py" !in outDir {
      outDir := outDir["__init__.py" := ""];
    }
    total := 0;
    var processed: set<string> := {};
    ghost var written: seq<Written> := [];
    for i := 0 to |passed|
      invariant MainFold(passed[..i], dirs) == MainState(written, processed)
      invariant outDir == WriteAll(WithInit(out), written)
      invariant total == |written|
    {
      MainFoldStep(passed, dirs, i);
      var record := passed[i];
      if !Truthy(record, "module_id") || !Truthy(record, "path") {
        continue;
      }
      var moduleId := record["module_id"];
      if moduleId in processed {
        continue;
      }
      var key := ModuleDirKey(record["path"]);
      if key.None? || key.value !in dirs {
        continue;
      }
      var w := ProcessModule(dirs[key.value], Some(moduleId));
      if w.Some? {
        WriteAllSnoc(WithInit(out), written, w.value);
        outDir := outDir[w.value.fileName := w.value.content];
        written := written + [w.value];
        total := total + 1;
        processed := processed + {moduleId};
      }
    }
    assert passed[..|passed|] == passed;
    MainFoldCounts(passed, dirs);
    code := 0;
  }

  /** `main` reports success exactly when some record passed and names a
      path, and then the reported count is the number of files written. */
  lemma MainExitCode(summary: Summary, dirs: map<(string, string), ModuleDir>, out: map<string, string>)
    ensures var r := MainOutcome(summary, dirs, out);
      && (r.code == 0 <==> summary.SummaryOf? && exists k :: 0 <= k < |summary.modules| && IsPassedRecord(summary.modules[k]))
      && (r.code == 0 ==>
            "__init__.py" in r.out && r.total == |MainFold(PassedModules(summary.modules), dirs).written|)
      && (r.code != 0 ==> r.code == 1 && r.out == out && r.total == 0)
  {
    if summary.SummaryOf? {
      PassedModulesHas(summary.modules);
      MainFoldCounts(PassedModules(summary.modules), dirs);
      WriteAllKeeps(WithInit(out), MainFold(PassedModules(summary.modules), dirs).written, "__init__.py");
    }
  }

  /** The passed records are empty exactly when no record passed with a path. */
  lemma {:induction false} PassedModulesHas(records: seq<map<string, string>>)
    ensures PassedModules(records) != [] <==> exists k :: 0 <= k < |records| && IsPassedRecord(records[k])
    decreases |records|
  {
    if records != [] {
      var init := records[..|records| - 1];
      PassedModulesHas(init);
      if exists k :: 0 <= k < |init| && IsPassedRecord(init[k]) {
        var k :| 0 <= k < |init| && IsPassedRecord(init[k]);
        assert records[k] == init[k];
      }
      if exists k :: 0 <= k < |records| && IsPassedRecord(records[k]) {
        var k :| 0 <= k < |records| && IsPassedRecord(records[k]);
        if k < |init| {
          assert init[k] == records[k];
        }
      }
    }
  }

  lemma {:induction false} WriteAllKeeps(out: map<string, string>, written: seq<Written>, name: string)
    requires name in out
    ensures name in WriteAll(out, written)
    decreases |written|
  {
    if written != [] {
      WriteAllKeeps(out, written[..|written| - 1], name);
    }
  }
}
