/** The result aggregation: the metadata files of the runs folded into
    counters by status, model, prompt and failure type, and a module list. */
module Analyze {
  import opened Types
  import opened Seqs
  import Pipeline

  // ---------------------------------------------------------------------
  // counters

  /** A `defaultdict(int)`: its keys in insertion order and their counts. */
  datatype Counter = Counter(keys: seq<string>, counts: map<string, nat>)

  predicate ValidCounter(c: Counter) {
    && Distinct(c.keys)
    && (forall i :: 0 <= i < |c.keys| ==> c.keys[i] in c.counts)
    && (forall k :: k in c.counts ==> k in c.keys)
  }

  function Count(c: Counter, k: string): nat {
    if k in c.counts then c.counts[k] else 0
  }

  /** `counter[k] += 1`. */
  function Inc(c: Counter, k: string): Counter {
    if k in c.counts then Counter(c.keys, c.counts[k := c.counts[k] + 1])
    else Counter(c.keys + [k], c.counts[k := 1])
  }

  /** Incrementing adds one to the key's count and leaves the others. */
  lemma IncCount(c: Counter, k: string, k': string)
    ensures Count(Inc(c, k), k') == Count(c, k') + if k' == k then 1 else 0
  {
  }

  /** The sum of the counts of `keys`. */
  function SumOver(keys: seq<string>, counts: map<string, nat>): nat
    requires forall i :: 0 <= i < |keys| ==> keys[i] in counts
  {
    if keys == [] then 0 else SumOver(keys[..|keys| - 1], counts) + counts[keys[|keys| - 1]]
  }

  function Total(c: Counter): nat
    requires ValidCounter(c)
  {
    SumOver(c.keys, c.counts)
  }

  /** The sum only reads the counts of its keys. */
  lemma {:induction false} SumFrame(keys: seq<string>, m: map<string, nat>, m': map<string, nat>)
    requires forall i :: 0 <= i < |keys| ==> keys[i] in m && keys[i] in m' && m[keys[i]] == m'[keys[i]]
    ensures SumOver(keys, m) == SumOver(keys, m')
    decreases |keys|
  {
    if keys != [] {
      SumFrame(keys[..|keys| - 1], m, m');
    }
  }

  /** Bumping the count of one of the (distinct) keys bumps the sum. */
  lemma {:induction false} SumBump(keys: seq<string>, m: map<string, nat>, k: string)
    requires Distinct(keys) && k in keys
    requires forall i :: 0 <= i < |keys| ==> keys[i] in m
    ensures SumOver(keys, m[k := m[k] + 1]) == SumOver(keys, m) + 1
    decreases |keys|
  {
    var init, last := keys[..|keys| - 1], keys[|keys| - 1];
    var m' := m[k := m[k] + 1];
    if last == k {
      assert k !in init;
      SumFrame(init, m, m');
    } else {
      assert keys == init + [last];
      assert k in init;
      SumBump(init, m, k);
    }
  }

  /** Incrementing a counter keeps it well formed. */
  lemma IncValid(c: Counter, k: string)
    requires ValidCounter(c)
    ensures ValidCounter(Inc(c, k))
  {
    if k !in c.counts {
      var keys := c.keys + [k];
      assert k !in c.keys;
      assert forall i :: 0 <= i < |c.keys| ==> keys[i] == c.keys[i];
      assert forall i :: 0 <= i < |keys| ==> keys[i] in c.counts[k := 1];
      assert forall k' :: k' in c.counts[k := 1] ==> k' in keys;
    }
  }

  /** Incrementing a counter adds one to its sum. */
  lemma IncTotal(c: Counter, k: string)
    requires ValidCounter(c)
    ensures ValidCounter(Inc(c, k)) && Total(Inc(c, k)) == Total(c) + 1
  {
    IncValid(c, k);
    if k in c.counts {
      SumBump(c.keys, c.counts, k);
    } else {
      var m := c.counts[k := 1];
      assert k !in c.keys;
      SumFrame(c.keys, c.counts, m);
      assert (c.keys + [k])[..|c.keys|] == c.keys;
    }
  }

  /** A per-model or per-prompt tally. */
  datatype Counts = Counts(total: nat, passed: nat, failed: nat)

  /** `tally[k]["total"] += 1` and one of `"passed"` / `"failed"`. */
  function Tally(m: map<string, Counts>, k: string, passed: bool): map<string, Counts> {
    var c := if k in m then m[k] else Counts(0, 0, 0);
    m[k := if passed then Counts(c.total + 1, c.passed + 1, c.failed) else Counts(c.total + 1, c.passed, c.failed + 1)]
  }

  predicate Balanced(m: map<string, Counts>) {
    forall k :: k in m ==> m[k].total == m[k].passed + m[k].failed
  }

  // ---------------------------------------------------------------------
  // analyze_runs

  /** One entry of `stats["modules"]`. */
  datatype ModuleInfo = ModuleInfo(moduleId: string, model: string, promptId: string, finalStatus: string,
                                   finalFailureType: Option<string>, path: string)

  datatype Stats = Stats(
    totalModules: nat, passed: nat, failed: nat, compiled: nat, ran: nat,
    byModel: map<string, Counts>, byPrompt: map<string, Counts>,
    byStatus: Counter, byFailureType: Counter,
    modules: seq<ModuleInfo>)

  const EmptyStats := Stats(0, 0, 0, 0, 0, map[], map[], Counter([], map[]), Counter([], map[]), [])

  /** A metadata file: its path relative to the runs directory, and its
      string-valued fields, or `None` when it does not load. */
  type MetadataFile = (string, Option<map<string, string>>)

  /** `data.get(key, default)`. */
  function GetOr(data: map<string, string>, key: string, default: string): string {
    if key in data then data[key] else default
  }

  /** What the module list records for a loaded file. */
  function InfoOf(path: string, data: map<string, string>): ModuleInfo {
    ModuleInfo(GetOr(data, "module_id", "unknown"), GetOr(data, "model", "unknown"),
               GetOr(data, "prompt_id", "unknown"), GetOr(data, "final_status", "unknown"),
               if "final_failure_type" in data then Some(data["final_failure_type"]) else None, path)
  }

  /** A module entry holds each field the file has, `"unknown"` for a
      missing id, model, prompt or status, no failure type when that field
      is missing, and the file's path. */
  lemma InfoOfFields(path: string, data: map<string, string>)
    ensures var info := InfoOf(path, data);
      && info.moduleId == (if "module_id" in data then data["module_id"] else "unknown")
      && info.model == (if "model" in data then data["model"] else "unknown")
      && info.promptId == (if "prompt_id" in data then data["prompt_id"] else "unknown")
      && info.finalStatus == (if "final_status" in data then data["final_status"] else "unknown")
      && (info.finalFailureType.Some? <==> "final_failure_type" in data)
      && (info.finalFailureType.Some? ==> info.finalFailureType.value == data["final_failure_type"])
      && info.path == path
  {
  }

  /** One loaded file counted in. */
  function Step(st: Stats, path: string, data: map<string, string>): Stats {
    var info := InfoOf(path, data);
    var status := info.finalStatus;
    var failureTruthy := info.finalFailureType.Some? && info.finalFailureType.value != "";
    Stats(
      st.totalModules + 1,
      st.passed + (if status == "passed" then 1 else 0),
      st.failed + (if status == "failed" then 1 else 0),
      st.compiled + (if status == "compiled" then 1 else 0),
      st.ran + (if status == "ran" then 1 else 0),
      Tally(st.byModel, info.model, status == "passed"),
      Tally(st.byPrompt, info.promptId, status == "passed"),
      Inc(st.byStatus, status),
      if failureTruthy then Inc(st.byFailureType, info.finalFailureType.value) else st.byFailureType,
      st.modules + [info])
  }

  /** The statistics of the files, taken in order; a file that does not
      load is skipped. */
  function AnalyzeSpec(files: seq<MetadataFile>): Stats {
    if files == [] then EmptyStats
    else
      var st := AnalyzeSpec(files[..|files| - 1]);
      var f := files[|files| - 1];
      if f.1.None? then st else Step(st, f.0, f.1.value)
  }

  /** One more file: counted in when it loads, skipped when not. */
  lemma AnalyzeStep(files: seq<MetadataFile>, i: nat)
    requires i < |files|
    ensures AnalyzeSpec(files[..i + 1]) ==
      if files[i].1.None? then AnalyzeSpec(files[..i]) else Step(AnalyzeSpec(files[..i]), files[i].0, files[i].1.value)
  {
    assert files[..i + 1][..i] == files[..i];
  }

  /** The body of `analyze_runs`'s loop for a file that loads: the
      counters bumped and the module entry appended, field by field. */
  method CountFile(stats0: Stats, path: string, data: map<string, string>) returns (stats: Stats)
    ensures stats == Step(stats0, path, data)
  {
    stats := stats0;
    var moduleId := GetOr(data, "module_id", "unknown");
    var model := GetOr(data, "model", "unknown");
    var promptId := GetOr(data, "prompt_id", "unknown");
    var finalStatus := GetOr(data, "final_status", "unknown");
    var finalFailureType := if "final_failure_type" in data then Some(data["final_failure_type"]) else None;

    stats := stats.(totalModules := stats.totalModules + 1, byStatus := Inc(stats.byStatus, finalStatus));
    if finalStatus == "passed" {
      stats := stats.(passed := stats.passed + 1);
    } else if finalStatus == "failed" {
      stats := stats.(failed := stats.failed + 1);
    } else if finalStatus == "compiled" {
      stats := stats.(compiled := stats.compiled + 1);
    } else if finalStatus == "ran" {
      stats := stats.(ran := stats.ran + 1);
    }
    if finalFailureType.Some? && finalFailureType.value != "" {
      stats := stats.(byFailureType := Inc(stats.byFailureType, finalFailureType.value));
    }
    stats := stats.(byModel := Tally(stats.byModel, model, finalStatus == "passed"));
    stats := stats.(byPrompt := Tally(stats.byPrompt, promptId, finalStatus == "passed"));
    stats := stats.(modules := stats.modules + [ModuleInfo(moduleId, model, promptId, finalStatus,
                                                           finalFailureType, path)]);
  }

  /** `analyze_runs` over the metadata files in the order it visits them. */
  method AnalyzeRuns(files: seq<MetadataFile>) returns (stats: Stats)
    ensures stats == AnalyzeSpec(files)
  {
    stats := EmptyStats;
    for i := 0 to |files|
      invariant stats == AnalyzeSpec(files[..i])
    {
      AnalyzeStep(files, i);
      var (path, loaded) := files[i];
      if loaded.None? {
        continue;
      }
      stats := CountFile(stats, path, loaded.value);
    }
    assert files[..|files|] == files;
  }

  // ---------------------------------------------------------------------
  // properties

  /** How many module entries have the status. */
  function StatusCount(mods: seq<ModuleInfo>, status: string): nat {
    if mods == [] then 0
    else StatusCount(mods[..|mods| - 1], status) + (if mods[|mods| - 1].finalStatus == status then 1 else 0)
  }

  /** The paths of the files that load, in order. */
  function LoadedPaths(files: seq<MetadataFile>): seq<string> {
    if files == [] then []
    else
      var f := files[|files| - 1];
      LoadedPaths(files[..|files| - 1]) + if f.1.None? then [] else [f.0]
  }

  function PathsOf(mods: seq<ModuleInfo>): (r: seq<string>)
    ensures |r| == |mods| && forall i :: 0 <= i < |mods| ==> r[i] == mods[i].path
  {
    if mods == [] then [] else PathsOf(mods[..|mods| - 1]) + [mods[|mods| - 1].path]
  }

  /** The module count is the number of entries in the module list and
      the sum of the status counts, and the status counter is well formed. */
  lemma {:induction false} TotalIsStatusSum(files: seq<MetadataFile>)
    ensures var st := AnalyzeSpec(files);
      && st.totalModules == |st.modules|
      && ValidCounter(st.byStatus) && Total(st.byStatus) == st.totalModules
    decreases |files|
  {
    if files != [] {
      var init := files[..|files| - 1];
      TotalIsStatusSum(init);
      var st := AnalyzeSpec(init);
      var f := files[|files| - 1];
      if f.1.Some? {
        IncTotal(st.byStatus, InfoOf(f.0, f.1.value).finalStatus);
      }
    }
  }

  /** Only truthy failure types are counted. */
  lemma {:induction false} FailureTypesTruthy(files: seq<MetadataFile>)
    ensures var st := AnalyzeSpec(files);
      ValidCounter(st.byFailureType) && forall k :: k in st.byFailureType.counts ==> k != ""
    decreases |files|
  {
    if files != [] {
      var init := files[..|files| - 1];
      FailureTypesTruthy(init);
      var st := AnalyzeSpec(init);
      var f := files[|files| - 1];
      if f.1.Some? {
        var info := InfoOf(f.0, f.1.value);
        if info.finalFailureType.Some? && info.finalFailureType.value != "" {
          IncValid(st.byFailureType, info.finalFailureType.value);
        }
      }
    }
  }

  lemma StatusCountSnoc(mods: seq<ModuleInfo>, info: ModuleInfo, status: string)
    ensures StatusCount(mods + [info], status) == StatusCount(mods, status) + if info.finalStatus == status then 1 else 0
  {
    assert (mods + [info])[..|mods|] == mods;
  }

  /** What a step does to the module list and to the named status counts. */
  lemma StepCounts(st: Stats, path: string, data: map<string, string>)
    ensures Step(st, path, data).modules == st.modules + [InfoOf(path, data)]
    ensures Step(st, path, data).passed == st.passed + if InfoOf(path, data).finalStatus == "passed" then 1 else 0
    ensures Step(st, path, data).failed == st.failed + if InfoOf(path, data).finalStatus == "failed" then 1 else 0
    ensures Step(st, path, data).compiled == st.compiled + if InfoOf(path, data).finalStatus == "compiled" then 1 else 0
    ensures Step(st, path, data).ran == st.ran + if InfoOf(path, data).finalStatus == "ran" then 1 else 0
  {
  }

  /** Each named status count is the number of module entries with that
      status. */
  lemma {:induction false} StatusCountsMatch(files: seq<MetadataFile>)
    ensures AnalyzeSpec(files).passed == StatusCount(AnalyzeSpec(files).modules, "passed")
    ensures AnalyzeSpec(files).failed == StatusCount(AnalyzeSpec(files).modules, "failed")
    ensures AnalyzeSpec(files).compiled == StatusCount(AnalyzeSpec(files).modules, "compiled")
    ensures AnalyzeSpec(files).ran == StatusCount(AnalyzeSpec(files).modules, "ran")
    decreases |files|
  {
    if files != [] {
      var init := files[..|files| - 1];
      StatusCountsMatch(init);
      var st := AnalyzeSpec(init);
      var f := files[|files| - 1];
      if f.1.Some? {
        var info := InfoOf(f.0, f.1.value);
        StepCounts(st, f.0, f.1.value);
        StatusCountSnoc(st.modules, info, "passed");
        StatusCountSnoc(st.modules, info, "failed");
        StatusCountSnoc(st.modules, info, "compiled");
        StatusCountSnoc(st.modules, info, "ran");
      }
    }
  }

  /** The `by_status` counter holds, for every status, the number of module
      entries with that status. */
  lemma {:induction false} StatusCounted(files: seq<MetadataFile>, status: string)
    ensures Count(AnalyzeSpec(files).byStatus, status) == StatusCount(AnalyzeSpec(files).modules, status)
    decreases |files|
  {
    if files != [] {
      var init := files[..|files| - 1];
      StatusCounted(init, status);
      var st := AnalyzeSpec(init);
      var f := files[|files| - 1];
      if f.1.Some? {
        var info := InfoOf(f.0, f.1.value);
        IncCount(st.byStatus, info.finalStatus, status);
        StatusCountSnoc(st.modules, info, status);
      }
    }
  }

  /** How many module entries record the failure type. */
  function FailureTypeCount(mods: seq<ModuleInfo>, failureType: string): nat {
    if mods == [] then 0
    else
      FailureTypeCount(mods[..|mods| - 1], failureType)
        + (if mods[|mods| - 1].finalFailureType == Some(failureType) then 1 else 0)
  }

  lemma FailureTypeCountSnoc(mods: seq<ModuleInfo>, info: ModuleInfo, failureType: string)
    ensures FailureTypeCount(mods + [info], failureType) ==
      FailureTypeCount(mods, failureType) + if info.finalFailureType == Some(failureType) then 1 else 0
  {
    assert (mods + [info])[..|mods|] == mods;
  }

  /** The `by_failure_type` counter holds, for every non-empty failure type,
      the number of module entries recording it, and nothing for the empty
      one. */
  lemma {:induction false} FailureTypeCounted(files: seq<MetadataFile>, failureType: string)
    ensures failureType != "" ==>
      Count(AnalyzeSpec(files).byFailureType, failureType) == FailureTypeCount(AnalyzeSpec(files).modules, failureType)
    ensures Count(AnalyzeSpec(files).byFailureType, "") == 0
    decreases |files|
  {
    if files != [] {
      var init := files[..|files| - 1];
      FailureTypeCounted(init, failureType);
      var st := AnalyzeSpec(init);
      var f := files[|files| - 1];
      if f.1.Some? {
        var info := InfoOf(f.0, f.1.value);
        FailureTypeCountSnoc(st.modules, info, failureType);
        if info.finalFailureType.Some? && info.finalFailureType.value != "" {
          IncCount(st.byFailureType, info.finalFailureType.value, failureType);
          IncCount(st.byFailureType, info.finalFailureType.value, "");
        }
      }
    }
  }

  /** Every model and prompt tally splits into passed and failed. */
  lemma {:induction false} TalliesBalanced(files: seq<MetadataFile>)
    ensures Balanced(AnalyzeSpec(files).byModel) && Balanced(AnalyzeSpec(files).byPrompt)
    decreases |files|
  {
    if files != [] {
      TalliesBalanced(files[..|files| - 1]);
    }
  }

  /** The model, or with `prompt` the prompt, an entry is tallied under. */
  function TallyKey(info: ModuleInfo, prompt: bool): string {
    if prompt then info.promptId else info.model
  }

  /** The tally of the entries under key `k`, counted from the module list. */
  function TallyOf(mods: seq<ModuleInfo>, prompt: bool, k: string): (r: Counts)
    ensures r.total == r.passed + r.failed
  {
    if mods == [] then Counts(0, 0, 0)
    else
      var c := TallyOf(mods[..|mods| - 1], prompt, k);
      var last := mods[|mods| - 1];
      if TallyKey(last, prompt) != k then c
      else if last.finalStatus == "passed" then Counts(c.total + 1, c.passed + 1, c.failed)
      else Counts(c.total + 1, c.passed, c.failed + 1)
  }

  lemma TallyOfSnoc(mods: seq<ModuleInfo>, info: ModuleInfo, prompt: bool, k: string)
    ensures TallyOf(mods + [info], prompt, k) ==
      var c := TallyOf(mods, prompt, k);
      if TallyKey(info, prompt) != k then c
      else if info.finalStatus == "passed" then Counts(c.total + 1, c.passed + 1, c.failed)
      else Counts(c.total + 1, c.passed, c.failed + 1)
  {
    assert (mods + [info])[..|mods|] == mods;
  }

  /** The tally a map holds for `k`, zero when it has none. */
  function TallyAt(m: map<string, Counts>, k: string): Counts {
    if k in m then m[k] else Counts(0, 0, 0)
  }

  /** The per-prompt tallies, or the per-model ones. */
  function Tallies(st: Stats, prompt: bool): map<string, Counts> {
    if prompt then st.byPrompt else st.byModel
  }

  /** Tallying under `key` changes the tally of `key` only. */
  lemma TallyAtStep(m: map<string, Counts>, key: string, passed: bool, k: string)
    ensures TallyAt(Tally(m, key, passed), k) ==
      var c := TallyAt(m, k);
      if key != k then c
      else if passed then Counts(c.total + 1, c.passed + 1, c.failed)
      else Counts(c.total + 1, c.passed, c.failed + 1)
  {
  }

  /** What a step does to the module list and to the tallies. */
  lemma StepTallies(st: Stats, path: string, data: map<string, string>, prompt: bool)
    ensures Step(st, path, data).modules == st.modules + [InfoOf(path, data)]
    ensures Tallies(Step(st, path, data), prompt) ==
      Tally(Tallies(st, prompt), TallyKey(InfoOf(path, data), prompt), InfoOf(path, data).finalStatus == "passed")
  {
  }

  /** Each model's and each prompt's tally counts the module entries under
      it, passed and not passed. */
  lemma {:induction false} TalliesCount(files: seq<MetadataFile>, prompt: bool, k: string)
    ensures TallyAt(Tallies(AnalyzeSpec(files), prompt), k) == TallyOf(AnalyzeSpec(files).modules, prompt, k)
    decreases |files|
  {
    if files != [] {
      var init := files[..|files| - 1];
      TalliesCount(init, prompt, k);
      var st := AnalyzeSpec(init);
      var f := files[|files| - 1];
      if f.1.Some? {
        TalliesCountStep(st, f.0, f.1.value, prompt, k);
      }
    }
  }

  /** A step that counts a file in keeps each tally equal to its count from
      the module list. */
  lemma TalliesCountStep(st: Stats, path: string, data: map<string, string>, prompt: bool, k: string)
    requires TallyAt(Tallies(st, prompt), k) == TallyOf(st.modules, prompt, k)
    ensures TallyAt(Tallies(Step(st, path, data), prompt), k) == TallyOf(Step(st, path, data).modules, prompt, k)
  {
    var info := InfoOf(path, data);
    TallyOfSnoc(st.modules, info, prompt, k);
    TallyAtStep(Tallies(st, prompt), TallyKey(info, prompt), info.finalStatus == "passed", k);
    StepTallies(st, path, data, prompt);
  }

  /** A key with no entries has no tally: every tally present counts at
      least one entry. */
  lemma {:induction false} TalliesPositive(files: seq<MetadataFile>, prompt: bool, k: string)
    ensures k in Tallies(AnalyzeSpec(files), prompt) ==> Tallies(AnalyzeSpec(files), prompt)[k].total > 0
    decreases |files|
  {
    if files != [] {
      var init := files[..|files| - 1];
      TalliesPositive(init, prompt, k);
      var st := AnalyzeSpec(init);
      var f := files[|files| - 1];
      if f.1.Some? {
        var info := InfoOf(f.0, f.1.value);
        TallyAtStep(Tallies(st, prompt), TallyKey(info, prompt), info.finalStatus == "passed", k);
        StepTallies(st, f.0, f.1.value, prompt);
      }
    }
  }

  /** The module list has one entry per loaded file, in order. */
  lemma {:induction false} ModulesFollowFiles(files: seq<MetadataFile>)
    ensures PathsOf(AnalyzeSpec(files).modules) == LoadedPaths(files)
    decreases |files|
  {
    if files != [] {
      var init := files[..|files| - 1];
      ModulesFollowFiles(init);
      var st := AnalyzeSpec(init);
      var f := files[|files| - 1];
      if f.1.Some? {
        var mods := st.modules + [InfoOf(f.0, f.1.value)];
        assert mods[..|mods| - 1] == st.modules;
      }
    }
  }

  /** The four named status counts never exceed the total; any other
      status is counted only under `by_status`. */
  lemma {:induction false} NamedStatusesBounded(mods: seq<ModuleInfo>)
    ensures StatusCount(mods, "passed") + StatusCount(mods, "failed")
          + StatusCount(mods, "compiled") + StatusCount(mods, "ran") <= |mods|
    decreases |mods|
  {
    if mods != [] {
      NamedStatusesBounded(mods[..|mods| - 1]);
    }
  }

  /** A loaded file is recorded with `"unknown"` for each missing field. */
  lemma MissingFieldsDefault(files: seq<MetadataFile>, path: string, data: map<string, string>)
    ensures var mods := AnalyzeSpec(files + [(path, Some(data))]).modules;
      var info := mods[|mods| - 1];
      && ("module_id" !in data ==> info.moduleId == "unknown")
      && ("model" !in data ==> info.model == "unknown")
      && ("prompt_id" !in data ==> info.promptId == "unknown")
      && ("final_status" !in data ==> info.finalStatus == "unknown")
      && info.path == path
  {
    assert (files + [(path, Some(data))])[..|files|] == files;
  }

  /** A file that does not load changes nothing. */
  lemma UnloadableSkipped(files: seq<MetadataFile>, path: string)
    ensures AnalyzeSpec(files + [(path, None)]) == AnalyzeSpec(files)
  {
    assert (files + [(path, None)])[..|files|] == files;
  }

  /** The metadata `run_pipeline` writes carries no `module_id`,
      `prompt_id` or `final_failure_type`, so the analysis records it under
      module and prompt `"unknown"` with no failure type. */
  lemma PipelineMetadataReadsUnknown(path: string, moduleName: string, model: string, template: string, status: string)
    ensures var info := InfoOf(path, Pipeline.PipelineMetadata(moduleName, model, template, status));
      && info.moduleId == "unknown" && info.promptId == "unknown" && info.finalFailureType.None?
      && info.model == model && info.finalStatus == status
  {
  }
}
