/** The test-consolidation engine: several generated test files for one
    module are merged into one. Each file is seen through the result of
    parsing it: its top-level imports, its top-level function definitions
    (with their line spans) and everything else, or no tree at all when it
    could not be read or parsed. */
module Consolidate {
  import opened Types
  import opened Seqs
  import opened PyStr

  // ---------------------------------------------------------------------
  // The parse result

  /** `name` or `name as asname` in an import statement. */
  datatype Alias = Alias(name: string, asname: Option<string>)

  /** `import a, b as c` or `from ..pkg import x` (`modName` is `None` for
      `from . import x`). */
  datatype ImportNode =
    | PlainImport(names: seq<Alias>)
    | FromImport(modName: Option<string>, names: seq<Alias>, level: nat)

  /** Python line numbers start at 1. */
  type LineNo = n: int | 1 <= n witness 1

  /** A top-level `def`, with the line of its `def` and, when the parser
      recorded it, the line of its last statement. */
  datatype FuncNode = FuncNode(name: string, lineno: LineNo, endLineno: Option<nat>)

  datatype TopItem =
    | ImportItem(imp: ImportNode)
    | FuncItem(fn: FuncNode)
    | OtherItem

  /** A test file: its text and, when reading and parsing it succeeded, the
      statements of its module body. */
  datatype TestFile = TestFile(source: string, tree: Option<seq<TopItem>>)

  // ---------------------------------------------------------------------
  // unparse_import (the formatting used when `ast.unparse` is unavailable)

  function UnparseAlias(a: Alias): string {
    match a.asname
    case None => a.name
    case Some(as_) => a.name + " as " + as_
  }

  function AliasList(names: seq<Alias>): string {
    Join(seq(|names|, i requires 0 <= i < |names| => UnparseAlias(names[i])), ", ")
  }

  function Dots(level: nat): (d: string)
    ensures |d| == level && forall i :: 0 <= i < level ==> d[i] == '.'
  {
    seq(level, _ => '.')
  }

  /** The canonical text of an import: never empty, `import a, b as c` for
      a plain import, and `from <dots><module> import …` for a from-import,
      the module left out (a space then follows the dots) when there is none. */
  function UnparseImport(imp: ImportNode): (s: string)
    ensures s != []
    ensures imp.PlainImport? ==> s == "import " + AliasList(imp.names)
    ensures imp.FromImport? && imp.modName.GetOr("") != "" ==>
      s == "from " + Dots(imp.level) + imp.modName.value + " import " + AliasList(imp.names)
    ensures imp.FromImport? && imp.modName.GetOr("") == "" ==>
      s == "from " + Dots(imp.level) + " import " + AliasList(imp.names)
  {
    match imp
    case PlainImport(names) => "import " + AliasList(names)
    case FromImport(m, names, level) =>
      var md := m.GetOr("");
      var dots := if level > 0 then Dots(level) else "";
      if md != "" then "from " + dots + md + " import " + AliasList(names)
      else "from " + dots + " import " + AliasList(names)
  }

  /** A plain import and a from-import never print the same. */
  lemma UnparseKindsDiffer(a: ImportNode, b: ImportNode)
    requires a.PlainImport? && b.FromImport?
    ensures UnparseImport(a) != UnparseImport(b)
  {
    assert UnparseImport(a)[0] == 'i' && UnparseImport(b)[0] == 'f';
  }

  /** The canonical strings of a sequence of imports, in order. */
  function UnparseAll(imps: seq<ImportNode>): (r: seq<string>)
    ensures |r| == |imps|
  {
    if imps == [] then [] else UnparseAll(imps[..|imps| - 1]) + [UnparseImport(imps[|imps| - 1])]
  }

  lemma {:induction false} UnparseAllAt(imps: seq<ImportNode>, i: nat)
    requires i < |imps|
    ensures UnparseAll(imps)[i] == UnparseImport(imps[i])
    decreases |imps|
  {
    if i < |imps| - 1 {
      UnparseAllAt(imps[..|imps| - 1], i);
    }
  }

  lemma UnparseAllPrefix(imps: seq<ImportNode>, k: nat)
    requires k < |imps|
    ensures UnparseAll(imps[..k + 1]) == UnparseAll(imps[..k]) + [UnparseImport(imps[k])]
  {
    assert imps[..k + 1][..k] == imps[..k];
  }

  // ---------------------------------------------------------------------
  // get_function_source_code

  /** `xs[lo:hi]` in Python, for non-negative bounds: out-of-range bounds are
      clamped to the length, and a slice whose end is before its start is empty. */
  function PySlice<T>(xs: seq<T>, lo: nat, hi: nat): (r: seq<T>)
    ensures lo <= hi <= |xs| ==> r == xs[lo..hi]
    ensures lo <= |xs| <= hi ==> r == xs[lo..]
    ensures hi <= lo || |xs| <= lo ==> r == []
  {
    var h := if hi > |xs| then |xs| else hi;
    var l := if lo > h then h else lo;
    xs[l..h]
  }

  /** `not line.strip()`. */
  predicate IsBlank(line: string) {
    Strip(line) == []
  }

  /** The first index from `i` on holding a non-blank line indented at most
      `indent`, or the number of lines when there is none. */
  function ScanEnd(lines: seq<string>, i: nat, indent: nat): (e: nat)
    requires i <= |lines|
    ensures i <= e <= |lines|
    ensures forall j :: i <= j < e ==> IsBlank(lines[j]) || Indent(lines[j]) > indent
    ensures e < |lines| ==> !IsBlank(lines[e]) && Indent(lines[e]) <= indent
    decreases |lines| - i
  {
    if i == |lines| then |lines|
    else if !IsBlank(lines[i]) && Indent(lines[i]) <= indent then i
    else ScanEnd(lines, i + 1, indent)
  }

  /** The lines of a function's source: from its `def` line up to its
      recorded end line when the parser has a non-zero one, and otherwise up
      to the first later non-blank line indented no deeper than the `def`. */
  function FunctionLines(fn: FuncNode, lines: seq<string>): seq<string> {
    var start := fn.lineno - 1;
    if fn.endLineno.Some? && fn.endLineno.value != 0 then
      PySlice(lines, start, fn.endLineno.value)
    else if start < |lines| then
      PySlice(lines, start, ScanEnd(lines, start + 1, Indent(lines[start])))
    else
      PySlice(lines, start, |lines|)
  }

  function FunctionSource(fn: FuncNode, lines: seq<string>): string {
    Join(FunctionLines(fn, lines), "\n")
  }

  /** With an end line the source is exactly the lines `[lineno-1, end_lineno)`. */
  lemma RecordedSpan(fn: FuncNode, lines: seq<string>)
    requires fn.endLineno.Some? && fn.lineno <= fn.endLineno.value <= |lines|
    ensures FunctionLines(fn, lines) == lines[fn.lineno - 1..fn.endLineno.value]
  {
  }

  /** Without one, the source runs from the `def` line to just before the
      first later line that is non-blank and indented no deeper, every line
      in between being blank or deeper (or to the end of the file). */
  lemma FallbackSpan(fn: FuncNode, lines: seq<string>)
    requires fn.endLineno.None? || fn.endLineno == Some(0)
    requires fn.lineno <= |lines|
    ensures var start := fn.lineno - 1;
      exists e :: start < e <= |lines| && FunctionLines(fn, lines) == lines[start..e]
        && (forall j :: start < j < e ==> IsBlank(lines[j]) || Indent(lines[j]) > Indent(lines[start]))
        && (e < |lines| ==> !IsBlank(lines[e]) && Indent(lines[e]) <= Indent(lines[start]))
  {
    var start := fn.lineno - 1;
    var e := ScanEnd(lines, start + 1, Indent(lines[start]));
    assert FunctionLines(fn, lines) == lines[start..e];
  }

  /** `get_function_source_code` on its line-based path. */
  method GetFunctionSourceCode(fn: FuncNode, lines: seq<string>) returns (code: string)
    ensures code == FunctionSource(fn, lines)
  {
    var start := fn.lineno - 1;
    var endExclusive: nat;
    if fn.endLineno.Some? && fn.endLineno.value != 0 {
      endExclusive := fn.endLineno.value;
    } else {
      endExclusive := |lines|;
      if start < |lines| {
        var funcIndent := Indent(lines[start]);
        var i := start + 1;
        while i < |lines|
          invariant start + 1 <= i <= |lines|
          invariant endExclusive == |lines|
          invariant ScanEnd(lines, start + 1, funcIndent) == ScanEnd(lines, i, funcIndent)
        {
          var line := lines[i];
          if IsBlank(line) {
            i := i + 1;
            continue;
          }
          var lineIndent := Indent(line);
          if lineIndent <= funcIndent {
            endExclusive := i;
            break;
          }
          i := i + 1;
        }
      }
    }
    code := Join(PySlice(lines, start, endExclusive), "\n");
  }

  // ---------------------------------------------------------------------
  // extract_test_functions

  predicate IsTestDef(item: TopItem) {
    item.FuncItem? && StartsWith(item.fn.name, "test_")
  }

  /** The top-level imports, in order: each import statement of the body and
      nothing else. */
  function ImportsOf(items: seq<TopItem>): (r: seq<ImportNode>)
    ensures forall i :: 0 <= i < |items| && items[i].ImportItem? ==> items[i].imp in r
    ensures forall k :: 0 <= k < |r| ==> ImportItem(r[k]) in items
  {
    if items == [] then []
    else
      var init, last := items[..|items| - 1], items[|items| - 1];
      assert items == init + [last];
      if last.ImportItem? then ImportsOf(init) + [last.imp] else ImportsOf(init)
  }

  /** The top-level functions whose name starts with `test_`, in order. */
  function TestDefsOf(items: seq<TopItem>): (r: seq<FuncNode>)
    ensures forall i :: 0 <= i < |items| && IsTestDef(items[i]) ==> items[i].fn in r
    ensures forall k :: 0 <= k < |r| ==> FuncItem(r[k]) in items && StartsWith(r[k].name, "test_")
  {
    if items == [] then []
    else
      var init, last := items[..|items| - 1], items[|items| - 1];
      assert items == init + [last];
      if IsTestDef(last) then TestDefsOf(init) + [last.fn] else TestDefsOf(init)
  }

  function NamesOf(fns: seq<FuncNode>): (r: seq<string>)
    ensures |r| == |fns| && forall k :: 0 <= k < |fns| ==> r[k] == fns[k].name
  {
    seq(|fns|, k requires 0 <= k < |fns| => fns[k].name)
  }

  /** The dictionary built by assigning each function under its name in turn. */
  function LastDefs(fns: seq<FuncNode>): (m: map<string, FuncNode>)
    ensures forall k :: 0 <= k < |fns| ==> fns[k].name in m
  {
    if fns == [] then map[]
    else
      var init, last := fns[..|fns| - 1], fns[|fns| - 1];
      LastDefs(init)[last.name := last]
  }

  /** Its keys are exactly the names defined. */
  lemma {:induction false} LastDefsHas(fns: seq<FuncNode>, n: string)
    ensures n in LastDefs(fns) <==> n in NamesOf(fns)
    decreases |fns|
  {
    if fns != [] {
      var init := fns[..|fns| - 1];
      LastDefsHas(init, n);
      if n in NamesOf(init) {
        var k :| 0 <= k < |init| && NamesOf(init)[k] == n;
        assert NamesOf(fns)[k] == n;
      }
      if n in NamesOf(fns) {
        var k :| 0 <= k < |fns| && NamesOf(fns)[k] == n;
        if k < |init| { assert NamesOf(init)[k] == n; }
      }
    }
  }

  /** A name defined more than once keeps its last definition. */
  lemma {:induction false} LastDefsLast(fns: seq<FuncNode>, k: nat)
    requires k < |fns|
    requires forall j :: k < j < |fns| ==> fns[j].name != fns[k].name
    ensures LastDefs(fns)[fns[k].name] == fns[k]
    decreases |fns|
  {
    if k < |fns| - 1 {
      LastDefsLast(fns[..|fns| - 1], k);
    }
  }

  lemma LastDefsKeys(fns: seq<FuncNode>)
    ensures forall n :: n in LastDefs(fns) <==> n in Dedup(NamesOf(fns))
  {
    forall n ensures n in LastDefs(fns) <==> n in Dedup(NamesOf(fns)) {
      DedupHas(NamesOf(fns), n);
      LastDefsHas(fns, n);
    }
  }

  /** What `extract_test_functions` returns: the imports, the test functions
      by name (with their names in dictionary order), and the source lines;
      all empty when the file could not be parsed. */
  datatype Extracted = Extracted(
    imports: seq<ImportNode>,
    testNames: seq<string>,
    tests: map<string, FuncNode>,
    lines: seq<string>)

  function Extract(f: TestFile): (x: Extracted)
    ensures f.tree.None? ==> x == Extracted([], [], map[], [])
    ensures Distinct(x.testNames)
    ensures forall n :: n in x.tests <==> n in x.testNames
  {
    match f.tree
    case None => Extracted([], [], map[], [])
    case Some(items) =>
      var defs := TestDefsOf(items);
      LastDefsKeys(defs);
      Extracted(ImportsOf(items), Dedup(NamesOf(defs)), LastDefs(defs), Lines(f.source))
  }

  lemma ExtractStep(items: seq<TopItem>, i: nat)
    requires i < |items|
    ensures ImportsOf(items[..i + 1]) ==
      if items[i].ImportItem? then ImportsOf(items[..i]) + [items[i].imp] else ImportsOf(items[..i])
    ensures TestDefsOf(items[..i + 1]) ==
      if IsTestDef(items[i]) then TestDefsOf(items[..i]) + [items[i].fn] else TestDefsOf(items[..i])
  {
    assert items[..i + 1][..i] == items[..i];
  }

  lemma DefsSnoc(fns: seq<FuncNode>, f: FuncNode)
    ensures NamesOf(fns + [f]) == NamesOf(fns) + [f.name]
    ensures LastDefs(fns + [f]) == LastDefs(fns)[f.name := f]
    ensures f.name in LastDefs(fns) <==> f.name in NamesOf(fns)
    ensures Dedup(NamesOf(fns + [f])) ==
      if f.name in NamesOf(fns) then Dedup(NamesOf(fns)) else Dedup(NamesOf(fns)) + [f.name]
  {
    assert (fns + [f])[..|fns|] == fns;
    LastDefsHas(fns, f.name);
    DedupSnoc(NamesOf(fns), f.name);
  }

  /** `extract_test_functions`: one pass over the module body. */
  method ExtractTestFunctions(f: TestFile) returns (imports: seq<ImportNode>, testNames: seq<string>,
                                                    tests: map<string, FuncNode>, lines: seq<string>)
    ensures Extracted(imports, testNames, tests, lines) == Extract(f)
  {
    if f.tree.None? {
      return [], [], map[], [];
    }
    var items := f.tree.value;
    lines := Lines(f.source);
    imports, testNames, tests := [], [], map[];
    for i := 0 to |items|
      invariant imports == ImportsOf(items[..i])
      invariant testNames == Dedup(NamesOf(TestDefsOf(items[..i])))
      invariant tests == LastDefs(TestDefsOf(items[..i]))
    {
      var item := items[i];
      ExtractStep(items, i);
      if item.ImportItem? {
        imports := imports + [item.imp];
      } else if item.FuncItem? && StartsWith(item.fn.name, "test_") {
        DefsSnoc(TestDefsOf(items[..i]), item.fn);
        if item.fn.name !in tests {
          testNames := testNames + [item.fn.name];
        }
        tests := tests[item.fn.name := item.fn];
      }
    }
    assert items[..|items|] == items;
  }

  // ---------------------------------------------------------------------
  // consolidate_test_files: the specification

  /** A function definition together with the source lines of its file. */
  datatype Located = Located(fn: FuncNode, lines: seq<string>)

  function FileImportStrs(f: TestFile): seq<string> {
    UnparseAll(Extract(f).imports)
  }

  function FileNames(f: TestFile): seq<string> {
    Extract(f).testNames
  }

  function FileTests(f: TestFile): (m: map<string, Located>)
    ensures forall n :: n in m <==> n in FileNames(f)
  {
    var x := Extract(f);
    map n | n in x.tests :: Located(x.tests[n], x.lines)
  }

  /** Every import string of every file, file after file. */
  function AllImportStrs(files: seq<TestFile>): seq<string> {
    if files == [] then [] else AllImportStrs(files[..|files| - 1]) + FileImportStrs(files[|files| - 1])
  }

  /** Every test name of every file, file after file. */
  function AllNames(files: seq<TestFile>): seq<string> {
    if files == [] then [] else AllNames(files[..|files| - 1]) + FileNames(files[|files| - 1])
  }

  /** The merged dictionary of test functions: each file's functions
      assigned in turn, so a later file overrides an earlier one. */
  function MergedTests(files: seq<TestFile>): map<string, Located> {
    if files == [] then map[] else MergedTests(files[..|files| - 1]) + FileTests(files[|files| - 1])
  }

  /** The merged names are the names of all the files. */
  lemma {:induction false} MergedTestsHas(files: seq<TestFile>, n: string)
    ensures n in MergedTests(files) <==> n in AllNames(files)
    decreases |files|
  {
    if files != [] {
      MergedTestsHas(files[..|files| - 1], n);
    }
  }

  /** The import lines of the result: each import string once, in the order
      of first appearance. */
  lemma MergedTestsKeys(files: seq<TestFile>)
    ensures forall n :: n in MergedTests(files) <==> n in AllNames(files)
  {
    forall n ensures n in MergedTests(files) <==> n in AllNames(files) {
      MergedTestsHas(files, n);
    }
  }

  function MergedImports(files: seq<TestFile>): seq<string> {
    Dedup(AllImportStrs(files))
  }

  /** The test names of the result, each once, in ascending order. */
  function SortedNames(files: seq<TestFile>): (r: seq<string>)
    ensures SortedStrs(r) && Distinct(r)
  {
    var d := Dedup(AllNames(files));
    var r := SortStrings(d);
    DistinctPermutation(d, r);
    r
  }

  /** They are exactly the keys of the merged dictionary. */
  lemma SortedNamesHas(files: seq<TestFile>, n: string)
    ensures n in SortedNames(files) <==> n in MergedTests(files)
  {
    SortStringsHas(Dedup(AllNames(files)), n);
    DedupHas(AllNames(files), n);
    MergedTestsHas(files, n);
  }

  lemma SortedNamesKeys(files: seq<TestFile>)
    ensures forall k :: 0 <= k < |SortedNames(files)| ==> SortedNames(files)[k] in MergedTests(files)
  {
    forall k | 0 <= k < |SortedNames(files)| ensures SortedNames(files)[k] in MergedTests(files) {
      SortedNamesHas(files, SortedNames(files)[k]);
    }
  }

  /** The source of every merged test function, by name. */
  function Sources(merged: map<string, Located>): (srcs: map<string, string>)
    ensures srcs.Keys == merged.Keys
  {
    map n | n in merged :: FunctionSource(merged[n].fn, merged[n].lines)
  }

  /** One function block and one empty line per name. */
  function Blocks(names: seq<string>, srcs: map<string, string>): (r: seq<string>)
    requires forall k :: 0 <= k < |names| ==> names[k] in srcs
    ensures |r| == 2 * |names|
  {
    if names == [] then []
    else Blocks(names[..|names| - 1], srcs) + [srcs[names[|names| - 1]], ""]
  }

  /** The `k`-th block is the source of the `k`-th name. */
  lemma {:induction false} BlocksAt(names: seq<string>, srcs: map<string, string>, k: nat)
    requires forall j :: 0 <= j < |names| ==> names[j] in srcs
    requires k < |names|
    ensures Blocks(names, srcs)[2 * k] == srcs[names[k]]
    ensures Blocks(names, srcs)[2 * k + 1] == ""
    decreases |names|
  {
    var init := names[..|names| - 1];
    if k < |init| {
      BlocksAt(init, srcs, k);
      assert names[k] == init[k];
    }
  }

  /** The lines joined into the result: the imports, an empty line only when
      there is an import, then one block and one empty line per name. */
  function Layout(imps: seq<string>, names: seq<string>, srcs: map<string, string>): (r: seq<string>)
    requires forall k :: 0 <= k < |names| ==> names[k] in srcs
    ensures |r| == |imps| + (if imps == [] then 0 else 1) + 2 * |names|
    ensures r[..|imps|] == imps
    ensures imps != [] ==> r[|imps|] == ""
  {
    var head := if imps == [] then [] else imps + [""];
    assert (head + Blocks(names, srcs))[..|imps|] == imps;
    head + Blocks(names, srcs)
  }

  /** The number of lines before the first block: the imports and, when
      there is one, the empty line after them. */
  function HeadSize(imps: seq<string>): nat {
    |imps| + if imps == [] then 0 else 1
  }

  /** After the head come the blocks. */
  lemma LayoutAt(imps: seq<string>, names: seq<string>, srcs: map<string, string>, j: nat)
    requires forall k :: 0 <= k < |names| ==> names[k] in srcs
    requires j < 2 * |names|
    ensures Layout(imps, names, srcs)[HeadSize(imps) + j] == Blocks(names, srcs)[j]
  {
    var head := if imps == [] then [] else imps + [""];
    assert Layout(imps, names, srcs) == head + Blocks(names, srcs);
  }

  /** The block of the `k`-th name sits at offset `2k` after the head, and an
      empty line follows it. */
  lemma LayoutBlocks(imps: seq<string>, names: seq<string>, srcs: map<string, string>, k: nat)
    requires forall j :: 0 <= j < |names| ==> names[j] in srcs
    requires k < |names|
    ensures Layout(imps, names, srcs)[HeadSize(imps) + 2 * k] == srcs[names[k]]
    ensures Layout(imps, names, srcs)[HeadSize(imps) + 2 * k + 1] == ""
  {
    LayoutAt(imps, names, srcs, 2 * k);
    LayoutAt(imps, names, srcs, 2 * k + 1);
    BlocksAt(names, srcs, k);
  }

  function ConsolidatedLines(files: seq<TestFile>): seq<string> {
    SortedNamesKeys(files);
    Layout(MergedImports(files), SortedNames(files), Sources(MergedTests(files)))
  }

  /** The lines joined, stripped and newline-terminated: the text ends in
      exactly one newline, with no whitespace before it or at its start. */
  function FinishText(lines: seq<string>): (t: string)
    ensures |t| >= 1 && t[|t| - 1] == '\n'
    ensures |t| == 1 || (!IsSpace(t[0]) && !IsSpace(t[|t| - 2]))
  {
    var st := Strip(Join(lines, "\n"));
    assert (st + "\n")[..|st|] == st;
    st + "\n"
  }

  /** What `consolidate_test_files` returns. */
  function ConsolidatedText(files: seq<TestFile>): string {
    FinishText(ConsolidatedLines(files))
  }


  // ---------------------------------------------------------------------
  // consolidate_test_files: the loops

  /** The canonical strings of the collected `(import, source lines)` pairs. */
  function ImportStrsOf(entries: seq<(ImportNode, seq<string>)>): (r: seq<string>)
    ensures |r| == |entries|
  {
    if entries == [] then []
    else ImportStrsOf(entries[..|entries| - 1]) + [UnparseImport(entries[|entries| - 1].0)]
  }

  lemma {:induction false} ImportStrsOfAt(entries: seq<(ImportNode, seq<string>)>, i: nat)
    requires i < |entries|
    ensures ImportStrsOf(entries)[i] == UnparseImport(entries[i].0)
    decreases |entries|
  {
    if i < |entries| - 1 {
      ImportStrsOfAt(entries[..|entries| - 1], i);
    }
  }

  lemma ImportStrsOfSnoc(entries: seq<(ImportNode, seq<string>)>, e: (ImportNode, seq<string>))
    ensures ImportStrsOf(entries + [e]) == ImportStrsOf(entries) + [UnparseImport(e.0)]
  {
    assert (entries + [e])[..|entries|] == entries;
  }

  /** The functions of one file assigned so far, for the names in `ns`. */
  function PartialTests(tests: map<string, FuncNode>, lines: seq<string>, ns: seq<string>): map<string, Located> {
    map n | n in ns && n in tests :: Located(tests[n], lines)
  }

  /** Taking in one more file extends each of the folds by that file. */
  lemma FilesStep(files: seq<TestFile>, fi: nat)
    requires fi < |files|
    ensures AllImportStrs(files[..fi + 1]) == AllImportStrs(files[..fi]) + FileImportStrs(files[fi])
    ensures AllNames(files[..fi + 1]) == AllNames(files[..fi]) + FileNames(files[fi])
    ensures MergedTests(files[..fi + 1]) == MergedTests(files[..fi]) + FileTests(files[fi])
  {
    assert files[..fi + 1][..fi] == files[..fi];
  }

  /** One step of the import loop: a collected import prints the same as
      `e` exactly when `e`'s string was seen before, and the fold of seen
      strings grows by that string unless it was there already. */
  lemma ImportStep(entries: seq<(ImportNode, seq<string>)>, seen: seq<string>, e: (ImportNode, seq<string>))
    requires ImportStrsOf(entries) == Dedup(seen)
    ensures (exists x :: x in entries && UnparseImport(x.0) == UnparseImport(e.0)) <==> UnparseImport(e.0) in seen
    ensures UnparseImport(e.0) in seen ==> ImportStrsOf(entries) == Dedup(seen + [UnparseImport(e.0)])
    ensures UnparseImport(e.0) !in seen ==> ImportStrsOf(entries + [e]) == Dedup(seen + [UnparseImport(e.0)])
  {
    var s := UnparseImport(e.0);
    DedupSnoc(seen, s);
    DedupHas(seen, s);
    if s in seen {
      var j :| 0 <= j < |Dedup(seen)| && Dedup(seen)[j] == s;
      ImportStrsOfAt(entries, j);
      assert entries[j] in entries && UnparseImport(entries[j].0) == s;
    }
    if x :| x in entries && UnparseImport(x.0) == s {
      var j :| 0 <= j < |entries| && entries[j] == x;
      ImportStrsOfAt(entries, j);
      assert ImportStrsOf(entries)[j] == s;
    }
    ImportStrsOfSnoc(entries, e);
  }

  lemma PartialTestsSnoc(tests: map<string, FuncNode>, lines: seq<string>, ns: seq<string>, k: nat)
    requires k < |ns| && ns[k] in tests
    ensures PartialTests(tests, lines, ns[..k + 1]) ==
      PartialTests(tests, lines, ns[..k])[ns[k] := Located(tests[ns[k]], lines)]
  {
    assert ns[..k + 1] == ns[..k] + [ns[k]];
  }

  lemma PartialTestsKeys(tests: map<string, FuncNode>, lines: seq<string>, ns: seq<string>)
    requires forall j :: 0 <= j < |ns| ==> ns[j] in tests
    ensures forall n :: n in PartialTests(tests, lines, ns) <==> n in ns
  {
  }

  /** During the name loop the merged keys are the names seen so far. */
  lemma NameKeys(merged: map<string, Located>, names: seq<string>, tests: map<string, FuncNode>,
                 lines: seq<string>, ns: seq<string>)
    requires forall j :: 0 <= j < |ns| ==> ns[j] in tests
    requires forall n :: n in merged <==> n in names
    ensures forall n :: n in merged + PartialTests(tests, lines, ns) <==> n in names + ns
  {
    PartialTestsKeys(tests, lines, ns);
  }

  /** One assignment of the name loop. */
  lemma NameAssign(merged: map<string, Located>, tests: map<string, FuncNode>,
                   lines: seq<string>, ns: seq<string>, k: nat)
    requires k < |ns| && ns[k] in tests
    ensures merged + PartialTests(tests, lines, ns[..k + 1]) ==
      (merged + PartialTests(tests, lines, ns[..k]))[ns[k] := Located(tests[ns[k]], lines)]
  {
    PartialTestsSnoc(tests, lines, ns, k);
  }

  /** One step of the import loop, over the imports of one file. */
  lemma ImportsStep(collected: seq<(ImportNode, seq<string>)>, seen: seq<string>, imports: seq<ImportNode>,
                    k: nat, sourceLines: seq<string>)
    requires k < |imports|
    requires ImportStrsOf(collected) == Dedup(seen + UnparseAll(imports[..k]))
    ensures (exists e :: e in collected && UnparseImport(e.0) == UnparseImport(imports[k])) ==>
      ImportStrsOf(collected) == Dedup(seen + UnparseAll(imports[..k + 1]))
    ensures !(exists e :: e in collected && UnparseImport(e.0) == UnparseImport(imports[k])) ==>
      ImportStrsOf(collected + [(imports[k], sourceLines)]) == Dedup(seen + UnparseAll(imports[..k + 1]))
  {
    UnparseAllPrefix(imports, k);
    var sofar := seen + UnparseAll(imports[..k]);
    assert seen + UnparseAll(imports[..k + 1]) == sofar + [UnparseImport(imports[k])];
    ImportStep(collected, sofar, (imports[k], sourceLines));
  }

  /** The import loop of `consolidate_test_files` for one file: an import
      is collected unless a collected one prints the same. */
  method CollectImports(allImports: seq<(ImportNode, seq<string>)>, imports: seq<ImportNode>,
                        sourceLines: seq<string>, ghost seen: seq<string>)
    returns (collected: seq<(ImportNode, seq<string>)>)
    requires ImportStrsOf(allImports) == Dedup(seen)
    ensures ImportStrsOf(collected) == Dedup(seen + UnparseAll(imports))
  {
    collected := allImports;
    assert seen + UnparseAll(imports[..0]) == seen;
    for k := 0 to |imports|
      invariant ImportStrsOf(collected) == Dedup(seen + UnparseAll(imports[..k]))
    {
      var impStr := UnparseImport(imports[k]);
      ImportsStep(collected, seen, imports, k, sourceLines);
      if !(exists e :: e in collected && UnparseImport(e.0) == impStr) {
        collected := collected + [(imports[k], sourceLines)];
      }
    }
    assert imports[..|imports|] == imports;
  }

  /** One step of the function loop, over the test functions of one file. */
  lemma TestsStep(allTests: map<string, Located>, seen: seq<string>, tests: map<string, FuncNode>,
                  testNames: seq<string>, sourceLines: seq<string>, k: nat,
                  merged: map<string, Located>, names: seq<string>)
    requires forall n :: n in allTests <==> n in seen
    requires forall n :: n in tests <==> n in testNames
    requires k < |testNames|
    requires merged == allTests + PartialTests(tests, sourceLines, testNames[..k])
    requires names == Dedup(seen + testNames[..k])
    ensures testNames[k] in tests
    ensures merged[testNames[k] := Located(tests[testNames[k]], sourceLines)] ==
      allTests + PartialTests(tests, sourceLines, testNames[..k + 1])
    ensures (if testNames[k] in merged then names else names + [testNames[k]]) ==
      Dedup(seen + testNames[..k + 1])
  {
    var name := testNames[k];
    assert name in testNames;
    assert forall j :: 0 <= j < |testNames[..k]| ==> testNames[..k][j] in testNames;
    NameKeys(allTests, seen, tests, sourceLines, testNames[..k]);
    NameAssign(allTests, tests, sourceLines, testNames, k);
    assert seen + testNames[..k + 1] == (seen + testNames[..k]) + [name];
    DedupSnoc(seen + testNames[..k], name);
  }

  /** The function loop of `consolidate_test_files` for one file: each test
      function is assigned under its name, and a new name is appended to
      the dictionary's key order. */
  method CollectTests(allTests: map<string, Located>, allNames: seq<string>, tests: map<string, FuncNode>,
                      testNames: seq<string>, sourceLines: seq<string>, ghost seen: seq<string>)
    returns (merged: map<string, Located>, names: seq<string>)
    requires forall n :: n in allTests <==> n in seen
    requires allNames == Dedup(seen)
    requires forall n :: n in tests <==> n in testNames
    ensures merged == allTests + PartialTests(tests, sourceLines, testNames)
    ensures names == Dedup(seen + testNames)
  {
    merged, names := allTests, allNames;
    assert seen + testNames[..0] == seen;
    assert PartialTests(tests, sourceLines, testNames[..0]) == map[];
    for k := 0 to |testNames|
      invariant merged == allTests + PartialTests(tests, sourceLines, testNames[..k])
      invariant names == Dedup(seen + testNames[..k])
    {
      var name := testNames[k];
      TestsStep(allTests, seen, tests, testNames, sourceLines, k, merged, names);
      if name !in merged {
        names := names + [name];
      }
      merged := merged[name := Located(tests[name], sourceLines)];
    }
    assert testNames[..|testNames|] == testNames;
  }

  /** The `import_strs` loop: the printed imports, each once, empty ones dropped. */
  method DistinctImportStrs(allImports: seq<(ImportNode, seq<string>)>) returns (importStrs: seq<string>)
    ensures importStrs == Dedup(ImportStrsOf(allImports))
  {
    importStrs := [];
    for k := 0 to |allImports|
      invariant importStrs == Dedup(ImportStrsOf(allImports[..k]))
    {
      var impStr := UnparseImport(allImports[k].0);
      assert allImports[..k + 1] == allImports[..k] + [allImports[k]];
      ImportStrsOfSnoc(allImports[..k], allImports[k]);
      DedupSnoc(ImportStrsOf(allImports[..k]), impStr);
      DedupHas(ImportStrsOf(allImports[..k]), impStr);
      if impStr != "" && impStr !in importStrs {
        importStrs := importStrs + [impStr];
      }
    }
    assert allImports[..|allImports|] == allImports;
  }

  /** The source a merged name maps to. */
  lemma SourcesAt(merged: map<string, Located>, n: string)
    requires n in merged
    ensures n in Sources(merged) && Sources(merged)[n] == FunctionSource(merged[n].fn, merged[n].lines)
  {
  }

  /** One more name adds its block and an empty line. */
  lemma BlocksSnoc(names: seq<string>, srcs: map<string, string>, k: nat)
    requires forall j :: 0 <= j < |names| ==> names[j] in srcs
    requires k < |names|
    ensures Blocks(names[..k + 1], srcs) == Blocks(names[..k], srcs) + [srcs[names[k]], ""]
  {
    assert names[..k + 1][..k] == names[..k];
  }

  lemma BlocksStep(head: seq<string>, names: seq<string>, merged: map<string, Located>, k: nat,
                   lines: seq<string>, code: string)
    requires forall j :: 0 <= j < |names| ==> names[j] in merged
    requires k < |names|
    requires lines == head + Blocks(names[..k], Sources(merged))
    requires code == FunctionSource(merged[names[k]].fn, merged[names[k]].lines)
    ensures lines + [code, ""] == head + Blocks(names[..k + 1], Sources(merged))
  {
    SourcesAt(merged, names[k]);
    BlocksSnoc(names, Sources(merged), k);
  }

  /** The block loop: for each name in turn, its function's source and an
      empty line are appended. */
  method AppendBlocks(head: seq<string>, names: seq<string>, merged: map<string, Located>)
    returns (lines: seq<string>)
    requires forall k :: 0 <= k < |names| ==> names[k] in merged
    ensures lines == head + Blocks(names, Sources(merged))
  {
    lines := head;
    for k := 0 to |names|
      invariant lines == head + Blocks(names[..k], Sources(merged))
    {
      var loc := merged[names[k]];
      var code := GetFunctionSourceCode(loc.fn, loc.lines);
      BlocksStep(head, names, merged, k, lines, code);
      lines := lines + [code, ""];
    }
    assert names[..|names|] == names;
  }

  /** The distinct import strings are the merged imports. */
  lemma ImportStrsOfResult(allImports: seq<(ImportNode, seq<string>)>, files: seq<TestFile>, importStrs: seq<string>)
    requires ImportStrsOf(allImports) == MergedImports(files)
    requires importStrs == Dedup(ImportStrsOf(allImports))
    ensures importStrs == MergedImports(files)
  {
    DedupOfDistinct(MergedImports(files));
  }

  /** Sorting the merged names gives the sorted names, each a merged key. */
  lemma NamesOfResult(files: seq<TestFile>, allNames: seq<string>)
    requires allNames == Dedup(AllNames(files))
    ensures SortStrings(allNames) == SortedNames(files)
    ensures forall k :: 0 <= k < |SortedNames(files)| ==> SortedNames(files)[k] in MergedTests(files)
  {
    SortedNamesKeys(files);
  }

  /** The head and the blocks of the sorted names are the lines of the result. */
  lemma LinesOfResult(files: seq<TestFile>, head: seq<string>, lines: seq<string>)
    requires head == if MergedImports(files) == [] then [] else MergedImports(files) + [""]
    requires forall k :: 0 <= k < |SortedNames(files)| ==> SortedNames(files)[k] in MergedTests(files)
    requires lines == head + Blocks(SortedNames(files), Sources(MergedTests(files)))
    ensures lines == ConsolidatedLines(files)
  {
  }

  /** The output half of `consolidate_test_files`: the import strings (each
      once, empty ones dropped), a blank line when there is one, and the
      blocks of the sorted names, joined, stripped and newline-terminated. */
  method Render(allImports: seq<(ImportNode, seq<string>)>, allTests: map<string, Located>, allNames: seq<string>,
                ghost files: seq<TestFile>)
    returns (text: string)
    requires ImportStrsOf(allImports) == MergedImports(files)
    requires allTests == MergedTests(files)
    requires allNames == Dedup(AllNames(files))
    ensures text == ConsolidatedText(files)
  {
    var importStrs := DistinctImportStrs(allImports);
    ImportStrsOfResult(allImports, files, importStrs);
    var lines: seq<string> := [];
    for k := 0 to |importStrs|
      invariant lines == importStrs[..k]
    {
      lines := lines + [importStrs[k]];
    }
    assert importStrs[..|importStrs|] == importStrs;
    if lines != [] {
      lines := lines + [""];
    }
    ghost var head := lines;
    var names := SortStrings(allNames);
    NamesOfResult(files, allNames);
    lines := AppendBlocks(lines, names, allTests);
    LinesOfResult(files, head, lines);
    text := Strip(Join(lines, "\n")) + "\n";
  }

  /** What a file's extraction hands the two loops: its imports print as
      the file's import strings, and its functions assigned by name are the
      file's tests. */
  lemma ExtractedOfFile(f: TestFile, imports: seq<ImportNode>, testNames: seq<string>,
                        tests: map<string, FuncNode>, sourceLines: seq<string>)
    requires Extracted(imports, testNames, tests, sourceLines) == Extract(f)
    ensures UnparseAll(imports) == FileImportStrs(f)
    ensures testNames == FileNames(f)
    ensures forall n :: n in tests <==> n in testNames
    ensures PartialTests(tests, sourceLines, testNames) == FileTests(f)
  {
  }

  /** The folds over the files taken so far, as the loop keeps them. */
  predicate FoldedSoFar(files: seq<TestFile>, allImports: seq<(ImportNode, seq<string>)>,
                        allTests: map<string, Located>, allNames: seq<string>)
  {
    ImportStrsOf(allImports) == Dedup(AllImportStrs(files))
    && allTests == MergedTests(files)
    && allNames == Dedup(AllNames(files))
  }

  /** One file of the loop: the folds grow by that file. */
  lemma FileFolded(files: seq<TestFile>, fi: nat, imports: seq<ImportNode>, testNames: seq<string>,
                   tests: map<string, FuncNode>, sourceLines: seq<string>,
                   allImports: seq<(ImportNode, seq<string>)>, allTests: map<string, Located>, allNames: seq<string>)
    requires fi < |files|
    requires Extracted(imports, testNames, tests, sourceLines) == Extract(files[fi])
    requires ImportStrsOf(allImports) == Dedup(AllImportStrs(files[..fi]) + UnparseAll(imports))
    requires allTests == MergedTests(files[..fi]) + PartialTests(tests, sourceLines, testNames)
    requires allNames == Dedup(AllNames(files[..fi]) + testNames)
    ensures FoldedSoFar(files[..fi + 1], allImports, allTests, allNames)
  {
    ExtractedOfFile(files[fi], imports, testNames, tests, sourceLines);
    FilesStep(files, fi);
  }

  /** `consolidate_test_files`: a pass over the files collecting imports
      and assigning test functions by name, then the output. */
  method ConsolidateTestFiles(files: seq<TestFile>) returns (text: string)
    ensures text == ConsolidatedText(files)
  {
    var allImports: seq<(ImportNode, seq<string>)> := [];
    var allTests: map<string, Located> := map[];
    var allNames: seq<string> := [];
    for fi := 0 to |files|
      invariant FoldedSoFar(files[..fi], allImports, allTests, allNames)
    {
      var imports, testNames, tests, sourceLines := ExtractTestFunctions(files[fi]);
      ExtractedOfFile(files[fi], imports, testNames, tests, sourceLines);
      MergedTestsKeys(files[..fi]);
      allImports := CollectImports(allImports, imports, sourceLines, AllImportStrs(files[..fi]));
      allTests, allNames := CollectTests(allTests, allNames, tests, testNames, sourceLines, AllNames(files[..fi]));
      FileFolded(files, fi, imports, testNames, tests, sourceLines, allImports, allTests, allNames);
    }
    assert files[..|files|] == files;
    text := Render(allImports, allTests, allNames, files);
  }
}
