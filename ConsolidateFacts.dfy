/** What the consolidation promises: which functions and imports reach the
    output, where each function block sits, which file wins a name, and
    that an unparseable file changes nothing. */
module ConsolidateFacts {
  import opened Types
  import opened Seqs
  import opened PyStr
  import opened Consolidate

  /** Within one parsed file, a `test_` function that is not redefined
      later in the body is the one its name maps to. */
  lemma {:induction false} TestDefsLast(items: seq<TopItem>, i: nat)
    requires i < |items| && IsTestDef(items[i])
    requires forall j :: i < j < |items| && IsTestDef(items[j]) ==> items[j].fn.name != items[i].fn.name
    ensures LastDefs(TestDefsOf(items))[items[i].fn.name] == items[i].fn
    decreases |items|
  {
    var init, last := items[..|items| - 1], items[|items| - 1];
    assert items == init + [last];
    if i < |items| - 1 {
      TestDefsLast(init, i);
    }
  }

  /** What a parsed file contributes under a name: its last top-level
      `test_` definition of that name, with the file's lines. */
  lemma FileTestsLast(f: TestFile, i: nat)
    requires f.tree.Some? && i < |f.tree.value| && IsTestDef(f.tree.value[i])
    requires forall j :: i < j < |f.tree.value| && IsTestDef(f.tree.value[j]) ==>
      f.tree.value[j].fn.name != f.tree.value[i].fn.name
    ensures f.tree.value[i].fn.name in FileTests(f)
    ensures FileTests(f)[f.tree.value[i].fn.name] == Located(f.tree.value[i].fn, Lines(f.source))
  {
    var items := f.tree.value;
    TestDefsLast(items, i);
    assert items[i].fn in TestDefsOf(items);
  }

  /** A file collects only top-level functions named `test_…`. */
  lemma FileNamesAreTestDefs(f: TestFile, n: string)
    requires n in FileNames(f)
    ensures f.tree.Some? && StartsWith(n, "test_")
    ensures exists fn :: FuncItem(fn) in f.tree.value && fn.name == n
  {
    var items := f.tree.value;
    var defs := TestDefsOf(items);
    DedupHas(NamesOf(defs), n);
    var k :| 0 <= k < |defs| && NamesOf(defs)[k] == n;
    assert FuncItem(defs[k]) in items;
  }

  /** The folds over files distribute over concatenation. */
  lemma {:induction false} ImportStrsAppend(a: seq<TestFile>, b: seq<TestFile>)
    ensures AllImportStrs(a + b) == AllImportStrs(a) + AllImportStrs(b)
    decreases |b|
  {
    if b == [] {
      assert a + b == a;
    } else {
      var b' := b[..|b| - 1];
      assert (a + b)[..|a + b| - 1] == a + b';
      var last := FileImportStrs(b[|b| - 1]);
      assert (a + b)[|a + b| - 1] == b[|b| - 1];
      assert AllImportStrs(a + b) == AllImportStrs(a + b') + last;
      assert AllImportStrs(b) == AllImportStrs(b') + last;
      ImportStrsAppend(a, b');
      AppendAssoc(AllImportStrs(a), AllImportStrs(b'), last);
    }
  }

  lemma {:induction false} NamesAppend(a: seq<TestFile>, b: seq<TestFile>)
    ensures AllNames(a + b) == AllNames(a) + AllNames(b)
    decreases |b|
  {
    if b == [] {
      assert a + b == a;
    } else {
      var b' := b[..|b| - 1];
      assert (a + b)[..|a + b| - 1] == a + b';
      var last := FileNames(b[|b| - 1]);
      assert (a + b)[|a + b| - 1] == b[|b| - 1];
      assert AllNames(a + b) == AllNames(a + b') + last;
      assert AllNames(b) == AllNames(b') + last;
      NamesAppend(a, b');
      AppendAssoc(AllNames(a), AllNames(b'), last);
    }
  }

  lemma {:induction false} MergedAppend(a: seq<TestFile>, b: seq<TestFile>)
    ensures MergedTests(a + b) == MergedTests(a) + MergedTests(b)
    decreases |b|
  {
    if b == [] {
      assert a + b == a;
    } else {
      var b' := b[..|b| - 1];
      assert (a + b)[..|a + b| - 1] == a + b';
      var last := FileTests(b[|b| - 1]);
      assert (a + b)[|a + b| - 1] == b[|b| - 1];
      assert MergedTests(a + b) == MergedTests(a + b') + last;
      assert MergedTests(b) == MergedTests(b') + last;
      MergedAppend(a, b');
      MapUnionAssoc(MergedTests(a), MergedTests(b'), last);
    }
  }

  lemma MapUnionAssoc<K, V>(x: map<K, V>, y: map<K, V>, z: map<K, V>)
    ensures (x + y) + z == x + (y + z)
  {
  }

  lemma ImportStrsSnoc(xs: seq<TestFile>, x: TestFile)
    ensures AllImportStrs(xs + [x]) == AllImportStrs(xs) + FileImportStrs(x)
  {
    assert (xs + [x])[..|xs|] == xs;
  }

  lemma NamesSnoc(xs: seq<TestFile>, x: TestFile)
    ensures AllNames(xs + [x]) == AllNames(xs) + FileNames(x)
  {
    assert (xs + [x])[..|xs|] == xs;
  }

  /** A file that does not parse contributes nothing to any of the folds. */
  lemma {:induction false} UnparsedImportStrs(a: seq<TestFile>, f: TestFile, b: seq<TestFile>)
    requires f.tree.None?
    ensures AllImportStrs(a + ([f] + b)) == AllImportStrs(a + b)
    decreases |b|
  {
    if b == [] {
      assert a + ([f] + b) == a + [f];
      assert a + b == a;
      ImportStrsSnoc(a, f);
      assert FileImportStrs(f) == [];
      assert AllImportStrs(a) + [] == AllImportStrs(a);
    } else {
      var b', last := b[..|b| - 1], b[|b| - 1];
      assert a + ([f] + b) == (a + ([f] + b')) + [last];
      assert a + b == (a + b') + [last];
      ImportStrsSnoc(a + ([f] + b'), last);
      ImportStrsSnoc(a + b', last);
      UnparsedImportStrs(a, f, b');
    }
  }

  lemma {:induction false} UnparsedNames(a: seq<TestFile>, f: TestFile, b: seq<TestFile>)
    requires f.tree.None?
    ensures AllNames(a + ([f] + b)) == AllNames(a + b)
    decreases |b|
  {
    if b == [] {
      assert a + ([f] + b) == a + [f];
      assert a + b == a;
      NamesSnoc(a, f);
      assert FileNames(f) == [];
      assert AllNames(a) + [] == AllNames(a);
    } else {
      var b', last := b[..|b| - 1], b[|b| - 1];
      assert a + ([f] + b) == (a + ([f] + b')) + [last];
      assert a + b == (a + b') + [last];
      NamesSnoc(a + ([f] + b'), last);
      NamesSnoc(a + b', last);
      UnparsedNames(a, f, b');
    }
  }

  lemma MergedSnoc(xs: seq<TestFile>, x: TestFile)
    ensures MergedTests(xs + [x]) == MergedTests(xs) + FileTests(x)
  {
    assert (xs + [x])[..|xs|] == xs;
  }

  lemma EmptyUnion<K, V>(m: map<K, V>, e: map<K, V>)
    requires e.Keys == {}
    ensures m + e == m
  {
  }

  lemma {:induction false} UnparsedMerged(a: seq<TestFile>, f: TestFile, b: seq<TestFile>)
    requires f.tree.None?
    ensures MergedTests(a + ([f] + b)) == MergedTests(a + b)
    decreases |b|
  {
    if b == [] {
      assert a + ([f] + b) == a + [f];
      assert a + b == a;
      MergedSnoc(a, f);
      EmptyUnion(MergedTests(a), FileTests(f));
    } else {
      var b', last := b[..|b| - 1], b[|b| - 1];
      assert a + ([f] + b) == (a + ([f] + b')) + [last];
      assert a + b == (a + b') + [last];
      MergedSnoc(a + ([f] + b'), last);
      MergedSnoc(a + b', last);
      UnparsedMerged(a, f, b');
    }
  }

  /** A file that does not parse can be dropped without changing the output. */
  lemma UnparseableContributesNothing(files: seq<TestFile>, i: nat)
    requires i < |files| && files[i].tree.None?
    ensures ConsolidatedText(files[..i] + files[i + 1..]) == ConsolidatedText(files)
  {
    var a, f, b := files[..i], files[i], files[i + 1..];
    assert files == a + ([f] + b);
    UnparsedImportStrs(a, f, b);
    UnparsedNames(a, f, b);
    UnparsedMerged(a, f, b);
    SameFoldsSameText(a + b, files);
  }

  /** The output depends on the files only through the three folds. */
  lemma SameFoldsSameText(xs: seq<TestFile>, ys: seq<TestFile>)
    requires AllImportStrs(xs) == AllImportStrs(ys)
    requires AllNames(xs) == AllNames(ys)
    requires MergedTests(xs) == MergedTests(ys)
    ensures ConsolidatedText(xs) == ConsolidatedText(ys)
  {
    assert MergedImports(xs) == MergedImports(ys);
    assert SortedNames(xs) == SortedNames(ys);
  }

  lemma ImportStrsUnfold(init: seq<TestFile>, last: TestFile, files: seq<TestFile>)
    requires files == init + [last]
    ensures AllImportStrs(files) == AllImportStrs(init) + FileImportStrs(last)
  {
    assert files[..|files| - 1] == init;
  }

  lemma NamesUnfold(init: seq<TestFile>, last: TestFile, files: seq<TestFile>)
    requires files == init + [last]
    ensures AllNames(files) == AllNames(init) + FileNames(last)
  {
    assert files[..|files| - 1] == init;
  }

  /** The file an element of `AllImportStrs` comes from. */
  lemma {:induction false} ImportStrWitness(files: seq<TestFile>, s: string) returns (i: nat)
    requires s in AllImportStrs(files)
    ensures i < |files| && s in FileImportStrs(files[i])
    decreases |files|
  {
    var init, last := files[..|files| - 1], files[|files| - 1];
    ImportStrsUnfold(init, last, files);
    if s in FileImportStrs(last) {
      i := |files| - 1;
    } else {
      InConcat(AllImportStrs(init), FileImportStrs(last), s);
      i := ImportStrWitness(init, s);
      assert files[i] == init[i];
    }
  }

  /** Everything a file contributes is in `AllImportStrs`. */
  lemma {:induction false} ImportStrCollected(files: seq<TestFile>, i: nat, s: string)
    requires i < |files| && s in FileImportStrs(files[i])
    ensures s in AllImportStrs(files)
    decreases |files|
  {
    var init, last := files[..|files| - 1], files[|files| - 1];
    ImportStrsUnfold(init, last, files);
    if i < |init| {
      assert files[i] == init[i];
      ImportStrCollected(init, i, s);
    }
  }

  /** An import string is collected iff some file has it. */
  lemma AllImportStrsHas(files: seq<TestFile>, s: string)
    ensures s in AllImportStrs(files) <==> exists i :: 0 <= i < |files| && s in FileImportStrs(files[i])
  {
    if s in AllImportStrs(files) {
      var i := ImportStrWitness(files, s);
    }
    if exists i :: 0 <= i < |files| && s in FileImportStrs(files[i]) {
      var i :| 0 <= i < |files| && s in FileImportStrs(files[i]);
      ImportStrCollected(files, i, s);
    }
  }

  /** The file an element of `AllNames` comes from. */
  lemma {:induction false} NameWitness(files: seq<TestFile>, n: string) returns (i: nat)
    requires n in AllNames(files)
    ensures i < |files| && n in FileNames(files[i])
    decreases |files|
  {
    var init, last := files[..|files| - 1], files[|files| - 1];
    NamesUnfold(init, last, files);
    if n in FileNames(last) {
      i := |files| - 1;
    } else {
      InConcat(AllNames(init), FileNames(last), n);
      i := NameWitness(init, n);
      assert files[i] == init[i];
    }
  }

  /** Everything a file contributes is in `AllNames`. */
  lemma {:induction false} NameCollected(files: seq<TestFile>, i: nat, n: string)
    requires i < |files| && n in FileNames(files[i])
    ensures n in AllNames(files)
    decreases |files|
  {
    var init, last := files[..|files| - 1], files[|files| - 1];
    NamesUnfold(init, last, files);
    if i < |init| {
      assert files[i] == init[i];
      NameCollected(init, i, n);
    }
  }

  /** A test name is collected iff some file defines it. */
  lemma AllNamesHas(files: seq<TestFile>, n: string)
    ensures n in AllNames(files) <==> exists i :: 0 <= i < |files| && n in FileNames(files[i])
  {
    if n in AllNames(files) {
      var i := NameWitness(files, n);
    }
    if exists i :: 0 <= i < |files| && n in FileNames(files[i]) {
      var i :| 0 <= i < |files| && n in FileNames(files[i]);
      NameCollected(files, i, n);
    }
  }

  /** The output opens with the import strings: each once, every import of
      every file present, in the order of their first occurrence. */
  lemma ImportsOnceInFirstSeenOrder(files: seq<TestFile>)
    ensures var imps := MergedImports(files);
      && ConsolidatedLines(files)[..|imps|] == imps
      && Distinct(imps)
      && (forall i, j :: 0 <= i < j < |imps| ==> SeenBefore(AllImportStrs(files), imps[i], imps[j]))
  {
    DedupFirstSeen(AllImportStrs(files));
  }

  lemma ImportCollected(files: seq<TestFile>, i: nat, s: string)
    requires i < |files| && s in FileImportStrs(files[i])
    ensures s in MergedImports(files)
  {
    ImportStrCollected(files, i, s);
    DedupHas(AllImportStrs(files), s);
  }

  /** A later file overrides an earlier one: a name maps to its definition
      in the last file that defines it. */
  lemma {:induction false} LastWriterWins(files: seq<TestFile>, i: nat, n: string)
    requires i < |files| && n in FileNames(files[i])
    requires forall j :: i < j < |files| ==> n !in FileNames(files[j])
    ensures n in MergedTests(files) && MergedTests(files)[n] == FileTests(files[i])[n]
    decreases |files|
  {
    var init, last := files[..|files| - 1], files[|files| - 1];
    if i < |files| - 1 {
      assert init[i] == files[i];
      LastWriterWins(init, i, n);
    }
  }

  /** The number of lines before the first function block. */
  function HeaderLen(files: seq<TestFile>): nat {
    HeadSize(MergedImports(files))
  }

  /** Each test name gets exactly one block, placed by its rank in sorted
      order, holding the source from the last file that defines it. */
  lemma NameBlock(files: seq<TestFile>, i: nat, n: string)
    requires i < |files| && n in FileNames(files[i])
    requires forall j :: i < j < |files| ==> n !in FileNames(files[j])
    ensures exists k :: 0 <= k < |SortedNames(files)| && SortedNames(files)[k] == n
    ensures forall k :: 0 <= k < |SortedNames(files)| && SortedNames(files)[k] == n ==>
      && (forall k' :: 0 <= k' < |SortedNames(files)| && k' != k ==> SortedNames(files)[k'] != n)
      && ConsolidatedLines(files)[HeaderLen(files) + 2 * k] ==
         FunctionSource(FileTests(files[i])[n].fn, FileTests(files[i])[n].lines)
  {
    LastWriterWins(files, i, n);
    SortedNamesHas(files, n);
    var names := SortedNames(files);
    forall k | 0 <= k < |names| && names[k] == n
      ensures ConsolidatedLines(files)[HeaderLen(files) + 2 * k] ==
        FunctionSource(FileTests(files[i])[n].fn, FileTests(files[i])[n].lines)
    {
      NameBlockAt(files, i, n, k);
    }
  }

  lemma NameBlockAt(files: seq<TestFile>, i: nat, n: string, k: nat)
    requires i < |files| && n in FileNames(files[i])
    requires forall j :: i < j < |files| ==> n !in FileNames(files[j])
    requires k < |SortedNames(files)| && SortedNames(files)[k] == n
    ensures ConsolidatedLines(files)[HeaderLen(files) + 2 * k] ==
      FunctionSource(FileTests(files[i])[n].fn, FileTests(files[i])[n].lines)
  {
    BlockOfName(files, n, k);
    MergedSource(files, i, n);
  }

  lemma LinesLength(files: seq<TestFile>)
    ensures |ConsolidatedLines(files)| == HeaderLen(files) + 2 * |SortedNames(files)|
  {
  }

  lemma NameHasSource(files: seq<TestFile>, k: nat)
    requires k < |SortedNames(files)|
    ensures SortedNames(files)[k] in Sources(MergedTests(files))
  {
    SortedNamesKeys(files);
  }

  /** The block at rank `k` holds the merged source of the `k`-th name. */
  lemma BlockOfName(files: seq<TestFile>, n: string, k: nat)
    requires k < |SortedNames(files)| && SortedNames(files)[k] == n
    ensures n in Sources(MergedTests(files))
    ensures ConsolidatedLines(files)[HeaderLen(files) + 2 * k] == Sources(MergedTests(files))[n]
  {
    LinesLength(files);
    NameHasSource(files, k);
    SortedNamesKeys(files);
    LayoutBlocks(MergedImports(files), SortedNames(files), Sources(MergedTests(files)), k);
  }

  /** The merged source of a name is that of its last definition. */
  lemma MergedSource(files: seq<TestFile>, i: nat, n: string)
    requires i < |files| && n in FileNames(files[i])
    requires forall j :: i < j < |files| ==> n !in FileNames(files[j])
    ensures n in Sources(MergedTests(files))
    ensures Sources(MergedTests(files))[n] == FunctionSource(FileTests(files[i])[n].fn, FileTests(files[i])[n].lines)
  {
    LastWriterWins(files, i, n);
  }

  /** Block order: the names are distinct and ascending, and are exactly the
      names any file defines. */
  lemma SortedNamesDefined(files: seq<TestFile>, n: string)
    ensures SortedStrs(SortedNames(files)) && Distinct(SortedNames(files))
    ensures n in SortedNames(files) <==> exists i :: 0 <= i < |files| && n in FileNames(files[i])
  {
    SortedNamesHas(files, n);
    MergedTestsHas(files, n);
    AllNamesHas(files, n);
  }

  /** No input files: a lone newline. */
  lemma NoFilesGiveNewline()
    ensures ConsolidatedText([]) == "\n"
  {
    assert ConsolidatedLines([]) == [];
  }
}
