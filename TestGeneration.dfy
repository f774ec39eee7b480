/** The pure decision logic of test generation: the template-key check of
    `load_template`, the target-function-name heuristic of `build_prompt`,
    and `clean_output`, which turns raw model output into test source. */
module TestGeneration {
  import opened Types
  import opened Seqs
  import opened PyStr

  // ---------------------------------------------------------------------
  // load_template

  /** The known template keys, in the order the error message lists them. */
  const TemplateKeys: seq<string> := ["few_shot", "structured", "zero_shot", "auto_repair"]

  datatype TemplateError =
    | UnknownTemplate(key: string)
    | PromptFileNotFound(fileName: string)
    | TemplateNotString(varName: string, fileName: string)

  /** The prompt file and the variable it must bind, for each known key. */
  function TemplateSpec(key: string): (r: Option<(string, string)>)
    ensures r.Some? <==> key in TemplateKeys
  {
    if key == "few_shot" then Some(("few_shot.md", "FEW_SHOT_TEMPLATE_v1"))
    else if key == "structured" then Some(("structured.md", "STRUCTURED_TEMPLATE_v1"))
    else if key == "zero_shot" then Some(("zero_shot.md", "ZERO_SHOT_TEMPLATE_v1"))
    else if key == "auto_repair" then Some(("auto_repair.md", "AUTO_REPAIR_TEMPLATE_v1"))
    else None
  }

  /** The text of the ValueError raised for an unknown key. */
  function UnknownTemplateMessage(key: string): string {
    "Unknown template '" + key + "'. Choose one of: " + Join(TemplateKeys, ", ")
  }

  /** `load_template`. `prompts` maps each prompt file that exists to the
      string variables that executing it binds. An unknown key is refused
      before any file is looked at. */
  function LoadTemplate(key: string, prompts: map<string, map<string, string>>): (r: Result<string, TemplateError>)
    ensures key !in TemplateKeys <==> r == Failure(UnknownTemplate(key))
    ensures r.Success? <==>
      && TemplateSpec(key).Some?
      && TemplateSpec(key).value.0 in prompts
      && TemplateSpec(key).value.1 in prompts[TemplateSpec(key).value.0]
    ensures r.Success? ==> r.value == prompts[TemplateSpec(key).value.0][TemplateSpec(key).value.1]
    ensures TemplateSpec(key).Some? && TemplateSpec(key).value.0 !in prompts ==>
      r == Failure(PromptFileNotFound(TemplateSpec(key).value.0))
    ensures (TemplateSpec(key).Some? && TemplateSpec(key).value.0 in prompts
             && TemplateSpec(key).value.1 !in prompts[TemplateSpec(key).value.0]) ==>
      r == Failure(TemplateNotString(TemplateSpec(key).value.1, TemplateSpec(key).value.0))
  {
    match TemplateSpec(key)
    case None => Failure(UnknownTemplate(key))
    case Some((fileName, varName)) =>
      if fileName !in prompts then Failure(PromptFileNotFound(fileName))
      else if varName !in prompts[fileName] then Failure(TemplateNotString(varName, fileName))
      else Success(prompts[fileName][varName])
  }

  // ---------------------------------------------------------------------
  // The function-name heuristic of build_prompt

  predicate IsDefLine(line: string) {
    StartsWith(Strip(line), "def ")
  }

  /** Index of the first line whose stripped form starts with `def `, or the
      number of lines when there is none. */
  function FirstDefIndex(lines: seq<string>): (k: nat)
    ensures k <= |lines| && (k < |lines| ==> IsDefLine(lines[k]))
    ensures forall i :: 0 <= i < k ==> !IsDefLine(lines[i])
  {
    if lines == [] then 0
    else if IsDefLine(lines[0]) then 0
    else
      var k := FirstDefIndex(lines[1..]);
      assert forall i :: 1 <= i < |lines| ==> lines[i] == lines[1..][i - 1];
      1 + k
  }

  /** `line.strip().split('(')[0].replace('def ', '')`. */
  function DefName(line: string): (name: string)
    ensures '(' !in name
  {
    RemoveAll(Split(Strip(line), '(')[0], "def ")
  }

  /** The name the heuristic settles on: that of the first `def` line, or
      `target_function` when there is no such line or its name is empty. */
  function TargetFunctionName(code: string): (name: string)
    ensures name != [] && '(' !in name
    ensures (forall i :: 0 <= i < |Lines(code)| ==> !IsDefLine(Lines(code)[i])) ==> name == "target_function"
    ensures name != "target_function" ==>
      && FirstDefIndex(Lines(code)) < |Lines(code)|
      && name == DefName(Lines(code)[FirstDefIndex(Lines(code))])
    ensures FirstDefIndex(Lines(code)) < |Lines(code)| && DefName(Lines(code)[FirstDefIndex(Lines(code))]) != "" ==>
      name == DefName(Lines(code)[FirstDefIndex(Lines(code))])
  {
    var lines := Lines(code);
    var k := FirstDefIndex(lines);
    if k == |lines| then "target_function"
    else
      var found := DefName(lines[k]);
      if found == "" then "target_function" else found
  }

  /** The first `def` line is determined by being one with none before it. */
  lemma {:induction false} FirstDefIndexUnique(lines: seq<string>, k: nat)
    requires k <= |lines| && (k < |lines| ==> IsDefLine(lines[k]))
    requires forall i :: 0 <= i < k ==> !IsDefLine(lines[i])
    ensures FirstDefIndex(lines) == k
  {
    if lines != [] && k > 0 {
      assert !IsDefLine(lines[0]);
      FirstDefIndexUnique(lines[1..], k - 1);
    }
  }

  /** The loop of `build_prompt` that picks the target function's name. */
  method FunctionName(code: string) returns (name: string)
    ensures name == TargetFunctionName(code)
  {
    var lines := Lines(code);
    var functionName: Option<string> := None;
    var i := 0;
    while i < |lines|
      invariant 0 <= i <= |lines|
      invariant forall j :: 0 <= j < i ==> !IsDefLine(lines[j])
      invariant functionName.Some? ==> i < |lines| && IsDefLine(lines[i]) && functionName.value == DefName(lines[i])
    {
      if IsDefLine(lines[i]) {
        functionName := Some(DefName(lines[i]));
        break;
      }
      i := i + 1;
    }
    FirstDefIndexUnique(lines, i);
    if functionName.None? || functionName.value == "" {
      name := "target_function";
    } else {
      name := functionName.value;
    }
  }

  /** A name as it appears in a `def` line: non-empty, with no white space
      and no `(`. */
  predicate PlainName(name: string) {
    name != [] && forall i :: 0 <= i < |name| ==> !IsSpace(name[i]) && name[i] != '('
  }

  /** The line `def <name>(<rest>`. */
  function Signature(name: string, rest: string): string {
    "def " + name + "(" + rest
  }

  /** The name is read back from its own `def` line. */
  lemma DefNameOfSignature(name: string, rest: string)
    requires PlainName(name)
    ensures IsDefLine(Signature(name, rest))
    ensures DefName(Signature(name, rest)) == name
  {
    var s := Signature(name, rest);
    var p := 4 + |name|;
    assert s[..4] == "def " && s[..p] == "def " + name && s[p] == '(';
    StripKeepsPrefix(s, p);
    var t := Strip(s);
    assert t[..4] == s[..4];
    forall i | 0 <= i < p
      ensures t[i] != '('
    {
      assert t[i] == s[..p + 1][i];
    }
    assert t[p] == '(';
    IndexOfAt(t, '(', p);
    assert t[..p] == s[..p];
    var head := "def " + name;
    assert Split(t, '(')[0] == head;
    assert head[..4] == "def " && head[4..] == name;
    RemoveAllAbsent(name, "def ", ' ');
  }

  lemma SignatureOneLine(name: string, rest: string)
    requires PlainName(name) && '\n' !in rest
    ensures '\n' !in Signature(name, rest)
  {
    assert IsSpace('\n');
    assert '\n' !in name;
  }

  lemma OneLineEach(before: seq<string>, line: string, after: seq<string>)
    requires forall i :: 0 <= i < |before| ==> '\n' !in before[i]
    requires forall i :: 0 <= i < |after| ==> '\n' !in after[i]
    requires '\n' !in line
    ensures forall i :: 0 <= i < |before + [line] + after| ==> '\n' !in (before + [line] + after)[i]
  {
    var lines := before + [line] + after;
    forall i | 0 <= i < |lines|
      ensures '\n' !in lines[i]
    {
      if i < |before| {
        assert lines[i] == before[i];
      } else if i > |before| {
        assert lines[i] == after[i - |before| - 1];
      }
    }
  }

  /** Lines joined on newlines split back into the same lines. */
  lemma LinesOfJoin(lines: seq<string>)
    requires |lines| >= 1
    requires forall i :: 0 <= i < |lines| ==> '\n' !in lines[i]
    ensures Lines(Join(lines, "\n")) == lines
  {
    SplitJoin(lines, '\n');
  }

  /** The heuristic finds the name of the first `def` line of a module:
      with no `def` line before `def <name>(<rest>`, it picks `name`. */
  lemma NameOfFirstDef(before: seq<string>, name: string, rest: string, after: seq<string>)
    requires forall i :: 0 <= i < |before| ==> '\n' !in before[i] && !IsDefLine(before[i])
    requires forall i :: 0 <= i < |after| ==> '\n' !in after[i]
    requires PlainName(name) && '\n' !in rest
    ensures TargetFunctionName(Join(before + [Signature(name, rest)] + after, "\n")) == name
  {
    var line := Signature(name, rest);
    var lines := before + [line] + after;
    SignatureOneLine(name, rest);
    OneLineEach(before, line, after);
    LinesOfJoin(lines);
    DefNameOfSignature(name, rest);
    assert lines[|before|] == line;
    FirstDefIndexUnique(lines, |before|);
  }

  // ---------------------------------------------------------------------
  // clean_output

  predicate IsFence(line: string) {
    StartsWith(Strip(line), "```")
  }

  predicate IsCodeStart(line: string) {
    var t := Strip(line);
    StartsWith(t, "from ") || StartsWith(t, "import ") || StartsWith(t, "def ")
  }

  predicate IsTestEnd(line: string) {
    var t := Strip(line);
    StartsWith(t, "assert ") || StartsWith(t, "def test_")
  }

  lemma CodeStartIsNoFence(line: string)
    requires IsCodeStart(line)
    ensures !IsFence(line)
  {
    var t := Strip(line);
    assert t[0] == 'f' || t[0] == 'i' || t[0] == 'd';
  }

  /** What the first pass of `clean_output` promises of its result `r` on
      `lines`: a subsequence with no fence line, starting with a code line,
      and empty exactly when no line starts code. */
  predicate KeptShape(r: seq<string>, lines: seq<string>) {
    && Subseq(r, lines)
    && (forall i :: 0 <= i < |r| ==> !IsFence(r[i]))
    && (r != [] ==> IsCodeStart(r[0]))
    && (r == [] <==> forall i :: 0 <= i < |lines| ==> !IsCodeStart(lines[i]))
  }

  lemma KeptShapeSnoc(prev: seq<string>, init: seq<string>, line: string)
    requires KeptShape(prev, init)
    ensures KeptShape(
      if IsFence(line) || (prev == [] && !IsCodeStart(line)) then prev else prev + [line],
      init + [line])
  {
    var lines := init + [line];
    SubseqSnoc(prev, init, line);
    assert forall i :: 0 <= i < |init| ==> lines[i] == init[i];
    if IsCodeStart(line) {
      CodeStartIsNoFence(line);
    }
    if !(IsFence(line) || (prev == [] && !IsCodeStart(line))) {
      var r := prev + [line];
      assert r[|r| - 1] == line;
      if prev == [] {
        assert r[0] == line;
      } else {
        assert r[0] == prev[0];
      }
    }
  }

  /** The first pass of `clean_output`: fence lines dropped, and every line
      before the first `from `/`import `/`def ` line dropped. */
  function Kept(lines: seq<string>): (r: seq<string>)
    ensures Subseq(r, lines)
    ensures forall i :: 0 <= i < |r| ==> !IsFence(r[i])
    ensures r != [] ==> IsCodeStart(r[0])
    ensures r == [] <==> forall i :: 0 <= i < |lines| ==> !IsCodeStart(lines[i])
  {
    if lines == [] then []
    else
      var init, line := lines[..|lines| - 1], lines[|lines| - 1];
      var prev := Kept(init);
      assert lines == init + [line];
      KeptShapeSnoc(prev, init, line);
      if IsFence(line) || (prev == [] && !IsCodeStart(line)) then prev else prev + [line]
  }

  /** Index of the first line that starts code, or the number of lines
      when there is none. */
  function FirstCodeStart(lines: seq<string>): (k: nat)
    ensures k <= |lines| && (k < |lines| ==> IsCodeStart(lines[k]))
    ensures forall i :: 0 <= i < k ==> !IsCodeStart(lines[i])
  {
    if lines == [] then 0
    else if IsCodeStart(lines[0]) then 0
    else
      var k := FirstCodeStart(lines[1..]);
      assert forall i :: 1 <= i < |lines| ==> lines[i] == lines[1..][i - 1];
      1 + k
  }

  lemma {:induction false} FirstCodeStartUnique(lines: seq<string>, k: nat)
    requires k <= |lines| && (k < |lines| ==> IsCodeStart(lines[k]))
    requires forall i :: 0 <= i < k ==> !IsCodeStart(lines[i])
    ensures FirstCodeStart(lines) == k
  {
    if lines != [] && k > 0 {
      assert !IsCodeStart(lines[0]);
      FirstCodeStartUnique(lines[1..], k - 1);
    }
  }

  /** The lines that are not fence lines, in their order. */
  function NonFence(lines: seq<string>): seq<string> {
    if lines == [] then []
    else
      var last := lines[|lines| - 1];
      NonFence(lines[..|lines| - 1]) + (if IsFence(last) then [] else [last])
  }

  lemma NonFenceSnoc(xs: seq<string>, x: string)
    ensures NonFence(xs + [x]) == NonFence(xs) + (if IsFence(x) then [] else [x])
  {
    assert (xs + [x])[..|xs|] == xs;
  }

  lemma KeptSnoc(xs: seq<string>, x: string)
    ensures Kept(xs + [x]) ==
      if IsFence(x) || (Kept(xs) == [] && !IsCodeStart(x)) then Kept(xs) else Kept(xs) + [x]
  {
    assert (xs + [x])[..|xs|] == xs;
  }

  lemma CodeStartSnoc(init: seq<string>, line: string)
    requires FirstCodeStart(init) < |init|
    ensures FirstCodeStart(init + [line]) == FirstCodeStart(init)
  {
    var f := FirstCodeStart(init);
    assert (init + [line])[f] == init[f];
    FirstCodeStartUnique(init + [line], f);
  }

  lemma KeptNonEmpty(lines: seq<string>)
    requires FirstCodeStart(lines) < |lines|
    ensures Kept(lines) != []
  {
    assert IsCodeStart(lines[FirstCodeStart(lines)]);
  }

  lemma KeptSnocAfterCode(xs: seq<string>, x: string)
    requires FirstCodeStart(xs) < |xs|
    ensures Kept(xs + [x]) == Kept(xs) + (if IsFence(x) then [] else [x])
  {
    KeptNonEmpty(xs);
    KeptSnoc(xs, x);
  }

  lemma NonFenceFromSnoc(xs: seq<string>, x: string, f: nat)
    requires f <= |xs|
    ensures NonFence((xs + [x])[f..]) == NonFence(xs[f..]) + (if IsFence(x) then [] else [x])
  {
    assert (xs + [x])[f..] == xs[f..] + [x];
    NonFenceSnoc(xs[f..], x);
  }

  lemma KeptPrefixStep(lines: seq<string>, i: nat)
    requires i < |lines|
    ensures Kept(lines[..i + 1]) ==
      if IsFence(lines[i]) || (Kept(lines[..i]) == [] && !IsCodeStart(lines[i]))
      then Kept(lines[..i]) else Kept(lines[..i]) + [lines[i]]
  {
    assert lines[..i + 1] == lines[..i] + [lines[i]];
    KeptSnoc(lines[..i], lines[i]);
  }

  /** Once a code line has been seen, a further line is kept unless it is a fence. */
  lemma KeptAfterCode(init: seq<string>, line: string)
    requires FirstCodeStart(init) < |init|
    requires Kept(init) == NonFence(init[FirstCodeStart(init)..])
    ensures Kept(init + [line]) == NonFence((init + [line])[FirstCodeStart(init + [line])..])
  {
    KeptSnocAfterCode(init, line);
    CodeStartSnoc(init, line);
    NonFenceFromSnoc(init, line, FirstCodeStart(init));
  }

  /** Before any code line, a line is kept exactly when it starts code. */
  lemma KeptBeforeCode(init: seq<string>, line: string)
    requires FirstCodeStart(init) == |init|
    ensures Kept(init + [line]) == NonFence((init + [line])[FirstCodeStart(init + [line])..])
  {
    var lines := init + [line];
    assert Kept(init) == [];
    KeptSnoc(init, line);
    if IsCodeStart(line) {
      FirstCodeStartUnique(lines, |init|);
      CodeStartIsNoFence(line);
      assert lines[|init|..] == [] + [line];
      NonFenceSnoc([], line);
    } else {
      FirstCodeStartUnique(lines, |lines|);
    }
  }

  /** The first pass keeps exactly the non-fence lines from the first code
      line on. */
  lemma {:induction false} KeptIsNonFenceFromCode(lines: seq<string>)
    ensures Kept(lines) == NonFence(lines[FirstCodeStart(lines)..])
    decreases |lines|
  {
    if lines != [] {
      var init, line := lines[..|lines| - 1], lines[|lines| - 1];
      assert lines == init + [line];
      if FirstCodeStart(init) < |init| {
        KeptIsNonFenceFromCode(init);
        KeptAfterCode(init, line);
      } else {
        KeptBeforeCode(init, line);
      }
    }
  }

  /** Index of the last line that starts (stripped) with `assert ` or
      `def test_`, or -1 when there is none. */
  function LastTestEnd(lines: seq<string>): (k: int)
    ensures -1 <= k < |lines|
    ensures k >= 0 ==> IsTestEnd(lines[k])
    ensures forall i :: k < i < |lines| ==> !IsTestEnd(lines[i])
  {
    if lines == [] then -1
    else if IsTestEnd(lines[|lines| - 1]) then |lines| - 1
    else
      var k := LastTestEnd(lines[..|lines| - 1]);
      assert forall i :: 0 <= i < |lines| - 1 ==> lines[i] == lines[..|lines| - 1][i];
      k
  }

  /** The second pass of `clean_output`: the lines cut after the last test
      line when there is one, a prefix of the lines either way. */
  function CutAtLastTest(kept: seq<string>): (r: seq<string>)
    ensures |r| <= |kept| && r == kept[..|r|]
    ensures LastTestEnd(kept) >= 0 ==> |r| == LastTestEnd(kept) + 1 && IsTestEnd(r[|r| - 1])
    ensures LastTestEnd(kept) < 0 ==> r == kept
  {
    var k := LastTestEnd(kept);
    if k >= 0 then
      var r := kept[..k + 1];
      assert r[k] == kept[k];
      r
    else kept
  }

  /** The lines `clean_output` returns: the kept lines, cut after the last
      test line when there is one. */
  function CleanedLines(text: string): seq<string> {
    CutAtLastTest(Kept(Lines(text)))
  }

  /** Every returned line is a kept line and not a fence; the first one is
      a code line; they are a prefix of the kept lines, ending with the last
      test line if any kept line is one. */
  lemma CleanedLinesShape(text: string)
    ensures var r := CleanedLines(text); var kept := Kept(Lines(text));
      && |r| <= |kept| && r == kept[..|r|]
      && (r != [] ==> IsCodeStart(r[0]))
      && (forall i :: 0 <= i < |r| ==> !IsFence(r[i]))
      && (LastTestEnd(kept) >= 0 ==> |r| == LastTestEnd(kept) + 1 && IsTestEnd(r[|r| - 1]))
      && (LastTestEnd(kept) < 0 ==> r == kept)
  {
    var kept := Kept(Lines(text));
    var r := CutAtLastTest(kept);
    assert forall i :: 0 <= i < |r| ==> r[i] == kept[i];
  }

  /** The text `clean_output` returns. */
  function CleanedText(text: string): string {
    Join(CleanedLines(text), "\n") + "\n"
  }

  lemma JoinStartsWithFirst(parts: seq<string>, sep: string)
    requires parts != []
    ensures |Join(parts, sep)| >= |parts[0]| && Join(parts, sep)[..|parts[0]|] == parts[0]
  {
  }

  /** The output always ends in a newline, and its lines (that newline
      aside) are exactly `CleanedLines`. */
  lemma CleanedTextLines(text: string)
    ensures |CleanedText(text)| >= 1 && CleanedText(text)[|CleanedText(text)| - 1] == '\n'
    ensures CleanedLines(text) != [] ==>
      Lines(CleanedText(text)[..|CleanedText(text)| - 1]) == CleanedLines(text)
  {
    var out := CleanedText(text);
    var r := CleanedLines(text);
    assert out[..|out| - 1] == Join(r, "\n");
    if r != [] {
      var lines := Lines(text);
      var kept := Kept(lines);
      SubseqMembers(kept, lines);
      forall i | 0 <= i < |r| ensures '\n' !in r[i] {
        assert r[i] == kept[i] && kept[i] in kept;
      }
      SplitJoin(r, '\n');
    }
  }

  /** Nothing is fabricated: the kept lines are a subsequence of the input lines. */
  lemma CleanedFromInput(text: string)
    ensures Subseq(Kept(Lines(text)), Lines(text))
    ensures forall i :: 0 <= i < |CleanedLines(text)| ==> CleanedLines(text)[i] in Lines(text)
  {
    var lines := Lines(text);
    var kept := Kept(lines);
    SubseqMembers(kept, lines);
    var r := CleanedLines(text);
    forall i | 0 <= i < |r| ensures r[i] in lines {
      assert r[i] == kept[i] && kept[i] in kept;
    }
  }

  /** Output is exactly "\n" if and only if no input line starts (stripped)
      with `from `, `import ` or `def `. */
  lemma NoCodeGivesNewline(text: string)
    ensures CleanedText(text) == "\n" <==> forall i :: 0 <= i < |Lines(text)| ==> !IsCodeStart(Lines(text)[i])
  {
    var r := CleanedLines(text);
    if r != [] {
      JoinStartsWithFirst(r, "\n");
      assert Strip(r[0]) != [];
      assert r[0] != [];
      assert |CleanedText(text)| > 1;
    }
  }

  lemma LastTestEndUnique(lines: seq<string>, k: int)
    requires -1 <= k < |lines|
    requires k >= 0 ==> IsTestEnd(lines[k])
    requires forall i :: k < i < |lines| ==> !IsTestEnd(lines[i])
    ensures LastTestEnd(lines) == k
  {
  }

  /** Re-splitting the joined kept lines gives them back (or one empty line
      when none was kept). */
  lemma KeptResplit(text: string)
    ensures Lines(Join(Kept(Lines(text)), "\n")) ==
      (if Kept(Lines(text)) == [] then [""] else Kept(Lines(text)))
  {
    var lines := Lines(text);
    var kept := Kept(lines);
    if kept != [] {
      SubseqMembers(kept, lines);
      forall j | 0 <= j < |kept| ensures '\n' !in kept[j] {
        assert kept[j] in kept;
      }
      SplitJoin(kept, '\n');
    }
  }

  /** The cut of a non-empty list of kept lines that `CleanedLines` makes. */
  lemma CutKept(kept: seq<string>, last: int, cleaned: seq<string>)
    requires last == (if LastTestEnd(kept) >= 0 then LastTestEnd(kept) else |kept| - 1)
    requires LastTestEnd(kept) >= 0 ==> cleaned == kept[..LastTestEnd(kept) + 1]
    requires LastTestEnd(kept) < 0 ==> cleaned == kept
    ensures cleaned == kept[..last + 1]
  {
    CutAt(kept, LastTestEnd(kept), last, cleaned);
  }

  lemma CutAt(kept: seq<string>, e: int, last: int, cleaned: seq<string>)
    requires -1 <= e < |kept|
    requires last == (if e >= 0 then e else |kept| - 1)
    requires e >= 0 ==> cleaned == kept[..e + 1]
    requires e < 0 ==> cleaned == kept
    ensures cleaned == kept[..last + 1]
  {
    if e < 0 {
      assert kept[..|kept|] == kept;
    }
  }

  /** Cutting the re-split lines after the last test line (or keeping them
      all when there is none) gives `CleanedLines`, up to the empty line that
      stands for no kept line at all. */
  lemma CutResplit(text: string, last: int)
    requires last == (if LastTestEnd(Lines(Join(Kept(Lines(text)), "\n"))) >= 0
      then LastTestEnd(Lines(Join(Kept(Lines(text)), "\n")))
      else |Lines(Join(Kept(Lines(text)), "\n"))| - 1)
    ensures Join(Lines(Join(Kept(Lines(text)), "\n"))[..last + 1], "\n") == Join(CleanedLines(text), "\n")
  {
    var kept := Kept(Lines(text));
    KeptResplit(text);
    if kept == [] {
      assert !IsTestEnd("");
      assert Lines(Join(kept, "\n"))[..last + 1] == [""];
    } else {
      CutKept(kept, last, CleanedLines(text));
    }
  }

  /** The backward scan of `clean_output`: the index of the last test line,
      or of the last line when there is none. */
  method LastCodeLine(lines: seq<string>) returns (last: int)
    requires |lines| >= 1
    ensures last == (if LastTestEnd(lines) >= 0 then LastTestEnd(lines) else |lines| - 1)
  {
    last := |lines| - 1;
    var i := |lines| - 1;
    while i >= 0
      invariant -1 <= i < |lines|
      invariant forall j :: i < j < |lines| ==> !IsTestEnd(lines[j])
      invariant last == |lines| - 1
    {
      if IsTestEnd(lines[i]) {
        last := i;
        LastTestEndUnique(lines, i);
        return;
      }
      i := i - 1;
    }
    LastTestEndUnique(lines, -1);
  }

  /** The filtering loop of `clean_output`: fence lines toggle the (unused)
      in-block flag and are dropped, prose before the first code line is
      dropped, every other line is kept. */
  method KeepCodeLines(lines: seq<string>) returns (cleaned: seq<string>)
    ensures cleaned == Kept(lines)
  {
    cleaned := [];
    var inCodeBlock := false;
    for i := 0 to |lines|
      invariant cleaned == Kept(lines[..i])
    {
      var line := lines[i];
      KeptPrefixStep(lines, i);
      if IsFence(line) {
        inCodeBlock := !inCodeBlock;
      } else if cleaned == [] && !IsCodeStart(line) {
        // prose before the first code line
      } else {
        cleaned := cleaned + [line];
      }
    }
    assert lines[..|lines|] == lines;
  }

  /** `clean_output`, as the source writes it: a filtering loop over the
      lines, a join and re-split, and the backward scan for the last test line. */
  method CleanOutput(text: string) returns (out: string)
    ensures out == CleanedText(text)
  {
    var cleaned := KeepCodeLines(Lines(text));
    var result := Join(cleaned, "\n");
    var split := Lines(result);
    var lastCodeLine := LastCodeLine(split);
    CutResplit(text, lastCodeLine);
    out := Join(split[..lastCodeLine + 1], "\n") + "\n";
  }
}
