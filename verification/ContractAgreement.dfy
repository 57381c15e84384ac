/** The two sides of the contract agree: what Syncoid sends under a run is what that run's policy admits. */
module ContractAgreement {
  import opened Text
  import opened Datasets
  import opened Compression
  import opened CommandParse
  import opened CommandRoundTrip
  import opened CommandAuthorize
  import opened CommandSoundness
  import opened Lexemes
  import opened OptionReading
  import opened Syncoid
  import SyncoidContract

  // ----- The receive pipeline Syncoid means -----

  function Plainly(name: string, args: seq<string>): (step: Step) {
    Step(name, args, false, false, false)
  }

  function When<T>(on: bool, xs: seq<T>): (ys: seq<T>) {
    if on then xs else []
  }

  const MBUFFER_STEP := Plainly("mbuffer", ["-q", "-s", "128k", "-m", "16M"])

  function StageArgs(stage: Stage): (args: seq<string>) {
    if stage.args == "" then [] else [stage.args]
  }

  function ReceiveFlags(unmounted: bool, resume: bool, rollback: bool): (flags: seq<string>) {
    When(unmounted, ["-u"]) + When(resume, ["-s"]) + When(rollback, ["-F"])
  }

  function ReceiveStep(s: Settings, target: string, resume: bool): (step: Step) {
    Step("zfs", ["receive"] + ReceiveFlags(s.recvOptions == "u", resume, !s.noRollback) + [target], false, false, true)
  }

  function StageStep(stage: Stage): (step: Step) {
    Plainly(stage.name, StageArgs(stage))
  }

  function ReceiveSteps(s: Settings, target: string, mbuffer: bool, compress: bool, resume: bool): (steps: seq<Step>) {
    When(mbuffer, [MBUFFER_STEP])
    + When(compress, [StageStep(Decompression(s.compress))])
    + [ReceiveStep(s, target, resume)]
  }

  // ----- Its text, stage by stage -----

  const MBUFFER_NAME := [Word("", "mbuffer"), Blank]
  const MBUFFER_BLOCK := [Word("", "-q"), Word("", "-s"), Word("", "128k")]
  const MBUFFER_MEMORY := [Word("", "-m"), Word("", "16M"), Bar]

  const MBUFFER_LEXEMES := MBUFFER_NAME + MBUFFER_BLOCK + MBUFFER_MEMORY

  lemma MbufferPieces()
    ensures Render(MBUFFER_NAME) == " mbuffer " && TokensOf(MBUFFER_NAME) == ["mbuffer"]
    ensures Render(MBUFFER_MEMORY) == " -m 16M |" && TokensOf(MBUFFER_MEMORY) == ["-m", "16M", "|"]
  {
  }

  lemma MbufferBlock()
    ensures Render(MBUFFER_BLOCK) == " -q -s 128k" && TokensOf(MBUFFER_BLOCK) == ["-q", "-s", "128k"]
  {
  }

  lemma MbufferTextIs()
    ensures " mbuffer " + " -q -s 128k" + " -m 16M |" == MBUFFER_TEXT
  {
  }

  lemma MbufferTextRendered()
    ensures Render(MBUFFER_LEXEMES) == MBUFFER_TEXT
    ensures TokensOf(MBUFFER_LEXEMES) == ["mbuffer", "-q", "-s", "128k", "-m", "16M", "|"]
  {
    MbufferPieces();
    MbufferBlock();
    MbufferTextIs();
    hide Render, TokensOf;
    RenderConcat(MBUFFER_NAME, MBUFFER_BLOCK);
    RenderConcat(MBUFFER_NAME + MBUFFER_BLOCK, MBUFFER_MEMORY);
  }

  lemma MbufferTokens()
    ensures TokensOf(MBUFFER_LEXEMES) == StepTokens(MBUFFER_STEP) + [PIPE]
  {
    MbufferTextRendered();
    hide TokensOf;
  }

  lemma MbufferTidy()
    ensures TidyWord("mbuffer") && TidyWord("-q") && TidyWord("-s") && TidyWord("128k") && TidyWord("-m") && TidyWord("16M")
  {
  }

  lemma MbufferTuned()
    ensures MbufferStepAllowed(MBUFFER_STEP)
  {
    var sized, size := ["-s", "128k", "-m", "16M"], ["-m", "16M"];
    assert MBUFFER_STEP.args[1..] == sized && sized[2..] == size && size[2..] == [];
    assert MbufferArgsAllowed(size);
    assert MbufferArgsAllowed(sized);
  }

  function StageLexemes(stage: Stage): (xs: seq<Lexeme>) {
    [Word("", stage.name)] + ([if stage.args == "" then Blank else Word("", stage.args)] + ([Bar] + []))
  }

  lemma StageAssembled(blank: string, name: string, args: string, bar: string)
    ensures blank + name + (blank + args + (bar + "")) == blank + name + blank + args + bar
  {
  }

  lemma StageRendered(stage: Stage)
    ensures Render(StageLexemes(stage)) == DecompressionText(stage)
    ensures TokensOf(StageLexemes(stage)) == StepTokens(StageStep(stage)) + [PIPE]
  {
    var name, last := Word("", stage.name), if stage.args == "" then Blank else Word("", stage.args);
    assert Body(name) == stage.name && TokenOf(name) == [stage.name];
    assert Body(last) == stage.args && TokenOf(last) == StageArgs(stage);
    assert Body(Bar) == PIPE && TokenOf(Bar) == [PIPE];
    assert Render([]) == "" && TokensOf([]) == [];
    assert StepTokens(StageStep(stage)) == [stage.name] + StageArgs(stage);
    hide Render, TokensOf, Body, TokenOf, StepTokens, StageStep, StageArgs;
    RenderCons(Bar, []);
    RenderCons(last, [Bar] + []);
    RenderCons(name, [last] + ([Bar] + []));
    assert " " + PIPE == " |" && [PIPE] + [] == [PIPE];
    StageAssembled(" ", stage.name, stage.args, " |");
    Reassociate([stage.name], StageArgs(stage), [PIPE]);
  }

  const RECEIVE_HEAD := [Blank, Word("", "zfs"), Word("", "receive")]

  function OptionLexemes(s: Settings, resume: bool): (xs: seq<Lexeme>) {
    (if s.recvOptions == "u" then [Word("", "-u"), Blank] else [Blank])
    + When(resume, [Word("", "-s")])
    + When(!s.noRollback, [Word("", "-F")])
  }

  function ReceiveLexemes(s: Settings, target: string, resume: bool): (xs: seq<Lexeme>) {
    RECEIVE_HEAD + OptionLexemes(s, resume) + [Word(target, ""), Word("", STDERR_TO_STDOUT)]
  }

  lemma HeadRendered()
    ensures Render(RECEIVE_HEAD) == "  zfs receive" && TokensOf(RECEIVE_HEAD) == ["zfs", "receive"]
  {
  }

  lemma FlagRendered(on: bool, flag: string)
    requires flag != ""
    ensures Render(When(on, [Word("", flag)])) == TextIf(on, " " + flag)
    ensures TokensOf(When(on, [Word("", flag)])) == When(on, [flag])
  {
    var x := Word("", flag);
    assert Body(x) == flag && TokenOf(x) == [flag];
    hide Body, TokenOf;
    RenderOne(x);
    if on {
      hide Render, TokensOf;
    }
  }

  lemma FirstFlagRendered(on: bool)
    ensures var xs := if on then [Word("", "-u"), Blank] else [Blank];
      Render(xs) == " " + TextIf(on, "-u ") && TokensOf(xs) == When(on, ["-u"])
  {
    if on {
      RenderCons(Word("", "-u"), [Blank]);
      assert [Word("", "-u")] + [Blank] == [Word("", "-u"), Blank];
    }
    RenderOne(Blank);
  }

  lemma Prefixed(a: string, b: string, c: string, d: string)
    ensures a + b + c + d == a + (b + c + d)
  {
  }

  lemma OptionsRendered(s: Settings, resume: bool)
    ensures Render(OptionLexemes(s, resume)) == " " + ReceiveOptionsText(s, resume)
    ensures TokensOf(OptionLexemes(s, resume)) == ReceiveFlags(s.recvOptions == "u", resume, !s.noRollback)
  {
    FirstFlagRendered(s.recvOptions == "u");
    FlagRendered(resume, "-s");
    FlagRendered(!s.noRollback, "-F");
    assert " " + "-s" == " -s" && " " + "-F" == " -F";
    var a := if s.recvOptions == "u" then [Word("", "-u"), Blank] else [Blank];
    var b, c := When(resume, [Word("", "-s")]), When(!s.noRollback, [Word("", "-F")]);
    hide Render, TokensOf, TextIf, When;
    RenderConcat(a, b);
    RenderConcat(a + b, c);
    Prefixed(" ", TextIf(s.recvOptions == "u", "-u "), TextIf(resume, " -s"), TextIf(!s.noRollback, " -F"));
  }

  lemma OperandRendered(target: string)
    requires target != ""
    ensures Render([Word(target, ""), Word("", STDERR_TO_STDOUT)]) == " " + QuoteWord(target) + " 2>&1"
    ensures TokensOf([Word(target, ""), Word("", STDERR_TO_STDOUT)]) == [target, STDERR_TO_STDOUT]
  {
    hide Escape;
    RenderCons(Word(target, ""), [Word("", STDERR_TO_STDOUT)]);
    RenderOne(Word("", STDERR_TO_STDOUT));
    hide Render, TokensOf;
    assert [Word(target, "")] + [Word("", STDERR_TO_STDOUT)] == [Word(target, ""), Word("", STDERR_TO_STDOUT)];
    assert target + "" == target && QuoteWord(target) + "" == QuoteWord(target);
    assert " " + STDERR_TO_STDOUT == " 2>&1";
  }

  lemma Spliced(a: string, b: string, c: string, q: string, e: string, zfs: string, receive: string)
    requires a == zfs && receive == zfs + b
    ensures a + (b + c) + (b + q + e) == receive + c + b + q + e
  {
  }

  lemma ReceivePieces(s: Settings, target: string, resume: bool)
    requires target != ""
    ensures Render(ReceiveLexemes(s, target, resume))
      == "  zfs receive" + (" " + ReceiveOptionsText(s, resume)) + (" " + QuoteWord(target) + " 2>&1")
    ensures TokensOf(ReceiveLexemes(s, target, resume))
      == ["zfs", "receive"] + ReceiveFlags(s.recvOptions == "u", resume, !s.noRollback) + [target, STDERR_TO_STDOUT]
  {
    HeadRendered();
    OptionsRendered(s, resume);
    OperandRendered(target);
    hide Render, TokensOf, OptionLexemes, ReceiveOptionsText, ReceiveFlags, QuoteWord;
    RenderConcat(RECEIVE_HEAD, OptionLexemes(s, resume));
    RenderConcat(RECEIVE_HEAD + OptionLexemes(s, resume), [Word(target, ""), Word("", STDERR_TO_STDOUT)]);
  }

  lemma Interleaved<T>(a: seq<T>, b: seq<T>, c: seq<T>, d: seq<T>, e: seq<T>)
    ensures a + (b + c + d) + e == a + b + c + (d + e)
  {
  }

  lemma ReceiveTokensAre(s: Settings, target: string, resume: bool)
    ensures StepTokens(ReceiveStep(s, target, resume))
      == ["zfs", "receive"] + ReceiveFlags(s.recvOptions == "u", resume, !s.noRollback) + [target, STDERR_TO_STDOUT]
  {
    hide ReceiveFlags;
    var step := ReceiveStep(s, target, resume);
    assert RedirectTokens(step) == [STDERR_TO_STDOUT];
    Interleaved(["zfs"], ["receive"], ReceiveFlags(s.recvOptions == "u", resume, !s.noRollback), [target], [STDERR_TO_STDOUT]);
    assert ["zfs"] + ["receive"] == ["zfs", "receive"];
    assert [target] + [STDERR_TO_STDOUT] == [target, STDERR_TO_STDOUT];
  }

  lemma ReceiveHead()
    ensures " " + "" + " zfs receive " == "  zfs receive" + " "
  {
  }

  lemma ReceiveRendered(s: Settings, target: string, resume: bool)
    requires target != "" && s.noPrivilegeElevation
    ensures Render(ReceiveLexemes(s, target, resume)) == ReceiveText(s, target, resume)
    ensures TokensOf(ReceiveLexemes(s, target, resume)) == StepTokens(ReceiveStep(s, target, resume))
  {
    ReceivePieces(s, target, resume);
    ReceiveTokensAre(s, target, resume);
    hide Render, TokensOf, StepTokens, ReceiveOptionsText, ReceiveFlags, QuoteWord, ReceiveStep;
    ReceiveHead();
    Spliced("  zfs receive", " ", ReceiveOptionsText(s, resume), QuoteWord(target), " 2>&1",
      "  zfs receive", " " + "" + " zfs receive ");
  }

  // ----- The whole pipeline -----

  function PipelineLexemes(s: Settings, target: string, mbuffer: bool, compress: bool, resume: bool): (xs: seq<Lexeme>) {
    When(mbuffer, MBUFFER_LEXEMES)
    + When(compress, StageLexemes(Decompression(s.compress)))
    + ReceiveLexemes(s, target, resume)
  }

  lemma WhenRendered(on: bool, xs: seq<Lexeme>, text: string)
    requires Render(xs) == text
    ensures Render(When(on, xs)) == TextIf(on, text) && TokensOf(When(on, xs)) == When(on, TokensOf(xs))
  {
  }

  lemma PipelineText(s: Settings, target: string, mbuffer: bool, compress: bool, resume: bool)
    requires target != "" && s.noPrivilegeElevation
    ensures Render(PipelineLexemes(s, target, mbuffer, compress, resume)) == ReceiveCommand(s, target, mbuffer, compress, resume)
    ensures TokensOf(PipelineLexemes(s, target, mbuffer, compress, resume))
      == When(mbuffer, StepTokens(MBUFFER_STEP) + [PIPE])
        + When(compress, StepTokens(StageStep(Decompression(s.compress))) + [PIPE])
        + StepTokens(ReceiveStep(s, target, resume))
  {
    var stage := Decompression(s.compress);
    MbufferTextRendered();
    MbufferTokens();
    StageRendered(stage);
    ReceiveRendered(s, target, resume);
    hide Render, TokensOf, StepTokens, ReceiveText, StageLexemes, ReceiveLexemes, DecompressionText, Decompression,
      StageStep, ReceiveStep;
    WhenRendered(mbuffer, MBUFFER_LEXEMES, MBUFFER_TEXT);
    WhenRendered(compress, StageLexemes(stage), DecompressionText(stage));
    hide When, TextIf;
    var a, b := When(mbuffer, MBUFFER_LEXEMES), When(compress, StageLexemes(stage));
    RenderConcat(a, b);
    RenderConcat(a + b, ReceiveLexemes(s, target, resume));
  }

  lemma PipelineStepsTokens(s: Settings, target: string, mbuffer: bool, compress: bool, resume: bool)
    ensures StepsTokens(ReceiveSteps(s, target, mbuffer, compress, resume))
      == When(mbuffer, StepTokens(MBUFFER_STEP) + [PIPE])
        + When(compress, StepTokens(StageStep(Decompression(s.compress))) + [PIPE])
        + StepTokens(ReceiveStep(s, target, resume))
  {
    var stage, last := StageStep(Decompression(s.compress)), ReceiveStep(s, target, resume);
    hide Decompression, StageStep, ReceiveStep;
    var tail := When(compress, [stage]) + [last];
    assert StepsTokens([last]) == StepTokens(last);
    hide StepTokens, StepsTokens;
    if compress {
      StepsTokensCons(stage, [last]);
    } else {
      assert tail == [last];
    }
    assert StepsTokens(tail) == When(compress, StepTokens(stage) + [PIPE]) + StepTokens(last);
    Reassociate(When(mbuffer, StepTokens(MBUFFER_STEP) + [PIPE]), When(compress, StepTokens(stage) + [PIPE]), StepTokens(last));
    assert ReceiveSteps(s, target, mbuffer, compress, resume) == When(mbuffer, [MBUFFER_STEP]) + tail;
    if mbuffer {
      StepsTokensCons(MBUFFER_STEP, tail);
    } else {
      assert When(mbuffer, [MBUFFER_STEP]) + tail == tail;
    }
  }

  lemma DecompressionWords(compress: string)
    requires compress != "none"
    ensures TidyWord(Decompression(compress).name) && Decompression(compress).name != "mbuffer"
    ensures Decompression(compress).args == "" || TidyWord(Decompression(compress).args)
  {
  }

  /** A word that can be one argument of one command. */
  predicate OneWord(target: string) {
    ArgumentWord(target) && ';' !in target
  }

  lemma DatasetIsOneWord(target: string)
    requires ValidDatasetName(target)
    ensures OneWord(target)
  {
    DatasetIsArgumentWord(target);
  }

  lemma TargetWords(target: string)
    requires OneWord(target)
    ensures target != "" && ArgumentWord(target) && GoodLexeme(Word(target, "")) && ';' !in target
  {
    assert target + "" == target;
  }

  lemma FlagsTidy(unmounted: bool, resume: bool, rollback: bool)
    ensures forall a :: a in ReceiveFlags(unmounted, resume, rollback) ==> TidyWord(a)
  {
    assert TidyWord("-u") && TidyWord("-s") && TidyWord("-F");
  }

  lemma ReceiveWordsTidy()
    ensures TidyWord("zfs") && TidyWord("receive") && TidyWord("-u") && TidyWord("-s") && TidyWord("-F")
  {
  }

  lemma RedirectGood()
    ensures GoodLexeme(Word("", STDERR_TO_STDOUT))
  {
  }

  lemma ReceiveStepWords(s: Settings, target: string, resume: bool)
    requires OneWord(target)
    ensures WellFormedStep(ReceiveStep(s, target, resume))
  {
    var flags := ReceiveFlags(s.recvOptions == "u", resume, !s.noRollback);
    TargetWords(target);
    ReceiveWordsTidy();
    FlagsTidy(s.recvOptions == "u", resume, !s.noRollback);
    hide TidyWord, ArgumentWord, GoodLexeme, OneWord, ReceiveFlags, WellFormedStep;
    TidyWords(flags);
    Tidy("zfs");
    Tidy("receive");
    StepOfWords(ReceiveStep(s, target, resume), "receive", flags, target);
  }

  lemma SafeOptions(s: Settings, resume: bool)
    ensures Safe(RECEIVE_HEAD) && Safe(OptionLexemes(s, resume))
  {
    ReceiveWordsTidy();
    hide TidyWord, GoodLexeme, Safe;
    TidySafe(RECEIVE_HEAD);
    TidySafe(OptionLexemes(s, resume));
  }

  lemma SafeOperand(target: string)
    requires OneWord(target)
    ensures Safe([Word(target, ""), Word("", STDERR_TO_STDOUT)])
  {
    TargetWords(target);
    RedirectGood();
    hide OneWord, ArgumentWord, GoodLexeme;
  }

  lemma SafeReceive(s: Settings, target: string, resume: bool)
    requires OneWord(target)
    ensures Safe(ReceiveLexemes(s, target, resume))
  {
    SafeOperand(target);
    hide Safe, OptionLexemes;
    SafeOptions(s, resume);
    SafeThree(RECEIVE_HEAD, OptionLexemes(s, resume), [Word(target, ""), Word("", STDERR_TO_STDOUT)]);
  }

  lemma SafeMbuffer()
    ensures Safe(MBUFFER_LEXEMES) && WellFormedStep(MBUFFER_STEP)
  {
    MbufferTidy();
    hide TidyWord, Safe, GoodLexemes, WellFormedStep;
    TidySafe(MBUFFER_LEXEMES);
    TidyStep(MBUFFER_STEP);
  }

  lemma SafeStage(stage: Stage)
    requires TidyWord(stage.name) && (stage.args == "" || TidyWord(stage.args))
    ensures Safe(StageLexemes(stage)) && WellFormedStep(StageStep(stage))
  {
    hide TidyWord, Safe, GoodLexemes, WellFormedStep;
    TidySafe(StageLexemes(stage));
    TidyStep(StageStep(stage));
  }

  lemma SafeWhen(on: bool, xs: seq<Lexeme>)
    requires on ==> Safe(xs)
    ensures Safe(When(on, xs))
  {
  }

  lemma StepsOfParts(mbuffer: bool, a: Step, compress: bool, b: Step, c: Step)
    requires (mbuffer ==> WellFormedStep(a)) && (compress ==> WellFormedStep(b)) && WellFormedStep(c)
    ensures WellFormedSteps(When(mbuffer, [a]) + When(compress, [b]) + [c])
  {
  }

  lemma SafePipeline(s: Settings, target: string, mbuffer: bool, compress: bool, resume: bool)
    requires OneWord(target) && (compress ==> s.compress != "none")
    ensures Safe(PipelineLexemes(s, target, mbuffer, compress, resume))
    ensures WellFormedSteps(ReceiveSteps(s, target, mbuffer, compress, resume))
  {
    var stage := Decompression(s.compress);
    if compress {
      DecompressionWords(s.compress);
      hide *;
      SafeStage(stage);
    }
    hide Safe, WellFormedSteps, WellFormedStep, Decompression, StageStep, StageLexemes, ReceiveStep, ReceiveLexemes,
      OneWord, When;
    SafeMbuffer();
    ReceiveStepWords(s, target, resume);
    SafeReceive(s, target, resume);
    SafeWhen(mbuffer, MBUFFER_LEXEMES);
    SafeWhen(compress, StageLexemes(stage));
    SafeThree(When(mbuffer, MBUFFER_LEXEMES), When(compress, StageLexemes(stage)), ReceiveLexemes(s, target, resume));
    StepsOfParts(mbuffer, MBUFFER_STEP, compress, StageStep(stage), ReceiveStep(s, target, resume));
  }

  lemma VisibleEnd(s: Settings, target: string, mbuffer: bool, compress: bool, resume: bool)
    ensures var text := ReceiveCommand(s, target, mbuffer, compress, resume); text != "" && !IsSpace(text[|text| - 1])
  {
    var text := ReceiveText(s, target, resume);
    assert text[|text| - 1] == " 2>&1"[4];
  }

  /** The receiver reads Syncoid's receive pipeline as exactly the steps Syncoid means. */
  lemma ReceiveCommandParses(s: Settings, target: string, mbuffer: bool, compress: bool, resume: bool)
    requires OneWord(target) && s.noPrivilegeElevation && (compress ==> s.compress != "none")
    ensures ParseCommand(TrimSpace(ReceiveCommand(s, target, mbuffer, compress, resume)))
      == Ok(ReceiveSteps(s, target, mbuffer, compress, resume))
    ensures ';' !in ReceiveCommand(s, target, mbuffer, compress, resume)
  {
    TargetWords(target);
    VisibleEnd(s, target, mbuffer, compress, resume);
    hide *;
    SafePipeline(s, target, mbuffer, compress, resume);
    PipelineText(s, target, mbuffer, compress, resume);
    PipelineStepsTokens(s, target, mbuffer, compress, resume);
    SafeCommandParses(ReceiveCommand(s, target, mbuffer, compress, resume),
      PipelineLexemes(s, target, mbuffer, compress, resume), ReceiveSteps(s, target, mbuffer, compress, resume));
  }

  // ----- Admission of the pipeline, exactly -----

  predicate ReceiveGranted(s: Settings, target: string, resume: bool, policy: CommandPolicy) {
    && target == policy.targetDataset
    && (if s.recvOptions == "u" then policy.receiveUnmounted else policy.allowMount)
    && (resume ==> policy.receiveResumable)
    && (!s.noRollback ==> policy.allowRollback)
  }

  predicate StagesGranted(s: Settings, mbuffer: bool, compress: bool, policy: CommandPolicy) {
    if compress then
      DecompressorAllowed(Decompression(s.compress).name, StageArgs(Decompression(s.compress)), policy.compression)
    else mbuffer ==> policy.compression == COMPRESSION_NONE
  }

  lemma FlagsExact(unmounted: bool, resume: bool, rollback: bool, policy: CommandPolicy)
    ensures ReceiveFlagsError(ReceiveFlags(unmounted, resume, rollback), policy).None? <==>
      (unmounted ==> policy.receiveUnmounted) && (resume ==> policy.receiveResumable) && (rollback ==> policy.allowRollback)
    ensures "-u" in ReceiveFlags(unmounted, resume, rollback) <==> unmounted
    ensures forall flag :: flag in ReceiveFlags(unmounted, resume, rollback) ==> flag != "-A"
  {
    var flags := ReceiveFlags(unmounted, resume, rollback);
    FlagsLicensed(flags, policy);
    assert (unmounted ==> "-u" in flags) && (resume ==> "-s" in flags) && (rollback ==> "-F" in flags);
  }

  /** A target named "-A", received without options, reads like an abort. */
  predicate MistakenForAbort(s: Settings, target: string, resume: bool) {
    target == "-A" && s.recvOptions != "u" && !resume && s.noRollback
  }

  lemma FlagsAreShort(unmounted: bool, resume: bool, rollback: bool)
    ensures ReceiveFlags(unmounted, resume, rollback) == [] <==> !unmounted && !resume && !rollback
  {
  }

  lemma ReceiveStepShape(step: Step, flags: seq<string>, target: string)
    requires step.args == ["receive"] + flags + [target] && step.stderrToStdout
    requires forall flag :: flag in flags ==> flag != "-A"
    ensures ReceiveEffect(step.args) == ReceiveInto(target, flags)
    ensures AbortLookalike(step) <==> flags == [] && target == "-A"
  {
    var args := step.args;
    assert args[1..|args| - 1] == flags;
    if flags != [] {
      assert args[1] == flags[0] && flags[0] in flags;
    } else {
      assert args == ["receive", target];
    }
  }

  lemma GrantedIsLicensed(s: Settings, target: string, resume: bool, policy: CommandPolicy)
    ensures Licensed(ReceiveInto(target, ReceiveFlags(s.recvOptions == "u", resume, !s.noRollback)), policy) <==>
      ReceiveGranted(s, target, resume, policy)
  {
    FlagsExact(s.recvOptions == "u", resume, !s.noRollback, policy);
    FlagsLicensed(ReceiveFlags(s.recvOptions == "u", resume, !s.noRollback), policy);
    hide ReceiveFlags, ReceiveFlagsError, LicensedOption;
  }

  lemma ReceiveStepExact(s: Settings, target: string, resume: bool, policy: CommandPolicy)
    requires ValidDatasetName(policy.targetDataset)
    ensures ReceiveError(ReceiveStep(s, target, resume), policy).None? <==>
      ReceiveGranted(s, target, resume, policy) && !MistakenForAbort(s, target, resume)
  {
    var step, flags := ReceiveStep(s, target, resume), ReceiveFlags(s.recvOptions == "u", resume, !s.noRollback);
    hide ReceiveFlags, ValidDatasetName, ReceiveError, ReceiveEffect, AbortLookalike, Licensed, ReceiveGranted;
    FlagsExact(s.recvOptions == "u", resume, !s.noRollback, policy);
    FlagsAreShort(s.recvOptions == "u", resume, !s.noRollback);
    GrantedIsLicensed(s, target, resume, policy);
    ReceiveStepShape(step, flags, target);
    ReceiveAcceptedIffLicensed(step, policy);
  }

  lemma NotAReceive(step: Step, policy: CommandPolicy)
    requires step.name == "zfs"
    ensures BuiltinPlan(step, policy).None?
    ensures step.args != [] && step.args[0] == "receive" ==> SingleStepError(step, policy) == ReceiveError(step, policy)
  {
    hide ReceiveError;
  }

  lemma NotAFeatureCheck(steps: seq<Step>, policy: CommandPolicy)
    requires steps != [] && steps[|steps| - 1].name == "zfs"
    ensures !ZpoolFeatureCheckAllowed(steps, policy)
  {
    hide ZpoolFeatureGetAllowed;
  }

  lemma SplitDecompressor(step: Step, policy: CommandPolicy)
    requires NoRedirects(step)
    ensures DecompressorStepAllowed(step, policy) <==> DecompressorAllowed(step.name, step.args, policy.compression)
  {
  }

  /** A pipeline that ends in a receive is judged as one. */
  lemma ReceiveIsJudged(steps: seq<Step>, policy: CommandPolicy)
    requires 1 <= |steps| <= 3
    requires var c := steps[|steps| - 1]; c.name == "zfs" && c.args != [] && c.args[0] == "receive"
    ensures AuthorizeSteps(steps, policy).Ok? <==> ReceivePipelineAllowed(steps, policy)
    ensures AuthorizeSteps(steps, policy).Ok? ==> AuthorizeSteps(steps, policy).value == Pipeline(steps)
  {
    NotAReceive(steps[|steps| - 1], policy);
    NotAFeatureCheck(steps, policy);
    hide ReceiveError, BuiltinPlan, SingleStepError, ZpoolFeatureCheckAllowed, DecompressorStepAllowed, MbufferStepAllowed;
  }

  lemma StagesAllowed(mbuffer: bool, a: Step, compress: bool, b: Step, c: Step, policy: CommandPolicy)
    requires a.name == "mbuffer" && MbufferStepAllowed(a) && b.name != "mbuffer"
    requires c.name == "zfs" && c.args != [] && c.args[0] == "receive"
    ensures ReceivePipelineAllowed(When(mbuffer, [a]) + When(compress, [b]) + [c], policy) <==>
      && ReceiveError(c, policy).None?
      && (if compress then DecompressorStepAllowed(b, policy) else mbuffer ==> policy.compression == COMPRESSION_NONE)
  {
    hide ReceiveError, DecompressorStepAllowed, MbufferStepAllowed;
    var steps := When(mbuffer, [a]) + When(compress, [b]) + [c];
    assert steps == if mbuffer then (if compress then [a, b, c] else [a, c]) else if compress then [b, c] else [c];
  }

  lemma PipelineExact(mbuffer: bool, a: Step, compress: bool, b: Step, c: Step, policy: CommandPolicy)
    requires a.name == "mbuffer" && MbufferStepAllowed(a)
    requires b.name != "mbuffer" && NoRedirects(b)
    requires c.name == "zfs" && c.args != [] && c.args[0] == "receive"
    ensures var steps := When(mbuffer, [a]) + When(compress, [b]) + [c];
      && (AuthorizeSteps(steps, policy).Ok? <==>
            && ReceiveError(c, policy).None?
            && (if compress then DecompressorAllowed(b.name, b.args, policy.compression)
                else mbuffer ==> policy.compression == COMPRESSION_NONE))
      && (AuthorizeSteps(steps, policy).Ok? ==> AuthorizeSteps(steps, policy).value == Pipeline(steps))
  {
    var before := When(mbuffer, [a]) + When(compress, [b]);
    assert |before| <= 2;
    hide *;
    ReceiveIsJudged(before + [c], policy);
    StagesAllowed(mbuffer, a, compress, b, c, policy);
    SplitDecompressor(b, policy);
  }

  lemma NotADestroyBatch(raw: string, steps: seq<Step>, policy: CommandPolicy)
    requires ';' !in raw && ParseCommand(TrimSpace(raw)) == Ok(steps)
    requires ByteLength(TrimSpace(raw)) <= MAX_COMMAND_LENGTH && UsablePolicy(policy)
    ensures Authorize(raw, policy) == AuthorizeSteps(steps, Effective(policy))
  {
    TrimSpaceKeeps(raw);
  }

  /** Which receive pipelines of Syncoid's a policy admits: exactly those it grants, option by option and stage by stage. */
  lemma ReceiveCommandAdmittedIff(
      s: Settings, target: string, mbuffer: bool, compress: bool, resume: bool, policy: CommandPolicy)
    requires OneWord(target) && s.noPrivilegeElevation && (compress ==> s.compress != "none")
    requires UsablePolicy(policy)
    requires ByteLength(TrimSpace(ReceiveCommand(s, target, mbuffer, compress, resume))) <= MAX_COMMAND_LENGTH
    ensures var r := Authorize(ReceiveCommand(s, target, mbuffer, compress, resume), policy);
      && (r.Ok? <==>
            && ReceiveGranted(s, target, resume, policy)
            && !MistakenForAbort(s, target, resume)
            && StagesGranted(s, mbuffer, compress, Effective(policy)))
      && (r.Ok? ==> r.value == Pipeline(ReceiveSteps(s, target, mbuffer, compress, resume)))
  {
    ReceiveCommandParses(s, target, mbuffer, compress, resume);
    NotADestroyBatch(ReceiveCommand(s, target, mbuffer, compress, resume), ReceiveSteps(s, target, mbuffer, compress, resume), policy);
    var effective := Effective(policy);
    ReceiveStepExact(s, target, resume, effective);
    MbufferTuned();
    if compress {
      DecompressionWords(s.compress);
    }
    hide ReceiveError, ValidDatasetName, OneWord, ParseCommand, Authorize, AuthorizeSteps, Decompression, ReceiveCommand,
      MistakenForAbort, TidyWord,
      DecompressorAllowed, MbufferStepAllowed;
    var stage := if compress then StageStep(Decompression(s.compress)) else Plainly("", []);
    PipelineExact(mbuffer, MBUFFER_STEP, compress, stage, ReceiveStep(s, target, resume), effective);
  }

  // ----- One run's sender against its own policy -----

  function PolicyOf(contract: SyncoidContract.Contract): (policy: CommandPolicy) {
    var p := contract.receiverPolicy;
    CommandPolicy(contract.targetDataset, p.receiveUnmounted, p.receiveResumable, p.allowRollback, p.allowDestroy, p.allowMount,
      p.allowSyncSnapshotDestroy, p.allowTargetSnapshotDestroy, p.syncSnapshotIdentifier, p.compression)
  }

  lemma TableEntry(compression: string)
    requires CompressionSupported(compression) && compression != "" && compression != COMPRESSION_NONE
    ensures SpecFor(compression).value.sender != "none"
    ensures var stage := Decompression(SpecFor(compression).value.sender);
      Invocation(stage.name, StageArgs(stage)) in SpecFor(compression).value.allowed
  {
    var allowed := SpecFor(compression).value.allowed;
    assert Invocation(Decompression(SpecFor(compression).value.sender).name,
      StageArgs(Decompression(SpecFor(compression).value.sender))) == allowed[0];
  }

  /** The compression table pairs every sender spelling with a decompressor it allows. */
  lemma TableAgrees(compression: string)
    requires CompressionSupported(compression) && compression != ""
    ensures var stage := Decompression(SpecFor(compression).value.sender);
      if compression == COMPRESSION_NONE then SpecFor(compression).value.sender == "none"
      else && SpecFor(compression).value.sender != "none"
           && DecompressorAllowed(stage.name, StageArgs(stage), compression)
  {
    if compression != COMPRESSION_NONE {
      hide Decompression, SpecFor;
      TableEntry(compression);
    }
  }

  /** What every translated contract satisfies. */
  predicate Coherent(contract: SyncoidContract.Contract) {
    var o, p := contract.options, contract.receiverPolicy;
    && ValidDatasetName(contract.sourceDataset) && ValidDatasetName(contract.targetDataset)
    && CompressionSupported(o.compression) && o.compression != ""
    && SyncoidContract.ValidIdentifier(o.identifier) && Filled(o)
    && p == SyncoidContract.ReceiverPolicy(o.receiveUnmounted, o.receiveResumable, !o.noRollback, o.forceDelete,
         !o.receiveUnmounted, !o.noSyncSnap, o.deleteTargetSnapshots, o.identifier, o.compression)
  }

  lemma TranslatedIsCoherent(run: SyncoidContract.RunSpec, digest: string)
    requires SyncoidContract.HexDigest(digest) && SyncoidContract.Translate(run, digest).Ok?
    ensures var contract := SyncoidContract.Translate(run, digest).value;
      Coherent(contract) && contract.sourceDataset == run.sourceDataset && contract.targetDataset == run.targetDataset
  {
    SyncoidContract.RelationshipIdentifierValid(digest);
    TranslatedIsFilled(run, digest);
    hide ValidDatasetName, CompressionSupported, SyncoidContract.ValidIdentifier, Filled, SyncoidContract.NormalizePatterns;
  }

  /** The settings Syncoid derives for a run. */
  function RunSettings(contract: SyncoidContract.Contract, connection: SyncoidContract.Connection): (s: Settings)
    requires CompressionSupported(contract.options.compression)
  {
    SettingsOf(contract, connection, SpecFor(contract.options.compression).value.sender)
  }

  lemma PolicyGrantsReceive(contract: SyncoidContract.Contract, connection: SyncoidContract.Connection, target: string, resume: bool)
    requires Coherent(contract) && (resume ==> contract.options.receiveResumable)
    ensures UsablePolicy(PolicyOf(contract)) && Effective(PolicyOf(contract)) == PolicyOf(contract)
    ensures ReceiveGranted(RunSettings(contract, connection), target, resume, PolicyOf(contract)) <==>
      target == contract.targetDataset
  {
    hide ValidDatasetName, SpecFor, SyncoidContract.ValidIdentifier, Filled;
  }

  lemma PolicyGrantsStages(contract: SyncoidContract.Contract, connection: SyncoidContract.Connection, mbuffer: bool, compressor: bool)
    requires Coherent(contract)
    ensures var s := RunSettings(contract, connection);
      StagesGranted(s, mbuffer, compressor && s.compress != "none", PolicyOf(contract)) <==>
        !mbuffer || compressor || contract.options.compression == COMPRESSION_NONE
  {
    TableAgrees(contract.options.compression);
    hide ValidDatasetName, SpecFor, SyncoidContract.ValidIdentifier, Filled, Decompression, DecompressorAllowed;
  }

  lemma RunNeedsNoSudo(contract: SyncoidContract.Contract, connection: SyncoidContract.Connection)
    requires Coherent(contract)
    ensures ValidDatasetName(contract.targetDataset) && RunSettings(contract, connection).noPrivilegeElevation
    ensures RunSettings(contract, connection).noResume == !contract.options.receiveResumable
  {
    hide ValidDatasetName, SpecFor, SyncoidContract.ValidIdentifier, Filled;
  }

  lemma PolicyAdmitsReceive(
      contract: SyncoidContract.Contract, connection: SyncoidContract.Connection, s: Settings, target: string,
      mbuffer: bool, compressor: bool, compress: bool, resume: bool)
    requires Coherent(contract) && s == RunSettings(contract, connection) && OneWord(target)
    requires compress == (compressor && s.compress != "none")
    requires resume ==> !s.noResume
    requires ByteLength(TrimSpace(ReceiveCommand(s, target, mbuffer, compress, resume))) <= MAX_COMMAND_LENGTH
    requires !MistakenForAbort(s, target, resume)
    ensures Authorize(ReceiveCommand(s, target, mbuffer, compress, resume), PolicyOf(contract)).Ok? <==>
      target == contract.targetDataset && (!mbuffer || compressor || contract.options.compression == COMPRESSION_NONE)
  {
    RunNeedsNoSudo(contract, connection);
    hide *;
    PolicyGrantsReceive(contract, connection, target, resume);
    PolicyGrantsStages(contract, connection, mbuffer, compressor);
    ReceiveCommandAdmittedIff(s, target, mbuffer, compress, resume, PolicyOf(contract));
  }

  /** Syncoid goes on only with exactly two datasets named. */
  predicate Usable(settings: Option<Settings>) {
    settings.Some? && |settings.value.positional| == 2
  }

  lemma CoherentIsRunnable(contract: SyncoidContract.Contract)
    requires Coherent(contract)
    ensures SpecFor(contract.options.compression).Some? && CompressionSupported(contract.options.compression)
    ensures Filled(contract.options)
  {
    hide ValidDatasetName, SpecFor, Filled, SyncoidContract.ValidIdentifier;
  }

  lemma SettingsAreTwo(contract: SyncoidContract.Contract, connection: SyncoidContract.Connection)
    requires CompressionSupported(contract.options.compression)
    ensures RunSettings(contract, connection) == SettingsOf(contract, connection, SpecFor(contract.options.compression).value.sender)
    ensures RunSettings(contract, connection).positional
      == [contract.sourceDataset, connection.targetHost + ":" + contract.targetDataset]
  {
    hide SpecFor;
  }

  lemma UsableIffTwo(settings: Option<Settings>)
    ensures Usable(settings) <==> settings.Some? && |settings.value.positional| == 2
  {
  }

  lemma SettingsRead(contract: SyncoidContract.Contract, connection: SyncoidContract.Connection)
    requires Coherent(contract) && PodConnection(connection)
    ensures SyncoidContract.SenderArguments(contract, connection).Ok?
    ensures var settings := ReadSettings(SyncoidContract.SenderArguments(contract, connection).value);
      && (Usable(settings) <==> !OptionLike(contract.sourceDataset))
      && (Usable(settings) ==>
            settings.value == RunSettings(contract, connection)
            && settings.value.positional == [contract.sourceDataset, connection.targetHost + ":" + contract.targetDataset])
    ensures TargetOf(connection.targetHost + ":" + contract.targetDataset) == contract.targetDataset <==> PlainHost(HostOf(connection))
  {
    CoherentIsRunnable(contract);
    hide *;
    SyncoidReadsContract(contract, connection);
    SettingsAreTwo(contract, connection);
    UsableIffTwo(ReadSettings(SyncoidContract.SenderArguments(contract, connection).value));
  }

  // ----- The address the target is reached at -----

  /** The characters addresses and host names are made of. */
  predicate AddressText(host: string) {
    forall c :: c in host ==>
      'a' <= c <= 'z' || 'A' <= c <= 'Z' || '0' <= c <= '9' || c == '.' || c == ':' || c == '-' || c == '%'
  }

  lemma AddressIsClean(host: string)
    requires AddressText(host)
    ensures Clean(host) && '@' !in host && ';' !in host
  {
    forall i | 0 <= i < |host| ensures Speakable(host[i]) {
      assert host[i] in host;
    }
  }

  lemma CleanIsOneWord(text: string)
    requires Clean(text) && text != "" && ';' !in text
    ensures OneWord(text)
  {
    CleanWord(text);
    hide Clean, ArgumentWord;
  }

  lemma RestIsOneWord(host: string, n: nat, dataset: string)
    requires ValidDatasetName(dataset) && AddressText(host) && n < |host|
    ensures OneWord(host[n + 1..] + ":" + dataset)
  {
    var rest := host[n + 1..];
    assert AddressText(rest) by {
      assert forall c :: c in rest ==> c in host;
    }
    AddressIsClean(rest);
    AddressIsClean(":");
    DatasetIsArgumentWord(dataset);
    hide ValidDatasetName, AddressText, OneWord, Clean, ArgumentWord;
    CleanConcat(rest, ":");
    CleanConcat(rest + ":", dataset);
    CleanIsOneWord(rest + ":" + dataset);
  }

  /** Whatever Syncoid takes for the target is still one word. */
  lemma TargetIsOneWord(host: string, dataset: string)
    requires ValidDatasetName(dataset) && (PlainHost(host) || AddressText(host))
    ensures OneWord(TargetOf(RECEIVER_USER + host + ":" + dataset))
  {
    hide ValidDatasetName, OneWord, Clean, ArgumentWord, Remote;
    TargetReadIff(host, dataset);
    if PlainHost(host) {
      DatasetIsOneWord(dataset);
    } else {
      AddressIsClean(host);
      var c :| c in host && (c == ':' || c == '@');
      var n := AddressIsCut(host, dataset);
      RestIsOneWord(host, n, dataset);
    }
  }

  /** For every run the contract accepts: Syncoid can use that run's own argument vector exactly when the source name does not
      begin like an option; it then finds the run's target exactly when the receiver's address is plain; and the pipeline it
      builds is admitted under that run's policy exactly when the target was found and Syncoid does not buffer without
      having found the agreed compressor. */
  lemma ContractAdmitsReceive(
      run: SyncoidContract.RunSpec, digest: string, connection: SyncoidContract.Connection,
      mbuffer: bool, compressor: bool, resume: bool)
    requires SyncoidContract.HexDigest(digest) && SyncoidContract.Translate(run, digest).Ok?
    requires PodConnection(connection)
    ensures var contract := SyncoidContract.Translate(run, digest).value;
      && SyncoidContract.SenderArguments(contract, connection).Ok?
      && var settings := ReadSettings(SyncoidContract.SenderArguments(contract, connection).value);
      && (Usable(settings) <==> !OptionLike(run.sourceDataset))
      && (Usable(settings) ==>
            var s, target := settings.value, TargetOf(settings.value.positional[1]);
            var compress := compressor && s.compress != "none";
            var text := ReceiveCommand(s, target, mbuffer, compress, resume);
            && s.positional[0] == run.sourceDataset
            && (target == run.targetDataset <==> PlainHost(HostOf(connection)))
            && ((PlainHost(HostOf(connection)) || AddressText(HostOf(connection))) && (resume ==> !s.noResume)
                && ByteLength(TrimSpace(text)) <= MAX_COMMAND_LENGTH && !MistakenForAbort(s, target, resume) ==>
                  (Authorize(text, PolicyOf(contract)).Ok? <==>
                     PlainHost(HostOf(connection))
                     && (!mbuffer || compressor || contract.options.compression == COMPRESSION_NONE))))
  {
    hide *;
    HostIsTheRest(connection);
    var contract := SyncoidContract.Translate(run, digest).value;
    TranslatedIsCoherent(run, digest);
    SettingsRead(contract, connection);
    RunNeedsNoSudo(contract, connection);
    var settings := ReadSettings(SyncoidContract.SenderArguments(contract, connection).value);
    UsableIffTwo(settings);
    if Usable(settings) {
      var s := settings.value;
      var target := TargetOf(s.positional[1]);
      var compress := compressor && s.compress != "none";
      var text := ReceiveCommand(s, target, mbuffer, compress, resume);
      if (PlainHost(HostOf(connection)) || AddressText(HostOf(connection))) && (resume ==> !s.noResume)
        && ByteLength(TrimSpace(text)) <= MAX_COMMAND_LENGTH && !MistakenForAbort(s, target, resume)
      {
        TargetIsOneWord(HostOf(connection), contract.targetDataset);
        PolicyAdmitsReceive(contract, connection, s, target, mbuffer, compressor, compress, resume);
      }
    }
  }

  // ----- Sources and an address that mislead -----

  /** A run from this source to "t", with all defaults. */
  function RunFrom(source: string): (run: SyncoidContract.RunSpec) {
    SyncoidContract.RunSpec(source, "t", SyncoidContract.SyncoidSpec(None, None, None, None, "", None, None, [], []))
  }

  lemma PlusName()
    ensures ValidDatasetName("+tank/data")
  {
    assert ValidComponent("+tank") && ValidComponent("data");
    assert Join(["+tank", "data"], '/') == "+tank/data";
    hide ValidComponent, ValidDatasetName, Join;
    PathRoundTrip(["+tank", "data"]);
  }

  lemma OneComponent(name: string)
    requires ValidComponent(name)
    ensures ValidDatasetName(name)
  {
    hide ValidComponent, ValidDatasetName;
    PathRoundTrip([name]);
  }

  lemma ShortComponents()
    ensures ValidComponent("-") && ValidComponent("--identifier") && ValidComponent("t")
  {
  }

  lemma SourceNames()
    ensures ValidDatasetName("+tank/data") && ValidDatasetName("-") && ValidDatasetName("--identifier") && ValidDatasetName("t")
  {
    ShortComponents();
    hide ValidComponent, ValidDatasetName;
    PlusName();
    OneComponent("-");
    OneComponent("--identifier");
    OneComponent("t");
  }

  /** The argument vector of that run. */
  function VectorFrom(source: string, digest: string, connection: SyncoidContract.Connection): (words: seq<string>)
    requires SyncoidContract.Translate(RunFrom(source), digest).Ok?
    requires SyncoidContract.SenderArguments(SyncoidContract.Translate(RunFrom(source), digest).value, connection).Ok?
  {
    SyncoidContract.SenderArguments(SyncoidContract.Translate(RunFrom(source), digest).value, connection).value
  }

  lemma RunFromTranslates(source: string, digest: string, connection: SyncoidContract.Connection)
    returns (contract: SyncoidContract.Contract, compression: string)
    requires ValidDatasetName(source) && ValidDatasetName("t") && SyncoidContract.HexDigest(digest) && PodConnection(connection)
    ensures SyncoidContract.Translate(RunFrom(source), digest) == Ok(contract) && Coherent(contract)
    ensures contract.sourceDataset == source && contract.targetDataset == "t"
    ensures Filled(contract.options) && compression != ""
    ensures SyncoidContract.SenderArguments(contract, connection)
      == Ok(SyncoidContract.SpellAll(SyncoidContract.ArgumentsFor(contract, connection, compression)))
  {
    hide ValidDatasetName;
    contract := SyncoidContract.Translate(RunFrom(source), digest).value;
    TranslatedIsCoherent(RunFrom(source), digest);
    CoherentIsRunnable(contract);
    compression := SpecFor(contract.options.compression).value.sender;
    SpecSender(contract.options.compression);
    hide Coherent, Filled, SpecFor;
  }

  lemma VectorIs(source: string, digest: string, connection: SyncoidContract.Connection)
    requires SyncoidContract.Translate(RunFrom(source), digest).Ok?
    requires SyncoidContract.SenderArguments(SyncoidContract.Translate(RunFrom(source), digest).value, connection).Ok?
    ensures VectorFrom(source, digest, connection)
      == SyncoidContract.SenderArguments(SyncoidContract.Translate(RunFrom(source), digest).value, connection).value
  {
  }

  /** Three runs the contract accepts: Syncoid refuses the vector of the one from "+tank/data", finds no dataset at all in that of
      the one from "--identifier", and reads that of the one from "-" as it was meant. */
  lemma MisleadingSources(digest: string, connection: SyncoidContract.Connection)
    requires SyncoidContract.HexDigest(digest) && PodConnection(connection)
    ensures forall source :: source in {"+tank/data", "-", "--identifier"} ==>
      && SyncoidContract.Translate(RunFrom(source), digest).Ok?
      && SyncoidContract.SenderArguments(SyncoidContract.Translate(RunFrom(source), digest).value, connection).Ok?
    ensures ReadSettings(VectorFrom("+tank/data", digest, connection)) == None
    ensures var s := ReadSettings(VectorFrom("--identifier", digest, connection)); s.Some? && s.value.positional == []
    ensures var s := ReadSettings(VectorFrom("-", digest, connection));
      s.Some? && s.value.positional == ["-", connection.targetHost + ":" + "t"]
  {
    hide *;
    SourceNames();
    var a, x := RunFromTranslates("+tank/data", digest, connection);
    PlusSourceIsRefused(a, connection, x);
    var b, y := RunFromTranslates("--identifier", digest, connection);
    IdentifierSourceTakesTarget(b, connection, y);
    var c, z := RunFromTranslates("-", digest, connection);
    DashIsAnOperand();
    SettingsRead(c, connection);
    UsableIffTwo(ReadSettings(SyncoidContract.SenderArguments(c, connection).value));
    VectorIs("+tank/data", digest, connection);
    VectorIs("--identifier", digest, connection);
    VectorIs("-", digest, connection);
  }

  lemma TooLongIsRefused(text: string, policy: CommandPolicy)
    requires ByteLength(TrimSpace(text)) > MAX_COMMAND_LENGTH
    ensures Authorize(text, policy).Err?
  {
    hide ByteLength, TrimSpace, AuthorizeBatch;
  }

  lemma ColonIsNoAbort(s: Settings, rest: string, dataset: string, resume: bool)
    ensures !MistakenForAbort(s, rest + ":" + dataset, resume) && rest + ":" + dataset != dataset
  {
    assert (rest + ":" + dataset)[|rest|] == ':';
    assert "-A"[0] == '-' && "-A"[1] == 'A';
    assert |rest + ":" + dataset| > |dataset|;
  }

  /** A pipeline aimed elsewhere is refused. */
  lemma ElsewhereIsRefused(
      contract: SyncoidContract.Contract, connection: SyncoidContract.Connection, target: string,
      mbuffer: bool, compressor: bool, resume: bool)
    requires Coherent(contract) && OneWord(target) && target != contract.targetDataset
    requires resume ==> contract.options.receiveResumable
    requires !MistakenForAbort(RunSettings(contract, connection), target, resume)
    ensures var s := RunSettings(contract, connection);
      Authorize(ReceiveCommand(s, target, mbuffer, compressor && s.compress != "none", resume), PolicyOf(contract)).Err?
  {
    RunNeedsNoSudo(contract, connection);
    hide *;
    var s := RunSettings(contract, connection);
    var compress := compressor && s.compress != "none";
    var text := ReceiveCommand(s, target, mbuffer, compress, resume);
    if ByteLength(TrimSpace(text)) > MAX_COMMAND_LENGTH {
      TooLongIsRefused(text, PolicyOf(contract));
    } else {
      PolicyAdmitsReceive(contract, connection, s, target, mbuffer, compressor, compress, resume);
    }
  }

  lemma WitnessText()
    ensures ':' in "fd00::1" && '@' !in "fd00::1" && "fd00::1"[4] == ':' && ':' !in "fd00::1"[..4]
    ensures "fd00::1"[..4] == "fd00" && "fd00::1"[5..] == ":1" && RECEIVER_USER + "fd00" == "zfs-recv@fd00"
  {
  }

  lemma FirstColon(text: string, n: nat, m: nat)
    requires n < |text| && text[n] == ':' && ':' !in text[..n]
    requires m < |text| && text[m] == ':' && ':' !in text[..m]
    ensures n == m
  {
    assert forall i :: 0 <= i < n ==> text[..n][i] == text[i] && text[..n][i] in text[..n];
    assert forall i :: 0 <= i < m ==> text[..m][i] == text[i] && text[..m][i] in text[..m];
  }

  lemma WordAtAddress(dataset: string)
    ensures RECEIVER_USER + "fd00::1" + ":" + dataset == "zfs-recv@fd00::1:" + dataset
  {
    assert RECEIVER_USER + "fd00::1" == "zfs-recv@fd00::1";
  }

  lemma WitnessAddress(dataset: string)
    ensures Remote("zfs-recv@fd00::1:" + dataset) == ("zfs-recv@fd00", ":1:" + dataset)
  {
    hide Remote;
    WitnessText();
    var n := AddressIsCut("fd00::1", dataset);
    FirstColon("fd00::1", n, 4);
    WordAtAddress(dataset);
    assert ":1" + ":" + dataset == ":1:" + dataset;
  }

  lemma WitnessIsAddress()
    ensures AddressText("::1") && |"::1"| == 3 && "::1"[0 + 1..] == ":1"
  {
  }

  lemma WitnessTarget(dataset: string)
    requires ValidDatasetName(dataset)
    ensures OneWord(":1:" + dataset)
  {
    hide *;
    WitnessIsAddress();
    RestIsOneWord("::1", 0, dataset);
    assert ":1" + ":" + dataset == ":1:" + dataset;
  }

  /** A receiver reached at fd00::1: whatever the run, Syncoid goes to the host fd00 and aims at a dataset that begins with ":1:",
      and the run's own policy refuses the pipeline. */
  lemma AddressMisdirects(
      run: SyncoidContract.RunSpec, digest: string, connection: SyncoidContract.Connection,
      mbuffer: bool, compressor: bool, resume: bool)
    requires SyncoidContract.HexDigest(digest) && SyncoidContract.Translate(run, digest).Ok?
    requires PodConnection(connection) && HostOf(connection) == "fd00::1" && !OptionLike(run.sourceDataset)
    requires resume ==> SyncoidContract.Translate(run, digest).value.options.receiveResumable
    ensures var contract := SyncoidContract.Translate(run, digest).value;
      && SyncoidContract.SenderArguments(contract, connection).Ok?
      && var settings := ReadSettings(SyncoidContract.SenderArguments(contract, connection).value);
      && settings.Some? && |settings.value.positional| == 2
      && Remote(settings.value.positional[1]) == ("zfs-recv@fd00", ":1:" + run.targetDataset)
      && var compress := compressor && settings.value.compress != "none";
      Authorize(ReceiveCommand(settings.value, ":1:" + run.targetDataset, mbuffer, compress, resume), PolicyOf(contract)).Err?
  {
    hide *;
    HostIsTheRest(connection);
    var contract := SyncoidContract.Translate(run, digest).value;
    TranslatedIsCoherent(run, digest);
    SettingsRead(contract, connection);
    UsableIffTwo(ReadSettings(SyncoidContract.SenderArguments(contract, connection).value));
    RunNeedsNoSudo(contract, connection);
    WordAtAddress(contract.targetDataset);
    CoherentIsRunnable(contract);
    WitnessAddress(contract.targetDataset);
    WitnessTarget(contract.targetDataset);
    ColonIsNoAbort(RunSettings(contract, connection), ":1", contract.targetDataset, resume);
    assert ":1" + ":" + contract.targetDataset == ":1:" + contract.targetDataset;
    ElsewhereIsRefused(contract, connection, ":1:" + contract.targetDataset, mbuffer, compressor, resume);
  }

  // ----- A target whose name reads like an abort -----

  /** A run that receives mounted, without resume and without rollback, into a dataset named "-A". */
  const DASH_RUN := SyncoidContract.RunSpec("s", "-A",
    SyncoidContract.SyncoidSpec(None, Some(true), None, None, "none", Some(false), Some(false), [], []))

  lemma DashNames()
    ensures ValidDatasetName("s") && ValidDatasetName("-A")
  {
    assert ValidComponent("s") && ValidComponent("-A");
    hide ValidComponent, ValidDatasetName;
    PathRoundTrip(["s"]);
    PathRoundTrip(["-A"]);
  }

  lemma DashContract(digest: string)
    ensures SyncoidContract.Translate(DASH_RUN, digest).Ok?
    ensures var o := SyncoidContract.Translate(DASH_RUN, digest).value.options;
      o.noRollback && !o.receiveUnmounted && !o.receiveResumable && o.compression == COMPRESSION_NONE
  {
    DashNames();
    hide ValidDatasetName;
  }

  lemma DashQuoted()
    ensures QuoteWord("-A") == "'-A'"
  {
    assert "-A"[1..] == "A" && "A"[1..] == "";
  }

  lemma DashAssembled()
    ensures "" + "" + (" " + "" + " zfs receive " + "" + " " + "'-A'" + " 2>&1") == "  zfs receive  '-A' 2>&1"
  {
  }

  lemma DashText(s: Settings)
    requires s.noPrivilegeElevation && s.recvOptions != "u" && s.noRollback
    ensures ReceiveCommand(s, "-A", false, false, false) == "  zfs receive  '-A' 2>&1"
    ensures ByteLength(TrimSpace(ReceiveCommand(s, "-A", false, false, false))) <= MAX_COMMAND_LENGTH
  {
    var text := "  zfs receive  '-A' 2>&1";
    DashQuoted();
    assert ReceiveOptionsText(s, false) == "";
    DashAssembled();
    hide QuoteWord, ReceiveOptionsText, TrimSpace, ByteLength;
    TrimShorter(text);
    ByteLengthBound(text);
    assert |text| == 24;
  }

  lemma DashSettings(contract: SyncoidContract.Contract, connection: SyncoidContract.Connection)
    requires Coherent(contract) && contract.options.noRollback && !contract.options.receiveUnmounted
    ensures var s := RunSettings(contract, connection); s.noPrivilegeElevation && s.recvOptions != "u" && s.noRollback
  {
    hide ValidDatasetName, SpecFor, SyncoidContract.ValidIdentifier;
  }

  lemma NoStages(s: Settings, policy: CommandPolicy)
    ensures StagesGranted(s, false, false, policy)
  {
  }

  lemma Mistaken(s: Settings)
    requires s.recvOptions != "u" && s.noRollback
    ensures MistakenForAbort(s, "-A", false)
  {
  }

  /** The plain receive such a run asks for is granted in every respect, and refused: it reads like an abort. */
  lemma DashTargetIsRefused(digest: string, connection: SyncoidContract.Connection)
    requires SyncoidContract.HexDigest(digest)
    ensures SyncoidContract.Translate(DASH_RUN, digest).Ok?
    ensures var contract := SyncoidContract.Translate(DASH_RUN, digest).value;
      && Coherent(contract) && contract.targetDataset == "-A"
      && ReceiveGranted(RunSettings(contract, connection), "-A", false, PolicyOf(contract))
      && StagesGranted(RunSettings(contract, connection), false, false, PolicyOf(contract))
      && Authorize("  zfs receive  '-A' 2>&1", PolicyOf(contract)).Err?
  {
    DashContract(digest);
    TranslatedIsCoherent(DASH_RUN, digest);
    var contract := SyncoidContract.Translate(DASH_RUN, digest).value;
    var s := RunSettings(contract, connection);
    DashSettings(contract, connection);
    DashNames();
    hide *;
    DashText(s);
    DatasetIsOneWord("-A");
    PolicyGrantsReceive(contract, connection, "-A", false);
    NoStages(s, PolicyOf(contract));
    Mistaken(s);
    ReceiveCommandAdmittedIff(s, "-A", false, false, false, PolicyOf(contract));
  }
}
