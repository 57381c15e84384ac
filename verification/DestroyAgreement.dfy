/** The destroy commands Syncoid sends, and when a policy admits them. */
module DestroyAgreement {
  import opened Text
  import opened Datasets
  import opened CommandParse
  import opened CommandRoundTrip
  import opened CommandAuthorize
  import opened CommandSoundness
  import opened Lexemes
  import opened Syncoid
  import opened ContractAgreement
  import SyncoidContract

  // ----- One destroy -----

  /** Snapshot names, or several of them with commas between. */
  predicate ListText(list: string) {
    list != "" && forall i :: 0 <= i < |list| ==> ValidSnapshotRune(list[i]) || list[i] == ','
  }

  function DestroyText(target: string, list: string): (text: string) {
    " zfs destroy " + QuoteWord(target) + "@" + list
  }

  function DestroyStep(target: string, list: string): (step: Step) {
    Plainly("zfs", ["destroy", target + "@" + list])
  }

  function DestroyLexemes(target: string, list: string): (xs: seq<Lexeme>) {
    [Word("", "zfs"), Word("", "destroy")] + [Word(target, "@" + list)]
  }

  lemma DestroyHead()
    ensures Render([Word("", "zfs"), Word("", "destroy")]) == " zfs destroy"
    ensures TokensOf([Word("", "zfs"), Word("", "destroy")]) == ["zfs", "destroy"]
  {
  }

  lemma DestroyWordsTidy()
    ensures TidyWord("zfs") && TidyWord("destroy") && TidyWord("-r")
    ensures " zfs destroy" + " " == " zfs destroy "
  {
  }

  lemma Reassociated(a: string, b: string, q: string, at: string, list: string)
    ensures a + (b + (q + (at + list))) == a + b + q + at + list
  {
  }

  lemma DestroyRendered(target: string, list: string)
    requires target != ""
    ensures Render(DestroyLexemes(target, list)) == DestroyText(target, list)
    ensures TokensOf(DestroyLexemes(target, list)) == StepsTokens([DestroyStep(target, list)])
  {
    DestroyHead();
    DestroyWordsTidy();
    RenderOne(Word(target, "@" + list));
    assert target + ("@" + list) == target + "@" + list;
    assert StepTokens(DestroyStep(target, list)) == ["zfs"] + ["destroy", target + "@" + list] + [];
    assert StepsTokens([DestroyStep(target, list)]) == ["zfs", "destroy", target + "@" + list];
    hide Render, TokensOf, QuoteWord, StepsTokens, StepTokens;
    RenderConcat([Word("", "zfs"), Word("", "destroy")], [Word(target, "@" + list)]);
    assert " " + (QuoteWord(target) + ("@" + list)) == " " + QuoteWord(target) + ("@" + list);
    Reassociated(" zfs destroy", " ", QuoteWord(target), "@", list);
  }

  lemma ListIsPlain(list: string)
    requires ListText(list)
    ensures PlainText("@" + list) && Clean("@" + list)
  {
  }

  lemma OperandWord(target: string, list: string)
    requires ValidDatasetName(target) && ListText(list)
    ensures ArgumentWord(target + "@" + list) && GoodLexeme(Word(target, "@" + list)) && target != "" && ';' !in target
  {
    DatasetIsArgumentWord(target);
    ListIsPlain(list);
    assert target + ("@" + list) == target + "@" + list;
    hide ValidDatasetName, ArgumentWord, ListText, PlainText, Clean;
    CleanConcat(target, "@" + list);
    CleanWord(target + "@" + list);
  }

  lemma SafeSnapshotOperand(target: string, list: string)
    requires ValidDatasetName(target) && ListText(list)
    ensures Safe([Word(target, "@" + list)])
  {
    hide ValidDatasetName, ListText, GoodLexeme;
    OperandWord(target, list);
  }

  lemma DestroySpoken(target: string, list: string)
    requires ValidDatasetName(target) && ListText(list)
    ensures Safe(DestroyLexemes(target, list)) && WellFormedSteps([DestroyStep(target, list)])
  {
    DestroyWordsTidy();
    hide ValidDatasetName, ArgumentWord, ListText, TidyWord, WellFormedStep, Safe;
    OperandWord(target, list);
    SafeSnapshotOperand(target, list);
    TidySafe([Word("", "zfs"), Word("", "destroy")]);
    TidySafe([]);
    SafeThree([Word("", "zfs"), Word("", "destroy")], [Word(target, "@" + list)], []);
    assert DestroyLexemes(target, list) + [] == DestroyLexemes(target, list);
    Tidy("zfs");
    Tidy("destroy");
    StepOfWords(DestroyStep(target, list), "destroy", [], target + "@" + list);
  }

  lemma DestroyEnds(target: string, list: string)
    requires ListText(list)
    ensures var text := DestroyText(target, list); text != "" && !IsSpace(text[|text| - 1])
  {
    hide QuoteWord;
    var text := DestroyText(target, list);
    assert text[|text| - 1] == list[|list| - 1];
  }

  lemma DestroyParses(target: string, list: string)
    requires ValidDatasetName(target) && ListText(list)
    ensures ParseCommand(TrimSpace(DestroyText(target, list))) == Ok([DestroyStep(target, list)])
    ensures ';' !in DestroyText(target, list) && TrimSpace(DestroyText(target, list)) != ""
  {
    var text := DestroyText(target, list);
    hide *;
    DestroyEnds(target, list);
    EndsVisibly(text);
    OperandWord(target, list);
    DestroyRendered(target, list);
    DestroySpoken(target, list);
    SafeCommandParses(text, DestroyLexemes(target, list), [DestroyStep(target, list)]);
  }

  // ----- Admission of one destroy, exactly -----

  lemma DestroyIsSingle(step: Step, policy: CommandPolicy)
    requires step.name == "zfs" && NoRedirects(step) && step.args != [] && step.args[0] == "destroy"
    ensures AuthorizeSteps([step], policy).Ok? <==> ZfsDestroyAllowed(step.args, policy)
    ensures AuthorizeSteps([step], policy).Ok? ==> AuthorizeSteps([step], policy).value == Pipeline([step])
    ensures PlanIsDestroy(Pipeline([step]))
  {
    NotAReceive(step, policy);
    NotAFeatureCheck([step], policy);
    hide ReceiveError, ZfsDestroyAllowed, ZfsGetAllowed, BuiltinPlan, ZpoolFeatureCheckAllowed;
  }

  lemma {:induction false} JoinedList(names: seq<string>)
    requires names != [] && forall name :: name in names ==> ValidSnapshotName(name)
    ensures ListText(Join(names, ','))
  {
    assert names[0] in names;
    if |names| > 1 {
      JoinedList(names[1..]);
    }
  }

  lemma OperandCut(target: string, names: seq<string>)
    requires ValidDatasetName(target) && names != [] && forall name :: name in names ==> ValidSnapshotName(name)
    ensures OperandEffect(target + "@" + Join(names, ','), false) == DestroySnapshots(target, names)
    ensures ListText(Join(names, ','))
  {
    var list := Join(names, ',');
    assert target + "@" + list == target + ['@'] + list;
    assert '@' !in target by {
      assert FORBIDDEN[0] == '@';
      Forbidden('@', target);
    }
    CutOf(target, list, '@');
    forall name | name in names ensures ',' !in name {
    }
    SplitJoin(names, ',');
    JoinedList(names);
    assert (target + "@" + list)[|target|] == '@';
  }

  predicate NamesLicensed(target: string, names: seq<string>, policy: CommandPolicy) {
    target == policy.targetDataset && forall name :: name in names ==> LicensedName(name, policy)
  }

  lemma DestroyWords(target: string, list: string)
    ensures var args := DestroyStep(target, list).args;
      args == ["destroy", target + "@" + list] && DestroyEffect(args) == OperandEffect(args[1], false)
  {
    hide OperandEffect;
  }

  lemma SnapshotsLicensed(target: string, names: seq<string>, policy: CommandPolicy)
    ensures Licensed(DestroySnapshots(target, names), policy) <==> NamesLicensed(target, names, policy)
  {
    hide LicensedName;
  }

  lemma DestroyStepExact(target: string, names: seq<string>, policy: CommandPolicy)
    requires ValidDatasetName(target) && ValidDatasetName(policy.targetDataset)
    requires names != [] && forall name :: name in names ==> ValidSnapshotName(name)
    ensures ZfsDestroyAllowed(DestroyStep(target, Join(names, ',')).args, policy) <==> NamesLicensed(target, names, policy)
  {
    var args := DestroyStep(target, Join(names, ',')).args;
    DestroyWords(target, Join(names, ','));
    hide ValidDatasetName, Licensed, OperandEffect, DestroyEffect, ZfsDestroyAllowed, NamesLicensed, LicensedName,
      ValidSnapshotName, DestroyStep, Join;
    OperandCut(target, names);
    SnapshotsLicensed(target, names, policy);
    DestroyAcceptedIffLicensed(args, policy);
  }

  lemma NamesIgnoreCompression(target: string, names: seq<string>, policy: CommandPolicy)
    ensures NamesLicensed(target, names, Effective(policy)) <==> NamesLicensed(target, names, policy)
  {
    LicenceIgnoresCompression(DestroySnapshots(target, names), policy);
  }

  /** A destroy of listed snapshots is admitted exactly when every one of them is licensed. */
  lemma DestroyAdmittedIff(target: string, names: seq<string>, policy: CommandPolicy)
    requires ValidDatasetName(target) && UsablePolicy(policy)
    requires names != [] && forall name :: name in names ==> ValidSnapshotName(name)
    requires ByteLength(TrimSpace(DestroyText(target, Join(names, ',')))) <= MAX_COMMAND_LENGTH
    ensures var r := Authorize(DestroyText(target, Join(names, ',')), policy);
      && (r.Ok? <==> NamesLicensed(target, names, policy))
      && (r.Ok? ==> PlanIsDestroy(r.value))
  {
    var list := Join(names, ',');
    var text, step := DestroyText(target, list), DestroyStep(target, list);
    OperandCut(target, names);
    assert ValidDatasetName(Effective(policy).targetDataset);
    assert step.name == "zfs" && NoRedirects(step) && step.args[0] == "destroy";
    hide *;
    DestroyParses(target, list);
    NotADestroyBatch(text, [step], policy);
    DestroyIsSingle(step, Effective(policy));
    DestroyStepExact(target, names, Effective(policy));
    NamesIgnoreCompression(target, names, policy);
  }

  // ----- Batches of destroys -----

  lemma AuthorizeIgnoresBlanks(a: string, b: string, policy: CommandPolicy)
    requires TrimSpace(a) == TrimSpace(b)
    ensures Authorize(a, policy) == Authorize(b, policy) == Authorize(TrimSpace(b), policy)
  {
    TrimSpaceIdempotent(b);
  }

  /** A batch that spells `ones` is admitted exactly when it is short enough and each of them is. */
  lemma BatchOfDestroys(raw: string, ones: seq<string>, policy: CommandPolicy)
    requires ';' in TrimSpace(raw) && ones != [] && ByteLength(TrimSpace(raw)) <= MAX_COMMAND_LENGTH
    requires var commands := BatchCommands(Split(TrimSpace(raw), ';'));
      |commands| == |ones| && forall i :: 0 <= i < |ones| ==> TrimSpace(commands[i]) == TrimSpace(ones[i]) != ""
    requires forall one :: one in ones && Authorize(one, policy).Ok? ==> PlanIsDestroy(Authorize(one, policy).value)
    ensures Authorize(raw, policy).Ok? <==>
      |ones| <= MAX_DESTROY_BATCH && forall one :: one in ones ==> Authorize(one, policy).Ok?
  {
    var commands := BatchCommands(Split(TrimSpace(raw), ';'));
    forall i | 0 <= i < |ones| ensures Authorize(TrimSpace(commands[i]), policy) == Authorize(ones[i], policy) {
      AuthorizeIgnoresBlanks(commands[i], ones[i], policy);
    }
    hide Authorize, BatchCommands, TrimSpace, PlanIsDestroy;
    if Authorize(raw, policy).Ok? {
      BatchIsPointwise(raw, Authorize(raw, policy).value, policy);
    }
    if |ones| <= MAX_DESTROY_BATCH && forall one :: one in ones ==> Authorize(one, policy).Ok? {
      var plans := seq(|ones|, i requires 0 <= i < |ones| => Authorize(ones[i], policy).value);
      forall i | 0 <= i < |ones| ensures Authorize(TrimSpace(commands[i]), policy) == Ok(plans[i]) && PlanIsDestroy(plans[i]) {
        assert ones[i] in ones;
      }
      BatchIsPointwise(raw, Batch(plans), policy);
    }
  }

  lemma TrimBlank(text: string)
    ensures TrimSpace(" " + text) == TrimSpace(text)
  {
    assert (" " + text)[1..] == text;
  }

  /** The destroys of a prune command, each with the blank before it. */
  function PruneParts(lead: string, target: string, snaps: seq<string>): (parts: seq<string>)
    ensures |parts| == |snaps|
    ensures snaps != [] ==> parts[0] == lead + DestroyText(target, snaps[0])
    ensures forall i :: 0 < i < |snaps| ==> parts[i] == " " + DestroyText(target, snaps[i])
    decreases |snaps|
  {
    if snaps == [] then [] else [lead + DestroyText(target, snaps[0])] + PruneParts(" ", target, snaps[1..])
  }

  lemma SplitBlank(text: string)
    ensures Split(" " + text, ';') == [" " + Split(text, ';')[0]] + Split(text, ';')[1..]
  {
    SplitCons(' ', text, ';');
    assert " " + text == [' '] + text;
  }

  predicate Named(target: string, snaps: seq<string>) {
    ValidDatasetName(target) && snaps != [] && forall snap :: snap in snaps ==> ValidSnapshotName(snap)
  }

  lemma OneNamed(target: string, snap: string)
    requires Named(target, [snap])
    ensures ListText(snap) && ';' !in DestroyText(target, snap) && TrimSpace(DestroyText(target, snap)) != ""
  {
    assert snap in [snap];
    DestroyParses(target, snap);
  }

  lemma SudoText(s: Settings, target: string, snap: string)
    requires s.noPrivilegeElevation
    ensures Sudo(s) + " zfs destroy " + QuoteWord(target) + "@" + snap == DestroyText(target, snap)
  {
  }

  lemma SeparatorText(one: string, tail: string)
    ensures one + "; " + tail == one + [';'] + (" " + tail)
  {
  }

  lemma LeadOnly(target: string, snaps: seq<string>)
    requires snaps != []
    ensures PruneParts(" ", target, snaps) == [" " + PruneParts("", target, snaps)[0]] + PruneParts("", target, snaps)[1..]
  {
    assert "" + DestroyText(target, snaps[0]) == DestroyText(target, snaps[0]);
  }

  lemma {:induction false} PruneSplit(s: Settings, target: string, snaps: seq<string>)
    requires s.noPrivilegeElevation && Named(target, snaps)
    ensures Split(PruneCommand(s, target, snaps), ';') == PruneParts("", target, snaps)
    decreases |snaps|
  {
    var one := DestroyText(target, snaps[0]);
    SudoText(s, target, snaps[0]);
    OneNamed(target, snaps[0]);
    assert "" + one == one;
    assert Named(target, snaps[1..]) || |snaps| == 1;
    hide DestroyText, Split, Named, ValidDatasetName, ListText, TrimSpace;
    SplitWhole(one, ';');
    if |snaps| > 1 {
      var tail := PruneCommand(s, target, snaps[1..]);
      PruneSplit(s, target, snaps[1..]);
      assert PruneCommand(s, target, snaps) == one + "; " + tail;
      SeparatorText(one, tail);
      SplitConcat(one, " " + tail, ';');
      SplitBlank(tail);
      LeadOnly(target, snaps[1..]);
    }
  }

  /** A command with one blank before it. */
  predicate Framed(text: string) {
    |text| >= 2 && text[0] == ' ' && text[1] == 'z' && !IsSpace(text[|text| - 1])
  }

  lemma OneFramed(target: string, snap: string)
    requires snap != "" && ValidSnapshotRune(snap[|snap| - 1])
    ensures Framed(DestroyText(target, snap))
  {
    hide QuoteWord;
    var one, head := DestroyText(target, snap), " zfs destroy ";
    assert one == head + (QuoteWord(target) + "@" + snap);
    assert one[0] == head[0] && one[1] == head[1];
    assert one[|one| - 1] == snap[|snap| - 1];
  }

  lemma LastRune(snap: string)
    requires ValidSnapshotName(snap)
    ensures snap != "" && ValidSnapshotRune(snap[|snap| - 1])
  {
  }

  lemma FramedConcat(one: string, tail: string)
    requires Framed(one) && Framed(tail)
    ensures Framed(one + "; " + tail) && ';' in (one + "; " + tail)[1..]
  {
    var text := one + "; " + tail;
    assert text[|text| - 1] == tail[|tail| - 1];
    assert text[1..][|one| - 1] == ';';
  }

  lemma FramedTrim(text: string)
    requires Framed(text)
    ensures TrimSpace(text) == text[1..] && text == " " + text[1..]
  {
    TrimmedIsFixed(text[1..]);
    TrimBlank(text[1..]);
    assert text == " " + text[1..];
  }

  lemma {:induction false} PruneFramed(s: Settings, target: string, snaps: seq<string>)
    requires s.noPrivilegeElevation && Named(target, snaps)
    ensures Framed(PruneCommand(s, target, snaps))
    ensures |snaps| > 1 ==> ';' in TrimSpace(PruneCommand(s, target, snaps))
    decreases |snaps|
  {
    var one := DestroyText(target, snaps[0]);
    SudoText(s, target, snaps[0]);
    LastRune(snaps[0]);
    assert Named(target, snaps[1..]) || |snaps| == 1;
    hide DestroyText, Named, Framed, TrimSpace, ValidSnapshotName;
    OneFramed(target, snaps[0]);
    if |snaps| > 1 {
      PruneFramed(s, target, snaps[1..]);
      FramedConcat(one, PruneCommand(s, target, snaps[1..]));
      FramedTrim(PruneCommand(s, target, snaps));
    }
  }

  function Ones(target: string, snaps: seq<string>): (ones: seq<string>)
    ensures |ones| == |snaps| && forall i :: 0 <= i < |snaps| ==> ones[i] == DestroyText(target, snaps[i])
  {
    seq(|snaps|, i requires 0 <= i < |snaps| => DestroyText(target, snaps[i]))
  }

  lemma NoBlankPart(parts: seq<string>)
    requires parts != [] && TrimSpace(parts[|parts| - 1]) != ""
    ensures BatchCommands(parts) == parts
  {
  }

  lemma PruneParted(core: string, target: string, snaps: seq<string>)
    requires Named(target, snaps) && Split(" " + core, ';') == PruneParts("", target, snaps)
    ensures |Split(core, ';')| == |snaps|
    ensures forall i :: 0 <= i < |snaps| ==> TrimSpace(Split(core, ';')[i]) == TrimSpace(DestroyText(target, snaps[i])) != ""
  {
    var parts, all := Split(core, ';'), PruneParts("", target, snaps);
    SplitBlank(core);
    hide TrimSpace, DestroyText, Split, ValidDatasetName, ValidSnapshotName, PruneParts;
    forall i | 0 <= i < |snaps| ensures TrimSpace(parts[i]) == TrimSpace(DestroyText(target, snaps[i])) != "" {
      OneNamed(target, snaps[i]);
      var one := DestroyText(target, snaps[i]);
      TrimBlank(if i == 0 then parts[0] else one);
      assert "" + one == one;
      assert all[i] == if i == 0 then " " + parts[0] else parts[i];
    }
  }

  lemma PruneCommands(s: Settings, target: string, snaps: seq<string>)
    requires s.noPrivilegeElevation && Named(target, snaps)
    ensures var commands := BatchCommands(Split(TrimSpace(PruneCommand(s, target, snaps)), ';'));
      && |commands| == |snaps|
      && forall i :: 0 <= i < |snaps| ==> TrimSpace(commands[i]) == TrimSpace(DestroyText(target, snaps[i])) != ""
  {
    var text := PruneCommand(s, target, snaps);
    assert snaps != [];
    hide *;
    PruneFramed(s, target, snaps);
    PruneSplit(s, target, snaps);
    FramedTrim(text);
    PruneParted(TrimSpace(text), target, snaps);
    NoBlankPart(Split(TrimSpace(text), ';'));
  }

  lemma OneOfPrune(s: Settings, target: string, snaps: seq<string>, i: nat, policy: CommandPolicy)
    requires s.noPrivilegeElevation && Named(target, snaps) && UsablePolicy(policy) && i < |snaps|
    requires ByteLength(TrimSpace(PruneCommand(s, target, snaps))) <= MAX_COMMAND_LENGTH
    ensures var r := Authorize(DestroyText(target, snaps[i]), policy);
      && (r.Ok? <==> NamesLicensed(target, [snaps[i]], policy))
      && (r.Ok? ==> PlanIsDestroy(r.value))
  {
    var core := TrimSpace(PruneCommand(s, target, snaps));
    PruneCommands(s, target, snaps);
    SplitShorter(core, ';');
    TrimShorter(Split(core, ';')[i]);
    assert snaps[i] in snaps;
    assert Join([snaps[i]], ',') == snaps[i];
    hide PruneCommand, TrimSpace, DestroyText, Split, ByteLength, Authorize, PlanIsDestroy, NamesLicensed, UsablePolicy,
      ValidDatasetName;
    DestroyAdmittedIff(target, [snaps[i]], policy);
  }

  lemma NamesPointwise(target: string, snaps: seq<string>, policy: CommandPolicy)
    requires snaps != []
    ensures NamesLicensed(target, snaps, policy) <==> forall i :: 0 <= i < |snaps| ==> NamesLicensed(target, [snaps[i]], policy)
  {
    hide LicensedName;
    if forall i :: 0 <= i < |snaps| ==> NamesLicensed(target, [snaps[i]], policy) {
      assert NamesLicensed(target, [snaps[0]], policy);
      forall snap | snap in snaps ensures LicensedName(snap, policy) {
        var i :| 0 <= i < |snaps| && snaps[i] == snap;
        assert NamesLicensed(target, [snaps[i]], policy);
        assert snap in [snaps[i]];
      }
    }
  }

  lemma PruneBatchAdmittedIff(s: Settings, target: string, snaps: seq<string>, policy: CommandPolicy)
    requires s.noPrivilegeElevation && Named(target, snaps) && UsablePolicy(policy) && |snaps| > 1
    requires ByteLength(TrimSpace(PruneCommand(s, target, snaps))) <= MAX_COMMAND_LENGTH
    ensures Authorize(PruneCommand(s, target, snaps), policy).Ok? <==>
      |snaps| <= MAX_DESTROY_BATCH && NamesLicensed(target, snaps, policy)
  {
    var ones := Ones(target, snaps);
    hide *;
    forall i | 0 <= i < |snaps|
      ensures Authorize(ones[i], policy).Ok? <==> NamesLicensed(target, [snaps[i]], policy)
      ensures Authorize(ones[i], policy).Ok? ==> PlanIsDestroy(Authorize(ones[i], policy).value)
    {
      OneOfPrune(s, target, snaps, i, policy);
    }
    NamesPointwise(target, snaps, policy);
    PruneFramed(s, target, snaps);
    PruneCommands(s, target, snaps);
    BatchOfDestroys(PruneCommand(s, target, snaps), ones, policy);
    assert forall i :: 0 <= i < |snaps| ==> ones[i] in ones;
  }

  /** A prune command is admitted exactly when it has at most 32 destroys and each of its snapshots is licensed. */
  lemma PruneAdmittedIff(s: Settings, target: string, snaps: seq<string>, policy: CommandPolicy)
    requires s.noPrivilegeElevation && Named(target, snaps) && UsablePolicy(policy)
    requires ByteLength(TrimSpace(PruneCommand(s, target, snaps))) <= MAX_COMMAND_LENGTH
    ensures Authorize(PruneCommand(s, target, snaps), policy).Ok? <==>
      |snaps| <= MAX_DESTROY_BATCH && NamesLicensed(target, snaps, policy)
  {
    hide Authorize, NamesLicensed, UsablePolicy, DestroyText, TrimSpace, ByteLength, ValidDatasetName;
    if |snaps| > 1 {
      PruneBatchAdmittedIff(s, target, snaps, policy);
    } else {
      SudoText(s, target, snaps[0]);
      OneOfPrune(s, target, snaps, 0, policy);
      assert snaps == [snaps[0]];
    }
  }

  // ----- Commands of three words and a dataset -----

  function WordsText(a: string, b: string, c: string, target: string): (text: string) {
    " " + a + " " + b + " " + c + " " + QuoteWord(target)
  }

  function WordsLexemes(a: string, b: string, c: string, target: string): (xs: seq<Lexeme>) {
    [Word("", a)] + ([Word("", b)] + ([Word("", c)] + [Word(target, "")]))
  }

  lemma PlainCons(w: string, xs: seq<Lexeme>)
    ensures Render([Word("", w)] + xs) == " " + w + Render(xs)
    ensures TokensOf([Word("", w)] + xs) == [w] + TokensOf(xs)
  {
    RenderCons(Word("", w), xs);
    assert "" + w == w;
    hide Render, TokensOf;
  }

  lemma QuotedLast(target: string)
    requires target != ""
    ensures Render([Word(target, "")]) == " " + QuoteWord(target) && TokensOf([Word(target, "")]) == [target]
  {
    RenderOne(Word(target, ""));
    assert target + "" == target && QuoteWord(target) + "" == QuoteWord(target);
    hide QuoteWord, Render, TokensOf;
  }

  lemma WordsRendered(a: string, b: string, c: string, target: string)
    requires target != ""
    ensures Render(WordsLexemes(a, b, c, target)) == WordsText(a, b, c, target)
    ensures TokensOf(WordsLexemes(a, b, c, target)) == [a, b, c, target]
  {
    hide QuoteWord, Render, TokensOf;
    var last := [Word(target, "")];
    QuotedLast(target);
    PlainCons(c, last);
    PlainCons(b, [Word("", c)] + last);
    PlainCons(a, [Word("", b)] + ([Word("", c)] + last));
  }

  lemma SafeQuoted(target: string)
    requires ValidDatasetName(target)
    ensures Safe([Word(target, "")])
  {
    hide ValidDatasetName, GoodLexeme, OneWord, ArgumentWord;
    DatasetIsOneWord(target);
    TargetWords(target);
  }

  lemma WordsSafe(a: string, b: string, c: string, target: string)
    requires TidyWord(a) && TidyWord(b) && TidyWord(c) && ValidDatasetName(target)
    ensures Safe(WordsLexemes(a, b, c, target))
  {
    var words, last := [Word("", a), Word("", b), Word("", c)], [Word(target, "")];
    hide Safe, TidyWord, ValidDatasetName;
    SafeQuoted(target);
    TidySafe([]);
    TidySafe(words);
    SafeThree(words, last, []);
    assert WordsLexemes(a, b, c, target) == words + last + [];
  }

  lemma WordsSpoken(a: string, b: string, c: string, target: string)
    requires TidyWord(a) && TidyWord(b) && TidyWord(c) && ValidDatasetName(target)
    ensures WellFormedSteps([Plainly(a, [b, c, target])])
  {
    hide TidyWord, ArgumentWord, ValidDatasetName, WellFormedStep, OneWord;
    DatasetIsOneWord(target);
    TargetWords(target);
    Tidy(a);
    Tidy(b);
    Tidy(c);
    StepOfWords(Plainly(a, [b, c, target]), b, [c], target);
  }

  lemma OneStepTokens(a: string, b: string, c: string, target: string)
    ensures StepsTokens([Plainly(a, [b, c, target])]) == [a, b, c, target]
  {
    assert StepTokens(Plainly(a, [b, c, target])) == [a] + [b, c, target] + [];
  }

  lemma WordsParse(a: string, b: string, c: string, target: string)
    requires TidyWord(a) && TidyWord(b) && TidyWord(c) && ValidDatasetName(target)
    ensures ParseCommand(TrimSpace(WordsText(a, b, c, target))) == Ok([Plainly(a, [b, c, target])])
    ensures ';' !in WordsText(a, b, c, target) && TrimSpace(WordsText(a, b, c, target)) != ""
  {
    var text := WordsText(a, b, c, target);
    assert text != "" && text[|text| - 1] == '\'';
    hide WordsText, Render, TokensOf, StepsTokens, WellFormedSteps, Safe, ParseCommand, TidyWord, TrimSpace,
      ValidDatasetName, OneWord, ArgumentWord, GoodLexeme;
    DatasetIsOneWord(target);
    TargetWords(target);
    EndsVisibly(text);
    WordsRendered(a, b, c, target);
    WordsSafe(a, b, c, target);
    WordsSpoken(a, b, c, target);
    OneStepTokens(a, b, c, target);
    SafeCommandParses(text, WordsLexemes(a, b, c, target), [Plainly(a, [b, c, target])]);
  }

  // ----- Force deletion and abandoned receives -----

  lemma ForceText(s: Settings, target: string)
    requires s.noPrivilegeElevation
    ensures ForceDestroyCommand(s, target) == WordsText("zfs", "destroy", "-r", target) + "; "
  {
  }

  lemma AbortText(s: Settings, target: string)
    requires s.noPrivilegeElevation
    ensures AbortCommand(s, target) == WordsText("zfs", "receive", "-A", target)
  {
  }

  lemma AbortExact(step: Step, target: string, policy: CommandPolicy)
    requires step.args == ["receive", "-A", target] && ValidDatasetName(policy.targetDataset)
    ensures ReceiveError(step, policy).None? <==> target == policy.targetDataset && policy.receiveResumable
  {
  }

  lemma ReceiveAlone(step: Step, policy: CommandPolicy)
    requires step.name == "zfs" && step.args != [] && step.args[0] == "receive"
    ensures AuthorizeSteps([step], policy).Ok? <==> ReceiveError(step, policy).None?
  {
    hide ReceiveError, MbufferStepAllowed, ValidDatasetName, AuthorizeSteps;
    MbufferTuned();
    PipelineExact(false, MBUFFER_STEP, false, Plainly("", []), step, policy);
    assert [] + [] + [step] == [step];
  }

  lemma AbortStep(target: string, policy: CommandPolicy)
    requires ValidDatasetName(policy.targetDataset)
    ensures AuthorizeSteps([Plainly("zfs", ["receive", "-A", target])], policy).Ok? <==>
      target == policy.targetDataset && policy.receiveResumable
  {
    var step := Plainly("zfs", ["receive", "-A", target]);
    assert step.args != [] && step.args[0] == "receive";
    hide *;
    AbortExact(step, target, policy);
    ReceiveAlone(step, policy);
  }

  lemma AbortWordsTidy()
    ensures TidyWord("zfs") && TidyWord("receive") && TidyWord("-A") && TidyWord("destroy") && TidyWord("-r")
  {
  }

  /** Abandoning a partial receive is admitted exactly under a resumable policy for that dataset. */
  lemma AbortAdmittedIff(s: Settings, target: string, policy: CommandPolicy)
    requires s.noPrivilegeElevation && ValidDatasetName(target) && UsablePolicy(policy)
    requires ByteLength(TrimSpace(AbortCommand(s, target))) <= MAX_COMMAND_LENGTH
    ensures Authorize(AbortCommand(s, target), policy).Ok? <==> target == policy.targetDataset && policy.receiveResumable
  {
    AbortWordsTidy();
    AbortText(s, target);
    hide AbortCommand, WordsText, Authorize, AuthorizeSteps, TidyWord, ParseCommand, ValidDatasetName, TrimSpace,
      ByteLength;
    WordsParse("zfs", "receive", "-A", target);
    NotADestroyBatch(AbortCommand(s, target), [Plainly("zfs", ["receive", "-A", target])], policy);
    AbortStep(target, Effective(policy));
  }

  lemma RecursiveStep(target: string, policy: CommandPolicy)
    requires ValidDatasetName(target)
    ensures ZfsDestroyAllowed(["destroy", "-r", target], policy) <==> policy.allowDestroy && DatasetOrChild(target, policy.targetDataset)
  {
    assert '@' !in target by {
      assert FORBIDDEN[0] == '@';
      Forbidden('@', target);
    }
  }

  lemma RecursiveAdmittedIff(target: string, policy: CommandPolicy)
    requires ValidDatasetName(target) && UsablePolicy(policy)
    requires ByteLength(TrimSpace(WordsText("zfs", "destroy", "-r", target))) <= MAX_COMMAND_LENGTH
    ensures var r := Authorize(WordsText("zfs", "destroy", "-r", target), policy);
      && (r.Ok? <==> policy.allowDestroy && DatasetOrChild(target, policy.targetDataset))
      && (r.Ok? ==> PlanIsDestroy(r.value))
  {
    var step := Plainly("zfs", ["destroy", "-r", target]);
    AbortWordsTidy();
    hide WordsText, Authorize, AuthorizeSteps, TidyWord, ParseCommand, ValidDatasetName, TrimSpace, ByteLength,
      ZfsDestroyAllowed,
      PlanIsDestroy, DatasetOrChild;
    WordsParse("zfs", "destroy", "-r", target);
    NotADestroyBatch(WordsText("zfs", "destroy", "-r", target), [step], policy);
    DestroyIsSingle(step, Effective(policy));
    RecursiveStep(target, Effective(policy));
  }

  lemma ForceTrimmed(s: Settings, target: string) returns (core: string)
    requires s.noPrivilegeElevation
    requires ';' !in WordsText("zfs", "destroy", "-r", target)
    ensures WordsText("zfs", "destroy", "-r", target) == " " + core
    ensures TrimSpace(ForceDestroyCommand(s, target)) == core + ";"
    ensures Split(core + ";", ';') == [core, ""]
  {
    var one := WordsText("zfs", "destroy", "-r", target);
    ForceText(s, target);
    assert one[0] == ' ' && one[1] == 'z';
    hide WordsText, ForceDestroyCommand;
    core := one[1..];
    assert one == " " + core;
    SplitWhole(core, ';');
    SplitConcat(core, "", ';');
    assert core + [';'] + "" == core + ";";
    var text := one + "; ";
    assert TrimLeft(text) == text[1..];
    assert text[1..] == core + "; ";
    assert (core + "; ")[..|core| + 1] == core + ";";
    assert TrimRight(core + ";") == core + ";";
  }

  /** A forced destroy, trailing separator and all, is admitted exactly under AllowDestroy at or below the target. */
  lemma ForceDestroyAdmittedIff(s: Settings, target: string, policy: CommandPolicy)
    requires s.noPrivilegeElevation && ValidDatasetName(target) && UsablePolicy(policy)
    requires ByteLength(TrimSpace(ForceDestroyCommand(s, target))) <= MAX_COMMAND_LENGTH
    ensures Authorize(ForceDestroyCommand(s, target), policy).Ok? <==>
      policy.allowDestroy && DatasetOrChild(target, policy.targetDataset)
  {
    var text, one := ForceDestroyCommand(s, target), WordsText("zfs", "destroy", "-r", target);
    AbortWordsTidy();
    hide ForceDestroyCommand, WordsText, Authorize, TidyWord, ValidDatasetName, PlanIsDestroy, DatasetOrChild,
      ParseCommand, Split;
    WordsParse("zfs", "destroy", "-r", target);
    var core := ForceTrimmed(s, target);
    TrimBlank(core);
    ByteLengthConcat(core, ";");
    TrimShorter(core);
    RecursiveAdmittedIff(target, policy);
    assert [core, ""][..1] == [core];
    hide TrimSpace, ByteLength;
    assert TrimSpace("") == "";
    BatchOfDestroys(text, [one], policy);
  }

  // ----- One run's cleanup commands against its own policy -----

  /** Syncoid flushes a prune command once it holds more than ten destroys. */
  const PRUNE_FLUSH := 11

  function PruneBatches(snaps: seq<string>): (batches: seq<seq<string>>)
    decreases |snaps|
  {
    if snaps == [] then []
    else if |snaps| <= PRUNE_FLUSH then [snaps]
    else [snaps[..PRUNE_FLUSH]] + PruneBatches(snaps[PRUNE_FLUSH..])
  }

  lemma {:induction false} PruneBatchesKeep(snaps: seq<string>)
    ensures forall batch :: batch in PruneBatches(snaps) ==> 1 <= |batch| <= PRUNE_FLUSH
    ensures forall batch, snap :: batch in PruneBatches(snaps) && snap in batch ==> snap in snaps
    ensures forall snap :: snap in snaps ==> exists batch :: batch in PruneBatches(snaps) && snap in batch
    decreases |snaps|
  {
    if |snaps| > PRUNE_FLUSH {
      var first, rest := snaps[..PRUNE_FLUSH], snaps[PRUNE_FLUSH..];
      PruneBatchesKeep(rest);
      assert first in PruneBatches(snaps);
      forall snap | snap in snaps ensures exists batch :: batch in PruneBatches(snaps) && snap in batch {
        assert snap in first || snap in rest;
        if snap !in first {
          var batch :| batch in PruneBatches(rest) && snap in batch;
          assert batch in PruneBatches(snaps);
        }
      }
    }
  }

  lemma CoherentPolicy(contract: SyncoidContract.Contract)
    requires Coherent(contract)
    ensures ValidDatasetName(contract.targetDataset) && UsablePolicy(PolicyOf(contract))
    ensures PolicyOf(contract).targetDataset == contract.targetDataset
    ensures DatasetOrChild(contract.targetDataset, contract.targetDataset)
  {
    hide SyncoidContract.ValidIdentifier;
  }

  lemma SyncSnapshotIsValid(name: string, identifier: string)
    requires SyncSnapshot(name, identifier)
    ensures ValidSnapshotName(name) && name != "." && name != ".."
  {
    assert |"syncoid_" + identifier + "_"| > 2;
    NameTextIff(name);
    hide NameText, ValidSnapshotName;
  }

  /** Which names a run's own policy licenses. */
  lemma CoherentName(contract: SyncoidContract.Contract, name: string)
    requires Coherent(contract)
    ensures SyncSnapshot(name, contract.options.identifier) ==>
      (LicensedName(name, PolicyOf(contract)) <==> !contract.options.noSyncSnap || contract.options.deleteTargetSnapshots)
    ensures contract.options.deleteTargetSnapshots && ValidSnapshotName(name) ==> LicensedName(name, PolicyOf(contract))
    ensures !contract.options.deleteTargetSnapshots && LicensedName(name, PolicyOf(contract)) ==>
      SyncSnapshot(name, contract.options.identifier)
  {
    NameTextIff(name);
    NameTextIff(contract.options.identifier);
    if SyncSnapshot(name, contract.options.identifier) {
      SyncSnapshotIsValid(name, contract.options.identifier);
    }
    hide ValidDatasetName, NameText, ValidSnapshotName, SyncoidContract.ValidIdentifier, SyncSnapshot;
  }

  lemma OwnedNames(contract: SyncoidContract.Contract, names: seq<string>)
    requires Coherent(contract)
    requires forall name :: name in names ==> SyncSnapshot(name, contract.options.identifier)
    ensures forall name :: name in names ==> ValidSnapshotName(name)
    ensures NamesLicensed(contract.targetDataset, names, PolicyOf(contract)) <==>
      names == [] || !contract.options.noSyncSnap || contract.options.deleteTargetSnapshots
  {
    hide Coherent, PolicyOf, SyncSnapshot, LicensedName, ValidSnapshotName, UsablePolicy, ValidDatasetName, DatasetOrChild;
    CoherentPolicy(contract);
    forall name | name in names
      ensures ValidSnapshotName(name)
      ensures LicensedName(name, PolicyOf(contract)) <==> !contract.options.noSyncSnap || contract.options.deleteTargetSnapshots
    {
      SyncSnapshotIsValid(name, contract.options.identifier);
      CoherentName(contract, name);
    }
    if names != [] {
      assert names[0] in names;
    }
  }

  /** Every prune command Syncoid sends for a run's own sync snapshots, however many there are, is admitted under that
      run's policy exactly when the run makes sync snapshots or may delete target snapshots. */
  lemma ContractAdmitsPruning(contract: SyncoidContract.Contract, s: Settings, snaps: seq<string>, batch: seq<string>)
    requires Coherent(contract) && s.noPrivilegeElevation
    requires forall snap :: snap in snaps ==> SyncSnapshot(snap, contract.options.identifier)
    requires batch in PruneBatches(snaps)
    requires batch != [] && ByteLength(TrimSpace(PruneCommand(s, contract.targetDataset, batch))) <= MAX_COMMAND_LENGTH
    ensures Authorize(PruneCommand(s, contract.targetDataset, batch), PolicyOf(contract)).Ok? <==>
      !contract.options.noSyncSnap || contract.options.deleteTargetSnapshots
  {
    assert PRUNE_FLUSH <= MAX_DESTROY_BATCH;
    CoherentPolicy(contract);
    PruneBatchesKeep(snaps);
    OwnedNames(contract, batch);
    assert Named(contract.targetDataset, batch);
    hide *;
    PruneAdmittedIff(s, contract.targetDataset, batch, PolicyOf(contract));
  }

  /** Deleting listed target snapshots, destroying the target outright and abandoning a partial receive are admitted
      under a run's policy exactly when that run's own options ask for them. */
  lemma ContractAdmitsCleanup(contract: SyncoidContract.Contract, s: Settings, names: seq<string>)
    requires Coherent(contract) && s.noPrivilegeElevation
    requires names != [] && forall name :: name in names ==> ValidSnapshotName(name)
    requires ByteLength(TrimSpace(DeleteSnapshotsCommand(s, contract.targetDataset, names))) <= MAX_COMMAND_LENGTH
    requires ByteLength(TrimSpace(ForceDestroyCommand(s, contract.targetDataset))) <= MAX_COMMAND_LENGTH
    requires ByteLength(TrimSpace(AbortCommand(s, contract.targetDataset))) <= MAX_COMMAND_LENGTH
    ensures contract.options.deleteTargetSnapshots ==>
      Authorize(DeleteSnapshotsCommand(s, contract.targetDataset, names), PolicyOf(contract)).Ok?
    ensures var r := Authorize(DeleteSnapshotsCommand(s, contract.targetDataset, names), PolicyOf(contract));
      !contract.options.deleteTargetSnapshots && r.Ok? ==>
        forall name :: name in names ==> SyncSnapshot(name, contract.options.identifier)
    ensures Authorize(ForceDestroyCommand(s, contract.targetDataset), PolicyOf(contract)).Ok? <==> contract.options.forceDelete
    ensures Authorize(AbortCommand(s, contract.targetDataset), PolicyOf(contract)).Ok? <==> contract.options.receiveResumable
  {
    CoherentPolicy(contract);
    var target, policy, o := contract.targetDataset, PolicyOf(contract), contract.options;
    assert policy.allowDestroy == o.forceDelete && policy.receiveResumable == o.receiveResumable;
    forall name
      ensures o.deleteTargetSnapshots && ValidSnapshotName(name) ==> LicensedName(name, policy)
      ensures !o.deleteTargetSnapshots && LicensedName(name, policy) ==> SyncSnapshot(name, o.identifier)
    {
      CoherentName(contract, name);
    }
    SudoText(s, target, Join(names, ','));
    assert DeleteSnapshotsCommand(s, target, names) == DestroyText(target, Join(names, ','));
    hide Authorize, TrimSpace, ByteLength, UsablePolicy, ValidDatasetName, PolicyOf, Coherent, DestroyText,
      ForceDestroyCommand, AbortCommand, DeleteSnapshotsCommand,
      ValidSnapshotName, DatasetOrChild, SyncSnapshot, LicensedName, Join;
    DestroyAdmittedIff(target, names, policy);
    ForceDestroyAdmittedIff(s, target, policy);
    AbortAdmittedIff(s, target, policy);
  }

  lemma AskedBits(spec: SyncoidContract.SyncoidSpec, o: SyncoidContract.Options)
    requires SyncoidContract.OptionsAsked(spec, o)
    ensures !o.noSyncSnap || o.deleteTargetSnapshots <==>
      spec.noSyncSnap != Some(true) || spec.deleteTargetSnapshots == Some(true)
    ensures o.deleteTargetSnapshots <==> spec.deleteTargetSnapshots == Some(true)
    ensures o.forceDelete <==> spec.forceDelete == Some(true)
    ensures o.receiveResumable <==> spec.receiveResumable != Some(false)
  {
    hide SyncoidContract.NormalizePatterns;
  }

  /** For every translated run, what its own spec must say for its own policy to admit each kind of destroying command, and the
      abandoning of a partial receive. */
  lemma RunAdmitsDestroys(run: SyncoidContract.RunSpec, digest: string, s: Settings,
                          names: seq<string>, snaps: seq<string>, batch: seq<string>)
    requires SyncoidContract.HexDigest(digest) && SyncoidContract.Translate(run, digest).Ok? && s.noPrivilegeElevation
    requires forall snap :: snap in snaps ==> SyncSnapshot(snap, "zrc-" + digest)
    requires batch in PruneBatches(snaps) && batch != []
    requires names != [] && forall name :: name in names ==> ValidSnapshotName(name)
    requires ByteLength(TrimSpace(PruneCommand(s, run.targetDataset, batch))) <= MAX_COMMAND_LENGTH
    requires ByteLength(TrimSpace(DeleteSnapshotsCommand(s, run.targetDataset, names))) <= MAX_COMMAND_LENGTH
    requires ByteLength(TrimSpace(ForceDestroyCommand(s, run.targetDataset))) <= MAX_COMMAND_LENGTH
    requires ByteLength(TrimSpace(AbortCommand(s, run.targetDataset))) <= MAX_COMMAND_LENGTH
    ensures var spec, policy := run.syncoid, PolicyOf(SyncoidContract.Translate(run, digest).value);
      && (Authorize(PruneCommand(s, run.targetDataset, batch), policy).Ok? <==>
            spec.noSyncSnap != Some(true) || spec.deleteTargetSnapshots == Some(true))
      && (spec.deleteTargetSnapshots == Some(true) ==> Authorize(DeleteSnapshotsCommand(s, run.targetDataset, names), policy).Ok?)
      && (Authorize(ForceDestroyCommand(s, run.targetDataset), policy).Ok? <==> spec.forceDelete == Some(true))
      && (Authorize(AbortCommand(s, run.targetDataset), policy).Ok? <==> spec.receiveResumable != Some(false))
  {
    hide *;
    var contract := SyncoidContract.Translate(run, digest).value;
    TranslatedIsCoherent(run, digest);
    SyncoidContract.TranslatedAsAsked(run, digest);
    AskedBits(run.syncoid, contract.options);
    ContractAdmitsPruning(contract, s, snaps, batch);
    ContractAdmitsCleanup(contract, s, names);
  }
}
