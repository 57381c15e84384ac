/** Getopt::Long under the configuration and the declarations Syncoid 2.3.0 gives it: how a vector of words is read
    (cmd/zfsrep-sender/testdata/syncoid-2.3.0). */
module OptionReading {
  import opened Text
  import opened SyncoidContract

  // ----- The options -----

  /** The switches and the options with a value that the contract uses, by name. */
  function SwitchNamed(name: string): (argument: Option<Argument>) {
    if name == "no-sync-snap" then Some(NoSyncSnap)
    else if name == "no-rollback" then Some(NoRollback)
    else if name == "no-privilege-elevation" then Some(NoPrivilegeElevation)
    else if name == "delete-target-snapshots" then Some(DeleteTargetSnapshots)
    else if name == "no-resume" then Some(NoResume)
    else if name == "force-delete" then Some(ForceDelete)
    else None
  }

  function OptionNamed(name: string, value: string): (argument: Option<Argument>) {
    if name == "compress" then Some(Compress(value))
    else if name == "identifier" then Some(Identifier(value))
    else if name == "sshoption" then Some(SshOption(value))
    else if name == "sshkey" then Some(SshKey(value))
    else if name == "sshport" then Some(SshPort(value))
    else if name == "recvoptions" then Some(RecvOptions(value))
    else if name == "include-snaps" then Some(IncludeSnaps(value))
    else if name == "exclude-snaps" then Some(ExcludeSnaps(value))
    else None
  }

  const USED := {"no-sync-snap", "no-rollback", "no-privilege-elevation", "delete-target-snapshots", "no-resume", "force-delete",
    "compress", "identifier", "sshoption", "sshkey", "sshport", "recvoptions", "include-snaps", "exclude-snaps"}

  const OTHER_SWITCHES := {"no-command-checks", "monitor-version", "dumpsnaps", "recursive", "debug", "quiet", "no-stream",
    "skip-parent", "no-clone-handling", "create-bookmark", "use-hold", "keep-sync-snap", "preserve-recordsize",
    "preserve-properties"}

  const OTHER_OPTIONS := {"sendoptions", "source-bwlimit", "target-bwlimit", "sshconfig", "sshcipher", "exclude", "pv-options",
    "mbuffer-size", "insecure-direct-connection", "exclude-datasets"}

  /** Answered with a text, after which Syncoid exits. */
  const ANSWERED := {"help", "version"}

  const ALIASES := map["r" := "recursive", "c" := "sshcipher", "o" := "sshoption", "?" := "help"]

  const SPELLINGS := USED + OTHER_SWITCHES + OTHER_OPTIONS + ANSWERED + ALIASES.Keys

  function Canonical(spelling: string): (name: string) {
    if spelling in ALIASES then ALIASES[spelling] else spelling
  }

  /** The options an abbreviation may stand for; when there are two, `version` and then `help` give way. */
  function Candidates(key: string): (names: set<string>) {
    var names := set spelling | spelling in SPELLINGS && key <= spelling :: Canonical(spelling);
    if |names| != 2 then names
    else if "version" in names then names - {"version"}
    else names - {"help"}
  }

  /** The option a lower-case key means: one it spells out, or the only one it abbreviates. */
  function Meant(key: string): (name: Option<string>) {
    if key == "" then None
    else if key in SPELLINGS then Some(Canonical(key))
    else if exists name :: name in SPELLINGS && Candidates(key) == {name} then
      var name :| name in SPELLINGS && Candidates(key) == {name};
      Some(name)
    else None
  }

  function LowerChar(c: char): (d: char) {
    if 'A' <= c <= 'Z' then c + ' ' else c
  }

  function Lower(text: string): (lower: string)
    ensures |lower| == |text|
  {
    seq(|text|, i requires 0 <= i < |text| => LowerChar(text[i]))
  }

  /** Words that begin like an option; a lone dash does not. */
  predicate OptionLike(word: string) {
    word != "" && word != "-" && (word[0] == '-' || word[0] == '+')
  }

  /** What follows the two dashes, the dash or the plus. */
  function OptionText(word: string): (text: string)
    requires OptionLike(word)
  {
    if "--" <= word then word[2..] else word[1..]
  }

  /** name=value; the name has at least one character. */
  function NameAndValue(text: string): (r: (string, Option<string>)) {
    if text == "" then ("", None)
    else
      var (name, value, valued) := Cut(text[1..], '=');
      ([text[0]] + name, if valued then Some(value) else None)
  }

  predicate DigitOrMark(c: char) {
    '0' <= c <= '9' || c == '_'
  }

  predicate NumberText(text: string) {
    var digits := if text != "" && (text[0] == '-' || text[0] == '+') then text[1..] else text;
    (exists c :: c in digits && c != '_') && forall c :: c in digits ==> DigitOrMark(c)
  }

  /** An option as given: one the contract uses, or another. */
  datatype Given = Ours(argument: Argument) | Other(name: string)

  datatype Reading = Operand | EndOfOptions | Refused | Whole(given: Given) | Wants(name: string)

  predicate TakesValue(name: string) {
    OptionNamed(name, "").Some? || name in OTHER_OPTIONS
  }

  function Valued(name: string, value: string): (given: Option<Given>) {
    if name == "sshport" && !NumberText(value) then None
    else if OptionNamed(name, value).Some? then Some(Ours(OptionNamed(name, value).value))
    else Some(Other(name))
  }

  function ReadNamed(name: string, value: Option<string>): (reading: Reading) {
    if TakesValue(name) then
      match value
      case None => Wants(name)
      case Some(v) =>
        if v == "" then Refused else match Valued(name, v) case None => Refused case Some(given) => Whole(given)
    else if value.Some? || name in ANSWERED then Refused
    else if SwitchNamed(name).Some? then Whole(Ours(SwitchNamed(name).value))
    else Whole(Other(name))
  }

  /** One word, as Getopt::Long reads it under its default configuration. */
  function ReadWord(word: string): (reading: Reading) {
    if word == "--" then EndOfOptions
    else if !OptionLike(word) then Operand
    else
      var (name, value) := NameAndValue(OptionText(word));
      match Meant(Lower(name))
      case None => Refused
      case Some(option) => ReadNamed(option, value)
  }

  function Operands(words: seq<string>): (given: seq<Given>) {
    if words == [] then [] else [Ours(Positional(words[0]))] + Operands(words[1..])
  }

  function Then(first: Given, rest: Option<seq<Given>>): (given: Option<seq<Given>>) {
    match rest
    case None => None
    case Some(more) => Some([first] + more)
  }

  /** The whole vector, or nothing when Syncoid refuses it or answers and exits. An option without its value takes the next
      word, whatever it is. */
  function ReadWords(words: seq<string>): (given: Option<seq<Given>>)
    decreases |words|
  {
    if words == [] then Some([])
    else match ReadWord(words[0])
      case EndOfOptions => Some(Operands(words[1..]))
      case Refused => None
      case Operand => Then(Ours(Positional(words[0])), ReadWords(words[1..]))
      case Whole(given) => Then(given, ReadWords(words[1..]))
      case Wants(name) =>
        if |words| == 1 || Valued(name, words[1]).None? then None
        else Then(Valued(name, words[1]).value, ReadWords(words[2..]))
  }

  // ----- The words of the contract -----

  /** An operand that begins like no option; a value that is there, and a number where one is wanted. */
  predicate Readable(argument: Argument) {
    match argument
    case Positional(v) => !OptionLike(v)
    case SshPort(v) => v != "" && NumberText(v)
    case Compress(v) => v != ""
    case Identifier(v) => v != ""
    case SshOption(v) => v != ""
    case SshKey(v) => v != ""
    case RecvOptions(v) => v != ""
    case IncludeSnaps(v) => v != ""
    case ExcludeSnaps(v) => v != ""
    case _ => true
  }

  predicate LowerWord(name: string) {
    name != "" && forall c :: c in name ==> 'a' <= c <= 'z' || c == '-'
  }

  lemma LowerWordIsLower(name: string)
    requires LowerWord(name)
    ensures Lower(name) == name && '=' !in name
  {
    forall i | 0 <= i < |name| ensures LowerChar(name[i]) == name[i] {
      assert name[i] in name;
    }
  }

  lemma UsedIsLower(name: string)
    requires name in USED
    ensures LowerWord(name)
  {
  }

  lemma UsedIsItself(name: string)
    requires name in USED
    ensures Meant(name) == Some(name)
  {
    UsedIsLower(name);
    assert |name| > 1;
  }

  lemma NameAlone(name: string)
    requires name != "" && '=' !in name
    ensures NameAndValue(name) == (name, None)
  {
    CutMeaning(name[1..], '=');
    assert [name[0]] + name[1..] == name;
  }

  lemma NameWithValue(name: string, value: string)
    requires name != "" && '=' !in name
    ensures NameAndValue(name + "=" + value) == (name, Some(value))
  {
    var text := name + "=" + value;
    assert text[1..] == name[1..] + ['='] + value;
    CutOf(name[1..], value, '=');
    assert [name[0]] + name[1..] == name;
  }

  lemma TwoDashes(text: string)
    requires text != ""
    ensures "--" + text != "--" && OptionLike("--" + text) && OptionText("--" + text) == text
  {
    assert ("--" + text)[2..] == text;
  }

  lemma ReadSwitch(name: string)
    requires name in USED && SwitchNamed(name).Some? && !TakesValue(name)
    ensures ReadWord("--" + name) == Whole(Ours(SwitchNamed(name).value))
  {
    UsedIsLower(name);
    LowerWordIsLower(name);
    UsedIsItself(name);
    TwoDashes(name);
    NameAlone(name);
    assert name !in ANSWERED;
    hide Meant, Lower, OptionLike, OptionText, NameAndValue, SwitchNamed, TakesValue, LowerWord;
  }

  lemma ReadOption(name: string, value: string)
    requires name in USED && OptionNamed(name, "").Some? && OptionNamed(name, value).Some? && value != ""
    requires name == "sshport" ==> NumberText(value)
    ensures ReadWord("--" + name + "=" + value) == Whole(Ours(OptionNamed(name, value).value))
  {
    UsedIsLower(name);
    LowerWordIsLower(name);
    UsedIsItself(name);
    TwoDashes(name + "=" + value);
    assert "--" + name + "=" + value == "--" + (name + "=" + value);
    NameWithValue(name, value);
    hide Meant, Lower, OptionLike, OptionText, NameAndValue, OptionNamed, LowerWord, NumberText;
  }

  lemma SwitchRead(a: Argument, name: string)
    requires name in USED && SwitchNamed(name) == Some(a) && !TakesValue(name) && Spell(a) == "--" + name
    ensures ReadWord(Spell(a)) == Whole(Ours(a))
  {
    hide *;
    ReadSwitch(name);
  }

  lemma OptionRead(a: Argument, name: string, value: string)
    requires name in USED && OptionNamed(name, value) == Some(a) && OptionNamed(name, "").Some? && value != ""
    requires name == "sshport" ==> NumberText(value)
    requires Spell(a) == "--" + name + "=" + value
    ensures ReadWord(Spell(a)) == Whole(Ours(a))
  {
    hide *;
    ReadOption(name, value);
  }

  lemma NoOptionsRead()
    ensures ReadWord(Spell(NoSyncSnap)) == Whole(Ours(NoSyncSnap))
    ensures ReadWord(Spell(NoRollback)) == Whole(Ours(NoRollback))
    ensures ReadWord(Spell(NoResume)) == Whole(Ours(NoResume))
  {
    hide ReadWord;
    SwitchRead(NoSyncSnap, "no-sync-snap");
    SwitchRead(NoRollback, "no-rollback");
    SwitchRead(NoResume, "no-resume");
  }

  lemma LongOptionsRead()
    ensures ReadWord(Spell(NoPrivilegeElevation)) == Whole(Ours(NoPrivilegeElevation))
    ensures ReadWord(Spell(DeleteTargetSnapshots)) == Whole(Ours(DeleteTargetSnapshots))
    ensures ReadWord(Spell(ForceDelete)) == Whole(Ours(ForceDelete))
  {
    hide ReadWord;
    SwitchRead(NoPrivilegeElevation, "no-privilege-elevation");
    SwitchRead(DeleteTargetSnapshots, "delete-target-snapshots");
    SwitchRead(ForceDelete, "force-delete");
  }

  lemma SshRead(v: string)
    requires v != ""
    ensures ReadWord(Spell(SshOption(v))) == Whole(Ours(SshOption(v)))
    ensures ReadWord(Spell(SshKey(v))) == Whole(Ours(SshKey(v)))
    ensures NumberText(v) ==> ReadWord(Spell(SshPort(v))) == Whole(Ours(SshPort(v)))
  {
    hide ReadWord, NumberText;
    assert "--sshoption=" == "--" + "sshoption" + "=";
    assert "--sshkey=" == "--" + "sshkey" + "=";
    assert "--sshport=" == "--" + "sshport" + "=";
    OptionRead(SshOption(v), "sshoption", v);
    OptionRead(SshKey(v), "sshkey", v);
    if NumberText(v) {
      OptionRead(SshPort(v), "sshport", v);
    }
  }

  lemma SnapsRead(v: string)
    requires v != ""
    ensures ReadWord(Spell(IncludeSnaps(v))) == Whole(Ours(IncludeSnaps(v)))
    ensures ReadWord(Spell(ExcludeSnaps(v))) == Whole(Ours(ExcludeSnaps(v)))
  {
    hide ReadWord, NumberText;
    assert "--include-snaps=" == "--" + "include-snaps" + "=";
    assert "--exclude-snaps=" == "--" + "exclude-snaps" + "=";
    OptionRead(IncludeSnaps(v), "include-snaps", v);
    OptionRead(ExcludeSnaps(v), "exclude-snaps", v);
  }

  lemma NamedRead(v: string)
    requires v != ""
    ensures ReadWord(Spell(Compress(v))) == Whole(Ours(Compress(v)))
    ensures ReadWord(Spell(Identifier(v))) == Whole(Ours(Identifier(v)))
    ensures ReadWord(Spell(RecvOptions(v))) == Whole(Ours(RecvOptions(v)))
  {
    hide ReadWord, NumberText;
    assert "--compress=" == "--" + "compress" + "=";
    assert "--identifier=" == "--" + "identifier" + "=";
    assert "--recvoptions=" == "--" + "recvoptions" + "=";
    OptionRead(Compress(v), "compress", v);
    OptionRead(Identifier(v), "identifier", v);
    OptionRead(RecvOptions(v), "recvoptions", v);
  }

  lemma OperandRead(v: string)
    requires !OptionLike(v)
    ensures ReadWord(Spell(Positional(v))) == Operand
  {
    hide Meant, Lower, NameAndValue, OptionText, ReadNamed;
    assert v != "--";
  }

  /** Each word is read as what the contract meant by it. */
  lemma ReadSpelled(a: Argument)
    requires Readable(a)
    ensures ReadWord(Spell(a)) == if a.Positional? then Operand else Whole(Ours(a))
  {
    hide ReadWord, Spell, NumberText, OptionLike;
    match a {
      case Compress(v) => NamedRead(v);
      case Identifier(v) => NamedRead(v);
      case RecvOptions(v) => NamedRead(v);
      case SshOption(v) => SshRead(v);
      case SshKey(v) => SshRead(v);
      case SshPort(v) => SshRead(v);
      case IncludeSnaps(v) => SnapsRead(v);
      case ExcludeSnaps(v) => SnapsRead(v);
      case Positional(v) => OperandRead(v);
      case _ =>
        NoOptionsRead();
        LongOptionsRead();
    }
  }

  function OursAll(arguments: seq<Argument>): (given: seq<Given>) {
    if arguments == [] then [] else [Ours(arguments[0])] + OursAll(arguments[1..])
  }

  lemma PositionalIsItself(a: Argument)
    ensures a.Positional? ==> Spell(a) == a.value
  {
  }

  lemma SpellStep(arguments: seq<Argument>)
    requires arguments != []
    ensures SpellAll(arguments) == [Spell(arguments[0])] + SpellAll(arguments[1..])
  {
    hide Spell;
  }

  lemma FirstAndRest<T>(first: T, middle: seq<T>, rest: seq<T>)
    ensures [first] + middle + rest == [first] + (middle + rest)
  {
  }

  /** One more word of the contract's own. */
  lemma ReadOneMore(a: Argument, word: string, words: seq<string>)
    requires ReadWord(word) == if a.Positional? then Operand else Whole(Ours(a))
    requires a.Positional? ==> word == a.value
    ensures ReadWords([word] + words) == Then(Ours(a), ReadWords(words))
  {
    hide ReadWord;
    assert ([word] + words)[1..] == words;
  }

  lemma ThenPrefix(first: Given, before: seq<Given>, rest: Option<seq<Given>>)
    ensures Then(first, match rest case None => None case Some(more) => Some(before + more))
      == match rest case None => None case Some(more) => Some([first] + before + more)
  {
    if rest.Some? {
      assert [first] + (before + rest.value) == [first] + before + rest.value;
    }
  }

  lemma NothingSpelled()
    ensures SpellAll([]) == []
  {
  }

  /** Whatever comes after them, the contract's own words are read as they were meant. */
  lemma {:induction false} ReadPrefix(arguments: seq<Argument>, rest: seq<string>)
    requires forall a :: a in arguments ==> Readable(a)
    ensures ReadWords(SpellAll(arguments) + rest) == match ReadWords(rest)
      case None => None
      case Some(more) => Some(OursAll(arguments) + more)
  {
    hide ReadWord, ReadWords, Spell, SpellAll, Readable, Then;
    if arguments == [] {
      NothingSpelled();
      assert [] + rest == rest;
      if ReadWords(rest).Some? {
        assert OursAll(arguments) + ReadWords(rest).value == ReadWords(rest).value;
      }
    } else {
      var a, words := arguments[0], SpellAll(arguments[1..]) + rest;
      assert a in arguments;
      ReadSpelled(a);
      PositionalIsItself(a);
      SpellStep(arguments);
      FirstAndRest(Spell(a), SpellAll(arguments[1..]), rest);
      ReadPrefix(arguments[1..], rest);
      ReadOneMore(a, Spell(a), words);
      ThenPrefix(Ours(a), OursAll(arguments[1..]), ReadWords(rest));
    }
  }

  // ----- A word that begins like an option -----

  /** How many datasets are left. */
  function OperandCount(given: seq<Given>): (n: nat) {
    if given == [] then 0 else (if given[0].Ours? && given[0].argument.Positional? then 1 else 0) + OperandCount(given[1..])
  }

  lemma OptionIsNoOperand(word: string)
    requires OptionLike(word)
    ensures !ReadWord(word).Operand?
    ensures ReadWord(word).Whole? ==> OperandCount([ReadWord(word).given]) == 0
    ensures forall value :: ReadWord(word).Wants? && Valued(ReadWord(word).name, value).Some? ==>
      OperandCount([Valued(ReadWord(word).name, value).value]) == 0
  {
    hide Meant, Lower, NameAndValue, OptionText, TakesValue, NumberText;
  }

  lemma OperandsAreCounted(word: string)
    ensures Operands([word]) == [Ours(Positional(word))] && OperandCount(Operands([word])) == 1
  {
    assert [Ours(Positional(word))][1..] == [];
  }

  lemma CountThen(given: Given, rest: seq<Given>)
    ensures OperandCount([given] + rest) == OperandCount([given]) + OperandCount(rest)
  {
    assert ([given] + rest)[1..] == rest && [given][1..] == [];
  }

  lemma OneOperandRead(word: string)
    requires !OptionLike(word)
    ensures ReadWords([word]) == Some([Ours(Positional(word))]) && OperandCount([Ours(Positional(word))]) == 1
  {
    OperandsAreCounted(word);
    assert word != "--" && [word][1..] == [];
    assert [Ours(Positional(word))] + [] == [Ours(Positional(word))];
  }

  /** Before one more operand, it leaves at most that one: it is refused, it ends the options, it stands alone, or it takes the
      operand for its value. */
  lemma OptionLeavesFewer(source: string, target: string)
    requires OptionLike(source) && !OptionLike(target)
    ensures ReadWords([source, target]).Some? ==> OperandCount(ReadWords([source, target]).value) <= 1
  {
    var words := [source, target];
    assert words[1..] == [target] && words[2..] == [];
    OptionIsNoOperand(source);
    OperandsAreCounted(target);
    OneOperandRead(target);
    hide ReadWord, Valued, OptionLike, Operands;
    match ReadWord(source) {
      case Whole(given) => CountThen(given, [Ours(Positional(target))]);
      case Wants(name) =>
        if Valued(name, target).Some? {
          CountThen(Valued(name, target).value, []);
        }
      case _ =>
    }
  }

  // ----- Four such words -----

  lemma SwitchIsLower(name: string)
    requires name in OTHER_SWITCHES
    ensures LowerWord(name)
  {
  }

  lemma OptionIsLower(name: string)
    requires name in OTHER_OPTIONS
    ensures LowerWord(name)
  {
  }

  lemma ShortIsPlain(name: string)
    requires name in ANSWERED || name in ALIASES
    ensures '/' !in name
  {
  }

  lemma NoSpellingHasSlash(spelling: string)
    requires spelling in SPELLINGS
    ensures '/' !in spelling
  {
    if spelling in USED {
      UsedIsLower(spelling);
    } else if spelling in OTHER_SWITCHES {
      SwitchIsLower(spelling);
    } else if spelling in OTHER_OPTIONS {
      OptionIsLower(spelling);
    } else {
      ShortIsPlain(spelling);
    }
  }

  lemma PrefixHas(key: string, whole: string, c: char)
    requires key <= whole && c in key
    ensures c in whole
  {
    var i :| 0 <= i < |key| && key[i] == c;
    assert whole[i] == c;
  }

  /** An option's text with a slash before any equals sign is no option Syncoid knows. */
  lemma SlashIsUnknown(key: string)
    requires '/' in key
    ensures Meant(key) == None
  {
    forall spelling | spelling in SPELLINGS ensures !(key <= spelling) {
      NoSpellingHasSlash(spelling);
      if key <= spelling {
        PrefixHas(key, spelling, '/');
        assert false;
      }
    }
    assert Candidates(key) == {};
    hide Candidates;
  }

  lemma TankIsLower()
    ensures Lower("tank/data") == "tank/data" && '=' !in "tank/data" && '/' in "tank/data"
  {
    assert "tank/data"[4] == '/';
  }

  lemma TankIsText()
    ensures OptionLike("+tank/data") && "+tank/data" != "--" && OptionText("+tank/data") == "tank/data"
  {
    assert "+tank/data"[0] == '+' && "+tank/data"[1..] == "tank/data";
  }

  lemma PlusIsRefused()
    ensures ReadWord("+tank/data") == Refused
  {
    TankIsText();
    TankIsLower();
    NameAlone("tank/data");
    SlashIsUnknown("tank/data");
    hide Meant, OptionText, Lower, NameAndValue, OptionLike, ReadNamed;
  }

  lemma DashIsAnOperand()
    ensures ReadWord("-") == Operand && !OptionLike("-")
  {
  }

  lemma DoubleDashEnds(target: string)
    ensures OptionLike("--") && ReadWords(["--", target]) == Some([Ours(Positional(target))])
  {
    assert ["--", target][1..] == [target];
    OperandsAreCounted(target);
  }

  lemma ReadBare(name: string)
    requires name in USED && TakesValue(name)
    ensures ReadWord("--" + name) == Wants(name) && OptionLike("--" + name)
  {
    UsedIsLower(name);
    LowerWordIsLower(name);
    UsedIsItself(name);
    TwoDashes(name);
    NameAlone(name);
    hide Meant, Lower, OptionLike, OptionText, NameAndValue, TakesValue, LowerWord;
  }

  lemma IdentifierIsUsed()
    ensures "--identifier" == "--" + "identifier" && TakesValue("identifier") && "identifier" in USED
  {
  }

  lemma IdentifierWantsValue()
    ensures ReadWord("--identifier") == Wants("identifier") && OptionLike("--identifier")
  {
    IdentifierIsUsed();
    hide ReadWord, TakesValue;
    ReadBare("identifier");
  }

  lemma OptionThenValue(word: string, name: string, value: string)
    requires ReadWord(word) == Wants(name) && Valued(name, value).Some?
    ensures ReadWords([word, value]) == Some([Valued(name, value).value])
  {
    hide ReadWord, Valued;
    assert [word, value][2..] == [];
    assert [Valued(name, value).value] + [] == [Valued(name, value).value];
  }

  /** The option's name alone takes the next word for its value. */
  lemma IdentifierTakesTheNext(target: string)
    ensures OptionLike("--identifier") && ReadWords(["--identifier", target]) == Some([Ours(Identifier(target))])
  {
    assert Valued("identifier", target) == Some(Ours(Identifier(target)));
    hide ReadWord, Valued, OptionLike, ReadWords;
    IdentifierWantsValue();
    OptionThenValue("--identifier", "identifier", target);
  }
}
