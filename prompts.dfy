/**
  The interactive prompts of the command-line entry point. The console is
  the sequence of lines the user types; every prompt consumes lines from its
  front and reports how many it used. Running out of lines stands for the
  `EOFError` that `input()` raises at the end of input.
*/
module Prompts {
  import opened Common
  import opened Text
  import opened Timestamps
  import opened ConfigModels
  import opened ConfigService

  /** `input().strip().lower()`. */
  function Normalize(line: string): string { Lower(Strip(line)) }

  // ---------------------------------------------------------------- the menu

  /** What one menu line asks for. */
  datatype MenuChoice = Quit | NewConfig | Select(index: nat) | OutOfRange | Unrecognized

  /** How `prompt_for_configuration` reads one line when `count` configs are listed. */
  function ClassifyChoice(line: string, count: nat): (r: MenuChoice)
    ensures r.Select? ==> r.index < count
  {
    var choice := Normalize(line);
    if choice in {"q", "quit"} then Quit
    else if choice in {"n", "new"} then NewConfig
    else if IsDigits(choice) then
      var index := DigitsValue(choice) - 1;
      if 0 <= index < count then Select(index) else OutOfRange
    else Unrecognized
  }

  /** The menu's options: `q`/`quit`, `n`/`new`, or the 1-based number of a
      listed config; a number outside the list is out of range. */
  lemma ClassifyChoiceSpec(line: string, count: nat)
    ensures ClassifyChoice(line, count) == Quit <==> Normalize(line) in {"q", "quit"}
    ensures ClassifyChoice(line, count) == NewConfig <==> Normalize(line) in {"n", "new"}
    ensures ClassifyChoice(line, count).Select?
        <==> IsDigits(Normalize(line)) && 1 <= DigitsValue(Normalize(line)) <= count
    ensures ClassifyChoice(line, count).Select?
        ==> ClassifyChoice(line, count).index == DigitsValue(Normalize(line)) - 1
    ensures ClassifyChoice(line, count) == OutOfRange
        <==> IsDigits(Normalize(line)) && !(1 <= DigitsValue(Normalize(line)) <= count)
  {
  }

  /** A choice that ends the menu loop. */
  predicate Decisive(c: MenuChoice) { c.Quit? || c.NewConfig? || c.Select? }

  /** The outcome of creating a config interactively. */
  datatype Creation = Created(config: CarConfig) | Rejected(error: ValidationError) | CreationInputEnded

  /** The outcome of the whole menu. */
  datatype Selection = Chosen(config: CarConfig) | Exited | NewConfiguration(creation: Creation) | InputEnded

  /** `prompt_for_configuration`: lines are read until one is decisive; lines
      with an unknown option or an index out of range prompt again. `n`
      continues with `create_configuration` on the lines that follow, which
      reads `creationUsed` of them. */
  method PromptForConfiguration(lines: seq<string>, configs: seq<CarConfig>, defaultPort: string,
                                parse: string -> Option<real>, probe: Probe, now: Instant, databaseRoot: Path)
    returns (r: Selection, used: nat, creationUsed: nat)
    ensures used <= |lines|
    ensures forall i :: 0 <= i < used - 1 ==> !Decisive(ClassifyChoice(lines[i], |configs|))
    ensures r == InputEnded <==> forall i :: 0 <= i < |lines| ==> !Decisive(ClassifyChoice(lines[i], |configs|))
    ensures r == InputEnded ==> used == |lines|
    ensures r != InputEnded ==> (
      && 1 <= used
      && var c := ClassifyChoice(lines[used - 1], |configs|);
      && (c == Quit ==> r == Exited)
      && (c.Select? ==> r == Chosen(configs[c.index]))
      && (c == NewConfig ==> (
        && r.NewConfiguration?
        && CreationFrom(lines[used..], defaultPort, parse, probe, now, databaseRoot, r.creation, creationUsed)))
      && Decisive(c))
  {
    var i := 0;
    while i < |lines| && !Decisive(ClassifyChoice(lines[i], |configs|))
      invariant 0 <= i <= |lines|
      invariant forall j :: 0 <= j < i ==> !Decisive(ClassifyChoice(lines[j], |configs|))
    {
      i := i + 1;
    }
    if i == |lines| {
      return InputEnded, |lines|, 0;
    }
    used := i + 1;
    creationUsed := 0;
    var choice := ClassifyChoice(lines[i], |configs|);
    assert Decisive(choice);
    match choice
    case Quit =>
      r := Exited;
    case Select(index) =>
      r := Chosen(configs[index]);
    case NewConfig =>
      var creation, n := CreateConfiguration(lines[i + 1..], defaultPort, parse, probe, now, databaseRoot);
      r := NewConfiguration(creation);
      creationUsed := n;
  }

  // ---------------------------------------------------------------- yes / no

  datatype Answer = TakeDefault | Yes | No | AskAgain

  /** One line of `_ask_yes_no`. */
  function ClassifyAnswer(line: string): (r: Answer)
    ensures r == TakeDefault <==> Normalize(line) == ""
    ensures r == Yes <==> Normalize(line) in {"y", "yes"}
    ensures r == No <==> Normalize(line) in {"n", "no"}
  {
    var choice := Normalize(line);
    if choice == "" then TakeDefault
    else if choice in {"y", "yes"} then Yes
    else if choice in {"n", "no"} then No
    else AskAgain
  }

  /** `_ask_yes_no(prompt, default=...)`: the first line that is blank, a
      yes or a no decides; the others prompt again. */
  method AskYesNo(lines: seq<string>, default: bool) returns (r: Option<bool>, used: nat)
    ensures used <= |lines|
    ensures forall i :: 0 <= i < used - 1 ==> ClassifyAnswer(lines[i]) == AskAgain
    ensures r.None? <==> forall i :: 0 <= i < |lines| ==> ClassifyAnswer(lines[i]) == AskAgain
    ensures r.None? ==> used == |lines|
    ensures r.Some? ==> (
      && 1 <= used
      && var a := ClassifyAnswer(lines[used - 1]);
      && a != AskAgain
      && r.value == (if a == TakeDefault then default else a == Yes))
  {
    var i := 0;
    while i < |lines| && ClassifyAnswer(lines[i]) == AskAgain
      invariant 0 <= i <= |lines|
      invariant forall j :: 0 <= j < i ==> ClassifyAnswer(lines[j]) == AskAgain
    {
      i := i + 1;
    }
    if i == |lines| {
      return None, |lines|;
    }
    var a := ClassifyAnswer(lines[i]);
    r := Some(if a == TakeDefault then default else a == Yes);
    used := i + 1;
  }

  // ---------------------------------------------------------------- simple fields

  /** The index of the first line that is not blank, `|lines|` when there is none. */
  function FirstNonBlank(lines: seq<string>): (k: nat)
    ensures k <= |lines|
    ensures forall i :: 0 <= i < k ==> AllSpace(lines[i])
    ensures k < |lines| ==> !AllSpace(lines[k])
  {
    if lines == [] || !AllSpace(lines[0]) then 0
    else
      var k := FirstNonBlank(lines[1..]);
      assert forall i :: 1 <= i < k + 1 ==> lines[i] == lines[1..][i - 1];
      1 + k
  }

  /** `_prompt_non_empty(label)`: the first line that is not blank, trimmed. */
  method PromptNonEmpty(lines: seq<string>) returns (r: Option<string>, used: nat)
    ensures used <= |lines|
    ensures r.None? <==> FirstNonBlank(lines) == |lines|
    ensures r.None? ==> used == |lines|
    ensures r.Some? ==> used == FirstNonBlank(lines) + 1 && r.value == Strip(lines[used - 1])
    ensures r.Some? ==> r.value != "" && !IsSpace(r.value[0]) && !IsSpace(r.value[|r.value| - 1])
  {
    var i := 0;
    while i < |lines|
      invariant 0 <= i <= FirstNonBlank(lines)
    {
      var value := Strip(lines[i]);
      StripSpec(lines[i]);
      if value != "" {
        return Some(value), i + 1;
      }
      i := i + 1;
    }
    return None, |lines|;
  }

  /** The adapter-port line of `create_configuration`. */
  function PortFrom(line: string, defaultPort: string): string {
    var port := Strip(line);
    if port != "" then port else defaultPort
  }

  /** The port is the trimmed line, or the default port when the line is blank. */
  lemma PortFromSpec(line: string, defaultPort: string)
    ensures AllSpace(line) ==> PortFrom(line, defaultPort) == defaultPort
    ensures !AllSpace(line) ==> (
      var r := PortFrom(line, defaultPort);
      r == Strip(line) && r != "" && !IsSpace(r[0]) && !IsSpace(r[|r| - 1]))
  {
    StripSpec(line);
  }

  /** `_prompt_polling_interval` after its one line is read; `parse` is
      `float`, `None` where it raises `ValueError`. */
  function PollingIntervalFrom(line: string, parse: string -> Option<real>): real {
    var raw := Strip(line);
    if raw == "" then 1.0
    else match parse(raw)
      case None => 1.0
      case Some(value) => if value <= 0.0 then 1.0 else value
  }

  /** The interval is always positive: a blank line, text that is not a
      number and a value that is not positive all give the default 1.0; any
      other value is taken as entered. */
  lemma PollingIntervalFromSpec(line: string, parse: string -> Option<real>)
    ensures PollingIntervalFrom(line, parse) > 0.0
    ensures AllSpace(line) || parse(Strip(line)).None? ==> PollingIntervalFrom(line, parse) == 1.0
    ensures !AllSpace(line) && parse(Strip(line)).Some? ==>
      PollingIntervalFrom(line, parse)
      == (if parse(Strip(line)).value <= 0.0 then 1.0 else parse(Strip(line)).value)
  {
    StripSpec(line);
  }

  /** An entered interval below the config bound gets past the prompt, which
      only refuses values that are not positive, and then fails validation. */
  lemma SubFloorIntervalRejected(line: string, parse: string -> Option<real>, name: string, port: string,
                                 path: Path, pids: seq<string>, metadata: map<string, string>, at: Option<Instant>)
    requires !AllSpace(line) && parse(Strip(line)) == Some(0.05)
    ensures PollingIntervalFrom(line, parse) == 0.05
    ensures NewCarConfig(name, port, path, pids, PollingIntervalFrom(line, parse), metadata, at)
         == Err(IntervalTooSmall(0.05))
  {
    PollingIntervalFromSpec(line, parse);
  }

  // ---------------------------------------------------------------- metadata

  /** The index of the first `c` in `s`. */
  function FirstIndex(s: string, c: char): (i: nat)
    requires c in s
    ensures i < |s| && s[i] == c
    ensures forall j :: 0 <= j < i ==> s[j] != c
  {
    if s[0] == c then 0 else 1 + FirstIndex(s[1..], c)
  }

  /** What one line of `_prompt_metadata` does. */
  datatype Entry = EndOfEntries | Malformed | EmptyKey | Pair(key: string, value: string)

  /** One trimmed metadata line: blank ends input, no `=` or an empty key is
      refused, otherwise it splits at its first `=` and trims both sides. */
  function ClassifyEntry(line: string): (r: Entry)
    ensures r == EndOfEntries <==> AllSpace(line)
  {
    var entry := Strip(line);
    StripSpec(line);
    if entry == "" then EndOfEntries
    else if '=' !in entry then Malformed
    else
      var i := FirstIndex(entry, '=');
      var key := Strip(entry[..i]);
      if key == "" then EmptyKey else Pair(key, Strip(entry[i + 1..]))
  }

  /** The four outcomes of one metadata line. A blank line ends the input, a
      line without `=` is refused, and so is an empty key. Otherwise the line
      is split at its first `=` only, so the value may hold more `=`, and both
      sides are trimmed. */
  lemma ClassifyEntrySpec(line: string)
    ensures ClassifyEntry(line) == Malformed <==> !AllSpace(line) && '=' !in Strip(line)
    ensures ClassifyEntry(line).Pair? ==> (
      var e := Strip(line);
      var i := FirstIndex(e, '=');
      && ClassifyEntry(line).key == Strip(e[..i]) && ClassifyEntry(line).value == Strip(e[i + 1..])
      && '=' !in e[..i])
    ensures ClassifyEntry(line).Pair? ==> (
      var k := ClassifyEntry(line).key;
      k != "" && !IsSpace(k[0]) && !IsSpace(k[|k| - 1]))
    ensures ClassifyEntry(line) == EmptyKey <==> (
      && !AllSpace(line) && '=' in Strip(line)
      && Strip(Strip(line)[..FirstIndex(Strip(line), '=')]) == "")
  {
    StripSpec(line);
    var e := Strip(line);
    if e != "" && '=' in e {
      StripSpec(e[..FirstIndex(e, '=')]);
    }
  }

  /** `metadata[key] = value` for a pair; refused lines change nothing. */
  function Step(m: map<string, string>, line: string): map<string, string> {
    var e := ClassifyEntry(line);
    if e.Pair? then m[e.key := e.value] else m
  }

  /** The metadata after the given entry lines, in order. */
  function Apply(m: map<string, string>, lines: seq<string>): map<string, string>
    decreases |lines|
  {
    if lines == [] then m else Apply(Step(m, lines[0]), lines[1..])
  }

  lemma {:induction false} ApplySnoc(m: map<string, string>, lines: seq<string>, line: string)
    ensures Apply(m, lines + [line]) == Step(Apply(m, lines), line)
    decreases |lines|
  {
    if lines == [] {
      assert [] + [line] == [line];
    } else {
      assert (lines + [line])[1..] == lines[1..] + [line];
      ApplySnoc(Step(m, lines[0]), lines[1..], line);
    }
  }

  /** The value of the last accepted entry for `key`, if there is one. */
  function LastValue(lines: seq<string>, key: string): Option<string>
    decreases |lines|
  {
    if lines == [] then None
    else
      var e := ClassifyEntry(lines[|lines| - 1]);
      if e.Pair? && e.key == key then Some(e.value) else LastValue(lines[..|lines| - 1], key)
  }

  /** A key is present exactly when some entry set it, and then holds the
      value of its last entry: a repeated key keeps the last value. */
  lemma {:induction false} ApplyLastWins(lines: seq<string>, key: string)
    ensures key in Apply(map[], lines) <==> LastValue(lines, key).Some?
    ensures key in Apply(map[], lines) ==> Apply(map[], lines)[key] == LastValue(lines, key).value
    decreases |lines|
  {
    if lines != [] {
      var init := lines[..|lines| - 1];
      assert lines == init + [lines[|lines| - 1]];
      ApplySnoc(map[], init, lines[|lines| - 1]);
      ApplyLastWins(init, key);
    }
  }

  /** Every stored key is non-empty and trimmed. */
  lemma {:induction false} ApplyKeysTrimmed(m: map<string, string>, lines: seq<string>)
    requires forall k :: k in m ==> k != "" && !IsSpace(k[0]) && !IsSpace(k[|k| - 1])
    ensures forall k :: k in Apply(m, lines) ==> k != "" && !IsSpace(k[0]) && !IsSpace(k[|k| - 1])
    decreases |lines|
  {
    if lines != [] {
      ClassifyEntrySpec(lines[0]);
      ApplyKeysTrimmed(Step(m, lines[0]), lines[1..]);
    }
  }

  /** Reading one more line of the window applies one more step. */
  lemma ApplyExtend(lines: seq<string>, from: nat, i: nat)
    requires from <= i < |lines|
    ensures Apply(map[], lines[from..i + 1]) == Step(Apply(map[], lines[from..i]), lines[i])
  {
    ApplySnoc(map[], lines[from..i], lines[i]);
    assert lines[from..i + 1] == lines[from..i] + [lines[i]];
  }

  /** The body of the `_prompt_metadata` loop for one line that is not blank. */
  method ReadEntry(metadata: map<string, string>, line: string) returns (m: map<string, string>)
    ensures m == Step(metadata, line)
  {
    var entry := ClassifyEntry(line);
    m := metadata;
    if entry.Pair? {
      m := m[entry.key := entry.value];
    }
  }

  /** `_prompt_metadata`, reading from line `from` on: entry lines are
      applied in order up to the first blank line; `next` is the line after
      the last one read. */
  method PromptMetadata(lines: seq<string>, from: nat) returns (r: Option<map<string, string>>, next: nat)
    requires from <= |lines|
    ensures from <= next <= |lines|
    ensures forall i :: from <= i < next - 1 ==> !AllSpace(lines[i])
    ensures r.None? <==> NoBlankFrom(lines, from)
    ensures r.None? ==> next == |lines|
    ensures r.Some? ==> from < next && AllSpace(lines[next - 1]) && r.value == Apply(map[], lines[from..next - 1])
  {
    var metadata: map<string, string> := map[];
    var i := from;
    while i < |lines| && !AllSpace(lines[i])
      invariant from <= i <= |lines|
      invariant forall j :: from <= j < i ==> !AllSpace(lines[j])
      invariant metadata == Apply(map[], lines[from..i])
    {
      ApplyExtend(lines, from, i);
      metadata := ReadEntry(metadata, lines[i]);
      i := i + 1;
    }
    if i == |lines| {
      return None, |lines|;
    }
    return Some(metadata), i + 1;
  }

  // ---------------------------------------------------------------- creation

  /** No blank line at or after index `from`. */
  predicate NoBlankFrom(lines: seq<string>, from: int) {
    forall j :: 0 <= from <= j < |lines| ==> !AllSpace(lines[j])
  }

  /** The answers `create_configuration` collects before it creates the config. */
  datatype ConfigAnswers = ConfigAnswers(name: string, port: string, interval: real, metadata: map<string, string>)

  /** The prompts of `create_configuration`: the first non-blank line is the
      name, the two lines after it the port and the interval, then metadata
      lines up to a blank one. */
  method ReadConfigAnswers(lines: seq<string>, defaultPort: string, parse: string -> Option<real>)
    returns (r: Option<ConfigAnswers>, used: nat)
    ensures used <= |lines|
    ensures r.None? <==> FirstNonBlank(lines) + 2 >= |lines| || NoBlankFrom(lines, FirstNonBlank(lines) + 3)
    ensures r.Some? ==> (
      var k := FirstNonBlank(lines);
      && k + 3 < used && AllSpace(lines[used - 1])
      && r.value.name == Strip(lines[k])
      && r.value.port == PortFrom(lines[k + 1], defaultPort)
      && r.value.interval == PollingIntervalFrom(lines[k + 2], parse)
      && r.value.metadata == Apply(map[], lines[k + 3..used - 1]))
    ensures r.Some? ==> (
      && r.value.name != "" && !IsSpace(r.value.name[0]) && !IsSpace(r.value.name[|r.value.name| - 1])
      && forall key :: key in r.value.metadata ==> key != "" && !IsSpace(key[0]) && !IsSpace(key[|key| - 1]))
  {
    var name, n := PromptNonEmpty(lines);
    if name.None? || n + 1 >= |lines| {
      return None, |lines|;
    }
    var port := PortFrom(lines[n], defaultPort);
    var interval := PollingIntervalFrom(lines[n + 1], parse);
    var metadata, next := PromptMetadata(lines, n + 2);
    if metadata.None? {
      return None, |lines|;
    }
    ApplyKeysTrimmed(map[], lines[n + 2..next - 1]);
    used := next;
    r := Some(ConfigAnswers(name.value, port, interval, metadata.value));
    ghost var k := FirstNonBlank(lines);
    assert lines[k + 3..used - 1] == lines[n + 2..next - 1];
  }

  /** What `create_configuration` makes of `lines`, having read `used` of
      them: the input ends before the answers do, the interval read is
      refused, or the new configuration holds the answers. */
  predicate CreationFrom(lines: seq<string>, defaultPort: string, parse: string -> Option<real>,
                         probe: Probe, now: Instant, databaseRoot: Path, r: Creation, used: nat)
  {
    var k := FirstNonBlank(lines);
    && used <= |lines|
    && (r == CreationInputEnded <==> k + 2 >= |lines| || NoBlankFrom(lines, k + 3))
    && (r.Rejected? <==> r != CreationInputEnded && PollingIntervalFrom(lines[k + 2], parse) < MinPollingInterval)
    && (r.Rejected? ==> r.error == IntervalTooSmall(PollingIntervalFrom(lines[k + 2], parse)))
    && (r.Created? ==> (
      && k + 3 < used && AllSpace(lines[used - 1])
      && r.config.name == Strip(lines[k])
      && r.config.adapterPort == PortFrom(lines[k + 1], defaultPort)
      && r.config.pollingInterval == PollingIntervalFrom(lines[k + 2], parse)
      && r.config.metadata == Apply(map[], lines[k + 3..used - 1])
      && r.config.databasePath == DatabasePathFor(databaseRoot, r.config.name)
      && r.config.supportedPids
         == (if DetectSupportedPids(r.config.adapterPort, probe).Ok?
             then DetectSupportedPids(r.config.adapterPort, probe).value else DefaultSupportedPids)
      && r.config.createdAt == Some(now)))
  }

  /** `create_configuration`: the answers, then `create_config` with
      detection enabled. */
  method CreateConfiguration(lines: seq<string>, defaultPort: string, parse: string -> Option<real>,
                             probe: Probe, now: Instant, databaseRoot: Path)
    returns (r: Creation, used: nat)
    ensures CreationFrom(lines, defaultPort, parse, probe, now, databaseRoot, r, used)
    ensures r.Created? ==> (
      && r.config.name != "" && r.config.supportedPids != []
      && r.config.pollingInterval >= MinPollingInterval
      && forall key :: key in r.config.metadata ==> key != "" && !IsSpace(key[0]) && !IsSpace(key[|key| - 1]))
  {
    var answers, n := ReadConfigAnswers(lines, defaultPort, parse);
    used := n;
    if answers.None? {
      return CreationInputEnded, used;
    }
    var a := answers.value;
    var made := CreateConfig(databaseRoot, a.name, a.port, Some(a.metadata), a.interval, true, probe, now);
    if made.Err? {
      return Rejected(made.error), used;
    }
    r := Created(made.value);
  }
}
