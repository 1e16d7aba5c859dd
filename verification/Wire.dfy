/** How contexts are written and read: `src/common/Connection.h` (the serializer and
    the deserializer), `src/client/ServerPort.cpp` and `src/server/ClientPort.cpp`.
    Numbers are little endian, as on the supported machines. */
module Wire {
  import opened Keys
  import opened Outputs
  import opened Contexts
  import opened Lowering

  const TWO_31 := 0x8000_0000
  const TWO_32 := 0x1_0000_0000

  type Bytes = seq<Byte>

  // ---------------------------------------------------------------------------
  // Written values

  function Number(n: int): Bytes
    requires 0 <= n < TWO_32
  {
    [n % 0x100, n / 0x100 % 0x100, n / 0x1_0000 % 0x100, n / 0x100_0000]
  }

  /** `static_cast<uint32_t>(size)`. */
  function Size(n: nat): Bytes { Number(n % TWO_32) }

  predicate Is32Bit(n: int) { -TWO_31 <= n < TWO_31 }

  /** The bytes of an `int32_t`. */
  function Signed(n: int): Bytes
    requires Is32Bit(n)
  {
    Number(if n < 0 then n + TWO_32 else n)
  }

  function Flag(b: bool): Bytes { [if b then 1 else 0] }

  function StateNumber(state: KeyState): (r: nat)
    ensures r <= 10
  {
    match state
    case Up => 0
    case Down => 1
    case Not => 2
    case UpAsync => 3
    case DownAsync => 4
    case NoMightMatch => 5
    case OutputOnRelease => 6
    case DownMatched => 7
    case UpMatched => 8
    case HistoryTiming => 9
    case NotTimeoutCancelOnUpDown => 10
  }

  /** The key, and the 4 bit of the state below the 12 bit of the value. */
  function Event(e: KeyEvent): Bytes {
    var bits := StateNumber(e.state) + 16 * e.value;
    [e.key % 0x100, e.key / 0x100, bits % 0x100, bits / 0x100]
  }

  function Text(s: Bytes): Bytes { Size(|s|) + s }

  function EventBytes(s: KeySequence): Bytes {
    if s == [] then [] else Event(s[0]) + EventBytes(s[1..])
  }

  function Sequence(s: KeySequence): Bytes { Size(|s|) + EventBytes(s) }

  function FilterBytes(f: Filter): Bytes { Text(f.text) + Flag(f.invert) }

  function Inputs(inputs: seq<Input>): Bytes
    requires forall i :: 0 <= i < |inputs| ==> Is32Bit(inputs[i].outputIndex)
  {
    if inputs == [] then []
    else Sequence(inputs[0].input) + Signed(inputs[0].outputIndex) + Inputs(inputs[1..])
  }

  function Sequences(outputs: seq<KeySequence>): Bytes {
    if outputs == [] then [] else Sequence(outputs[0]) + Sequences(outputs[1..])
  }

  function Commands(commands: seq<CommandOutput>): Bytes
    requires forall i :: 0 <= i < |commands| ==> Is32Bit(commands[i].index)
  {
    if commands == [] then []
    else Sequence(commands[0].output) + Signed(commands[0].index) + Commands(commands[1..])
  }

  /** Indices are C++ integers of 32 bit. */
  predicate HasIntIndices(c: ConfigContext) {
    && (forall i :: 0 <= i < |c.inputs| ==> Is32Bit(c.inputs[i].outputIndex))
    && (forall i :: 0 <= i < |c.commandOutputs| ==> Is32Bit(c.commandOutputs[i].index))
  }

  function MappingBytes(c: ConfigContext): Bytes
    requires HasIntIndices(c)
  {
    (Size(|c.inputs|) + Inputs(c.inputs))
    + (Size(|c.outputs|) + Sequences(c.outputs))
    + (Size(|c.commandOutputs|) + Commands(c.commandOutputs))
  }

  function ConditionBytes(c: ConfigContext): Bytes {
    FilterBytes(c.deviceFilter)
    + FilterBytes(c.deviceIdFilter)
    + Sequence(c.modifierFilter)
    + Flag(c.invertModifierFilter)
    + Flag(c.fallsThrough)
  }

  function ContextBytes(c: ConfigContext): Bytes
    requires HasIntIndices(c)
  {
    Flag(c.beginStage) + MappingBytes(c) + ConditionBytes(c)
  }

  function ContextsBytes(contexts: seq<ConfigContext>): Bytes
    requires forall i :: 0 <= i < |contexts| ==> HasIntIndices(contexts[i])
  {
    if contexts == [] then [] else ContextBytes(contexts[0]) + ContextsBytes(contexts[1..])
  }

  function Written(contexts: seq<ConfigContext>): Bytes
    requires forall i :: 0 <= i < |contexts| ==> HasIntIndices(contexts[i])
  {
    Size(|contexts|) + ContextsBytes(contexts)
  }

  // ---------------------------------------------------------------------------
  // Read values: what is read from the remaining bytes, and what remains then.
  // When there are not enough bytes nothing is read.

  datatype Read<+T> = Read(value: T, rest: Bytes)

  function Short(low: int, high: int): int { low + 0x100 * high }

  function ReadNumber(b: Bytes): (r: Read<int>)
    ensures 0 <= r.value < TWO_32
  {
    if |b| < 4 then Read(0, b)
    else Read(Short(b[0], b[1]) + 0x1_0000 * Short(b[2], b[3]), b[4..])
  }

  function ReadSigned(b: Bytes): Read<int> {
    var r := ReadNumber(b);
    Read(if r.value >= TWO_31 then r.value - TWO_32 else r.value, r.rest)
  }

  function ReadFlag(b: Bytes): Read<bool> {
    if b == [] then Read(false, b) else Read(b[0] != 0, b[1..])
  }

  /** Numbers above 10 are never written. */
  function StateOf(n: nat): KeyState {
    if n == 1 then Down
    else if n == 2 then Not
    else if n == 3 then UpAsync
    else if n == 4 then DownAsync
    else if n == 5 then NoMightMatch
    else if n == 6 then OutputOnRelease
    else if n == 7 then DownMatched
    else if n == 8 then UpMatched
    else if n == 9 then HistoryTiming
    else if n == 10 then NotTimeoutCancelOnUpDown
    else Up
  }

  function ReadEvent(b: Bytes): Read<KeyEvent> {
    if |b| < 4 then Read(NO_EVENT, b)
    else
      var bits := Short(b[2], b[3]);
      Read(KeyEvent(Short(b[0], b[1]), StateOf(bits % 16), bits / 16), b[4..])
  }

  const SPACE: Byte := 0x20

  function Spaces(n: nat): Bytes { seq(n, i => SPACE) }

  function ReadText(b: Bytes): Read<Bytes> {
    var size := ReadNumber(b);
    if |size.rest| < size.value then Read(Spaces(size.value), size.rest)
    else Read(size.rest[..size.value], size.rest[size.value..])
  }

  function ReadEvents(n: nat, b: Bytes): Read<KeySequence> {
    if n == 0 then Read([], b)
    else
      var first := ReadEvent(b);
      var others := ReadEvents(n - 1, first.rest);
      Read([first.value] + others.value, others.rest)
  }

  function ReadSequence(b: Bytes): Read<KeySequence> {
    var size := ReadNumber(b);
    ReadEvents(size.value, size.rest)
  }

  function ReadFilter(b: Bytes): Read<Filter> {
    var text := ReadText(b);
    var invert := ReadFlag(text.rest);
    Read(Filter(text.value, invert.value), invert.rest)
  }

  /** An input as it is received, which may be empty. */
  datatype StageInput = StageInput(input: KeySequence, outputIndex: int)

  function ReadInputs(n: nat, b: Bytes): Read<seq<StageInput>> {
    if n == 0 then Read([], b)
    else
      var input := ReadSequence(b);
      var index := ReadSigned(input.rest);
      var others := ReadInputs(n - 1, index.rest);
      Read([StageInput(input.value, index.value)] + others.value, others.rest)
  }

  function ReadSequences(n: nat, b: Bytes): Read<seq<KeySequence>> {
    if n == 0 then Read([], b)
    else
      var first := ReadSequence(b);
      var others := ReadSequences(n - 1, first.rest);
      Read([first.value] + others.value, others.rest)
  }

  function ReadCommands(n: nat, b: Bytes): Read<seq<CommandOutput>> {
    if n == 0 then Read([], b)
    else
      var output := ReadSequence(b);
      var index := ReadSigned(output.rest);
      var others := ReadCommands(n - 1, index.rest);
      Read([CommandOutput(output.value, index.value)] + others.value, others.rest)
  }

  /** A context of a stage. */
  datatype StageContext = StageContext(
    inputs: seq<StageInput>,
    outputs: seq<KeySequence>,
    commandOutputs: seq<CommandOutput>,
    deviceFilter: Filter,
    deviceIdFilter: Filter,
    modifierFilter: KeySequence,
    invertModifierFilter: bool,
    fallsThrough: bool)

  const EMPTY_STAGE_CONTEXT := StageContext([], [], [], NO_FILTER, NO_FILTER, [], false, false)

  function ReadMappings(b: Bytes): Read<StageContext> {
    var inputCount := ReadNumber(b);
    var inputs := ReadInputs(inputCount.value, inputCount.rest);
    var outputCount := ReadNumber(inputs.rest);
    var outputs := ReadSequences(outputCount.value, outputCount.rest);
    var commandCount := ReadNumber(outputs.rest);
    var commands := ReadCommands(commandCount.value, commandCount.rest);
    Read(EMPTY_STAGE_CONTEXT.(inputs := inputs.value, outputs := outputs.value, commandOutputs := commands.value), commands.rest)
  }

  function ReadConditions(c: StageContext, b: Bytes): Read<StageContext> {
    var deviceFilter := ReadFilter(b);
    var deviceIdFilter := ReadFilter(deviceFilter.rest);
    var modifierFilter := ReadSequence(deviceIdFilter.rest);
    var invert := ReadFlag(modifierFilter.rest);
    var fallsThrough := ReadFlag(invert.rest);
    Read(c.(deviceFilter := deviceFilter.value, deviceIdFilter := deviceIdFilter.value,
            modifierFilter := modifierFilter.value, invertModifierFilter := invert.value,
            fallsThrough := fallsThrough.value), fallsThrough.rest)
  }

  function ReadContext(b: Bytes): Read<StageContext> {
    var mappings := ReadMappings(b);
    ReadConditions(mappings.value, mappings.rest)
  }

  /** The remaining stages, when these contexts of the current one were read. */
  function ReadContexts(n: nat, current: seq<StageContext>, b: Bytes): Read<seq<seq<StageContext>>>
    decreases n
  {
    if n == 0 then Read(if current != [] then [current] else [], b)
    else
      var beginStage := ReadFlag(b);
      var context := ReadContext(beginStage.rest);
      if beginStage.value && current != [] then
        var others := ReadContexts(n - 1, [context.value], context.rest);
        Read([current] + others.value, others.rest)
      else ReadContexts(n - 1, current + [context.value], context.rest)
  }

  function ReadStages(b: Bytes): Read<seq<seq<StageContext>>> {
    var count := ReadNumber(b);
    ReadContexts(count.value, [], count.rest)
  }

  // ---------------------------------------------------------------------------
  // Reading undoes writing

  predicate Fits(n: nat) { n < TWO_32 }

  lemma NumberRead(n: int, rest: Bytes)
    requires 0 <= n < TWO_32
    ensures ReadNumber(Number(n) + rest) == Read(n, rest)
  {
    var b := Number(n) + rest;
    assert b[4..] == rest && b[..4] == Number(n);
    Digits(n);
  }

  lemma Digits(n: int)
    requires 0 <= n < TWO_32
    ensures Short(n % 0x100, n / 0x100 % 0x100) + 0x1_0000 * Short(n / 0x1_0000 % 0x100, n / 0x100_0000) == n
  {
    assert n / 0x100 / 0x100 == n / 0x1_0000 && n / 0x1_0000 / 0x100 == n / 0x100_0000;
  }

  lemma SizeRead(n: nat, rest: Bytes)
    requires Fits(n)
    ensures ReadNumber(Size(n) + rest) == Read(n, rest)
  {
    hide Number, ReadNumber;
    assert n % TWO_32 == n;
    NumberRead(n, rest);
  }

  lemma SignedRead(n: int, rest: Bytes)
    requires Is32Bit(n)
    ensures ReadSigned(Signed(n) + rest) == Read(n, rest)
  {
    NumberRead(if n < 0 then n + TWO_32 else n, rest);
  }

  lemma FlagRead(b: bool, rest: Bytes)
    ensures ReadFlag(Flag(b) + rest) == Read(b, rest)
  {
  }

  lemma EventRead(e: KeyEvent, rest: Bytes)
    ensures ReadEvent(Event(e) + rest) == Read(e, rest)
  {
    var b := Event(e) + rest;
    var bits := StateNumber(e.state) + 16 * e.value;
    assert b[4..] == rest;
    assert bits % 0x100 + 0x100 * (bits / 0x100) == bits;
    assert bits % 16 == StateNumber(e.state) && bits / 16 == e.value;
  }

  lemma TextRead(s: Bytes, rest: Bytes)
    requires Fits(|s|)
    ensures ReadText(Text(s) + rest) == Read(s, rest)
  {
    SizeRead(|s|, s + rest);
    assert Text(s) + rest == Size(|s|) + (s + rest);
    assert (s + rest)[..|s|] == s && (s + rest)[|s|..] == rest;
  }

  lemma {:induction false} EventsRead(s: KeySequence, rest: Bytes)
    ensures ReadEvents(|s|, EventBytes(s) + rest) == Read(s, rest)
    decreases |s|
  {
    hide Event, ReadEvent;
    if s == [] {
      assert EventBytes(s) + rest == rest;
    } else {
      assert EventBytes(s) + rest == Event(s[0]) + (EventBytes(s[1..]) + rest);
      EventRead(s[0], EventBytes(s[1..]) + rest);
      EventsRead(s[1..], rest);
      assert |s[1..]| == |s| - 1 && [s[0]] + s[1..] == s;
    }
  }

  lemma SequenceRead(s: KeySequence, rest: Bytes)
    requires Fits(|s|)
    ensures ReadSequence(Sequence(s) + rest) == Read(s, rest)
  {
    hide EventBytes, ReadEvents, Size, ReadNumber;
    assert Sequence(s) + rest == Size(|s|) + (EventBytes(s) + rest);
    SizeRead(|s|, EventBytes(s) + rest);
    EventsRead(s, rest);
  }

  lemma FilterRead(f: Filter, rest: Bytes)
    requires Fits(|f.text|)
    ensures ReadFilter(FilterBytes(f) + rest) == Read(f, rest)
  {
    hide Text, ReadText, Flag, ReadFlag;
    assert FilterBytes(f) + rest == Text(f.text) + (Flag(f.invert) + rest);
    TextRead(f.text, Flag(f.invert) + rest);
    FlagRead(f.invert, rest);
  }

  function Received(inputs: seq<Input>): (r: seq<StageInput>)
    ensures |r| == |inputs| && forall i :: 0 <= i < |r| ==> r[i] == StageInput(inputs[i].input, inputs[i].outputIndex)
  {
    seq(|inputs|, i requires 0 <= i < |inputs| => StageInput(inputs[i].input, inputs[i].outputIndex))
  }

  predicate InputsFit(inputs: seq<Input>) {
    forall i :: 0 <= i < |inputs| ==> Is32Bit(inputs[i].outputIndex) && Fits(|inputs[i].input|)
  }

  predicate SequencesFit(outputs: seq<KeySequence>) { forall i :: 0 <= i < |outputs| ==> Fits(|outputs[i]|) }

  predicate CommandsFit(commands: seq<CommandOutput>) {
    forall i :: 0 <= i < |commands| ==> Is32Bit(commands[i].index) && Fits(|commands[i].output|)
  }

  /** All sizes are transmitted as 32 bit. */
  predicate ContextFits(c: ConfigContext) {
    && InputsFit(c.inputs) && SequencesFit(c.outputs) && CommandsFit(c.commandOutputs)
    && Fits(|c.inputs|) && Fits(|c.outputs|) && Fits(|c.commandOutputs|) && Fits(|c.modifierFilter|)
    && Fits(|c.deviceFilter.text|) && Fits(|c.deviceIdFilter.text|)
  }

  lemma {:induction false} InputsRead(inputs: seq<Input>, rest: Bytes)
    requires InputsFit(inputs)
    ensures ReadInputs(|inputs|, Inputs(inputs) + rest) == Read(Received(inputs), rest)
    decreases |inputs|
  {
    hide Sequence, ReadSequence, Signed, ReadSigned;
    if inputs == [] {
      assert Inputs(inputs) + rest == rest;
    } else {
      var input, behind := inputs[0], Inputs(inputs[1..]) + rest;
      assert InputsFit(inputs[1..]);
      assert Inputs(inputs) + rest == Sequence(input.input) + (Signed(input.outputIndex) + behind);
      SequenceRead(input.input, Signed(input.outputIndex) + behind);
      SignedRead(input.outputIndex, behind);
      InputsRead(inputs[1..], rest);
      assert |inputs[1..]| == |inputs| - 1;
      assert [StageInput(input.input, input.outputIndex)] + Received(inputs[1..]) == Received(inputs);
    }
  }

  lemma {:induction false} SequencesRead(outputs: seq<KeySequence>, rest: Bytes)
    requires SequencesFit(outputs)
    ensures ReadSequences(|outputs|, Sequences(outputs) + rest) == Read(outputs, rest)
    decreases |outputs|
  {
    hide Sequence, ReadSequence;
    if outputs == [] {
      assert Sequences(outputs) + rest == rest;
    } else {
      assert SequencesFit(outputs[1..]);
      assert Sequences(outputs) + rest == Sequence(outputs[0]) + (Sequences(outputs[1..]) + rest);
      SequenceRead(outputs[0], Sequences(outputs[1..]) + rest);
      SequencesRead(outputs[1..], rest);
      assert |outputs[1..]| == |outputs| - 1 && [outputs[0]] + outputs[1..] == outputs;
    }
  }

  lemma {:induction false} CommandsRead(commands: seq<CommandOutput>, rest: Bytes)
    requires CommandsFit(commands)
    ensures ReadCommands(|commands|, Commands(commands) + rest) == Read(commands, rest)
    decreases |commands|
  {
    hide Sequence, ReadSequence, Signed, ReadSigned;
    if commands == [] {
      assert Commands(commands) + rest == rest;
    } else {
      var command, behind := commands[0], Commands(commands[1..]) + rest;
      assert CommandsFit(commands[1..]);
      assert Commands(commands) + rest == Sequence(command.output) + (Signed(command.index) + behind);
      SequenceRead(command.output, Signed(command.index) + behind);
      SignedRead(command.index, behind);
      CommandsRead(commands[1..], rest);
      assert |commands[1..]| == |commands| - 1 && [commands[0]] + commands[1..] == commands;
    }
  }

  /** What is transmitted of a context. */
  function Transmitted(c: ConfigContext): StageContext {
    StageContext(Received(c.inputs), c.outputs, c.commandOutputs, c.deviceFilter, c.deviceIdFilter,
                 c.modifierFilter, c.invertModifierFilter, c.fallsThrough)
  }

  lemma MappingsRead(c: ConfigContext, rest: Bytes)
    requires ContextFits(c)
    ensures HasIntIndices(c)
    ensures ReadMappings(MappingBytes(c) + rest)
      == Read(EMPTY_STAGE_CONTEXT.(inputs := Received(c.inputs), outputs := c.outputs, commandOutputs := c.commandOutputs), rest)
  {
    hide Size, Inputs, Sequences, Commands, ReadNumber, ReadInputs, ReadSequences;
    hide ReadCommands, Fits, InputsFit, SequencesFit, CommandsFit;
    FittingIndices(c);
    var r3 := Size(|c.commandOutputs|) + (Commands(c.commandOutputs) + rest);
    var r2 := Size(|c.outputs|) + (Sequences(c.outputs) + r3);
    assert MappingBytes(c) + rest == Size(|c.inputs|) + (Inputs(c.inputs) + r2);
    SizeRead(|c.inputs|, Inputs(c.inputs) + r2);
    InputsRead(c.inputs, r2);
    SizeRead(|c.outputs|, Sequences(c.outputs) + r3);
    SequencesRead(c.outputs, r3);
    SizeRead(|c.commandOutputs|, Commands(c.commandOutputs) + rest);
    CommandsRead(c.commandOutputs, rest);
  }

  lemma ConditionsRead(s: StageContext, c: ConfigContext, rest: Bytes)
    requires ContextFits(c)
    ensures ReadConditions(s, ConditionBytes(c) + rest)
      == Read(s.(deviceFilter := c.deviceFilter, deviceIdFilter := c.deviceIdFilter, modifierFilter := c.modifierFilter,
                 invertModifierFilter := c.invertModifierFilter, fallsThrough := c.fallsThrough), rest)
  {
    hide FilterBytes, Sequence, Flag, ReadFilter, ReadSequence, ReadFlag, Fits, InputsFit, SequencesFit, CommandsFit;
    var r4 := Flag(c.fallsThrough) + rest;
    var r3 := Flag(c.invertModifierFilter) + r4;
    var r2 := Sequence(c.modifierFilter) + r3;
    var r1 := FilterBytes(c.deviceIdFilter) + r2;
    assert ConditionBytes(c) + rest == FilterBytes(c.deviceFilter) + r1;
    FilterRead(c.deviceFilter, r1);
    FilterRead(c.deviceIdFilter, r2);
    SequenceRead(c.modifierFilter, r3);
    FlagRead(c.invertModifierFilter, r4);
    FlagRead(c.fallsThrough, rest);
  }

  lemma ContextRead(c: ConfigContext, rest: Bytes)
    requires ContextFits(c)
    ensures HasIntIndices(c)
    ensures ReadFlag(ContextBytes(c) + rest).value == c.beginStage
    ensures ReadContext(ReadFlag(ContextBytes(c) + rest).rest) == Read(Transmitted(c), rest)
  {
    hide MappingBytes, ConditionBytes, ReadMappings, ReadConditions, ContextFits, Flag, ReadFlag;
    FittingIndices(c);
    var r1 := MappingBytes(c) + (ConditionBytes(c) + rest);
    assert ContextBytes(c) + rest == Flag(c.beginStage) + r1;
    FlagRead(c.beginStage, r1);
    MappingsRead(c, ConditionBytes(c) + rest);
    ConditionsRead(EMPTY_STAGE_CONTEXT.(inputs := Received(c.inputs), outputs := c.outputs, commandOutputs := c.commandOutputs), c, rest);
  }

  lemma FittingIndices(c: ConfigContext)
    requires ContextFits(c)
    ensures HasIntIndices(c)
  {
  }

  // ---------------------------------------------------------------------------
  // Stages

  /** The contexts cut at those which begin a stage, after the first one. */
  function Cut(current: seq<ConfigContext>, contexts: seq<ConfigContext>): seq<seq<ConfigContext>>
    decreases |contexts|
  {
    if contexts == [] then (if current != [] then [current] else [])
    else if contexts[0].beginStage && current != [] then [current] + Cut([contexts[0]], contexts[1..])
    else Cut(current + [contexts[0]], contexts[1..])
  }

  function TransmittedAll(contexts: seq<ConfigContext>): (r: seq<StageContext>)
    ensures |r| == |contexts| && forall i :: 0 <= i < |r| ==> r[i] == Transmitted(contexts[i])
  {
    seq(|contexts|, i requires 0 <= i < |contexts| => Transmitted(contexts[i]))
  }

  function StagesOf(stages: seq<seq<ConfigContext>>): (r: seq<seq<StageContext>>)
    ensures |r| == |stages| && forall i :: 0 <= i < |r| ==> r[i] == TransmittedAll(stages[i])
  {
    seq(|stages|, i requires 0 <= i < |stages| => TransmittedAll(stages[i]))
  }

  predicate AllFit(contexts: seq<ConfigContext>) {
    Fits(|contexts|) && forall i :: 0 <= i < |contexts| ==> ContextFits(contexts[i])
  }

  lemma {:induction false} ContextsRead(current: seq<ConfigContext>, contexts: seq<ConfigContext>, rest: Bytes)
    requires forall i :: 0 <= i < |contexts| ==> ContextFits(contexts[i])
    ensures forall i :: 0 <= i < |contexts| ==> HasIntIndices(contexts[i])
    ensures ReadContexts(|contexts|, TransmittedAll(current), ContextsBytes(contexts) + rest)
      == Read(StagesOf(Cut(current, contexts)), rest)
    decreases |contexts|
  {
    hide ContextFits, ContextBytes, ReadContext, ReadFlag, Transmitted;
    if contexts == [] {
      assert ContextsBytes(contexts) + rest == rest;
      assert current != [] ==> StagesOf([current]) == [TransmittedAll(current)];
    } else {
      var c, others := contexts[0], contexts[1..];
      ContextsRead([c], others, rest);
      ContextsRead(current + [c], others, rest);
      ContextRead(c, ContextsBytes(others) + rest);
      assert forall i :: 1 <= i < |contexts| ==> contexts[i] == others[i - 1];
      assert ContextsBytes(contexts) + rest == ContextBytes(c) + (ContextsBytes(others) + rest);
      assert TransmittedAll(current + [c]) == TransmittedAll(current) + [Transmitted(c)];
      assert TransmittedAll([c]) == [Transmitted(c)];
      if c.beginStage && current != [] {
        assert StagesOf([current] + Cut([c], others)) == [TransmittedAll(current)] + StagesOf(Cut([c], others));
      }
    }
  }

  /** Reading what was written gives back every transmitted field of every context
      in order, cut into stages. */
  lemma WireRoundTrip(contexts: seq<ConfigContext>, rest: Bytes)
    requires AllFit(contexts)
    ensures forall i :: 0 <= i < |contexts| ==> HasIntIndices(contexts[i])
    ensures ReadStages(Written(contexts) + rest) == Read(StagesOf(Cut([], contexts)), rest)
  {
    hide ReadContexts, Cut, Size, ReadNumber, ContextFits, ContextsBytes, HasIntIndices, Fits, StagesOf;
    ContextsRead([], contexts, rest);
    SizeRead(|contexts|, ContextsBytes(contexts) + rest);
    assert Written(contexts) + rest == Size(|contexts|) + (ContextsBytes(contexts) + rest);
    assert TransmittedAll([]) == [];
  }

  function Flatten<T>(lists: seq<seq<T>>): seq<T> {
    if lists == [] then [] else lists[0] + Flatten(lists[1..])
  }

  /** Only the first context of a stage can begin one. */
  predicate CutAtStages(stages: seq<seq<ConfigContext>>) {
    && (forall i :: 0 <= i < |stages| ==> stages[i] != [])
    && (forall i :: 1 <= i < |stages| ==> stages[i][0].beginStage)
    && (forall i, j :: 0 <= i < |stages| && 1 <= j < |stages[i]| ==> !stages[i][j].beginStage)
  }

  /** The stages are the contexts in order, cut exactly where one begins a stage. */
  lemma {:induction false} CutIsExact(current: seq<ConfigContext>, contexts: seq<ConfigContext>)
    requires forall j :: 1 <= j < |current| ==> !current[j].beginStage
    ensures Flatten(Cut(current, contexts)) == current + contexts
    ensures CutAtStages(Cut(current, contexts))
    ensures current != [] ==> Cut(current, contexts) != [] && Cut(current, contexts)[0][0] == current[0]
    decreases |contexts|
  {
    if contexts == [] {
      assert current != [] ==> [current][1..] == [];
      assert current + contexts == current;
    } else {
      var c, others := contexts[0], contexts[1..];
      if c.beginStage && current != [] {
        CutIsExact([c], others);
        var rest := Cut([c], others);
        assert ([current] + rest)[1..] == rest;
        assert current + ([c] + others) == current + contexts;
        assert forall i :: 1 <= i < |rest| + 1 ==> ([current] + rest)[i] == rest[i - 1];
      } else {
        CutIsExact(current + [c], others);
        assert current + [c] + others == current + contexts;
      }
    }
  }

  // ---------------------------------------------------------------------------
  // The serializer

  class Serializer {
    var buffer: Bytes

    constructor ()
      ensures buffer == []
    {
      buffer := [];
    }

    method Write(data: Bytes)
      modifies this
      ensures buffer == old(buffer) + data
    {
      buffer := buffer + data;
    }

    method WriteText(s: Bytes)
      modifies this
      ensures buffer == old(buffer) + Text(s)
    {
      Write(Size(|s|));
      Write(s);
    }

    method WriteFilter(filter: Filter)
      modifies this
      ensures buffer == old(buffer) + FilterBytes(filter)
    {
      hide Text, Flag;
      WriteText(filter.text);
      Write(Flag(filter.invert));
    }

    method WriteSequence(sequence: KeySequence)
      modifies this
      ensures buffer == old(buffer) + Sequence(sequence)
    {
      hide Event, Size;
      Write(Size(|sequence|));
      var i := 0;
      assert sequence[0..] == sequence;
      while i < |sequence|
        invariant i <= |sequence|
        invariant buffer + EventBytes(sequence[i..]) == old(buffer) + Sequence(sequence)
      {
        assert sequence[i..][1..] == sequence[i + 1..];
        ghost var rest := EventBytes(sequence[i + 1..]);
        assert buffer + (Event(sequence[i]) + rest) == buffer + Event(sequence[i]) + rest;
        Write(Event(sequence[i]));
        i := i + 1;
      }
      assert sequence[i..] == [];
    }

    method WriteInputs(inputs: seq<Input>)
      requires forall i :: 0 <= i < |inputs| ==> Is32Bit(inputs[i].outputIndex)
      modifies this
      ensures buffer == old(buffer) + (Size(|inputs|) + Inputs(inputs))
    {
      hide Sequence, Size, Signed, Is32Bit;
      Write(Size(|inputs|));
      var i := 0;
      assert inputs[0..] == inputs;
      while i < |inputs|
        invariant i <= |inputs|
        invariant buffer + Inputs(inputs[i..]) == old(buffer) + (Size(|inputs|) + Inputs(inputs))
      {
        assert inputs[i..][1..] == inputs[i + 1..];
        ghost var x, y, rest := Sequence(inputs[i].input), Signed(inputs[i].outputIndex), Inputs(inputs[i + 1..]);
        assert buffer + (x + y + rest) == buffer + x + y + rest;
        WriteSequence(inputs[i].input);
        Write(Signed(inputs[i].outputIndex));
        i := i + 1;
      }
      assert inputs[i..] == [];
    }

    method WriteOutputs(outputs: seq<KeySequence>)
      modifies this
      ensures buffer == old(buffer) + (Size(|outputs|) + Sequences(outputs))
    {
      hide Sequence, Size;
      Write(Size(|outputs|));
      var i := 0;
      assert outputs[0..] == outputs;
      while i < |outputs|
        invariant i <= |outputs|
        invariant buffer + Sequences(outputs[i..]) == old(buffer) + (Size(|outputs|) + Sequences(outputs))
      {
        assert outputs[i..][1..] == outputs[i + 1..];
        ghost var x, rest := Sequence(outputs[i]), Sequences(outputs[i + 1..]);
        assert buffer + (x + rest) == buffer + x + rest;
        WriteSequence(outputs[i]);
        i := i + 1;
      }
      assert outputs[i..] == [];
    }

    method WriteCommands(commands: seq<CommandOutput>)
      requires forall i :: 0 <= i < |commands| ==> Is32Bit(commands[i].index)
      modifies this
      ensures buffer == old(buffer) + (Size(|commands|) + Commands(commands))
    {
      hide Sequence, Size, Signed, Is32Bit;
      Write(Size(|commands|));
      var i := 0;
      assert commands[0..] == commands;
      while i < |commands|
        invariant i <= |commands|
        invariant buffer + Commands(commands[i..]) == old(buffer) + (Size(|commands|) + Commands(commands))
      {
        assert commands[i..][1..] == commands[i + 1..];
        ghost var x, y, rest := Sequence(commands[i].output), Signed(commands[i].index), Commands(commands[i + 1..]);
        assert buffer + (x + y + rest) == buffer + x + y + rest;
        WriteSequence(commands[i].output);
        Write(Signed(commands[i].index));
        i := i + 1;
      }
      assert commands[i..] == [];
    }

    method WriteContext(c: ConfigContext)
      requires HasIntIndices(c)
      modifies this
      ensures buffer == old(buffer) + ContextBytes(c)
    {
      hide Flag, Size, Inputs, Sequences, Commands, FilterBytes, Sequence;
      hide MappingBytes, ConditionBytes;
      Write(Flag(c.beginStage));
      WriteMappings(c);
      WriteConditions(c);
    }

    method WriteMappings(c: ConfigContext)
      requires HasIntIndices(c)
      modifies this
      ensures buffer == old(buffer) + MappingBytes(c)
    {
      hide Size, Inputs, Sequences, Commands;
      WriteInputs(c.inputs);
      WriteOutputs(c.outputs);
      WriteCommands(c.commandOutputs);
    }

    method WriteConditions(c: ConfigContext)
      modifies this
      ensures buffer == old(buffer) + ConditionBytes(c)
    {
      hide Flag, FilterBytes, Sequence;
      WriteFilter(c.deviceFilter);
      WriteFilter(c.deviceIdFilter);
      WriteSequence(c.modifierFilter);
      Write(Flag(c.invertModifierFilter));
      Write(Flag(c.fallsThrough));
    }

    /** `write_contexts`. */
    method WriteContexts(contexts: seq<ConfigContext>)
      requires forall i :: 0 <= i < |contexts| ==> HasIntIndices(contexts[i])
      modifies this
      ensures buffer == old(buffer) + Written(contexts)
    {
      hide ContextBytes, Size, HasIntIndices;
      Write(Size(|contexts|));
      var i := 0;
      assert contexts[0..] == contexts;
      while i < |contexts|
        invariant i <= |contexts|
        invariant buffer + ContextsBytes(contexts[i..]) == old(buffer) + Written(contexts)
      {
        assert contexts[i..][1..] == contexts[i + 1..];
        ghost var x, rest := ContextBytes(contexts[i]), ContextsBytes(contexts[i + 1..]);
        assert buffer + (x + rest) == buffer + x + rest;
        WriteContext(contexts[i]);
        i := i + 1;
      }
      assert contexts[i..] == [];
    }
  }

  // ---------------------------------------------------------------------------
  // The deserializer

  class Deserializer {
    var buffer: Bytes
    var it: nat

    constructor (buffer: Bytes)
      ensures Valid() && this.buffer == buffer && it == 0
    {
      this.buffer, it := buffer, 0;
    }

    ghost predicate Valid()
      reads this
    {
      it <= |buffer|
    }

    ghost function Rest(): Bytes
      requires Valid()
      reads this
    {
      buffer[it..]
    }

    predicate CanRead(length: nat)
      reads this
    {
      it + length <= |buffer|
    }

    method ReadUint32() returns (n: int)
      requires Valid()
      modifies `it
      ensures Valid() && Read.Read(n, Rest()) == ReadNumber(old(Rest()))
    {
      n := 0;
      if CanRead(4) {
        assert Rest()[4..] == buffer[it + 4..];
        n := Short(buffer[it], buffer[it + 1]) + 0x1_0000 * Short(buffer[it + 2], buffer[it + 3]);
        it := it + 4;
      }
    }

    method ReadInt32() returns (n: int)
      requires Valid()
      modifies `it
      ensures Valid() && Read.Read(n, Rest()) == ReadSigned(old(Rest()))
    {
      n := ReadUint32();
      if n >= TWO_31 {
        n := n - TWO_32;
      }
    }

    method ReadBool() returns (b: bool)
      requires Valid()
      modifies `it
      ensures Valid() && Read.Read(b, Rest()) == ReadFlag(old(Rest()))
    {
      b := false;
      if CanRead(1) {
        assert Rest()[1..] == buffer[it + 1..];
        b := buffer[it] != 0;
        it := it + 1;
      }
    }

    method ReadKeyEvent() returns (e: KeyEvent)
      requires Valid()
      modifies `it
      ensures Valid() && Read.Read(e, Rest()) == ReadEvent(old(Rest()))
    {
      e := NO_EVENT;
      if CanRead(4) {
        assert Rest()[4..] == buffer[it + 4..];
        var bits := Short(buffer[it + 2], buffer[it + 3]);
        e := KeyEvent(Short(buffer[it], buffer[it + 1]), StateOf(bits % 16), bits / 16);
        it := it + 4;
      }
    }

    method ReadString() returns (s: Bytes)
      requires Valid()
      modifies `it
      ensures Valid() && Read.Read(s, Rest()) == ReadText(old(Rest()))
    {
      hide ReadNumber;
      var size := ReadUint32();
      s := Spaces(size);
      ghost var r := Rest();
      if size > 0 && CanRead(size) {
        assert r[..size] == buffer[it..it + size] && r[size..] == buffer[it + size..];
        s := buffer[it..it + size];
        it := it + size;
      } else if size == 0 {
        assert s == r[..0] && r[0..] == r;
      }
      assert Rest() == if |r| < size then r else r[size..];
    }

    method ReadOneFilter() returns (filter: Filter)
      requires Valid()
      modifies `it
      ensures Valid() && Read.Read(filter, Rest()) == ReadFilter(old(Rest()))
    {
      hide ReadText, ReadFlag;
      var text := ReadString();
      var invert := ReadBool();
      filter := Filter(text, invert);
    }

    method ReadKeySequence() returns (sequence: KeySequence)
      requires Valid()
      modifies `it
      ensures Valid() && Read.Read(sequence, Rest()) == ReadSequence(old(Rest()))
    {
      hide ReadNumber, ReadEvent;
      var size := ReadUint32();
      sequence := [];
      var i := 0;
      assert [] + ReadEvents(size, Rest()).value == ReadEvents(size, Rest()).value;
      while i < size
        invariant i <= size && Valid()
        invariant var behind := ReadEvents(size - i, Rest());
          ReadSequence(old(Rest())) == Read.Read(sequence + behind.value, behind.rest)
      {
        var event := ReadKeyEvent();
        ghost var behind := ReadEvents(size - i - 1, Rest());
        assert sequence + ([event] + behind.value) == sequence + [event] + behind.value;
        sequence := sequence + [event];
        i := i + 1;
      }
      assert sequence + [] == sequence;
    }

    method ReadStageInputs() returns (inputs: seq<StageInput>)
      requires Valid()
      modifies `it
      ensures Valid()
      ensures var count := ReadNumber(old(Rest())); Read.Read(inputs, Rest()) == ReadInputs(count.value, count.rest)
    {
      hide ReadNumber, ReadSequence, ReadSigned;
      var count := ReadUint32();
      ghost var start := Rest();
      inputs := [];
      var i := 0;
      assert [] + ReadInputs(count, start).value == ReadInputs(count, start).value;
      while i < count
        invariant i <= count && Valid()
        invariant var behind := ReadInputs(count - i, Rest());
          ReadInputs(count, start) == Read.Read(inputs + behind.value, behind.rest)
      {
        var input := ReadKeySequence();
        var index := ReadInt32();
        ghost var behind := ReadInputs(count - i - 1, Rest());
        assert inputs + ([StageInput(input, index)] + behind.value) == inputs + [StageInput(input, index)] + behind.value;
        inputs := inputs + [StageInput(input, index)];
        i := i + 1;
      }
      assert inputs + [] == inputs;
    }

    method ReadOutputs() returns (outputs: seq<KeySequence>)
      requires Valid()
      modifies `it
      ensures Valid()
      ensures var count := ReadNumber(old(Rest())); Read.Read(outputs, Rest()) == ReadSequences(count.value, count.rest)
    {
      hide ReadNumber, ReadSequence;
      var count := ReadUint32();
      ghost var start := Rest();
      outputs := [];
      var i := 0;
      assert [] + ReadSequences(count, start).value == ReadSequences(count, start).value;
      while i < count
        invariant i <= count && Valid()
        invariant var behind := ReadSequences(count - i, Rest());
          ReadSequences(count, start) == Read.Read(outputs + behind.value, behind.rest)
      {
        var output := ReadKeySequence();
        ghost var behind := ReadSequences(count - i - 1, Rest());
        assert outputs + ([output] + behind.value) == outputs + [output] + behind.value;
        outputs := outputs + [output];
        i := i + 1;
      }
      assert outputs + [] == outputs;
    }

    method ReadCommandOutputs() returns (commands: seq<CommandOutput>)
      requires Valid()
      modifies `it
      ensures Valid()
      ensures var count := ReadNumber(old(Rest())); Read.Read(commands, Rest()) == ReadCommands(count.value, count.rest)
    {
      hide ReadNumber, ReadSequence, ReadSigned;
      var count := ReadUint32();
      ghost var start := Rest();
      commands := [];
      var i := 0;
      assert [] + ReadCommands(count, start).value == ReadCommands(count, start).value;
      while i < count
        invariant i <= count && Valid()
        invariant var behind := ReadCommands(count - i, Rest());
          ReadCommands(count, start) == Read.Read(commands + behind.value, behind.rest)
      {
        var output := ReadKeySequence();
        var index := ReadInt32();
        ghost var behind := ReadCommands(count - i - 1, Rest());
        assert commands + ([CommandOutput(output, index)] + behind.value) == commands + [CommandOutput(output, index)] + behind.value;
        commands := commands + [CommandOutput(output, index)];
        i := i + 1;
      }
      assert commands + [] == commands;
    }

    method ReadStageContext() returns (c: StageContext)
      requires Valid()
      modifies `it
      ensures Valid() && Read.Read(c, Rest()) == ReadContext(old(Rest()))
    {
      hide ReadNumber, ReadInputs, ReadSequences, ReadCommands, ReadFilter, ReadSequence, ReadFlag;
      var inputs := ReadStageInputs();
      var outputs := ReadOutputs();
      var commands := ReadCommandOutputs();
      var deviceFilter := ReadOneFilter();
      var deviceIdFilter := ReadOneFilter();
      var modifierFilter := ReadKeySequence();
      var invert := ReadBool();
      var fallsThrough := ReadBool();
      c := StageContext(inputs, outputs, commands, deviceFilter, deviceIdFilter, modifierFilter, invert, fallsThrough);
    }

    /** `read_stages`. */
    method ReadAllStages() returns (stages: seq<seq<StageContext>>)
      requires Valid()
      modifies `it
      ensures Valid() && Read.Read(stages, Rest()) == ReadStages(old(Rest()))
    {
      hide ReadNumber, ReadFlag, ReadContext;
      stages := [];
      var contexts: seq<StageContext> := [];
      var count := ReadUint32();
      var i := 0;
      assert [] + ReadContexts(count, [], Rest()).value == ReadContexts(count, [], Rest()).value;
      while i < count
        invariant i <= count && Valid()
        invariant var behind := ReadContexts(count - i, contexts, Rest());
          ReadStages(old(Rest())) == Read.Read(stages + behind.value, behind.rest)
      {
        var beginStage := ReadBool();
        if beginStage && contexts != [] {
          var context := ReadStageContext();
          ghost var behind := ReadContexts(count - i - 1, [context], Rest());
          assert stages + ([contexts] + behind.value) == stages + [contexts] + behind.value;
          stages := stages + [contexts];
          contexts := [context];
        } else {
          var context := ReadStageContext();
          contexts := contexts + [context];
        }
        i := i + 1;
      }
      if contexts != [] {
        stages := stages + [contexts];
      } else {
        assert stages + [] == stages;
      }
    }
  }
}
