# keymapper, verified

A Dafny model of the platform independent part of keymapper: what a
configuration compiles to, what the runtime does with input events, and how
both sides talk to each other. The theorems are about all configurations, inputs
and runs; where one needs a condition, the condition is named below.

`dafny verify dfyconfig.toml` checks the project.

## The parts

| file | what it models |
|---|---|
| `Keys.dfy` | keys, key events and key sequences |
| `Matcher.dfy`, `MatcherTheorems.dfy`, `HeldKeys.dfy` | `MatchKeySequence`: the loop, what it accepts, and what keys mean that are down already |
| `Compiler.dfy`, `CompilerTheorems.dfy`, `CompiledOutputs.dfy`, `Timeouts.dfy`, `OutputBalance.dfy`, `BareMark.dfy` | `ParseKeySequence`: the expression compiler from tokens on, what inputs, outputs and timeouts compile to and mean, how outputs are balanced, and which inputs end up without a key |
| `Outputs.dfy`, `Ledger.dfy`, `LedgerRuns.dfy`, `VirtualKeys.dfy`, `OutputTheorems.dfy` | the output side of a stage: `m_output_down` and the output buffer, what keeps keys from getting stuck, and what each output does |
| `InputSequence.dfy`, `History.dfy` | `m_sequence` and `m_history` of a stage |
| `Contexts.dfy`, `Mappings.dfy` | which contexts are active, which mapping is selected, which output that means |
| `Stage.dfy`, `StageModel.dfy` | the stage state machine: a class that updates all of this in place, and the functions of the old state which its methods are proved against |
| `InputTheorems.dfy`, `Remapping.dfy`, `HeldBack.dfy` | what single inputs and whole runs do: no press matches again on its release, remapped keys come out as typed, and a held back output can stay |
| `Lowering.dfy`, `LoweringTheorems.dfy`, `LoweredInputs.dfy`, `ContextPasses.dfy`, `ConfigParser.dfy` | `ParseConfig`: contexts, mappings and commands while they are parsed, and the passes after that |
| `SendQueue.dfy`, `ServerState.dfy` | `ServerState`: translating input, and flushing a buffer that grows meanwhile |
| `MultiStage.dfy` | `MultiStage`: stages in a row |
| `Wire.dfy`, `Framing.dfy` | the bytes of a configuration, and messages in a stream |
| `EndToEnd.dfy` | what the compilers guarantee is what the stages rely on |

Code that changes things step by step is a class whose methods change the same
fields in the same order. Each such method is proved against a function of the
old state; the functions are what the theorems are about.

What is not decided by the code modelled here is a parameter, so the theorems
hold for every value of it: the time since the last event, the answers of the
stages to the server, whether the system takes an event, which keys are down
when the state is validated, which devices a filter matches, the keys that
names stand for, and whether the client's windows match.

## What is false, and when it holds

* Rejecting a sequence is final for every expression without `?`
  (`NoMatchIsIrrevocable`). With `?` in front it is final if and only if what
  follows cannot be matched directly by an event of a history: `? (A B)` and
  `? !A B` reject for good, while `? A` rejects B and then accepts B A
  (`MarkedRejectionsFinalIff`).
* An output with `^` can release behind `^` a key that it pressed before it:
  `A !B ^ C C` does (`NotKeyHoldsKeyAcrossRelease`). All second halves are fine
  exactly when no key is held at `^` (`BalancedBehindReleaseIffNothingHeld`), and
  no key is held there when no `!` directly follows a key
  (`NothingHeldWithoutNotBehindKey`).
* The output ledger keeps keys from getting stuck when outputs release only what
  they pressed, or when nothing is in the output buffer while "suppressed" is
  cleared (`NoStuckKeys`). The runtime does not ensure the latter: what waits
  behind `^` for a release, and what contexts output, comes before
  (`src/runtime/Stage.cpp:456` and `:518`, before `:538`). With two outputs which
  the compiler accepts a key then gets stuck (`UnbalancedReleaseSticks`,
  `StickingOutputsAreCompiled`). For a single release `ReleaseKeepsIff` is the
  exact condition.
* Context notifications take turns if and only if no client context overtakes
  another one by falling through (`RunTakesTurnsIff`,
  `StageNotificationsTakeTurns`). Without device filters none does; with them one
  can, and then a context is notified twice in a row (`DeviceFiltersBreakTurns`).
* A press can be applied by two matches that need it: A matches `A >> X`, and while
  it is held B completes `A{B} >> Y` (`PressMatchesTwice`). Once what matched before
  is optional, it counts only for inputs that name its key, or have `!`, `?` or Any
  (`UnnamedKeyIsIgnored`). The release of a key finds a press of it if and only if
  the sequence is held back (`ReleasedPressIsSearchedIff`), and over every run no
  more outputs and forwarded events come out than events came in (`ActionsOfRun`).
* An output is held by a key that is down, or by the current event, unless it is one
  event that waited until its own key was released (`OutputIsHeldBy`). Then it can
  outlive that key: with `A B >> Y` and `A >> A`, tapping A and then C leaves A
  output, with nothing pressed (`HeldBackOutputSticks`).
* Validating the state after all keys went up does not release all outputs: with
  `A >> X` it leaves X down (`RemappedOutputSticks`), as it processes the release of
  X, which only releases what X itself holds. For remapped keys it releases all
  outputs if and only if every held key is the output of a held key
  (`ValidationReleasesAllIff`).
* An accepted input can be `?` alone, exactly if it was written `? ContextActive`
  or `? !ContextActive` (`BareMarkIffContextActive`). The stage is modelled for
  inputs that have an event behind `?`, as its clean-up of the history takes the
  `?` off and asserts that something is left.

Where the comment at `src/config/ParseKeySequence.h:16-39` and the code differ,
the model follows the code: every pressed key is also followed by its `~K`, also
at the end and in groups, so `(A B)` is `*A *B +A +B ~A ~B` and `A{B}` is
`+A +B ~B ~A`.

A key event of `Key::none` is never added to the history: the clean-up of the
history is modelled for the events of the input, and none of them has that key.

## Model

| member | source | states |
|---|---|---|
| Matcher.MatchKeySequence.Match | src/runtime/MatchKeySequence.cpp:58-242 | the loop over both cursors, which updates the pending async events, the forbidden keys and the ignored releases in place, computes the verdict, the keys unified with Any and the timeout to wait for, for every expression and sequence |
| Matcher.MatchKeySequence.Round | src/runtime/MatchKeySequence.cpp:76-127 | one round of the loop: forbidden keys, async and `!` events, direct matches and timeouts |
| Matcher.MatchKeySequence.RoundIndirect | src/runtime/MatchKeySequence.cpp:129-160 | one round without a direct match: `?`, async events of the sequence and matched events |
| Matcher.MatchKeySequence.RoundAsync | src/runtime/MatchKeySequence.cpp:162-184 | one round in which an expression event is compared with the async events |
| Matcher.MatchKeySequence.RoundSurplus | src/runtime/MatchKeySequence.cpp:186-238 | one round with surplus timeouts, history timings, ignored events of the history, or the end |
| Matcher.Step | src/runtime/MatchKeySequence.cpp:76-239 | the cursors stay in range and every round that continues comes closer to the end |
| MatcherTheorems.StepIgnoresLaterInput | src/runtime/MatchKeySequence.cpp:76-239 | a round that is not at the end of the sequence does the same on every extension of the sequence |
| MatcherTheorems.NoMatchIsIrrevocable | src/runtime/MatchKeySequence.cpp:76-241 | without `?`, what is rejected is rejected whatever follows |
| MatcherTheorems.PrefixOfMatchMightMatch | src/runtime/MatchKeySequence.cpp:76-241 | so every non-empty prefix of a matching sequence matches or might match: nothing that is held back for a match is given up too early |
| MatcherTheorems.MarkedRejectionsFinalIff | src/runtime/MatchKeySequence.cpp:76-241 | with `?` in front a rejection is final if and only if nothing that comes next in the expression can be matched directly by an event of a history: nothing comes, or an async event, a `!`, a timeout, the release of Any, or a key no history has; in all other cases one press of another key is rejected, and no longer once the key follows |
| MatcherTheorems.NeverBegins | src/runtime/MatchKeySequence.cpp:213-224 | an expression which no event can begin rejects every history |
| MatcherTheorems.TogetherAcceptsAnyOrder | src/runtime/MatchKeySequence.cpp:93-184 | for distinct device keys `(k1 ... kn)` matches distinct presses exactly when they are a permutation of the keys, might match exactly when some are missing, and rejects everything else |
| MatcherTheorems.SuccessiveKeysInOrder | src/runtime/MatchKeySequence.cpp:111-151 | `k1 ... kn` matches exactly when the presses are the keys in order, whatever the releases do, and might match exactly for proper prefixes of that |
| MatcherTheorems.HeldKeysStayDown | src/runtime/MatchKeySequence.cpp:111-184 | `k1{k2{...kn}}` matches exactly when in addition no key is released before the last press |
| HeldKeys.NotMeansNotPressed | src/runtime/MatchKeySequence.cpp:87-109 | what `!K` means at any place of any expression that does not press K further on: a sequence that matches has no press of K behind what is read up to there, whether the press matched before or not |
| HeldKeys.NotKeyBeforeSuccessive | src/runtime/MatchKeySequence.cpp:87-109 | `!a k1 ... kn` for every n and every typing while any other keys are held: rejected as soon as a is or gets pressed, and otherwise the verdict of `k1 ... kn` |
| HeldKeys.TapVerdict | src/runtime/MatchKeySequence.cpp:111-184 | `K` while other keys are held, or K itself is: it matches exactly the press of K, when nothing is held or what matched before is optional |
| HeldKeys.UnnamedKeyIsIgnored | src/runtime/MatchKeySequence.cpp:143-151 | when what matched before is optional, a held key makes no difference to the verdict, the keys unified with Any or the timeout of an input that does not name it, nor Any, `!` or `?`; a virtual key never does |
| HeldKeys.PressMatchesTwice | src/runtime/MatchKeySequence.cpp:111-184 | for an input that names it, a press can count again: the press of A matches `A`, and with B also `A{B}`, which B alone does not match |
| HeldKeys.AnyMatchesKeyboard | src/runtime/MatchKeySequence.cpp:20-34 | `Any` matches the press of every key of a keyboard and of nothing else, and reports it |
| HeldKeys.ReleaseOfAny | src/runtime/MatchKeySequence.cpp:103-112 | `Any !Any` demands the release of the key that was matched, and no other |
| HeldKeys.AnySkipsMatched | src/runtime/MatchKeySequence.cpp:40-48 | a press that matched before is not matched by Any again but skipped, also when what matched before is not optional |
| HeldKeys.GroupKeyMayBeDown | src/runtime/MatchKeySequence.cpp:172-184 | `A (A B)` matches the press of A and then that of B, without a release of A in between |
| Compiler.ParseKeySequence.Parse | src/config/ParseKeySequence.cpp:344-530 | the compiler from tokens on, which updates its sequence, key buffer and pressed keys in place, computes the function `Compile`: the same events and the same errors |
| Compiler.ParseKeySequence.ParseToken | src/config/ParseKeySequence.cpp:350-509 | what one symbol, key name or timeout does, with all its error conditions |
| Compiler.ParseKeySequence.FlushKeyBuffer | src/config/ParseKeySequence.cpp:91-111 | buffered keys are pressed in order, and released at once or added to the pressed keys |
| Compiler.ParseKeySequence.ReleasePressedKeys | src/config/ParseKeySequence.cpp:113-125 | pressed keys are released last first down to the given number, and virtual keys of outputs suppressed |
| Compiler.ParseKeySequence.SyncAfterNotTimeout | src/config/ParseKeySequence.cpp:127-140 | an Up is appended for each async release behind the last not-timeout |
| Compiler.ParseKeySequence.RemoveFromPressedKeys | src/config/ParseKeySequence.cpp:83-89 | the keys are removed from the pressed ones, which keep their order |
| Compiler.ParseKeySequence.RemoveAllFromEnd | src/config/ParseKeySequence.cpp:150-154 | the longest prefix that does not end in the state |
| Compiler.ParseKeySequence.AddTimeoutEvent | src/config/ParseKeySequence.cpp:174-201 | a timeout is merged with the one before it or added, in the state that says what cancels it, or is an error |
| Compiler.ParseKeySequence.AddNotKey | src/config/ParseKeySequence.cpp:364-378 | what `!K` adds: a release, or the demand that the key is up |
| Compiler.ParseKeySequence.EndModifiedGroup | src/config/ParseKeySequence.cpp:472-483 | `}` releases exactly the keys of its group |
| Compiler.ParseKeySequence.FinishSequence | src/config/ParseKeySequence.cpp:511-529 | trailing releases, a final `!`, the errors for open groups and for sequences without a key, and ContextActive |
| CompilerTheorems.CompileTogether | src/config/ParseKeySequence.cpp:438-457 | `(k1 ... kn)` compiles to `*k1 ... *kn +k1 ... +kn ~k1 ... ~kn` |
| CompilerTheorems.CompileSuccessive | src/config/ParseKeySequence.cpp:91-111 | `k1 ... kn` compiles to `+k1 ~k1 ... +kn ~kn` |
| CompilerTheorems.CompileHeld | src/config/ParseKeySequence.cpp:458-483 | `k1{k2{...kn}}` compiles to `+k1 ... +kn ~kn ... ~k1` |
| CompilerTheorems.CompileNot | src/config/ParseKeySequence.cpp:364-378 | `k1 ... kn !a r1 ... rm` for all n and m: right behind a `!a` is the release of a, and so it is at the end and when a came before; otherwise it demands that a is up |
| CompilerTheorems.CompileNotBefore | src/config/ParseKeySequence.cpp:364-378 | `!a k1 ... kn` compiles to `!a +k1 ~k1 ... +kn ~kn` |
| CompilerTheorems.CompileNotInGroup | src/config/ParseKeySequence.cpp:364-378 | `a{!b k1 ... kn}`: in a group `!b` is the release of b |
| CompilerTheorems.CompiledInputsMean | src/config/ParseKeySequence.cpp:344-530 | from the tokens to the verdict: what the three kinds of input accept, for every number of keys and every typing, and what `!a k1 ... kn` accepts while any keys are held |
| CompiledOutputs.CompileTaps | src/config/ParseKeySequence.cpp:91-111 | an output of several keys taps them one after the other; that of one key presses it, and leaves the release to the input |
| CompiledOutputs.CompileTogetherOutput | src/config/ParseKeySequence.cpp:438-457 | the output `(k1 ... kn)` presses the keys and leaves their releases to the input |
| CompiledOutputs.CompileAround | src/config/ParseKeySequence.cpp:458-483 | the output `k{k1 ... kn}` holds k around the others, and resets k if it is virtual |
| CompiledOutputs.CompileCommand | src/config/ParseKeySequence.cpp:400-418 | a command presses the action key it was given |
| Timeouts.TimeoutMeans | src/config/ParseKeySequence.cpp:174-201 | from the tokens to the verdict, for every key and duration: after the press of k the inputs `k 100ms`, `k{100ms}`, `k !100ms` and `k{!100ms}` ask for the timeout; the next press cancels it, in a group the next release as well; the time that is reported matches exactly when it is at least the duration, or with `!` less than that; `k{!100ms}` also demands the release |
| Timeouts.TimeoutsAddUp | src/config/ParseKeySequence.cpp:174-201 | timeouts in a row compile to one, with their sum as far as 12 bits go |
| Timeouts.HistoryTimesAddUp | src/runtime/MatchKeySequence.cpp:186-200 | in a history the times between events add up: `? a 100ms b` matches when a was tapped and then b pressed, exactly if the times before b are at least the duration |
| OutputBalance.OutputWithoutReleaseIsBalanced | src/config/ParseKeySequence.cpp:83-125 | every accepted output without `^` releases only keys which it pressed before |
| OutputBalance.OutputHalves | src/config/ParseKeySequence.cpp:420-428 | the halves around `^`: the first one is balanced, and the second one releases what it pressed itself or what was held at `^` |
| OutputBalance.BalancedBehindReleaseIffNothingHeld | src/config/ParseKeySequence.cpp:420-428 | for every first half: all accepted second halves are balanced if and only if no key is held at `^` |
| OutputBalance.OutputIsBalancedIfNothingIsHeld | src/config/ParseKeySequence.cpp:420-428 | then the whole output is balanced |
| OutputBalance.NotKeyHoldsKeyAcrossRelease | src/config/ParseKeySequence.cpp:364-378 | a key can be held there: `A !B ^ C C` is accepted and releases A in the half that did not press it |
| OutputBalance.NothingHeldWithoutNotBehindKey | src/config/ParseKeySequence.cpp:91-125 | nothing is held at `^` when no `!` of a key that is not virtual follows a key directly |
| OutputBalance.GroupStackMatchesOpenGroups | src/config/ParseKeySequence.cpp:458-483 | the stack of group marks always has as many entries as there are open `{` |
| EndToEnd.CompiledOutputIsValid | src/config/ParseKeySequence.cpp:344-530 | accepted outputs consist of presses, releases, `!` and a `^` without key, so the stage has a case for every event |
| EndToEnd.CompiledOutputIsLowerable | src/config/ParseKeySequence.cpp:83-125 | an accepted output without `^` is balanced as well |
| EndToEnd.CompiledReleaseIsLowerable | src/config/ParseKeySequence.cpp:420-428 | and so is one with `^`, if no key is held there |
| EndToEnd.StickingOutputsAreCompiled | src/config/ParseKeySequence.cpp:344-530 | what `K ^ !K K` and `K K !C ^` compile to: the second one releases K behind `^` only |
| BareMark.BareMarkIffContextActive | src/config/ParseKeySequence.cpp:332-530 | an accepted input is `?` alone, without any event, if and only if its tokens were `? ContextActive` or `? !ContextActive`, apart from braces, parentheses that enclose nothing and a comment |
| BareMark.BareMarkIsAccepted | src/config/ParseKeySequence.cpp:332-342 | both are accepted |
| BareMark.NextGrows | src/config/ParseKeySequence.cpp:350-509 | every token of an input adds to what was read: no key is lost, and the order in which keys came first in is kept |
| BareMark.MarkedInputHasNoVirtualKey | src/config/ParseKeySequence.cpp:511-529 | an accepted input with `?` has no virtual key |
| EndToEnd.CompiledInputIsProperIff | src/config/ParseKeySequence.cpp:511-529 | so an accepted input is one the stages work with, unless it is one of these |
| LedgerTheorems.UpdateKeeps | src/runtime/Stage.cpp:841-947 | every single output event keeps the invariant of `m_output_down`: a key whose last emitted event is a press has exactly one entry, which is not temporarily released, although events are erased from the buffer retroactively |
| LedgerTheorems.ApplyKeeps | src/runtime/Stage.cpp:752-785 | so does every output, with `!Any`, virtual keys and `^` |
| LedgerTheorems.ReleaseKeeps | src/runtime/Stage.cpp:727-750 | so does the release of what an input held |
| LedgerTheorems.BalancedIsReleasable | src/runtime/Stage.cpp:845-873 | in an output that releases only what it pressed no release erases an event twice |
| LedgerTheorems.ReleasedInReverseOrder | src/runtime/Stage.cpp:727-750 | after the release of an input nothing is held by it any more, and what it held is released in reverse order of pressing |
| LedgerRuns.NoStuckKeys | src/runtime/Stage.cpp:727-947 | over every run of outputs, releases and hand-outs in which outputs are balanced, or the buffer is empty whenever "suppressed" is cleared: a key whose last emitted event is a press has exactly one entry and is not temporarily released, so with no entries every key is up |
| LedgerRuns.NoStuckKeysIfNothingComesBefore | src/runtime/Stage.cpp:447-703 | the second condition holds for calls that output nothing before they clear "suppressed" |
| LedgerRuns.ReleaseKeepsIff | src/runtime/Stage.cpp:845-873 | the exact condition on one release: it keeps the invariant if and only if it erases nothing that was released before, or does not leave the key down by what it erases |
| LedgerRuns.UnbalancedReleaseSticks | src/runtime/Stage.cpp:447-703 | with the outputs `K ^ !K K` and `K K !C ^`, four calls that each hand out everything leave K down without an entry: the release behind `^` of a context that gets inactive erases a release which was output before "suppressed" was cleared |
| LedgerRuns.ReleasedWhileApplied | src/runtime/Stage.cpp:752-785 | once an output processed `!K` or `!Any`, K is up and stays up until the output ends or presses K itself, although every other press applies temporarily released keys again |
| OutputTheorems.PressIsDown | src/runtime/Stage.cpp:889-937 | after the press of an output key it is down and held by an entry that is not temporarily released; the one exception takes back the release of a common modifier that was not handed out yet |
| OutputTheorems.ReleaseIsUp | src/runtime/Stage.cpp:846-873 | after the release of an output key it is up, unless it was pressed twice; its entry is removed by the trigger that holds it |
| OutputTheorems.SuppressionEnds | src/runtime/Stage.cpp:538-550 | with every input, what `!K` suppressed may be pressed again, but common modifiers stay suppressed as long as one is output |
| VirtualKeys.VirtualKeyParity | src/runtime/Stage.cpp:787-808 | whether a virtual key is set is the parity of its presses in sequence and buffer: a press sets it without toggling and flips it with toggling, `!V` resets it, a release leaves it; at most one press is added |
| VirtualKeys.VirtualKeyEmits | src/runtime/Stage.cpp:787-808 | what one event of a virtual key emits is exactly that change, for every ledger: nothing when there is nothing to change, otherwise one press, with a release before it if the key is pressed anew, and for `!V` a release behind it; all else is presses of temporarily released keys |
| VirtualKeys.VirtualKeyIsSet | src/runtime/Stage.cpp:787-808 | so the output of a virtual key that nothing holds emits its press alone, unless it is set and does not toggle |
| OutputTheorems.OutputIsHeldBy | src/runtime/Stage.cpp:641-666 | an output is held by the last key of its input, or by the current event for Any and for outputs with `^`, or by the last pressed key when a timeout matched, whenever that is down, and by the current event otherwise; except for an output that is the event which would hold it, whose release still waits |
| HeldBack.HeldBackOutputSticks | src/runtime/Stage.cpp:641-673 | that exception lets an output outlive its key: with `a b >> y` and `a >> a`, after a was tapped and then c, nothing is down and the sequence is empty, but a is output and held by a, whose release the match took |
| OutputTheorems.RestIsOutputOnRelease | src/runtime/Stage.cpp:705-785 | of an output `a ^ b` a is applied at once, and b exactly when the key that triggered it is released, not on the release of another key; after that nothing waits |
| OutputTheorems.InactiveContextHoldsNothing | src/runtime/Stage.cpp:280-298 | when a context gets inactive nothing is held by its ContextActive and nothing waits for that any more; what other keys and contexts hold stays |
| StageMachine.Stage.UpdateOutput | src/runtime/Stage.cpp:841-947 | the in-place update of entries and buffer for one event is the ledger function |
| StageMachine.Stage.ReleaseOutput | src/runtime/Stage.cpp:846-873 | a release: of an entry pressed twice, a suppressed one or the one of another input |
| StageMachine.Stage.SuppressOutput | src/runtime/Stage.cpp:875-888 | `!K`: the entry is released temporarily and suppressed |
| StageMachine.Stage.PressOutput | src/runtime/Stage.cpp:889-937 | a press: temporarily released keys are applied again, and the entry is added or marked |
| StageMachine.Stage.UpdateVirtualKey | src/runtime/Stage.cpp:787-808 | virtual keys are toggled by the presses counted in sequence and buffer |
| StageMachine.Stage.ApplyOutput | src/runtime/Stage.cpp:752-785 | the loop over an output is the ledger function for whole outputs |
| StageMachine.Stage.ReleaseTriggered | src/runtime/Stage.cpp:727-750 | the backward loop over the entries is the ledger function for releases |
| StageMachine.Stage.ContinueOutputOnRelease | src/runtime/Stage.cpp:705-725 | all that waits behind `^` for the released key is applied in the order it was added, and the rest waits on in order; repeats of the key are swallowed and change nothing |
| InputSequence.FinishKeeps | src/runtime/Stage.cpp:949-973 | finishing a prefix keeps the sequence invariant: only Down, DownMatched, Up and matched timeouts, and a release between two presses of a key |
| InputSequence.ForwardKeeps | src/runtime/Stage.cpp:810-839 | so does forwarding the beginning |
| InputSequence.InputKeeps | src/runtime/Stage.cpp:475-509 | so does taking in any event, with the merging of repeats |
| InputSequence.ValidatedKeeps | src/runtime/Stage.cpp:356-365 | so does validation |
| InputSequence.FinishProgress | src/runtime/Stage.cpp:949-973 | finishing a prefix with an Up or Down makes the sequence lighter, counting events and Up and Down events |
| InputSequence.ForwardProgress | src/runtime/Stage.cpp:810-839 | forwarding always makes it lighter as long as there is an Up or Down |
| InputSequence.FinishedAll | src/runtime/Stage.cpp:949-973 | finishing the whole sequence leaves no Up or Down |
| StageMachine.Stage.FinishSequence | src/runtime/Stage.cpp:949-973 | the loop with its erasures is the function `Finish` |
| StageMachine.Stage.ForwardFromSequence | src/runtime/Stage.cpp:810-839 | what remains of the sequence, and what is output: the press of the first unsettled key, held by itself, unless a timeout matched and no release follows; or the releases of what a released key holds |
| StageMachine.Stage.MergeKeyRepeat | src/runtime/Stage.cpp:475-506 | exactly which repeats are ignored: all while the sequence might match, and those of a device that neither pressed nor repeated last; the others replace the press before them; and which devices are tracked then |
| InputTheorems.RepeatsComeFromOneDevice | src/runtime/Stage.cpp:475-506 | while a key is down, repeats of the device that pressed it are taken unless the sequence might match, and those of other devices are ignored, except for the one that repeated last |
| InputTheorems.IgnoredChangesNothing | src/runtime/Stage.cpp:455-509 | an ignored event leaves sequence, history and output as they were, any other one ends the sequence |
| InputSequence.MatchedTimeoutsGone | src/runtime/Stage.cpp:692-695 | exactly the matched timeouts in front of the sequence are removed at the end of an input |
| History.EventsAlternate | src/runtime/Stage.cpp:979-999 | in a history with the invariant two neighbouring events of a key are a press and a release |
| History.FirstEvent | src/runtime/Stage.cpp:979-999 | and its first event is a press, unless the key is a common modifier |
| History.AddKeeps | src/runtime/Stage.cpp:979-999 | adding any event keeps the invariant, also when it is a duplicate |
| History.CleanUpKeeps | src/runtime/Stage.cpp:1015-1057 | the clean-up keeps it, and leaves a history that is empty or begins with a press |
| History.PressGone | src/runtime/Stage.cpp:1036-1055 | the release that is erased together with the press at the front exists |
| InputTheorems.HistoryIsRecorded | src/runtime/Stage.cpp:512-516 | events of devices are recorded if and only if some input has a `?`, except for those that repeat the state of their key, so the history knows which keys are down |
| InputTheorems.HistoryIsKept | src/runtime/Stage.cpp:1015-1057 | a history that begins with a press is kept as a whole while an input with `?` of an active context might still match it |
| InputTheorems.HistoryIsShortened | src/runtime/Stage.cpp:1015-1057 | otherwise the press at its front goes together with its release, and the next one is up for the same decision |
| StageMachine.Stage.AddHistoryEvent | src/runtime/Stage.cpp:979-999 | the in-place version |
| StageMachine.Stage.CleanUpHistory | src/runtime/Stage.cpp:1015-1057 | the loop, whose assertions hold and which ends |
| Contexts.Fallthrough | src/runtime/Stage.cpp:310-314 | the end of the chain, in bounds, with only falling through contexts before it |
| Contexts.InOrderWithoutDeviceFilters | src/runtime/Stage.cpp:230-250 | without device filters no context overtakes a later one |
| Contexts.ActivateIncreases | src/runtime/Stage.cpp:230-250 | then the active contexts are strictly increasing |
| Contexts.ActiveIff | src/runtime/Stage.cpp:220-250 | a context is active if and only if a client context stands for it, its devices are not empty, and its modifier filter is met, or not met when inverted: every modifier without `!` has an event in the sequence, and none with `!` has |
| Contexts.NotificationsAreDifferences | src/runtime/Stage.cpp:252-279 | the two passes of the merge notify exactly those that are active no longer, then exactly those that were not active before |
| Contexts.NotificationsTakeTurns | src/runtime/Stage.cpp:252-279 | over every run of any lists, also unsorted ones: a context that is listed at most once in the beginning is told Down, Up, Down, ... in turns if and only if it is never listed twice, and then it was last told whether it is active in the end |
| Contexts.AllTakeTurnsIffDistinct | src/runtime/Stage.cpp:252-279 | so all contexts are notified in turns if and only if no list repeats one |
| Contexts.ActivatesDistinctIff | src/runtime/Stage.cpp:230-250 | a list repeats no context if and only if no client context whose filters pass stands between two others which stand for the same context, for which it does not stand itself |
| Contexts.RunTakesTurnsIff | src/runtime/Stage.cpp:230-279 | both together, for every run from no active context |
| Contexts.DeviceFiltersBreakTurns | src/runtime/Stage.cpp:230-250 | an instance with a device filter in which that fails: a context is listed, and told about its activation, twice in a row |
| StageMachine.Stage.EvaluateContexts | src/runtime/Stage.cpp:230-250 | the loop over the client contexts computes the active ones |
| StageMachine.Stage.NotifyToggled | src/runtime/Stage.cpp:252-298 | one pass over both lists notifies the differences, and outputs what each notification means |
| StageMachine.Stage.UpdateActiveContexts | src/runtime/Stage.cpp:230-298 | both passes in order: the notifications, and the output they lead to, of ContextActive mappings, of what waits behind `^` in them, and of what they hold |
| StageMachine.Stage.FallthroughContext | src/runtime/Stage.cpp:310-314 | the loop along the chain |
| StageMachine.Stage.SetActiveClientContexts | src/runtime/Stage.cpp:204-218 | the whole new state, as the function `AfterContexts`: the new contexts are active, exactly the output of the notifications is handed out, and of what waits behind `^` exactly the outputs of active contexts are kept, in order |
| StageMachine.Stage.CancelInactiveOutputOnRelease | src/runtime/Stage.cpp:300-308 | what waits behind `^` in an inactive context is erased without being output; the rest keeps its order |
| OutputTheorems.WaitsOnIff | src/runtime/Stage.cpp:300-308 | what waits behind `^` goes on waiting if and only if its context is active or an active context falls through to it |
| StageMachine.StageNotificationsTakeTurns | src/runtime/Stage.cpp:230-279 | in every reachable state of a stage the contexts were told Down and Up in turns if and only if at no activation a client context overtook another, and then each was last told whether it is active now |
| StageMachine.WithoutDeviceFiltersTakesTurns | src/runtime/Stage.cpp:230-279 | so they were in a stage without device filters |
| Mappings.SortedSorts | src/runtime/Stage.cpp:57-66 | the sorted command outputs are a permutation in descending order |
| Mappings.LowerBound | src/runtime/Stage.cpp:375-393 | the reversed binary search finds the boundary |
| Mappings.FindCommandRefinesScan | src/runtime/Stage.cpp:375-393 | the binary search in the sorted outputs finds what a linear scan of the configuration finds: the output of the last active context that maps the command, or none exactly if none does |
| StageModel.CommandsAreFound | src/runtime/Stage.cpp:375-393 | in every configuration the stages work with commands differ within a context, so that is what they find |
| StageMachine.Stage.FindOutputOf | src/runtime/Stage.cpp:375-393 | the loop over the active contexts, backwards, with the binary search |
| Mappings.SelectsFirst | src/runtime/Stage.cpp:395-440 | the selected mapping is the first one, in the order of the active contexts and their inputs, that matches and has an output, or might match; nothing is selected exactly when there is none |
| Mappings.SelectedMeans | src/runtime/Stage.cpp:395-440 | a match means that the mapping matches and its output exists |
| Mappings.DeviceDecides | src/runtime/Stage.cpp:404-411 | a single active context is searched exactly for events of its devices: of any if it has no filter, and for events that stand for all devices |
| Mappings.MarkedIsMatchedWithHistory | src/runtime/Stage.cpp:416-432 | an input with `?` is matched with the history alone, in the first search, and not for events that stand for all devices |
| Mappings.LongestPrefixIsLongest | src/runtime/Stage.cpp:577-593 | the fallback selects the longest proper prefix which still has an Up or Down and matches something, or none exactly if none does |
| StageModel.DecisionIsLongestPrefix | src/runtime/Stage.cpp:555-593 | so when nothing matches the held back sequence as a whole, the round applies the first mapping of that prefix |
| StageMachine.Stage.MatchInput | src/runtime/Stage.cpp:395-440 | the nested loops compute the selection |
| StageMachine.Stage.FindLongestPrefix | src/runtime/Stage.cpp:577-593 | the loop that drops the last event computes it |
| StageMachine.Stage.constructor | src/runtime/Stage.cpp:150-156 | a stage for a configuration with sound chains and indices, outputs it has cases for, no input that is `?` alone and distinct commands, as parsing leaves it, starts in a valid state, also when outputs release what they did not press |
| StageMachine.Stage.ProcessRound | src/runtime/Stage.cpp:555-683 | one round, for every timeout: the decision is carried out on sequence and output, except for a match which the timeout drops in favour of forwarding, exactly when it matched another output before and no virtual key changed; the round keeps all invariants and makes the sequence lighter, makes matched events optional, or is the last one |
| StageMachine.Stage.ConsiderTimeout | src/runtime/Stage.cpp:614-639 | exactly which matches a timeout drops, and when it forgets what it matched |
| StageMachine.Stage.SuppressTimeout | src/runtime/Stage.cpp:459-473 | a not-timeout remembers that it was exceeded, swallows other timeouts then, and forgets it when its trigger is released |
| Timeouts.NotTimeoutSwallows | src/runtime/Stage.cpp:459-473 | so after its time was exceeded exactly the timeouts with another duration are swallowed, over every run of events until its trigger is released, and none after that |
| Timeouts.UnmatchedSwallows | src/runtime/Stage.cpp:634-639 | so they are after nothing matched while the stage waited for a not-timeout |
| Timeouts.TimeoutIsRequested | src/runtime/Stage.cpp:595-606 | an input that waits for a timeout makes the stage output it, and remember it with the last pressed key |
| Timeouts.MatchedTimeoutDropsOthers | src/runtime/Stage.cpp:614-631 | after a timeout matched an output, further timeouts are not matched by other outputs, unless a virtual key changed, until another event matches nothing |
| Timeouts.VirtualOutputAllowsOthers | src/runtime/Stage.cpp:787-808 | an output that presses a virtual key lets other timeouts match again, one that presses a key does not |
| Timeouts.ReleaseEndsTimeout | src/runtime/Stage.cpp:746-749 | the release of the key that a timeout waits with ends it, that of another key does not |
| Timeouts.NothingIsForwardedLater | src/runtime/Stage.cpp:520-536 | after a timeout matched, a release finds all presses matched |
| Timeouts.PressAfterTimeout | src/runtime/Stage.cpp:810-839 | a press that matches nothing is not output after a timeout matched, unless its release follows already |
| StageMachine.Stage.ProcessSequence | src/runtime/Stage.cpp:555-683 | the loop ends, for every configuration, sequence and timeout policy, with nothing left to process or with a sequence that might match |
| StageMachine.Stage.ReleaseInSequence | src/runtime/Stage.cpp:520-536 | on a release: when a timeout matched all events count as matched, and the matched press of the key is erased unless the sequence is held back |
| StageMachine.Stage.ApplyInput | src/runtime/Stage.cpp:447-703 | the whole new state and what is emitted, as the function `AfterInput` of the old state; the event is fully processed or held back, all invariants hold again, and after a release nothing is held by the released key |
| StageModel.InputIsProcessed | src/runtime/Stage.cpp:447-703 | only presses and timeouts are ever ignored, and those leave the sequence as it was; after every other event nothing is left to process, or the sequence is held back |
| InputTheorems.ReleasedPressIsSearchedIff | src/runtime/Stage.cpp:520-536 | when a key is released, a press of it takes part in the search for mappings if and only if the sequence is held back and has one |
| InputTheorems.ReleaseMatchesWithoutPress | src/runtime/Stage.cpp:520-683 | so when nothing is held back, no round of a release searches a sequence with a press of the released key |
| InputTheorems.AtMostOneAction | src/runtime/Stage.cpp:555-683 | when nothing is held back, one event leads to at most one output or forwarded event |
| InputTheorems.ActionsOfRun | src/runtime/Stage.cpp:447-703 | over every run, the outputs that were applied and the events that were forwarded are never more than the events that came in |
| Remapping.InputIsReplaced | src/runtime/Stage.cpp:447-703 | in a stage with mappings `K1 >> X1`, `K2 >> X2`, ... one event hands out exactly itself with the key replaced, from whatever keys are held with different outputs |
| Remapping.TypingIsReplaced | src/runtime/Stage.cpp:447-703 | so over every run of presses and releases, of any number of keys at once, on any devices and at any times, the output is what was typed with the keys replaced |
| Remapping.OneMapping | src/runtime/Stage.cpp:447-703 | with the only mapping `k >> x` and nothing held, the press of k hands out the press of x, its release the release of x, and then nothing is held |
| Remapping.NewStageHoldsNothing | src/runtime/Stage.cpp:204-218 | a new stage is such a stage once the client set its context active |
| HeldBack.HeldBackIsReplaced | src/runtime/Stage.cpp:447-703 | with `a b >> y` the press of a is held back and outputs nothing; when b follows, y is output and nothing else, held by b, and nothing is held back any more |
| StageMachine.Stage.Update | src/runtime/Stage.cpp:345-349 | hands out what the event caused: the output and the new state are those of `AfterInput`; the record of everything emitted is kept |
| StageMachine.Stage.ValidateState | src/runtime/Stage.cpp:356-373 | keys that are not down are forgotten, and then exactly the releases of the output keys that they hold are processed, in order: the new state is `AfterInputs` of these releases |
| Remapping.ValidationReleases | src/runtime/Stage.cpp:356-373 | in a stage with mappings `K1 >> X1`, `K2 >> X2`, ... whose keys went up unnoticed, validating keeps exactly the outputs of held keys that are not outputs of held keys themselves |
| Remapping.ValidationReleasesAllIff | src/runtime/Stage.cpp:356-373 | so it releases all outputs if and only if every held key is the output of a held key |
| Remapping.RemappedOutputSticks | src/runtime/Stage.cpp:356-373 | with `A >> X` the output X stays down, although nothing is pressed any more |
| StageMachine.StageHasNoStuckKeys | src/runtime/Stage.cpp:727-947 | in every reachable state of a stage with balanced outputs: a key whose last emitted event is a press is held by exactly one entry; with no entry left every key is up |
| StageModel.BalancedOutputHasBalancedParts | src/runtime/Stage.cpp:752-785 | outputs with balanced halves are balanced as a stage needs it, which applies halves and whole outputs |
| Lowering.ReplaceNotKey | src/config/ParseConfig.cpp:90-98 | the loop that inserts while it iterates replaces each `!both` by `!left !right`, in place |
| Lowering.SplitIsSubstitution | src/config/ParseConfig.cpp:1127-1152 | splitting inputs and appending outputs is the in-order substitution of the mappings |
| Lowering.LoweringIsSubstitution | src/config/ParseConfig.cpp:1116-1159 | lowering a logical key replaces the mappings of a context, in order, by their consistent left and right substitutions, each with the output that was substituted alike |
| LoweredInputs.NotReplacedAt | src/config/ParseConfig.cpp:90-98 | each `!both` gives way to `!left !right` at its place |
| LoweredInputs.NotLogicalKeyForbidsBoth | src/config/ParseConfig.cpp:90-98 | so an input that forbids a logical key is matched only while neither of its keys is pressed |
| LoweredInputs.LogicalKeyMatchesEither | src/config/ParseConfig.cpp:1116-1159 | `k1 ... kn` with a logical key becomes two inputs, one of which matches a typing if and only if the keys are pressed in order, with the left or the right key in its place |
| LoweringTheorems.LoweredBelow | src/config/ParseConfig.cpp:1116-1159 | it removes the key from inputs, outputs and command outputs, and brings in no key that was registered later |
| LoweringTheorems.LoweringKeepsBalance | src/config/ParseConfig.cpp:1116-1159 | it keeps outputs balanced, commands distinct, and something behind every `?` |
| LoweringTheorems.BalancesIsBalanced | src/runtime/Stage.cpp:845-873 | balance as a scan with the set of pressed keys is balance as positions |
| ContextPasses.ReplaceLogicalKeyMeaning | src/config/ParseConfig.cpp:1116-1172 | the whole pass substitutes in what a configuration means: each row of filters and mappings gives way to its left and its right variant, in order |
| ContextPasses.ReplaceLogicalKeyInv | src/config/ParseConfig.cpp:1158-1171 | chains still end before the next stage, stages have no filter, and indices are valid |
| ContextPasses.ReplaceLogicalKeyBelow | src/config/ParseConfig.cpp:255-259 | the key is gone from everything |
| ContextPasses.ReplaceLogicalKeyKeepsBalance | src/config/ParseConfig.cpp:1116-1172 | and so does the whole pass |
| ContextPasses.OptimizeAtKeeps | src/config/ParseConfig.cpp:1174-1213 | one round of the optimization keeps what the configuration means, the chains, and what the rest of the loop relies on |
| ContextPasses.EraseKeepsMeaning | src/config/ParseConfig.cpp:1180-1207 | erasing a context that can not match, or has no effect, changes nothing |
| ContextPasses.MoveKeepsMeaning | src/config/ParseConfig.cpp:1191-1200 | moving the mappings of a removed context to the one that falls through to it changes nothing |
| ConfigParser.ForwardedFirst | src/config/ParseConfig.cpp:1215-1232 | the mappings of forwarded modifiers come first, in the order of the modifiers, and all other mappings keep their outputs |
| ConfigParser.ReplaceAllMeaning | src/config/ParseConfig.cpp:255-259 | the reverse loop substitutes one logical key after the other |
| ConfigParser.ReplaceAllRemovesLogicalKeys | src/config/ParseConfig.cpp:255-259 | after it no logical key remains in inputs, outputs, command outputs and modifier filters, also for keys made of logical keys, and what the stages rely on is kept |
| ConfigParser.LowerAllDropStages | src/config/ParseConfig.cpp:1174-1213 | dropping empty stages in front and lowering commute |
| ConfigParser.ParseConfig.constructor | src/config/ParseConfig.cpp:230-240 | the default context and the four common logical keys; all that the stages rely on holds |
| ConfigParser.ParseConfig.AddLogicalKey | src/config/ParseConfig.cpp:1108-1114 | registration with the next key, and the error when there are too many |
| ConfigParser.ParseConfig.ParseContext | src/config/ParseConfig.cpp:347-360 | an empty block falls through to the next one unless that begins a stage; all invariants hold, and what falls through has no mappings of its own |
| ConfigParser.ParseConfig.AddMapping | src/config/ParseConfig.cpp:1080-1088 | the mapping is added behind the others with its output; outputs stay as balanced and inputs as proper as the new ones are |
| ConfigParser.AddedMapping | src/config/ParseConfig.cpp:1080-1106 | a mapping line adds its input with its own output behind all others, or with its command, and all others mean what they meant |
| ConfigParser.ParseConfig.AddCommand | src/config/ParseConfig.cpp:1066-1078 | commands get distinct negative indices |
| ConfigParser.ParseConfig.AddCommandMapping | src/config/ParseConfig.cpp:1090-1106 | an output for a command, or the errors for unknown commands and duplicates, by which the commands of a context stay distinct |
| ConfigParser.ParseConfig.AddToggleActiveContext | src/config/ParseConfig.cpp:410-424 | a context in front of all others, its input with `?` |
| ConfigParser.ToggleContextMeans | src/config/ParseConfig.cpp:410-424 | that context has a single mapping: the input, with a `?` in front, presses the action |
| ConfigParser.ParseConfig.PrependForwardModifierMappings | src/config/ParseConfig.cpp:1215-1232 | the loop over the contexts that begin a stage |
| ConfigParser.ParseConfig.OptimizeContexts | src/config/ParseConfig.cpp:1174-1213 | the reverse loop with its erasures keeps what the configuration means; every context that is left can match, and has mappings, leads to some or begins a stage |
| ConfigParser.ParseConfig.ReplaceLogicalKey | src/config/ParseConfig.cpp:1116-1172 | the loops that insert into inputs, outputs and contexts are the substitution |
| ConfigParser.ParseConfig.FinishParsing | src/config/ParseConfig.cpp:245-259 | the whole end of parsing: unmapped commands are an error; otherwise no logical key is left, chains and indices are sound, outputs are as balanced, inputs as proper and commands as distinct as before, and the configuration means what was written with modifiers forwarded and logical keys substituted |
| EndToEnd.CutKeepsChains | src/server/ClientPort.cpp:29-36 | cut at stage starts, every chain ends within its stage |
| EndToEnd.StageIsGood | src/server/ClientPort.cpp:29-81 | such a stage is a configuration the stage state machine works with, with balanced outputs if they were balanced |
| EndToEnd.ConfigurationArrives | src/server/ClientPort.cpp:25-81 | from what parsing leaves to the stages: every stage which the server reads from what the client wrote is one the state machine works with, with distinct commands and inputs with something behind `?`, and with balanced outputs if they were balanced |
| SendQueue.TapTogglesOnce | src/server/ServerState.cpp:319-364 | among events of devices the tap of a virtual key toggles it once, and all others are sent in order |
| SendQueue.ActionTriggers | src/server/ServerState.cpp:319-364 | the tap of an action key triggers the action once, by its index, and all others are sent in order |
| SendQueue.DrainConservesSendable | src/server/ServerState.cpp:308-371 | without virtual keys, what was sent and what can still be sent is what could be sent before, in order |
| SendQueue.DrainConserves | src/server/ServerState.cpp:308-371 | with virtual keys at most nine bursts are inserted, no event is lost or doubled, and those which were in the buffer keep their order |
| SendQueue.RunKeepsOrder | src/server/ServerState.cpp:83-88 | over every run of pushes and flushes, with any delays and failures, the system gets the events in the order in which they were pushed, each once |
| SendQueue.RunConserves | src/server/ServerState.cpp:83-88 | and in general each event, pushed or inserted, passes once or still waits |
| Server.ServerState.FlushSendBuffer | src/server/ServerState.cpp:308-371 | what is sent, triggered, toggled and kept: nothing passes behind a delay, a delay schedules the next flush, an event which the system does not take stays first, and all that the stages answered is in the buffer |
| Server.ServerState.PassEvents | src/server/ServerState.cpp:318-365 | the loop over the growing buffer ends |
| Server.ServerState.PassEvent | src/server/ServerState.cpp:319-364 | one event: wheel presses, actions, virtual keys, delays and events to send |
| Server.ServerState.SendKeySequence | src/server/ServerState.cpp:83-88 | output goes to the insert position, or to the end |
| Server.ServerState.SetVirtualKeyState | src/server/ServerState.cpp:166-183 | presses, releases or toggles; the client is told exactly the changes, in turns for each virtual key |
| Server.ClientTold | src/server/ServerState.cpp:166-183 | after each change the last state the client was told is whether the key is down |
| Server.ServerState.TranslateInput | src/server/ServerState.cpp:195-300 | which inputs are swallowed, what the stages get for the others, and where their output goes, with the elapsed time and the wheel press inserted before |
| Server.ServerState.UpdateStages | src/server/ServerState.cpp:251-298 | the timeout is taken out of the output, and wheel events get the delta of the input |
| Server.SentOutput | src/server/ServerState.cpp:260-273 | the timeout of an output is not sent, all else is, in order, and what turns a wheel turns it as far as the input did |
| Server.SentWithoutTimeout | src/server/ServerState.cpp:260-273 | so it is for outputs without a timeout |
| Server.ServerState.CollectKeyInfo | src/server/ServerState.cpp:203-221 | keys are collected until one is released |
| Server.FeedShape | src/server/ServerState.cpp:222-251 | every input that is not swallowed reaches the stages exactly once and last; the elapsed time comes first exactly when a timeout is cancelled; before the Up of a wheel comes its Down |
| Server.JoinedIsOutputs | src/server/ServerState.cpp:83-88 | inserting several outputs at one position loses nothing |
| MultiStages.MultiStage.Update | src/runtime/MultiStage.cpp:82-118 | the loop that swaps and appends the buffers is the composition of the stages |
| MultiStages.MultiStage.SetActiveClientContexts | src/runtime/MultiStage.cpp:46-80 | each stage gets its own indices, and the notifications of one stage are the input of the next |
| MultiStages.StageCalls | src/runtime/MultiStage.cpp:94-113 | each stage but the first is called for the event itself if it is a timeout or a virtual key, and then for exactly the events for it that the stage before output, in order |
| MultiStages.TranslatedAlone | src/runtime/MultiStage.cpp:94-113 | a later stage passes timeouts, virtual keys and actions on without being called, and translates every other event |
| MultiStages.InputReachesStage | src/runtime/MultiStage.cpp:94-106 | an input that is a timeout or a virtual key is given to each later stage itself, one of a device is not |
| MultiStages.TranslateInOrder | src/runtime/MultiStage.cpp:94-113 | what a stage outputs for one part of its events comes before what it outputs for the rest, which it is given behind the first part |
| MultiStages.EchoesInOrder | src/runtime/MultiStage.cpp:94-113 | so a stage that answers each event with itself outputs them in the order in which they came |
| MultiStages.ServerEventsArrive | src/runtime/MultiStage.cpp:107-110 | every event for the server that a stage outputs leaves the last stage, in order |
| MultiStages.LocalAscends | src/runtime/MultiStage.cpp:67-74 | what a stage gets are indices of its contexts, in ascending order, as the stage requires |
| MultiStages.IndicesRejoin | src/runtime/MultiStage.cpp:67-74 | ascending client contexts are split among the stages without loss |
| Wire.Serializer.WriteContexts | src/client/ServerPort.cpp:21-58 | the loops that append to the buffer write the bytes of `Written` |
| Wire.Deserializer.ReadAllStages | src/server/ClientPort.cpp:25-81 | the loops that advance the iterator read what `ReadStages` says, for every buffer, also a malformed one |
| Wire.Deserializer.ReadString | src/common/Connection.h:71-76 | a string that is not there completely is read as spaces |
| Wire.Deserializer.ReadUint32 | src/common/Connection.h:52-64 | a number that is not there completely is read as 0 and consumes nothing |
| Wire.EventRead | src/runtime/KeyEvent.h:46-72 | reading undoes writing for every event |
| Wire.ContextRead | src/server/ClientPort.cpp:38-74 | reading undoes writing for every context, field by field |
| Wire.WireRoundTrip | src/server/ClientPort.cpp:25-81 | for every list of contexts reading gives back all transmitted fields in order, cut into stages |
| Wire.CutIsExact | src/server/ClientPort.cpp:29-36 | the stages joined are the contexts; only the first context of a stage can begin one, and all but the first stage begin with such a context |
| Framing.Connection.ReadMessages | src/common/Connection.h:132-159 | complete messages are deserialized in order, the incomplete rest is kept, and it fails exactly when a handler does not read its message exactly |
| Framing.ChunkingIsIrrelevant | src/common/Connection.h:132-159 | however a stream is cut into chunks, the same messages are read and the same bytes kept |
| Framing.SentIsReceived | src/common/Connection.h:119-130 | every message that was sent completely is read once, in order, for every chunking, and the beginning of the next one is kept |

## Left out

- Operating system layers: evdev, uinput, Windows hooks, Interception, Karabiner, sockets, `select`, timers, tray icons and focused windows.
- Windows-only branches: NumLock and Pause, the delayed release of Control, and the decision what to intercept.
- String literals and `StringTyper`, which depend on the keyboard layout, macros, variables, include files and directives.
- The text level: reading lines, names of keys, regular expressions and the syntax of context headers; lines come in as parsed contexts, mappings and tokens.
- Wall-clock time: the time since an event or the start of a timeout is a parameter.
- The exit sequence, and `reset_configuration` with what it does to virtual keys the client was told about.
- `evaluate_device_filters`: the devices a context matches are any set; all devices are distinguished from a set that happens to contain 64 of them.
- `has_mouse_mappings`, `is_clear` and other queries without effect.
- `suppress_forwarded_modifiers_in_outputs`, which puts `!K` in front of outputs.
- Message handlers of the server which only translate events, append to the buffer and flush it, as `on_inject_input_message`, and other messages than the list of contexts.
- Aliases of virtual keys and the assignment of automatic virtual keys, which are names.
- Mappings.Sorted: is an insertion sort for `std::sort`; the order of command outputs with equal indices, which the configuration does not allow, is not modelled.
- Server.ServerState.FlushSendBuffer: does not state in which order several outputs of one toggle follow each other.
- StageMachine.Stage.constructor: does not cover inputs that are `?` alone, for which the clean-up of the history would match an empty expression, against an assertion of the source.
- StageMachine.Stage.ApplyInput: does not state that no key is held when all physical keys are released, because that is false (`HeldBackOutputSticks`).
- StageMachine.Stage.ValidateState: does not state that all that keys hold which are not down is released, because that is false (`RemappedOutputSticks`); what it outputs is handed out with the next event, as in the source.
- Remapping.ValidationReleases: is about stages of single remapped keys, all of which went up.
- OutputTheorems.OutputIsHeldBy: does not state that the release of what holds an output comes through, because a match can take it as well.
- Server.ServerState.TranslateInput: leaves out the branch in which the exit sequence resets the configuration and requests the exit; the stages are any function of the number of calls so far instead of `MultiStage` objects.
- Server.ServerState.UpdateStages: leaves out the check for the exit sequence between the update of the stages and the timeout.
- MultiStages.MultiStage.Update: a stage is any function of its calls so far instead of a `Stage` object, which does not say what happens if two stages were one object.
- Wire.EventRead: the four bits of a state are numbers up to 10; larger ones, which are never written, are read as Up.
- EndToEnd.ConfigurationArrives: needs that sizes fit into 32 bits.
- ConfigParser.ParseConfig.FinishParsing: does not cover errors of the text level, which end parsing before.
