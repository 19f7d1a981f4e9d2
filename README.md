# Swift Assistant engine, modelled in Dafny

Swift Assistant is a desktop chat assistant whose behaviour comes from extensions.
Each extension hands the engine an XML rule document. The engine object
(`Engine`, src/engine.cpp) does five things:

- it normalises each user message and cuts it into segments (`format`);
- it matches every segment against the rule documents, either globally
  (`analizeAllPlugins`) or inside an open follow-up dialogue (`analizePlugin`);
- it answers from randomly drawn reply pools, after substituting placeholders
  (`readVarInText`);
- it runs reserved commands (`execAction`, `executeAction`) and forwards the
  others to the extension;
- it keeps the suggestion lists shown under the input box (`addBaseProp`,
  `textChanged`, and the push and restore of `main_prop`).

The project models that engine in two layers:

- **Reference definitions.** Functions over an immutable `State` live in modules
  `Strings`, `Grammar`, `Substitution`, `Events`, `Commands`, `Matching`, `Props`,
  `Normalize` and `Matcher`. Their properties are proved as lemmas.
- **The engine class.** `Engines.Engine` has the source's fields: `prop`,
  `mainProp`, `volatileProp`, `showedProp`, `removeCount`, `vars`, the three
  `nextReply…` context strings, the stored settings, and a log of every signal
  emitted. Each routine, and each loop in it that needs its own invariant, is a
  method. Each method ensures that `Snapshot()` (the fields read as a `State`) is
  what the reference definition gives for the old snapshot.

Signals (`reponseSended`, `addProp`, `removeProp`, `removeAllProp`, `hideWindow`,
`QApplication::quit`, and the forwarded `plug->execAction`) are recorded as
`Events.Event` values appended to the log, in emission order.

In this model the extension documents are already parsed: `Grammar` holds items,
blocks, entries and keyword groups. The random generator is a function `draw` from
the draw count to a natural number; the pool index is `draw(n)` modulo the pool
size. The clock of a message is a parameter. Qt's lowering and case folding are
function parameters applied character by character.

## Model

| member | source | states |
|---|---|---|
| Strings.JoinWords | src/engine.cpp:440-443 | the loop's text is the words separated by single spaces (`Join`) |
| Strings.LastIndexOf | src/engine.cpp:508 | -1, or a position holding the word with no later position holding it |
| Strings.Truncate | src/engine.cpp:138-139 | a prefix of at most n characters, exactly n when the text is that long, the whole text otherwise |
| Normalize.FoldAccent | src/engine.cpp:350-356 | the result is never one of the folded accented letters; other characters are unchanged |
| Normalize.Format | src/engine.cpp:328-389 | the two loops of `format` compute `Normalized(lower, raw)`, the lowering, token scan and segment cut |
| Normalize.TokensClean | src/engine.cpp:335-362 | no token holds a space, a hyphen, `!`, `?` or a folded accented letter |
| Normalize.SegmentsConcat | src/engine.cpp:365-389 | the segments concatenated are the tokens minus exactly the separators the cut swallows |
| Normalize.SegmentsNonEmpty | src/engine.cpp:375-386 | no segment is empty |
| Normalize.GreetingSegment | src/engine.cpp:370-374 | a greeting as the first token is a segment of its own |
| Normalize.BlankInput | src/engine.cpp:335-389 | a message of blanks, hyphens, `!` and `?` (the empty one among them) gives no segment |
| Normalize.NormalizedClean | src/engine.cpp:328-389 | every token of every segment is clean, whatever the lowering does |
| Normalize.ScanEmptyBeforeSeparator | src/engine.cpp:336-362 | in the words the character scan has pushed, an empty word is always followed by a `,` |
| Normalize.TokensEmptyBeforeSeparator | src/engine.cpp:335-362 | the token array holds an empty word only directly in front of a `,` |
| Normalize.CutEmptyOnlyLast | src/engine.cpp:365-386 | cutting such tokens leaves an empty token only last in a segment, and an open segment ends in an empty token only before a `,` |
| Normalize.SegmentsEmptyOnlyLast | src/engine.cpp:365-389 | in the segments of such tokens only the last token of a segment can be empty |
| Normalize.NormalizedEmptyOnlyLast | src/engine.cpp:328-389 | in what `format` hands on, only the last token of a segment can be empty ("a ," gives the segment ["a", ""]) |
| Commands.SplitCommand | src/engine.cpp:199-219 | the character loop computes `Split(text)` |
| Commands.SplitShape | src/engine.cpp:199-219 | a split of a non-empty text has a token, no token holds a space, only the last can be empty, and it is empty exactly when the text ends in a space |
| Commands.JoinSplit | src/engine.cpp:199-219 | joining the split with single spaces gives back a text whose spaces only separate words |
| Commands.SplitJoin | src/engine.cpp:199-219 | splitting non-empty space-free words joined with single spaces gives the words back |
| Commands.ParseCondition | src/engine.cpp:552-559 | the loop over an `if` attribute computes `ParseTest`: left operand before the first operator, last operator, non-operator characters after the first |
| Commands.ParseScanTest | src/engine.cpp:552-559 | the loop's four variables equal the reference reading, operand by operand |
| Commands.FirstOpSpec | src/engine.cpp:553-554 | the left operand stops at the first `!` or `=` |
| Commands.LastOpSpec | src/engine.cpp:553-554 | the operator is the last `!` or `=` of the text, or none |
| Commands.NonOpsSpec | src/engine.cpp:555-557 | the right operand holds no operator character |
| Commands.EvalCondition | src/engine.cpp:546-573 | the evaluation is `ConditionHolds`: both operands substituted, then compared by the parsed operator |
| Commands.NotEqualIsEquality | src/engine.cpp:552-573 | `a!=b` parses as an equality test, because `=` is the last operator, and holds iff the substituted operands are equal |
| Commands.NoOperator | src/engine.cpp:564-573 | without an operator the whole text is the left operand and the condition is false |
| Commands.ExecAction | src/engine.cpp:223-326 | a command sends no answer, and only a `settings` command changes the stored settings |
| Commands.ApplicationNeverHides | src/engine.cpp:245-253 | no command hides the window; `application` quits iff its second token is not "quit" |
| Commands.SearchIsRaw | src/engine.cpp:291-304 | the search URL is the fixed prefix plus the raw words joined by spaces, neither substituted nor `+`-encoded |
| Commands.SubstituteTokens | src/engine.cpp:651-653 | the in-place token loop computes `SubstituteAll` |
| Commands.Dispatch | src/engine.cpp:647-656 | a non-reserved command becomes one forwarded action of the substituted tokens; a reserved one forwards nothing; neither answers |
| Commands.ApplicationForwarded | src/engine.cpp:711-720 | inside a condition or an else, `application` is forwarded to the extension |
| Substitution.TokenOf | src/engine.cpp:1191-1223 | a literal token is the character itself; a placeholder starts with `?`; a token spans no more than the text |
| Substitution.ReadVarInText | src/engine.cpp:1180-1227 | the clamped look-ahead loop computes `Substitute`, the front-to-back token expansion, and never reads past the text |
| Substitution.NoPlaceholder | src/engine.cpp:1221-1223 | a text without `?` comes back unchanged |
| Substitution.LiteralPrefix | src/engine.cpp:1221-1223 | a `?`-free prefix passes through in front of the expanded rest |
| Substitution.SlotExpansion | src/engine.cpp:1191-1195 | `?0`-`?2` expand to the captured text when it exists and are dropped otherwise |
| Substitution.SettingsExpansion | src/engine.cpp:1196-1205 | `?name` expands to the user name, `?prop` to "activé" or "desactivé" |
| Substitution.ClockExpansion | src/engine.cpp:1206-1220 | `?date`, `?hour` and `?dt` expand to the date, the time, and the date with hours and minutes of the message's clock, and the text after them is expanded in turn |
| Matching.ContainsAny | src/engine.cpp:472-475 | true iff some word of the group is a token of the segment |
| Matching.EvalKeywords | src/engine.cpp:463-494 | the group loop computes `KeywordsPass`: every Words group has a word present and no NoWords group does |
| Matching.MaxAnchor | src/engine.cpp:507-510 | -1 iff no anchor occurs; otherwise an anchor's position, after which no anchor occurs |
| Matching.GlobalAnchor | src/engine.cpp:497-510 | the global anchor loop computes `MaxAnchor` |
| Matching.FirstAnchor | src/engine.cpp:863-866 | -1 iff no anchor occurs; otherwise the last position of the first listed anchor that occurs |
| Matching.ScopedAnchor | src/engine.cpp:852-866 | the follow-up anchor loop computes `FirstAnchor` |
| Matching.CaptureEnd | src/engine.cpp:513-516 | the capture stops after `max` tokens when `max` is at least 1, and at the end of the segment otherwise |
| Matching.CaptureAfter | src/engine.cpp:512-517 | the capture loop with its `break` computes `Capture` |
| Matching.GlueJoinLast | src/engine.cpp:513-514 | when only the last token can be empty, gluing with a space only after non-empty text is the single-space join, and is empty iff every token is |
| Matching.CaptureWords | src/engine.cpp:512-519 | when only the last token of the segment can be empty, the capture is the single-space join of the tokens after the anchor, cut at `max`, and is empty iff every token after the anchor is empty |
| Props.AddBasePropShows | src/engine.cpp:163-172 | `showedProp` and the list the interface rebuilds from the signals are both `main_prop` |
| Props.Push | src/engine.cpp:456-460 | the push keeps the lists consistent: the restore can drop what it added |
| Props.Restore | src/engine.cpp:415-423 | without a saved list nothing changes and nothing is sent |
| Props.PushRestore | src/engine.cpp:415-460 | a push followed by a restore gives back `prop` and `main_prop`, and shows `main_prop` |
| Props.PushOverEmpty | src/engine.cpp:415-460 | a push over an empty `main_prop` saves nothing, so the pushed list stays after the restore |
| Props.SecondPushLoses | src/engine.cpp:415-460 | a second push before the restore overwrites what the first one saved |
| Props.FilterKeeps | src/engine.cpp:135-145 | the hiding pass keeps exactly the shown entries that match |
| Props.TextChangedShown | src/engine.cpp:135-156 | afterwards every shown entry matches the input, each was shown or is in `prop`, and every matching entry of `prop` is shown |
| Props.TextChangedReplay | src/engine.cpp:135-156 | the removal and addition signals turn what the interface showed into the new `showedProp` |
| Props.PushRestoreReplay | src/engine.cpp:415-460 | the same holds of the push and of the restore, whatever was shown before |
| Matcher.BaseState | src/engine.cpp:163-172 | `addBaseProp` on the state sends no answer and keeps the capture vector |
| Matcher.RestoreState | src/engine.cpp:415-423 | the restore sends no answer and keeps the capture vector |
| Matcher.PushState | src/engine.cpp:447-461 | a Prop block's push sends no answer and keeps the capture vector |
| Matcher.Perform | src/engine.cpp:647-656 | one action sends no answer and keeps the capture vector |
| Matcher.Emit | src/engine.cpp:535-539 | a draw appends exactly one answer to the log |
| Matcher.EmitOneOfPool | src/engine.cpp:535-539 | the answer is some pool entry, substituted, and only the draw count and the log change |
| Matcher.FollowUp | src/engine.cpp:540-544 | the context change after a reply sends nothing and keeps the capture vector |
| Matcher.Answer | src/engine.cpp:535-544 | one more answer, `isRep` set, `isOk`, `var` and the values read kept; globally an item with both `id` and `needId` opens `Context(iid, needId, id)` and any other keeps the context; in a follow-up "null" closes it, another non-empty `needId` becomes the expected one, and an empty one keeps it |
| Matcher.ReplyEntry | src/engine.cpp:546-615 | a condition with a non-empty `if` takes the value of its test as the verdict and answers iff it holds; an `else` keeps the verdict and answers iff it is false; any other child changes nothing; only appends, keeps `isOk`, `var` and the values read, and globally leaves a context taken from the documents |
| Matcher.ReplyLoopTracks | src/engine.cpp:522-618 | a Reply block only appends, sets `isRep` exactly when it answered, and keeps `isOk` and `var` |
| Matcher.LastDecider | src/engine.cpp:546-615 | -1, or the position of a condition with a non-empty `if` |
| Matcher.LastDeciderLast | src/engine.cpp:546-615 | no condition with a non-empty `if` comes after that position |
| Matcher.WalkThenLoop | src/engine.cpp:522-618 | a loop that takes one step per child is its first j steps followed by the loop from child j |
| Matcher.WalkKept | src/engine.cpp:546-615 | children that are not conditions with a non-empty `if` keep the verdict |
| Matcher.WalkVerdict | src/engine.cpp:546-615 | the verdict after j children is false if no condition with a non-empty `if` came before, and otherwise that of the last one |
| Matcher.ReplyRestSteps | src/engine.cpp:546-615 | each child before a `rep` is one step of the prefix and one step of the Reply walk |
| Matcher.ReplyLoopPrefix | src/engine.cpp:522-618 | the Reply walk is its first j children followed by the walk from child j |
| Matcher.ReplyPrefixValues | src/engine.cpp:546-615 | the first j children of a Reply block never change what a condition reads |
| Matcher.ReplyFollowsRule | src/engine.cpp:546-615 | a Reply block's children set and keep the verdict as in `WalkVerdict` |
| Matcher.ReplyVerdict | src/engine.cpp:546-615 | the verdict after j children is false when no condition with a non-empty `if` came before, and otherwise the value of the last one; an `else` or an empty `if` does not reset it |
| Matcher.ReplyElseRule | src/engine.cpp:546-615 | the `else` at child j answers iff no earlier condition has a non-empty `if` or the last such condition is false |
| Matcher.PerformAll | src/engine.cpp:687-723 | running a condition's children sends no answer and keeps the context |
| Matcher.ActionEntry | src/engine.cpp:626-763 | a condition with a non-empty `if` takes the value of its test as the verdict and runs its children iff it holds; an `else` keeps the verdict and runs its children iff it is false; an `action` keeps the verdict and runs; any other child changes nothing; no answer is sent and the context is kept |
| Matcher.ActionsLoop | src/engine.cpp:621-767 | an Actions block sends no answer and keeps the context |
| Matcher.ActionsRestSteps | src/engine.cpp:621-767 | each child is one step of the prefix and one step of the Actions walk |
| Matcher.ActionsLoopPrefix | src/engine.cpp:621-767 | the Actions walk is its first j children followed by the walk from child j |
| Matcher.ActionsFollowsRule | src/engine.cpp:626-763 | an Actions block's children set and keep the verdict as in `WalkVerdict` |
| Matcher.ActionsVerdict | src/engine.cpp:626-763 | the verdict after j children is false when no condition with a non-empty `if` came before, and otherwise the value of the last one in the state the walk had reached there |
| Matcher.ActionsElseRule | src/engine.cpp:626-763 | the `else` at child j runs its children iff no earlier condition has a non-empty `if` or the last such condition was false, and otherwise leaves the state as it was |
| Matcher.GlobalBlockKeeps | src/engine.cpp:446-767 | each global block only appends, `isRep` tracks the answers, the context stays one a reply opened, and `var` keeps the joined segment in front |
| Matcher.GlobalBlocksKeep | src/engine.cpp:446-770 | the same over all blocks of an item |
| Matcher.GlobalItemKeeps | src/engine.cpp:436-773 | the same over one item |
| Matcher.GlobalItemsKeep | src/engine.cpp:436-774 | the same over the item loop of an extension |
| Matcher.GlobalPluginsKeep | src/engine.cpp:428-775 | the same over all extensions |
| Matcher.MatchedStops | src/engine.cpp:436 | first match wins: once `isOk` holds after an item, no later item of any extension is consulted |
| Matcher.GlobalGates | src/engine.cpp:463-621 | an in-range Keywords block sets `isOk` to its verdict, an out-of-range one leaves it, and Var, Reply and Actions blocks do nothing while `isOk` is false |
| Matcher.GlobalPassAnswers | src/engine.cpp:409-786 | a global pass answers at least once; the fallback is sent iff no rule answered; the context afterwards is none or one a reply of this pass opened |
| Matcher.ScopedBlockTracks | src/engine.cpp:819-1013 | a follow-up block only appends and sets `isRep` exactly when it answered |
| Matcher.ScopedBlocksTrack | src/engine.cpp:818-1163 | the same over all blocks of a sub-item |
| Matcher.SubItemsTrack | src/engine.cpp:808-1166 | the same over the children of the expected item |
| Matcher.ScopedItemTracks | src/engine.cpp:802-1170 | the same over one item |
| Matcher.ScopedItemsTrack | src/engine.cpp:802-1171 | the same over the item loop |
| Matcher.ScopedPluginsTrack | src/engine.cpp:793-1172 | the same over the extension loop |
| Matcher.ScopedPassReplies | src/engine.cpp:788-1178 | `analizePlugin` only appends, and returns true iff it sent an answer |
| Matcher.ScopedFollowUp | src/engine.cpp:896-912 | a follow-up reply's `needId` becomes the expected one; "null" closes the dialogue and restores the suggestion lists; an empty one changes nothing |
| Matcher.DialogueRoundTrip | src/engine.cpp:896-912 | a dialogue opened over a non-empty `main_prop` and closed by "null" gives back `prop` and `main_prop` and shows `main_prop` |
| Matcher.AnalyzeSeg | src/engine.cpp:396-406 | every segment is answered at least once and the log only grows |
| Matcher.AnalyzeFromAnswers | src/engine.cpp:394-407 | the segments from i on add at least one answer each |
| Matcher.AnalyzeAnswers | src/engine.cpp:394-407 | a message of n segments gets at least n answers, appended to the log |
| Engines.Engine.constructor | src/engine.cpp:34-44 | a new engine has no dialogue, no capture, nothing saved or shown, and an empty log |
| Engines.Engine.AddBaseProp | src/engine.cpp:163-172 | the fields become `BaseState` of the old ones |
| Engines.Engine.RestoreProps | src/engine.cpp:415-423 | the countdown loop and the re-show give `RestoreState` of the old fields |
| Engines.Engine.PushProp | src/engine.cpp:456-460 | the fields become `PushState` of the old ones |
| Engines.Engine.TextChanged | src/engine.cpp:135-156 | the lists and the log become `Props.TextChanged` of the old lists |
| Engines.Engine.HideUnmatched | src/engine.cpp:137-145 | the backward loop leaves the matching shown entries and logs one removal per other entry, highest index first |
| Engines.Engine.ShowMatched | src/engine.cpp:147-155 | the forward loop appends and logs each matching entry of `prop` not yet shown |
| Engines.Engine.ExecAction | src/engine.cpp:223-326 | the settings and the log change as `Commands.ExecAction` says, nothing else changes |
| Engines.Engine.ExecuteAction | src/engine.cpp:199-221 | the same for the split of the action text |
| Engines.Engine.Perform | src/engine.cpp:647-656 | the fields become `Matcher.Perform` of the old ones |
| Engines.Engine.Emit | src/engine.cpp:535-538 | the fields become `Matcher.Emit` of the old ones |
| Engines.Engine.FollowUp | src/engine.cpp:540-544 | the fields become `Matcher.FollowUp` of the old ones |
| Engines.Engine.Answer | src/engine.cpp:535-544 | the fields become those of `Matcher.Answer` |
| Engines.Engine.ReplyChild | src/engine.cpp:546-615 | the fields, the reply flag and the verdict are those of `ReplyEntry` |
| Engines.Engine.ReplyRep | src/engine.cpp:527-545 | a `rep` answers from itself and every later sibling, as `ReplyLoop` says |
| Engines.Engine.ReplyBlock | src/engine.cpp:522-618 | the fields and the reply flag are those of `ReplyLoop` |
| Engines.RepPool | src/engine.cpp:528-533 | the pool is the texts of the entries from the `rep` on |
| Engines.Engine.PerformAll | src/engine.cpp:687-723 | the fields become `Matcher.PerformAll` of the old ones |
| Engines.Engine.ActionChild | src/engine.cpp:626-763 | the fields and the verdict are those of `ActionEntry` |
| Engines.Engine.ActionsBlock | src/engine.cpp:621-767 | the fields become `ActionsLoop` of the old ones |
| Engines.Engine.CaptureVar | src/engine.cpp:512-519 | `var` becomes `Captured` of the old one, nothing else changes |
| Engines.Engine.GlobalBlock | src/engine.cpp:447-767 | the fields and both flags are those of `Matcher.GlobalBlock` |
| Engines.Engine.GlobalBlocks | src/engine.cpp:446-770 | the fields and both flags are those of `Matcher.GlobalBlocks` |
| Engines.Engine.GlobalItem | src/engine.cpp:437-772 | the fields and both flags are those of `Matcher.GlobalItem` |
| Engines.Engine.GlobalItems | src/engine.cpp:436-774 | the fields and both flags are those of `Matcher.GlobalItems` |
| Engines.Engine.GlobalPlugins | src/engine.cpp:425-775 | the fields and both flags are those of `Matcher.GlobalPlugins` |
| Engines.Engine.GlobalRules | src/engine.cpp:411-775 | the fields and both flags are those of `Matcher.GlobalRules` |
| Engines.Engine.AnalizeAllPlugins | src/engine.cpp:409-786 | the fields become `GlobalPass` of the old ones |
| Engines.Engine.ScopedBlock | src/engine.cpp:819-1165 | the fields and both flags are those of `Matcher.ScopedBlock` |
| Engines.Engine.ScopedBlocks | src/engine.cpp:818-1166 | the fields and both flags are those of `Matcher.ScopedBlocks` |
| Engines.Engine.SubItem | src/engine.cpp:809-1166 | the joined segment is appended to `var`, then the blocks run as `Matcher.ScopedBlocks` says |
| Engines.Engine.SubItems | src/engine.cpp:806-1168 | the fields and both flags are those of `Matcher.SubItems` |
| Engines.Engine.ScopedItem | src/engine.cpp:802-1169 | the fields and both flags are those of `Matcher.ScopedItem` |
| Engines.Engine.ScopedItems | src/engine.cpp:802-1171 | the fields and both flags are those of `Matcher.ScopedItems` |
| Engines.Engine.AnalizePlugin | src/engine.cpp:788-1178 | the fields and the result are those of `ScopedPass` |
| Engines.Engine.AnalizeSeg | src/engine.cpp:396-406 | the fields become `AnalyzeSeg` of the old ones |
| Engines.Engine.Analize | src/engine.cpp:394-407 | the fields become `Analyze` of the old ones |
| Engines.Engine.Format | src/engine.cpp:328-392 | the fields become `Analyze` over the normalised segments of the message |

## Left out

- Loading extensions (`scanPlugin`, `removePlugin`, `getAllPlugin`), writing and showing QML files, and the pass-through signals: not part of the matching core. The constructor takes the loaded extensions and the suggestion lists as parameters.
- XML parsing (QDomDocument): the documents are already-parsed `Grammar` values. Numeric attributes are integers, and a missing one reads as 0, as `toInt` does.
- QSettings and `updateSettingsVar`: the stored name and suggestion flag are the fields `userName` and `propEnabled`. `settings` commands write them. The source reloads them before every `?name` and `?prop`, so the values read are the same. The sound setting is never read by the core and is not modelled.
- The clock: `QDateTime::currentDateTime()` and its three renderings are the `Clock` parameter of each message.
- The random generator: `uniform_real_distribution` over `QRandomGenerator` is the `draw` function; the model assumes only that the draw is an index into the pool.
- Unicode: `toLower`, the case-insensitive comparison of `textChanged`, and QVariant's lowering are per-character function parameters. Unicode normalisation and multi-character case mappings are not modelled.
- URL parsing: a `site` reply records its kind, which constructor was used, and the text given to the parser (`SiteReply`), not the URL that Qt builds. The loop that decides `isUserEntry` reads `cmd[2]`, which is always "site", so the model always records `QUrl::fromUserInput`.
- `plug->execAction`: forwarded commands are logged as `PluginAction` events. What the extension then does is outside the engine.
- Engines.Engine.ExecAction: requires `WellFormedCommand`, which is stronger than the source. The source indexes `cmd[1]`, `cmd[2]` and `cmd[3]` unchecked and fails only when such a command is actually reached.
- The well-formedness precondition `DocsOk` (no empty pool behind a live condition or an `else`, no short reserved command) and its parts `DocOk`, `ItemOk`, `BlocksOk`, `LeafOk`, `ReplyOk`, `ActionsOk`, `EntryReplyOk`, `EntryActionOk`, `WellFormedCommand` and `Dispatchable` are stronger than the source, which fails only when such an entry is actually reached. Every pass-level lemma of `Matcher`, `Commands.ExecAction` and `Commands.Dispatch`, and the `Engines.Engine` methods from `ReplyChild` to `Format`, carry them.
- The `hideWindow` branch of `execAction` (lines 250-252) is unreachable, because it requires `cmd[1] == "quit"` after `cmd[1] != "quit"` failed. It has no counterpart; `Commands.ApplicationNeverHides` states this.
- The substituted search text of a web search (`readVarInText(search, var).replace(" ", "+")`) is discarded by the source. The model sends the raw join, which `Commands.SearchIsRaw` states.
- `tr()`: the fallback texts are the French source strings, untranslated.
- Integer widths: positions and counts are unbounded; no list in the core comes near 32-bit limits.
