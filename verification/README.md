# Verified models of the Serial Studio tooling

The repository's Python scripts rewrite sources, assign released gRPC field numbers, generate code and move
files. This project models the cores of those scripts in Dafny, one module per component, and proves what they
promise. Loops of the source are `while` and `for` loops here, records a script updates in place are classes,
and every such method is proved equal to a specification function about which the theorems are stated.

| area | modules | main theorems |
|---|---|---|
| source fixer, `scripts/code-verify.py` | `Sanitizer`, `Lines`, `Regexes`, `Patterns`, `Inserts`, `BraceFree`, `BodyEnds`, `Fences`, `Tokenizer`, `LogicalLines`, `PropertySort`, `SortedProperties`, `IdPlacement`, `IdBodies`, `Retokenize`, `QmlPass`, `QmlStable`, `QmlSettles`, `QmlTwice`, `FenceGap`, `SourceFile`, `RunTwice`, `FileText`, `TextLines`, `Samples` | the sanitizer is a three-mode automaton; the line recognisers accept the languages of their regular expressions; exactly which lines form a logical line, end a body, stand in a block that is sorted, and are reported for their `id:`; any subset of the brace-free fixes leaves exactly the other findings; tokens are the unique lossless grouping; the sort is the stable one and keeps every outside line in place; id blanks commute with tokenization; exactly when a second pass or a second whole run has work and when fenced lines stay; nothing is lost by a whole run but, in exactly stated cases, a last blank line |
| field-number ledger | `Ledger`, `LedgerNumbers`, `LedgerConsumers` | which number a new parameter gets; over any history of snapshots a number names one parameter only and none is skipped; the generator and its two consumers agree; exactly when the check implies append-only and exactly which histories it accepts |
| ordered anchors | `OrderedAnchor`, `AnchorReport` | the reported symbols are exactly those outside a longest ordered run |
| clone census | `CloneCensus` | the inverted index counts set intersections |
| include closure | `IncludeClosure` | the walk is reachability exactly below its cap, and a fixed set of files at it |
| SDK generator | `SdkNamespaces`, `Base64`, `Splitting` | every kept command path resolves to its own wrapper, in JavaScript and in Lua; the two emitted encoders agree and are a bijection onto the texts a decoder accepts (section 4 of RFC 4648) |
| registry generator | `LineWrap`, `WrapRules`, `Literals`, `LiteralCuts`, `Persistence` | the one greedy wrapping; it keeps everything but white space, and exactly when it keeps string literals; exactly which values survive writing and reading |
| icon migration | `IconPlan`, `IconRules`, `TierRoom`, `IconApply`, `IconTrees` | which copy is kept and which slot each file gets; exactly when a group has room, and when every old path keeps its bytes |
| batch committer | `CommitBatch`, `CommitPlans` | exactly which plans are accepted; an accepted plan is a partition, nothing is lost at any stop, and exactly when each commit alters its own paths only |

A source line enters the fixers as a record of the facts they read (`Lines.Line`). `Lines.Describe` computes that
record from the text with the sanitizer and recognisers that `Patterns` proves equal to the regular expressions, and
`Lines.DescribeWellFormed` shows that the one precondition of the record theorems, `AllWellFormed`, holds of every
described line.

Where the code and its own documentation disagree the model follows the code:

- `code-verify.py:896-899` says a fence disables every rule the script enforces. The id check and the property sort
  never look at the mask (`FenceGap.FenceDoesNotHold`, five lines of text). A sorted run always lies wholly inside or
  wholly outside a fence, and fenced lines stay untouched exactly when no sorted run and no `id:` that asks for a blank
  stands in one (`FenceGap.FencesHoldExactly`).
- `tokenize` takes a comment line in behind every property or other line, not only inside an open bracket, because `/`
  and `*` count as continuation characters; only a block comment that closes more brackets than are open stays out
  (`Tokenizer.CommentIsTaken`, and on text `Tokenizer.SlashesAreTaken`).
- `code_verify_rules.py:3740-3742` says the member-pointer rule reports nothing past the cap. It goes on with the
  names of the files walked so far, for every cap of at least 2 (`IncludeClosure.CutWalkStillReports`).
- The ledger check compares a ledger with the one before; it accepts one that takes a number out of `reserved` and
  issues it again (`LedgerConsumers.CheckMissesReissue`), and it reports a legal remove-and-restore as a renumbering
  when it looks at both ends only. Between any two moments of a history it accepts exactly when no parameter numbered
  at both was missing from a snapshot of its command in between (`LedgerConsumers.AcceptedOverHistory`).
- `split_text` loses a space where a chunk is still empty (`LineWrap.ChunksSpellText` says exactly when).
- `call_break` breaks behind `{` as well as `(`, and the emitter looks at no quote: a comma inside a string literal is a
  place to cut, so an overlong call can be written with the literal broken over two lines (`Literals.CommaBreaksLiteral`;
  `LiteralCuts.EmitKeepsLiteralsExactly` says on which statements literals are kept: a test on the places of the cuts).
- `process_file` loses a blank line at the end of a file it rewrites exactly when another line stands before it or no
  `\n` follows it (`FileText.WrittenText`): `a\r\n\r\n` becomes `a\n`, and a file of one `\r` becomes empty
  (`FileText.BlankLineIsLost`, `FileText.LoneBlankLineIsLost`).
- `commit-batch.py` documents that an empty entry is refused. An entry with an empty `paths` list is accepted
  (`CommitBatch.EmptyEntryIsAccepted`), and its `git add -A --` without paths commits the whole working tree
  (`CommitBatch.EmptyEntryTakesAll`).
- The icon migration renames row by row without comparing targets with later sources; a swap of two files passes every
  check and loses one (`IconApply.SwapLosesAFile`), and the audit itself plans such a swap, without a flag, for an icon of
  width 16 in folder 24 and its namesake of width 24 in folder 16 (`IconApply.AuditedSwapLosesAFile`). Its last refusal, of an `rcc.qrc` without icon entries, comes after
  the files have been moved (`IconApply.IconTree.Apply`).
- One QML pass can leave work for a second one when a literal holds a stray brace: on the five lines `Item {`, `id: a`,
  `text: "}"`, `x: 1`, `}` the pass swaps the two properties, and only then the check asks for a blank
  (`QmlTwice.OnePassLeavesWork`). A second pass has no work exactly when the sorted buffer, before any blank is written,
  holds no run to sort and asks for no blank but those already asked for (`QmlSettles.OnePassSettles`). That is decided
  for every buffer in which the asking `id:` lines still start logical lines after the sort, which they do whenever the
  sorted lines balance their brackets (`QmlSettles.BalancedAsksSurvive`), also when a sorted property takes in the next
  one, as `x: 1 /* c */` does with its closing `/` (`QmlTwice.TakenLineSettles`).
- One run of the whole driver can leave work for a second one even so: on the four lines `else`, ` z: []`,
  `y: 1234567890`, `x: 1` the blank behind the body splits a block that was not safe to sort, and the next run sorts what
  is left of it (`RunTwice.OneRunLeavesWork`; `SourceFile.SecondRun` and `SecondRunBetween` say exactly when).
- An emitted JavaScript program keeps a top-level global that holds a falsy value and can put no wrapper under it; the
  Lua program replaces it (`SdkNamespaces.FalsyGlobal`). Text mode sends the low bytes of the characters in JavaScript
  and the bytes of the string in Lua; for one text these agree exactly when it is ASCII (`Base64.TextModesAgree`).

## Model

| member | source | states |
|---|---|---|
| Sanitizer.StripStringsAndComments | scripts/code-verify.py:172-213 | the scanner with its index jumps and quote variable computes the specification |
| Sanitizer.FromIsColumns | scripts/code-verify.py:172-213 | from any mode the scan equals the column-wise view of the literal/escape/comment automaton |
| Sanitizer.SanitizeShows | scripts/code-verify.py:172-213 | columns are preserved up to the first comment outside every literal, and the cut is exactly there |
| Sanitizer.SanitizeIdempotent | scripts/code-verify.py:172-213 | a sanitized line holds no further literal or comment |
| Sanitizer.BracketsAreCode | scripts/code-verify.py:228-240 | every bracket that is counted stands in code, none in a literal or behind a comment |
| Lines.DescribeWellFormed | scripts/code-verify.py:306-377 | the flags of every described line are consistent, so the theorems on records hold of all texts |
| Lines.ControlIsCode | scripts/code-verify.py:614-633 | a line with code left after sanitizing is neither blank nor a line comment |
| Lines.EmptyIsDescribed | scripts/code-verify.py:770-782 | the inserted empty line has the record the fixers assume |
| Patterns.KindExactly | scripts/code-verify.py:306-345 | every line has exactly one kind, told by the expressions for `id:`, handlers and properties and by its net braces |
| Patterns.SeparatorExactly | scripts/code-verify.py:272-284 | the scan finds the property separator where some splitting of the line matches the expression with its two optional parts |
| Patterns.SimplePropExactly | scripts/code-verify.py:105-117 | the recogniser accepts exactly the language of `_SIMPLE_PROP` |
| Patterns.IdLineExactly | scripts/code-verify.py:120 | the recogniser accepts exactly the language of `_ID_LINE` |
| Patterns.HandlerExactly | scripts/code-verify.py:119 | the recogniser accepts exactly the lines that start with a match of `_HANDLER` |
| Patterns.CloseThenOpenExactly | scripts/code-verify.py:122-124 | the recogniser accepts exactly the language of `_CLOSE_THEN_OPEN` |
| Patterns.ContinuationExactly | scripts/code-verify.py:128-141 | the recogniser accepts exactly the lines that start with a match of `_CONTINUATION_PREFIX` |
| Patterns.TrailingExactly | scripts/code-verify.py:149-289 | a line ends on an operator if and only if the search for one matches, or on a first line a colon ends a value that asks more than it answers |
| Patterns.JsBodyExactly | scripts/code-verify.py:348-377 | a brace opens a script body exactly behind `function`, an arrow or a colon |
| Patterns.ControlExactly | scripts/code-verify.py:599-633 | the recogniser accepts exactly the lines of `_BRACE_FREE_CONTROL_RE` with as many round brackets open as closed |
| Patterns.FenceLineExactly | scripts/code-verify.py:904-905 | the recogniser accepts exactly the lines that start with a match of the fence expressions, word end included |
| Inserts.DeleteInserted | scripts/code-verify.py:770-782 | deleting the inserted positions gives the input back |
| Inserts.InsertAt | scripts/code-verify.py:770-782 | every old line is at its moved position, followed by a blank where one was asked for |
| BraceFree.FindBraceFreeBodyEnd | scripts/code-verify.py:642-708 | the two loops over skipped lines and continuation lines find `BodyEnd`, the line `BodyEnds.BodyEndExactly` describes |
| BodyEnds.BodyEndExactly | scripts/code-verify.py:642-708 | a body ends on a line if and only if one starts behind the control and that line is the first one to stop: brackets closed and a `;`, or a blank line or the end behind it, or brackets closed, no attribute and no deeper line behind it |
| BodyEnds.AttributeGoesOn | scripts/code-verify.py:695-698 | no body ends on an attribute line such as `[[unlikely]]` in front of its statement |
| BodyEnds.ScanExactly | scripts/code-verify.py:711-767 | a line is reported if and only if a control in no earlier body has its body end there, and the next line is neither blank nor one that goes on with the statement |
| BraceFree.FindBraceFreeViolations | scripts/code-verify.py:711-767 | the scan reports the specified ends |
| BraceFree.ApplyBraceFreeFixes | scripts/code-verify.py:770-782 | inserting from the back puts one blank behind each listed line, duplicates once |
| BraceFree.WalkMoves | scripts/code-verify.py:665-708 | a body walk ends on the same line when blanks are put outside it, also right behind its end |
| BraceFree.BodyEndMoves | scripts/code-verify.py:642-708 | the end of a body is found again at its moved position |
| BraceFree.Rescan | scripts/code-verify.py:711-782 | applying any subset of the fixes and scanning again reports exactly the others, each at its new place |
| BraceFree.FixIsClean | scripts/code-verify.py:711-782 | the full fix leaves nothing to report and can be undone by deleting the blanks |
| Fences.ComputeFenceMask | scripts/code-verify.py:908-925 | a line is masked when it is a fence line or the last fence line before it says off |
| Fences.FencedExactly | scripts/code-verify.py:908-925 | a line stands in a fence if and only if the last fence line before it says off |
| Fences.BraceFreePass | scripts/code-verify.py:2724-2747 | scan, drop fenced ends, insert |
| Fences.FencedMoves | scripts/code-verify.py:908-925 | inserted blanks change no line's fence state |
| Fences.PassIsStable | scripts/code-verify.py:2724-2747 | a second brace-free pass finds only fenced ends and changes nothing |
| FenceGap.RunInOneFence | scripts/code-verify.py:908-925 | a sorted run lies wholly inside or wholly outside a fence |
| FenceGap.FencesHoldExactly | scripts/code-verify.py:2686-2724 | the QML pass leaves every fenced line alone if and only if no sorted run and no `id:` that asks for a blank stands in a fence |
| FenceGap.MaskSurvives | scripts/code-verify.py:2724-2735 | every line keeps its fence state through the QML pass, at its new place |
| FenceGap.FencedRunIsSorted | scripts/code-verify.py:2686-2719 | two property lines between an off comment and a blank line before the on comment are swapped |
| FenceGap.FenceDoesNotHold | scripts/code-verify.py:896-899 | the same on five lines of text |
| Tokenizer.Tokenize | scripts/code-verify.py:380-452 | the outer loop computes `Tokens`, the grouping `LogicalLines.TokensExactly` describes |
| Tokenizer.Absorb | scripts/code-verify.py:403-449 | the absorption loop with its depth and operator flags ends where `Tokens` does |
| LogicalLines.TokensExactly | scripts/code-verify.py:380-452 | a list is what `tokenize` returns if and only if it groups the lines so that a property or other line takes in exactly the lines behind it that are not blank, close no outer bracket, and stand behind an open bracket or an operator or start with a continuation |
| LogicalLines.OpenBracketsTakeIn | scripts/code-verify.py:434-435 | behind a group whose brackets are open comes only a blank line or one that closes more than is open |
| Tokenizer.TokensPartition | scripts/code-verify.py:380-452 | joining the groups gives the lines back, offsets are true, each group claims its lines and none could have gone on |
| Tokenizer.PartitionUnique | scripts/code-verify.py:380-452 | any grouping with these properties is the one `tokenize` returns |
| Tokenizer.NoOuterClose | scripts/code-verify.py:403-449 | no line is absorbed that closes a bracket of an outer block, and the depth of a group that starts non-negative stays so |
| Tokenizer.CommentIsTaken | scripts/code-verify.py:370-449 | a comment starts a logical line behind a line that can grow only when its own text closes more brackets than are open |
| Tokenizer.SlashesAreTaken | scripts/code-verify.py:370-449 | on text, no `//` line starts a logical line behind a property or other line |
| PropertySort.FindPropertyRuns | scripts/code-verify.py:510-577 | the loop with its frame stack finds the specified runs |
| PropertySort.PushFrames | scripts/code-verify.py:537-545 | an opening line pushes one frame per net brace, all of its own mode |
| PropertySort.PopFrames | scripts/code-verify.py:547-556 | a closing line pops one frame per net brace, at least one, never below empty |
| PropertySort.StackShape | scripts/code-verify.py:510-577 | the stack is QML frames then JS frames, so `any` is its top |
| PropertySort.RunsExact | scripts/code-verify.py:510-577 | a range is reported if and only if it is a maximal block of two or more properties outside every JS body |
| PropertySort.RunsOrdered | scripts/code-verify.py:510-577 | reported ranges are disjoint and ascending |
| PropertySort.SortRunStable | scripts/code-verify.py:580-588 | the sort is ascending by length, stable, and a permutation |
| PropertySort.StableUnique | scripts/code-verify.py:580-588 | there is only one stably sorted form of a run |
| SortedProperties.InJsExactly | scripts/code-verify.py:510-577 | the frame stack says script body if and only if the braces have stayed above the depth of a line that opens one |
| SortedProperties.SortExactly | scripts/code-verify.py:2692-2716 | every maximal block of properties outside script bodies whose lines are plain is stably sorted by width, and every other token stays |
| PropertySort.SortPass | scripts/code-verify.py:2692-2716 | finding, filtering and rewriting back to front computes the specified list |
| PropertySort.RewriteInside | scripts/code-verify.py:2710-2716 | each rewritten range holds its own tokens sorted |
| PropertySort.RewriteOutside | scripts/code-verify.py:2710-2716 | every token outside the rewritten ranges stays where it was |
| PropertySort.RewritePermutes | scripts/code-verify.py:2710-2716 | the whole rewrite is a permutation of the tokens |
| QmlPass.SortKeepsPlaces | scripts/code-verify.py:2692-2719 | every physical line outside a rewritten run keeps its index |
| QmlPass.SortPermutesLines | scripts/code-verify.py:2692-2719 | the rewritten buffer is a permutation of the physical lines |
| QmlPass.IdIndexSurvives | scripts/code-verify.py:2687-2724 | an id-blank index taken before the sort still names that `id:` line afterwards |
| QmlPass.Process | scripts/code-verify.py:2686-2724 | the steps in source order report and return what the specification says |
| IdPlacement.CheckShallowId | scripts/code-verify.py:830-892 | the walk over one body finds `Judge`, the verdict `IdBodies.JudgeExactly` describes |
| IdPlacement.CheckIdPlacement | scripts/code-verify.py:798-827 | the stack loop reports and asks for what the verdicts on all closed bodies say |
| IdBodies.JudgeExactly | scripts/code-verify.py:830-892 | with the first `id:` at depth 0 of a body: misplaced if and only if something else stands at depth 0 before it, otherwise asking for a blank if and only if the body goes on with no blank line, otherwise quiet |
| IdBodies.VerdictsExactly | scripts/code-verify.py:798-827 | a verdict is given if and only if it is the one on a body that some line opens and a later line closes |
| IdBodies.MisplacedExactly | scripts/code-verify.py:798-892 | a line is reported for a misplaced `id:` if and only if it starts the first shallow `id:` of some body with content in front of it |
| IdBodies.BlankWantedExactly | scripts/code-verify.py:798-892 | and for a missing blank if and only if no content stands in front of it and no blank line right behind it |
| IdPlacement.VerdictsMove | scripts/code-verify.py:798-892 | with blanks behind `id:` tokens every verdict is the old one moved, and fixed ones fall quiet |
| IdPlacement.BlanksSettleIds | scripts/code-verify.py:798-892 | in any nesting of bodies no further blank is asked for, and every misplaced id is still reported |
| Retokenize.RestartTokens | scripts/code-verify.py:380-452 | grouped tokens that stop before each other are the tokens of their own lines |
| Retokenize.InsertCommutes | scripts/code-verify.py:770-782 | inserting a blank line behind a token is inserting a blank token |
| Retokenize.BlanksRetokenize | scripts/code-verify.py:380-452 | tokenizing the buffer with the blanks gives the old tokens plus blank tokens |
| QmlStable.IdBlanksCommute | scripts/code-verify.py:798-892 | on every input the id fix adds only blank tokens, and the repeated check asks for no blank |
| QmlStable.SortRetokenizes | scripts/code-verify.py:2692-2719 | the sorted buffer tokenizes to the sorted tokens if and only if no sorted line takes in the line behind it |
| QmlStable.PlainRunsStop | scripts/code-verify.py:2692-2719 | that holds when the lines of the sorted runs balance their brackets and end on no operator |
| QmlStable.UnchangedExactly | scripts/code-verify.py:2686-2724 | on every buffer, a pass changes nothing if and only if it finds no run to sort and no blank to ask for |
| QmlSettles.FixedRetokenizes | scripts/code-verify.py:2686-2724 | when every asking `id:` still starts a logical line of the sorted buffer, the tokens of the fixed buffer are the sorted buffer's with blank tokens behind those ids |
| QmlSettles.BlanksKeepRuns | scripts/code-verify.py:510-577 | blanks behind `id:` tokens neither make nor unmake a run to sort |
| QmlSettles.SecondPassFinds | scripts/code-verify.py:2686-2724 | the second id check is that of the sorted buffer with the asked blanks in place, and the second search finds a run if and only if the sorted buffer has one |
| QmlSettles.OnePassSettles | scripts/code-verify.py:2686-2724 | a second pass changes nothing if and only if the sorted buffer holds no run to sort and asks for no blank but the asked ones |
| QmlSettles.BalancedAsksSurvive | scripts/code-verify.py:380-452 | when the sorted lines balance their brackets, every asking `id:` still starts a logical line: a run that ends on an operator takes in its own properties only |
| QmlSettles.BalancedPassSettles | scripts/code-verify.py:2686-2724 | for such buffers the if-and-only-if above, with no condition on operators |
| QmlSettles.StopsAsksSurvive | scripts/code-verify.py:2686-2724 | when no sorted line takes in the one behind it, the sorted buffer has the sorted tokens, all asking ids, and no run left to sort |
| QmlSettles.SortedOrderSettles | scripts/code-verify.py:2686-2724 | so then a second pass changes nothing if and only if the sorted order asks for no new blank |
| QmlSettles.PlainPassSettles | scripts/code-verify.py:2686-2724 | without stray braces in plain runs one pass is enough and every misplaced id is still reported |
| QmlTwice.OnePassMayNotSettle | scripts/code-verify.py:2686-2724 | a family of objects on which the first pass asks for no blank and a second one changes the file |
| QmlTwice.OnePassLeavesWork | scripts/code-verify.py:2686-2724 | the same on five lines of text |
| QmlTwice.TakingSettles | scripts/code-verify.py:2686-2724 | a family of objects in which a sorted property takes in the next one, and one pass is enough |
| QmlTwice.TakenLineSettles | scripts/code-verify.py:2686-2724 | the same on four lines of text, one ending in a comment |
| SourceFile.ProcessFile | scripts/code-verify.py:2685-2752 | the fixing part of the driver on the lines of a covered file computes the specified buffer, and its three change flags tell exactly whether a line changed |
| SourceFile.ProcessConserves | scripts/code-verify.py:2595-2747 | two sets of positions that hold empty lines can be deleted so that a permutation of the input remains, the input itself outside QML, and a further brace-free pass changes nothing |
| SourceFile.UnchangedRun | scripts/code-verify.py:2685-2752 | the whole run leaves every line as it is if and only if it sorts no run and asks for no blank |
| SourceFile.SecondRun | scripts/code-verify.py:2685-2752 | the whole run on its own output changes nothing if and only if that output, body blanks included, gives the QML pass no run and no blank |
| SourceFile.BlanksBetween | scripts/code-verify.py:380-452 | when every body blank goes between two logical lines, the tokens of the output are the old ones with blank tokens there |
| SourceFile.SecondRunBetween | scripts/code-verify.py:2685-2752 | then the second run changes nothing if and only if that list, known before the blanks are written, holds no run to sort and asks for no blank |
| SourceFile.LastLineStays | scripts/code-verify.py:2685-2747 | no blank is put behind the last line, and the sort leaves it or puts a property for a property there |
| RunTwice.OneRunMayNotSettle | scripts/code-verify.py:2685-2752 | a family of texts on which the first run only inserts a body blank and a second run sorts |
| RunTwice.OneRunLeavesWork | scripts/code-verify.py:2685-2752 | the same on four lines of text |
| FileText.ProcessText | scripts/code-verify.py:2595-2759 | the driver from text to text, for QML, other covered and merely tracked files, writes the specified text or nothing |
| FileText.SplitJoined | scripts/code-verify.py:2601-2754 | joined lines split into the same lines again, but for an empty last one |
| TextLines.LinesExactly | scripts/code-verify.py:2601-2602 | the lines of a text are the one list of texts without a boundary that spells it with one boundary behind each, `\r\n` being one |
| TextLines.BreaksAre | scripts/code-verify.py:2601-2602 | the ten boundary characters of `str.splitlines` |
| FileText.LastBlankStays | scripts/code-verify.py:2595-2747 | the processed lines end in a blank one if and only if the lines that were read do |
| FileText.WrittenText | scripts/code-verify.py:2595-2759 | a rewritten file has no line boundary but `\n`, keeps its final newline, and holds exactly the processed lines, the last one being lost if and only if the text read ends in a blank line with another line before it or no newline behind it |
| FileText.BlankLineIsLost | scripts/code-verify.py:2595-2759 | of `a\r\n\r\n` the blank line is lost |
| FileText.LoneBlankLineIsLost | scripts/code-verify.py:2595-2759 | a file of one carriage return becomes empty |
| Ledger.LedgerEntries | scripts/generate-property-registry.py:1939-1969 | the loop over all names computes the specified ledger |
| Ledger.EntryFor | scripts/generate-property-registry.py:1945-1967 | one command's retire, assign and next steps make `Step`, whose numbers `LedgerNumbers.NewNumbersExactly` states |
| Ledger.NextFree | scripts/generate-property-registry.py:1956-1957 | the probing loop terminates on the first unused number |
| LedgerNumbers.NewTakeFirstFree | scripts/generate-property-registry.py:1945-1967 | on any entry, each new parameter in name order takes the first number from `next` on that is neither retired nor kept |
| LedgerNumbers.NewNumbersExactly | scripts/generate-property-registry.py:1945-1967 | on a valid entry a new parameter gets `next` plus the number of new ones that sort before it, and `next` moves on by the number of new ones |
| LedgerNumbers.NoGap | scripts/generate-property-registry.py:1945-1967 | the numbers from the old `next` up to the new one are those of the new parameters |
| LedgerNumbers.NoNumberIsSkipped | scripts/generate-property-registry.py:1939-1969 | over every history the numbers from 2 up to `next` are exactly the bound and the retired ones |
| Ledger.ProbeIsFirst | scripts/generate-property-registry.py:1956-1957 | every number passed over is in use |
| Ledger.StepKeeps | scripts/generate-property-registry.py:1945-1967 | from any entry, valid or not, a number stays bound or is retired, `next` does not go back, and the fields are those of the snapshot |
| Ledger.StepValid | scripts/generate-property-registry.py:1945-1967 | numbers stay injective, at least 2, disjoint from `reserved` and below `next` |
| Ledger.HistoryValid | scripts/generate-property-registry.py:1939-1969 | the ledger of every finite history is valid |
| Ledger.NumbersAreForever | scripts/generate-property-registry.py:1939-1969 | at every later moment a number is bound to its parameter or retired, and no command is dropped |
| Ledger.OneParameterPerNumber | scripts/generate-property-registry.py:1939-1969 | over any history a field number of a command names one parameter only |
| Ledger.ReturnKeepsNumbers | scripts/generate-property-registry.py:1939-1969 | a command that vanishes and returns with the same parameters has the same entry |
| Ledger.RegenerateIsIdempotent | scripts/generate-property-registry.py:1939-1969 | regenerating from the same snapshot changes nothing |
| LedgerConsumers.NumberFields | scripts/generate-property-registry.py:2046-2065 | the two loops over recorded and pending parameters compute the specified numbering |
| LedgerConsumers.EveryParameterOnce | scripts/generate-property-registry.py:2046-2065 | every parameter gets exactly one number, at least 2 and never reserved, recorded ones keep theirs |
| LedgerConsumers.RestIsAppended | scripts/generate-property-registry.py:2046-2065 | on any entry the parameters without a recorded number get, in name order, the numbers right behind the largest one in use |
| LedgerConsumers.TopExactly | scripts/generate-property-registry.py:2046-2065 | which is the largest recorded or reserved number, or 1 |
| LedgerConsumers.MessageInvertsLedger | scripts/generate-property-registry.py:2046-2065 | after any history the message of a snapshot command is the inverse of the ledger's `fields` |
| LedgerConsumers.ProtoRenumberViolations | scripts/code-verify.py:4013-4060 | the checker reports exactly the dropped, lost, moved and regressed entries |
| LedgerConsumers.GeneratorIsAccepted | scripts/code-verify.py:4013-4060 | the checker accepts every ledger the generator makes from its predecessor |
| LedgerConsumers.AcceptedIsAppendOnly | scripts/code-verify.py:4013-4060 | a change is append-only if and only if it is accepted and no number has left `reserved` |
| LedgerConsumers.CheckMissesReissue | scripts/code-verify.py:4013-4060 | a valid pair of ledgers that is accepted although a number is issued twice |
| LedgerConsumers.RemoveAndRestoreIsReported | scripts/code-verify.py:4013-4060 | a parameter removed and restored between two checks is reported as moved |
| LedgerConsumers.AcceptedOverHistory | scripts/code-verify.py:4013-4060 | between any two moments of a history the check accepts if and only if no parameter numbered at both was missing from a snapshot of its command in between |
| OrderedAnchor.FillTables | scripts/claim-verify.py:717-723 | the nested loops fill `best` and `prev` with the specified values |
| OrderedAnchor.OutOfOrder | scripts/claim-verify.py:709-733 | the table loop, the choice of the end and the walk back report `Misplaced`, the symbols `AnchorReport.MisplacedAreOutside` names |
| AnchorReport.MisplacedAreOutside | scripts/claim-verify.py:709-733 | the symbols returned are, in source order, those of exactly the entries outside the kept run |
| AnchorReport.KeptIsFirstRun | scripts/claim-verify.py:717-732 | the kept run ends at the first entry a longest ordered run can end at, and going back takes the first entry each time |
| AnchorReport.FindingsExactly | scripts/claim-verify.py:832-858 | the findings are the symbols the document does not name, then those of the named entries outside the kept run, each in source order |
| OrderedAnchor.CheckOrder | scripts/claim-verify.py:832-858 | missing symbols first, then the misplaced ones |
| OrderedAnchor.KeepInOrder | scripts/claim-verify.py:724-733 | the walk back collects `best` entries with rising offsets |
| OrderedAnchor.BestIsBound | scripts/claim-verify.py:717-723 | no ordered choice of entries is longer than `best` |
| OrderedAnchor.RemovalIsMinimal | scripts/claim-verify.py:709-733 | what is left is in order, and no fewer symbols could be moved |
| OrderedAnchor.NothingMisplaced | scripts/claim-verify.py:709-733 | the result is empty if and only if the list follows source order |
| OrderedAnchor.AnchorIsSilent | scripts/claim-verify.py:832-858 | the anchor is silent if and only if every symbol is named and offsets rise |
| CloneCensus.BuildOwners | scripts/code-verify.py:4713-4724 | the index maps each window to the files that hold it |
| CloneCensus.AddPairs | scripts/code-verify.py:4726-4737 | the pair loops add one to each unordered pair of sharers once |
| CloneCensus.CountPairs | scripts/code-verify.py:4726-4737 | a pair's count is the number of windows it is counted for |
| CloneCensus.CountedIsCommon | scripts/code-verify.py:4707-4750 | a window is counted for two files exactly when both have it and at most 16 files do |
| CloneCensus.CountedIsOriented | scripts/code-verify.py:4726-4737 | no pair is counted the other way round, with itself or without owning files |
| CloneCensus.DupCensus | scripts/code-verify.py:4694-4750 | the census is the direct one: set intersections above the threshold, and their sum |
| CloneCensus.WindowsAre | scripts/code-verify.py:4699-4706 | a window of a file is ten consecutive lines of it, from every place where ten are left |
| CloneCensus.PairExactly | scripts/code-verify.py:4713-4750 | two files are reported if and only if more than 40 windows stand in both and in at most 16 files altogether, with the number of those |
| CloneCensus.CensusOf | scripts/code-verify.py:4694-4750 | the same from the normalized lines of a tree, files without a full window left out |
| IncludeClosure.Closure | scripts/code_verify_rules.py:3845-3877 | the worklist ends on cyclic graphs, handles no file twice, and returns the names of the files the walk visits |
| IncludeClosure.VisitedIs | scripts/code_verify_rules.py:3845-3877 | the walk visits reachable files only, fewer than the cap, and all of them if and only if fewer than the cap are reachable |
| IncludeClosure.ProgressStep | scripts/code_verify_rules.py:3858-3875 | one turn keeps the worklist invariant |
| IncludeClosure.Findings | scripts/code_verify_rules.py:3911-3920 | a use is reported once, exactly when its class is declared, not defined and not angle-included |
| IncludeClosure.MemberPointerFindings | scripts/code_verify_rules.py:3908-3920 | the rule decides incompleteness over the visited files, which below the cap are all reachable ones |
| IncludeClosure.IncompleteExactly | scripts/code_verify_rules.py:3908-3920 | a class is incomplete if and only if a file walked declares it and none defines it or names it in an angle include |
| IncludeClosure.LastIncludeFirst | scripts/code_verify_rules.py:3858-3875 | of two includes the later one is walked first, so the cap cuts off the earlier one |
| IncludeClosure.WideStops | scripts/code_verify_rules.py:3858-3875 | for every cap of at least 2 there is a tree whose walk stops behind its first file |
| IncludeClosure.CutWalkStillReports | scripts/code_verify_rules.py:3740-3743 | for every such cap the rule reports a class that the unread files define |
| IncludeClosure.RuleReportsAtTheCap | scripts/code_verify_rules.py:3740-3743 | the same at the cap of 2000 files |
| SdkNamespaces.DropNamespaceCollisions | scripts/generate-sdk.py:372-398 | kept and dropped are split by the namespace set |
| SdkNamespaces.DroppedAre | scripts/generate-sdk.py:372-398 | a command is dropped if and only if another one continues it behind a dot |
| SdkNamespaces.PrefixesAre | scripts/generate-sdk.py:193-204 | the collected namespaces of a name are its proper dotted prefixes |
| SdkNamespaces.ParentFirst | scripts/generate-sdk.py:193-213 | each namespace is declared after its parent |
| SdkNamespaces.Emit | scripts/generate-sdk.py:193-246 | the emitting loops produce the specified statements, one program for both languages |
| SdkNamespaces.DeclareAll | scripts/generate-sdk.py:193-213 | every prefix of the declarations runs without error and makes its objects |
| SdkNamespaces.AssignAll | scripts/generate-sdk.py:214-246 | no wrapper assignment overwrites a namespace or an earlier wrapper |
| SdkNamespaces.EveryCommandResolves | scripts/generate-sdk.py:193-367 | in JavaScript and in Lua, after the program every kept command path yields its own wrapper and every namespace is an object |
| SdkNamespaces.FalsyGlobal | scripts/generate-sdk.py:201-329 | a falsy global of the name of a namespace is replaced in Lua, and in JavaScript the program cannot go on under it |
| Base64.ToBase64Js | scripts/generate-sdk.py:114-129 | the 24-bit word loop computes the specified text |
| Base64.ToBase64Lua | scripts/generate-sdk.py:280-296 | the per-sextet loop computes the specified text |
| Base64.EncodersAgree | scripts/generate-sdk.py:114-296 | both clients emit the same text for all bytes |
| Base64.EncodedLength | scripts/generate-sdk.py:114-129 | the output has four characters per started triple |
| Base64.DecodeInvertsEncode | scripts/generate-sdk.py:114-129 | a decoder of section 4 of RFC 4648 recovers every byte sequence |
| Base64.EncodeInvertsDecode | scripts/generate-sdk.py:114-129 | every text that decoder accepts is the encoding of what it reads |
| Base64.ParseHex | scripts/generate-sdk.py:132-138 | the pair loop reads the specified bytes |
| Base64.HexDigitsExactly | scripts/generate-sdk.py:132-138 | the digits read are, in order, exactly the characters 0-9, a-f and A-F of the text |
| Base64.HexSpellsBytes | scripts/generate-sdk.py:132-138 | the bytes of Hex mode spell the digits again, whatever separators stood between them |
| Base64.OddDigitIsPadded | scripts/generate-sdk.py:132-138 | with an odd number of digits the last one is a byte of its own, as if a zero stood in front of it |
| Base64.HexRoundTrip | scripts/generate-sdk.py:132-138 | a text whose digits spell some bytes yields those bytes |
| Base64.EncodeValue | scripts/generate-sdk.py:131-148 | the receiver decodes the hex bytes or the low character bytes, and a base64 value is passed on |
| Base64.ParseHexLua | scripts/generate-sdk.py:299-306 | the pair loop of the Lua client reads the same bytes |
| Base64.EncodeValueLua | scripts/generate-sdk.py:298-312 | the receiver decodes the hex bytes or the very bytes of the Lua string, and a base64 value is passed on |
| Base64.TextModesAgree | scripts/generate-sdk.py:140-310 | in Text mode the clients send the same for a text, in Lua as UTF-8, if and only if it is ASCII |
| Base64.TextKeepsLatin1 | scripts/generate-sdk.py:140-144 | Text mode keeps a text if and only if all its characters are below 256 |
| LineWrap.SplitText | scripts/generate-property-registry.py:147-162 | the word loop computes the specified chunks |
| WrapRules.ChunksExactly | scripts/generate-property-registry.py:147-162 | the chunks are the words packed greedily: each holds as many as fit the width, at least 16, and the next word would not have fitted |
| LineWrap.ChunksSpellText | scripts/generate-property-registry.py:147-162 | the chunks concatenate to the text exactly when no word meets an empty chunk, otherwise one space is missing for each |
| LineWrap.TidyTextIsSpelled | scripts/generate-property-registry.py:147-162 | text without leading or doubled spaces is spelled exactly |
| LineWrap.LeadingSpaceIsLost | scripts/generate-property-registry.py:147-162 | a leading space is always lost |
| LineWrap.ChunksFit | scripts/generate-property-registry.py:147-162 | a chunk is at most one over the width unless it is a single word |
| LineWrap.FindCallBreak | scripts/generate-property-registry.py:189-206 | the break is the first round or curly opener whose list has a top-level comma |
| WrapRules.CallBreakExactly | scripts/generate-property-registry.py:189-206 | the break is the first round or curly bracket that is still open, with no other inside it, at some comma behind it |
| LineWrap.SplitArgs | scripts/generate-property-registry.py:227-241 | the arguments are cut at the commas at bracket depth zero |
| WrapRules.ArgsExactly | scripts/generate-property-registry.py:227-241 | the cuts are exactly the commas in front of which as many brackets were closed as opened |
| LineWrap.FillLines | scripts/generate-property-registry.py:209-254 | the filling loop packs the arguments as specified |
| WrapRules.FillExactly | scripts/generate-property-registry.py:242-254 | each line takes as many arguments as 100 columns hold, one in any case behind a round bracket or the margin, and the next would not have fitted |
| LineWrap.Emit | scripts/generate-property-registry.py:209-254 | the recursive emitter terminates on the shrinking right-hand side |
| WrapRules.EmitExactly | scripts/generate-property-registry.py:209-254 | a statement stays whole with room or without a place to break, is split behind its first ` = ` when that line and the rest have room, and is otherwise broken at its first call |
| LineWrap.TokensSurvive | scripts/generate-property-registry.py:209-254 | the emitted lines without white space are the statement without white space |
| Literals.LiteralsSurvive | scripts/generate-property-registry.py:209-254 | when every cut lies in code, no literal is broken over two lines and the statement keeps all but the white space of its code |
| LiteralCuts.FillKept | scripts/generate-property-registry.py:209-254 | the filled arguments keep their literals if and only if at each argument what is put in front of it and stripped off it changes none |
| LiteralCuts.EmitKeepsLiteralsExactly | scripts/generate-property-registry.py:209-254 | for every statement the emitted text keeps the literals if and only if no ` = ` it is cut at stands in one and no argument it is cut at loses or gains space in one: a test made before the call |
| Literals.CommaBreaksLiteral | scripts/generate-property-registry.py:227-254 | an overlong call with a comma in its first literal is written with a line end inside the literal |
| Persistence.SimplifyIdempotent | scripts/generate-property-registry.py:642-681 | normalising white space twice is normalising it once |
| Persistence.ReadAfterWrite | scripts/generate-property-registry.py:616-681 | in any manifest with distinct keys a property reads only what its own statement wrote |
| Persistence.WrittenExactly | scripts/generate-property-registry.py:616-639 | the emitted guard lets a property through if and only if its persistence rule says so |
| Persistence.RoundTripExactly | scripts/generate-property-registry.py:616-681 | exactly these values of a property survive writing and reading |
| Persistence.LawfulRoundTrip | scripts/generate-property-registry.py:616-681 | for a lawful property reading undoes writing if and only if the value is in the rule's range, at the default, or its gate holds |
| IconPlan.FindCanonical | scripts/icon-migrate.py:206-210 | the first member by category, name length and path is the canonical file |
| IconRules.HomeExactly | scripts/icon-migrate.py:206-210 | the kept copy is the one no other copy betters: by place of the category in the list, then length of the name, then path |
| IconRules.DedupedExactly | scripts/icon-migrate.py:211-219 | every other copy is dropped, takes over category, name and hint of that one, and is flagged for each of the first two that changes |
| IconPlan.IconFile.FoldInto | scripts/icon-migrate.py:211-219 | a copy takes over category, name and hint and is flagged for what changed |
| IconPlan.FoldGroup | scripts/icon-migrate.py:206-219 | every copy of one content is folded, all other records stay |
| IconPlan.Dedupe | scripts/icon-migrate.py:200-220 | the record objects end up deduplicated as specified |
| IconPlan.OneKeptPerContent | scripts/icon-migrate.py:200-220 | of each set of identical files exactly the canonical one is kept, and it is the twin the second step finds |
| IconPlan.PlaceGroup | scripts/icon-migrate.py:229-246 | the members of a group take tiers in order, the rest is untouched |
| IconRules.QueueExactly | scripts/icon-migrate.py:225-230 | a group takes its slots in exactly one order: width, size hint, path |
| IconRules.NaturalTierExactly | scripts/icon-migrate.py:139-237 | which widths, hints and folders ask for which tier |
| IconRules.SlotExactly | scripts/icon-migrate.py:233-242 | a file gets the tier it asks for when free, else the smallest free one above when it is at most twice that wide, else a conflict |
| IconRules.SlotOfExactly | scripts/icon-migrate.py:223-246 | the slot of a file is the one it gets when its group queues up and each member in turn takes a slot among those still free |
| TierRoom.PlacedExactly | scripts/icon-migrate.py:223-246 | a group of ordinary files is placed without a conflict if and only if it has at most four, at most three wider than 17, two wider than 25.5 and one wider than 42 |
| TierRoom.WiderIsHigher | scripts/icon-migrate.py:223-246 | and then the wider of two files has the higher tier |
| IconPlan.AssignTiers | scripts/icon-migrate.py:223-251 | kept records get their slots and dropped ones the tier and target of their twin |
| IconPlan.SlotsDiffer | scripts/icon-migrate.py:229-246 | two unflagged members of a group never share a tier |
| IconPlan.TargetsDiffer | scripts/icon-migrate.py:223-246 | unflagged kept files get pairwise distinct target paths |
| IconApply.IconTree.Check | scripts/icon-migrate.py:283-310 | the refusals, in order: malformed, conflict, collision, drifted tree, drifted content |
| IconApply.IconTree.Execute | scripts/icon-migrate.py:312-322 | renames and unlinks transform the tree row by row, stopping at a row whose file is gone |
| IconApply.KeptAll | scripts/icon-migrate.py:332-341 | the resource file keeps all its lines if and only if it lists no icon |
| IconApply.PlaceIsFirst | scripts/icon-migrate.py:332-341 | the new entries go where the first old icon entry stood |
| IconTrees.KeptExactly | scripts/icon-migrate.py:332-341 | the lines that stay are those without an icon entry, all of them and in order |
| IconApply.IconTree.RewriteQrc | scripts/icon-migrate.py:332-354 | without an icon entry nothing is written, otherwise the other lines stay around the block of plain entries and aliases |
| IconApply.QrcReadsBack | scripts/icon-migrate.py:332-354 | reading the rewritten file gives the targets and the placeholder, each once and in order, and every alias of the manifest, between what the kept lines say |
| IconApply.IconTree.Apply | scripts/icon-migrate.py:283-354 | a refused manifest touches nothing, an accepted one leaves tree and aliases as specified, and the last refusal finds the files already moved |
| IconApply.SourcesRemain | scripts/icon-migrate.py:312-322 | an accepted manifest never stops half-way |
| IconTrees.TreeExactly | scripts/icon-migrate.py:312-329 | an accepted manifest leaves the placeholder, the targets no later row takes away, and the files no row is about |
| IconTrees.BytesExactly | scripts/icon-migrate.py:312-329 | and when no move lands on a later source, each target has the bytes of its row and every other file its own |
| IconApply.AliasesPreserve | scripts/icon-migrate.py:283-354 | every old path yields its original bytes through its alias if and only if no move lands on a later row's source |
| IconApply.SwapLosesAFile | scripts/icon-migrate.py:312-322 | two files that swap places pass every check and one is lost |
| IconApply.AuditedSwapLosesAFile | scripts/icon-migrate.py:200-322 | the audit plans such a swap without a flag, the apply run accepts it, and one old path yields the other icon, the other path none |
| IconApply.AuditIsSound | scripts/icon-migrate.py:200-251 | an audited manifest has one row per file, a kept twin for each dropped copy, no row on the placeholder, and no collision unless it is flagged |
| IconApply.MigrationKeepsEveryIcon | scripts/icon-migrate.py:200-354 | on the audited tree only flags refuse, and without flags the if-and-only-if above holds of the whole run |
| IconApply.FreshTreesAreSafe | scripts/icon-migrate.py:283-329 | a tree whose files do not already sit in tier folders is always safe |
| CommitBatch.PlanAssignments | scripts/commit-batch.py:95-126 | a plan is accepted if and only if every entry fits and nothing is left, and a refusal names the first entry that does not fit |
| CommitPlans.AcceptableExactly | scripts/commit-batch.py:82-126 | a plan is accepted if and only if only its last entry takes the rest, every listed path names a change, no change is named twice and none is left over |
| CommitPlans.SharesExactly | scripts/commit-batch.py:82-126 | and each entry gets the changes its paths name, path by path, or the unnamed ones |
| CommitPlans.CoversIs | scripts/commit-batch.py:82-92 | a listed path names a changed one if and only if, without trailing slashes, it is that path or a folder above it |
| CommitBatch.AcceptedPlanPartitions | scripts/commit-batch.py:86-126 | an accepted plan assigns every changed path to exactly one entry, and says which entries come out empty |
| CommitBatch.CheckMessages | scripts/commit-batch.py:129-138 | the first entry without a message, or without a trailer when one is required, is named |
| CommitBatch.Repository.CommitEntry | scripts/commit-batch.py:155-187 | one commit from a private index, a refusal leaves head and index alone |
| CommitBatch.Repository.CommitSeries | scripts/commit-batch.py:229-230 | the series stops at the first refusal, and after every commit the index matches the head |
| CommitBatch.Repository.Run | scripts/commit-batch.py:190-232 | every refusal, in order, and the dry run change nothing, and a series follows an accepted plan |
| CommitBatch.NothingIsLost | scripts/commit-batch.py:155-230 | at every stop head plus uncommitted changes is the working tree, and a full series ends there but for the plan file |
| CommitBatch.CommitsAreExact | scripts/commit-batch.py:155-187 | each commit alters exactly its own paths if and only if no entry reaches a change that is left |
| CommitBatch.OnlyEmptyEntriesReach | scripts/commit-batch.py:160-161 | without file-to-folder replacements that means: no empty entry while a change, or the plan file, is left |
| CommitBatch.EmptyEntryTakesAll | scripts/commit-batch.py:160-161 | an empty entry commits the whole working tree and every later entry is refused |
| CommitBatch.EmptyEntryIsAccepted | scripts/commit-batch.py:95-126 | the planner accepts an entry without paths |

## Left out

- QmlSettles.OnePassSettles: a buffer in which a sorted line with unbalanced brackets takes in an asking `id:` is outside the statement; there the blank falls inside a logical line, and `QmlStable.UnchangedExactly` decides on the written buffer.
- QmlSettles.PlainPassSettles: a sufficient condition read off single lines; the exact one is `OnePassSettles`.
- SourceFile.SecondRun: decided on the output of the first run; `SecondRunBetween` decides before the body blanks are written, unless one of them falls inside a logical line.
- FileText.ProcessText: decoding the bytes as UTF-8 is not modelled.
- PropertySort.SortRunStable: Python's sort is modelled by stable insertion, which `StableUnique` shows to be the only stable result.
- CommitBatch.CommitsAreExact: pathspec magic (globs, a leading colon) is not modelled; changes, tree contents and the verdict of the shape engine are parameters, ignored files are not part of the working tree.
- CommitBatch.Repository.Run: the verdicts of the engines on trailers, freshness and shape are parameters.
- IconApply.IconTree.Apply: a digest stands for the content it is taken of, and folders are not modelled.
- TierRoom.PlacedExactly: about groups in which only the width decides; for size hints, pinned folders and negative widths
  `IconRules.SlotOfExactly` says which slot each file gets.
- Patterns.KindExactly: a physical line holds no newline, so `.` is any character and `$` the end of the line.
- IconPlan.AssignTiers: widths are real numbers instead of floats; scanning the tree, the view-box pattern and name overrides are not modelled.
- IconApply.QrcReadsBack: old paths hold no quotation mark, which would end the attribute they are written into.
- Literals.LiteralsSurvive: a simpler sufficient condition; the exact one is `LiteralCuts.EmitKeepsLiteralsExactly`.
- Base64.TextKeepsLatin1: characters are single code units, so texts with surrogate pairs are outside the statement.
- Base64.EncodeValueLua: the call of `tostring` on a value that is no string is not modelled.
- CloneCensus.DupCensus: windows are compared as such and not through their hashes; the normalisation of a line and the report layout are not modelled.
- IncludeClosure.Closure: include resolution and the patterns that collect names are a parameter, the tree.
- OrderedAnchor.CheckOrder: reading the document and the source list is a parameter.
- SdkNamespaces.EveryCommandResolves: tables of the script engine are values addressed by path, without aliasing between globals; documentation comments and argument lists of the wrappers are not modelled.
- Persistence.LawfulRoundTrip: JSON conversions between value types and the post-read steps are not modelled; a pair is taken to be of one numeric type, as `qMin` and `qMax` demand.
- Ledger.LedgerEntries: malformed JSON entries are not modelled.
- Lines.DescribeWellFormed: white space inside a line is the blank and the tab, and word characters are the ASCII ones.
- The flag-only scanners, phrase tables, AST rules, `_split_connect_args`, `_gather_while_condition` and the translation-unit census of the verifier scripts.
- `wrapped_call`, the message text around the numbers, and the rest of the generated C++.
- File walking, git and subprocess calls, argument parsing, reports and console output.
