# Models of the render harness and the developer gates

This project models the parts of the repository's developer tooling that decide
something by an algorithm: the render harness (`dev/screenshot/render-wide.py`), the
text scanners of the gates under `dev/scripts/`, the import walk behind
`check-components-rendered.py`, and the two page probes that compute
(`overlapping-text.js`, `tab-order.js`). It proves what those algorithms are for. The
proofs cover the models in the `.dfy` files and nothing that executes.

`dafny verify dfyconfig.toml` checks the whole project.

## How it is laid out

- **The render harness.** `RenderModel.dfy` gives one transition per callback. The
  state holds the one continuation the main loop is waiting for, a timer or a
  JavaScript evaluation; every answer of the page is arbitrary and the clock is
  monotone. `RenderRuns.dfy` proves invariants over all runs against a log of what the
  page actually did, read from the answers alone. `RenderEnds.dfy` has how long a run
  can be, `RenderCauses.dfy` where it dies and what each exit status answers,
  `RenderAnswers.dfy` what each answer of the page means and how long the run waits.
  `RenderMachine.dfy` is the object with its fields and a ghost log; the invariant of
  the runs is its class invariant, kept by every method, and `Run` is the main loop.
- **Blankers and braces.** `Lexing.dfy` is a declarative token grammar with exactly
  one lexing per text. `Blankers.dfy` proves both blankers against it; `BlankerLaws.dfy`
  has idempotence, comments and agreement; `Braces.dfy` has `enclosing_body` and the
  four block extractors; `Scopes.dfy` and `ScopeTrackers.dfy` the test-scope trackers.
- **Scanners that undo a printer.** For `if_blocks`: `TemplateTokens.dfy`,
  `Templates.dfy`, `TemplateScan.dfy`, `TemplateLaws.dfy`, `TemplatePrinting.dfy` and
  `TemplateMarkup.dfy`. For the call arity: `CallArity.dfy`, `CallArityLaws.dfy`,
  `CallReading.dfy`, `CallTrees.dfy` and `CallComments.dfy`. Then `ObjectKeys.dfy` and
  `ObjectKeysLaws.dfy`, `WireNames.dfy`, `Chords.dfy`, with `Passing.dfy` for text a
  scanner reads without stopping, and `Splitting.dfy` and `Strings.dfy` for Python's
  string functions.
- **Graph and geometry.** `Reachability.dfy`, `Overlap.dfy`, `OverlapPairs.dfy`,
  `TabOrder.dfy`, `Geometry.dfy`.

## What the code does that its words do not say

- `blank_noncode` is not idempotent: it keeps the opening quote of a string and blanks
  the closing one, so a second pass reads on past it. `SecondPassLosesBrace` is such a
  text and `BlankNoncodeIdempotentIff` says exactly when a second pass changes nothing.
- `split_top_level` counts `<` and `>` with the brackets, so an arrow takes the depth
  below zero and the comma behind it is not seen (`ArrowHidesComma`); and
  `strip_comments` cuts at a `//` inside a string (`AddressIsCut`). `ReadBackIff` says
  exactly which argument lists are read back.
- The arity check applies `balanced` to the raw text before comments are stripped, so a
  parenthesis or a quotation mark in a comment counts (`CommentEndsCall`).
  `CommentedCallIff` says exactly when a commented call is taken whole.
- `if_blocks` says that it stops at the branch's own `{:else}`. It takes the `{:else}` of
  an `{#each}` for it as well (`EachElseCutsBranch`); `IfBlocksUndoesShow` says exactly
  when the branches come out whole.
- `js_keys` misses a key written without a colon and takes the name in front of a
  conditional's colon (`KeyMissedNameTaken`); `AllKeysIff` says exactly when it is right.
- `body_from` says nothing of a block that never closes where its three siblings return
  the rest of the text. `ExtractorsAgreeIff` says that they agree exactly on the blocks
  that close.
- The load timeout is not cancelled when the page has loaded, so it can end a run at any
  stage with the words that the page never finished loading (`TimeoutAfterLoading`);
  `TimeoutIsRightIff` says exactly when they are true. The bounds on the length of a run
  do not use the timeout.
- `on_probe` sets status 0 before the picture is taken. `EarlyZero` says that this is the
  only stage at which a run that has not quit carries status 0; `ExitStatus` says that a
  run that has quit with 0 wrote its picture.
- A callback that dies on an exception leaves nothing outstanding, and the run then ends
  only by the timeout or a failed load: `Stalled`. `AnyRunCanStall` gives such a run for
  every command line; `DiesIff` and `StalledIff` say exactly which exceptions those are.
- One plus at the end of a chord is read as the key and costs the name in front of it
  (`LonePlusDropsName`); a chord on the plus key ends in two. `NothingLostIff` says
  exactly which chords are read whole.

## Model

| member | source | states |
|---|---|---|
| `RenderMachine.Render.constructor` | dev/screenshot/render-wide.py:109-117 | a new object satisfies the class invariant in the start state: status 1, nothing checked, nothing pending, an empty log |
| `RenderMachine.Render.Painted` | dev/screenshot/render-wide.py:255-273 | keeps the class invariant; the paint poll never ends the run and adds nothing to the log |
| `RenderMachine.Render.StylesChecked` | dev/screenshot/render-wide.py:309-325 | keeps the class invariant; the page is measured only with clean styles and a zoom in bounds in the log, and a run that quits here has 4, 6 or 9 and no picture |
| `RenderMachine.Render.SetPageWidth` | dev/screenshot/render-wide.py:327-343 | no surface refuses with 6, a zoom out of bounds with 4 |
| `RenderModel.ZoomByDividing` | dev/screenshot/render-wide.py:333-334 | the bounds of the zoom, said without dividing, are those of the quotient; a negative width never fits |
| `RenderMachine.Render.Measured` | dev/screenshot/render-wide.py:352-376 | keeps the class invariant; a run that goes on has exactly the three sizing facts in its log, and one that goes on to click has the whole list of selectors ahead of it |
| `RenderMachine.Render.TypedInto` | dev/screenshot/render-wide.py:671-688 | keeps the class invariant; typing is logged exactly when the field was there, and then the whole list of selectors is queued, else the run quits |
| `RenderMachine.Render.ClickAnswered` | dev/screenshot/render-wide.py:755-779 | keeps the class invariant; a click that landed moves its selector from the queue to the log and one that did not leaves both, so log and queue always add up to all the clicks asked for |
| `RenderMachine.Render.FinishRun` | dev/screenshot/render-wide.py:402-595 | establishes the class invariant; the text is asked for exactly if it is required and was not, and everything else starts only with the whole set-up in the log |
| `RenderMachine.Render.TextRead` | dev/screenshot/render-wide.py:389-400 | keeps the class invariant; with the text the log is the whole set-up and the text is not asked for again, without it the run quits with 11 |
| `RenderMachine.Render.ProbeRead` | dev/screenshot/render-wide.py:511-535 | keeps the class invariant; the status is 0 exactly when the log is the set-up and the probe's answer |
| `RenderMachine.Render.AxeRead` | dev/screenshot/render-wide.py:615-645 | keeps the class invariant; the picture is taken exactly when the audit was read, and the log holds the number of findings the object counted |
| `RenderMachine.Render.SnapshotTaken` | dev/screenshot/render-wide.py:786-805 | keeps the class invariant; a picture written makes the log complete with status 0 exactly without findings, a failed one is 7 and adds nothing |
| `RenderMachine.Render.Deliver` | dev/screenshot/render-wide.py:212-248 | every event, load events and the timeout included, keeps the class invariant, makes the step of the model and logs exactly what it established |
| `RenderMachine.Render.Run` | dev/screenshot/render-wide.py:119-121 | over a whole run the object keeps its invariant and ends in the state the model reaches with its log; it exits 0 exactly with the complete log, and the picture exists exactly for 0 and 1 |
| `RenderRuns.StepKeeps` | dev/screenshot/render-wide.py:245-805 | every step, whatever the page answers, keeps the stage-by-stage invariant tying log, queue and status |
| `RenderRuns.AlwaysConsistent` | dev/screenshot/render-wide.py:106-805 | the invariant holds in every reachable state |
| `RenderRuns.ExitStatus` | dev/screenshot/render-wide.py:786-805 | status 0 if and only if styles were clean, zoom and width in bounds, typing done, every selector clicked in order, the text seen, the probe or audit answered with no finding and the PNG written; 1 exactly with findings; any other status leaves no PNG |
| `RenderRuns.NothingStartsEarly` | dev/screenshot/render-wide.py:402-430 | in every reachable state the log is a prefix of the complete one, and no probe, audit or picture is under way before the whole set-up, with no click pending |
| `RenderRuns.EarlyZero` | dev/screenshot/render-wide.py:511-535 | before the quit the status is 0 exactly while a probe's picture is being taken |
| `RenderEnds.TextAskedOnce` | dev/screenshot/render-wide.py:389-430 | over every run the text is asked for at most once, and the flag says whether it was |
| `RenderEnds.StepLowersRank` | dev/screenshot/render-wide.py:245-779 | a measure over stage, pending clicks, polls left and audit reads falls at every callback |
| `RenderEnds.RunsSpendRank` | dev/screenshot/render-wide.py:245-779 | over a run, callbacks delivered plus measure left never exceed the measure at the start |
| `RenderEnds.CallbacksBounded` | dev/screenshot/render-wide.py:245-779 | the number of callbacks of any run is bounded by the command line alone, without the load timeout |
| `RenderEnds.EveryRunEnds` | dev/screenshot/render-wide.py:245-805 | from every history and for every page, whatever it answers and however long it takes, the run comes within its measure to a state with nothing outstanding: it has quit or a callback has died |
| `RenderEnds.Progress` | dev/screenshot/render-wide.py:245-805 | a timer or an answer can be delivered exactly in the states past loading that have neither quit nor stalled |
| `RenderCauses.DiesIff` | dev/screenshot/render-wide.py:245-645 | from a reachable state a step stalls exactly on an exception nobody catches: an interval outside 32 bits, an unnameable style list, a width of 0, a viewport that is not numbers, an unreadable source, an unprintable finding; never on an empty click queue |
| `RenderCauses.StalledIff` | dev/screenshot/render-wide.py:245-645 | a run is stalled exactly when such an exception was raised and only load events that change nothing came after it |
| `RenderCauses.AnyRunCanStall` | dev/screenshot/render-wide.py:262-325 | every command line has a run that stalls; one whose settle is no possible interval stalls at the second event |
| `RenderCauses.StatusIff` | dev/screenshot/render-wide.py:212-805 | over every run and for every code: it has quit with the code exactly when its last event is a cause of that code in the state before, the causes being listed code by code; no other code exists |
| `RenderCauses.TimeoutIsRightIff` | dev/screenshot/render-wide.py:218-221 | the timeout ends any run that has not quit with 5; its words, that the page never finished loading, are true exactly in the stage `Loading` |
| `RenderCauses.TimeoutAfterLoading` | dev/screenshot/render-wide.py:218-221 | for every command line, a run whose page has finished loading and that says it never did |
| `RenderCauses.FailedLoadEnds` | dev/screenshot/render-wide.py:212-216 | a load that fails ends any run that has not quit with 9 |
| `RenderAnswers.AuditCounted` | dev/screenshot/render-wide.py:615-645 | an audit answered with a list: the findings counted and logged are the length of the list when every item is an object with the four printed fields and nothing to choke on, and otherwise the run dies |
| `RenderAnswers.AuditDecides` | dev/screenshot/render-wide.py:615-804 | over every run: after such an answer, a picture written means exit 0 exactly for the empty list and 1 otherwise |
| `RenderAnswers.OtherPayload` | dev/screenshot/render-wide.py:629-645 | any other decoded payload counts as nothing if it is an empty string or object, and kills the run if not |
| `RenderAnswers.TruthyIff` | dev/screenshot/render-wide.py:262-316 | a decoded value is true exactly if it is none of null, false, 0, the empty string, list and object |
| `RenderAnswers.InkAnswered` | dev/screenshot/render-wide.py:255-273 | the paint poll is repeated exactly when the answer is an exception, undecodable or one of the six empty values, and the deadline has not passed |
| `RenderAnswers.StylesAnswered` | dev/screenshot/render-wide.py:309-331 | a list of raw stylesheets ends the run with 9, or kills it if one of the first six is not a string; the empty list does neither |
| `RenderAnswers.StylesOther` | dev/screenshot/render-wide.py:309-325 | any other true value ends the run with 9 if it is a string and kills it if not |
| `RenderAnswers.StylesUnread` | dev/screenshot/render-wide.py:309-315 | an answer that cannot be decoded is as good as an empty list |
| `RenderAnswers.LastQuestion` | dev/screenshot/render-wide.py:402-603 | what `finish` starts, by the options and by what can be read |
| `RenderAnswers.ViewportIff` | dev/screenshot/render-wide.py:352-360 | a viewport is read exactly from a list of three whose last is a number, and its width is the first |
| `RenderAnswers.ViewportDiesIff` | dev/screenshot/render-wide.py:352-376 | the viewport kills the run exactly if it is a list of three whose last is no number, a string of three characters or an object of three keys |
| `RenderAnswers.WidthAnswered` | dev/screenshot/render-wide.py:352-368 | three numbers are refused with 4 exactly if the first is smaller than the width required |
| `RenderAnswers.ElementAnswered` | dev/screenshot/render-wide.py:671-779 | typing or clicking is logged exactly if `missing` is no slice of the answer |
| `RenderAnswers.TextAnswered` | dev/screenshot/render-wide.py:389-400 | the text is seen exactly if it is a slice of the page, and otherwise the run quits with 11 |
| `RenderAnswers.ProbeAnswers` | dev/screenshot/render-wide.py:511-535 | every text but the pending mark is the answer of the probe |
| `RenderAnswers.PatienceIff` | dev/screenshot/render-wide.py:255-779 | over every run: a missing selector is refused exactly five seconds after it was first looked for, a pending probe exactly ten after it was sent, and a page without ink is polled exactly until the paint timeout |
| `RenderAnswers.TimersWait` | dev/screenshot/render-wide.py:255-779 | a timer fires when its whole interval has passed and not before, each interval given by its number or its option |
| `RenderEnds.AxeReadsBounded` | dev/screenshot/render-wide.py:594-626 | the audit is read at most 150 times, and the refusal comes after exactly 150 |
| `Lexing.SpanIsUnique` | dev/scripts/check-fixture-deletes.py:103-155 | at a position at most one token of the grammar stands |
| `Lexing.LexingIsUnique` | dev/scripts/check-fixture-deletes.py:103-155 | a text has at most one lexing |
| `Lexing.HasLexing` | dev/scripts/check-fixture-deletes.py:103-155 | every text has a lexing |
| `Blankers.WithoutStrings` | dev/scripts/check-fixture-deletes.py:103-155 | same length; every code character kept, every other a space or its newline |
| `Blankers.SkipString` | dev/scripts/check-closed-unanswered.py:128-136 | the end of the string token, one past the text when an escape runs over it |
| `Blankers.BlankToken` | dev/scripts/check-closed-unanswered.py:115-143 | one turn overwrites exactly the token at hand |
| `Blankers.BlankNoncode` | dev/scripts/check-closed-unanswered.py:104-144 | same length; code and opening quotes kept, every other character blank or its newline |
| `BlankerLaws.WithoutStringsIdempotent` | dev/scripts/check-fixture-deletes.py:100-155 | blanking twice is blanking once, for every text |
| `BlankerLaws.CommentWordsDoNotMatter` | dev/scripts/check-fixture-deletes.py:89-155 | after a prefix ending in code, what follows a `//` comment is blanked as if it stood alone, whatever the comment says |
| `BlankerLaws.SameBraces` | dev/scripts/check-closed-unanswered.py:104-144 | both blankers show a brace exactly where a brace is code |
| `BlankerLaws.BlankNoncodeIdempotentIff` | dev/scripts/check-closed-unanswered.py:126-141 | a second pass changes nothing exactly when only blanks and comments follow the first string |
| `BlankerLaws.SecondPassLosesBrace` | dev/scripts/check-closed-unanswered.py:126-141 | a text whose brace a second pass loses |
| `Braces.FindOpen` | dev/scripts/check-closed-unanswered.py:149-160 | the brace still open at the position, or none because no pair straddles it |
| `Braces.EnclosingBody` | dev/scripts/check-closed-unanswered.py:147-171 | the innermost matched pair around the position, and none exactly when no pair straddles it |
| `Braces.CloseIsMatch` | dev/scripts/check-erased-refusal.py:82-92 | a scan that counts braces stops at the match, and nowhere exactly when there is none |
| `Braces.ExtractsTheBlock` | dev/scripts/check-fabricated-verdict.py:89-99 | on a closed block every extractor returns the same balanced slice, the one `enclosing_body` names; on an open one its own default |
| `Braces.ExtractorsAgreeIff` | dev/scripts/check-fabricated-verdict.py:89-99 | the two defaults agree exactly on the blocks that close |
| `Braces.BlockAt` | dev/scripts/check-erased-refusal.py:82-92 | the block at a brace, or the rest of the text |
| `Braces.BodyFrom` | dev/scripts/check-fabricated-verdict.py:89-99 | the block at a brace, or nothing |
| `Braces.BodyOf` | dev/scripts/check-default-then-write.py:139-152 | the block of the first brace at or after a position |
| `Braces.ImplBody` | dev/scripts/check-dbus-method-names.py:96-119 | the same block, for the brace after an attribute |
| `Braces.CodeBracePairs` | dev/scripts/check-closed-unanswered.py:104-171 | the brace pairs of either blanked text are the same, and all code |
| `Scopes.StillOpenMeansUnmatched` | dev/scripts/check-dev-prefix-admission.py:71-73 | a brace is open at a position exactly when its match, if any, is not behind it |
| `Scopes.AlwaysFaithful` | dev/scripts/check-dev-prefix-admission.py:74-93 | before every line the stack holds exactly the open test braces and the flag exactly a waiting marker |
| `Scopes.StackMeaning` | dev/scripts/check-dev-prefix-admission.py:74-93 | the stack is non-empty exactly inside a test scope, strictly increasing and bounded by the depth |
| `ScopeTrackers.ReadLine` | dev/scripts/check-dev-prefix-admission.py:83-92 | the loop over the characters makes exactly the steps of the tracker |
| `ScopeTrackers.TestScopeLines` | dev/scripts/check-dev-prefix-admission.py:74-93 | a line is marked exactly when it begins between a brace that was the first after a marker and its match |
| `ScopeTrackers.ProductionLines` | dev/scripts/check-executor-gate.py:94-111 | the same lines come out empty, every other unchanged, none lost |
| `Scopes.VisibleAgain` | dev/scripts/check-graph-columns.py:277-294 | with no scope open and no marker waiting, lines stay visible until the next marker |
| `TemplateTokens.Counts` | dev/scripts/check-announced-refusal.py:91-109 | a condition counts exactly when the flag is a slice of it with no word character on either side and no exclamation mark, blanks aside, in front of it |
| `TemplateTokens.AboutIff` | dev/scripts/check-announced-refusal.py:122-125 | the conditions `if_blocks` takes for a flag are exactly those |
| `TemplateTokens.TokenIff` | dev/scripts/check-announced-refusal.py:130-130 | the three tokens of the depth search stand exactly where their text does, the first with no word character behind it |
| `TemplateTokens.HeaderMeaning` | dev/scripts/check-announced-refusal.py:88-88 | a branch header is at least one blank, then the condition up to the first closing brace, and there is none exactly when the blank or the brace is missing |
| `TemplateTokens.ElseMeaning` | dev/scripts/check-announced-refusal.py:88-88 | a header behind an else begins with blanks and `if` |
| `TemplateScan.WalkBranch` | dev/scripts/check-announced-refusal.py:126-141 | the inner loop finds the branch end of the specification |
| `TemplateScan.FindBlocks` | dev/scripts/check-announced-refusal.py:119-141 | the outer loop finds every branch that counts, in order |
| `TemplateScan.IfBlocks` | dev/scripts/check-announced-refusal.py:112-151 | the slices of the outermost blocks, for the conditions that count for the flag |
| `Templates.OutermostMeaning` | dev/scripts/check-announced-refusal.py:150-150 | a block is kept exactly when it lies in no other |
| `Templates.KeptNotNested` | dev/scripts/check-announced-refusal.py:143-151 | kept blocks are pairwise not nested, for any blocks |
| `Templates.ScanMakesBlocks` | dev/scripts/check-announced-refusal.py:119-141 | every block of the scan has its branch behind its header and inside the text, so none lies inside itself |
| `Templates.NoClaimLost` | dev/scripts/check-announced-refusal.py:119-151 | over any text, every block of the scan is kept or lies inside one that is kept: no claim is lost |
| `TemplateLaws.BranchEndsAtItsOwn` | dev/scripts/check-announced-refusal.py:126-141 | in any laid-out nesting the walk ends a branch at the first else at its own depth, which is an else that stands in its body if there is one, and otherwise at its own next branch or past its own end |
| `TemplateLaws.BlocksOfPlan` | dev/scripts/check-announced-refusal.py:119-141 | over any laid-out nesting the scan finds exactly the counting branches, outer before inner |
| `TemplateLaws.OutermostOfPlan` | dev/scripts/check-announced-refusal.py:143-151 | of those the filter keeps exactly the outermost |
| `TemplatePrinting.FoundIsSeen` | dev/scripts/check-announced-refusal.py:112-151 | for every printed template, stray elses included, the slices the scan sees in its tree |
| `TemplateMarkup.IfBlocksUndoesShow` | dev/scripts/check-announced-refusal.py:112-151 | for every printed markup with `{#if}` and `{#each}` blocks: the truthy branches of the outermost conditions that count are returned, as printed, if and only if none of them holds an each-else at its own if-depth |
| `TemplateMarkup.EachElseCutsBranch` | dev/scripts/check-announced-refusal.py:126-141 | a branch holding an each block with its own else is cut there |
| `Splitting.JoinSplit` | dev/scripts/check-dbus-call-arity.py:98-98 | joining what was split gives the text back |
| `Splitting.SplitJoin` | dev/screenshot/shoot_app.py:145-145 | splitting what was joined gives the parts back, when none holds the separator |
| `Splitting.StripMeaning` | dev/scripts/check-dbus-call-arity.py:135-136 | stripping takes exactly the blanks at both ends |
| `Strings.ContainsIff` | dev/screenshot/render-wide.py:395-395 | a text contains another exactly when some slice of it is the other |
| `CallArity.StripKeeps` | dev/scripts/check-dbus-call-arity.py:90-98 | text without `//` goes through `strip_comments` unchanged |
| `CallArity.SplitTopLevel` | dev/scripts/check-dbus-call-arity.py:101-136 | the loop computes the stripped, non-empty pieces between the commas outside strings at depth zero |
| `CallArity.Balanced` | dev/scripts/check-dbus-call-arity.py:139-160 | the loop returns the text up to the closing parenthesis, or nothing |
| `CallArityLaws.ClosingIsFirst` | dev/scripts/check-dbus-call-arity.py:139-160 | the parenthesis found closes and none before it does; none is found exactly when none closes |
| `CallArityLaws.PiecesConserve` | dev/scripts/check-dbus-call-arity.py:111-135 | the raw pieces joined with commas are the text: nothing is lost |
| `CallArityLaws.ContentsIff` | dev/scripts/check-dbus-call-arity.py:139-160 | `balanced` returns what stands between the parentheses exactly when nothing in it closes and the scan is inside and outside strings at its end |
| `CallReading.ReadBackIff` | dev/scripts/check-dbus-call-arity.py:90-136 | a printed list of trimmed arguments is read back as that list if and only if none holds `//`, none has a comma outside strings at joint depth zero, and each but the last returns to depth zero outside strings |
| `CallReading.CallReadIff` | dev/scripts/check-dbus-call-arity.py:90-160 | the same for the whole path: text and arguments of a printed call come back if and only if that holds and no parenthesis of the text closes the call |
| `CallTrees.ItemsNotSplit` | dev/scripts/check-dbus-call-arity.py:113-134 | in a tree of characters, strings and bracket groups only a comma outside every group and string can split |
| `CallTrees.ItemsStayInside` | dev/scripts/check-dbus-call-arity.py:143-159 | and no parenthesis of it closes the call around it |
| `CallTrees.TreeRoundTrip` | dev/scripts/check-dbus-call-arity.py:101-160 | a call printed from such trees, whatever follows it, gives back its text, its arguments and their number |
| `CallComments.CommentsDoNotCount` | dev/scripts/check-dbus-call-arity.py:90-136 | for `split_top_level` alone, a text with a comment behind every argument has exactly its arguments, whatever the comments say |
| `CallComments.CommentedCallIff` | dev/scripts/check-dbus-call-arity.py:90-160 | for the whole path, `balanced` returns the commented text if and only if no parenthesis of it closes, comments included, and the scan is inside and outside strings at its end; and its arguments are those |
| `CallComments.HarmlessCommentsRead` | dev/scripts/check-dbus-call-arity.py:90-160 | behind comments without parentheses and quotation marks the whole path reads the arguments back |
| `CallComments.CommentEndsCall` | dev/scripts/check-dbus-call-arity.py:139-160 | a call of two arguments that ends at the parenthesis in its first comment |
| `CallReading.ArrowHidesComma` | dev/scripts/check-dbus-call-arity.py:124-128 | two arguments behind an arrow are not read back |
| `CallReading.ArrowReadsAsOne` | dev/scripts/check-dbus-call-arity.py:124-128 | they are read as one |
| `CallReading.AddressIsCut` | dev/scripts/check-dbus-call-arity.py:90-98 | an argument whose string holds `//` is not read back |
| `ObjectKeys.SkipString` | dev/scripts/check-fixture-answers-whole.py:107-111 | skipping a string loses no key |
| `ObjectKeys.NameBefore` | dev/scripts/check-fixture-answers-whole.py:113-119 | the two backward loops compute the name in front of the colon |
| `ObjectKeys.StripMarks` | dev/scripts/check-fixture-answers-whole.py:119-119 | the two loops of the strip take the quotation marks at both ends |
| `ObjectKeys.NameCharIff` | dev/scripts/check-fixture-answers-whole.py:117-117 | the characters of a name, by their codes |
| `ObjectKeys.JsKeys` | dev/scripts/check-fixture-answers-whole.py:94-123 | the scan collects exactly the names in front of colons outside strings at depth one |
| `ObjectKeysLaws.ValuePasses` | dev/scripts/check-fixture-answers-whole.py:102-111 | below the top level no key is taken from a value, whatever it nests, and the depth comes back |
| `ObjectKeysLaws.KeyIsNamed` | dev/scripts/check-fixture-answers-whole.py:112-121 | in front of its colon a key is read without its marks and blanks |
| `ObjectKeysLaws.KeysOfLiteral` | dev/scripts/check-fixture-answers-whole.py:94-123 | for every printed object literal, blanks and last comma included, with or without its braces: exactly its top-level keys with a colon and the names in front of the colons of its conditional expressions |
| `ObjectKeysLaws.AllKeysIff` | dev/scripts/check-fixture-answers-whole.py:94-123 | so all keys and only keys are found if and only if each shorthand key also stands before a colon and each name before a conditional's colon is also a key |
| `ObjectKeysLaws.KeyMissedNameTaken` | dev/scripts/check-fixture-answers-whole.py:112-121 | a literal whose shorthand key is missed and whose conditional gives a name that is no key |
| `WireNames.RenamingsAgreeIff` | dev/scripts/check-dbus-members-exist.py:132-134 | the renamings agree on a name exactly when no word has a capital behind its first letter |
| `WireNames.WireByChars` | dev/scripts/check-dbus-call-arity.py:85-87 | renaming by parts is renaming character by character |
| `WireNames.UnwireUndoesWire` | dev/scripts/check-dbus-call-arity.py:85-87 | every snake_case name is recovered from its wire name |
| `WireNames.WireUndoesUnwire` | dev/scripts/check-dbus-method-names.py:91-93 | every PascalCase name is the wire name of its unwiring, which is snake_case |
| `WireNames.WireIsPascal` | dev/scripts/check-dbus-members-exist.py:132-134 | wire names of snake_case names are PascalCase and all renamings agree on them |
| `Reachability.Push` | dev/scripts/check-components-rendered.py:221-224 | the imports not seen are added and pushed, and only those |
| `Reachability.Walk` | dev/scripts/check-components-rendered.py:218-224 | a file is seen exactly when an import path from a root ends at it |
| `Reachability.OrphansUnreached` | dev/scripts/check-components-rendered.py:218-229 | files imported only from among themselves are unreached, however they import each other |
| `Reachability.OutsideEmpty` | dev/scripts/check-components-rendered.py:253-262 | a list gives no problem exactly when every entry is known |
| `Reachability.Reconcile` | dev/scripts/check-components-rendered.py:252-287 | the four loops report exactly the differences of the lists, in order |
| `Reachability.Check` | dev/scripts/check-components-rendered.py:177-305 | status 2 with nothing to read, 0 exactly when reachability and the carried lists are reconciled, else 1; on the own tree reconciled is equality with the two lists |
| `Overlap.ClipRect` | dev/screenshot/overlapping-text.js:44-62 | the loop computes the clipping by all ancestors |
| `Overlap.ClipIsIntersectionX` | dev/screenshot/overlapping-text.js:44-62 | across, the box is the intersection with every ancestor that clips across, and no other |
| `Overlap.ClipIsIntersectionY` | dev/screenshot/overlapping-text.js:44-62 | down, the same |
| `Overlap.PaintedMeaning` | dev/screenshot/overlapping-text.js:63-67 | the boxes an element is painted with are exactly what its clipping ancestors leave of its line boxes, or of its bounds if it has none, where more than 4 both ways |
| `Overlap.CommonAncestor` | dev/screenshot/overlapping-text.js:98-103 | the loops compute the first shared ancestor going up |
| `Overlap.CommonIsLowest` | dev/screenshot/overlapping-text.js:98-103 | everything shared is at or above it; there is none exactly when nothing is shared |
| `Overlap.OpaqueBetween` | dev/screenshot/overlapping-text.js:83-97 | the loop finds an opaque element before the stop |
| `Overlap.OpaqueUpMeaning` | dev/screenshot/overlapping-text.js:83-97 | that is an opaque element at or above the start and strictly below the stop |
| `OverlapPairs.LargestOverlap` | dev/screenshot/overlapping-text.js:116-127 | the inner loops compute the size kept |
| `OverlapPairs.BestIsLargest` | dev/screenshot/overlapping-text.js:116-128 | it exceeds 3 both ways exactly when some boxes overlap so, is the overlap of two boxes, and none is larger |
| `OverlapPairs.CollectLeaves` | dev/screenshot/overlapping-text.js:104-112 | the leaves with painted boxes, in document order |
| `OverlapPairs.LeafIff` | dev/screenshot/overlapping-text.js:104-112 | an element is a leaf exactly when it is shown and paints something, and the boxes of its leaf are what it paints |
| `OverlapPairs.FindPair` | dev/screenshot/overlapping-text.js:116-134 | what is reported for one pair |
| `OverlapPairs.FindOverlaps` | dev/screenshot/overlapping-text.js:104-136 | the pair loop reports the pairs in order |
| `OverlapPairs.ReportedIff` | dev/screenshot/overlapping-text.js:113-136 | a pair is reported exactly when some line boxes overlap by more than 3 both ways with nothing opaque below the lowest common ancestor |
| `OverlapPairs.PageReportedIff` | dev/screenshot/overlapping-text.js:36-136 | for two elements of a page: a report exists exactly when the first stands before the second, both are shown, a line that one paints overlaps a line that the other paints by more than 3 both ways, and nothing opaque lies below their lowest common ancestor |
| `OverlapPairs.ReportSize` | dev/screenshot/overlapping-text.js:116-133 | a report carries the largest overlap of the pair |
| `OverlapPairs.HitsOrdered` | dev/screenshot/overlapping-text.js:114-137 | reports come in the order of their pairs, each pair once |
| `TabOrder.Tabbable` | dev/screenshot/tab-order.js:26-44 | the loop, the two filters and the sort |
| `TabOrder.OrderMember` | dev/screenshot/tab-order.js:26-44 | the order holds exactly the eligible elements |
| `TabOrder.OrderInOrder` | dev/screenshot/tab-order.js:38-43 | positive indices first and ascending, then the zeros, ties in document order, none twice |
| `TabOrder.TabStops` | dev/screenshot/tab-order.js:38-43 | in terms of the indices: in front of a positive index stand only positive ones that are not larger, and equal ones stand in document order |
| `TabOrder.OrderUnique` | dev/screenshot/tab-order.js:38-43 | no other listing of the same elements is in that order |
| `TabOrder.ZeroesInDocumentOrder` | dev/screenshot/tab-order.js:38-43 | without positive indices it is document order |
| `TabOrder.Inversions` | dev/screenshot/tab-order.js:61-93 | the loop and the two closing messages |
| `TabOrder.ReportedIff` | dev/screenshot/tab-order.js:63-84 | exactly the consecutive pairs that go left on an overlapping band or up clear of it, with the distance |
| `TabOrder.PageSilentIff` | dev/screenshot/tab-order.js:26-93 | for a page whose boxes have no negative height, the probe says nothing exactly when Tab has two stops or more and goes forward from each to the next |
| `TabOrder.Probe` | dev/screenshot/tab-order.js:61-95 | the probe reports on the boxes of the tab order, and is silent exactly in that case |
| `Chords.ReadingUndoesJoining` | dev/screenshot/shoot_app.py:145-149 | a joined chord gives back its modifiers and its key in small letters, the plus key included |
| `Chords.NothingLostIff` | dev/screenshot/shoot_app.py:145-147 | reading loses nothing of a chord if and only if it does not end in one plus behind another character |
| `Chords.LonePlusDropsName` | dev/screenshot/shoot_app.py:145-147 | what is lost then: one plus at the end is the key and costs the name before it |
| `Chords.ChordNests` | dev/screenshot/shoot_app.py:150-154 | the key goes down when exactly the modifiers are held, is held through the pause and comes up first; keys come up in turn and none is left held |
| `Chords.CodesMeaning` | dev/screenshot/shoot_app.py:148-148 | each name of the list that the table knows in small letters gives its codepoint, in order, and the others nothing |
| `Chords.ChordPressed` | dev/screenshot/shoot_app.py:145-154 | a chord as a menu writes it, of known modifiers and a key: the key in small letters is pressed while exactly the modifiers are held |

## Left out

- GTK, WebKit, WebDriver and HTTP calls, the PNG encoder, axe itself and subprocesses: the model has their answers only.
- Assumptions of the render model: one finished load event per run, and every requested callback arrives; closing the window by hand is not an event of the model.
- JSON decoding: an answer carries its text together with what the decoder would make of it, related in no way, so the runs modelled include more than those possible; infinities and not-a-number are left out.
- What is printed: messages, labels, rounding of pixels, and the notice about a flat frame.
- The regular expressions of the gates: the two of `if_blocks` and the name pattern of `js_keys` are modelled as recognisers, the vocabularies of the other gates are not modelled. Letters and digits are ASCII; a blank is a space, a tab, a newline or a carriage return, so the form feed, the vertical tab and the separators that `strip` and `\s` also take are not blanks here.
- Splitting a file into lines and joining it again around the test-scope trackers: lines are given.
- `queries` of `check-graph-columns.py`: its tracker is the same text as that of `production_text` and has no method of its own; `_unformat` and the literal extraction are not modelled.
- File discovery, import resolution and the sorting of reported paths in `check-components-rendered.py`: the files, their imports and the classes of files are given.
- Browser measurement: boxes, computed overflow, backgrounds, visibility and tab indices are given with each element; coordinates are exact reals.
- The final cut of `overlapping-text.js` to eight reports is not modelled: it is a prefix of the list, and `HitsOrdered` says in which order the reports come.
- The built-in sort of `tab-order.js` is modelled as a stable insertion; `OrderUnique` makes the result independent of that choice.
- Gates that only compare sets of names are not modelled: their answer is a set difference of what their patterns match.
- `camel` and `balanced_body` repeat with other defaults what is modelled of `wire_name` and of `body_from`; `rust_return_types` is one regular expression over each file.
- The other page probes, the configuration files and the theme generator are not modelled: what they report or write is read off the browser or off a table.
- Object literals with comments, regular expressions or function bodies in them: `ObjectKeysLaws.dfy` prints values from strings, bare text, brackets, sequences and conditionals.
