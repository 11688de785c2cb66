# Vanessa editor core: breakpoints, step highlighting, step catalogue and Gherkin tokenizer

This project models the core of the Vanessa Automation editor in Dafny and
proves properties of that model. The editor is a Monaco-based editor for
Gherkin-style test scripts. The model covers four parts:

- **Breakpoint manager** (`breakpoints.dfy`, module `Breakpoints`). It keeps
  the tracked breakpoint entries beside the editor's decoration store. It
  shows a hover hint in the glyph margin and places an optimistic
  (unverified) breakpoint when the user toggles a line. It replaces
  everything with the host's authoritative list, detects when an edit has
  moved a verified breakpoint, and reports a list to the host that has one
  breakpoint per line.
- **Runtime step highlighting** (`runtime.dfy`, module `RuntimeSteps`). It
  sets, queries and clears whole-line `debug-<status>-step` decorations. It
  keeps two id lists: ordinary steps, and the "current" step.
- **Step catalogue** (`provider.dfy`, module `StepCatalog`, with `text.dfy`
  for `toLowerCase`/`split`/`join`). This is the provider's keyword phrase
  table, element and variable tables, and step list. Relabelling
  substitutes element values into placeholders. It then splits each step's
  first line into its keyword prefix and its label.
- **Tokenizer table** (`lexer.dfy`, module `GherkinLexer`). These are the
  recognisers behind the Monarch rules of the `turbo-gherkin` language, and
  one step of the rule engine over its state stack.
- **The two managers together** (`session.dfy`, module `Session`). Both
  managers draw on the same editor, which each receives in its
  constructor. Each manager's operations keep the other's invariant: the
  breakpoint manager's decorations carry no inline class, and the step
  decorations carry no hint or unverified glyph.

The editor's decoration store (`decorations.dfy`, module `Decorations`) is
the part of Monaco that the two managers drive. It maps decoration ids to
decorations. `deltaDecorations` removes ids and hands out fresh consecutive
ids for new decorations. Two environment actions stand for text edits: one
moves or drops a decoration's anchor, the other changes the line count.
Monaco's decoration-change notification fires synchronously inside a delta
that changed the store. Only the breakpoint manager has a handler, and it is
subscribed to the model that both managers share. So the breakpoint
manager's methods call it right after their own deltas. The `Session` module
runs it after each delta of `set` and `clear` too.

Where a description of the behaviour and the code part ways, the model
follows the code:

- A payload that does not parse is modelled as `None`. When the `clear`
  flag is set, the table has already been emptied by then, so a bad payload
  does not leave the old table in place.
- The keyword rule matches a single letter run (`[A-zА-я]+`) against the
  keyword list. It does not match the longest multi-word phrase. The
  phrase table sorted by word count is kept by the provider for its other
  users.
- The canonical key of a step is `key(filterWords(splitWords(line)))`. The
  word helpers of the provider base are not part of this model. They enter
  as function-valued parameters (`StepCatalog.Base`), so the model does not
  claim that placeholders are dropped from the key.

Monarch tries each rule on the rest of the line from the current position.
A rule whose pattern begins with `^` is tried only at the start of the line:
the section and keyword rules, `strong`, the table rule and the
`operator`/`params` pops. The two comment rules begin with `(`, so they are
tried anywhere, and the `^` inside them anchors at the current position. So
`#` and `//` start a comment at any position outside strings
(`CommentAnywhere`), provided the rest of the line holds no line terminator.

## Model

| member | source | states |
|---|---|---|
| `Breakpoints.IndexByLine` | src/debug.ts:161-163 | Gives the index of the first entry whose cached start line is the line, or -1 exactly when no entry has that start line. |
| `Breakpoints.Verified` | src/debug.ts:65-70 | Gives one verified entry per host breakpoint, position by position. |
| `Breakpoints.BreakpointDecorations` | src/debug.ts:49-58 | Gives one glyph decoration per host breakpoint, in order, with the enabled or disabled glyph at column 1 of its line. |
| `Breakpoints.BreakpointManager.HostDecorations` | src/debug.ts:49-58 | The loop builds exactly `BreakpointDecorations(bps)`. |
| `Breakpoints.BreakpointManager.DecorateBreakpoints` | src/debug.ts:48-71 | The host list replaces the previous list's decorations under fresh ids. The entries become the verified entries for those ids. The unverified decoration is removed. Afterwards no entry has drifted, and decorations with an inline class are untouched. |
| `Breakpoints.BreakpointManager.ShowHostList` | src/debug.ts:60-63 | With the drift check off: one delta replaces the host list's decorations and a second removes the unverified one. The store after both, the new id list, and the invariant are all stated. |
| `Breakpoints.BreakpointManager.DropUnverifiedQuietly` | src/debug.ts:62 | Removes exactly the recorded unverified decoration, so no unverified glyph is left; nothing else changes. |
| `Breakpoints.HostListNotDrifted` | src/debug.ts:60-70 | Entries built from fresh ids and the host's lines have not drifted in the store that the delta produced. |
| `Breakpoints.ReportAfterDecorate` | src/debug.ts:65-70 | For a host list with distinct lines whose decorations sit on their lines, the report equals that list. |
| `Breakpoints.BreakpointManager.MouseMove` | src/debug.ts:73-88 | The hint is shown exactly when the pointer is on the glyph margin of a line that has no breakpoint entry. It replaces the previous hint. The hint ids are exactly the hint-glyph decorations. A report is returned exactly when the store changed and some entry drifted. |
| `Breakpoints.BreakpointManager.DecorationsChanged` | src/debug.ts:90-110 | While the flag is up, returns the full report exactly when some verified live entry's range differs from its cached range; otherwise returns nothing. |
| `Breakpoints.BreakpointManager.MouseDown` | src/debug.ts:112-116 | On the glyph margin it is a toggle: with no entry at the line, the hint goes and the single unverified decoration takes the next fresh id; otherwise the store and the id lists stay as they were, and in both cases the entries become the toggled list. Anywhere else nothing changes: entries, store, next id and all three id lists. |
| `Breakpoints.BreakpointManager.Toggle` | src/debug.ts:118-141 | With no entry at the line: the hint goes, the single unverified decoration takes the next fresh id, and an unverified entry is appended. Otherwise the first entry at the line is removed. |
| `Breakpoints.BreakpointManager.PlaceUnverified` | src/debug.ts:121-130 | Removes the hint and replaces the unverified decoration with one on the line under the next fresh id. Exactly that id then carries the unverified glyph, and no hint glyph is left. |
| `Breakpoints.BreakpointManager.ClearHintQuietly` | src/debug.ts:121-122 | Removes exactly the recorded hint decoration and empties the hint list. |
| `Breakpoints.ToggleTwiceRestores` | src/debug.ts:118-139 | Toggling a line that has no entry twice gives back the original entries. |
| `Breakpoints.BreakpointManager.SingleHintAndUnverified` | src/debug.ts:87 | The invariant keeps at most one hint decoration and at most one unverified decoration in the editor. |
| `Breakpoints.BreakpointManager.constructor` | src/debug.ts:42-46 | Starts with empty lists, the drift check on, and the invariant established. |
| `Breakpoints.BreakpointManager.UpdateBreakpoints` | src/debug.ts:143-159 | The loop computes exactly `Packet(entries, decorations)`. |
| `Breakpoints.PacketLinesDistinct` | src/debug.ts:147-155 | No two breakpoints in the report share a line. |
| `Breakpoints.PacketSound` | src/debug.ts:145-157 | Every reported breakpoint is the live line of an entry and carries the `enable` of the first entry live at that line. |
| `Breakpoints.PacketComplete` | src/debug.ts:145-157 | Every entry whose decoration is live has its live line in the report. |
| `Breakpoints.FirstEntryWins` | src/debug.ts:148-155 | The first entry live at a line puts that line into the report with its own `enable`. |
| `Breakpoints.PacketOrdered` | src/debug.ts:145-157 | Report order follows the order of the entries that won each line. |
| `Breakpoints.PacketExample` | src/debug.ts:143-157 | Entries live at lines 5, 5 and 8 report exactly lines 5 and 8, with the first line-5 entry's `enable`. |
| `Breakpoints.OwnedDelta` | src/debug.ts:61-62 | A delta of the manager's glyph decorations keeps the set of decorations with an inline class, and the manager's ids stay its own. |
| `RuntimeSteps.StepClassInjective` | src/debug.ts:195 | Different statuses give different `debug-<status>-step` classes. |
| `RuntimeSteps.StepDecorations` | src/debug.ts:190-198 | One whole-line decoration of the status class per listed line, and none when the status is empty. |
| `RuntimeSteps.ClassBearingMembers` | src/debug.ts:187-189 | The filter keeps exactly the live ids with a truthy inline class. |
| `RuntimeSteps.ScanLinesFinds` | src/debug.ts:186-189 | The scan finds exactly the live decorations with a class that touch a listed line. |
| `RuntimeSteps.IndexOf` | src/debug.ts:205 | Gives the first index of the id, or -1 exactly when the id is absent. |
| `RuntimeSteps.Without` | src/debug.ts:200-207 | Keeps exactly the ids that are not removed. |
| `RuntimeSteps.RemoveEachIsWithout` | src/debug.ts:200-207 | On a list without repeats, splicing out each removed id's first occurrence equals filtering the removed ids out. |
| `RuntimeSteps.BookkeepingMembers` | src/debug.ts:200-213 | After a call, the step list and the current list hold exactly the survivors plus the new ids, for each status. |
| `RuntimeSteps.SetKeepsShape` | src/debug.ts:200-213 | A call keeps both lists free of repeats and disjoint. |
| `RuntimeSteps.SetKeepsSound` | src/debug.ts:180-215 | After a call every listed id was handed out and, while live, carries a class. |
| `RuntimeSteps.SetKeepsCovered` | src/debug.ts:180-215 | After a call every live decoration with a class is in one of the two lists. |
| `RuntimeSteps.SetKeepsCurrentApart` | src/debug.ts:184-212 | After a call no decoration in the step list carries the current class. |
| `RuntimeSteps.SetKeepsTracked` | src/debug.ts:180-215 | A call (with the list update corrected) keeps the whole invariant. |
| `RuntimeSteps.RuntimeProcessManager.constructor` | src/debug.ts:175-178 | Starts with empty lists over a store in which no decoration has a class. |
| `RuntimeSteps.RuntimeProcessManager.Set` | src/debug.ts:180-215 | Removes every decoration with a class on a listed line, plus every current one for "current". Adds one decoration per line unless the status is empty. States the new store and the new lists, and keeps the invariant. |
| `RuntimeSteps.RuntimeProcessManager.Collect` | src/debug.ts:184-199 | The loop gathers exactly the ids to remove and the decorations to add. |
| `RuntimeSteps.RuntimeProcessManager.ScanLine` | src/debug.ts:187-189 | Gives the ids with a class among the decorations on the line, in id order. |
| `RuntimeSteps.RuntimeProcessManager.ClassBearingOf` | src/debug.ts:187-189 | The loop keeps exactly the ids with a class, in order. |
| `RuntimeSteps.RuntimeProcessManager.Forget` | src/debug.ts:200-207 | Each removed id leaves the step list, and leaves the current list unless the status is "current" (corrected form). |
| `RuntimeSteps.RuntimeProcessManager.Get` | src/debug.ts:217-227 | Gives, in ascending order, exactly the lines 1..lineCount that some live decoration of the status class touches. |
| `RuntimeSteps.RuntimeProcessManager.Clear` | src/debug.ts:313-317 | Removes exactly the recorded ids and empties both lists, and hands out no id. No decoration with a class is left. |
| `Session.SetBesideBreakpoints` | src/debug.ts:175-215 | `set` on the editor the breakpoint manager also draws on keeps the breakpoint manager's invariant as well as its own. The breakpoint handler's report is sent exactly when `set`'s delta changed the store and some verified entry has drifted, and it is the full report. |
| `Session.Notify` | src/vanessa-editor.ts:125 | The breakpoint handler, subscribed to the shared model, reports exactly when the delta changed the store and some verified entry has drifted. |
| `Session.ClearBesideBreakpoints` | src/debug.ts:313-317 | `clear` on the shared editor keeps the breakpoint manager's invariant as well as its own. It states the store after each of its two deltas, and for each delta the breakpoint handler reports exactly when that delta changed the store and some verified entry has drifted. |
| `RuntimeSteps.RuntimeProcessManager.DropCurrent` | src/debug.ts:314 | Removes exactly the current-step ids, empties that list, keeps the step list, hands out no id and keeps the invariant. |
| `RuntimeSteps.RuntimeProcessManager.DropSteps` | src/debug.ts:315 | Removes exactly the step ids, empties that list, keeps the current list, hands out no id and keeps the invariant. |
| `Session.DecorateBesideSteps` | src/debug.ts:42-71 | Taking the host's breakpoint list on the shared editor keeps the step highlighter's invariant as well as its own. |
| `Session.MouseMoveBesideSteps` | src/debug.ts:73-88 | A mouse move on the shared editor keeps the step highlighter's invariant as well as the breakpoint manager's. |
| `Session.ToggleBesideSteps` | src/debug.ts:118-141 | A breakpoint toggle on the shared editor keeps the step highlighter's invariant as well as the breakpoint manager's. |
| `Session.MouseDownBesideSteps` | src/debug.ts:112-116 | A mouse press on the shared editor keeps the step highlighter's invariant as well as the breakpoint manager's. |
| `RuntimeSteps.AsWrittenLosesStep` | src/debug.ts:200-207 | In the example, the list update as written drops the ordinary step from the step list. The invariant fails, and a clear afterwards leaves line 5 highlighted. |
| `RuntimeSteps.CorrectedKeepsStep` | src/debug.ts:200-207 | In the same example the corrected update keeps the invariant, and a clear afterwards removes every highlight. |
| `RuntimeSteps.AsWrittenLeavesHighlight` | src/debug.ts:200-207 | The two lemmas above, from one starting state that meets the invariant. |
| `Text.LowerIdempotent` | src/languages/turbo-gherkin/provider.ts:25 | Lowering a lowered string changes nothing. |
| `Text.JoinSplit` | src/languages/turbo-gherkin/provider.ts:51 | Joining the pieces of `split(c)` with `c` gives the string back. |
| `Text.SplitJoin` | src/languages/turbo-gherkin/provider.ts:26 | Splitting a join of separator-free pieces gives the pieces back. |
| `Text.SplitLower` | src/languages/turbo-gherkin/provider.ts:25-26 | The pieces of a lowered string are lowered. |
| `StepCatalog.Phrases` | src/languages/turbo-gherkin/provider.ts:25-26 | Each payload phrase is lowercased and split on spaces, in payload order. |
| `StepCatalog.PhrasesPlain` | src/languages/turbo-gherkin/provider.ts:25-26 | Every word of the phrase table is lowercase and free of spaces. |
| `StepCatalog.SortByCountOrdered` | src/languages/turbo-gherkin/provider.ts:27 | The sorted table is ordered by descending word count and is a permutation of the input. |
| `StepCatalog.SortByCountStable` | src/languages/turbo-gherkin/provider.ts:27 | Phrases of equal word count keep their payload order. |
| `StepCatalog.PermutationPlain` | src/languages/turbo-gherkin/provider.ts:27 | Sorting keeps the words lowercase and free of spaces. |
| `StepCatalog.UpsertLookup` | src/languages/turbo-gherkin/provider.ts:33-35 | After the assignment loop a key is present exactly when it was present before or some entry wrote it. The last write wins; an unwritten key keeps its value. |
| `StepCatalog.ElementEntries` | src/languages/turbo-gherkin/provider.ts:34 | Each element is written under its lowercased key, with its value. |
| `StepCatalog.VariableEntries` | src/languages/turbo-gherkin/provider.ts:43 | Each variable is written under its lowercased key, keeping the spelled name and the value. |
| `StepCatalog.UpsertLowerKeys` | src/languages/turbo-gherkin/provider.ts:33-35 | Writing lowercase keys into a table with lowercase keys keeps every key lowercase. |
| `StepCatalog.ElementKeysLower` | src/languages/turbo-gherkin/provider.ts:34 | Element keys are lowercase. |
| `StepCatalog.VariableKeysLower` | src/languages/turbo-gherkin/provider.ts:43 | Variable keys are lowercase. |
| `StepCatalog.Stored` | src/languages/turbo-gherkin/provider.ts:51-64 | The head is `splitWords` of the first line of `insertText`, and the body is the lines after it, so the first line followed by the body gives back all the lines. The text is kept and no label or keyword has been computed yet. |
| `StepCatalog.StepEntries` | src/languages/turbo-gherkin/provider.ts:50-65 | Each payload step is written under its canonical key, in payload order. |
| `StepCatalog.Substitute` | src/languages/turbo-gherkin/provider.ts:81-90 | A word that names no element with a truthy value is unchanged. Otherwise the result keeps the word's delimiters around the element's value. |
| `StepCatalog.SubstituteAll` | src/languages/turbo-gherkin/provider.ts:81-90 | The words are substituted one by one, and their number is kept. |
| `StepCatalog.KeywordLength` | src/languages/turbo-gherkin/provider.ts:92-93 | The keyword prefix covers no words when no keyword is found, and otherwise the keyword's length capped at the word count. |
| `StepCatalog.PickFrom` | src/languages/turbo-gherkin/provider.ts:92-93 | The two index filters from any index take the keyword part and the label part of the remaining words. |
| `StepCatalog.KeywordAndLabel` | src/languages/turbo-gherkin/provider.ts:91-93 | The keyword words are the leading words and the label words are the rest, so together they give back the words. |
| `StepCatalog.InsertText` | src/languages/turbo-gherkin/provider.ts:94 | The inserted text is the label and the body lines joined by newlines. |
| `StepCatalog.RelabelAll` | src/languages/turbo-gherkin/provider.ts:78-96 | Relabelling keeps the catalogue's keys. |
| `StepCatalog.RelabelWritesOnlyLabels` | src/languages/turbo-gherkin/provider.ts:91-94 | Relabelling writes the label, the keyword and the inserted text, and no other field. |
| `StepCatalog.RelabelReadsHeadAndBody` | src/languages/turbo-gherkin/provider.ts:80-94 | What relabelling writes depends only on the head, the body and the tables. |
| `StepCatalog.RelabelAllIdempotent` | src/languages/turbo-gherkin/provider.ts:78-96 | Relabelling twice is relabelling once. |
| `StepCatalog.Provider.constructor` | src/languages/turbo-gherkin/provider.ts:98-101 | Starts with empty tables and the invariant. |
| `StepCatalog.Provider.ClearArray` | src/languages/turbo-gherkin/provider.ts:107-109 | The array is emptied. |
| `StepCatalog.Provider.ClearObject` | src/languages/turbo-gherkin/provider.ts:103-105 | The loop deletes every key. |
| `StepCatalog.Provider.SetKeywords` | src/languages/turbo-gherkin/provider.ts:23-28 | The table becomes the sorted phrases of the payload; a bad payload leaves it empty. The other tables are unchanged, and the invariant is kept. |
| `StepCatalog.Provider.SetElements` | src/languages/turbo-gherkin/provider.ts:30-37 | The elements become the previous (or cleared) table with the payload's lowercased keys written in order, and the steps are relabelled. A bad payload stops after the optional clear. |
| `StepCatalog.Provider.SetVariables` | src/languages/turbo-gherkin/provider.ts:39-46 | The variables become the previous (or cleared) table with the payload written in order, and the steps are relabelled. A bad payload stops after the optional clear. |
| `StepCatalog.Provider.SetStepList` | src/languages/turbo-gherkin/provider.ts:48-68 | The catalogue becomes the previous (or cleared) one with each payload step written under its key, all relabelled. A bad payload stops after the optional clear. |
| `StepCatalog.Provider.UpdateStepLabels` | src/languages/turbo-gherkin/provider.ts:78-96 | Every step is relabelled, and nothing else changes. |
| `StepCatalog.Provider.UpdateEach` | src/languages/turbo-gherkin/provider.ts:79-95 | The loop over the keys applies the update to every entry. |
| `StepCatalog.Provider.SetSyntaxMsg` | src/languages/turbo-gherkin/provider.ts:70-72 | Stores the message, and nothing else changes. |
| `StepCatalog.Provider.GetSyntaxMsg` | src/languages/turbo-gherkin/provider.ts:74-76 | Gives the stored message. |
| `StepCatalog.StepListKeepsOthers` | src/languages/turbo-gherkin/provider.ts:48-66 | A step whose key the payload does not write is kept, relabelled. |
| `StepCatalog.StepListLastWins` | src/languages/turbo-gherkin/provider.ts:50-65 | Under a key written several times, the last payload step is stored, relabelled. |
| `StepCatalog.ElementsLastWins` | src/languages/turbo-gherkin/provider.ts:33-35 | Under a lowercased key, the last element written wins. |
| `StepCatalog.VariablesKeepName` | src/languages/turbo-gherkin/provider.ts:42-44 | A variable is found under its lowercased key with the name as the payload spelled it. |
| `StepCatalog.PlaceholderFindsElement` | src/languages/turbo-gherkin/provider.ts:81-89 | A placeholder naming a freshly set element, in any letter case, is replaced by that element's value inside the same delimiters. |
| `GherkinLexer.Run` | src/languages/turbo-gherkin/configuration.ts:81 | Gives the longest prefix inside a character class: every character in it is in the class, and the next one is not. |
| `GherkinLexer.Heading` | src/languages/turbo-gherkin/configuration.ts:51 | A match ends on the `:`. |
| `GherkinLexer.Keywords` | src/languages/turbo-gherkin/configuration.ts:25 | The keyword list is the single words followed by `if`. |
| `GherkinLexer.IfIsKeyword` | src/languages/turbo-gherkin/configuration.ts:23-25 | Any spelling of `if`, in any case, is a keyword. |
| `GherkinLexer.Step` | src/languages/turbo-gherkin/configuration.ts:29-110 | A step never reaches past the end of the line. |
| `GherkinLexer.CommonPushes` | src/languages/turbo-gherkin/configuration.ts:37-48 | The common rules keep the stack, push `params` only at the start of a line, or push one string state. |
| `GherkinLexer.StepKeepsShape` | src/languages/turbo-gherkin/configuration.ts:29-110 | Every step keeps the stack as `root`, then at most one of `operator` and `params`, then at most one string state. So no pop meets an empty stack. |
| `GherkinLexer.StepProgresses` | src/languages/turbo-gherkin/configuration.ts:29-110 | Before the end of the line a step consumes a character or pops. |
| `GherkinLexer.ModePopsAtLineStart` | src/languages/turbo-gherkin/configuration.ts:69-78 | `operator` and `params` pop with an empty `white` token at the start of a line. |
| `GherkinLexer.HeadingClassified` | src/languages/turbo-gherkin/configuration.ts:50-57 | At the start of a line, a heading is `metatag.php` exactly when its word is a keyword and `identifier` exactly when it is not. Either way it stays in `root`. |
| `GherkinLexer.WordClassified` | src/languages/turbo-gherkin/configuration.ts:59-67 | Otherwise a leading word is `keyword` and pushes `operator` exactly when it is a keyword, and is `emphasis` with the stack kept exactly when it is not. |
| `GherkinLexer.StringPopsOnClose` | src/languages/turbo-gherkin/configuration.ts:90-109 | A string state pops exactly on its own closing delimiter. |
| `GherkinLexer.DoubleQuoteOpensOrFlags` | src/languages/turbo-gherkin/configuration.ts:43-45 | Outside strings, a `"` makes the rest of the line `string.invalid` when no unescaped `"` closes it, and otherwise opens `string_double`. |
| `GherkinLexer.AngleAlwaysOpens` | src/languages/turbo-gherkin/configuration.ts:47 | Outside strings, a `<` always opens `string_angle`. |
| `GherkinLexer.CommonOutsideStrings` | src/languages/turbo-gherkin/configuration.ts:30-33 | In `root` where neither the section rule nor the keyword rule matches, and in `operator` or `params` past the start of the line where no word follows, a step is exactly what the common rules give. |
| `GherkinLexer.AnnotationAnywhere` | src/languages/turbo-gherkin/configuration.ts:38 | Outside strings, an `@` anywhere on the line is an `annotation` that runs to the end of the line, and the stack is kept. |
| `GherkinLexer.StrongLineClassified` | src/languages/turbo-gherkin/configuration.ts:39 | In `root`, a line whose first non-blank character is `*`, and which holds no line terminator, is one `strong` token, and the stack is kept. |
| `GherkinLexer.TableRowOpensParams` | src/languages/turbo-gherkin/configuration.ts:40 | In `root`, a line whose first non-blank character is `\|` gives an `operator` token up to and including that bar and pushes `params`. |
| `GherkinLexer.CommentAnywhere` | src/languages/turbo-gherkin/configuration.ts:82-83 | Outside strings, `#` or `//` anywhere on the line (once whitespace is consumed) makes the rest of the line one `comment` when that rest holds no line terminator, and the stack is kept. |
| `GherkinLexer.RestIsEmphasis` | src/languages/turbo-gherkin/configuration.ts:34 | In `root`, when no earlier rule matches, the rest of the line is `emphasis`. Only when the rest holds a line terminator does the one-character default apply. |
| `GherkinLexer.MidLineWordIsEmphasis` | src/languages/turbo-gherkin/configuration.ts:34 | In `root`, a word met past the start of the line matches none of the common rules, so the rest of the line is `emphasis`. |
| `GherkinLexer.QuoteCommon` | src/languages/turbo-gherkin/configuration.ts:37-48 | At a quote, the common rules give the unterminated-string token or open the matching string state. |
| `GherkinLexer.NumberLen` | src/languages/turbo-gherkin/configuration.ts:87 | A number match covers at least one character and stays within the text. |
| `GherkinLexer.NumberSound` | src/languages/turbo-gherkin/configuration.ts:87 | What the number rule matches is a well-formed number (sign, digits and point, digits, exponent, `j`, `l`) spelled exactly as the matched text. |
| `GherkinLexer.NumberComplete` | src/languages/turbo-gherkin/configuration.ts:87 | Wherever a well-formed number starts the text, the number rule matches, and its match covers at least the whole number. |
| `GherkinLexer.NoNumber` | src/languages/turbo-gherkin/configuration.ts:87 | Text that starts with none of `-`, `.` and a digit holds no number. |
| `GherkinLexer.ExponentSound` | src/languages/turbo-gherkin/configuration.ts:87 | A non-empty exponent match is `[eE][+-]?` followed by digits. |
| `GherkinLexer.EscapeLen` | src/languages/turbo-gherkin/configuration.ts:27 | An escape match covers at least two characters and stays within the text. |
| `GherkinLexer.EscapeSound` | src/languages/turbo-gherkin/configuration.ts:27 | What the escape rule matches is a well-formed escape. |
| `GherkinLexer.EscapeComplete` | src/languages/turbo-gherkin/configuration.ts:27 | Wherever a well-formed escape starts, the escape rule matches at least all of it. |
| `GherkinLexer.EscapeLenIgnoringCase` | src/languages/turbo-gherkin/configuration.ts:23-27 | The escape rule as compiled under `ignoreCase`: a match covers at least two characters. |
| `GherkinLexer.IgnoringCaseCutsLongEscape` | src/languages/turbo-gherkin/configuration.ts:23-27 | Under `ignoreCase` the valid escape `\U12345678` is cut after six characters; the rule as spelled takes all ten. |
| `GherkinLexer.IgnoringCaseAcceptsBadEscape` | src/languages/turbo-gherkin/configuration.ts:23-27 | Under `ignoreCase` the non-escape `\N` is accepted; the rule as spelled rejects it. |
| `GherkinLexer.YoIsNoLetter` | src/languages/turbo-gherkin/configuration.ts:51 | The class `[A-zА-я]` leaves out `Ё` and `ё` and takes in `_`, so `Ёлка:` is no heading and no leading word. |

## Left out

- Rendering, I/O and host messaging are out: markdown rendering, `fireEvent` and `JSON.stringify`. Reports are returned as values: a breakpoint list, or the line list of `get`.
- The 100 ms `setTimeout` before a toggle's report is out. `Toggle` stops before the report, and `UpdateBreakpoints` computes the report for whatever state the timer later finds.
- Cursor and selection saving around `set` (`getPosition`, `setSelection`, `setPosition`) is out; it does not touch the decorations.
- `showError`, `showCode` and `clearErrors` (view zones and DOM nodes) are out. `Clear` models only the two deltas.
- Monaco's `getLinesDecorations` order is unspecified. The model returns ids in ascending order.
- Decoration stickiness, `isWholeLine`, and how edits move ranges are out. Edits are the environment action `TextModel.Drift`, which moves or drops one anchor.
- `StepCatalog.Provider.SetStepList`: a payload step without `insertText` is not modelled. In the source, `e.insertText.split` throws at src/languages/turbo-gherkin/provider.ts:51. The steps before it stay stored, and the relabelling at line 66 is skipped, so they stay unlabelled. The model's `StepPayload` always has an `insertText`.
- `JSON.parse` is out. A payload is `Some(values)` when it parses and `None` when it throws. Values are strings: element values as given, variable values as `String(value)`. A non-string element value that is falsy other than `""` (such as `0`) is not modelled.
- JavaScript key enumeration order in `for ... in` is out. Payload objects are sequences of key/value pairs in enumeration order.
- Prototype keys are out. A placeholder naming an inherited property such as `constructor` finds a truthy value in the source but not in the model.
- `updateStepLabels` writes the label through `e`, which aliases the catalogue's entry (src/languages/turbo-gherkin/provider.ts:80). The model writes the relabelled value back under the same key, which has the same effect. Each stored step is a fresh object with fresh `head` and `body` arrays, so nothing is shared with the payload.
- `checkAllSyntax` after a step list and `createTheme1C` in the constructor are out; they are rendering only.
- `syntaxMsg` starts as `""`. Its initial value lives in the provider base, which is not part of this model.
- The provider base (`splitWords`, `filterWords`, `key`, `findKeyword`, `singleWords`) is not part of this model. Its helpers are function parameters of `StepCatalog.Base`. `singleWords` is a parameter of the tokenizer step.
- The step's `label` field is named `caption` in the model, because `label` is a reserved word in Dafny.
- `Text.Lower` lowers only ASCII, Latin-1 and Cyrillic U+0400–U+042F capitals; other scripts are left as they are.
- Unicode case folding of the keyword test (U+1C80–U+1C86 folding into `[А-я]` under `ignoreCase`) is not modelled.
- The Monarch driver loop is out: running `Step` across a line, the `forceEvaluation` pass on empty lines, and merging adjacent tokens of the same type. Only single steps are modelled. `tokenPostfix` is left out of the token names.
- `conf` (comment and bracket-pair settings for the editor) is out; it is configuration data without behaviour to prove.
- `GherkinLexer.Heading`: states only where a match ends. Its classification is stated by `HeadingClassified` and `YoIsNoLetter`.
- `GherkinLexer.Step`: states only the bound on the length. The other properties are stated rule by rule. The stack shape is `StepKeepsShape` and progress is `StepProgresses`. Headings and words are `HeadingClassified` and `WordClassified`. The line-start rules are `StrongLineClassified`, `TableRowOpensParams` and `ModePopsAtLineStart`. The common rules are `CommonOutsideStrings`, `AnnotationAnywhere`, `CommentAnywhere`, `QuoteCommon` and the number lemmas. The fallback is `RestIsEmphasis` and `MidLineWordIsEmphasis`, and the string states are `StringPopsOnClose`.
- `StepCatalog.RelabelAll`: states only that the keys are kept. What each step becomes is stated by `RelabelWritesOnlyLabels`, `KeywordAndLabel`, `Substitute` and `InsertText`.
- `RuntimeSteps.RuntimeProcessManager.Set`: uses the corrected list update (see Findings). The as-written update is `AsWrittenStepIds`.
- `RuntimeSteps.RuntimeProcessManager.Forget`: implements the corrected splice of src/debug.ts:200-207 (see Findings). The as-written splice is `AsWrittenStepIds`.
- `RuntimeSteps.RuntimeProcessManager.Set`: takes its lines as a list. The source also accepts a single number (src/debug.ts:180, 186), which it wraps as a one-element list; the model's caller passes `[n]`.
- Monaco clamps every range to lines 1 to `lineCount` when it stores a decoration (`deltaDecorations`) and when it looks decorations up (`getLinesDecorations`). The model's store does not clamp. So for a line outside the document, `set` and `get` look at that line itself where Monaco would look at the first or last line. For the same reason, the promise of `Breakpoints.BreakpointManager.DecorateBreakpoints` that no entry has drifted holds in Monaco only for host breakpoints on lines inside the document.
- `GherkinLexer.StringStep`: uses the escape rule as spelled (`EscapeLen`). The rule as compiled under `ignoreCase` is `EscapeLenIgnoringCase` (see Findings).

## Findings

| source | as written | input that shows it | evidently intended | confidence | as-written member | corrected member |
|---|---|---|---|---|---|---|
| src/debug.ts:202-203 | For a status other than "current", a removed id's index in `currentStepDecorationIds` is used to splice `stepDecorationIds`, and the current list itself is never updated | An ordinary step (id 0, line 5) and the current step (id 1, line 3); then `set("error", 3)` | Splice `currentStepDecorationIds` at that index. Then the step list keeps id 0 and a later `clear()` removes every highlight | not executed | `RuntimeSteps.AsWrittenLosesStep` | `RuntimeSteps.RuntimeProcessManager.Set` |
| src/languages/turbo-gherkin/configuration.ts:23-27 | `ignoreCase: true` makes every letter in the `escapes` pattern match either case. The `u[0-9A-Fa-f]{4}` alternative then matches `\U` first, and `[abfnrtv]` matches `\A`, `\N` and so on | `"\U12345678"` lexes as escape `\U1234` then `5678`; `"\N"` lexes as a valid escape | The escape pattern as spelled, case-sensitively: `\U` takes eight hex digits and `\N` is `string.escape.invalid` | not executed | `GherkinLexer.IgnoringCaseCutsLongEscape` | `GherkinLexer.EscapeComplete` |
