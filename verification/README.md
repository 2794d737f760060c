# Terminal chat client core, in Dafny

This project models the input and command-routing logic of a terminal chat client written in TypeScript:

- the line editor: pure text operations over a `(text, cursor)` pair, and the buffer that holds that state;
- the input history: adding lines with blank rejection and adjacent-duplicate collapsing, and index-based up/down recall;
- the raw key codes, and the key interpreter that classifies one input chunk and calls buffer callbacks;
- the slash-command layer: the stateless dispatcher and its default command list, and the stateful `CommandController` with replace-or-append registration, built-in help/clear/exit, and a not-found message. The controller keeps the array it is given, a `CommandList` object, and registers into it, so the caller's array changes with every registration;
- the provider selector: the preferred back end, the provider listing, the model-manager lookup, and the choice of send function.

Strings are sequences of `char`, and each `char` is read as one UTF-16 code unit of the Basic Multilingual Plane. A character outside that plane, such as an emoji, is one `char` here where JavaScript counts two code units. JavaScript's `slice`, `trim`, `startsWith` and `includes` are modelled with their exact semantics in module `JsString`, and so is `indexOf` for the one-character needle the client passes it (a longer needle is not modelled). That includes negative and past-the-end indices for `slice`, and the full ECMAScript whitespace set for `trim`. Cursors are unbounded integers, because callers may pass negative or past-the-end positions to the pure operations.

Module layout:

| file | modules | source |
|---|---|---|
| `js_string.dfy` | `JsString` | JavaScript string built-ins |
| `text_with_cursor.dfy` | `TextOperations`, `TextWithCursor` | `source/hooks/useTextWithCursor.ts` |
| `input_history.dfy` | `HistoryOperations`, `InputHistory` | `source/hooks/useInputHistory.tsx` |
| `key_codes.dfy` | `KeyCodes` | `source/utils/constants.ts` |
| `key_handlers.dfy` | `KeyHandlers` | `source/utils/keyHandlers.ts` |
| `commands.dfy` | `Commands` | `source/hooks/useCommand.tsx` |
| `command_controller.dfy` | `CommandControl` | `source/utils/CommandController.tsx` |
| `api_provider.dfy` | `ApiProvider` | `source/api/apiProvider.ts` |

The two stateful hooks are modelled as classes, `TextWithCursor.TextBuffer` and `InputHistory.HistoryNavigator`. The module-level preferred-provider variable of the provider module is the single field of the class `ApiProvider.ProviderSelector`. The `useCommand` hook keeps no state of its own and is modelled by pure functions over its command list. Each class method is specified by the pure function it wraps, and the lemmas state properties of those functions. Callbacks are not executable here, so each one is represented by what it leaves behind:

- A slash-command handler is a `Handler` value. It is a tag for an application handler, one of the default placeholders, or one of the controller's built-ins. A built-in carries the controller that registered it, as the arrow function captures `this`. Its output, clear and exit act through that controller even when another controller sharing the array dispatches it.
- The dispatching controller records every handler call as an `Invocation(command, args)`.
- The controller records every batch of lines sent to its output callback and counts the calls of its clear callback.
- The controller records whether the exit command scheduled the process exit.
- The key interpreter returns the list of callback calls it makes and applies them to the buffer.

## Model

| member | source | states |
|---|---|---|
| JsString.SplitAt | source/hooks/useTextWithCursor.ts:8 | `s.slice(0, i) + s.slice(i)` is `s` for every index, in range or not, and the left part is the prefix up to where `slice` puts `i` |
| JsString.BlankIffAllWhitespace | source/hooks/useInputHistory.tsx:12 | `!entry.trim()` holds exactly when every code unit of the entry is whitespace |
| JsString.TrimShape | source/utils/CommandController.tsx:60 | `trim` removes whitespace from both ends and nothing else, and its result neither starts nor ends with whitespace |
| JsString.Slice | source/hooks/useTextWithCursor.ts:8 | `slice(start, end)` gives the units between two in-range indices, counts a negative start from the end, gives "" when the ends cross on the same side of 0, and is never longer than the string |
| JsString.SliceFrom | source/hooks/useTextWithCursor.ts:8 | `slice(start)` is `slice(start, length)`: the suffix from an in-range start, counted from the end for a negative one, all of the string below `-length`, and "" at or past the end |
| JsString.Trim | source/utils/CommandController.tsx:55-60 | `trim` is never longer than its input, and a non-empty result neither starts nor ends with whitespace |
| JsString.StartsWith | source/utils/CommandController.tsx:55 | `startsWith(p)` holds exactly when `p` is no longer than the string and agrees with it position by position |
| JsString.IncludesIff | source/utils/keyHandlers.ts:69 | `includes(sub)` holds exactly when `sub` occurs at some position of the string |
| JsString.IndexOf | source/utils/CommandController.tsx:61 | `indexOf` of one character is -1 exactly when the character is absent; otherwise it is its first position |
| TextOperations.InsertText | source/hooks/useTextWithCursor.ts:7-11 | the input is spliced in at the cursor and the cursor advances by the input's length in code units; a past-the-end cursor appends |
| TextOperations.Backspace | source/hooks/useTextWithCursor.ts:13-20 | identity for a cursor at or below 0; otherwise the code unit before the cursor goes and the cursor steps back |
| TextOperations.DeleteCharAsWritten | source/hooks/useTextWithCursor.ts:22-28 | the forward delete as written: removes the unit at an in-range cursor; at or past the end it changes nothing; the cursor never moves |
| TextOperations.DeleteChar | source/hooks/useTextWithCursor.ts:22-28 | the forward delete: removes the unit under an in-range cursor and otherwise changes nothing; the cursor never moves |
| TextOperations.DeleteCharAgrees | source/hooks/useTextWithCursor.ts:22-28 | for every non-negative cursor the two definitions give the same state |
| TextOperations.DeleteCharNegativeCursor | source/hooks/useTextWithCursor.ts:23-24 | with text "abc" and cursor -1 the code as written yields "ababc" |
| TextOperations.MoveCursorLeft | source/hooks/useTextWithCursor.ts:30-32 | decrements only a positive cursor; other cursors are returned unchanged, not clamped |
| TextOperations.MoveCursorRight | source/hooks/useTextWithCursor.ts:34-36 | increments only a cursor before the end; other cursors are returned unchanged |
| TextOperations.DeleteToLineEnd | source/hooks/useTextWithCursor.ts:38-43 | keeps the text before an in-range cursor and drops all the rest, later lines included; at or past the end it keeps the text |
| TextOperations.DeleteToLineStart | source/hooks/useTextWithCursor.ts:45-50 | for a positive cursor the removed prefix followed by the result is the original text, and the cursor becomes 0; otherwise nothing changes |
| TextOperations.InsertThenBackspace | source/hooks/useTextWithCursor.test.tsx:151-165 | inserting one character at an in-range cursor and then backspacing restores text and cursor exactly |
| TextOperations.InsertThenBackspaces | source/hooks/useTextWithCursor.ts:7-20 | inserting a run of any length and backspacing once per inserted unit restores text and cursor |
| TextOperations.KillToStartThenReinsert | source/hooks/useTextWithCursor.ts:45-50 | re-inserting the killed prefix at position 0 restores the text and the cursor |
| TextOperations.LeftThenRight | source/hooks/useTextWithCursor.ts:30-36 | from an interior cursor, left then right returns to it |
| TextWithCursor.TextBuffer.constructor | source/hooks/useTextWithCursor.ts:57-59 | the buffer starts with the initial text and the cursor at its end |
| TextWithCursor.TextBuffer.SetText | source/hooks/useTextWithCursor.ts:58 | the raw text setter replaces the text and leaves the cursor |
| TextWithCursor.TextBuffer.SetCursorPos | source/hooks/useTextWithCursor.ts:59 | the raw cursor setter replaces the cursor and leaves the text |
| TextWithCursor.TextBuffer.Insert | source/hooks/useTextWithCursor.ts:61-65 | the new state is `insertText` of the old one; an in-range cursor stays in range |
| TextWithCursor.TextBuffer.Backspace | source/hooks/useTextWithCursor.ts:67-71 | the new state is `backspace` of the old one; an in-range cursor stays in range |
| TextWithCursor.TextBuffer.DeleteChar | source/hooks/useTextWithCursor.ts:73-77 | the new state is `deleteChar` as written, including its growth for a negative cursor set through `setCursorPos`; from an in-range state it is the intended delete and stays in range |
| TextWithCursor.TextBuffer.MoveCursorLeft | source/hooks/useTextWithCursor.ts:79-81 | the text is kept and the cursor moves by `moveCursorLeft`; in range stays in range |
| TextWithCursor.TextBuffer.MoveCursorRight | source/hooks/useTextWithCursor.ts:83-85 | the text is kept and the cursor moves by `moveCursorRight`; in range stays in range |
| TextWithCursor.TextBuffer.MoveCursorToStart | source/hooks/useTextWithCursor.ts:87-89 | the cursor becomes 0 and the text is kept |
| TextWithCursor.TextBuffer.MoveCursorToEnd | source/hooks/useTextWithCursor.ts:91-93 | the cursor becomes the text length and the text is kept |
| TextWithCursor.TextBuffer.Clear | source/hooks/useTextWithCursor.ts:95-98 | the state becomes ("", 0) |
| TextWithCursor.TextBuffer.DeleteToLineEnd | source/hooks/useTextWithCursor.ts:100-102 | only the text is replaced, by `deleteToLineEnd`; from an in-range state the cursor ends exactly at the end of what is left |
| TextWithCursor.TextBuffer.DeleteToLineStart | source/hooks/useTextWithCursor.ts:104-108 | the new state is `deleteToLineStart` of the old one; an in-range cursor stays in range |
| HistoryOperations.Collapse | source/hooks/useInputHistory.tsx:20-28 | dropping each entry equal to its predecessor leaves no adjacent duplicates, keeps the first and last entries and adds no value |
| HistoryOperations.CollapseKeepsValues | source/hooks/useInputHistory.tsx:20-28 | collapsing loses no value that occurs in the history |
| HistoryOperations.CollapseIdentity | source/hooks/useInputHistory.test.tsx:28-33 | a history without adjacent duplicates is unchanged, so equal entries that are not neighbours survive |
| HistoryOperations.Added | source/hooks/useInputHistory.tsx:11-32 | a blank entry, or a repeat of the newest entry, gives the history back unchanged, earlier runs of duplicates included; any other entry gives the collapsed history followed by the entry; it grows by at most one and holds no value that was neither in the history nor the entry |
| HistoryOperations.AddToHistory | source/hooks/useInputHistory.tsx:11-32 | the copying loop computes the collapsed history plus the entry; blank entries give the history back; the result ends with any non-blank entry; the input is a value and is never modified |
| HistoryOperations.AddedFresh | source/hooks/useInputHistory.tsx:20-31 | after a non-blank, non-repeated add there are no adjacent duplicates, the last element is the entry, and every earlier value is kept |
| HistoryOperations.AddedPreservesWellFormed | source/hooks/useInputHistory.tsx:11-32 | a history without blank entries or adjacent duplicates keeps both properties after any add |
| HistoryOperations.AppendWellFormed | source/hooks/useInputHistory.tsx:20-31 | appending a non-blank entry that differs from the newest one keeps a well-formed history well-formed |
| HistoryOperations.AddedBlankExample | source/hooks/useInputHistory.test.tsx:41-46 | a whitespace-only entry leaves the history unchanged |
| HistoryOperations.AddedCollapseExample | source/hooks/useInputHistory.test.tsx:14-20 | `[first, second, second]` plus `third` gives `[first, second, third]` |
| HistoryOperations.AddedRepeatExample | source/hooks/useInputHistory.tsx:15-17 | a repeat of the newest entry returns the history with its earlier run of duplicates intact |
| HistoryOperations.AddedNonAdjacentExample | source/hooks/useInputHistory.test.tsx:28-33 | non-adjacent duplicates are kept when a fresh entry is added |
| HistoryOperations.PreviousEntry | source/hooks/useInputHistory.tsx:37-55 | empty history gives ("", -1); otherwise the new index is `currentIndex + 1` clamped into the history, and the entry is read that many places back from the newest, never out of bounds |
| HistoryOperations.NextEntry | source/hooks/useInputHistory.tsx:60-78 | an index at or below 0 gives ("", -1); otherwise the new index is `min(index, n-1) - 1`, and the entry is the one there or "" once past the newest |
| HistoryOperations.RecallWalkExample | source/hooks/useInputHistory.test.tsx:58-102 | on three entries, walking up stops at the oldest, and walking back down ends on the live line |
| HistoryOperations.PreviousThenNext | source/hooks/useInputHistory.tsx:37-78 | one step up then one step down returns to the same index and entry |
| InputHistory.HistoryNavigator.constructor | source/hooks/useInputHistory.tsx:84-86 | the history is the initial one and navigation is off (-1) |
| InputHistory.HistoryNavigator.AddToHistory | source/hooks/useInputHistory.tsx:89-94 | a blank entry changes neither history nor index; any other entry is added and resets the index to -1; a well-formed history stays well-formed |
| InputHistory.HistoryNavigator.GetPreviousEntry | source/hooks/useInputHistory.tsx:97-101 | returns the entry of `getPreviousEntry` and stores its index; the index stays within [-1, n) |
| InputHistory.HistoryNavigator.GetNextEntry | source/hooks/useInputHistory.tsx:104-108 | returns the entry of `getNextEntry` and stores its index; the index stays within [-1, n) |
| InputHistory.HistoryNavigator.ResetNavigation | source/hooks/useInputHistory.tsx:111-113 | the index becomes -1 and the history is kept |
| KeyCodes.CodeGroups | source/utils/constants.ts:2-15 | there are twelve codes, and each is either a control code or an escape sequence |
| KeyCodes.CodesDistinct | source/utils/constants.ts:2-15 | the twelve codes are pairwise distinct |
| KeyCodes.ControlCodesAreSingleControlChars | source/utils/constants.ts:2-15 | backspace, Ctrl-C/U/K/H/A/E are each one control character |
| KeyCodes.EscapeCodesStartWithCsi | source/utils/constants.ts:3-13 | delete, the arrows, home and end each begin with ESC followed by '[' |
| KeyCodes.OnlyDeleteHasMarker | source/utils/constants.ts:3 | of all the codes, only delete contains `[3~` |
| KeyCodes.SubmitKeysNotCodes | source/utils/constants.ts:2-15 | neither "\r" nor "\n" is a code |
| KeyHandlers.Lookup | source/utils/keyHandlers.ts:67-68 | the Map lookup finds nothing exactly when the key is not in the table, and otherwise returns an action paired with that key |
| KeyHandlers.TableKeysAreCodes | source/utils/keyHandlers.ts:52-65 | the table's keys, in order, are the twelve codes, so no Map entry is lost |
| KeyHandlers.Classify | source/utils/keyHandlers.ts:67-86 | exactly one branch per chunk: the table for exactly the codes, then forward delete for any other chunk containing `[3~`, then submit for "\r"/"\n", then verbatim insert when not ESC-prefixed, and otherwise nothing |
| KeyHandlers.LookupFindsEntry | source/utils/keyHandlers.ts:52-68 | in a table without repeated keys, each key finds its own action |
| KeyHandlers.ClassifyTable | source/utils/keyHandlers.test.ts:83-234 | each code runs the action the table maps it to: Ctrl-C exits with 0, backspace and Ctrl-H delete back, home and Ctrl-A go to the start, and so on |
| KeyHandlers.ClassifySubmitKeys | source/utils/keyHandlers.ts:72 | carriage return and line feed submit |
| KeyHandlers.ClassifyRest | source/utils/keyHandlers.ts:83-85 | any other chunk is inserted verbatim unless it starts with ESC, in which case it is dropped |
| KeyHandlers.Calls | source/utils/keyHandlers.ts:67-86 | at most two callbacks per chunk; `clear` runs exactly on submit, once and last, after `onSubmit(text)` or the console fallback; an ignored chunk calls nothing |
| KeyHandlers.SubmitClears | source/utils/keyHandlers.ts:72-82 | submitting always leaves the buffer empty with the cursor at 0 |
| KeyHandlers.ApplyCall | source/utils/keyHandlers.ts:52-85 | one callback's effect on the buffer: in range stays in range, `clear` empties it, submitting, logging and exiting leave it alone, and inserting grows the text by the input's length |
| KeyHandlers.ApplyCalls | source/utils/keyHandlers.ts:67-86 | any sequence of callbacks, applied in order, keeps an in-range cursor in range |
| KeyHandlers.Perform | source/utils/keyHandlers.ts:68 | running one callback changes the buffer as the callback's operation says, forward delete as the code is written |
| KeyHandlers.HandleKey | source/utils/keyHandlers.ts:47-86 | the handler makes exactly the calls of the chunk's branch, in order, and the buffer ends in the state they compute, forward delete as the code is written; an in-range cursor stays in range |
| Commands.Parse | source/hooks/useCommand.tsx:21-40 | no command exactly when the trimmed input does not start with '/'; the name runs from '/' up to the first space and holds no space; the arguments are "" without a space and otherwise the trimmed rest after it |
| Commands.ParseFormat | source/utils/CommandController.test.tsx:415-443 | a formatted line `/name args` parses back to its name and its arguments verbatim, for every whitespace-free name and every already trimmed argument string, quotes and flags included |
| Commands.ParseBareSlash | source/utils/CommandController.test.tsx:398-429 | "/" and "/    " name the empty command with no arguments |
| Commands.FindIndex | source/utils/CommandController.tsx:34 | `findIndex` gives the first position holding the name, or -1 when no position does |
| Commands.Find | source/hooks/useCommand.tsx:43 | `find` gives a command of the list with that name, and nothing exactly when no command has it |
| Commands.FindFirst | source/hooks/useCommand.tsx:43 | the first command with a name is the one found |
| Commands.ProcessCommand | source/hooks/useCommand.tsx:19-52 | a line is handled exactly when it parses and its name is in the list; then exactly one handler is called, once, with the parsed arguments; otherwise nothing is called |
| Commands.ProcessCommandFirstWins | source/hooks/useCommand.tsx:43-47 | with duplicate names, the first matching command in the list is the one called |
| Commands.Listing | source/hooks/useCommand.tsx:57-62 | name and description of each command, in list order |
| Commands.DefaultCommandsOffered | source/hooks/useCommand.tsx:73-99 | the default list offers exit, help and clear, in that order, with distinct names |
| CommandControl.Register | source/utils/CommandController.tsx:32-40 | a command whose name is present replaces the first holder of that name in place and leaves every other position alone; otherwise it is appended |
| CommandControl.RegisterFind | source/utils/CommandController.tsx:32-40 | after registering, the name finds the new command, and every other name finds what it found before |
| CommandControl.RegisterKeepsNames | source/utils/CommandController.tsx:32-40 | registering loses no name, and unique names stay unique |
| CommandControl.LastNamed | source/utils/CommandController.tsx:45-47 | the last command of a name in a list, or nothing when no command has it |
| CommandControl.RegisterAll | source/utils/CommandController.tsx:45-47 | registering a list in turn never shortens the commands and adds at most one per listed command |
| CommandControl.RegisterAllLaterWins | source/utils/CommandController.tsx:45-47 | after registering a list, a name finds the last command of that name in the list, or what it found before if the list has none |
| CommandControl.RegisterAllKeepsUnique | source/utils/CommandController.tsx:45-47 | registering a list keeps unique names unique |
| CommandControl.BuiltInsWin | source/utils/CommandController.tsx:21-26 | whatever list the controller starts from, help, clear and exit are then found as the built-in commands of the registering controller |
| CommandControl.RegisterAllBuiltIns | source/utils/CommandController.tsx:116-147 | registering the built-ins is registering help, then clear, then exit |
| CommandControl.NotFoundMessage | source/utils/CommandController.tsx:84 | the not-found line starts with `Command not found: /`, holds the name next, and ends with `. Type /help to see available commands.`, so the name can be read back from it |
| CommandControl.NotFoundMessageInjective | source/utils/CommandController.tsx:84 | two not-found lines are equal exactly when they name the same command |
| CommandControl.HelpLines | source/utils/CommandController.tsx:122-124 | one line `/<name> - <description>` per command, in order |
| CommandControl.HandlerOutput | source/utils/CommandController.tsx:121-145 | help and exit send exactly one batch, the others none; help's batch is the `HelpLines` listing of the owner's commands, one line per command, and exit's is "Exiting application..." |
| CommandControl.BoundTo | source/utils/CommandController.tsx:116-147 | a built-in handler's effects go to the controller it was registered by; no other handler is bound to a controller |
| CommandControl.BoundToOwner | source/utils/CommandController.tsx:116-147 | each of the three built-ins a controller registers is bound to that controller |
| CommandControl.CommandList.constructor | source/utils/CommandController.tsx:21 | a fresh array holding the given commands |
| CommandControl.CommandController.constructor | source/utils/CommandController.tsx:16-27 | the controller keeps the supplied array itself, or a fresh empty one, and registers its own help, clear and exit into it, so the caller's array becomes the old contents with the built-ins registered; those three are then found as the built-ins; unique names stay unique; no output, clear, call or exit yet |
| CommandControl.CommandController.RegisterBuiltInCommands | source/utils/CommandController.tsx:116-147 | the shared array becomes the old one with help, clear and exit registered in that order |
| CommandControl.CommandController.RegisterCommand | source/utils/CommandController.tsx:32-40 | the shared array, which the caller may also hold, becomes the replace-or-append result and nothing else changes |
| CommandControl.CommandController.RegisterCommands | source/utils/CommandController.tsx:45-47 | the loop registers each command in turn into the shared array and nothing else changes |
| CommandControl.CommandController.ProcessCommand | source/utils/CommandController.tsx:53-87 | handled exactly when the stateless dispatcher would handle the line against the current list; a non-command changes nothing; an unknown name, the empty one included, sends exactly the not-found line; a known name calls that handler once with its arguments, and a built-in acts through the controller that registered it |
| CommandControl.CommandController.RunHandler | source/utils/CommandController.tsx:118-146 | a call is recorded by the caller; a built-in acts on the controller that registered it: help sends the listing of that controller's array, clear calls its clear callback once, and exit sends "Exiting application..." and schedules the exit; the caller's own output, clears and exit flag change only when it is that controller |
| CommandControl.CommandController.GetAvailableCommands | source/utils/CommandController.tsx:92-97 | name and description of each registered command, in list order |
| CommandControl.ControllerOverDefaults | source/utils/CommandController.tsx:16-40 | a controller built over a shared default list rewrites that list in place: exit, help and clear are replaced by that controller's built-ins where they stand |
| CommandControl.SharedListRebindsBuiltIns | source/utils/CommandController.tsx:16-40 | with two controllers over one array, a help line given to the first prints the listing through the second, whose registration replaced the first's built-ins, and the first prints nothing |
| CommandControl.AskHelpThroughOther | source/utils/CommandController.tsx:53-87 | a help line given to one controller whose array holds another's help command sends that listing to the other's output and leaves its own output unchanged |
| CommandControl.HelpReachesOwner | source/utils/CommandController.tsx:75-79 | a line named help over a list whose help command a controller registered calls that command with the parsed arguments, and reaches that controller only |
| CommandControl.DefaultsRegistered | source/utils/CommandController.tsx:32-40 | registering help, clear and exit over the default list keeps its order and swaps in the built-ins |
| ApiProvider.AvailableProviders | source/api/apiProvider.ts:35-37 | four providers without duplicates, whose values are claude, lmstudio, ollama, openai in that order |
| ApiProvider.AllProvidersAvailable | source/api/apiProvider.ts:35-37 | every provider is in the listing |
| ApiProvider.ValuesDistinct | source/api/apiProvider.ts:18-23 | two providers have the same string value exactly when they are the same provider |
| ApiProvider.ModelManagerFor | source/api/apiProvider.ts:39-46 | a manager exactly for LM Studio, and its send function is the one the router picks for LM Studio |
| ApiProvider.Route | source/api/apiProvider.ts:48-60 | each provider is routed to its own send function |
| ApiProvider.RouteInjective | source/api/apiProvider.ts:48-60 | different providers go to different send functions |
| ApiProvider.ProviderSelector.constructor | source/api/apiProvider.ts:25 | the preferred provider starts as LM Studio |
| ApiProvider.ProviderSelector.SetPreferredProvider | source/api/apiProvider.ts:27-29 | any provider may be set from any other |
| ApiProvider.ProviderSelector.GetPreferredProvider | source/api/apiProvider.ts:31-33 | returns the preferred provider |
| ApiProvider.ProviderSelector.SendApiRequest | source/api/apiProvider.ts:48-60 | exactly one send function gets the prompt, unchanged, and it belongs to the preferred provider |
| ApiProvider.SelectAndSend | source/api/apiProvider.test.ts:41-82 | after selecting a provider, a request goes to that provider with the prompt unchanged |

## Left out

- Rendering, the stdin listener and raw-mode setup, and the React hook plumbing (`useState`, `useCallback`) are not modelled. Hook state is held as plain class fields, and updates take effect at once instead of at the next render.
- The React contexts, the back-end request functions and the model manager's listing and selection are not modelled. Each send function is an opaque value; a request is the function chosen plus the prompt.
- `process.exit`, the 100 ms exit timer and the `console.log` fallbacks are not modelled as effects. They are recorded instead: `ExitProcess(0)` and `LogSubmission(text)` calls in the key interpreter, and the `exitScheduled` flag in the controller. The default commands' placeholder handlers are tags whose console output is not modelled, and the default exit placeholder's immediate `process.exit(0)` is recorded nowhere: calling `DefaultExit` changes no state in the model.
- `KeyHandlers.HandleKey`: `ExitProcess(0)` leaves the buffer as it was, because the real process ends there.
- `ApiProvider.Route`: the `default:` branch of `sendApiRequest` cannot be reached with a typed provider, so it is not modelled. `OLLAMA` goes to the Ollama send function, as in the source.
- `TextOperations.DeleteToLineEnd`: this follows the code, which drops everything after the cursor, later lines included. It does not keep text after the next newline, which a "to line end" name would suggest.
- The buffer and the key interpreter use `deleteChar` as written (see Findings). The corrected `TextOperations.DeleteChar` is what they compute from an in-range state, where the two agree.
- Surrogate pairs and grapheme clusters are not modelled. Each `char` is one code unit of the Basic Multilingual Plane; a lone surrogate half cannot be written, and a character outside that plane, such as an emoji, counts 1 where JavaScript counts 2.
- TextOperations.InsertText: for a character outside the Basic Multilingual Plane the cursor advances by 1, where JavaScript advances it by 2.
- Behaviour that appears only in test files and not in the code is not modelled: arrow-up/down keys, invalid-name rejection, the provider and model commands, and null input.
- The performance test of the history and the build configuration are out of scope.

## Findings

| source | as written | input that shows it | evidently intended | confidence | as-written member | corrected member |
|---|---|---|---|---|---|---|
| source/hooks/useTextWithCursor.ts:22-28 | `deleteChar` checks only `cursorPos < text.length`, so a negative cursor reaches `slice`, which counts it from the end | text "abc", cursor -1: `"abc".slice(0, -1) + "abc".slice(0)` is "ababc", so the text grows | a cursor outside the text deletes nothing, as with a cursor at or past the end | not executed | TextOperations.DeleteCharAsWritten (counterexample: TextOperations.DeleteCharNegativeCursor) | TextOperations.DeleteChar |
