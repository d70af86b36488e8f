# dlvpp, verified model

dlvpp is a terminal front end for the Delve debugger. It speaks the Debug Adapter Protocol (DAP) to a Delve
server over one TCP connection, keeps a registry of breakpoints, and drives a raw-mode terminal. This project
models the parts of it whose behaviour spans many steps and proves what holds of all their runs.

`dafny verify dfyconfig.toml` checks everything. A Go string is a sequence of bytes, one `char` for each.

## How it is organised

| file | models |
|---|---|
| `GoStrings.dfy` | the parts of Go's `strings` and `strconv` the code relies on |
| `Framing.dfy` | `Content-Length` framing (DAP specification, "Base Protocol"), reader and writer |
| `Dap.dfy` | decoded messages, and the state events leave behind |
| `Protocol.dfy` | requests and their answers on one shared stream, and what a thread action waits for |
| `Links.dfy` | what the client's operations do to one connection, and exactly when they succeed |
| `Client.dfy` | the client object: its two reading loops, its actions, opening, closing, breakpoints |
| `StaleStops.dfy` | whose stop an action returns when an earlier one timed out |
| `Locations.dfy` | breakpoint locations: parsing, printing, normalising |
| `Registry.dfy` | the breakpoint registry, what it sends and what a reply does to it |
| `Mirror.dfy` | registry and server side by side, over every run of operations and failures |
| `Listing.dfy` | the sorted listing of all breakpoints |
| `ReusedIds.dfy` | runs whose replies reuse an id, where a clear misses and a listing is not determined |
| `Snapshots.dfy`, `Session.dfy` | snapshots and actions, and the session controller on top of the client |
| `OrdinaryRuns.dfy` | what an ordinary server sends: launches and starts that succeed |
| `AsyncReader.dfy` | the asynchronous reader as a two-party state machine |
| `Locals.dfy`, `Expansion.dfy`, `ShownChildren.dfy`, `Walks.dfy` | the walks over debugger locals: as functions, their laws, what they show, and as the code runs them |
| `Resolver.dfy` | the location a break command means |
| `Runner.dfy`, `Screens.dfy` | the calls the front end makes of a session, and the view their replies lead to |
| `Commands.dfy`, `Editor.dfy`, `Terminal.dfy` | command texts, the command line key by key, and the terminal loop |
| `Highlight.dfy`, `LineNumbers.dfy` | syntax highlighting and stripping, and on which lines the source is shown |
| `SourceView.dfy` | numbered source windows |
| `SourceIndex.dfy` | the source-index cache and its parallel workers |

Input and output are parameters: what the connection will deliver, what the terminal will read, which writes
fail, at which turn the loop's context is canceled. Replies of a session are arbitrary, and logged with its
calls. Loops end because the modelled input does.
Most files end in a section "in plain terms", which says in fields, bytes and literals what their functions mean.
Sections named "DAP" below are those of the Debug Adapter Protocol specification.

## Where the code does not do what one would expect

- Highlighting is not always undone by stripping. `highlightGoSource` writes the text between the last token and
  the end of the file twice, because `prev` is not moved when the end-of-file token's gap is written; a blank
  line at the end of a file is shown twice. The exact condition is `Highlight.HighlightIsUndoneExactlyWhen`;
  the failing families are `Highlight.TrailingTextIsRepeated`, `Highlight.SemicolonAtTheEndAddsALine` and
  `LineNumbers.SemicolonInsideACommentRepeatsIt`.
- Highlighted source is not always shown on its own lines. The semicolon the scanner inserts for a comment over
  several lines makes the code go back, and every line after that comment is shown lower by the line ends gone
  back over, so that a window marks the wrong line as current: `LineNumbers.LaterLinesAreShifted`, with
  `LineNumbers.ThirdLineIsMisplaced` at a concrete source. Which lines keep their numbers is
  `LineNumbers.LineKeepsItsNumberExactlyWhen`: without such a comment all of them but, when text other than a
  line end follows the last token on it, the last; with one, those up to the comment's end, and below it only
  those that happen to read like the higher source line, or the beginning of one, shown in their place.
- Clearing the breakpoint just created may remove another one when its id is also that of an item of another
  file, or of an earlier item of its own group; files are searched before functions. The exact condition is
  `Mirror.CreateThenClearExactlyWhen`, unique ids are enough (`Mirror.CreateThenClearRestores`), and
  `ReusedIds.ReusedIdClearsAnother` is a run of two creates that fails.
- The listing is determined exactly when tracked breakpoints with equal keys are equal:
  `Listing.ListingIsDeterminedExactlyWhen`, with `ReusedIds.ReusedIdLeavesTwoListings` for a run where they are not.
- An action can return the stop of an earlier one whose wait timed out. It returns its own exactly when no such
  stop is still unread: `StaleStops.OwnStopExactlyWhen`; `StaleStops.SecondActionReturnsTheFirstStop` is a run of
  two actions where the second returns the first one's stop and leaves its own unread.
- A reader call can block with two results outstanding: `AsyncReader.TwoCancelledWaitsCanBlock`; the blocking
  states are exactly those of `AsyncReader.StuckExactlyWhen`.
- The key `b` lists breakpoints, but the command `:b` is an error: `Commands.ShortcutsAgree`.

## Model

| member | source | states |
|---|---|---|
| Framing.StreamRoundTrip | internal/backend/dap/client.go:703-770 | For every list of frames, with any ignorable header lines around each length, reading the concatenated bytes yields exactly the payloads, in order, with no byte left |
| Framing.ReadOneFrame | internal/backend/dap/client.go:718-770 | One frame reads back as its payload and leaves exactly the bytes after it, whatever they are |
| Framing.HeaderOfFrame | internal/backend/dap/client.go:742-770 | Extra header lines before or after the length line do not change the length announced |
| Framing.HeaderInWords | internal/backend/dap/client.go:742-770 | Line by line: a line named Content-Length, in any case, sets the length, whatever was announced before, and must hold a number; any other named line does nothing; the blank line ends the header, and is an error when nothing was announced |
| Framing.WrittenFrame | internal/backend/dap/client.go:695-716 | What the client writes is one such frame, with no extra lines |
| Framing.FrameInBytes | internal/backend/dap/client.go:695-716 | The bytes written: the length line, a blank line and the payload |
| Framing.CutHeader | internal/backend/dap/client.go:742-770 | A header cut anywhere before the end of its blank line yields an error, never a length |
| Framing.CutFrameIsAnError | internal/backend/dap/client.go:718-770 | No proper prefix of a frame is ever taken for a whole message |
| Framing.ByteReader.ReadContentLength | internal/backend/dap/client.go:742-770 | The loop over header lines computes the header function on the unread bytes and leaves the right remainder |
| Framing.ByteReader.ReadPayload | internal/backend/dap/client.go:718-740 | The reader takes exactly one frame's payload off the unread bytes, or reports the error the frame function gives |
| Dap.FoldSplit | internal/backend/dap/client.go:508-606 | The state depends only on the messages consumed: reading some in one loop and the rest in another is the same as reading all in one |
| Dap.FoldDebug | internal/backend/dap/client.go:563-572 | The debug text gained over any stretch of reads is exactly the output text of the events in it, so cutting at the old length recovers what one request printed |
| Dap.FoldOutputs | internal/backend/dap/client.go:608-688 | Over any reads from nothing, the debug text is all output text and the target output the last 256 non-blank stdout and stderr entries |
| Dap.LastDecisionWins | internal/backend/dap/client.go:608-651 | After a stop or termination with no later deciding event, the state is that event's, whatever was known before |
| Dap.RestComesFromAStop | internal/backend/dap/client.go:583-606 | A debuggee that was running and is now at rest got there by a stop or termination that was read in between, and its state is that event's |
| Dap.EventsInFields | internal/backend/dap/client.go:608-651 | What each event leaves of reason, thread, goroutine, running and exited, and that no other event or message changes them |
| Dap.OutputInFields | internal/backend/dap/client.go:608-688 | An output event adds its text to the debug text, and the program's own output to the target output under its category |
| Protocol.CompletedByAFreshStop | internal/backend/dap/client.go:178-205 | No stale stop: the state a completed action returns was announced by an event read after Running was set for this action |
| Protocol.CompletionInFields | internal/backend/dap/client.go:608-651 | In fields: the state a completed action returns has the reason and thread of a stop, or is the exit of a termination, read during the action, with nothing read after it that says whether the program runs |
| Protocol.EarlyStopIsKept | internal/backend/dap/client.go:519-606 | No lost stop: a stop read before the response completes the action at the response itself, with no further read, and is the state returned |
| Protocol.WaitMeaning | internal/backend/dap/client.go:583-606 | The wait loop reads to the first point where the debuggee is at rest, or to the failed read or bad event that ends it |
| Protocol.WaitCompletes | internal/backend/dap/client.go:198-205 | When the wait after a successful answer ends at rest, the action is complete there |
| Protocol.CompletionIsFound | internal/backend/dap/client.go:198-205 | Conversely, when the action completes anywhere, the wait ends exactly there |
| Protocol.RefusedNeverCompletes | internal/backend/dap/client.go:198-200 | An action whose request is refused or fails does not complete anywhere |
| Protocol.ReplayIsFold | internal/backend/dap/client.go:508-651 | Between two local resets, in every run, the state is the left fold of the event handler over the messages consumed since |
| Protocol.ReplayOutputs | internal/backend/dap/client.go:608-688 | Over a whole connection, with its actions and however its reads are split, debug text and target output are those of all messages read |
| Protocol.AnswersNeverCross | internal/backend/dap/client.go:508-538 | In every run each recorded exchange got the first message carrying its own number since its request was sent, numbers grow, and an exchange is over before the next one is sent: late answers are skipped |
| Protocol.ExchangesWereSent | internal/backend/dap/client.go:508-538 | Every recorded exchange is that of a request written on this connection with its number |
| Protocol.RefusalShowsItsOutput | internal/backend/dap/client.go:540-581 | The error text of a refused request ends in the trimmed output of exactly the events read while it was waiting, and has no such part when that is blank |
| Protocol.RefusalInParts | internal/backend/dap/client.go:540-581 | The text of a refusal is the command, then the message, the format when it says something else, and the output, each trimmed, left out when blank, and on a line of its own |
| Protocol.AnswerInFields | internal/backend/dap/client.go:508-538 | A request returns the first message that carries its number, when it says success; it is refused when that message does not; and it fails when a read fails or an event does not decode before there is one |
| Protocol.NumbersIncrease | internal/backend/dap/client.go:690-693 | The numbers written on a connection are positive and strictly increase |
| Protocol.RecordAnswer | internal/backend/dap/client.go:519-538 | Stopping at the first message with the request's number keeps every answer of the run matched to its request |
| Protocol.RecordedInFields | internal/backend/dap/client.go:519-538 | An exchange is recorded exactly when there is such a message, at its place |
| Client.SetKeepsMirror | internal/backend/dap/breakpoints.go:241-279 | However a set request ends, every group whose last request succeeded still tracks exactly the specs of the last list sent for it |
| Client.Client.WriteRequest | internal/backend/dap/client.go:695-716 | The whole request is appended when the connection takes it, and nothing when it does not |
| Client.Client.HandleEvent | internal/backend/dap/client.go:608-651 | A stop leaves the announced reason with its thread as thread and goroutine, neither running nor exited; a continued event keeps the thread and marks it running; a termination leaves the exited state; output adds its text; a stopped or output event that cannot be decoded, and no other, fails and changes nothing |
| Client.Client.AppendTargetOutput | internal/backend/dap/client.go:679-688 | Blank text is dropped; otherwise the entry is appended and only the newest 256 stay |
| Client.Client.AwaitAnswer | internal/backend/dap/client.go:519-538 | The loop consumes messages up to the first one with the request's number or the first failure, folds every event on the way into the state, and returns that message |
| Client.Client.RequestError | internal/backend/dap/client.go:540-581 | A refused request reports its command and message, the error of the body, and the output read since it was sent |
| Client.Client.ReceiveAnswer | internal/backend/dap/client.go:519-538 | Reads up to the answer, or the failure, of the last request, and records the exchange exactly when it was answered |
| Client.Client.RequestLocked | internal/backend/dap/client.go:508-538 | Uses a new number, writes one request when the connection takes it and fails without reading when not, returns what the deliveries after it answer to that number, records the exchange exactly when answered, and keeps the whole history coherent |
| Client.Client.WaitForStop | internal/backend/dap/client.go:583-606 | Succeeds exactly when the debuggee is at rest, having read exactly the messages needed |
| Client.Client.PlainRequest | internal/backend/dap/client.go:502-538 | A request that sets no breakpoints also keeps the registry's mirror |
| Client.Client.State | internal/backend/dap/client.go:227-240 | The last known stop state, or the error for an unconnected client or an unknown state |
| Client.Client.MarkThreadRunning | internal/backend/dap/client.go:179-193 | Chooses the thread of the old state, 1 when there is none, and leaves it running with no reason before anything is sent |
| Links.ActsIsCompletion | internal/backend/dap/client.go:178-205 | The condition for an action to succeed is completion: it holds exactly when the action completes after the messages of its request and its wait, and then at no other count |
| Client.Client.RunThreadAction | internal/backend/dap/client.go:178-205 | Succeeds exactly when its request is written and answered with success and the wait ends at rest; the state returned is then, field by field, what one stop or termination among the messages read says, after which none of them says otherwise; after an error no number of the delivered messages completes it; either way exactly the messages of its request and its wait are read |
| Client.Client.Stack | internal/backend/dap/client.go:242-288 | Asks once for the stack of the given thread, or of the stopped one, and returns the frames of the reply in order with that thread; no connection, no thread, a refusal and a reply that does not decode are errors |
| Client.StackInFields | internal/backend/dap/client.go:242-288 | Frame i of the stack has the thread asked for and the id, path and line of entry i of the answer; a body that does not decode is an error |
| StaleStops.OwnStopExactlyWhen | internal/backend/dap/client.go:178-205 | Of every completed action: the event that decides the returned state was sent after the server got the request exactly when what was left unread before does not leave the debuggee at rest, or the server decided otherwise before its answer |
| StaleStops.StaleStopIsReturned | internal/backend/dap/client.go:583-606 | Otherwise the action returns the stop left over, with its answer, and reads nothing more |
| StaleStops.SecondActionReturnsTheFirstStop | internal/backend/dap/client.go:178-205 | A run of two actions: the first fails because its wait times out, the second returns the first one's stop, and its own is left unread |
| Client.Client.Close | internal/backend/dap/client.go:125-176 | The last thing written on a connection that takes it is the disconnect request, with the next number and the termination flag of the session; nothing else is written, and nothing else of the session is left |
| Client.Client.OpenSession | internal/backend/dap/client.go:100-123 | A session opens exactly when the client was closed, the connection was made, each of its three requests is written and answered with success, and the debuggee comes to rest; it has then sent initialize, the launch or attach request and configurationDone, numbered from 1, read exactly their messages and those of the wait, and tracks no breakpoint; one that fails to open has written exactly its requests up to the first not taken or not granted, and the goodbye when the connection takes it, and leaves nothing; an open one is refused untouched |
| Client.Client.Negotiate | internal/backend/dap/client.go:108-123 | Writes initialize, the launch or attach request and configurationDone, in this order, up to the first that is not taken or not answered with success, and succeeds exactly when all three are and the debuggee then comes to rest |
| Client.Client.ReplaceGroup | internal/backend/dap/breakpoints.go:241-279 | Sends the complete list of one group, records its exchange exactly when it is answered, adopts the reply exactly on success, and leaves the registry unchanged on any failure |
| Client.Client.CreateBreakpoint | internal/backend/dap/breakpoints.go:138-191 | A bad spec is refused and a tracked one answered with nothing changed at all; any other is sent at the end of its group's list, once; it fails exactly as that request, its answer or its reply does, success returns the breakpoint of the reply's last entry, and only the group addressed becomes trusted or doubtful |
| Registry.RelativeCreate | internal/backend/dap/breakpoints.go:138-176 | A create of `path:line` with a clean relative path is for the file `directory/path`: it is answered from that file's list or sends it with `directory/path:line` and its condition behind the others; without a working directory it is refused |
| Registry.CreateByName | internal/backend/dap/breakpoints.go:138-176 | A create of anything that is not a line of a file is for the function of that trimmed name |
| Registry.CreateGoesTo | internal/backend/dap/breakpoints.go:145-176 | Any normalised spec is answered by a tracked item of its file's list, or the functions', when there is one with this spec, and is otherwise sent behind exactly the specs tracked there |
| Client.SetRequestInFields | internal/backend/dap/breakpoints.go:59-85 | The request for a file or for the functions has its command and one entry for each spec in order: the number behind the file's path, or the name, and the condition |
| Client.SetInFields | internal/backend/dap/breakpoints.go:87-109 | A set request succeeds exactly when the message that answers it says success and holds as many breakpoints as were sent, all verified; the breakpoint then returned has id, file and line of the last of them, the condition sent, and the function name when the location has no colon |
| Client.Client.ClearBreakpoint | internal/backend/dap/breakpoints.go:203-230 | Finds the id in files in map order, then in functions; an unknown id is refused with nothing changed at all; otherwise that group's list without it is sent, the registry changes exactly on success, the failure is that of the request, its answer or its reply, and only the group addressed becomes trusted or doubtful |
| Registry.ClearTakesOut | internal/backend/dap/breakpoints.go:203-239 | The list sent is that of the group without its first item of that id; when it has none the clear fails |
| Client.Client.FindFileWithId | internal/backend/dap/breakpoints.go:211-221 | Any file that holds the id may be found, and none is found only when no file does |
| Client.Client.ListBreakpoints | internal/backend/dap/breakpoints.go:193-201 | A connected client lists all tracked breakpoints in sorted order |
| Locations.ParseOfFormat | internal/backend/dap/types.go:122-132 | A trimmed non-empty path, colons included, and a positive line printed as `path:line` parse back to the same path and line |
| Locations.FormatIsInjective | internal/backend/dap/breakpoints.go:20-39 | Different places print differently |
| Locations.ParseMeans | internal/backend/dap/types.go:122-132 | A location is a line of a file exactly when what follows its last colon reads as a positive number and something stands before it |
| Locations.NormalizeInWords | internal/backend/dap/breakpoints.go:20-39 | A path that begins with a slash stays; any other is made absolute in the working directory, and refused without one; the line is printed anew and the condition kept |
| Locations.AbsoluteOfClean | internal/backend/dap/breakpoints.go:30-36 | In a clean directory a clean relative path becomes `directory/path`, and `/path` in the root |
| Locations.DotsVanish | internal/backend/dap/breakpoints.go:30-36 | A `.` or an empty segment changes nothing; `..` takes back the segment before it, and nothing in the root |
| Locations.AbsoluteIsClean | internal/backend/dap/breakpoints.go:30-36 | In any directory and for any path the absolute path is the root, or has no empty, `.` or `..` segment |
| Locations.NormalizeIsCanonical | internal/backend/dap/breakpoints.go:20-39 | Every normalised spec is in canonical form: it parses back to the normalised absolute path and positive line, or is a trimmed name that is no `file:line` |
| Locations.CanonicalIsFixed | internal/backend/dap/breakpoints.go:20-39 | The canonical specs are exactly those that normalisation returns unchanged, in any working directory |
| Locations.NormalizeIsIdempotent | internal/backend/dap/breakpoints.go:20-39 | Normalising twice is normalising once, even from another directory |
| Registry.StepIsValid | internal/backend/dap/breakpoints.go:138-279 | No create or clear, however its request ends, breaks the invariant: file groups are non-empty, no group repeats a spec, every file spec parses back to its own key and a positive line, no function spec is a `file:line` |
| Registry.BuildSkipsNothing | internal/backend/dap/breakpoints.go:59-85 | For specs of a valid group the list sent has one entry for each, in order, so entry i of the reply belongs to spec i |
| Registry.PlanCreateOk | internal/backend/dap/breakpoints.go:145-176 | The list a create sends repeats nothing and fits its group |
| Registry.PlanClearOk | internal/backend/dap/breakpoints.go:203-230 | The list a clear sends repeats nothing and fits its group |
| Registry.CollectEntries | internal/backend/dap/breakpoints.go:59-85 | The building loop appends exactly the entries of the specs that have one |
| Registry.CollectTracked | internal/backend/dap/breakpoints.go:103-109 | The pairing loop tracks reply i under spec i |
| Registry.SearchSpec | internal/backend/dap/breakpoints.go:49-57 | The first item with exactly this location and condition, or none |
| Registry.SearchId | internal/backend/dap/breakpoints.go:232-239 | The first position with this id, or none |
| Registry.DecodeBreakpoints | internal/backend/dap/breakpoints.go:87-101 | A reply is accepted exactly when it decodes, has one entry for each spec and every entry is verified; otherwise the error names the first fault |
| Registry.ReplyIsTracked | internal/backend/dap/types.go:134-148 | After an accepted reply item i is spec i with the id, path and line of entry i, the condition sent, and the function name when the location has no colon |
| Registry.OnlyListsAreAccepted | internal/backend/dap/breakpoints.go:87-101 | Nothing else is accepted, but a body of another kind when no breakpoint was sent |
| Registry.FaultOfAList | internal/backend/dap/breakpoints.go:87-101 | A list of another length is refused with both numbers, and otherwise one with an unverified breakpoint with the message of the first such |
| Mirror.SuccessRestoresAgreement | internal/backend/dap/breakpoints.go:241-279 | A success on a group makes client and server agree on it in order, whatever the server held before (DAP, "SetBreakpoints Request") |
| Mirror.FailuresLeaveNoTrace | internal/backend/dap/breakpoints.go:241-279 | A run in which some requests fail, with the server acting on them or not, leaves the registry of the run without them |
| Mirror.OthersUntouched | internal/backend/dap/breakpoints.go:241-279 | Groups other than the one addressed change on neither side |
| Mirror.StepKeepsMirror | internal/backend/dap/breakpoints.go:138-279 | Every operation keeps the agreement of all groups whose last request succeeded |
| Mirror.EveryRunFromStart | internal/backend/dap/breakpoints.go:138-279 | In every run of creates and clears with any failures, each group whose last request succeeded is held by the server exactly as the client tracks it |
| Mirror.CreateSendsIffNew | internal/backend/dap/breakpoints.go:138-191 | A create is answered from the registry exactly when its normalised spec is tracked, with the tracked breakpoint; otherwise the group's list plus this spec is sent |
| Mirror.CreateReturnsItsReply | internal/backend/dap/breakpoints.go:166-191 | After a successful create the breakpoint found for the spec is the one of the reply's last entry |
| Mirror.CreateExtends | internal/backend/dap/breakpoints.go:138-191 | A successful create adds its spec at the end of its group and changes no other group |
| Mirror.CreateThenClearRestores | internal/backend/dap/breakpoints.go:138-263 | When ids are unique after a create, clearing the id it returned sends the list from before, whichever file the map yields first, and on success every group's specs and the set of file keys are restored |
| Mirror.CreateThenClearExactlyWhen | internal/backend/dap/breakpoints.go:138-263 | Clearing the id a create returned is sure to restore them exactly when that id leads to the created item: no other file holds it, and no earlier item of the group |
| ReusedIds.ReusedIdClearsAnother | internal/backend/dap/breakpoints.go:203-239 | Two creates from the start whose replies reuse an id, and a clear of the id just returned that removes the other breakpoint |
| Mirror.ClearMissesOtherwise | internal/backend/dap/breakpoints.go:203-230 | When the id does not lead to the created item, some order of the file map makes the clear remove something else, and no success restores the specs |
| Mirror.UniqueIdsSuffice | internal/backend/dap/breakpoints.go:203-239 | Ids unique over all tracked breakpoints make the id lead to the created item |
| Listing.OrderDoesNotMatter | internal/backend/dap/breakpoints.go:111-122 | How often a breakpoint is collected does not depend on the map's enumeration order |
| Listing.SortedIsUnique | internal/backend/dap/breakpoints.go:122-134 | Two sorted permutations of the same breakpoints are equal when equal keys mean equal breakpoints |
| Listing.ListingIsDeterminedExactlyWhen | internal/backend/dap/breakpoints.go:111-136 | All listings of a registry, by any enumeration and any correct sort, are the same sequence exactly when tracked breakpoints with equal keys are equal |
| Listing.ListingIsDeterministic | internal/backend/dap/breakpoints.go:111-136 | Any two listings of a registry are the same sequence when keys tell its tracked breakpoints apart |
| Listing.EqualKeysLeaveAChoice | internal/backend/dap/breakpoints.go:111-136 | When they do not, the registry has two different listings |
| ReusedIds.ReusedIdLeavesTwoListings | internal/backend/dap/breakpoints.go:111-136 | Two creates from the start at one place with different conditions, under one id, after which two listings are possible |
| Listing.FlattenTrackedBreakpoints | internal/backend/dap/breakpoints.go:111-136 | The result is a sorted permutation of all tracked breakpoints, for some enumeration of the map |
| Listing.SortBreakpoints | internal/backend/dap/breakpoints.go:122-134 | A permutation sorted by file, line, function and id |
| Listing.ListingOrder | internal/backend/dap/breakpoints.go:122-134 | Any listing goes by file, then line, then function, then id, texts by their first different byte |
| Session.Controller.RefreshSnapshot | internal/session/controller.go:213-250 | The snapshot is exactly the stop state held on entry, whatever is read while the stack is asked for, with the innermost frame of the stack reply and the source window around it; one stackTrace request of depth 1 for the stopped thread is written; a running or exited program has no frame and is not asked for its stack; a stack that cannot be read is no failure |
| Session.SnapshotInFields | internal/session/controller.go:213-250 | The snapshot of a stopped thread has the id, path and line of the first entry of the stack that answers its request, as a frame of that thread, and the window around it; no frame when the stack is empty |
| Session.SnapshotWithoutStack | internal/session/controller.go:226-231 | It has no frame, and the warning, when the request cannot be written or is not answered with success |
| Session.Controller.RefreshSnapshotOrClose | internal/session/controller.go:205-211 | The same snapshot; when none can be made the client is closed, and the last snapshot stands |
| Session.Controller.Do | internal/session/controller.go:142-178 | Writes exactly one request, `continue`, `next` or `stepIn` as the action is, for the thread that stopped, or 1, and after a success the stack request of a stopped thread; succeeds exactly when the client is connected and the action completes; the snapshot, returned and kept, is then the one at the action's stop, whose state is what the last stop or termination read says; after an error the last snapshot stands, and breakpoints and termination flag are never touched |
| Session.Controller.Launch | internal/session/controller.go:66-71 | Succeeds exactly when the session opens; the snapshot, returned and kept, is then the one at the entry stop, and exactly the three requests of the opening and the stack request have been written; a failed launch of a closed client leaves it as if never opened; a running session is refused untouched |
| Session.Controller.StartLaunchSession | internal/session/controller.go:104-123 | Succeeds exactly when the session opens, the breakpoint is created and the first continue completes; it has then written the three requests of the opening, the stack request at the entry, the breakpoint's list, `continue` for the stopped thread and the stack request at its stop, and nothing else; the breakpoint returned is the one of the last entry of the breakpoint request's reply and the snapshot, returned and kept, the one at the stop of the continue; a start that fails at any step leaves nothing open |
| OrdinaryRuns.AnOrdinaryLaunchOpens | internal/backend/dap/client.go:100-123 | With three answers that say success and an entry stop before the last, a session opens at rest on that stop, and reads nothing more |
| OrdinaryRuns.AnOrdinaryStartSucceeds | internal/session/controller.go:104-123 | With a stack, a verified breakpoint and a stop after that, a start succeeds for every spec that can be normalised |
| AsyncReader.DeliveredIsAPrefix | cmd/dlvpp/loop.go:931-972 | Under every interleaving and cancellation in either select, delivered results are a prefix of what was read, in order, and accepted requests exceed delivered results by at most 2 |
| AsyncReader.StuckExactlyWhen | cmd/dlvpp/loop.go:931-972 | A call is stuck exactly when it is handing over its request and the goroutine has ended, or holds a second undelivered result |
| AsyncReader.TwoCancelledWaitsCanBlock | cmd/dlvpp/loop.go:952-972 | Two waits cancelled after their requests were accepted lead to such a call |
| AsyncReader.ReachableIsInv | cmd/dlvpp/loop.go:931-978 | Every run keeps: read is delivered plus in flight, the channel holds at most one, and only the last read may have failed |
| Locals.BareNameAgreesWithScreen | cmd/dlvpp/screens.go:124-147 | A bare name resolves exactly when one rendered line carries it, to that line's variable; it is unknown when none does, ambiguous with one path for each line when several do |
| Locals.RootMatchesAreLines | cmd/dlvpp/screens.go:182-203 | The matching walk visits exactly the rendered lines that carry the name, top to bottom, on every tree and expanded map |
| Locals.RootsGrow | cmd/dlvpp/screens.go:214-233 | Collecting writes only wanted paths and drops none; with the walk's termination on every graph, cyclic or not, this makes the later walks end too |
| Locals.RootsFind | cmd/dlvpp/screens.go:106-122 | Collecting that succeeds expands the end of every chain of shown, expandable variables at wanted paths |
| Locals.RootsAreJustified | cmd/dlvpp/screens.go:214-233 | Conversely, every list stored belongs to the variable at the end of such a chain |
| Locals.RootMatchesAreReached | cmd/dlvpp/screens.go:191-203 | Every match is a variable some chain leads to, at the matched path |
| Expansion.RememberKeepsClosed | cmd/dlvpp/screens.go:235-246 | Remembering a path keeps the wanted set closed under dot-prefixes and covers the path |
| Expansion.RememberMeans | cmd/dlvpp/screens.go:235-246 | What was wanted stays wanted, and what is added is exactly the path and its beginnings up to a dot |
| Expansion.SegmentsAreEffective | cmd/dlvpp/screens.go:149-175 | A dotted name that resolves to an expandable variable stands for itself, and once remembered is a key of every map collected |
| Expansion.BareNameIsEffective | cmd/dlvpp/screens.go:55-78 | So is the path of a bare name that resolves on the screen, however that path came to be shown |
| Expansion.WalkDescends | cmd/dlvpp/screens.go:157-175 | The walk over segments goes down one chain, whose path is the joined segments |
| ShownChildren.OwnChildren | cmd/dlvpp/screens.go:106-122 | When no two chains have one path and different children, the list stored for the path of a chain is that of its last variable |
| ShownChildren.ChainIsOnScreen | cmd/dlvpp/loop.go:543-578 | Then the lines of a chain's last variable stand together on the screen, as deep as the chain is long |
| Walks.CollectExpandedLocals | cmd/dlvpp/screens.go:214-233 | The recursive walk that fills the table in place computes the collecting function and ends on cyclic graphs |
| Walks.ExpandedLocals | cmd/dlvpp/screens.go:106-122 | The table of all roots, including the shortcut when nothing is wanted |
| Walks.CollectVisibleLocalMatches | cmd/dlvpp/screens.go:191-203 | The walk appends exactly the matching function's matches |
| Walks.WriteExpandedLocalLines | cmd/dlvpp/loop.go:566-578 | The walk appends exactly the rendering function's lines |
| Walks.FormatExpandedLocals | cmd/dlvpp/loop.go:543-564 | The whole screen of locals: its lines, or the line that says there are none or none of the user's, and the count of hidden ones |
| Locals.FlatScreen | cmd/dlvpp/loop.go:543-564 | With nothing expanded there is one line for each shown local in order, or the placeholder for none or none of the user's, and the count of the hidden ones when there are any |
| Walks.FilterDisplayedLocals | cmd/dlvpp/loop.go:602-624 | The shown variables in order, and the number of the others |
| Locals.VisibleAreTheOthers | cmd/dlvpp/loop.go:602-624 | The variables shown are exactly those whose trimmed name neither begins with a tilde nor stands in parentheses |
| Locals.VisibleConcat | cmd/dlvpp/loop.go:602-613 | They are shown in their order and as often as they are there |
| Walks.FindLocalByName | cmd/dlvpp/screens.go:205-212 | The first variable with the name, or none |
| Walks.ResolveLocalPathBySegments | cmd/dlvpp/screens.go:149-175 | The loop over segments computes the segment walk |
| Expansion.WalkInSteps | cmd/dlvpp/screens.go:149-175 | What a walk finds is reached in steps: each segment is the name of the first such variable among the shown children of an expandable one |
| Expansion.StepsAreWalked | cmd/dlvpp/screens.go:149-175 | Conversely, segments that name such steps are found |
| Walks.ResolveLocalPath | cmd/dlvpp/screens.go:124-147 | A name with a dot is walked by segments, any other is looked up among the rendered lines |
| Runner.QuietSnoc | cmd/dlvpp/loop.go:399-404 | A log stays quiet after the exit exactly by asking for nothing but output |
| Runner.OverIsLatest | cmd/dlvpp/loop.go:469-489 | In a quiet log the program is over exactly when the last snapshot answered shows it exited |
| Screens.ViewState.SetInspection | cmd/dlvpp/view.go:168-177 | Any title but the locals' forgets the expanded paths |
| Screens.ViewState.ClearInspection | cmd/dlvpp/view.go:179-186 | Closes the inspection and forgets the expanded paths |
| Screens.ViewState.RememberExpandedLocalPath | cmd/dlvpp/screens.go:235-246 | The loop adds exactly the path and its beginnings up to a dot, keeps all earlier paths, and keeps the set closed |
| Screens.RenderLocals | cmd/dlvpp/screens.go:95-104 | Succeeds exactly when the children of every wanted path can be collected; the inspection is then the screen of the locals with them, and otherwise the view is as before and the fault is that of the last call |
| Screens.ShowLocals | cmd/dlvpp/screens.go:14-20 | Asks for the current frame's locals when there is a frame; succeeds exactly when they come and can be rendered, and otherwise the view is as before |
| Screens.LocalsInFields | cmd/dlvpp/screens.go:14-20 | The locals are asked for the frame of the snapshot and shown with the wanted paths expanded, which stay; when they cannot be shown nothing changes |
| Screens.Effective | cmd/dlvpp/screens.go:55-78 | However a name is resolved, a chain of shown variables ends at its path, and once remembered the path is a key of the map rendered next |
| Screens.ExpandLocal | cmd/dlvpp/screens.go:55-78 | Succeeds exactly when the locals come, the trimmed name stands for an expandable variable and the screen with its path remembered can be rendered; a failure before the name is found changes nothing, a failure after it remembers the path |
| Screens.ExpansionInFields | cmd/dlvpp/screens.go:55-104 | When the name stands for nothing expandable the view stays; when it does, its path and the beginnings of it up to a dot are wanted too, whether or not the screen can then be rendered, and if it can that screen is the inspection |
| Screens.BareNameIsFound | cmd/dlvpp/screens.go:124-147 | A bare name that exactly one line of the screen carries, with an expandable variable, is found there |
| Screens.DottedNameIsFound | cmd/dlvpp/screens.go:149-175 | A dotted name whose segments name a shown root and steps down to an expandable variable is found, under itself as its path |
| Screens.ExpansionIsEffective | cmd/dlvpp/screens.go:55-78 | An expansion that succeeds remembers the path the name stood for on the old screen, and that path is a key of the map rendered |
| Screens.ExpansionForgetsNothing | cmd/dlvpp/screens.go:55-78 | However an expansion ends, every path wanted before is wanted after it |
| Screens.ExpandedStays | cmd/dlvpp/screens.go:55-104 | Every chain that was expanded and is still there ends in a key of the map rendered after another expansion |
| Screens.TwoExpansions | cmd/dlvpp/screens.go:55-104 | After two expansions in a row at one stop both paths are keys of the map rendered |
| Screens.ExpansionShowsItsChildren | cmd/dlvpp/screens.go:55-104 | When chains do not share paths, the list stored there is that of the variable the name stood for, and its line and those of its children stand together on the new screen, one level apart |
| Screens.ShowEval | cmd/dlvpp/screens.go:22-53 | Succeeds exactly when there is a frame, the value comes, and so do its children when it has some; nothing else is asked. A sticky view without an inspection shows the value inline and forgets the expanded paths; otherwise the value, under the expression's name, and its children become the inspection and the paths stay; a failure changes nothing |
| Screens.ValueInFields | cmd/dlvpp/screens.go:22-53 | The value shown has the expression as its name, and the children the debuggee has for it |
| Screens.ShowOutput | cmd/dlvpp/screens.go:255-271 | Asks for output once when there is a session; succeeds exactly when it comes, and then shows exactly the entries answered and forgets the expanded paths |
| Screens.OutputInFields | cmd/dlvpp/screens.go:255-271 | Output that comes replaces the inspection and forgets the expanded paths, and nothing changes otherwise |
| Screens.RunDebuggerAction | cmd/dlvpp/loop.go:469-489 | One action call, and one output call only after an exit in a plain view, whose failure does not matter; an answered action replaces the snapshot and closes the inspection, a failed one changes nothing |
| Screens.ActionInFields | cmd/dlvpp/loop.go:469-489 | An answered action leaves the view with its snapshot, no inspection and no expanded path, and a failed one the view as it was |
| Screens.BreakAt | cmd/dlvpp/loop.go:411-442 | A location that can be resolved is created, once, and then all are listed; it succeeds exactly when both come back, a session that cannot list not counting, and then closes the inspection of a sticky view with a session; a location that cannot be resolved makes no call |
| Screens.BreakInFields | cmd/dlvpp/loop.go:411-442 | It succeeds exactly when the location was created and the list came or is unsupported, and then only a sticky view with a snapshot changes |
| Resolver.LineOfTheCurrentFile | cmd/dlvpp/breakpoint_resolver.go:18-30 | A line number means that line of the current file: the location parses back to both |
| Resolver.SymbolOfTheCurrentPackage | cmd/dlvpp/breakpoint_resolver.go:32-44 | An identifier is the symbol of that name in the current file's package; itself without a file or a package name; and an error when the file cannot be parsed |
| Resolver.OtherTextsStand | cmd/dlvpp/breakpoint_resolver.go:32-44 | A text with a colon or a dot stands for itself |
| Resolver.ResolvingAgainChangesNothing | cmd/dlvpp/breakpoint_resolver.go:18-44 | What a text is resolved to is resolved to itself at the same place |
| Commands.AfterExitOnlyOutput | cmd/dlvpp/loop.go:399-404 | After the exit every text that means something other than showing output leaves, and the texts that show output or mean nothing are the same as before |
| Commands.ShortcutsAgree | cmd/dlvpp/loop.go:406-466 | A shortcut key means what its letter means after a colon, except `b` in a live session |
| Commands.SpacingAfterColon | cmd/dlvpp/loop.go:376-398 | White space around what follows the colon does not change what is ordered |
| Commands.Vocabulary | cmd/dlvpp/loop.go:406-467 | What each letter alone means, with and without the colon |
| Commands.WithArgument | cmd/dlvpp/loop.go:406-467 | With a text behind them `:b` sets a breakpoint there, `:e` expands it and `:l` evaluates it; without the colon the text is ignored or a mistake |
| Commands.OtherWords | cmd/dlvpp/loop.go:406-467 | Any other first word is a mistake |
| Commands.WordEnds | cmd/dlvpp/loop.go:376-398 | The word that decides is the text up to its first white space |
| Editor.PressKeepsTidy | cmd/dlvpp/loop.go:102-274 | Every key keeps this: outside command mode the line is empty, the index is -1 or in bounds, a recalled entry is the buffer, and without an index no draft is saved |
| Editor.HistoryIsTheLastHundred | cmd/dlvpp/loop.go:305-315 | In every run the history is the last 100 non-blank commands submitted, trimmed, oldest first |
| Editor.UpsLand | cmd/dlvpp/loop.go:317-328 | k Ups from a draft recall the k-th newest entry, or the oldest, and save the draft |
| Editor.UpsThenDowns | cmd/dlvpp/loop.go:317-339 | From any draft, k Ups and then min(k, n) Downs over n entries restore the draft with index -1 and no saved draft |
| Editor.TypedTextIsSubmitted | cmd/dlvpp/loop.go:189-213 | A colon, any printable text and Enter submit exactly that text, trimmed, leave command mode and add it to the history |
| Editor.BackspaceUndoes | cmd/dlvpp/loop.go:251-272 | A backspace takes back a typed byte and turns a recalled entry into plain text |
| Editor.KeysOutside | cmd/dlvpp/loop.go:102-274 | Outside command mode, byte by byte: Ctrl-C interrupts, Ctrl-D and `q` stop, a shortcut submits itself, a colon begins a command, and any other byte does nothing |
| Editor.KeysInside | cmd/dlvpp/loop.go:189-272 | In command mode: Ctrl-C interrupts, Ctrl-D stops over an empty line, Enter submits the trimmed line, backspace and delete take back its last byte, printable bytes are added, and any other does nothing |
| Editor.EscapeAndExit | cmd/dlvpp/loop.go:102-187 | An escape leaves command mode, or else the inspection; after the exit every key stops but an `o` over no inspection |
| Editor.HistoryInFields | cmd/dlvpp/loop.go:305-315 | A non-blank text is added, trimmed, at the end, and the oldest of a hundred entries goes |
| Terminal.CarryOut | cmd/dlvpp/loop.go:406-489 | Each order makes exactly the calls it stands for, leaves exactly the view their replies lead to, and succeeds or fails as they say |
| Terminal.OrdersInWords | cmd/dlvpp/loop.go:406-467 | Which calls each order may make, with its own action, location or expression, and what help and the list of breakpoints show |
| Terminal.ExecuteCommandText | cmd/dlvpp/loop.go:376-467 | A text is carried out as understood; when the context is canceled before it nothing is called or changed |
| Terminal.ProcessCommand | cmd/dlvpp/loop.go:361-374 | A leaving order ends the loop, a canceled context or a call that fails as canceled interrupts it, and any other failure lets it go on |
| Terminal.EndingsInWords | cmd/dlvpp/loop.go:361-374 | A leaving order quits and ends the loop; an order that fails, fails with the fault of its last call, and only a canceled one interrupts |
| Terminal.CancellationInWords | cmd/dlvpp/loop.go:361-374 | From the turn of the cancellation on, that one included, a submitted text calls and changes nothing and interrupts the loop |
| Terminal.ReadTTYEscapeKey | cmd/dlvpp/loop.go:280-303 | A timeout or a byte other than `[` after an escape is the escape key itself; a byte 0 after `[` is too |
| Terminal.KeysInBytes | cmd/dlvpp/loop.go:280-303 | ESC `[` `A` is the up arrow and ESC `[` `B` the down arrow, and how many bytes each key takes |
| Terminal.HandleKey | cmd/dlvpp/loop.go:108-272 | The switch over one key, on the loop's own variables, computes the key function |
| Terminal.ExitedIsNeverTyping | cmd/dlvpp/loop.go:102-118 | In every run an exited session is not in command mode |
| Terminal.FromTheFirstExit | cmd/dlvpp/loop.go:102-118 | Over the log of a run: once the calls made before some head have reported the exit, every later call asks for output, and every key but the last is an `o` with no inspection shown, so the loop ends on the first other byte |
| Terminal.EveryHeadIsSafe | cmd/dlvpp/loop.go:102-274 | At every loop head outside command mode the buffer is empty, the index -1 and no draft saved |
| Terminal.OneMoreKey | cmd/dlvpp/loop.go:102-274 | A key read at the current position of the input extends the run |
| Terminal.Inspect | cmd/dlvpp/loop.go:406-467 | The orders that look at the program make their calls, leave the view these lead to, and run no action |
| Terminal.Turn | cmd/dlvpp/loop.go:102-274 | One turn of the loop reads one key, records it with the view at its head, does exactly what the key does in that view, and ends the loop exactly by a stopping key, a leaving command, an interrupt, a cancellation or failed input |
| Terminal.RunTTYCommandLoop | cmd/dlvpp/loop.go:88-274 | For every sequence of events and every turn of cancellation: the keys form a run, decoded from the input in order; from the view at the start on, the calls between two heads and the view at the next are exactly those of the key between them; each head's exit flag is that of the last snapshot reported and its inspection flag that of its view; every action ordered before a cancellation is performed once, in order, and no other; nothing but output is asked for after the exit; the loop ends exactly by a stopping key, a leaving command, an interrupt, a cancellation or failed input |
| Highlight.StripByLine | cmd/dlvpp/view.go:268-273 | Stripping works line by line on every text, with complete escape sequences or not |
| Highlight.StripKeepsLines | cmd/dlvpp/view.go:268-273 | Splitting into lines and stripping commute: line k of the stripped text is line k, stripped |
| Highlight.OnlySequencesGo | cmd/dlvpp/view.go:23-23 | Where stripping does not keep a byte it takes a whole escape sequence: ESC, a bracket, parameter bytes, intermediate bytes and a final byte |
| Highlight.SequencesGo | cmd/dlvpp/view.go:23-23 | Every such sequence is taken, whatever follows it |
| Highlight.StrippingLeavesThePlainText | internal/sourceview/render.go:238-291 | For ESC-free source and any token stream, stripping takes away every colour and nothing else |
| Highlight.HighlightIsUndoneExactlyWhen | internal/sourceview/render.go:238-276 | For ESC-free source and any token stream, stripping gives the source exactly when the tokens are in order, do not overlap, are the source at their offsets, and the last one reaches the end-of-file token |
| Highlight.TrailingTextIsRepeated | internal/sourceview/render.go:247-275 | For a faithful stream, what follows the last token is written once more |
| Highlight.BlankLineAtTheEndIsDoubled | internal/sourceview/render.go:247-275 | A concrete source whose last blank line is shown twice |
| Highlight.SemicolonAtTheEndAddsALine | internal/sourceview/render.go:256-268 | The semicolon inserted at the end of a file without a final line end adds one |
| Highlight.HighlightGoSource | internal/sourceview/render.go:238-276 | The loop over tokens with its growing buffer writes the highlighting function's text |
| Highlight.ColoursInBytes | internal/sourceview/render.go:278-291 | The colour of each kind of token, before it, and the reset after it |
| LineNumbers.TokenStands | internal/sourceview/render.go:247-270 | The plain text of any stream is what leads to token i, the text of token i, and the rest: so the line ends before it say on which line it is shown |
| LineNumbers.TokenIsShownAt | internal/sourceview/render.go:247-270 | For every stream whose tokens end in the file, in order or not: token i is shown as many lines below its own as the tokens before it drift, plus the line ends written twice just before it |
| LineNumbers.TokenKeepsItsLineExactlyWhen | internal/sourceview/render.go:247-270 | For every stream of tokens that are the source at their offsets: a token is shown on its own source line exactly when no line end was written twice before it |
| LineNumbers.TextIsWritten | internal/sourceview/render.go:238-276 | For the streams of Go's scanner, in order or with any number of semicolons inside comments: the exact text written |
| LineNumbers.SemicolonInsideACommentRepeatsIt | internal/sourceview/render.go:247-275 | With one semicolon inside a comment: the source up to the comment's end, then everything from the semicolon's line end on once more, then what follows the last token |
| LineNumbers.LineShows | internal/sourceview/render.go:121-134 | What every rendered line with a source line's number shows when stripped: a whole source line, one cut at a comment's end, or the last one with what is written after it |
| LineNumbers.ShownIsOrigin | internal/sourceview/render.go:121-134 | For any number of semicolons inside comments: every rendered line that does not come from the last source line is a source line, or the beginning of one up to a comment's end, never a lower one |
| LineNumbers.LineKeepsItsNumberExactlyWhen | internal/sourceview/render.go:121-134 | For ESC-free source and any such stream, source line k is shown as line k exactly when: without going back, it is not the last line, or a semicolon was inserted at the end, or the last token ends at a line end or the end of the file; otherwise, it lies above the end of the first comment gone back over, or ends just there, or reads as the higher source line, or the beginning of one, that is shown in its place |
| LineNumbers.LaterLinesAreShifted | internal/sourceview/render.go:121-134 | Every line after the last comment gone back over, but the last of all, is shown lower by exactly the line ends gone back over |
| LineNumbers.BelowKeepsOnlyByRepetition | internal/sourceview/render.go:121-134 | Below the only such comment a line keeps its number exactly when it reads as the line that many line ends above |
| LineNumbers.ThirdLineIsMisplaced | internal/sourceview/render.go:121-134 | A concrete source that ends well, with a comment over two lines, whose third line is not shown as the third |
| SourceView.FormatRange | internal/sourceview/render.go:136-163 | Succeeds exactly when the current line, start and end exist and start is not after end, with one row for each line from start to end |
| SourceView.RenderWindow | internal/sourceview/render.go:30-39 | Succeeds exactly when the line exists and the context is not negative; the window goes from that many lines above to that many below, within the file |
| SourceView.WindowReadsBack | internal/sourceview/render.go:136-170 | A window stripped and read line by line has one row for each line: the mark of the current line or a space, a field of at least four places that holds the number of the line, the bullet of a breakpoint or a space, and the stripped text of the line; exactly one row is marked as current, the right one |
| SourceView.PaddedIsTheNumber | internal/sourceview/render.go:152-159 | The number of a row, trimmed, reads as that number; it has only spaces before it, at least four places, and exactly four below 10000 |
| SourceView.RowInBytes | internal/sourceview/render.go:152-170 | The bytes of a row, with its colours |
| SourceView.WindowShowsTheSource | internal/sourceview/render.go:30-163 | In a window over highlighted Go source the row of a number shows what the stream makes of the source, and the source line of that number exactly when that line keeps its number |
| SourceIndex.CacheAgreesWithParsing | cmd/dlvpp/source_index.go:103-199 | After any history of calls over changing files, and in every interleaving of the workers, a finished call returns at index i exactly the parsed file at the cleaned path, and an error exactly when some file fails |
| SourceIndex.StepKeepsGood | cmd/dlvpp/source_index.go:103-127 | Every step of every worker keeps the cache sound and each worker on its own file |
| SourceIndex.HistoryIsSound | cmd/dlvpp/source_index.go:103-127 | Whatever calls ran before, each cache entry is what its path and stamp determine |
| SourceIndex.AloneAsFileInfo | cmd/dlvpp/source_index.go:103-127 | A worker nothing interrupts leaves the cache and result of one uninterrupted call |
| SourceIndex.Index.FileInfo | cmd/dlvpp/source_index.go:103-127 | Returns the content for the cleaned path and its stamp, whether or not it was cached, or an error when there is no such file or content; stores exactly that entry on success and nothing otherwise |
| GoStrings.BlankIffTrimsToNothing | internal/backend/dap/client.go:679-683 | Comparing the trimmed text with the empty string tells exactly the blank texts |
| GoStrings.NoneAfterLast | internal/backend/dap/types.go:122-132 | The colon a location is split at is its last one |
| GoStrings.SplitOfJoin | cmd/dlvpp/screens.go:235-253 | Segments without dots survive joining and splitting |
| GoStrings.JoinOfSplit | cmd/dlvpp/screens.go:149-151 | A dotted name is its own segments joined |
| GoStrings.SignedDigits | internal/backend/dap/types.go:127-130 | What digits read as, with either sign, and from which number on they do not on a 64-bit machine |
| GoStrings.TrimmingTakesOnlySpace | internal/backend/dap/client.go:679-683 | Trimming takes exactly the white-space bytes off the two ends |

## Left out

- Process start, dialing, signals, `go list`, directory walking and file reads: only whether they succeed, and what they yield.
- JSON encoding: messages are decoded values, and a body that does not decode is a value of its own.
- Wire spellings of stop reasons and output categories: events carry the mapped values, without the tables that map them.
- Read deadlines inside a frame: a message read yields one whole frame or fails. A deadline in mid-frame does consume bytes, so what is said of a run after a failed read supposes that it did not.
- Client.Client.WriteRequest: a request is written wholly or not at all. A header whose payload then cannot be written is not modelled: the peer would take what is written next for that payload.
- Close errors, process stdout and stderr buffers, and the text of errors other than the parts of a refused request.
- Decoding of scopes, variables and evaluation replies; these are arbitrary replies. `StepOut`, `Pause`, `Goroutines` and `Attach` are not modelled.
- White space of more than one byte in `strings.TrimSpace`, and paths on systems other than Unix.
- `sort.Slice`: any correct sort may stand for it; the one modelled is an insertion sort.
- Children of a variables reference that change between two requests: they are a fixed function of the reference, which may fail.
- Locals with empty names at the root: the debugger is taken to name every local. Without it a collecting walk from an empty path need not end.
- Siblings with the same name: a path then stands for the first of them when it is walked by segments, and for all of them when it is collected.
- Progress of the asynchronous reader, and calls of it after its owner closed it.
- The line-mode command loop, which is the terminal loop without keys, and the list of breakpoints kept for display.
- Package clauses and source windows that change between two looks at a file: they are fixed functions of the path and of the frame. Identifiers with letters that are not ASCII: a break command takes them as they are.
- Formatting of values, colours of locals, help text, paths for display, prompts, flags and logging.
- `go/scanner` and `go/parser`: token streams and parsed files are inputs.
- `RenderRange`, `RenderFunction` and the enclosing-function searches: they add a range computed from the parser's positions.
- Package and module caches of the source index, and breakpoint comments in source files.
- LineNumbers.LineKeepsItsNumberExactlyWhen: supposes token texts that are the source at their offsets. The scanner drops carriage returns from comments and raw strings and replaces bytes that are not UTF-8, so of such sources only the theorems for every stream speak: `LineNumbers.TokenIsShownAt` and `Highlight.HighlightIsUndoneExactlyWhen`.
- SourceIndex.CacheAgreesWithParsing: supposes that a path with its modification time and size determines the content, and that files do not change during one call.
- SourceIndex.StepKeepsGood: a worker's steps are the stretches between its lock operations and file reads; the order of memory operations inside one is not modelled.
