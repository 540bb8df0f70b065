# wingman — a Dafny model of the chat core

Wingman is a terminal chat client for a streaming chat-completion API. This
project models and proves properties of three pieces of it:

- **History** (`history.dfy`, from `src/persistence.rs`): the conversation
  history. It is a FIFO of role-tagged messages that holds at most 20
  entries. `store_message` evicts from the front while the history is at
  capacity, then pushes the new message, which has no author name.
- **Chat** (`chat.dfy`, from `src/chat.rs`): the streaming side of
  `process_chat_message`.
  - `get_token_from_response` joins the contents of a chunk's choices. A
    missing content counts as "".
  - The `for_each` closure is applied to every item of the response stream.
    - A chunk's token goes to the output callback and to the reply buffer.
    - An API error is printed and skipped, but only when it carries a code.
      Without one, `unwrap` panics.
    - Any other error panics. It gets a dedicated message when its text
      contains "401 Unauthorized".
  - The stream is modelled as the sequence of items it delivers.
  - The callback (`print_streaming_response`) is modelled as the log of the
    tokens it receives.
  - The printed API errors are modelled as the log of their bodies.
  - A panic is modelled as an `Aborted` outcome that carries its reason.
- **Terminal** (`terminal.dfy`, from `src/terminal.rs`): how a prompt is read.
  - `is_exit_code` accepts "q" and "quit" in any ASCII case.
  - `get_new_prompt` reads lines and trims them with Rust's Unicode
    whitespace. It returns `Exit` on an exit keyword, asks again on a blank
    line, and otherwise returns the trimmed prompt.
  - Standard input is modelled as the sequence of lines the reads deliver.

`strings.dfy` holds joining with the empty separator and substring search.
`wrappers.dfy` holds `Option` and `Result`.

## Model

| member | source | states |
|---|---|---|
| History.Evict | src/persistence.rs:13-15 | The pop-front loop leaves the newest `min(n, 19)` of the `n` messages, in their original order. |
| History.StoreMessageBounded | src/persistence.rs:5-21 | About `History.StoreMessage`, the model of `store_message`. After a store:<br>• the history holds at most 20 messages, namely `min(n, 19) + 1`;<br>• it keeps the newest old messages in order, followed by the new message with the given role and content and no name;<br>• below capacity nothing is evicted. |
| History.StoreMessageLoop | src/persistence.rs:7-21 | The loop of pops followed by one push computes the functional `History.StoreMessage`. The `&mut` deque is modelled by returning the updated sequence. |
| History.StoreMessageIsWindow | src/persistence.rs:13-21 | One store is a sliding window: the result is the newest 20 messages of the old history extended by the new message, i.e. `Window(history + [new])`. The window is taken after appending, so a full history loses its oldest message. |
| History.StoreAllIsWindow | src/persistence.rs:7-21 | Any non-empty run of stores leaves the newest 20 messages of the old history extended by the pushed messages, in insertion order, i.e. `Window(history + pushed)`. When more than 20 are pushed, only the newest 20 of them survive. |
| History.StoreAllFromEmpty | src/persistence.rs:5-21 | Storing N messages from empty keeps the last `min(N, 20)` in insertion order. When N > 20 exactly 20 remain, and the oldest survivor is message number N - 20, counting from 0 (the first N - 20 messages are gone). |
| Strings.ConcatAppend | src/chat.rs:23-24 | Joining with "" distributes over concatenation of the part lists, so the order of the parts is preserved. |
| Strings.Contains | src/chat.rs:67 | `contains` holds exactly when the needle occurs at some index of the text. |
| Chat.TokenOfNoChoices | src/chat.rs:12-25 | A chunk without choices yields the empty token. With the next two rows this determines `Chat.GetToken`, the model of `get_token_from_response`. |
| Chat.TokenOfSingleChoice | src/chat.rs:12-25 | A chunk with one choice yields exactly that choice's content, or "" when it has none. |
| Chat.TokenOfSplitChoices | src/chat.rs:12-25 | Splitting a chunk's choices splits its token at the same place: the token is the in-order concatenation of the contents. |
| Chat.EmptyChoiceContributesNothing | src/chat.rs:16-22 | A choice without content adds nothing to the token, wherever it sits. |
| Chat.AbortReasonOf | src/chat.rs:59-71 | The panic a fatal error causes:<br>• an API error without a code fails in `unwrap`;<br>• any other error gets the invalid-key message exactly when its text contains "401 Unauthorized";<br>• otherwise it panics with its own text. |
| Chat.Step | src/chat.rs:50-76 | One closure call panics exactly on a fatal item, with that item's reason. A chunk appends exactly its token to the callback log, the buffer grows by the same text, and nothing is reported. An API error with a code leaves the buffer and the callback log unchanged and is reported once. |
| Chat.Run | src/chat.rs:49-77 | Draining the stream succeeds exactly when no item is fatal. |
| Chat.ProcessChatMessage | src/chat.rs:45-78 | The reply is returned exactly when no item is fatal. The callback then received the chunk tokens in arrival order, every API error was reported in order, and the reply is the concatenation of the tokens the callback received. |
| Chat.RunWithoutAbort | src/chat.rs:48-77 | Without a fatal item, the run reaches the state of the reference definitions: buffer plus joined chunk tokens, log plus the tokens, reports plus the API errors. |
| Chat.RunAppend | src/chat.rs:49-77 | Draining `xs + ys` is draining `xs` and then, unless that panicked, `ys`. |
| Chat.FatalItemAborts | src/chat.rs:57-71 | A fatal item after harmless ones aborts the whole message with that item's reason, whatever follows. |
| Chat.RunIgnoresReported | src/chat.rs:59-65 | Errors reported earlier never change what happens later. |
| Chat.ApiErrorIsSkipped | src/chat.rs:59-65 | Removing an API error that has a code changes nothing but the reports: the same reply, the same callback tokens, the same abort reason. |
| Chat.ChunksOnly | src/chat.rs:52-56 | A stream of chunks only completes with their tokens joined without separator. The callback receives each token once, in order, and nothing is reported. |
| Terminal.TrimBy | src/terminal.rs:18 | Trimming yields a slice of the input with only class characters around it and none at either of its ends. |
| Terminal.TrimStartRemovesClass | src/terminal.rs:18 | Trimming the front keeps a suffix, removes only class characters, and stops at a character outside the class. |
| Terminal.TrimEndRemovesClass | src/terminal.rs:18 | Trimming the back keeps a prefix, removes only class characters, and stops at a character outside the class. |
| Terminal.TrimByIsUnique | src/terminal.rs:18 | The trimmed form is the only tight slice with nothing but class characters around it. |
| Terminal.TrimCharacterised | src/terminal.rs:18 | About `Terminal.Trim`, the model of `str::trim`. A string is the trimmed line if and only if it is a slice of the line with only whitespace around it and no whitespace at either end. |
| Terminal.TrimIdempotent | src/terminal.rs:18 | Trimming twice is trimming once. |
| Terminal.TrimEmptyIffBlank | src/terminal.rs:18-27 | The trimmed line is empty exactly when the line is all whitespace. |
| Terminal.ExitCodeSpellings | src/terminal.rs:9-11 | About `Terminal.IsExitCode`, the model of `is_exit_code`. The exit codes are exactly "q", "Q" and "quit" in every mix of cases. |
| Terminal.ClassifyLine | src/terminal.rs:15-29 | One loop iteration:<br>• it returns `Exit` exactly when the trimmed line is an exit code;<br>• it asks again exactly when the line is blank;<br>• otherwise it returns the trimmed line, which is non-empty and not an exit code. |
| Terminal.PromptIsStable | src/terminal.rs:18-29 | A returned prompt has no whitespace at either end. Entering it again verbatim returns it again. |
| Terminal.GetNewPrompt | src/terminal.rs:13-31 | The loop returns exactly when some delivered line is not blank. |
| Terminal.FirstNonBlankDecides | src/terminal.rs:14-30 | The first non-blank line decides the result, whatever follows it. |
| Terminal.EndOfInputNeverReturns | src/terminal.rs:14-27 | As written: once the input ends, every read yields an empty line (`Terminal.ReadLine`), so when no line was non-blank no number of reads makes the loop return. |
| Terminal.GetNewPromptOrExit | src/terminal.rs:13-31 | Corrected loop: it agrees with `get_new_prompt` whenever that returns, and returns `Exit` when the input runs out first. |
| Terminal.EndOfInputExits | src/terminal.rs:13-31 | With the correction, reads past the end of the input never change the answer, and an empty input exits at once. |

## Left out

- Building the request (src/chat.rs:33-43) and opening the stream (src/chat.rs:45). They are network calls into the API client. The model starts from the items the stream delivers, so an error from `create_stream` is not modelled.
- The async runtime and `future::ready`. The stream is drained in order, one item at a time, and that is what the fold models.
- What is printed: "Response: ", the API error line, the exit and empty-prompt messages, and `print_streaming_response` with its flush. On a completed run, tokens given to the callback and reported API errors are recorded instead. The text of the panic messages is reduced to `AbortReason`.
- Chat.ProcessChatMessage: on a panic, the tokens already passed to the callback and the API errors already printed are dropped. The `Aborted` outcome carries only the reason, although the program has already shown that output before it panics (src/chat.rs:54, 61-64, 68, 70).
- Chat.ApiErrorBody: the library's error code is a JSON value. It is modelled as an optional string, since only its presence matters here.
- The `expect` on a failed `read_line` (src/terminal.rs:16). A read error is I/O and is not modelled. End of input is modelled.
- `src/main.rs`: the session loop, environment, UUID and client. The effect of its two `store_message` calls per turn is covered by `History.StoreAll`.
- `Role` has only the three roles that request messages carry in the client library version used.

## Findings

| source | as written | input that shows it | evidently intended | confidence | as-written member | corrected member |
|---|---|---|---|---|---|---|
| src/terminal.rs:14-27 | At end of input `read_line` returns `Ok(0)` and leaves the buffer empty. The empty line counts as blank, so the loop asks again forever. | Standard input with no lines, or only blank lines, e.g. a closed pipe | Running out of input ends the session as `Exit` does | not executed; medium (an interactive terminal can deliver more input after an end-of-file, a pipe cannot) | Terminal.EndOfInputNeverReturns | Terminal.EndOfInputExits |
