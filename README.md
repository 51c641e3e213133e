# Chat widget reply stream

This project models `handleSubmit`, the submit handler of the embeddable
chat widget in `src/client/App.tsx`. The handler has two parts.

- **A line-buffered event-stream decoder.** Each decoded chunk of the
  response body is appended to a string buffer, and the buffer is split on
  `'\n'`. Every segment is scanned for the `data:` prefix, including the
  last segment, which is kept as the carry-over. The text after the prefix
  is trimmed and handed to the JSON parser.
- **A transcript reducer.** It acts on a sequence of messages
  (`text`, `isUser`, `isDone`).
  - Submitting non-blank input appends the user's message and shows the
    typing indicator.
  - Once a response body exists, an empty assistant placeholder is
    appended.
  - A qualifying `reply` event overwrites the text of the last message
    unless that message is the user's. A qualifying event has non-empty
    `content` and a truthy `can_rating`.
  - End of stream marks the last message done unless it is the user's.
  - A transport error removes every message whose text is empty.
  - Any `data:` line hides the typing indicator, and every path past the
    blank-input check ends with it hidden.

Modules:

- `Text`: JavaScript's `startsWith` and `trim`, with the ECMAScript
  white-space and line-terminator set.
- `Lines`: `split('\n')`, its inverse `Join`, the complete lines and the
  carry-over of a buffer, and the lines delivered over a whole sequence of
  chunks.
- `Events`: the event record that the parser produces, the `data:` payload
  extraction and the qualifying test.
- `Transcript`: the message record and the pure updates applied to the
  transcript.
- `Widget`: the `ChatWidget` class. It holds the state that the handler
  changes step by step (`messages`, `buffer`, `isTyping`) and one method per
  stage of the handler. The module also holds lemmas and scenario methods
  about whole streams.

`JSON.parse` is a parameter of the model, `parse: string -> Event`: a parse
failure is the `Malformed` event.

The model follows what the code does, which differs from the intended
line-by-line reading in two ways:

- An unterminated trailing `data:` line is applied as soon as it arrives,
  because the loop also scans the carry-over. When a later chunk completes
  the line, it is applied again. Re-applying a qualifying line is harmless,
  because an update replaces the text rather than appending to it
  (`ApplyLineIdempotent`).
- Where the chunk boundaries fall can change the transcript. A qualifying
  prefix of a line can land before the line is complete. If the completed
  line does not qualify, the early content stays. Fed in one chunk, the
  same text leaves the transcript unchanged (`ChunkBoundaryChangesReply`,
  `ChunkBoundaryExample`). When the carry-over does not qualify, or a later
  qualifying line supersedes it, chunked and whole feeding agree
  (`FeedTwiceAgrees`, `CompletedCarryRescanned`).

## Model

| member | source | states |
|---|---|---|
| Widget.ChatWidget.Submit | src/client/App.tsx:41-51 | blank or whitespace-only input (by JavaScript `trim`) sends nothing and leaves the transcript alone; otherwise exactly one user message holding the untrimmed input is appended, the earlier messages are untouched and the typing indicator is on |
| Widget.ChatWidget.OpenStream | src/client/App.tsx:76-80 | exactly one empty, not-done assistant placeholder is appended and the buffer starts empty |
| Widget.ChatWidget.FeedChunk | src/client/App.tsx:97-125 | the transcript is the result of scanning, in order, every segment of old buffer + chunk, the unterminated last one included; the new buffer is that last segment and holds no newline; the typing indicator goes off exactly when some segment starts with `data:` |
| Widget.ChatWidget.EndStream | src/client/App.tsx:84-95 | the transcript is marked done at its last message (unless that message is the user's), the carry-over is dropped unread, and the typing indicator is off |
| Widget.ChatWidget.TransportError | src/client/App.tsx:127-133 | the transcript loses its empty-text messages and the typing indicator is off |
| Lines.SplitSpec | src/client/App.tsx:98 | no segment of `Split(s)` holds a newline and joining the segments with newlines gives back `s` |
| Lines.SplitJoin | src/client/App.tsx:98 | splitting the join of newline-free segments gives back exactly those segments |
| Lines.SplitParts | src/client/App.tsx:98-125 | the split is the complete lines followed by the carry-over, and the carry-over holds no newline |
| Lines.CompleteLinesSpec | src/client/App.tsx:98-125 | the complete lines joined with newlines, then a newline, then the carry-over, rebuild the buffer; with no complete line the carry-over is the whole buffer |
| Lines.SplitAppend | src/client/App.tsx:97-98 | splitting `x + y` gives the complete lines of `x` followed by the split of `x`'s carry-over + `y` |
| Lines.CompleteLinesAppend | src/client/App.tsx:97-125 | feeding `y` after `x` yields the same complete lines and the same carry-over as feeding `x + y` at once |
| Lines.DeliveredConcat | src/client/App.tsx:82-125 | over any sequence of chunks, the complete lines delivered chunk by chunk followed by the final buffer are exactly the split of the whole stream |
| Text.TrimSpec | src/client/App.tsx:43 | `Trim(s)` is the infix of `s` left after dropping white space at both ends; it starts and ends with non-white space; it is empty exactly when `s` is all white space |
| Text.TrimStartSpec | src/client/App.tsx:103 | the leading part that `TrimStart` drops is all white space and the rest starts with a non-white character |
| Text.TrimEndSpec | src/client/App.tsx:103 | the trailing part that `TrimEnd` drops is all white space and the rest ends with a non-white character |
| Text.TrimUnchanged | src/client/App.tsx:103 | a string with no white space at either end is its own trim |
| Events.PayloadOfLine | src/client/App.tsx:101-103 | a line has a payload exactly when it starts with `data:`, and the payload is the rest of the line after those five characters, trimmed |
| Transcript.SetReply | src/client/App.tsx:108-117 | the length and every message but the last are kept; the last message keeps its role and done flag, and its text becomes the content unless it is the user's |
| Transcript.SetReplySupersedes | src/client/App.tsx:113-114 | a second reply replaces the first rather than appending to it |
| Transcript.ApplyLineSpec | src/client/App.tsx:100-121 | a segment without the `data:` prefix, or whose event is malformed or does not qualify, leaves the transcript unchanged; a qualifying one sets the reply to the event's content |
| Transcript.ApplyLineIdempotent | src/client/App.tsx:100-125 | scanning the same segment twice gives the same transcript as scanning it once, so re-scanning the carry-over is harmless |
| Transcript.ScanLinesNext | src/client/App.tsx:100-123 | scanning one more segment applies that segment to the transcript scanned so far |
| Transcript.ScanLinesLastWins | src/client/App.tsx:100-123 | scanning a list of segments leaves the transcript as it was when none qualifies, and otherwise sets the reply to the content of the last qualifying segment |
| Transcript.ScanLinesAppend | src/client/App.tsx:100-123 | scanning `a + b` is scanning `a` and then `b` |
| Transcript.ScanLinesSameLast | src/client/App.tsx:100-123 | two lists of segments with the same last qualifying content scan to the same transcript |
| Transcript.LastQualifyingAppend | src/client/App.tsx:107 | the last qualifying content of `a + b` is that of `b` if `b` has one, else that of `a` |
| Transcript.HasDataLineIff | src/client/App.tsx:101-102 | the typing indicator's trigger holds exactly when some segment starts with `data:` |
| Transcript.HasDataLineNext | src/client/App.tsx:100-102 | one more segment triggers the indicator exactly when it starts with `data:` |
| Transcript.MarkDone | src/client/App.tsx:86-93 | the length, every message but the last, and the last message's text and role are kept; the last message is done exactly when it already was or is not the user's |
| Transcript.RemoveEmpty | src/client/App.tsx:130 | no message left has empty text and none is added |
| Transcript.RemoveEmptyMembers | src/client/App.tsx:130 | a message survives exactly when it was present and its text is non-empty |
| Transcript.RemoveEmptyAppend | src/client/App.tsx:130 | filtering distributes over concatenation, so the order of the survivors is kept |
| Transcript.RemoveEmptyKeepsAll | src/client/App.tsx:130 | filtering changes nothing exactly when no message has empty text |
| Widget.FeedTerminated | src/client/App.tsx:97-125 | a newline-terminated line fed into an empty buffer is applied once and leaves the buffer empty |
| Widget.FeedUnterminated | src/client/App.tsx:97-125 | a line without its newline fed into an empty buffer is applied at once and kept as the buffer |
| Widget.ReplyExchange | src/client/App.tsx:41-134 | submit, placeholder, two terminated qualifying lines, end of stream: the transcript is the user's message and one done reply holding the second content, and the typing indicator is off |
| Widget.UnterminatedReply | src/client/App.tsx:41-134 | a qualifying line whose newline never arrives still fills the reply before end of stream, which marks it done |
| Widget.NoBodyExchange | src/client/App.tsx:41-133 | a response without a body fails before the placeholder is added: `TransportError` right after `Submit` leaves only the user's message and hides the typing indicator |
| Widget.FailedExchange | src/client/App.tsx:41-134 | a failure after the placeholder was added leaves only the user's message and hides the typing indicator |
| Widget.FeedTwiceAgrees | src/client/App.tsx:97-125 | when the carry-over does not qualify, or a later qualifying segment supersedes it, feeding two chunks gives the same transcript and buffer as feeding their concatenation |
| Widget.CompletedCarryRescanned | src/client/App.tsx:97-125 | when the next chunk starts with the newline that ends the carry-over's line, chunked and whole feeding agree |
| Widget.ChunkBoundaryChangesReply | src/client/App.tsx:100-125 | a qualifying prefix fed before its line is complete sets the reply and stays when the completed line does not qualify, whereas the whole line fed at once leaves the transcript unchanged |
| Widget.ChunkBoundaryExample | src/client/App.tsx:100-107 | for a parser accepting only the payload `A`, the line `data:A` qualifies and `data:AB` does not, so the previous lemma's premise can be met |

## Left out

- The request itself (`fetch`, the URL, the headers and the payload with
  its default credentials, `src/client/App.tsx:53-68`) is network I/O and is
  not modelled. A missing response body leads to the error path before the
  placeholder is added, which `Widget.NoBodyExchange` models; a failure
  after the placeholder is added is `Widget.FailedExchange`.
- `TextDecoder`'s incremental UTF-8 decoding: chunks are modelled as
  already decoded strings.
- The internals of `JSON.parse` and the shape of the event object are not
  modelled. The parser is a parameter that yields `Malformed` or the three
  fields the handler reads. A `content` that is truthy but not a string is
  not modelled: content is a string, and it is truthy when non-empty.
- React state, functional updaters, `async`/`await` suspension and
  `console.error`: each update is modelled as one step on the widget's
  fields. The updaters mutate the shared last message object in place, and
  that aliasing is not modelled: messages are values.
- Clearing the input box (`src/client/App.tsx:46`) and all rendering,
  theme, localization, drag, copy and scroll code are UI.
- Overlapping submissions, which interleave two streams, are not modelled:
  the methods run one at a time.
- Strings are sequences of characters, whereas JavaScript strings are
  UTF-16 code units. `trim` and `startsWith` are modelled per character.
- A message without `isDone` is modelled with `isDone == false`.
- Widget.ChatWidget.FeedChunk: requires a non-empty transcript. The source
  reads the last message without a guard, and the placeholder is always
  appended before the first chunk.
- Widget.ChatWidget.EndStream: requires a non-empty transcript, for the
  same reason.
