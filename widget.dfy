/**
 * The chat widget's submit handler: it appends the user's message, opens
 * the reply stream, feeds every decoded chunk through the line buffer and
 * into the transcript, and finishes on end of stream or on a transport
 * error.
 */
module Widget {
  import opened Wrappers
  import opened Text
  import opened Seqs
  import opened Lines
  import opened Events
  import opened Transcript

  /**
   * The handler's state: the transcript, the carry-over buffer of the
   * stream being read and the "typing" indicator. `parse` stands for
   * `JSON.parse` followed by the reads of `type`, `payload.content` and
   * `payload.can_rating`.
   */
  class ChatWidget {
    var messages: seq<Message>
    var buffer: string
    var isTyping: bool
    const parse: string -> Event

    constructor (parse: string -> Event)
      ensures messages == [] && buffer == "" && !isTyping && this.parse == parse
    {
      messages := [];
      buffer := "";
      isTyping := false;
      this.parse := parse;
    }

    /**
     * Submitting blank input does nothing; otherwise the untrimmed input is
     * appended as the user's message and the typing indicator is shown.
     */
    method Submit(input: string) returns (sent: bool)
      modifies this
      ensures sent <==> Trim(input) != ""
      ensures messages == if sent then old(messages) + [UserMessage(input)] else old(messages)
      ensures isTyping == (sent || old(isTyping))
      ensures buffer == old(buffer)
    {
      if Trim(input) == "" {
        return false;
      }
      messages := messages + [UserMessage(input)];
      isTyping := true;
      sent := true;
    }

    /** The response body is available: an empty buffer and an empty, unfinished reply. */
    method OpenStream()
      modifies this
      ensures messages == old(messages) + [Placeholder]
      ensures buffer == ""
      ensures isTyping == old(isTyping)
    {
      buffer := "";
      messages := messages + [Placeholder];
    }

    /**
     * One decoded chunk: every segment of buffer + chunk is scanned, the
     * unterminated last one included, and the last segment becomes the
     * buffer. Any `data:` line hides the typing indicator.
     */
    method FeedChunk(chunk: string)
      requires |messages| > 0
      modifies this
      ensures messages == ScanLines(old(messages), Split(old(buffer) + chunk), parse)
      ensures buffer == Carry(old(buffer) + chunk) && '\n' !in buffer
      ensures isTyping == (old(isTyping) && !HasDataLine(Split(old(buffer) + chunk)))
    {
      var received := buffer + chunk;
      var lines := Split(received);
      for i := 0 to |lines|
        invariant messages == ScanLines(old(messages), lines[..i], parse)
        invariant isTyping == (old(isTyping) && !HasDataLine(lines[..i]))
      {
        ScanLinesNext(old(messages), lines, i, parse);
        HasDataLineNext(lines, i);
        var line := lines[i];
        if StartsWith(line, Prefix) {
          ApplyDataLine(messages, line, parse);
          isTyping := false;
          var event := parse(Trim(line[|Prefix|..]));
          if Qualifies(event) {
            messages := SetReply(messages, event.content);
          }
        } else {
          ApplyLineSpec(messages, line, parse);
        }
      }
      assert lines[..|lines|] == lines;
      SplitParts(received);
      buffer := lines[|lines| - 1];
    }

    /**
     * End of stream: the last message is marked done unless it is the
     * user's; the unterminated buffer is dropped unread and the typing
     * indicator is hidden.
     */
    method EndStream()
      requires |messages| > 0
      modifies this
      ensures messages == MarkDone(old(messages))
      ensures buffer == "" && !isTyping
    {
      messages := MarkDone(messages);
      buffer := "";
      isTyping := false;
    }

    /**
     * The request failed or the stream broke: every message whose text is
     * empty is removed and the typing indicator is hidden.
     */
    method TransportError()
      modifies this
      ensures messages == RemoveEmpty(old(messages))
      ensures buffer == "" && !isTyping
    {
      messages := RemoveEmpty(messages);
      buffer := "";
      isTyping := false;
    }
  }

  /** A line and its '\n' fed into an empty buffer: the line is applied and the buffer ends empty. */
  lemma FeedTerminated(m: seq<Message>, line: string, parse: string -> Event)
    requires |m| > 0 && '\n' !in line
    ensures Split("" + (line + "\n")) == [line, ""] && Carry("" + (line + "\n")) == ""
    ensures ScanLines(m, [line, ""], parse) == ApplyLine(m, line, parse)
  {
    SplitTerminated(line);
    ScanLineThenEmpty(m, line, parse);
  }

  lemma SplitTerminated(line: string)
    requires '\n' !in line
    ensures Split("" + (line + "\n")) == [line, ""] && Carry("" + (line + "\n")) == ""
  {
    SplitAfterLine(line, "");
    assert "" + (line + "\n") == line + "\n" + "";
  }

  lemma ScanLineThenEmpty(m: seq<Message>, line: string, parse: string -> Event)
    requires |m| > 0
    ensures ScanLines(m, [line, ""], parse) == ApplyLine(m, line, parse)
  {
    var lines := [line, ""];
    assert ScanLines(m, lines[..0], parse) == m;
    ScanLinesNext(m, lines, 0, parse);
    ScanLinesNext(m, lines, 1, parse);
    assert lines[..2] == lines;
    assert Payload("") == None;
  }

  /** A line without its '\n' fed into an empty buffer: the line is applied and kept as the buffer. */
  lemma FeedUnterminated(m: seq<Message>, line: string, parse: string -> Event)
    requires |m| > 0 && '\n' !in line
    ensures Split("" + line) == [line] && Carry("" + line) == line
    ensures ScanLines(m, [line], parse) == ApplyLine(m, line, parse)
  {
    assert "" + line == line;
    SplitNoNewline(line);
    assert [line][..0] == [];
  }

  /** A qualifying line fills the reply that follows the user's message. */
  lemma ReplyFilled(u: Message, reply: Message, line: string, parse: string -> Event)
    requires !reply.isUser
    requires QualifyingLine(line, parse)
    ensures ApplyLine([u, reply], line, parse) == [u, reply.(text := LineContent(line, parse))]
  {
    ApplyLineSpec([u, reply], line, parse);
    assert [u, reply][..1] == [u];
  }

  /** End of stream on a reply that follows the user's message. */
  lemma ReplyDone(u: Message, reply: Message)
    requires !reply.isUser
    ensures MarkDone([u, reply]) == [u, reply.(isDone := true)]
  {
    assert [u, reply][..1] == [u];
  }

  /**
   * A complete exchange: two qualifying reply lines, each terminated by a
   * newline, then end of stream. The reply ends up holding the second
   * content alone, marked done, and the typing indicator is off.
   */
  method ReplyExchange(parse: string -> Event, input: string, first: string, second: string)
    returns (transcript: seq<Message>, typing: bool)
    requires Trim(input) != ""
    requires '\n' !in first && '\n' !in second
    requires QualifyingLine(first, parse)
    requires QualifyingLine(second, parse)
    ensures transcript == [UserMessage(input), Message(LineContent(second, parse), false, true)]
    ensures !typing
  {
    var u := UserMessage(input);
    var w := new ChatWidget(parse);
    var sent := w.Submit(input);
    w.OpenStream();
    assert w.messages == [u, Placeholder];
    FeedTerminated(w.messages, first, parse);
    ReplyFilled(u, Placeholder, first, parse);
    w.FeedChunk(first + "\n");
    var reply := Placeholder.(text := LineContent(first, parse));
    assert w.messages == [u, reply];
    FeedTerminated(w.messages, second, parse);
    ReplyFilled(u, reply, second, parse);
    w.FeedChunk(second + "\n");
    ReplyDone(u, reply.(text := LineContent(second, parse)));
    w.EndStream();
    transcript, typing := w.messages, w.isTyping;
  }

  /**
   * A qualifying `data:` line that is never terminated by a newline is
   * still applied: it is scanned as the carry-over segment when it
   * arrives, so its content reaches the transcript and stays there at end
   * of stream.
   */
  method UnterminatedReply(parse: string -> Event, input: string, line: string)
    returns (transcript: seq<Message>)
    requires Trim(input) != ""
    requires '\n' !in line
    requires QualifyingLine(line, parse)
    ensures transcript == [UserMessage(input), Message(LineContent(line, parse), false, true)]
  {
    var u := UserMessage(input);
    var w := new ChatWidget(parse);
    var sent := w.Submit(input);
    w.OpenStream();
    assert w.messages == [u, Placeholder];
    FeedUnterminated(w.messages, line, parse);
    ReplyFilled(u, Placeholder, line, parse);
    w.FeedChunk(line);
    ReplyDone(u, Placeholder.(text := LineContent(line, parse)));
    w.EndStream();
    transcript := w.messages;
  }

  /**
   * The transport fails after the placeholder was added: the transcript
   * keeps the user's message only, and the typing indicator is off.
   */
  method FailedExchange(parse: string -> Event, input: string)
    returns (transcript: seq<Message>, typing: bool)
    requires Trim(input) != ""
    ensures transcript == [UserMessage(input)]
    ensures !typing
  {
    var w := new ChatWidget(parse);
    var sent := w.Submit(input);
    w.OpenStream();
    assert w.messages == [UserMessage(input)] + [Placeholder];
    RemoveEmptyAppend([UserMessage(input)], [Placeholder]);
    w.TransportError();
    transcript, typing := w.messages, w.isTyping;
  }

  /**
   * The response has no body: the request fails before the placeholder is
   * added, so the transcript keeps the user's message and the typing
   * indicator is off.
   */
  method NoBodyExchange(parse: string -> Event, input: string)
    returns (transcript: seq<Message>, typing: bool)
    requires Trim(input) != ""
    ensures transcript == [UserMessage(input)]
    ensures !typing
  {
    var w := new ChatWidget(parse);
    var sent := w.Submit(input);
    assert w.messages == [UserMessage(input)];
    w.TransportError();
    transcript, typing := w.messages, w.isTyping;
  }

  /**
   * Where a chunk boundary falls matters only through the carry-over
   * segment, which is scanned once more than in one-chunk delivery: feeding
   * `x` then `y` gives the transcript and buffer that feeding `x + y` at once
   * gives, unless that early carry-over qualified and no later line did.
   */
  lemma FeedTwiceAgrees(m: seq<Message>, buf: string, x: string, y: string, parse: string -> Event)
    requires |m| > 0
    requires !QualifyingLine(Carry(buf + x), parse) || LastQualifying(Split(Carry(buf + x) + y), parse).Some?
    ensures ScanLines(ScanLines(m, Split(buf + x), parse), Split(Carry(buf + x) + y), parse)
            == ScanLines(m, Split(buf + x + y), parse)
    ensures Carry(Carry(buf + x) + y) == Carry(buf + x + y)
  {
    var carry := Carry(buf + x);
    var first, later := Split(buf + x), Split(carry + y);
    SplitParts(buf + x);
    SplitAppend(buf + x, y);
    CompleteLinesAppend(buf + x, y);
    ScanLinesAppend(m, first, later, parse);
    CarryRescanAgrees(CompleteLines(buf + x), carry, later, parse);
    ScanLinesSameLast(m, first + later, CompleteLines(buf + x) + later, parse);
  }

  /** The line-level half of FeedTwiceAgrees: an extra scan of `carry` before `later`. */
  lemma CarryRescanAgrees(lines: seq<string>, carry: string, later: seq<string>, parse: string -> Event)
    requires !QualifyingLine(carry, parse) || LastQualifying(later, parse).Some?
    ensures LastQualifying((lines + [carry]) + later, parse) == LastQualifying(lines + later, parse)
  {
    LastQualifyingAppend(lines + [carry], later, parse);
    LastQualifyingAppend(lines, later, parse);
    LastQualifyingAppend(lines, [carry], parse);
    LastQualifyingSingle(carry, parse);
  }

  /**
   * Rescanning the carry-over is harmless when the next chunk completes it
   * unchanged (it begins with '\n'): the same line is applied twice, and a
   * qualifying event replaces rather than appends.
   */
  lemma CompletedCarryRescanned(m: seq<Message>, buf: string, x: string, rest: string, parse: string -> Event)
    requires |m| > 0
    ensures ScanLines(ScanLines(m, Split(buf + x), parse), Split(Carry(buf + x) + ("\n" + rest)), parse)
            == ScanLines(m, Split(buf + x + ("\n" + rest)), parse)
  {
    var carry := Carry(buf + x);
    SplitParts(buf + x);
    SplitLineFirst(carry, rest);
    LastQualifyingAppend([carry], Split(rest), parse);
    LastQualifyingSingle(carry, parse);
    FeedTwiceAgrees(m, buf, x, "\n" + rest, parse);
  }

  /**
   * A chunk boundary can change the reply. A qualifying `data:` line that
   * arrives without its '\n' is applied at once as the carry-over; if the
   * next chunk completes it into a line that does not qualify (the JSON was
   * cut short), that early content stays. Fed as one chunk, the completed
   * line alone is scanned and the transcript does not change.
   */
  lemma ChunkBoundaryChangesReply(m: seq<Message>, line: string, tail: string, parse: string -> Event)
    requires |m| > 0 && !m[|m| - 1].isUser
    requires '\n' !in line && '\n' !in tail
    requires QualifyingLine(line, parse) && !QualifyingLine(line + tail, parse)
    ensures ScanLines(ScanLines(m, Split("" + line), parse), Split(Carry("" + line) + (tail + "\n")), parse)
            == SetReply(m, LineContent(line, parse))
    ensures ScanLines(m, Split("" + line + (tail + "\n")), parse) == m
  {
    ChunkedKeepsEarly(m, line, tail, parse);
    WholeSkipsLine(m, line, tail, parse);
  }

  /** The chunked side: the early content is applied and the completed line leaves it. */
  lemma ChunkedKeepsEarly(m: seq<Message>, line: string, tail: string, parse: string -> Event)
    requires |m| > 0 && !m[|m| - 1].isUser
    requires '\n' !in line && '\n' !in tail
    requires QualifyingLine(line, parse) && !QualifyingLine(line + tail, parse)
    ensures ScanLines(ScanLines(m, Split("" + line), parse), Split(Carry("" + line) + (tail + "\n")), parse)
            == SetReply(m, LineContent(line, parse))
  {
    EarlyApplied(m, line, parse);
    Regroup(line, tail, "\n");
    CompletedSkipped(SetReply(m, LineContent(line, parse)), line + tail, parse);
  }

  /** The one-chunk side: only the completed line is scanned, and it does not qualify. */
  lemma WholeSkipsLine(m: seq<Message>, line: string, tail: string, parse: string -> Event)
    requires |m| > 0
    requires '\n' !in line && '\n' !in tail
    requires !QualifyingLine(line + tail, parse)
    ensures ScanLines(m, Split("" + line + (tail + "\n")), parse) == m
  {
    assert "" + line == line;
    Regroup(line, tail, "\n");
    CompletedSkipped(m, line + tail, parse);
  }

  /** A qualifying line fed, unterminated, into an empty buffer sets the reply at once and stays buffered. */
  lemma EarlyApplied(m: seq<Message>, line: string, parse: string -> Event)
    requires |m| > 0 && '\n' !in line && QualifyingLine(line, parse)
    ensures ScanLines(m, Split("" + line), parse) == SetReply(m, LineContent(line, parse))
    ensures Carry("" + line) == line
  {
    FeedUnterminated(m, line, parse);
    ApplyLineSpec(m, line, parse);
  }

  /** A completed line that does not qualify leaves the transcript unchanged. */
  lemma CompletedSkipped(m: seq<Message>, whole: string, parse: string -> Event)
    requires |m| > 0 && '\n' !in whole && !QualifyingLine(whole, parse)
    ensures ScanLines(m, Split(whole + "\n"), parse) == m
  {
    assert "" + (whole + "\n") == whole + "\n";
    FeedTerminated(m, whole, parse);
    ApplyLineSpec(m, whole, parse);
  }

  /** An instance: "data:A" then "B\n", where only the payload "A" parses. */
  lemma ChunkBoundaryExample()
    ensures var parse := (s: string) => if s == "A" then Parsed("reply", "A", true) else Malformed;
            QualifyingLine(Prefix + "A", parse) && !QualifyingLine(Prefix + "A" + "B", parse)
  {
    PayloadOfLine(Prefix + "A");
    TrimUnchanged("A");
    Regroup(Prefix, "A", "B");
    PayloadOfLine(Prefix + "A" + "B");
    TrimUnchanged("A" + "B");
  }
}
