/**
 * The transcript of the chat and the updates the reply handler makes to
 * it: overwriting the reply in progress, marking it done, and dropping
 * the messages left empty when the exchange fails.
 */
module Transcript {
  import opened Wrappers
  import opened Text
  import opened Events
  import opened Seqs

  /** One chat entry. `isDone` is optional in the source; absent reads as false. */
  datatype Message = Message(text: string, isUser: bool, isDone: bool)

  /** The message appended when the user submits `input` (untrimmed). */
  function UserMessage(input: string): Message {
    Message(input, true, false)
  }

  /** The empty reply appended once the response body is available. */
  const Placeholder: Message := Message("", false, false)

  /**
   * A qualifying event: the last message, unless it is the user's, gets
   * `content` as its whole text; nothing else changes.
   */
  function SetReply(m: seq<Message>, content: string): (r: seq<Message>)
    requires |m| > 0
    ensures |r| == |m| && r[..|m| - 1] == m[..|m| - 1]
    ensures r[|m| - 1].isUser == m[|m| - 1].isUser && r[|m| - 1].isDone == m[|m| - 1].isDone
    ensures r[|m| - 1].text == if m[|m| - 1].isUser then m[|m| - 1].text else content
  {
    var last := m[|m| - 1];
    if last.isUser then m else m[..|m| - 1] + [last.(text := content)]
  }

  /** Replacement, not concatenation: a later reply supersedes an earlier one entirely. */
  lemma SetReplySupersedes(m: seq<Message>, first: string, second: string)
    requires |m| > 0
    ensures SetReply(SetReply(m, first), second) == SetReply(m, second)
  {
    var r := SetReply(SetReply(m, first), second);
    assert r[..|m| - 1] == SetReply(m, second)[..|m| - 1];
    assert r[|m| - 1] == SetReply(m, second)[|m| - 1];
  }

  /** `line` is a `data:` line whose payload parses to a qualifying reply. */
  predicate QualifyingLine(line: string, parse: string -> Event) {
    Payload(line).Some? && Qualifies(parse(Payload(line).value))
  }

  /** The reply text a qualifying line carries. */
  function LineContent(line: string, parse: string -> Event): string
    requires QualifyingLine(line, parse)
  {
    parse(Payload(line).value).content
  }

  /** The effect of one stream line on the transcript. */
  function ApplyLine(m: seq<Message>, line: string, parse: string -> Event): (r: seq<Message>)
    requires |m| > 0
    ensures |r| == |m|
  {
    match Payload(line)
    case None => m
    case Some(p) =>
      var e := parse(p);
      if Qualifies(e) then SetReply(m, e.content) else m
  }

  /**
   * A line changes the transcript only through a qualifying `data:` event,
   * and then exactly as SetReply does: a line without the prefix, a payload
   * that does not parse and any other event leave it as it was.
   */
  lemma ApplyLineSpec(m: seq<Message>, line: string, parse: string -> Event)
    requires |m| > 0
    ensures !StartsWith(line, Prefix) ==> ApplyLine(m, line, parse) == m
    ensures QualifyingLine(line, parse) ==> ApplyLine(m, line, parse) == SetReply(m, LineContent(line, parse))
    ensures !QualifyingLine(line, parse) ==> ApplyLine(m, line, parse) == m
  {
  }

  /** Applying the same line twice is the same as applying it once. */
  lemma ApplyLineIdempotent(m: seq<Message>, line: string, parse: string -> Event)
    requires |m| > 0
    ensures ApplyLine(ApplyLine(m, line, parse), line, parse) == ApplyLine(m, line, parse)
  {
    ApplyLineSpec(m, line, parse);
    if QualifyingLine(line, parse) {
      ApplyLineSpec(SetReply(m, LineContent(line, parse)), line, parse);
      SetReplySupersedes(m, LineContent(line, parse), LineContent(line, parse));
    }
  }

  /** The lines applied in order, first to last. */
  function ScanLines(m: seq<Message>, lines: seq<string>, parse: string -> Event): (r: seq<Message>)
    requires |m| > 0
    ensures |r| == |m|
    decreases |lines|
  {
    if lines == [] then m
    else ApplyLine(ScanLines(m, lines[..|lines| - 1], parse), lines[|lines| - 1], parse)
  }

  /** A `data:` line, unfolded as the handler's loop body reads it. */
  lemma ApplyDataLine(m: seq<Message>, line: string, parse: string -> Event)
    requires |m| > 0 && StartsWith(line, Prefix)
    ensures var e := parse(Trim(line[|Prefix|..]));
            ApplyLine(m, line, parse) == if Qualifies(e) then SetReply(m, e.content) else m
  {
  }

  /** One more line of `lines` scanned. */
  lemma ScanLinesNext(m: seq<Message>, lines: seq<string>, i: nat, parse: string -> Event)
    requires |m| > 0 && i < |lines|
    ensures ScanLines(m, lines[..i + 1], parse) == ApplyLine(ScanLines(m, lines[..i], parse), lines[i], parse)
  {
    assert lines[..i + 1][..i] == lines[..i];
  }

  /** The content of the last qualifying event among `lines`, if there is one. */
  function LastQualifying(lines: seq<string>, parse: string -> Event): Option<string>
    decreases |lines|
  {
    if lines == [] then None
    else if QualifyingLine(lines[|lines| - 1], parse) then Some(LineContent(lines[|lines| - 1], parse))
    else LastQualifying(lines[..|lines| - 1], parse)
  }

  lemma LastQualifyingSingle(line: string, parse: string -> Event)
    ensures LastQualifying([line], parse)
            == if QualifyingLine(line, parse) then Some(LineContent(line, parse)) else None
  {
    assert [line][..0] == [];
  }

  /**
   * Scanning lines leaves the transcript as only the last qualifying event
   * would: its content replaces the reply, or nothing changes.
   */
  lemma {:induction false} ScanLinesLastWins(m: seq<Message>, lines: seq<string>, parse: string -> Event)
    requires |m| > 0
    ensures ScanLines(m, lines, parse) == match LastQualifying(lines, parse)
                                          case None => m
                                          case Some(c) => SetReply(m, c)
    decreases |lines|
  {
    if lines != [] {
      var init := lines[..|lines| - 1];
      var line := lines[|lines| - 1];
      ScanLinesLastWins(m, init, parse);
      ApplyLineSpec(ScanLines(m, init, parse), line, parse);
      if QualifyingLine(line, parse) {
        match LastQualifying(init, parse)
        case None =>
        case Some(c) => SetReplySupersedes(m, c, LineContent(line, parse));
      }
    }
  }

  /** Two line sequences with the same last qualifying event leave the same transcript. */
  lemma ScanLinesSameLast(m: seq<Message>, a: seq<string>, b: seq<string>, parse: string -> Event)
    requires |m| > 0
    requires LastQualifying(a, parse) == LastQualifying(b, parse)
    ensures ScanLines(m, a, parse) == ScanLines(m, b, parse)
  {
    ScanLinesLastWins(m, a, parse);
    ScanLinesLastWins(m, b, parse);
  }

  /** Scanning `a + b` is scanning `a`, then `b`. */
  lemma {:induction false} ScanLinesAppend(m: seq<Message>, a: seq<string>, b: seq<string>, parse: string -> Event)
    requires |m| > 0
    ensures ScanLines(m, a + b, parse) == ScanLines(ScanLines(m, a, parse), b, parse)
    decreases |b|
  {
    if b == [] {
      assert a + b == a;
    } else {
      var init := b[..|b| - 1];
      ScanLinesAppend(m, a, init, parse);
      assert (a + b)[..|a + b| - 1] == a + init;
      assert (a + b)[|a + b| - 1] == b[|b| - 1];
    }
  }

  /** The last qualifying event of `a + b` is that of `b`, unless `b` has none. */
  lemma {:induction false} LastQualifyingAppend(a: seq<string>, b: seq<string>, parse: string -> Event)
    ensures LastQualifying(a + b, parse)
            == if LastQualifying(b, parse).Some? then LastQualifying(b, parse) else LastQualifying(a, parse)
    decreases |b|
  {
    if b == [] {
      assert a + b == a;
    } else {
      var init := b[..|b| - 1];
      LastQualifyingAppend(a, init, parse);
      assert (a + b)[..|a + b| - 1] == a + init;
      assert (a + b)[|a + b| - 1] == b[|b| - 1];
    }
  }

  /** Some line starts with `data:` (any such line hides the typing indicator). */
  predicate HasDataLine(lines: seq<string>)
    decreases |lines|
  {
    lines != [] && (HasDataLine(lines[..|lines| - 1]) || StartsWith(lines[|lines| - 1], Prefix))
  }

  lemma HasDataLineNext(lines: seq<string>, i: nat)
    requires i < |lines|
    ensures HasDataLine(lines[..i + 1]) == (HasDataLine(lines[..i]) || StartsWith(lines[i], Prefix))
  {
    assert lines[..i + 1][..i] == lines[..i];
  }

  lemma {:induction false} HasDataLineIff(lines: seq<string>)
    ensures HasDataLine(lines) <==> exists i :: 0 <= i < |lines| && StartsWith(lines[i], Prefix)
    decreases |lines|
  {
    if lines != [] {
      var init := lines[..|lines| - 1];
      HasDataLineIff(init);
      if exists i :: 0 <= i < |lines| && StartsWith(lines[i], Prefix) {
        var i :| 0 <= i < |lines| && StartsWith(lines[i], Prefix);
        if i < |init| { assert init[i] == lines[i]; }
      }
    }
  }

  /** End of stream: the last message is marked done unless it is the user's. */
  function MarkDone(m: seq<Message>): (r: seq<Message>)
    requires |m| > 0
    ensures |r| == |m| && r[..|m| - 1] == m[..|m| - 1]
    ensures r[|m| - 1].text == m[|m| - 1].text && r[|m| - 1].isUser == m[|m| - 1].isUser
    ensures r[|m| - 1].isDone == (m[|m| - 1].isDone || !m[|m| - 1].isUser)
  {
    var last := m[|m| - 1];
    if last.isUser then m else m[..|m| - 1] + [last.(isDone := true)]
  }

  /** The error path's `filter(msg => msg.text !== '')`. */
  function RemoveEmpty(m: seq<Message>): (r: seq<Message>)
    ensures |r| <= |m|
    ensures forall i :: 0 <= i < |r| ==> r[i].text != ""
    ensures forall x :: x in r ==> x in m
    decreases |m|
  {
    if m == [] then []
    else (if m[0].text == "" then [] else [m[0]]) + RemoveEmpty(m[1..])
  }

  /** The filter keeps order: it works piecewise over a concatenation. */
  lemma {:induction false} RemoveEmptyAppend(a: seq<Message>, b: seq<Message>)
    ensures RemoveEmpty(a + b) == RemoveEmpty(a) + RemoveEmpty(b)
    decreases |a|
  {
    if a == [] {
      assert a + b == b;
    } else {
      RemoveEmptyAppend(a[1..], b);
      assert (a + b)[0] == a[0] && (a + b)[1..] == a[1..] + b;
      var head := if a[0].text == "" then [] else [a[0]];
      Regroup(head, RemoveEmpty(a[1..]), RemoveEmpty(b));
    }
  }

  /** A message survives the filter exactly when it is in the transcript and not empty. */
  lemma {:induction false} RemoveEmptyMembers(m: seq<Message>, x: Message)
    ensures x in RemoveEmpty(m) <==> x in m && x.text != ""
    decreases |m|
  {
    if m != [] {
      RemoveEmptyMembers(m[1..], x);
      assert x in m <==> x == m[0] || x in m[1..] by { assert m == [m[0]] + m[1..]; }
    }
  }

  /** The filter changes a transcript exactly when it holds an empty message. */
  lemma {:induction false} RemoveEmptyKeepsAll(m: seq<Message>)
    ensures RemoveEmpty(m) == m <==> forall i :: 0 <= i < |m| ==> m[i].text != ""
    decreases |m|
  {
    if m != [] {
      RemoveEmptyKeepsAll(m[1..]);
      if m[0].text == "" {
        assert |RemoveEmpty(m)| < |m| by { assert RemoveEmpty(m) == RemoveEmpty(m[1..]); }
      }
    }
  }
}
