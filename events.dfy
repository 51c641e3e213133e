/**
 * One decoded line of the reply stream: whether it carries a `data:`
 * payload, and what the parsed payload says.
 */
module Events {
  import opened Wrappers
  import opened Text

  /**
   * The outcome of `JSON.parse` on a payload, reduced to the three fields
   * the handler reads. `Malformed` is a parse failure (or a value whose
   * `type` cannot be read). An absent or falsy `payload.content` is "",
   * an absent or falsy `payload.can_rating` is false.
   */
  datatype Event = Malformed | Parsed(kind: string, content: string, canRating: bool)

  const Prefix: string := "data:"

  /** The trimmed text after `data:`, or None when the line does not start with `data:`. */
  function Payload(line: string): Option<string> {
    if StartsWith(line, Prefix) then Some(Trim(line[|Prefix|..])) else None
  }

  /** A reply event with truthy content and truthy `can_rating`. */
  predicate Qualifies(e: Event) {
    e.Parsed? && e.kind == "reply" && e.content != "" && e.canRating
  }

  /** A `data:` line carries exactly the trimmed rest of the line; any other line carries nothing. */
  lemma PayloadOfLine(line: string)
    ensures Payload(line).Some? <==> |line| >= 5 && line[..5] == "data:"
    ensures Payload(line).Some? ==> Payload(line).value == Trim(line[5..])
    ensures forall rest :: line == Prefix + rest ==> Payload(line) == Some(Trim(rest))
  {
    forall rest | line == Prefix + rest
      ensures Payload(line) == Some(Trim(rest))
    {
      assert line[..|Prefix|] == Prefix;
      assert line[|Prefix|..] == rest;
    }
  }
}
