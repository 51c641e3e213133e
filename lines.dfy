/**
 * The line-buffered decoder of the reply stream: every decoded chunk is
 * appended to a carry-over buffer, the buffer is split on '\n', and the
 * last segment is kept back as the next buffer.
 */
module Lines {
  import opened Seqs

  /** The segments put back together with '\n' between neighbours (JavaScript's `join('\n')`). */
  function Join(segs: seq<string>): string
    requires |segs| >= 1
  {
    if |segs| == 1 then segs[0] else segs[0] + "\n" + Join(segs[1..])
  }

  /** JavaScript's `s.split('\n')`: the segments of `s` between its '\n's, always at least one. */
  function Split(s: string): (r: seq<string>)
    ensures |r| >= 1
    decreases |s|
  {
    if s == [] then [""]
    else
      var rest := Split(s[1..]);
      if s[0] == '\n' then [""] + rest
      else [[s[0]] + rest[0]] + rest[1..]
  }

  predicate NoNewlines(segs: seq<string>) {
    forall i :: 0 <= i < |segs| ==> '\n' !in segs[i]
  }

  /** No segment holds a '\n', and joining the segments with '\n' gives back `s`. */
  lemma {:induction false} SplitSpec(s: string)
    ensures NoNewlines(Split(s))
    ensures Join(Split(s)) == s
    decreases |s|
  {
    if s != [] {
      var rest := Split(s[1..]);
      SplitSpec(s[1..]);
      var r := Split(s);
      if s[0] == '\n' {
        assert r == [""] + rest;
        assert r[1..] == rest;
        assert forall i :: 1 <= i < |r| ==> r[i] == rest[i - 1];
      } else {
        assert r == [[s[0]] + rest[0]] + rest[1..];
        assert r[1..] == rest[1..];
        assert forall i :: 1 <= i < |r| ==> r[i] == rest[i];
        if |rest| > 1 {
          assert Join(rest) == rest[0] + "\n" + Join(rest[1..]);
        }
        assert s == [s[0]] + s[1..];
      }
    }
  }

  /** Every segment but the last: the lines the buffer completes. */
  function CompleteLines(s: string): seq<string> {
    Split(s)[..|Split(s)| - 1]
  }

  /** The last segment: what is carried over to the next chunk (line 125). */
  function Carry(s: string): string {
    Split(s)[|Split(s)| - 1]
  }

  /** The segments are the complete lines followed by the carry-over. */
  lemma SplitParts(s: string)
    ensures Split(s) == CompleteLines(s) + [Carry(s)]
    ensures '\n' !in Carry(s)
  {
    SplitSpec(s);
  }

  lemma {:induction false} SplitNoNewline(s: string)
    requires '\n' !in s
    ensures Split(s) == [s]
    decreases |s|
  {
    if s != [] {
      SplitNoNewline(s[1..]);
      assert [s[0]] + s[1..] == s;
    }
  }

  lemma {:induction false} SplitAfterLine(a: string, b: string)
    requires '\n' !in a
    ensures Split(a + "\n" + b) == [a] + Split(b)
    decreases |a|
  {
    if a == [] {
      assert a + "\n" + b == "\n" + b;
      assert ("\n" + b)[1..] == b;
    } else {
      SplitAfterLine(a[1..], b);
      assert (a + "\n" + b)[1..] == a[1..] + "\n" + b;
      assert [a[0]] + a[1..] == a;
    }
  }

  lemma {:induction false} SplitLineFirst(a: string, b: string)
    requires '\n' !in a
    ensures Split(a + ("\n" + b)) == [a] + Split(b)
  {
    Regroup(a, "\n", b);
    SplitAfterLine(a, b);
  }

  /** Split undoes Join: the segments between the '\n's are recovered exactly. */
  lemma {:induction false} SplitJoin(segs: seq<string>)
    requires |segs| >= 1 && NoNewlines(segs)
    ensures Split(Join(segs)) == segs
    decreases |segs|
  {
    if |segs| == 1 {
      SplitNoNewline(segs[0]);
    } else {
      SplitJoin(segs[1..]);
      SplitAfterLine(segs[0], Join(segs[1..]));
      assert [segs[0]] + segs[1..] == segs;
    }
  }

  lemma {:induction false} JoinAppend(a: seq<string>, b: seq<string>)
    requires |a| >= 1 && |b| >= 1
    ensures Join(a + b) == Join(a) + "\n" + Join(b)
    decreases |a|
  {
    if |a| == 1 {
      assert (a + b)[1..] == b;
    } else {
      JoinAppend(a[1..], b);
      assert (a + b)[1..] == a[1..] + b;
    }
  }

  lemma NoNewlinesAppend(a: seq<string>, b: seq<string>)
    requires NoNewlines(a) && NoNewlines(b)
    ensures NoNewlines(a + b)
  {
    forall i | 0 <= i < |a + b| ensures '\n' !in (a + b)[i] {
      if i < |a| { assert (a + b)[i] == a[i]; } else { assert (a + b)[i] == b[i - |a|]; }
    }
  }

  /** The complete lines and the carry-over, joined back, are `x`. */
  lemma CompleteLinesSpec(x: string)
    ensures Split(x) == CompleteLines(x) + [Carry(x)]
    ensures NoNewlines(CompleteLines(x)) && '\n' !in Carry(x)
    ensures CompleteLines(x) == [] ==> Carry(x) == x
    ensures CompleteLines(x) != [] ==> Join(CompleteLines(x)) + "\n" + Carry(x) == x
  {
    SplitSpec(x);
    JoinLast(Split(x));
  }

  /** Any list of newline-free segments is its init followed by its last one, joined with one '\n'. */
  lemma JoinLast(s: seq<string>)
    requires |s| >= 1 && NoNewlines(s)
    ensures s == s[..|s| - 1] + [s[|s| - 1]]
    ensures NoNewlines(s[..|s| - 1]) && '\n' !in s[|s| - 1]
    ensures |s| >= 2 ==> Join(s) == Join(s[..|s| - 1]) + "\n" + s[|s| - 1]
    ensures |s| == 1 ==> Join(s) == s[0]
  {
    var lines, carry := s[..|s| - 1], s[|s| - 1];
    InitLast(s);
    assert forall i :: 0 <= i < |lines| ==> lines[i] == s[i];
    if |s| >= 2 {
      JoinAppend(lines, [carry]);
      assert Join([carry]) == carry;
    }
  }

  /**
   * Splitting `x + y` keeps the complete lines of `x` and re-splits the
   * carry-over of `x` together with `y`.
   */
  lemma SplitAppend(x: string, y: string)
    ensures Split(x + y) == CompleteLines(x) + Split(Carry(x) + y)
  {
    var lines, carry := CompleteLines(x), Carry(x);
    var t := Split(carry + y);
    CompleteLinesSpec(x);
    SplitSpec(carry + y);
    NoNewlinesAppend(lines, t);
    if lines == [] {
      assert lines + t == t;
    } else {
      JoinAppend(lines, t);
      Regroup(Join(lines) + "\n", carry, y);
    }
    SplitJoin(lines + t);
  }

  /** Complete lines do not depend on where a chunk boundary falls. */
  lemma CompleteLinesAppend(x: string, y: string)
    ensures CompleteLines(x + y) == CompleteLines(x) + CompleteLines(Carry(x) + y)
    ensures Carry(x + y) == Carry(Carry(x) + y)
  {
    SplitAppend(x, y);
    AppendDropLast(CompleteLines(x), Split(Carry(x) + y));
  }

  function Concat(chunks: seq<string>): string {
    if chunks == [] then "" else chunks[0] + Concat(chunks[1..])
  }

  /** The lines completed, in order, while feeding `chunks` one at a time from buffer `buf`. */
  function Delivered(buf: string, chunks: seq<string>): seq<string>
    decreases |chunks|
  {
    if chunks == [] then [] else
      CompleteLines(buf + chunks[0]) + Delivered(Carry(buf + chunks[0]), chunks[1..])
  }

  /** The buffer left after feeding `chunks` one at a time from buffer `buf`. */
  function FinalBuffer(buf: string, chunks: seq<string>): string
    decreases |chunks|
  {
    if chunks == [] then buf else FinalBuffer(Carry(buf + chunks[0]), chunks[1..])
  }

  /**
   * Feeding the chunks one by one completes the same lines, in the same
   * order, as feeding their concatenation at once, and leaves the same
   * buffer: the last segment of the whole text, never delivered as a line.
   */
  lemma {:induction false} DeliveredConcat(buf: string, chunks: seq<string>)
    requires '\n' !in buf
    ensures Delivered(buf, chunks) + [FinalBuffer(buf, chunks)] == Split(buf + Concat(chunks))
    decreases |chunks|
  {
    if chunks == [] {
      DeliveredNone(buf, chunks);
    } else {
      var c, tail := chunks[0], chunks[1..];
      var carry := Carry(buf + c);
      SplitParts(buf + c);
      DeliveredConcat(carry, tail);
      DeliveredCons(buf, chunks);
    }
  }

  lemma DeliveredNone(buf: string, chunks: seq<string>)
    requires '\n' !in buf && chunks == []
    ensures Delivered(buf, chunks) + [FinalBuffer(buf, chunks)] == Split(buf + Concat(chunks))
  {
    assert buf + Concat(chunks) == buf;
    SplitNoNewline(buf);
  }

  lemma DeliveredCons(buf: string, chunks: seq<string>)
    requires chunks != []
    requires Delivered(Carry(buf + chunks[0]), chunks[1..]) + [FinalBuffer(Carry(buf + chunks[0]), chunks[1..])]
             == Split(Carry(buf + chunks[0]) + Concat(chunks[1..]))
    ensures Delivered(buf, chunks) + [FinalBuffer(buf, chunks)] == Split(buf + Concat(chunks))
  {
    var carry := Carry(buf + chunks[0]);
    var lines, later, last := CompleteLines(buf + chunks[0]), Delivered(carry, chunks[1..]), FinalBuffer(carry, chunks[1..]);
    assert Delivered(buf, chunks) == lines + later && FinalBuffer(buf, chunks) == last;
    SplitConcat(buf, chunks);
    Regroup(lines, later, [last]);
  }

  lemma SplitConcat(buf: string, chunks: seq<string>)
    requires chunks != []
    ensures Split(buf + Concat(chunks))
            == CompleteLines(buf + chunks[0]) + Split(Carry(buf + chunks[0]) + Concat(chunks[1..]))
  {
    var rest := Concat(chunks[1..]);
    assert buf + Concat(chunks) == (buf + chunks[0]) + rest;
    SplitAppend(buf + chunks[0], rest);
  }
}
