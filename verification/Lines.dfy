/** Byte streams as LF-terminated lines, with an unterminated rest. */
module Lines {
  import opened Prelude

  const LF: Byte := 0x0a

  /** Every line followed by a line feed. */
  function Join(lines: seq<Bytes>): Bytes {
    if lines == [] then [] else Join(lines[..|lines| - 1]) + (lines[|lines| - 1] + [LF])
  }

  /** The index just after the last line feed, or 0. */
  function AfterLastLf(b: Bytes): (n: nat)
    ensures n <= |b|
  {
    if b == [] then 0 else if b[|b| - 1] == LF then |b| else AfterLastLf(b[..|b| - 1])
  }

  /** The lines of a stream that is empty or ends in a line feed. */
  function LinesOf(b: Bytes): seq<Bytes>
    decreases |b|
  {
    if b == [] then []
    else
      var body := b[..|b| - 1];
      var p := AfterLastLf(body);
      LinesOf(body[..p]) + [body[p..]]
  }

  /** The terminated part of a stream, and the rest. */
  function Terminated(stream: Bytes): Bytes {
    stream[..AfterLastLf(stream)]
  }

  function Unterminated(stream: Bytes): Bytes {
    stream[AfterLastLf(stream)..]
  }

  predicate LfFree(b: Bytes) {
    LF !in b
  }

  predicate AllLfFree(lines: seq<Bytes>) {
    forall i | 0 <= i < |lines| :: LfFree(lines[i])
  }

  lemma JoinSnoc(lines: seq<Bytes>, line: Bytes)
    ensures Join(lines + [line]) == Join(lines) + line + [LF]
  {
    assert (lines + [line])[..|lines|] == lines;
    assert Join(lines) + (line + [LF]) == Join(lines) + line + [LF];
  }

  lemma {:induction false} AfterLastLfOf(head: Bytes, tail: Bytes)
    requires LfFree(tail) && (head != [] ==> head[|head| - 1] == LF)
    ensures AfterLastLf(head + tail) == |head|
    decreases |tail|
  {
    var s := head + tail;
    if tail == [] {
      assert s == head;
    } else {
      assert s[|s| - 1] == tail[|tail| - 1];
      assert s[..|s| - 1] == head + tail[..|tail| - 1];
      AfterLastLfOf(head, tail[..|tail| - 1]);
    }
  }

  lemma {:induction false} AfterLastLfIs(b: Bytes)
    ensures LfFree(b[AfterLastLf(b)..])
    ensures AfterLastLf(b) > 0 ==> b[AfterLastLf(b) - 1] == LF
  {
    if b != [] && b[|b| - 1] != LF {
      var c := b[..|b| - 1];
      AfterLastLfIs(c);
      assert b[AfterLastLf(b)..] == c[AfterLastLf(c)..] + [b[|b| - 1]];
    }
  }

  lemma JoinEndsInLf(lines: seq<Bytes>)
    ensures Join(lines) == [] <==> lines == []
    ensures lines != [] ==> Join(lines)[|Join(lines)| - 1] == LF
  {
  }

  /** Splitting joined lines gives the lines. */
  lemma {:induction false} LinesOfJoin(lines: seq<Bytes>)
    requires AllLfFree(lines)
    ensures LinesOf(Join(lines)) == lines
    decreases |lines|
  {
    if lines != [] {
      var init, last := lines[..|lines| - 1], lines[|lines| - 1];
      var b := Join(lines);
      assert b[..|b| - 1] == Join(init) + last;
      JoinEndsInLf(init);
      AfterLastLfOf(Join(init), last);
      assert b[..|b| - 1][..|Join(init)|] == Join(init);
      assert b[..|b| - 1][|Join(init)|..] == last;
      LinesOfJoin(init);
      assert lines == init + [last];
    }
  }

  lemma SplitStream(lines: seq<Bytes>, tail: Bytes)
    requires AllLfFree(lines) && LfFree(tail)
    ensures Terminated(Join(lines) + tail) == Join(lines)
    ensures Unterminated(Join(lines) + tail) == tail
    ensures LinesOf(Terminated(Join(lines) + tail)) == lines
  {
    JoinEndsInLf(lines);
    AfterLastLfOf(Join(lines), tail);
    LinesOfJoin(lines);
  }

  /** Joining the lines of a terminated stream gives the stream. */
  lemma {:induction false} JoinLinesOf(b: Bytes)
    requires b != [] ==> b[|b| - 1] == LF
    ensures Join(LinesOf(b)) == b && AllLfFree(LinesOf(b))
    decreases |b|
  {
    if b != [] {
      var body := b[..|b| - 1];
      var p := AfterLastLf(body);
      AfterLastLfIs(body);
      JoinLinesOf(body[..p]);
      JoinSnoc(LinesOf(body[..p]), body[p..]);
      assert b == body[..p] + body[p..] + [LF];
    }
  }

  lemma StreamIsJoined(stream: Bytes)
    ensures stream == Join(LinesOf(Terminated(stream))) + Unterminated(stream)
    ensures AllLfFree(LinesOf(Terminated(stream))) && LfFree(Unterminated(stream))
  {
    AfterLastLfIs(stream);
    JoinLinesOf(Terminated(stream));
    assert stream == stream[..AfterLastLf(stream)] + stream[AfterLastLf(stream)..];
  }

  /** A buffered reader over a stream of bytes. */
  class Reader {
    const data: Bytes
    var position: nat

    ghost predicate Valid()
      reads this
    {
      position <= |data|
    }

    constructor (data: Bytes)
      ensures Valid() && this.data == data && position == 0
    {
      this.data, position := data, 0;
    }

    /** Reads through the next line feed, or to the end of the stream. */
    method ReadUntilLf() returns (chunk: Bytes)
      requires Valid()
      modifies this
      ensures Valid() && old(position) <= position && chunk == data[old(position)..position]
      ensures chunk == [] <==> old(position) == |data|
      ensures chunk != [] ==> LfFree(chunk[..|chunk| - 1])
      ensures chunk != [] && chunk[|chunk| - 1] != LF ==> position == |data|
    {
      var start := position;
      while position < |data| && data[position] != LF
        invariant start <= position <= |data|
        invariant LfFree(data[start..position])
        decreases |data| - position
      {
        assert data[start..position + 1] == data[start..position] + [data[position]];
        position := position + 1;
      }
      if position < |data| {
        assert data[start..position + 1][..position - start] == data[start..position];
        position := position + 1;
      } else if start < |data| {
        assert forall b | b in data[start..position][..position - start - 1] :: b in data[start..position];
      }
      chunk := data[start..position];
    }
  }
}
