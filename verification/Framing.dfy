/** One line from a socket: the outcome depends on the bytes and on how they end, not on how they arrive. */
module Framing {
  import opened Prelude
  import opened Lines
  import Utf8

  datatype ReadError = MissingNewline | TooLarge | EmptyPayload | InvalidUtf8 | ReadTimeout | SocketFailed

  /** What a receive call meets after the last byte: the peer has shut down, sends no more in time, or is lost. */
  datatype Ending = Shut | Silent | Lost

  function EndingError(ending: Ending): ReadError {
    match ending
    case Shut => MissingNewline
    case Silent => ReadTimeout
    case Lost => SocketFailed
  }

  /** The index of the first line feed, or the length if there is none. */
  function FirstLf(data: Bytes): (n: nat)
    ensures n <= |data| && LF !in data[..n]
    ensures n < |data| ==> data[n] == LF
  {
    if data == [] || data[0] == LF then 0
    else
      var n := FirstLf(data[1..]);
      assert data[..n + 1] == [data[0]] + data[1..][..n];
      n + 1
  }

  /** What reading one line of at most `limit` bytes makes of everything that the peer sends. */
  function Frame(data: Bytes, ending: Ending, limit: nat): Result<string, ReadError> {
    var n := FirstLf(data);
    if n > limit then Err(TooLarge)
    else if n == |data| then Err(EndingError(ending))
    else if n == 0 then Err(EmptyPayload)
    else
      match Utf8.Decode(data[..n])
      case None => Err(InvalidUtf8)
      case Some(text) => Ok(text)
  }

  lemma {:induction false} FirstLfAfter(before: Bytes, rest: Bytes)
    requires LF !in before
    ensures FirstLf(before + rest) == |before| + FirstLf(rest)
  {
    if before == [] {
      assert before + rest == rest;
    } else {
      assert (before + rest)[1..] == before[1..] + rest;
      FirstLfAfter(before[1..], rest);
    }
  }

  /** The text before the first line feed counts, if its length is between 1 and the limit; nothing after it does. */
  lemma FrameOfLine(line: Bytes, rest: Bytes, ending: Ending, limit: nat)
    requires LF !in line
    ensures Frame(line + ([LF] + rest), ending, limit) ==
            if |line| > limit then Err(TooLarge)
            else if line == [] then Err(EmptyPayload)
            else match Utf8.Decode(line) case None => Err(InvalidUtf8) case Some(text) => Ok(text)
    ensures Frame(line, ending, limit) == if |line| > limit then Err(TooLarge) else Err(EndingError(ending))
  {
    FirstLfAfter(line, [LF] + rest);
    assert (line + ([LF] + rest))[..|line|] == line;
    FirstLfAfter(line, []);
    assert line + [] == line;
  }

  /** A connected peer: what it sends, how that ends, and how many bytes each receive call is given. */
  class Socket {
    const data: Bytes
    const ending: Ending
    const arrival: nat -> nat
    var position: nat
    var calls: nat

    ghost predicate Valid()
      reads this
    {
      position <= |data|
    }

    constructor (data: Bytes, ending: Ending, arrival: nat -> nat)
      ensures Valid() && this.data == data && this.ending == ending && this.arrival == arrival && position == 0
    {
      this.data, this.ending, this.arrival := data, ending, arrival;
      position, calls := 0, 0;
    }

    /** Some of the next bytes, at least one and at most `max`; at the end nothing, or an exception. */
    method Receive(max: nat) returns (r: Result<Bytes, ReadError>)
      requires Valid() && max > 0
      modifies this
      ensures Valid() && old(position) <= position
      ensures old(position) == |data| ==> r == if ending.Shut? then Ok([]) else Err(EndingError(ending))
      ensures old(position) < |data| ==> r == Ok(data[old(position)..position]) && 0 < |r.value| <= max
    {
      if position == |data| {
        return if ending.Shut? then Ok([]) else Err(EndingError(ending));
      }
      var start := position;
      var wanted := if arrival(calls) == 0 then 1 else arrival(calls);
      var most := if wanted < max then wanted else max;
      position := if most < |data| - start then start + most else |data|;
      calls := calls + 1;
      r := Ok(data[start..position]);
    }
  }

  method Find(chunk: Bytes) returns (index: Option<nat>)
    ensures index == if FirstLf(chunk) < |chunk| then Some(FirstLf(chunk)) else None
  {
    var n := FirstLf(chunk);
    index := if n < |chunk| then Some(n) else None;
  }

  /** The first line feed of a chunk is that of everything from its start. */
  lemma ChunkLf(rest: Bytes, chunk: Bytes)
    requires chunk <= rest
    ensures FirstLf(chunk) < |chunk| ==> FirstLf(rest) == FirstLf(chunk)
    ensures FirstLf(chunk) == |chunk| ==> LF !in chunk
  {
    var n := FirstLf(chunk);
    if n < |chunk| {
      assert rest == chunk[..n] + rest[n..];
      FirstLfAfter(chunk[..n], rest[n..]);
    } else {
      assert chunk[..n] == chunk;
    }
  }

  /** The checks after the loop. */
  method Text(payload: Bytes, limit: nat) returns (r: Result<string, ReadError>)
    ensures |payload| > limit ==> r == Err(TooLarge)
    ensures payload == [] ==> r == Err(EmptyPayload)
    ensures 0 < |payload| <= limit ==>
              r == match Utf8.Decode(payload) case None => Err(InvalidUtf8) case Some(text) => Ok(text)
  {
    if |payload| > limit {
      return Err(TooLarge);
    }
    if payload == [] {
      return Err(EmptyPayload);
    }
    var text := Utf8.Decode(payload);
    r := if text.None? then Err(InvalidUtf8) else Ok(text.value);
  }

  datatype Part = Ended(error: ReadError) | Last(bytes: Bytes) | More(bytes: Bytes)

  /** One receive call: what it adds to the payload, and whether the line ends with it. */
  method ReceivePart(socket: Socket, payload: Bytes, limit: nat) returns (part: Part)
    requires socket.Valid() && payload == socket.data[..socket.position] && LF !in payload && |payload| <= limit
    modifies socket
    ensures socket.Valid()
    ensures part.Ended? ==> socket.data == payload && part.error == EndingError(socket.ending)
    ensures part.Last? ==> FirstLf(socket.data) == |payload + part.bytes| < |socket.data|
    ensures part.Last? ==> payload + part.bytes == socket.data[..|payload + part.bytes|]
    ensures part.More? ==> part.bytes != [] && LF !in part.bytes && |payload + part.bytes| <= limit + 1
    ensures part.More? ==> payload + part.bytes == socket.data[..socket.position]
  {
    ghost var rest := socket.data[socket.position..];
    assert socket.data == payload + rest;
    var room := limit + 1 - |payload|;
    var received := socket.Receive(if room < 4096 then room else 4096);
    if received.Err? {
      return Ended(received.error);
    }
    var chunk := received.value;
    FirstLfAfter(payload, rest);
    ChunkLf(rest, chunk);
    if chunk == [] {
      return Ended(MissingNewline);
    }
    var newline := Find(chunk);
    part := if newline.Some? then Last(chunk[..newline.value]) else More(chunk);
  }

  lemma NoLfWithin(data: Bytes, payload: Bytes)
    requires payload <= data && LF !in payload
    ensures FirstLf(data) >= |payload|
    ensures payload == data ==> FirstLf(data) == |data|
  {
    assert data == payload + data[|payload|..];
    FirstLfAfter(payload, data[|payload|..]);
  }

  /** However the bytes are split into chunks, the result is that of the whole. */
  method ReadJsonLine(socket: Socket, limit: nat) returns (r: Result<string, ReadError>)
    requires socket.Valid() && socket.position == 0
    modifies socket
    ensures socket.Valid() && r == Frame(socket.data, socket.ending, limit)
  {
    var payload: Bytes := [];
    while |payload| <= limit
      invariant socket.Valid() && payload == socket.data[..socket.position]
      invariant LF !in payload && |payload| <= limit + 1
      decreases limit + 1 - |payload|
    {
      NoLfWithin(socket.data, payload);
      var part := ReceivePart(socket, payload, limit);
      if part.Ended? {
        return Err(part.error);
      }
      payload := payload + part.bytes;
      if part.Last? {
        r := Text(payload, limit);
        return;
      }
    }
    NoLfWithin(socket.data, payload);
    r := Err(TooLarge);
  }
}
