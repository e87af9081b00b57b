// Newline framing of the event streams: whatever way the bytes arrive in chunks.
module Framing {
  import opened Wrappers
  import opened Sequences
  import opened DnsNames

  const NEWLINE: byte := 10

  /** The bytes received until the peer closes: an empty chunk ends the stream. */
  function Received(chunks: seq<seq<byte>>): seq<byte> {
    if chunks == [] || chunks[0] == [] then [] else chunks[0] + Received(chunks[1..])
  }

  /** Everything before the last newline, cut into lines. */
  function CompleteLines(data: seq<byte>): seq<seq<byte>> {
    Split(data, NEWLINE)[..|Split(data, NEWLINE)| - 1]
  }

  /** What follows the last newline: the unfinished line. */
  function Unfinished(data: seq<byte>): (line: seq<byte>)
    ensures NEWLINE !in line
  {
    Split(data, NEWLINE)[|Split(data, NEWLINE)| - 1]
  }

  /** What a line decodes to. Nothing is yielded for malformed JSON, heartbeats and other messages;
      JSON that is no object raises an exception outside the handler. */
  datatype Decoded<E> = Nothing | Event(event: E) | Raised

  /** Empty lines are not decoded. */
  function Decode<E>(line: seq<byte>, decode: seq<byte> -> Decoded<E>): Decoded<E> {
    if line == [] then Nothing else decode(line)
  }

  predicate Breaks<E>(lines: seq<seq<byte>>, decode: seq<byte> -> Decoded<E>) {
    exists i :: 0 <= i < |lines| && Decode(lines[i], decode).Raised?
  }

  /** The events of some lines, in order, up to the first line that raises. */
  function Events<E>(lines: seq<seq<byte>>, decode: seq<byte> -> Decoded<E>): seq<E> {
    if lines == [] then []
    else
      match Decode(lines[0], decode)
      case Raised => []
      case Nothing => Events(lines[1..], decode)
      case Event(e) => [e] + Events(lines[1..], decode)
  }

  lemma BreaksConcat<E>(a: seq<seq<byte>>, b: seq<seq<byte>>, decode: seq<byte> -> Decoded<E>)
    ensures Breaks(a + b, decode) <==> Breaks(a, decode) || Breaks(b, decode)
  {
    if Breaks(b, decode) {
      var i :| 0 <= i < |b| && Decode(b[i], decode).Raised?;
      assert (a + b)[|a| + i] == b[i];
    }
    if Breaks(a, decode) {
      var i :| 0 <= i < |a| && Decode(a[i], decode).Raised?;
      assert (a + b)[i] == a[i];
    }
  }

  lemma {:induction false} EventsConcat<E>(a: seq<seq<byte>>, b: seq<seq<byte>>, decode: seq<byte> -> Decoded<E>)
    ensures Events(a + b, decode) == Events(a, decode) + if Breaks(a, decode) then [] else Events(b, decode)
  {
    if a == [] {
      assert a + b == b;
    } else {
      assert (a + b)[1..] == a[1..] + b;
      EventsConcat(a[1..], b, decode);
      BreaksConcat([a[0]], a[1..], decode);
      assert [a[0]] + a[1..] == a;
      assert Breaks([a[0]], decode) <==> Decode(a[0], decode).Raised? by {
        if Decode(a[0], decode).Raised? { assert Decode([a[0]][0], decode).Raised?; }
      }
    }
  }

  lemma EventsOfOne<E>(line: seq<byte>, decode: seq<byte> -> Decoded<E>)
    ensures Breaks([line], decode) <==> Decode(line, decode).Raised?
    ensures Events([line], decode) == if Decode(line, decode).Event? then [Decode(line, decode).event] else []
  {
    if Decode(line, decode).Raised? {
      assert Decode([line][0], decode).Raised?;
    }
    assert [line][1..] == [];
  }

  function IndexOf(s: seq<byte>, b: byte): (i: nat)
    requires b in s
    ensures i < |s| && s[i] == b && b !in s[..i]
  {
    if s[0] == b then 0 else 1 + IndexOf(s[1..], b)
  }

  /** The cut of the first line: `buffer.split(b"\n", 1)`. */
  lemma SplitFirst(buffer: seq<byte>)
    requires NEWLINE in buffer
    ensures var i := IndexOf(buffer, NEWLINE);
            Split(buffer, NEWLINE) == [buffer[..i]] + Split(buffer[i + 1..], NEWLINE)
  {
    var i := IndexOf(buffer, NEWLINE);
    assert buffer == buffer[..i] + [NEWLINE] + buffer[i + 1..];
    SplitAround(buffer[..i], NEWLINE, buffer[i + 1..]);
    SplitPlain(buffer[..i], NEWLINE);
  }

  lemma SplitIs(data: seq<byte>, lines: seq<seq<byte>>, last: seq<byte>)
    requires Split(data, NEWLINE) == lines + [last]
    ensures CompleteLines(data) == lines && Unfinished(data) == last
  {
  }

  /** One more line of many. */
  lemma NextLine<E>(lines: seq<seq<byte>>, line: seq<byte>, rest: seq<seq<byte>>, decode: seq<byte> -> Decoded<E>)
    requires !Breaks(lines, decode)
    ensures Breaks(lines + [line], decode) <==> Decode(line, decode).Raised?
    ensures Events(lines + [line], decode) ==
            Events(lines, decode) + if Decode(line, decode).Event? then [Decode(line, decode).event] else []
    ensures Decode(line, decode).Raised? ==>
              Breaks(lines + [line] + rest, decode) && Events(lines + [line] + rest, decode) == Events(lines, decode)
  {
    EventsOfOne(line, decode);
    BreaksConcat(lines, [line], decode);
    EventsConcat(lines, [line], decode);
    BreaksConcat(lines + [line], rest, decode);
    EventsConcat(lines + [line], rest, decode);
  }

  /** The lines in the buffer are taken out and their events yielded, until no newline is left or a
      line raises. */
  method DrainBuffer<E>(pending: seq<byte>, decode: seq<byte> -> Decoded<E>)
    returns (events: seq<E>, buffer: seq<byte>, raised: bool)
    ensures raised <==> Breaks(CompleteLines(pending), decode)
    ensures events == Events(CompleteLines(pending), decode)
    ensures !raised ==> buffer == Unfinished(pending)
  {
    events, buffer, raised := [], pending, false;
    ghost var lines: seq<seq<byte>> := [];
    while NEWLINE in buffer
      invariant Split(pending, NEWLINE) == lines + Split(buffer, NEWLINE)
      invariant events == Events(lines, decode) && !Breaks(lines, decode)
      decreases |buffer|
    {
      var i := IndexOf(buffer, NEWLINE);
      SplitFirst(buffer);
      var line := buffer[..i];
      buffer := buffer[i + 1..];
      NextLine(lines, line, CompleteLines(buffer), decode);
      LastIsCut(pending, lines, line, buffer);
      lines := lines + [line];
      if line != [] {
        var decoded := decode(line);
        if decoded.Raised? {
          raised := true;
          return;
        }
        if decoded.Event? {
          events := events + [decoded.event];
        }
      }
    }
    SplitPlain(buffer, NEWLINE);
    SplitIs(pending, lines, buffer);
  }

  lemma LastIsCut(pending: seq<byte>, lines: seq<seq<byte>>, line: seq<byte>, rest: seq<byte>)
    requires Split(pending, NEWLINE) == lines + ([line] + Split(rest, NEWLINE))
    ensures CompleteLines(pending) == lines + [line] + CompleteLines(rest)
    ensures Split(pending, NEWLINE) == lines + [line] + Split(rest, NEWLINE)
  {
    InitOfConcat(lines + [line], Split(rest, NEWLINE));
    assert lines + ([line] + Split(rest, NEWLINE)) == lines + [line] + Split(rest, NEWLINE);
  }

  /** More bytes: the lines already complete, then those that the unfinished line and the new bytes
      make together. */
  lemma LinesConcat(seen: seq<byte>, chunk: seq<byte>)
    ensures CompleteLines(seen + chunk) == CompleteLines(seen) + CompleteLines(Unfinished(seen) + chunk)
    ensures Unfinished(seen + chunk) == Unfinished(Unfinished(seen) + chunk)
  {
    var more := Unfinished(seen) + chunk;
    SplitAppend(seen, NEWLINE, chunk);
    InitOfConcat(CompleteLines(seen), Split(more, NEWLINE));
  }

  lemma InitOfConcat<T>(a: seq<T>, b: seq<T>)
    requires b != []
    ensures (a + b)[..|a + b| - 1] == a + b[..|b| - 1]
  {
  }

  lemma {:induction false} ReceivedPrefix(chunks: seq<seq<byte>>, i: nat)
    requires i < |chunks| && forall k :: 0 <= k < i ==> chunks[k] != []
    ensures Received(chunks[..i + 1]) == Received(chunks[..i]) + chunks[i]
    ensures chunks[i] == [] ==> Received(chunks) == Received(chunks[..i])
    ensures Received(chunks[..i + 1]) <= Received(chunks)
  {
    if i > 0 {
      ReceivedPrefix(chunks[1..], i - 1);
      assert chunks[..i + 1][1..] == chunks[1..][..i];
      assert chunks[..i][1..] == chunks[1..][..i - 1];
    }
  }

  /** Cut into chunks, a stream is received as it was sent, up to the first empty chunk. */
  lemma {:induction false} ReceivedExactly(chunks: seq<seq<byte>>, rest: seq<seq<byte>>)
    requires forall i :: 0 <= i < |chunks| ==> chunks[i] != []
    ensures Received(chunks + [[]] + rest) == Received(chunks)
    ensures chunks != [] ==> Received(chunks) == chunks[0] + Received(chunks[1..])
  {
    var all := chunks + [[]] + rest;
    if chunks == [] {
      assert all[0] == [];
    } else {
      ReceivedExactly(chunks[1..], rest);
      assert all[1..] == chunks[1..] + [[]] + rest && all[0] == chunks[0];
    }
  }

  /** What has been read decides, once a line in it raises. */
  lemma BrokenStays<E>(seen: seq<byte>, all: seq<byte>, decode: seq<byte> -> Decoded<E>)
    requires seen <= all && Breaks(CompleteLines(seen), decode)
    ensures Breaks(CompleteLines(all), decode) && Events(CompleteLines(all), decode) == Events(CompleteLines(seen), decode)
  {
    var rest := all[|seen|..];
    assert all == seen + rest;
    LinesConcat(seen, rest);
    BreaksConcat(CompleteLines(seen), CompleteLines(Unfinished(seen) + rest), decode);
    EventsConcat(CompleteLines(seen), CompleteLines(Unfinished(seen) + rest), decode);
  }

  /** The streaming loop. Its result depends on the bytes only, not on how they were cut: the events
      of the complete lines, in order, before the first one that raises; that exception ends the
      stream. A partial line at the end stays in the buffer. */
  method Stream<E>(chunks: seq<seq<byte>>, decode: seq<byte> -> Decoded<E>)
    returns (events: seq<E>, buffer: seq<byte>, raised: bool)
    ensures raised <==> Breaks(CompleteLines(Received(chunks)), decode)
    ensures events == Events(CompleteLines(Received(chunks)), decode)
    ensures !raised ==> buffer == Unfinished(Received(chunks))
  {
    events, buffer, raised := [], [], false;
    ghost var seen: seq<byte> := [];
    for i := 0 to |chunks|
      invariant forall k :: 0 <= k < i ==> chunks[k] != []
      invariant seen == Received(chunks[..i])
      invariant events == Events(CompleteLines(seen), decode) && !Breaks(CompleteLines(seen), decode)
      invariant buffer == Unfinished(seen) && !raised
    {
      ReceivedPrefix(chunks, i);
      if chunks[i] == [] {
        return;
      }
      LinesConcat(seen, chunks[i]);
      EventsConcat(CompleteLines(seen), CompleteLines(buffer + chunks[i]), decode);
      BreaksConcat(CompleteLines(seen), CompleteLines(buffer + chunks[i]), decode);
      var more;
      more, buffer, raised := DrainBuffer(buffer + chunks[i], decode);
      events := events + more;
      seen := seen + chunks[i];
      if raised {
        BrokenStays(seen, Received(chunks), decode);
        return;
      }
    }
    assert chunks[..|chunks|] == chunks;
  }

  /** Framing undoes framing: lines without newlines, each sent with one, arrive as they were, followed
      by nothing; what is sent behind the last newline does not arrive as a line. */
  lemma SentLinesArrive(lines: seq<seq<byte>>, partial: seq<byte>)
    requires forall i :: 0 <= i < |lines| ==> NEWLINE !in lines[i]
    requires NEWLINE !in partial
    ensures CompleteLines(Join(lines + [partial], NEWLINE)) == lines
  {
    var all := lines + [partial];
    assert forall i :: 0 <= i < |all| ==> NEWLINE !in all[i];
    SplitJoin(all, NEWLINE);
    SplitIs(Join(all, NEWLINE), lines, partial);
  }
}
