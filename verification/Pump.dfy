/**
  Reading a tool's output as it arrives (modules/exec.py): chunks of bytes in, lines out.
*/
module Pump {
  import opened Splitting

  newtype byte = x: int | 0 <= x < 256

  const NEWLINE: byte := 10

  function Concat(chunks: seq<seq<byte>>): seq<byte> {
    if chunks == [] then [] else chunks[0] + Concat(chunks[1..])
  }

  /** What is read: the chunks before the first empty one, which means end of stream. */
  function UntilEnd(chunks: seq<seq<byte>>): (read: seq<seq<byte>>)
    ensures read <= chunks && [] !in read && (|read| < |chunks| ==> chunks[|read|] == [])
  {
    if chunks == [] || chunks[0] == [] then [] else [chunks[0]] + UntilEnd(chunks[1..])
  }

  /** The lines of a text: a last line without a newline counts if there is anything on it. */
  function Lines(text: seq<byte>): seq<seq<byte>> {
    var parts := Split(text, NEWLINE);
    if parts[|parts| - 1] == [] then parts[..|parts| - 1] else parts
  }

  function Decoded(lines: seq<seq<byte>>, decode: seq<byte> -> string): (out: seq<string>)
    ensures |out| == |lines| && forall i :: 0 <= i < |lines| ==> out[i] == decode(lines[i])
  {
    seq(|lines|, i requires 0 <= i < |lines| => decode(lines[i]))
  }

  /** Text that arrives later only continues the last piece. */
  lemma SplitAppend(a: seq<byte>, c: seq<byte>)
    ensures var parts := Split(a, NEWLINE);
            Split(a + c, NEWLINE) == parts[..|parts| - 1] + Split(parts[|parts| - 1] + c, NEWLINE)
  {
    hide Split, Join;
    var parts := Split(a, NEWLINE);
    var front, last := parts[..|parts| - 1], parts[|parts| - 1];
    JoinSplit(a, NEWLINE);
    PiecesAreClean(a, NEWLINE);
    assert parts == front + [last];
    JoinOfOne(last);
    if front == [] {
      assert parts == [last];
    } else {
      JoinConcat(front, [last], NEWLINE);
      SplitJoin(front, NEWLINE);
      SplitConcat(Join(front, NEWLINE), last + c, NEWLINE);
      assert a + c == Join(front, NEWLINE) + [NEWLINE] + (last + c);
    }
  }

  method FirstNewline(buf: seq<byte>) returns (i: nat)
    ensures i <= |buf| && NEWLINE !in buf[..i] && (i < |buf| ==> buf[i] == NEWLINE)
  {
    i := 0;
    while i < |buf| && buf[i] != NEWLINE
      invariant i <= |buf| && NEWLINE !in buf[..i]
    {
      i := i + 1;
    }
  }

  /** However the stream is cut into chunks, the sink receives the decoded lines of the
      whole, in order. */
  method Pump(chunks: seq<seq<byte>>, decode: seq<byte> -> string) returns (sink: seq<string>)
    ensures sink == Decoded(Lines(Concat(UntilEnd(chunks))), decode)
  {
    hide Split;
    sink := [];
    var buf: seq<byte> := [];
    ghost var lines: seq<seq<byte>> := [];
    ghost var text: seq<byte> := [];
    SplitClean<byte>([], NEWLINE);
    var k := 0;
    while k < |chunks|
      invariant k <= |chunks|
      invariant NEWLINE !in buf && Split(text, NEWLINE) == lines + [buf] && sink == Decoded(lines, decode)
      invariant Concat(UntilEnd(chunks)) == text + Concat(UntilEnd(chunks[k..]))
    {
      var chunk := chunks[k];
      if chunk == [] { break; }
      NextChunk(chunks, k, text);
      SplitAppend(text, chunk);
      assert (lines + [buf])[..|lines|] == lines;
      text := text + chunk;
      buf := buf + chunk;
      k := k + 1;
      var i := FirstNewline(buf);
      while i < |buf|
        invariant 0 <= i <= |buf| && NEWLINE !in buf[..i] && (i < |buf| ==> buf[i] == NEWLINE)
        invariant Split(text, NEWLINE) == lines + Split(buf, NEWLINE) && sink == Decoded(lines, decode)
        decreases |buf|
      {
        var raw := buf[..i];
        assert buf == raw + [NEWLINE] + buf[i + 1..];
        SplitConcat(raw, buf[i + 1..], NEWLINE);
        SplitClean(raw, NEWLINE);
        sink := sink + [decode(raw)];
        lines := lines + [raw];
        buf := buf[i + 1..];
        i := FirstNewline(buf);
      }
      assert buf[..i] == buf;
      SplitClean(buf, NEWLINE);
    }
    assert Concat(UntilEnd(chunks[k..])) == [];
    assert text + [] == text;
    if buf != [] {
      sink := sink + [decode(buf)];
    }
  }

  lemma NextChunk(chunks: seq<seq<byte>>, k: nat, text: seq<byte>)
    requires k < |chunks| && chunks[k] != []
    ensures Concat(UntilEnd(chunks[k..])) == chunks[k] + Concat(UntilEnd(chunks[k + 1..]))
  {
    assert chunks[k..][1..] == chunks[k + 1..];
  }

  /** Nothing is lost: the lines put back together are the text, up to a final newline. */
  lemma LinesKeepEverything(text: seq<byte>)
    ensures Lines(text) == [] <==> text == []
    ensures text != [] ==>
            text == if text[|text| - 1] == NEWLINE then Join(Lines(text), NEWLINE) + [NEWLINE]
                    else Join(Lines(text), NEWLINE)
    ensures forall line :: line in Lines(text) ==> NEWLINE !in line
  {
    hide Split, Join;
    var parts := Split(text, NEWLINE);
    JoinSplit(text, NEWLINE);
    PiecesAreClean(text, NEWLINE);
    SplitClean<byte>([], NEWLINE);
    var front, last := parts[..|parts| - 1], parts[|parts| - 1];
    assert parts == front + [last];
    JoinOfOne(last);
    if front == [] {
      assert parts == [last];
      assert text == last;
      assert NEWLINE !in text;
    } else {
      JoinConcat(front, [last], NEWLINE);
      assert text == Join(front, NEWLINE) + [NEWLINE] + last;
      if last == [] {
        assert text == Join(front, NEWLINE) + [NEWLINE];
      } else {
        assert text[|text| - 1] == last[|last| - 1];
        assert last[|last| - 1] in last;
      }
    }
  }

  lemma JoinOfOne(p: seq<byte>)
    ensures Join([p], NEWLINE) == p
  {}
}
