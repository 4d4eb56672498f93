/** internal/client/client.go: the command line the client sends, and the
    loop that reads one delimited answer back, carrying partial chunks over in
    Buf. The connection is the sequence of results its reads return. */
module Client {
  import opened Wrappers
  import opened Text
  import opened Responses
  import S = Socket

  /** Send: the bytes written for a command line, the line and the delimiter. */
  function Send(line: string): (bytes: string)
    ensures |bytes| == |line| + 1 && bytes[..|line|] == line && bytes[|line|] == S.DEL
  {
    line + [S.DEL]
  }

  /** What one ReadString call returns: a chunk with no error, io.EOF, or
      another error. */
  datatype ReadResult = Chunk(text: string) | Eof | Failed(err: string)

  /** What Read returns on a connection whose reads give `input`, starting
      from the buffered text `buf`: the response, how many reads it took, and
      the buffer it leaves. A connection with nothing more to read reads EOF. */
  function ReadFrom(buf: string, input: seq<ReadResult>): (Response, nat, string)
    decreases |input|
  {
    if |input| == 0 then (NewResponse(), 0, buf)
    else
      match input[0]
      case Eof => (NewResponse(), 1, buf)
      case Failed(e) => (BadRequest(e), 1, buf)
      case Chunk(t) =>
        match S.Frame(buf, t)
        case Skipped =>
          var r := ReadFrom(buf, input[1..]);
          (r.0, r.1 + 1, r.2)
        case Buffered(b) =>
          var r := ReadFrom(b, input[1..]);
          (r.0, r.1 + 1, r.2)
        case Complete(line) => (NewResponseWithBody(line), 1, "")
  }

  /** Read uses a read only when there is one; a response with content ends
      on a chunk that ends with the delimiter; an error response carries the
      error of the last read. */
  lemma {:induction false} ReadFromShape(buf: string, input: seq<ReadResult>)
    ensures var r := ReadFrom(buf, input);
      && r.1 <= |input| && (r.1 == 0 <==> |input| == 0)
      && (HasContent(r.0) ==>
          && 0 < r.1 && input[r.1 - 1].Chunk? && |input[r.1 - 1].text| > 0
          && input[r.1 - 1].text[|input[r.1 - 1].text| - 1] == S.DEL)
      && (r.0.Err.Some? ==> 0 < r.1 && input[r.1 - 1].Failed? && r.0.Err.value == input[r.1 - 1].err)
    decreases |input|
  {
    if |input| > 0 && input[0].Chunk? {
      var f := S.Frame(buf, input[0].text);
      if f.Skipped? {
        ReadFromShape(buf, input[1..]);
      } else if f.Buffered? {
        ReadFromShape(f.buf, input[1..]);
      }
    }
  }

  /** The buffer after a chunk that does not complete a line. */
  function Carried(buf: string, chunk: string): string
  {
    if |chunk| == 0 then buf else buf + chunk
  }

  /** A chunk that does not complete a line costs one read and changes only
      the buffer. */
  lemma ReadOn(buf: string, input: seq<ReadResult>)
    requires |input| > 0 && input[0].Chunk? && !S.Frame(buf, input[0].text).Complete?
    ensures var r := ReadFrom(Carried(buf, input[0].text), input[1..]); ReadFrom(buf, input) == (r.0, r.1 + 1, r.2)
  {
  }

  /** A chunk that completes a line ends the read with that line. */
  lemma ReadDone(buf: string, input: seq<ReadResult>)
    requires |input| > 0 && input[0].Chunk? && S.Frame(buf, input[0].text).Complete?
    ensures ReadFrom(buf, input) == (NewResponseWithBody(S.Frame(buf, input[0].text).line), 1, "")
  {
  }

  /** The chunks of a connection that delivers the given pieces. */
  function Chunks(pieces: seq<string>): (input: seq<ReadResult>)
    ensures |input| == |pieces|
    ensures forall k :: 0 <= k < |pieces| ==> input[k] == Chunk(pieces[k])
  {
    if |pieces| == 0 then [] else [Chunk(pieces[0])] + Chunks(pieces[1..])
  }

  /** The last piece: it ends with the delimiter, so it completes the line. */
  lemma ReadLast(buf: string, p: string, input: seq<ReadResult>)
    requires |p| > 0 && p[|p| - 1] == S.DEL && |input| > 0 && input[0] == Chunk(p)
    ensures ReadFrom(buf, input) == (NewResponseWithBody((buf + p)[..|buf + p| - 1]), 1, "")
  {
    var line := S.Frame(buf, p).line;
    assert line + [S.DEL] == buf + p;
    assert (buf + p)[..|buf + p| - 1] == line;
    ReadDone(buf, input);
  }

  /** A first piece without the delimiter is carried over into the buffer
      and the rest is read from there. */
  lemma ReadFirst(buf: string, pieces: seq<string>, rest: seq<ReadResult>, answer: string)
    requires |pieces| >= 2 && S.DEL !in pieces[0]
    requires ReadFrom(Carried(buf, pieces[0]), Chunks(pieces[1..]) + rest) == (NewResponseWithBody(answer), |pieces| - 1, "")
    ensures ReadFrom(buf, Chunks(pieces) + rest) == (NewResponseWithBody(answer), |pieces|, "")
  {
    var p := pieces[0];
    var tail := Chunks(pieces[1..]) + rest;
    var input := Chunks(pieces) + rest;
    assert Chunks(pieces) == [Chunk(p)] + Chunks(pieces[1..]);
    assert input == [Chunk(p)] + tail;
    assert input[1..] == tail;
    assert |p| > 0 ==> p[|p| - 1] in p;
    ReadOn(buf, input);
  }

  /** One piece that ends with the delimiter is read as the buffer and that
      piece without the delimiter. */
  lemma ReadOnePiece(buf: string, p: string, rest: seq<ReadResult>)
    requires |p| > 0 && p[|p| - 1] == S.DEL
    ensures |buf + Concat([p])| > 0
    ensures ReadFrom(buf, Chunks([p]) + rest)
      == (NewResponseWithBody((buf + Concat([p]))[..|buf + Concat([p])| - 1]), 1, "")
  {
    assert [p][1..] == [];
    assert Concat([p]) == p;
    ReadLast(buf, p, Chunks([p]) + rest);
  }

  /** Pieces that carry no delimiter until the last, which ends with it, are
      read as one answer: everything buffered and read, without the
      delimiter, and the buffer is left empty. */
  lemma {:induction false} ReadPieces(buf: string, pieces: seq<string>, rest: seq<ReadResult>)
    requires |pieces| >= 1
    requires forall k :: 0 <= k < |pieces| - 1 ==> S.DEL !in pieces[k]
    requires |pieces[|pieces| - 1]| > 0 && pieces[|pieces| - 1][|pieces[|pieces| - 1]| - 1] == S.DEL
    ensures |buf + Concat(pieces)| > 0
    ensures ReadFrom(buf, Chunks(pieces) + rest)
      == (NewResponseWithBody((buf + Concat(pieces))[..|buf + Concat(pieces)| - 1]), |pieces|, "")
    decreases |pieces|
  {
    LastPiece(pieces);
    var p := pieces[0];
    if |pieces| == 1 {
      assert pieces == [p];
      ReadOnePiece(buf, p, rest);
    } else {
      var tail := pieces[1..];
      assert Concat(pieces) == p + Concat(tail);
      var all := Carried(buf, p) + Concat(tail);
      assert buf + Concat(pieces) == all;
      forall k | 0 <= k < |tail| - 1 ensures S.DEL !in tail[k] {
        assert tail[k] == pieces[k + 1];
      }
      ReadPieces(Carried(buf, p), tail, rest);
      ReadFirst(buf, pieces, rest, all[..|all| - 1]);
    }
  }

  /** The round trip: whatever the server sends with Send, and however the
      connection cuts it into chunks before the delimiter, Read returns the
      line it was given, from an empty buffer, and leaves the buffer empty. */
  lemma SendThenRead(x: string, pieces: seq<string>, rest: seq<ReadResult>)
    requires S.DEL !in x
    requires |pieces| >= 1 && Concat(pieces) == Send(x)
    requires forall k :: 0 <= k < |pieces| - 1 ==> S.DEL !in pieces[k]
    requires |pieces[|pieces| - 1]| > 0
    ensures ReadFrom("", Chunks(pieces) + rest) == (NewResponseWithBody(x), |pieces|, "")
  {
    var last := pieces[|pieces| - 1];
    LastPiece(pieces);
    assert "" + Concat(pieces) == x + [S.DEL];
    ReadPieces("", pieces, rest);
  }

  /** The concatenation of pieces whose last is not empty ends as that piece
      does. */
  lemma {:induction false} LastPiece(pieces: seq<string>)
    requires |pieces| >= 1 && |pieces[|pieces| - 1]| > 0
    ensures |Concat(pieces)| > 0
    ensures Concat(pieces)[|Concat(pieces)| - 1] == pieces[|pieces| - 1][|pieces[|pieces| - 1]| - 1]
  {
    var init, last := pieces[..|pieces| - 1], pieces[|pieces| - 1];
    assert pieces == init + [last];
    ConcatSnoc(init, last);
  }

  /** The single-chunk case: Send(x) read in one piece gives x back. */
  lemma SendThenReadOnce(x: string)
    requires S.DEL !in x
    ensures ReadFrom("", [Chunk(Send(x))]) == (NewResponseWithBody(x), 1, "")
  {
    assert Concat([Send(x)]) == Send(x) + Concat([]);
    assert Chunks([Send(x)]) + [] == [Chunk(Send(x))];
    SendThenRead(x, [Send(x)], []);
  }

  /** A client: the text carried over between reads. */
  class Connection {
    var Buf: string

    /** NewClient: nothing buffered. */
    constructor ()
      ensures Buf == ""
    {
      Buf := "";
    }

    /** Read: read chunks until one ends with the delimiter, and answer with
        the buffered text and that chunk, without the delimiter, clearing the
        buffer; an empty chunk is skipped and a chunk without the delimiter is
        buffered; EOF answers an empty response and keeps the buffer (its text
        is never returned); another error answers that error. */
    method Read(input: seq<ReadResult>) returns (resp: Response, used: nat)
      modifies this`Buf
      ensures (resp, used, Buf) == ReadFrom(old(Buf), input)
    {
      used := 0;
      while used < |input|
        invariant used <= |input|
        invariant var r := ReadFrom(Buf, input[used..]); ReadFrom(old(Buf), input) == (r.0, used + r.1, r.2)
        decreases |input| - used
      {
        ghost var left := input[used..];
        assert left[0] == input[used] && left[1..] == input[used + 1..];
        match input[used]
        case Eof =>
          return NewResponse(), used + 1;
        case Failed(e) =>
          return BadRequest(e), used + 1;
        case Chunk(line) =>
          var size := |line|;
          if size == 0 {
            ReadOn(Buf, left);
            used := used + 1;
            continue;
          }
          if line[size - 1] != S.DEL {
            ReadOn(Buf, left);
            Buf := Buf + line;
            used := used + 1;
            continue;
          }
          var text := Buf + line[..size - 1];
          ReadDone(Buf, left);
          Buf := "";
          return NewResponseWithBody(text), used + 1;
      }
      resp := NewResponse();
    }
  }
}
