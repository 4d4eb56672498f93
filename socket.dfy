/** The text handling of internal/server/socket.go: splitting a command line
    into whitespace-separated fields, and the framing step of
    handleConnection, which joins the chunks read from a connection into
    '\r'-terminated command lines, runs each through the manager's Execute and
    writes the answer back. The framing function is shared with the client. */
module Socket {
  import opened Wrappers
  import opened Text
  import opened Responses
  import M = Manager

  /** DEL (internal/server/server.go): the delimiter of the wire protocol. */
  const DEL: char := '\r'

  /** The separator set of parse: space, tab, LF, VT, FF and CR. */
  const Spaces: string := " \t\n\U{000B}\U{000C}\r"

  predicate IsSpace(c: char)
  {
    c in Spaces
  }

  /** A text made only of separators (the empty text included). */
  predicate Blank(s: string)
  {
    forall i :: 0 <= i < |s| ==> IsSpace(s[i])
  }

  /** A non-empty field: no separator inside. */
  predicate IsField(w: string)
  {
    |w| > 0 && forall i :: 0 <= i < |w| ==> !IsSpace(w[i])
  }

  /** The longest prefix of s holding no separator. */
  function Word(s: string): (w: string)
    ensures |w| <= |s| && w == s[..|w|]
    ensures forall i :: 0 <= i < |w| ==> !IsSpace(w[i])
    ensures |w| == |s| || IsSpace(s[|w|])
  {
    if |s| == 0 || IsSpace(s[0]) then "" else [s[0]] + Word(s[1..])
  }

  /** strings.FieldsFunc with IsSpace: the maximal runs of non-separators, in
      order; empty fields are dropped. */
  function Fields(s: string): (fields: seq<string>)
    ensures forall k :: 0 <= k < |fields| ==> IsField(fields[k])
    ensures |fields| == 0 <==> Blank(s)
    decreases |s|
  {
    if |s| == 0 then []
    else if IsSpace(s[0]) then
      var rest := Fields(s[1..]);
      assert Blank(s[1..]) ==> Blank(s) by {
        if Blank(s[1..]) {
          forall i | 0 <= i < |s| ensures IsSpace(s[i]) {
            if i > 0 {
              assert s[i] == s[1..][i - 1];
            }
          }
        }
      }
      rest
    else
      var w := Word(s);
      [w] + Fields(s[|w|..])
  }

  /** A field followed by a separator or by nothing is read as that field. */
  lemma {:induction false} WordOfField(w: string, t: string)
    requires IsField(w) && (|t| == 0 || IsSpace(t[0]))
    ensures Word(w + t) == w
    decreases |w|
  {
    var s := w + t;
    if |w| > 1 {
      assert s[1..] == w[1..] + t;
      WordOfField(w[1..], t);
    } else {
      assert s[1..] == t;
    }
  }

  /** parse reads back the fields it is given: separating fields with single
      spaces and splitting again gives the same fields. */
  lemma {:induction false} FieldsOfJoin(words: seq<string>)
    requires |words| >= 1
    requires forall k :: 0 <= k < |words| ==> IsField(words[k])
    ensures Fields(Join(words, ' ')) == words
  {
    var w := words[0];
    if |words| == 1 {
      WordOfField(w, "");
      assert w + "" == w;
      assert w[|w|..] == "";
    } else {
      var t := Join(words[1..], ' ');
      var s := w + [' '] + t;
      WordOfField(w, [' '] + t);
      assert w + ([' '] + t) == s;
      assert s[|w|..] == [' '] + t;
      assert ([' '] + t)[1..] == t;
      FieldsOfJoin(words[1..]);
      assert words == [w] + words[1..];
    }
  }

  /** parse: the first field is the command, the remaining fields its
      arguments. The error it returns is always nil, so it is not modelled.
      With no field at all, args[0] is out of range: parse demands a line
      that is not blank. */
  function Parse(text: string): (r: (string, seq<string>))
    requires !Blank(text)
    ensures IsField(r.0) && forall k :: 0 <= k < |r.1| ==> IsField(r.1[k])
    ensures [r.0] + r.1 == Fields(text)
  {
    var args := Fields(text);
    if |args| < 2 then (args[0], []) else (args[0], args[1..])
  }

  /** A command line written with single spaces parses back into its
      command and arguments. */
  lemma ParseJoin(cmd: string, args: seq<string>)
    requires IsField(cmd) && forall k :: 0 <= k < |args| ==> IsField(args[k])
    ensures !Blank(Join([cmd] + args, ' '))
    ensures Parse(Join([cmd] + args, ' ')) == (cmd, args)
  {
    var words := [cmd] + args;
    var s := Join(words, ' ');
    forall k | 0 <= k < |words| ensures IsField(words[k]) {
      if k > 0 {
        assert words[k] == args[k - 1];
      }
    }
    FieldsOfJoin(words);
    var f := Fields(s);
    assert f == words && f[0] == cmd && f[1..] == args;
    if |args| == 0 {
      assert Parse(s) == (f[0], []);
    } else {
      assert Parse(s) == (f[0], f[1..]);
    }
  }

  /** What one successful read does to the buffered text: an empty chunk is
      skipped, a chunk that does not end with the delimiter is buffered, and
      one that does completes the line, which is the buffer followed by the
      chunk without its delimiter. */
  datatype Framed = Skipped | Buffered(buf: string) | Complete(line: string)

  function Frame(buf: string, chunk: string): (f: Framed)
    ensures f.Skipped? <==> |chunk| == 0
    ensures f.Buffered? <==> |chunk| > 0 && chunk[|chunk| - 1] != DEL
    ensures f.Buffered? ==> f.buf == buf + chunk
    ensures f.Complete? ==> f.line + [DEL] == buf + chunk
  {
    var size := |chunk|;
    if size == 0 then Skipped
    else if chunk[size - 1] != DEL then Buffered(buf + chunk)
    else
      assert buf + chunk == buf + chunk[..size - 1] + [DEL];
      Complete(buf + chunk[..size - 1])
  }

  /** What handleConnection writes back for a response: its error text if it
      has one, its body otherwise, followed by the delimiter. */
  function Wire(r: Response): (bytes: string)
    ensures |bytes| >= 1 && bytes[|bytes| - 1] == DEL
    ensures bytes[..|bytes| - 1] == if r.Err.Some? then r.Err.value else r.Data
  {
    if r.Err.Some? then r.Err.value + [DEL] else r.Data + [DEL]
  }

  /** The outcome of one chunk in handleConnection. A complete line that is
      blank makes parse index out of range (Panicked), and a request that
      Execute would queue after the queue was closed makes the send panic
      (SendPanicked). Nothing recovers either panic, so the daemon exits. */
  datatype Step =
    | Waiting
    | Answered(cmd: string, args: seq<string>, resp: Response)
    | Panicked
    | SendPanicked(cmd: string, args: seq<string>)

  /** A client connection: the text buffered so far, and everything written
      back on it. */
  class Connection {
    var Buf: string
    var Out: string

    /** NewSocket: nothing buffered, nothing written. */
    constructor ()
      ensures Buf == "" && Out == ""
    {
      Buf := "";
      Out := "";
    }

    /** One chunk that ReadString returned without error: the framing of
        handleConnection, then parse, Execute and the reply. */
    method HandleChunk(line: string, m: M.JobManager) returns (step: Step)
      modifies this`Buf, this`Out, m`actions
      ensures Frame(old(Buf), line).Skipped? ==>
        step == Waiting && Buf == old(Buf) && Out == old(Out) && m.actions == old(m.actions)
      ensures Frame(old(Buf), line).Buffered? ==>
        step == Waiting && Buf == Frame(old(Buf), line).buf && Out == old(Out) && m.actions == old(m.actions)
      ensures Frame(old(Buf), line).Complete? ==> Buf == "" && !step.Waiting?
      ensures Frame(old(Buf), line).Complete? && Blank(Frame(old(Buf), line).line) ==>
        step == Panicked && Out == old(Out) && m.actions == old(m.actions)
      ensures Frame(old(Buf), line).Complete? && !Blank(Frame(old(Buf), line).line) ==>
        step.Answered? || step.SendPanicked?
      ensures step.Answered? ==>
        && Frame(old(Buf), line).Complete?
        && (step.cmd, step.args) == Parse(Frame(old(Buf), line).line)
        && Out == old(Out) + Wire(step.resp)
        && M.Executed(m.Jobs, m.closed, step.cmd, step.args, M.Answer(step.resp), old(m.actions), m.actions)
        && forall k :: |old(m.actions)| <= k < |m.actions| ==> M.Queued(m.actions[k])
      ensures step.SendPanicked? ==>
        && Frame(old(Buf), line).Complete?
        && (step.cmd, step.args) == Parse(Frame(old(Buf), line).line)
        && Out == old(Out) && m.closed
        && M.Executed(m.Jobs, m.closed, step.cmd, step.args, M.SendOnClosed, old(m.actions), m.actions)
    {
      var size := |line|;
      if size == 0 {
        return Waiting;
      }
      if line[size - 1] != DEL {
        Buf := Buf + line;
        return Waiting;
      }
      var text := Buf + line[..size - 1];
      Buf := "";
      if Blank(text) {
        return Panicked;
      }
      var (cmd, args) := Parse(text);
      var sent := m.Execute(cmd, args);
      if sent.SendOnClosed? {
        return SendPanicked(cmd, args);
      }
      var res := sent.resp;
      if res.Err.Some? {
        Out := Out + (res.Err.value + [DEL]);
      } else {
        Out := Out + (res.Data + [DEL]);
      }
      step := Answered(cmd, args, res);
    }
  }
}
