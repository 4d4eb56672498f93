/** internal/parser/interpreter/interpreter.go: the shell's classification of
    a typed line by its first space-separated piece. What Parse prints and
    whether it exits the process are returned as an outcome. */
module Interpreter {
  import opened Wrappers
  import opened Text

  /** What Parse does: the text it prints, and the exit code when it ends the
      process (None when it returns to the prompt). */
  datatype Outcome = Outcome(output: string, exit: Option<int>)

  /** The verbs that are announced and not run. */
  const Verbs: seq<string> := ["reload", "restart", "start", "status", "stop"]

  /** The word that decides: args[0] of the split line. */
  function Command(line: string): (w: string)
    ensures |w| <= |line| && w == line[..|w|] && ' ' !in w
    ensures |w| == |line| || line[|w|] == ' '
  {
    SplitFirst(line, ' ');
    Split(line, ' ')[0]
  }

  /** Parse: an empty first piece returns silently; "exit" prints a newline
      and exits with 0; the five verbs print "Running '<verb>'"; anything else
      prints "*** Unknown syntax: <word>" and exits with 1. */
  function Parse(line: string): (o: Outcome)
    ensures o.output == "" <==> Command(line) == ""
    ensures o.output != "" ==> o.output[|o.output| - 1] == '\n'
    ensures o.exit.None? <==> Command(line) == "" || Command(line) in Verbs
    ensures o.exit == Some(0) <==> Command(line) == "exit"
    ensures o.exit.Some? ==> o.exit == Some(0) || o.exit == Some(1)
  {
    var cmd := Command(line);
    if cmd == "" then Outcome("", None)
    else if cmd == "exit" then Outcome("\n", Some(0))
    else if cmd in Verbs then Outcome("Running '" + cmd + "'\n", None)
    else Outcome("*** Unknown syntax: " + cmd + "\n", Some(1))
  }

  /** A word without spaces is read as the command, whatever follows its
      first space. */
  lemma CommandOfWord(w: string, rest: string)
    requires ' ' !in w
    ensures Command(w + [' '] + rest) == w
    ensures Command(w) == w
  {
    var s := w + [' '] + rest;
    assert s[|w|] == ' ';
    assert s[..|w|] == w;
    assert w[..|w|] == w;
  }

  /** Only the first piece decides: anything after the first space is
      ignored. */
  lemma FirstWordDecides(w: string, rest: string)
    requires ' ' !in w
    ensures Parse(w + [' '] + rest) == Parse(w)
  {
    CommandOfWord(w, rest);
  }

  /** A line that is empty or starts with a space returns with no output. */
  lemma LeadingSpaceIsSilent(line: string)
    requires |line| == 0 || line[0] == ' '
    ensures Parse(line) == Outcome("", None)
  {
    assert |line| > 0 ==> line[0] == ' ';
  }

  /** The outcome of each word: the verbs are announced, "exit" ends with 0
      and any other non-empty word is unknown and ends with 1. */
  lemma WordOutcome(w: string)
    requires ' ' !in w && w != ""
    ensures w == "exit" ==> Parse(w) == Outcome("\n", Some(0))
    ensures w in Verbs ==> Parse(w) == Outcome("Running '" + w + "'\n", None)
    ensures w != "exit" && w !in Verbs ==> Parse(w) == Outcome("*** Unknown syntax: " + w + "\n", Some(1))
  {
    CommandOfWord(w, "");
  }

  /** "quit" is not a command of the shell: it is reported unknown and ends
      the process with 1. */
  lemma QuitIsUnknown()
    ensures Parse("quit") == Outcome("*** Unknown syntax: quit\n", Some(1))
    ensures Parse("quit now") == Parse("quit")
  {
    WordOutcome("quit");
    FirstWordDecides("quit", "now");
    assert "quit" + [' '] + "now" == "quit now";
  }
}
