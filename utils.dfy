/** internal/utils/utils.go: the stop-signal name table, the greeting helper and
    the swappable log writer that instance output is attached to. */
module Utils {
  import opened Wrappers

  /** The signals a stop signal name can denote, with their Linux numbers. */
  datatype Signal = SIGHUP | SIGINT | SIGQUIT | SIGKILL | SIGUSR1 | SIGUSR2 | SIGTERM
  {
    function Number(): (n: nat)
      ensures 1 <= n <= 15
    {
      match this
      case SIGHUP => 1
      case SIGINT => 2
      case SIGQUIT => 3
      case SIGKILL => 9
      case SIGUSR1 => 10
      case SIGUSR2 => 12
      case SIGTERM => 15
    }
  }

  /** The configuration name of each signal. */
  function SignalName(sig: Signal): string
  {
    match sig
    case SIGTERM => "TERM"
    case SIGHUP => "HUP"
    case SIGINT => "INT"
    case SIGQUIT => "QUIT"
    case SIGKILL => "KILL"
    case SIGUSR1 => "USR1"
    case SIGUSR2 => "USR2"
  }

  /** ParseSignal: the seven known names map to their signal, anything else to SIGTERM. */
  function ParseSignal(str: string): (sig: Signal)
    ensures str != SignalName(sig) ==> sig == SIGTERM
  {
    match str
    case "TERM" => SIGTERM
    case "HUP" => SIGHUP
    case "INT" => SIGINT
    case "QUIT" => SIGQUIT
    case "KILL" => SIGKILL
    case "USR1" => SIGUSR1
    case "USR2" => SIGUSR2
    case _ => SIGTERM
  }

  /** Every signal is read back from its own name, so the table is a bijection
      between the seven names and the seven signals. */
  lemma ParseSignalName(sig: Signal)
    ensures ParseSignal(SignalName(sig)) == sig
  {
  }

  /** Hello(name): "Hello " followed by the name. */
  function Hello(name: string): (message: string)
    ensures |message| == 6 + |name|
    ensures message[..6] == "Hello " && message[6..] == name
  {
    "Hello " + name
  }

  /** A destination an instance's output can be attached to. */
  datatype Sink = Stdout | Stderr | LogFile(path: string)

  /** The text of io.ErrClosedPipe. */
  const ErrClosedPipe := "io: read/write on closed pipe"

  /** DynamicWriter: a writer whose destination can be swapped while a child
      process holds it. `delivered` records, in order, every buffer handed to a
      destination; what the destination does with it is outside the model, and
      its reply to a write is an input of Write. */
  class DynamicWriter {
    var writer: Option<Sink>
    var delivered: seq<(Sink, seq<bv8>)>

    constructor ()
      ensures writer == None && delivered == []
    {
      writer := None;
      delivered := [];
    }

    /** Write: with no destination set, nothing is delivered and the result is
        (0, ErrClosedPipe); otherwise the buffer goes to the current destination
        and that destination's result is returned. */
    method Write(p: seq<bv8>, destinationResult: (int, Option<string>)) returns (n: int, err: Option<string>)
      modifies this`delivered
      ensures old(writer).None? ==> n == 0 && err == Some(ErrClosedPipe) && delivered == old(delivered)
      ensures old(writer).Some? ==>
        (n, err) == destinationResult && delivered == old(delivered) + [(writer.value, p)]
    {
      if writer.None? {
        return 0, Some(ErrClosedPipe);
      }
      delivered := delivered + [(writer.value, p)];
      n, err := destinationResult.0, destinationResult.1;
    }

    /** SetWriter: later writes reach w and no earlier destination. */
    method SetWriter(w: Sink)
      modifies this`writer
      ensures writer == Some(w)
    {
      writer := Some(w);
    }
  }
}
