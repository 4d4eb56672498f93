/** The per-instance state names and the autorestart modes (internal/job/states.go). */
module States {

  const Stopped := "STOPPED"
  const Starting := "STARTING"
  const Running := "RUNNING"
  const Backoff := "BACKOFF"
  const Stopping := "STOPPING"
  const Exited := "EXITED"
  const Fatal := "FATAL"
  const Unknown := "UNKNOWN"

  const AutorestartFalse := "false"
  const AutorestartUnexpected := "unexpected"
  const AutorestartTrue := "true"

  /** The names SetState stores; any other name is refused. */
  predicate IsState(s: string)
  {
    s in {Stopped, Starting, Running, Backoff, Stopping, Exited, Fatal, Unknown}
  }

  /** The error text SetState returns for a name it refuses. */
  function InvalidState(s: string): (msg: string)
    ensures |msg| == 15 + |s| && msg[..15] == "invalid state: " && msg[15..] == s
  {
    "invalid state: " + s
  }

  /** SetState's refusal names exactly the refused name, so different names
      give different texts, and the text is never itself a name SetState
      stores: handing it back to SetState is refused in turn. */
  lemma RefusalNamesState(s: string, t: string)
    requires !IsState(s)
    ensures InvalidState(s) == InvalidState(t) ==> s == t
    ensures !IsState(InvalidState(s))
  {
  }
}
