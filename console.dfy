/**
 * What the retracer prints and how a run ends early. Standard output and
 * standard error are sequences of printed lines; info and warning messages
 * are held back and printed to standard error when the run finishes or when
 * it fails through `error` (RetraceWrapper.java:332-349).
 */
module Console {

  /** The ways a run can end early. */
  datatype Abort =
    /** A RuntimeException raised through `error`: the held-back messages were printed first. */
    | Error(message: string)
    /** An IOException from reading a file that is not there. */
    | NoSuchFile(path: string)
    /** A StringIndexOutOfBoundsException from a substring with bad bounds. */
    | IndexOutOfBounds
    /** A NullPointerException from printing a result that does not exist. */
    | NullPointer
    /** An IOException from starting `fetch_artifact` when it is not on the PATH. */
    | CannotStart

  class Console {
    /** Lines printed to standard output. */
    var out: seq<string>
    /** Lines printed to standard error. */
    var err: seq<string>
    /** PENDING_MESSAGES: info and warning lines not printed yet. */
    var pending: seq<string>

    constructor ()
      ensures out == [] && err == [] && pending == []
    {
      out := [];
      err := [];
      pending := [];
    }

    method Println(line: string)
      modifies this
      ensures out == old(out) + [line]
      ensures err == old(err) && pending == old(pending)
    {
      out := out + [line];
    }

    /** Output a child process writes straight to the inherited standard output; nothing when it wrote none. */
    method Echo(text: string)
      modifies this
      ensures out == old(out) + (if text == "" then [] else [text])
      ensures err == old(err) && pending == old(pending)
    {
      if text != "" {
        out := out + [text];
      }
    }

    /** info: hold back the message behind "Info: ". */
    method Info(message: string)
      modifies this
      ensures pending == old(pending) + ["Info: " + message]
      ensures out == old(out) && err == old(err)
    {
      pending := pending + ["Info: " + message];
    }

    /** warning: hold back the message behind "Warning: ". */
    method Warning(message: string)
      modifies this
      ensures pending == old(pending) + ["Warning: " + message]
      ensures out == old(out) && err == old(err)
    {
      pending := pending + ["Warning: " + message];
    }

    /** flushPendingMessages: print every held-back message; the list itself is not cleared. */
    method Flush()
      modifies this
      ensures err == old(err) + old(pending)
      ensures out == old(out) && pending == old(pending)
    {
      err := err + pending;
    }

    /** error: print the held-back messages, then fail with `message`. */
    method Fail(message: string) returns (a: Abort)
      modifies this
      ensures a == Error(message)
      ensures err == old(err) + old(pending)
      ensures out == old(out) && pending == old(pending)
    {
      Flush();
      a := Error(message);
    }
  }
}
