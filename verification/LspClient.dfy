/** The LSP client's pipe: framed writes, and reads of any size into a persistent buffer. */
module LspClients {
  import opened Wrappers
  import opened Decimal
  import opened Framing
  import opened Pipes
  import opened Receiving

  class LspClient {
    const pipe: Pipe
    var writeOpen: bool
    var readOpen: bool
    var readBuffer: string

    ghost function State(): Link
      reads this, pipe
    {
      Link(readBuffer, pipe.unread)
    }

    constructor (pipe: Pipe)
      ensures this.pipe == pipe && !writeOpen && !readOpen && readBuffer == ""
    {
      this.pipe, writeOpen, readOpen, readBuffer := pipe, false, false, "";
    }

    /** One write of the whole frame; true exactly when all of it was taken. */
    method SendMessage(message: string) returns (ok: bool)
      modifies pipe`taken, pipe`offered
      ensures pipe.offered == if writeOpen then old(pipe.offered) + [Frame(message)] else old(pipe.offered)
      ensures writeOpen ==> pipe.offered[|old(pipe.offered)|..] ==
                            ["Content-Length: " + ToString(|message|) + "\r\n\r\n" + message]
      ensures old(pipe.taken) <= pipe.taken <= old(pipe.taken) + Frame(message)
      ensures ok <==> pipe.taken == old(pipe.taken) + Frame(message)
    {
      var framed := "Content-Length: " + ToString(|message|) + "\r\n\r\n" + message;
      assert framed == Frame(message);
      if !writeOpen { return false; }
      var n := pipe.Write(framed);
      return n == |framed|;
    }

    /** Loops until a message is complete, the deadline has passed, or a read brings nothing. */
    method ReceiveMessage() returns (text: string, outcome: Outcome, ghost b: string)
      modifies this`readBuffer, pipe
      ensures outcome.Received? ==> Receives(Lsp, old(State()), State(), Some(text), b)
      ensures !outcome.Received? ==> text == "" && Receives(Lsp, old(State()), State(), None, b)
      ensures outcome.Closed? <==> !readOpen
      ensures outcome.Threw? ==> Attempt(Lsp, readBuffer) == Throw(outcome.error)
      ensures outcome.NoData? ==> Attempt(Lsp, readBuffer) == Wait
      ensures pipe.interruptions == old(pipe.interruptions) ==>
                !outcome.Expired? && (outcome.NoData? ==> pipe.unread == "")
      ensures pipe.interruptions == old(pipe.interruptions) && readOpen ==>
                Completes(old(State()), State(), if outcome.Received? then Some(text) else None, b)
    {
      ghost var s := Stream(State());
      b := readBuffer;
      if !readOpen { return "", Closed, b; }
      while true
        invariant |old(readBuffer)| <= |b| && readBuffer == b && b + pipe.unread == s
        invariant pipe.interruptions == old(pipe.interruptions)
        decreases |pipe.unread|
      {
        var expired := pipe.PastDeadline();
        if expired { return "", Expired, b; }

        var step := LspTake(readBuffer);
        if step.Throw? { return "", Threw(step.error), b; }
        if step.Deliver? {
          readBuffer := step.rest;
          return step.message, Received, b;
        }

        var late := pipe.PastDeadline();
        if late { return "", Expired, b; }
        var chunk := pipe.Read();
        if chunk == "" { return "", NoData, b; }
        Regroup(b, chunk, pipe.unread);
        readBuffer := readBuffer + chunk;
        b := readBuffer;
      }
    }
  }
}
