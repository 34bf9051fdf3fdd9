/** The MCP stdio connection: it reads before it looks, and compares lengths as int. */
module McpTransports {
  import opened Wrappers
  import opened Decimal
  import opened Framing
  import opened Pipes
  import opened Receiving

  class McpConnection {
    const pipe: Pipe
    var writeOpen: bool
    var readOpen: bool
    var stdioBuffer: string

    ghost function State(): Link
      reads this, pipe
    {
      Link(stdioBuffer, pipe.unread)
    }

    constructor (pipe: Pipe)
      ensures this.pipe == pipe && !writeOpen && !readOpen && stdioBuffer == ""
    {
      this.pipe, writeOpen, readOpen, stdioBuffer := pipe, false, false, "";
    }

    /** One write of the whole frame; true exactly when all of it was taken. */
    method Send(message: string) returns (ok: bool)
      modifies pipe`taken, pipe`offered
      ensures pipe.offered == if writeOpen then old(pipe.offered) + [Frame(message)] else old(pipe.offered)
      ensures writeOpen ==> pipe.offered[|old(pipe.offered)|..] ==
                            ["Content-Length: " + ToString(|message|) + "\r\n\r\n" + message]
      ensures old(pipe.taken) <= pipe.taken <= old(pipe.taken) + Frame(message)
      ensures ok <==> pipe.taken == old(pipe.taken) + Frame(message)
    {
      if !writeOpen { return false; }
      var framed := "Content-Length: " + ToString(|message|) + "\r\n\r\n" + message;
      assert framed == Frame(message);
      var n := pipe.Write(framed);
      return n == |framed|;
    }

    /** Every turn reads first, so a message is returned only by a call that also read something. */
    method Receive() returns (text: string, outcome: Outcome, ghost b: string)
      modifies this`stdioBuffer, pipe
      ensures outcome.Received? ==> Receives(Mcp, old(State()), State(), Some(text), b) && |b| > |old(stdioBuffer)|
      ensures !outcome.Received? ==> text == "" && Receives(Mcp, old(State()), State(), None, b)
      ensures outcome.Closed? <==> !readOpen
      ensures outcome.Threw? ==> Attempt(Mcp, stdioBuffer) == Throw(outcome.error)
      ensures outcome.NoData? && |b| > |old(stdioBuffer)| ==> Attempt(Mcp, stdioBuffer) == Wait
      ensures pipe.interruptions == old(pipe.interruptions) ==>
                !outcome.Expired? && (outcome.NoData? ==> pipe.unread == "")
    {
      ghost var s := Stream(State());
      b := stdioBuffer;
      if !readOpen { return "", Closed, b; }
      while true
        invariant |old(stdioBuffer)| <= |b| && stdioBuffer == b && b + pipe.unread == s
        invariant |b| > |old(stdioBuffer)| ==> Attempt(Mcp, b) == Wait
        invariant pipe.interruptions == old(pipe.interruptions)
        decreases |pipe.unread|
      {
        var expired := pipe.PastDeadline();
        if expired { return "", Expired, b; }
        var chunk := pipe.Read();
        if chunk == "" { return "", NoData, b; }
        Regroup(b, chunk, pipe.unread);
        stdioBuffer := stdioBuffer + chunk;
        b := stdioBuffer;

        var step := McpTake(stdioBuffer);
        if step.Throw? { return "", Threw(step.error), b; }
        if step.Deliver? {
          stdioBuffer := step.rest;
          return step.message, Received, b;
        }
      }
    }
  }
}
