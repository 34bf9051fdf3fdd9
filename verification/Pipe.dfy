/** The pipe to a child process, and the time a caller has for it. */
module Pipes {
  class Pipe {
    var unread: string  // what the other side wrote and nobody has read yet
    var taken: string  // what the operating system took from this side
    ghost var offered: seq<string>  // what every write was given
    ghost var interruptions: nat  // passed deadlines, and reads that brought nothing although something was there

    constructor ()
      ensures unread == "" && taken == "" && offered == [] && interruptions == 0
    {
      unread, taken, offered, interruptions := "", "", [], 0;
    }

    method PastDeadline() returns (passed: bool)
      modifies this`interruptions
      ensures interruptions == old(interruptions) + if passed then 1 else 0
    {
      passed := *;
      if passed {
        interruptions := interruptions + 1;
      }
    }

    /** poll and read: any number of bytes up to the size of the buffer, possibly none. */
    method Read() returns (chunk: string)
      modifies this`unread, this`interruptions
      ensures |chunk| <= 4096 && chunk + unread == old(unread)
      ensures interruptions == old(interruptions) + if chunk == "" && unread != "" then 1 else 0
    {
      var n: nat :| n <= 4096 && n <= |unread|;
      chunk, unread := unread[..n], unread[n..];
      if chunk == "" && unread != "" {
        interruptions := interruptions + 1;
      }
    }

    /** write may take less than it is given. */
    method Write(bytes: string) returns (n: nat)
      modifies this`taken, this`offered
      ensures n <= |bytes| && taken == old(taken) + bytes[..n] && offered == old(offered) + [bytes]
    {
      offered := offered + [bytes];
      n :| n <= |bytes|;
      taken := taken + bytes[..n];
    }
  }
}
