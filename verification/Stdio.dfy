// A stdio stream over a device that is also written directly by write(2).

module Stdio {
  import opened Base

  class Stream {
    var device: seq<byte>   // what has reached the terminal or the file
    var pending: seq<byte>  // what fwrite() has accepted and not yet written

    constructor ()
      ensures device == [] && pending == []
    {
      device, pending := [], [];
    }

    // What the device will hold once the stream is flushed.
    ghost function Logical(): seq<byte>
      reads this
    {
      device + pending
    }

    // fwrite() may write out any part of the buffer, from the front, whenever
    // it likes: `spilled` is arbitrary.
    method Fwrite(data: seq<byte>)
      modifies this
      ensures Logical() == old(Logical()) + data
      ensures old(device) <= device
    {
      var all := pending + data;
      var spilled: nat :| spilled <= |all|;
      device, pending := device + all[..spilled], all[spilled..];
      assert all == all[..spilled] + all[spilled..];
    }

    method Fflush()
      modifies this
      ensures device == old(Logical()) && pending == []
      ensures Logical() == old(Logical())
    {
      device, pending := device + pending, [];
    }

    // write(2) on the descriptor, past the buffer.
    method RawWrite(data: seq<byte>)
      modifies this
      ensures device == old(device) + data && pending == old(pending)
      ensures old(pending) == [] ==> Logical() == old(Logical()) + data
    {
      device := device + data;
    }
  }
}
