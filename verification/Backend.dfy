// LinuxDeviceBackend.write of src/vdevlab/runner.py over the driver's own code,
// with no other call running.

module Backend {
  import opened Common
  import opened Device
  import opened SoloCalls

  datatype WriteEnd =
    | Finished            // the loop ran out of data
    | Refused(errno: Errno) // os.write raised
    | NoProgress          // os.write returned 0
    | Blocked             // os.write sleeps until somebody reads

  lemma PrefixGrows(fifo: seq<Byte>, data: seq<Byte>, a: nat, n: nat)
    requires a + n <= |data|
    ensures fifo + data[..a] + data[a..][..n] == fifo + data[..a + n]
    ensures data[a..][n..] == data[a + n..]
  {}

  /** The remaining-bytes loop: whatever its end, the FIFO has gained exactly the
      acknowledged prefix; it ends well exactly when everything fits and the device
      is connected, and never without progress. */
  method WriteAll(core: Core, data: seq<Byte>) returns (acked: nat, end: WriteEnd)
    requires core.Valid()
    modifies core
    ensures core.Valid() && core.fault == old(core.fault)
    ensures acked <= |data| && core.fifo == old(core.fifo) + data[..acked]
    ensures end == Finished <==> acked == |data|
    ensures end == Refused(ENODEV) <==> data != [] && Disconnected(core.fault)
    ensures end == Blocked <==> !Disconnected(core.fault) && |old(core.fifo)| + |data| > FIFO_SIZE
    ensures end == Blocked ==> acked == FIFO_SIZE - |old(core.fifo)|
    ensures end.Finished? || end.Blocked? || end == Refused(ENODEV)
  {
    acked := 0;
    var remaining := data;
    while remaining != []
      invariant core.Valid() && core.fault == old(core.fault)
      invariant acked <= |data| && remaining == data[acked..]
      invariant core.fifo == old(core.fifo) + data[..acked]
      invariant Disconnected(core.fault) ==> acked == 0
      decreases |remaining|
    {
      WriteOutcome(core.View(), remaining, false);
      var result := core.Write(remaining, false);
      if result.None? {
        return acked, Blocked;
      }
      if result.value.Failed? {
        return acked, Refused(result.value.errno);
      }
      var written := result.value.n;
      if written == 0 {
        return acked, NoProgress;
      }
      PrefixGrows(old(core.fifo), data, acked, written);
      remaining := remaining[written..];
      acked := acked + written;
    }
    end := Finished;
  }
}
