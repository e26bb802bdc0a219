/** Packets for concrete cases. */
module Samples {
  import opened Bytes
  import opened Header

  /** A payload packet on PID 1. */
  function Good(counter: nat): Packet
    requires counter < 16
  {
    [0x47, 0, 1, 0x10 + counter] + seq(184, _ => 0)
  }

  lemma GoodFields(counter: nat)
    requires counter < 16
    ensures var p := Good(counter);
      && Synced(p) && Pid(p) == 1 && HasPayload(p) && !Discontinuity(p) && HeaderCounter(p) == counter
  {
    var p := Good(counter);
    assert p[0] == 0x47 && p[1] == 0 && p[2] == 1 && p[3] == 0x10 + counter;
    assert AdaptationControl(p) == 1;
  }

  /** A packet without the sync byte. */
  function NoSync(): Packet {
    seq(PACKET_SIZE, _ => 0)
  }
}
