/**
 The continuity monitor of m2tlib/drop_count.c: one counter structure per PID, kept in an
 array that every packet updates in place.
 */
module Continuity {
  import opened Bytes
  import opened Header

  /** TS_DROP_COUNT; the `offset` field is never used. */
  datatype DropCount = DropCount(
    total: nat,
    drop: nat,
    error: nat,
    scrambling: nat,
    nowDrop: nat,
    nowError: nat,
    nowScrambling: nat,
    repeat: nat,
    last: nat,
    use: nat,
    before: Packet)

  /** A zeroed structure. */
  function Fresh(): DropCount {
    DropCount(0, 0, 0, 0, 0, 0, 0, 0, 0, 0, seq(PACKET_SIZE, _ => 0))
  }

  // ---------------------------------------------------------------- one packet

  /** Continuity is judged for this packet at all: not the first, no announced discontinuity, not a null packet. */
  predicate Judged(c: DropCount, p: Packet) {
    c.use != 0 && !Discontinuity(p) && Pid(p) != NULL_PID
  }

  predicate SameCounter(p: Packet, q: Packet) {
    HeaderCounter(p) == HeaderCounter(q)
  }

  /** The continuity rules: is this packet counted as a loss? */
  predicate Loses(c: DropCount, p: Packet) {
    Judged(c, p) &&
    if !HasPayload(p) then !SameCounter(c.before, p)
    else if SameCounter(c.before, p) then c.before != p || c.repeat >= 1
    else HeaderCounter(p) != (HeaderCounter(c.before) + 1) % 16
  }

  function RepeatAfter(c: DropCount, p: Packet): nat {
    if Loses(c, p) then 0
    else if Judged(c, p) && HasPayload(p) then (if SameCounter(c.before, p) then c.repeat + 1 else 0)
    else c.repeat
  }

  predicate HasError(p: Packet) {
    p[1] / 128 != 0
  }

  predicate IsScrambled(p: Packet) {
    p[3] / 64 != 0
  }

  /** The packet is anomalous in at least one of the three ways. */
  predicate Anomalous(c: DropCount, p: Packet) {
    Loses(c, p) || HasError(p) || IsScrambled(p)
  }

  /** The structure after `drop_check_and_count`. */
  function Step(c: DropCount, p: Packet): DropCount {
    c.(total := c.total + 1,
       drop := c.drop + Flag(Loses(c, p)),
       error := c.error + Flag(HasError(p)),
       scrambling := c.scrambling + Flag(IsScrambled(p)),
       nowDrop := Flag(Loses(c, p)),
       nowError := Flag(HasError(p)),
       nowScrambling := Flag(IsScrambled(p)),
       repeat := RepeatAfter(c, p),
       use := 1,
       before := p)
  }

  /** The repeat counter after the continuity rules, before a loss resets it. */
  function RepeatJudged(c: DropCount, p: Packet): nat {
    if Judged(c, p) && HasPayload(p)
    then (if !SameCounter(c.before, p) then 0 else if c.before == p then c.repeat + 1 else c.repeat)
    else c.repeat
  }

  /** The continuity rules of `drop_check_and_count`; `before` is the previous packet's counter, if there was one. */
  method Judge(counts: array<DropCount>, pid: nat, buf: Packet, head: TsHead, before: nat) returns (haveDrop: bool)
    requires pid < counts.Length && head == HeadOf(buf)
    requires counts[pid].use != 0 ==> before == HeaderCounter(counts[pid].before)
    modifies counts
    ensures counts[..] == old(counts[..])[pid := old(counts[pid]).(repeat := RepeatJudged(old(counts[pid]), buf))]
    ensures haveDrop == Loses(old(counts[pid]), buf)
  {
    hide AdaptOf, PayloadStart;
    var now := head.continuity;
    haveDrop := false;

    if counts[pid].use != 0 && !head.adapt.discontinuity {
      if head.pid == NULL_PID {
      } else if head.adaptationControl % 2 == 0 {
        if before != now {
          haveDrop := true;
        }
      } else if before == now {
        if counts[pid].before != buf {
          haveDrop := true;
        } else {
          counts[pid] := counts[pid].(repeat := counts[pid].repeat + 1);
          if counts[pid].repeat > 1 {
            haveDrop := true;
          }
        }
      } else {
        var m := (before + 1) % 16;
        if m != head.continuity {
          haveDrop := true;
        }
        counts[pid] := counts[pid].(repeat := 0);
      }
    }
  }

  function Tallied(c: DropCount, error: bool, scrambled: bool): DropCount {
    c.(nowDrop := 0, nowError := Flag(error), nowScrambling := Flag(scrambled),
       error := c.error + Flag(error), scrambling := c.scrambling + Flag(scrambled))
  }

  /** The error and scrambling tallies of `drop_check_and_count`. */
  method TallyErrors(counts: array<DropCount>, pid: nat, head: TsHead)
    requires pid < counts.Length
    modifies counts
    ensures counts[..] == old(counts[..])[pid := Tallied(old(counts[pid]), head.transportError != 0, head.scrambling != 0)]
  {
    counts[pid] := counts[pid].(nowDrop := 0, nowError := 0, nowScrambling := 0);
    if head.transportError != 0 {
      counts[pid] := counts[pid].(nowError := 1);
    }
    if head.scrambling != 0 {
      counts[pid] := counts[pid].(nowScrambling := 1);
    }
    counts[pid] := counts[pid].(error := counts[pid].error + counts[pid].nowError);
    counts[pid] := counts[pid].(scrambling := counts[pid].scrambling + counts[pid].nowScrambling);
  }

  function Recorded(c: DropCount, p: Packet, haveDrop: bool): DropCount {
    c.(nowDrop := Flag(haveDrop), drop := c.drop + Flag(haveDrop), repeat := if haveDrop then 0 else c.repeat,
       use := 1, before := p, total := c.total + 1)
  }

  /** The closing updates of `drop_check_and_count`. */
  method Record(counts: array<DropCount>, pid: nat, buf: Packet, haveDrop: bool)
    requires pid < counts.Length && counts[pid].nowDrop == 0 && counts[pid].use in {0, 1}
    modifies counts
    ensures counts[..] == old(counts[..])[pid := Recorded(old(counts[pid]), buf, haveDrop)]
  {
    if haveDrop {
      counts[pid] := counts[pid].(nowDrop := 1);
      counts[pid] := counts[pid].(drop := counts[pid].drop + 1);
      counts[pid] := counts[pid].(repeat := 0);
    }
    if counts[pid].use == 0 {
      counts[pid] := counts[pid].(use := 1);
    }
    counts[pid] := counts[pid].(before := buf);
    counts[pid] := counts[pid].(total := counts[pid].total + 1);
  }

  /** The three stages together are `Step`. */
  lemma StagesAreStep(c: DropCount, p: Packet)
    ensures var t := Tallied(c, HasError(p), IsScrambled(p));
      && Loses(t, p) == Loses(c, p)
      && Recorded(t.(repeat := RepeatJudged(t, p)), p, Loses(t, p)) == Step(c, p)
  {}

  /**
   `drop_check_and_count`.  `stale` is whatever the uninitialised header structure of the
   previous packet held; it never decides anything.
   */
  method DropCheckAndCount(counts: array<DropCount>, buf: Packet, stale: TsHead) returns (ok: nat)
    requires counts.Length == PID_COUNT && Synced(buf)
    requires counts[Pid(buf)].use in {0, 1}
    requires counts[Pid(buf)].use == 1 ==> Synced(counts[Pid(buf)].before)
    modifies counts
    ensures counts[..] == old(counts[..])[Pid(buf) := Step(old(counts[Pid(buf)]), buf)]
    ensures ok == if Anomalous(old(counts[Pid(buf)]), buf) then 0 else 1
  {
    hide AdaptOf, PayloadStart, Loses, RepeatAfter, RepeatJudged;
    var head := StHead(buf, stale);
    var pid := head.pid;
    var beforeHead := StHead(counts[pid].before, stale);
    StagesAreStep(counts[pid], buf);
    TallyErrors(counts, pid, head);
    var haveDrop := Judge(counts, pid, buf, head, beforeHead.continuity);
    Record(counts, pid, buf, haveDrop);
    var result := counts[pid].nowDrop + counts[pid].nowError + counts[pid].nowScrambling;
    ok := if result > 0 then 0 else 1;
  }
}
