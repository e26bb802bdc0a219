/**
 The continuity rules of section 2.4.3.3 of ISO/IEC 13818-1 as the monitor applies them, told
 from the packets of a stream: which packet adds a loss, for packets with and without a payload.
 */
module ContinuityRules {
  import opened Bytes
  import opened Header
  import opened Continuity
  import opened LossBound

  /** A packet of a real PID that announces no discontinuity. */
  predicate Plain(p: Packet) {
    Pid(p) != 0x1FFF && !Discontinuity(p)
  }

  function Last(ps: seq<Packet>): Packet
    requires ps != []
  {
    ps[|ps| - 1]
  }

  // ---------------------------------------------------------------- one more packet

  /** The first packet, a null packet and a packet that announces a discontinuity are never losses. */
  lemma NeverLost(ps: seq<Packet>, p: Packet)
    requires ps == [] || !Plain(p)
    ensures Run(ps + [p]).drop == Run(ps).drop
  {
    hide HasPayload, Pid, Discontinuity, HeaderCounter;
    RunSnoc(ps, p);
    RunInvariant(ps);
  }

  /** A packet without a payload is a loss exactly if its counter is not the last one. */
  lemma WithoutPayload(ps: seq<Packet>, p: Packet)
    requires ps != [] && Plain(p) && !HasPayload(p)
    ensures Run(ps + [p]).drop == Run(ps).drop + Flag(HeaderCounter(p) != HeaderCounter(Last(ps)))
  {
    hide HasPayload, Pid, Discontinuity, HeaderCounter;
    RunSnoc(ps, p);
    RunInvariant(ps);
  }

  /** A packet with a payload whose counter is another one is a loss exactly if it is not the next one. */
  lemma WithPayload(ps: seq<Packet>, p: Packet)
    requires ps != [] && Plain(p) && HasPayload(p) && HeaderCounter(p) != HeaderCounter(Last(ps))
    ensures Run(ps + [p]).drop == Run(ps).drop + Flag(HeaderCounter(p) != (HeaderCounter(Last(ps)) + 1) % 16)
    ensures Run(ps + [p]).repeat == 0
  {
    hide HasPayload, Pid, Discontinuity, HeaderCounter;
    RunSnoc(ps, p);
    RunInvariant(ps);
  }

  /** A packet with a payload that has the last counter but is not the last packet is a loss. */
  lemma SameCounterOtherPacket(ps: seq<Packet>, p: Packet)
    requires ps != [] && Plain(p) && HasPayload(p) && HeaderCounter(p) == HeaderCounter(Last(ps)) && p != Last(ps)
    ensures Run(ps + [p]).drop == Run(ps).drop + 1
    ensures Run(ps + [p]).repeat == 0
  {
    hide HasPayload, Pid, Discontinuity, HeaderCounter;
    RunSnoc(ps, p);
    RunInvariant(ps);
  }

  function Copies(p: Packet, n: nat): (ps: seq<Packet>)
    ensures |ps| == n
  {
    seq(n, _ => p)
  }

  lemma OneCopyMore(ps: seq<Packet>, p: Packet)
    requires ps != [] && p == Last(ps) && Plain(p) && HasPayload(p)
    ensures Run(ps + [p]).drop == Run(ps).drop + Run(ps).repeat
    ensures Run(ps + [p]).repeat == 1 - Run(ps).repeat
  {
    hide HasPayload, Pid, Discontinuity, HeaderCounter;
    RunSnoc(ps, p);
    RunInvariant(ps);
  }

  /**
   Repetitions of a packet that came with a new counter: the standard allows one, and of a longer
   row every second one is a loss.
   */
  lemma {:induction false} Repeated(ps: seq<Packet>, p: Packet, n: nat)
    requires ps != [] && Plain(p) && HasPayload(p) && HeaderCounter(p) != HeaderCounter(Last(ps))
    ensures Run(ps + [p] + Copies(p, n)).drop == Run(ps + [p]).drop + n / 2
    ensures Run(ps + [p] + Copies(p, n)).repeat == n % 2
    decreases n
  {
    hide HasPayload, Pid, Discontinuity, HeaderCounter, Run;
    if n == 0 {
      WithPayload(ps, p);
      assert ps + [p] + Copies(p, 0) == ps + [p];
    } else {
      Repeated(ps, p, n - 1);
      assert ps + [p] + Copies(p, n) == ps + [p] + Copies(p, n - 1) + [p];
      OneCopyMore(ps + [p] + Copies(p, n - 1), p);
    }
  }

  // ---------------------------------------------------------------- whole streams

  /** The counter rises by one at each packet with a payload and stays at each packet without one. */
  predicate WellCounted(ps: seq<Packet>) {
    && (forall i :: 0 <= i < |ps| ==> Plain(ps[i]))
    && forall i :: 1 <= i < |ps| ==>
         HeaderCounter(ps[i]) == if HasPayload(ps[i]) then (HeaderCounter(ps[i - 1]) + 1) % 16 else HeaderCounter(ps[i - 1])
  }

  lemma ShortIsClean(ps: seq<Packet>)
    requires |ps| <= 1
    ensures Run(ps).drop == 0
  {
    hide HasPayload, Pid, Discontinuity, HeaderCounter;
    if ps != [] {
      assert ps[..0] == [];
    }
  }

  lemma OneMoreClean(ps: seq<Packet>, p: Packet)
    requires ps != [] && Plain(p)
    requires HeaderCounter(p) == if HasPayload(p) then (HeaderCounter(Last(ps)) + 1) % 16 else HeaderCounter(Last(ps))
    ensures Run(ps + [p]).drop == Run(ps).drop
  {
    hide HasPayload, Plain, Run;
    if HasPayload(p) {
      NextCounter(HeaderCounter(Last(ps)));
      WithPayload(ps, p);
    } else {
      WithoutPayload(ps, p);
    }
  }

  /** A stream that is counted as the standard says reports no loss. */
  lemma {:induction false} WellCountedIsClean(ps: seq<Packet>)
    requires WellCounted(ps)
    ensures Run(ps).drop == 0
    decreases |ps|
  {
    hide HasPayload, Plain, HeaderCounter, Run;
    if |ps| > 1 {
      var n := |ps| - 1;
      WellCountedIsClean(ps[..n]);
      OneMoreClean(ps[..n], ps[n]);
      assert ps[..n] + [ps[n]] == ps;
    } else {
      ShortIsClean(ps);
    }
  }

  // ---------------------------------------------------------------- errors and scrambling

  /** The packets' headers have these fields. */
  ghost predicate AllHaveFields(ps: seq<Packet>, fs: seq<HeadFields>) {
    |ps| == |fs| && forall i :: 0 <= i < |ps| ==> HasFields(ps[i], fs[i])
  }

  function Errors(fs: seq<HeadFields>): nat {
    if fs == [] then 0 else Errors(fs[..|fs| - 1]) + if fs[|fs| - 1].error != 0 then 1 else 0
  }

  function Scrambled(fs: seq<HeadFields>): nat {
    if fs == [] then 0 else Scrambled(fs[..|fs| - 1]) + if fs[|fs| - 1].scrambling != 0 then 1 else 0
  }

  lemma FlagsFromFields(p: Packet, f: HeadFields)
    requires HasFields(p, f)
    ensures HasError(p) <==> f.error != 0
    ensures IsScrambled(p) <==> f.scrambling != 0
  {
    hide AdaptOf, PayloadStart;
    HeadRoundTrip(p, f);
  }

  lemma CountedFlags(c: DropCount, p: Packet)
    ensures Count(c, p).error == c.error + Flag(HasError(p))
    ensures Count(c, p).scrambling == c.scrambling + Flag(IsScrambled(p))
  {
    hide HasPayload, Pid, Discontinuity, HeaderCounter;
  }

  /** The tallies count the packets whose transport_error_indicator or transport_scrambling_control is not zero. */
  lemma {:induction false} TalliesCountFields(ps: seq<Packet>, fs: seq<HeadFields>)
    requires AllHaveFields(ps, fs)
    ensures Run(ps).error == Errors(fs) && Run(ps).scrambling == Scrambled(fs)
    decreases |ps|
  {
    hide Count, HasError, IsScrambled, HasFields;
    if ps != [] {
      var n := |ps| - 1;
      TalliesCountFields(ps[..n], fs[..n]);
      FlagsFromFields(ps[n], fs[n]);
      CountedFlags(Run(ps[..n]), ps[n]);
    }
  }

  // ---------------------------------------------------------------- concrete packets

  /** A packet without a payload: an adaptation field that fills it. */
  function Filler(counter: nat): Packet
    requires counter < 16
  {
    [0x47, 0, 1, 0x20 + counter, 183, 0] + seq(182, _ => 0)
  }

  lemma FillerFields(counter: nat)
    requires counter < 16
    ensures var p := Filler(counter); Plain(p) && !HasPayload(p) && HeaderCounter(p) == counter
  {
    var p := Filler(counter);
    assert p[1] == 0 && p[2] == 1 && p[3] == 0x20 + counter && p[4] == 183 && p[5] == 0;
    assert p[4..][0] == 183 && p[4..][1] == 0;
  }

  /** Behind a packet with counter 5 a filler with counter 5 is no loss, and one with counter 6 is. */
  lemma {:induction false} FillersJudged(p: Packet)
    requires HeaderCounter(p) == 5
    ensures Run([p, Filler(5)]).drop == 0 && Run([p, Filler(6)]).drop == 1
  {
    hide Filler, HasPayload, Plain, HeaderCounter, Run;
    FillerFields(5);
    FillerFields(6);
    ShortIsClean([p]);
    WithoutPayload([p], Filler(5));
    WithoutPayload([p], Filler(6));
    assert [p] + [Filler(5)] == [p, Filler(5)] && [p] + [Filler(6)] == [p, Filler(6)];
  }
}
