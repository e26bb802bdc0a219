/**
 The packet loop of tsanalytics.c as a state machine: what one packet does to the counters,
 the reassembly slots, the two loss lists and the times.
 */
module Analysis {
  import opened Bytes
  import opened Header
  import opened Continuity
  import opened PidIndependence
  import opened SectionAssembly
  import opened Reassembly
  import opened DropLists
  import opened Calendar
  import opened Tot
  import Pat

  const PAT_PID: nat := 0
  const TOT_PID: nat := 0x14
  const SYNC_ERROR_LIMIT: nat := 100

  /** A zeroed `struct tm`. */
  const NO_TIME := Tm(Date(0, 0, 0), 0, 0, 0)

  type Slots = s: seq<Slot> | |s| == PID_COUNT && forall i :: 0 <= i < PID_COUNT ==> SlotValid(s[i])
    witness seq(PID_COUNT, _ => Idle(false))

  datatype State = State(
    counts: Counters,
    slots: Slots,
    losses: Losses,
    currentTot: Key,
    firstTot: Tm,
    lastTot: Tm,
    syncError: nat,
    syncErrRepeat: nat,
    notTs: bool,
    pat: FirstPat)

  /** The PAT, whose structure is uninitialised until one is complete. */
  datatype FirstPat = NoPat | Took(table: Pat.TsPat)

  /** What the loop's uninitialised structures hold. */
  datatype Stale = Stale(head: TsHead, tot: TsTot)

  /** The two loss lists. */
  datatype Losses = Losses(byTot: seq<Entry>, byPercent: seq<Entry>)

  predicate Wanted(pid: nat) {
    pid == PAT_PID || pid == TOT_PID
  }

  function Start(): State {
    State(seq(PID_COUNT, _ => Fresh()), seq(PID_COUNT, i requires 0 <= i < PID_COUNT => Idle(Wanted(i))), Losses([], []),
          Unknown, NO_TIME, NO_TIME, 0, 0, false, NoPat)
  }

  // ---------------------------------------------------------------- one packet

  /** The increments of one packet under a key. */
  function AddOf(key: Key, c: DropCount, p: Packet): Add {
    Add(key, Flag(Loses(c, p)), Flag(HasError(p)), Flag(IsScrambled(p)))
  }

  /** Packet `i` of `n` is in this percentile of the file. */
  function PercentOf(i: nat, n: nat): Key
    requires i < n
  {
    Percent(i * 100 / n)
  }

  function Logged(l: Losses, c: DropCount, p: Packet, tot: Key, percent: Key): Losses {
    if Anomalous(c, p) then Losses(Added(l.byTot, AddOf(tot, c, p)), Added(l.byPercent, AddOf(percent, c, p))) else l
  }

  /** Packets with an error, or with no payload, are not looked into. */
  predicate Eligible(p: Packet) {
    !HasError(p) && AdaptationControl(p) != 2
  }

  /** The slot of a packet's PID after the packet, and whether a section is complete. */
  function StepEnabled(s: Slot, f: Feed): (r: (Slot, bool))
    requires SlotValid(s)
    ensures SlotValid(r.0)
  {
    if !Eligible(f.packet) || !s.enable then (s, false)
    else
      StepKeepsValid(s, f.packet, f.around);
      var (t, done) := StepSlot(s, f.packet, f.around);
      if done == 1 && Pid(f.packet) == PAT_PID then (t.(enable := false), true) else (t, done == 1)
  }

  /** The time that a completed section on the TOT PID carries, if it is taken for one. */
  predicate CarriesTime(s: Slot, f: Feed)
    requires SlotValid(s)
  {
    var (t, done) := StepEnabled(s, f);
    done && Pid(f.packet) == TOT_PID && ValidTot(Memory(t.payload, f.around.behindBuffer))
  }

  function TimeCarried(s: Slot, f: Feed): Tm
    requires SlotValid(s)
  {
    TimeAt(Memory(StepEnabled(s, f).0.payload, f.around.behindBuffer).From(3))
  }

  /** The completed section on the PAT's PID. */
  predicate CarriesPat(s: Slot, f: Feed)
    requires SlotValid(s)
  {
    StepEnabled(s, f).1 && Pid(f.packet) == PAT_PID
  }

  function PatCarried(s: Slot, f: Feed): Pat.TsPat
    requires SlotValid(s)
  {
    Pat.PatAt(Memory(StepEnabled(s, f).0.payload, f.around.behindBuffer))
  }

  /** A valid TOT: the current time, the last one, and the first if there was none (no date has a day 0). */
  function WithTime(st: State, tm: Tm): State {
    st.(currentTot := Clock(tm), firstTot := if st.firstTot.date.mday == 0 then tm else st.firstTot, lastTot := tm)
  }

  /** What a completed section changes. */
  function TakenFrom(st: State, pid: nat, mem: Memory): State {
    if pid == PAT_PID then st.(pat := Took(Pat.PatAt(mem)))
    else if pid == TOT_PID && ValidTot(mem) then WithTime(st, TimeAt(mem.From(3)))
    else st
  }

  /** The reassembly part of a packet's turn: the slot steps, and a completed section is taken. */
  function Gather(st: State, f: Feed): State {
    var pid := Pid(f.packet);
    var (t, done) := StepEnabled(st.slots[pid], f);
    var st1 := st.(slots := st.slots[pid := t]);
    if done then TakenFrom(st1, pid, Memory(t.payload, f.around.behindBuffer)) else st1
  }

  /** Besides the slot a turn changes the program table or the times, or neither. */
  lemma GatherChanges(st: State, f: Feed)
    ensures var s := st.slots[Pid(f.packet)]; var st1 := st.(slots := st.slots[Pid(f.packet) := StepEnabled(s, f).0]);
      && !(CarriesPat(s, f) && CarriesTime(s, f))
      && Gather(st, f) == if CarriesPat(s, f) then st1.(pat := Took(PatCarried(s, f)))
                          else if CarriesTime(s, f) then WithTime(st1, TimeCarried(s, f))
                          else st1
  {
    hide StepEnabled, ValidTot, TimeAt, Pid, WithTime, Pat.PatAt;
  }

  /** The packet is counted, checked and logged. */
  function Checked(st: State, p: Packet, percent: Key): State {
    st.(syncErrRepeat := 0,
        counts := CountAt(st.counts, p),
        losses := Logged(st.losses, st.counts[Pid(p)], p, st.currentTot, percent))
  }

  /** A packet with the sync byte: it is counted, checked and logged, and then collected. */
  function StepSynced(st: State, f: Feed, percent: Key): State {
    Gather(Checked(st, f.packet, percent), f)
  }

  /** One turn of the packet loop: packet `i` of `n`. */
  function StepState(st: State, f: Feed, i: nat, n: nat): State
    requires i < n
  {
    if st.notTs then st
    else if !Synced(f.packet) then
      st.(syncError := st.syncError + 1,
          notTs := st.syncErrRepeat > SYNC_ERROR_LIMIT,
          syncErrRepeat := st.syncErrRepeat + 1)
    else StepSynced(st, f, PercentOf(i, n))
  }

  /** The state after the first `k` packets of a file. */
  function After(input: seq<Feed>, k: nat): State
    requires k <= |input|
  {
    if k == 0 then Start() else StepState(After(input, k - 1), input[k - 1], k - 1, |input|)
  }
}
