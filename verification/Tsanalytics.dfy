/**
 The whole program of tsanalytics.c, from the packets of a file to the lists that are printed.
 */
module Tsanalytics {
  import opened Bytes
  import opened Header
  import opened Reassembly
  import opened Deliveries
  import opened ProgramTable
  import opened DropLists
  import opened Calendar
  import opened Analysis
  import opened Analyzers
  import opened Accounting
  import opened Views
  import opened Report
  import opened Columns
  import opened PidIndependence
  import opened Sections
  import opened GroupBy
  import LossBound
  import Pat
  import Sums

  /** A printed time: "unknown" when the day is 0. */
  datatype Stamp = Missing | At(tm: Tm)

  /** What is printed of the PAT; without one the program reads an uninitialised structure. */
  datatype ProgramInfo = Uninitialised | Listed(transportStreamId: nat, programs: seq<Token<nat>>)

  function ProgramInfoOf(pat: FirstPat): ProgramInfo {
    if pat.NoPat? then Uninitialised
    else Listed(pat.table.header.id, ProgramTokens(pat.table.pids, |pat.table.pids|))
  }

  /** The TSInfo object. */
  datatype TsInfo = TsInfo(
    syncError: nat,
    packetTotal: nat,
    firstTot: Stamp,
    lastTot: Stamp,
    programInfo: ProgramInfo,
    dropPid: seq<Token<PidLine>>,
    dropPercent: seq<Token<Entry>>,
    dropTot: seq<Token<Entry>>)

  /** What is printed: nothing but the file's own data for a file that is no transport stream. */
  datatype Output = FileInfoOnly | WithTsInfo(info: TsInfo)

  function StampOf(tm: Tm): Stamp {
    if tm.date.mday == 0 then Missing else At(tm)
  }

  function OutputOf(st: State, packetTotal: nat): Output {
    if st.notTs then FileInfoOnly
    else WithTsInfo(TsInfo(
      st.syncError, packetTotal, StampOf(st.firstTot), StampOf(st.lastTot), ProgramInfoOf(st.pat),
      Joined(UsedLines(st.counts, PID_COUNT)),
      Joined(FirstLines(st.losses.byPercent)),
      Joined(FirstLines(st.losses.byTot))))
  }

  /** A program table holds as many entries as it counts. */
  lemma {:induction false} TableComplete(input: seq<Feed>, k: nat)
    requires k <= |input|
    ensures After(input, k).pat.Took? ==> After(input, k).pat.table.numOfPids == |After(input, k).pat.table.pids|
  {
    hide After, LookedInto, Delivered;
    FirstPatIsTaken(input, k);
  }

  /** `tsanalytics` without its hashes. */
  method Run(input: seq<Feed>, stale: Stale) returns (out: Output)
    ensures out == OutputOf(After(input, |input|), |input|)
  {
    hide After, ProgramTokens, PacketTable.Valid, PacketTable.States, DropList.Valid, DropList.Contents,
         EntriesValid, Joined, UsedLines;
    var a := Analyze(input, stale);
    ghost var st := a.Current();
    var dropPercent := ConvJsonDropKey(a.log.byPercent);
    var dropTot := ConvJsonDropKey(a.log.byTot);
    if a.notTs {
      return FileInfoOnly;
    }
    assert st == State(a.counts[..], a.table.States(), a.log.Contents(), a.currentTot, a.firstTot, a.lastTot,
                       a.syncError, a.syncErrRepeat, a.notTs, a.pat);
    TableComplete(input, |input|);
    var programInfo := Uninitialised;
    if a.pat.Took? {
      var programs := ReportPrograms(a.pat.table);
      programInfo := Listed(a.pat.table.header.id, programs);
    }
    var dropPid := ReportPids(a.counts);
    out := WithTsInfo(TsInfo(a.syncError, |input|, StampOf(a.firstTot), StampOf(a.lastTot), programInfo,
                           dropPid, dropPercent, dropTot));
  }

  lemma {:induction false} NoneSkipped(input: seq<Feed>, k: nat)
    requires k <= |input| && !After(input, k).notTs
    ensures Skipped(input, k) == 0
    decreases k
  {
    hide StepSynced, Synced;
    if k > 0 {
      NoneSkipped(input, k - 1);
    }
  }

  // ---------------------------------------------------------------- what the output means

  /** For this file this object is printed. */
  predicate Prints(input: seq<Feed>, info: TsInfo) {
    OutputOf(After(input, |input|), |input|) == WithTsInfo(info)
  }

  /** The packets of a PID that were counted. */
  function Counted(input: seq<Feed>, pid: nat): seq<Packet> {
    OfPid(Accepted(input, |input|), pid)
  }

  /** A line per PID that has packets, in ascending order, with the columns that its own packets give. */
  ghost predicate PidLinesOf(input: seq<Feed>, ls: seq<PidLine>) {
    && (forall i, j :: 0 <= i < j < |ls| ==> ls[i].pid < ls[j].pid)
    && (forall i :: 0 <= i < |ls| ==>
          ls[i].pid < 8192 && Counted(input, ls[i].pid) != [] && Shows(ls[i], LossBound.Run(Counted(input, ls[i].pid))))
    && forall pid :: 0 <= pid < 8192 && Counted(input, pid) != [] ==> exists l :: l in ls && l.pid == pid
  }

  lemma UsedIffCounted(input: seq<Feed>, pid: nat)
    requires pid < 8192
    ensures After(input, |input|).counts[pid] == LossBound.Run(Counted(input, pid))
    ensures After(input, |input|).counts[pid].total > 0 <==> Counted(input, pid) != []
  {
    hide After, Accepted, OfPid, LossBound.Count;
    EntriesAreIndependent(input, |input|, pid);
    LossBound.RunInvariant(Counted(input, pid));
  }

  lemma UsedLinesAre(input: seq<Feed>)
    ensures PidLinesOf(input, UsedLines(After(input, |input|).counts, PID_COUNT))
  {
    hide After, UsedLines, Counted, Shows, LossBound.Run;
    var counts := After(input, |input|).counts;
    var ls := UsedLines(counts, PID_COUNT);
    LinesAscend(counts, PID_COUNT);
    forall i | 0 <= i < |ls|
      ensures Counted(input, ls[i].pid) != [] && Shows(ls[i], LossBound.Run(Counted(input, ls[i].pid)))
    {
      UsedIffCounted(input, ls[i].pid);
    }
    forall pid | 0 <= pid < 8192 && Counted(input, pid) != []
      ensures exists l :: l in ls && l.pid == pid
    {
      UsedIffCounted(input, pid);
      LinesComplete(counts, PID_COUNT, pid);
    }
  }

  lemma PidList(st: State, n: nat, info: TsInfo)
    requires OutputOf(st, n) == WithTsInfo(info)
    ensures info.dropPid == Joined(UsedLines(st.counts, PID_COUNT)) && Items(info.dropPid) == UsedLines(st.counts, PID_COUNT)
  {
    hide UsedLines, Joined, Items, ProgramInfoOf, FirstLines;
    ItemsOfJoined(UsedLines(st.counts, PID_COUNT));
  }

  /** The printed lines of the PIDs. */
  lemma PrintedPids(input: seq<Feed>, info: TsInfo)
    requires Prints(input, info)
    ensures info.dropPid == Joined(Items(info.dropPid))
    ensures PidLinesOf(input, Items(info.dropPid))
  {
    assert OutputOf(After(input, |input|), |input|) == WithTsInfo(info);
    hide *;
    PidList(After(input, |input|), |input|, info);
    UsedLinesAre(input);
  }

  /** The lists of losses are printed as they are, the list of times up to 20000 lines. */
  lemma PrintedKeys(input: seq<Feed>, info: TsInfo)
    requires Prints(input, info)
    ensures var losses := After(input, |input|).losses;
      && PercentagesAscend(Items(info.dropPercent))
      && Items(info.dropPercent) == losses.byPercent
      && Items(info.dropTot) <= losses.byTot
      && |Items(info.dropTot)| == Min(20000, |losses.byTot|)
      && info.dropPercent == Joined(Items(info.dropPercent))
      && info.dropTot == Joined(Items(info.dropTot))
  {
    hide After, UsedLines, Joined, Items, ProgramInfoOf, FirstLines;
    var losses := After(input, |input|).losses;
    ItemsOfJoined(FirstLines(losses.byPercent));
    ItemsOfJoined(FirstLines(losses.byTot));
    FirstLinesAre(losses.byPercent);
    FirstLinesAre(losses.byTot);
    PercentListShort(input, |input|);
  }

  /** Each printed percentage has the anomalies of its percentile of the file. */
  lemma PrintedPercentages(input: seq<Feed>, info: TsInfo, i: nat, kind: Kind)
    requires Prints(input, info) && i < |Items(info.dropPercent)|
    ensures var es := Items(info.dropPercent);
      && es[i].key.Percent?
      && GroupBy.Count(es[i], kind) == Min(99999999, PercentileSum(input, |input|, es[i].key.n, kind))
  {
    hide After, Prints, Items, GroupBy.Count, PercentileSum;
    PrintedKeys(input, info);
    PercentList(input, |input|, i, kind);
  }

  /** Each printed time is one that a table gave, or none, and has the anomalies filed under it. */
  lemma PrintedTimes(input: seq<Feed>, info: TsInfo, i: nat, kind: Kind)
    requires Prints(input, info) && i < |Items(info.dropTot)|
    ensures var es, adds := Items(info.dropTot), TotAdds(input, |input|);
      && IsTimeKey(es[i].key, Times(input, |input|))
      && GroupBy.Count(es[i], kind) == Min(99999999, OfKey(adds, es[i].key, kind))
  {
    hide After, Prints, Items, GroupBy.Count, TotAdds, OfKey, Times, IsTimeKey, FirstSeen, Landed, UnitAdds, ListOf;
    var adds := TotAdds(input, |input|);
    PrintedKeys(input, info);
    TimeList(input, |input|);
    TimeKeys(input, |input|);
    ListsAreAdds(input, |input|);
    AddsAreUnit(input, |input|);
    EveryKeyIsExact(adds, i, kind);
  }

  /** No printed counter of this kind is at its cap, and the list of times is printed whole. */
  predicate WithinLimits(info: TsInfo, kind: Kind) {
    && BelowCap(Items(info.dropTot), kind) && BelowCap(Items(info.dropPercent), kind)
    && |Items(info.dropTot)| < 20000
  }

  /**
   The three printed lists agree: while no printed counter is at its cap and the list of times
   is printed whole, each kind of anomaly has the same sum in all of them.
   */
  lemma PrintedViewsAgree(input: seq<Feed>, info: TsInfo, kind: Kind)
    requires Prints(input, info) && WithinLimits(info, kind)
    ensures Sums.Sum(Column(Items(info.dropPid), kind)) == Total(Items(info.dropPercent), kind) == Total(Items(info.dropTot), kind)
  {
    hide After, UsedLines, Joined, Items, ProgramInfoOf, FirstLines, Column, TotalColumn, Sums.Sum, Total, BelowCap, Tallies;
    PrintedKeys(input, info);
    ItemsOfJoined(UsedLines(After(input, |input|).counts, PID_COUNT));
    PrintedColumns(input, |input|, kind);
    assert Items(info.dropTot) == After(input, |input|).losses.byTot;
    ThreeViewsAgree(input, |input|, kind);
  }

  /** The non-zero program numbers of the associations, in order. */
  function ProgramsOf(s: seq<Pat.Association>): seq<nat> {
    if s == [] then []
    else ProgramsOf(s[..|s| - 1]) + if s[|s| - 1].program != 0 then [s[|s| - 1].program] else []
  }

  lemma NoPrograms()
    ensures ProgramsOf([]) == []
  {}

  lemma {:induction false} DecodedPrograms(s: seq<Pat.Association>, n: nat)
    requires n <= |s|
    ensures Programs(Pat.DecodedAll(s), n) == ProgramsOf(s[..n])
    decreases n
  {
    if n > 0 {
      DecodedPrograms(s, n - 1);
      assert s[..n][..n - 1] == s[..n - 1];
    }
  }

  /**
   If the first table on PID 0 was transmitted past its size, the printed transport_stream_id is
   the encoded one and the printed programs are the encoded non-zero ones in order, well joined
   exactly unless a network association ends a list that has programs.
   */
  lemma {:induction false} PrintedPrograms(input: seq<Feed>, info: TsInfo, earlier: seq<Feed>, fs: seq<Feed>,
      h: SectionHeader, reserved1: nat, reserved2: nat, s: seq<Pat.Association>)
    requires Prints(input, info)
    requires LookedInto(input, |input|, 0) == earlier + fs && Delivered(earlier) == []
    requires ValidHeader(h) && reserved1 < 8 && reserved2 < 4 && Pat.ValidAssociations(s)
    requires h.length == 5 + 4 * |s| + 4
    requires Transmission(fs) && Announced(fs) == h.length + 3 && |Stream(fs)| > h.length + 3
    requires Pat.EncodePat(h, reserved1, reserved2, s) <= Stream(fs)
    ensures var printed := info.programInfo;
      && printed.Listed?
      && printed.transportStreamId == h.id
      && Items(printed.programs) == ProgramsOf(s)
      && (printed.programs == Joined(ProgramsOf(s)) <==> ProgramsOf(s) == [] || s[|s| - 1].program != 0)
  {
    hide After, LookedInto, Delivered, Announced, Stream, Transmission, Pat.EncodePat, ValidHeader, Joined, Items,
         UsedLines, FirstLines, ProgramTokens, Programs, ProgramsOf;
    NoPrograms();
    ProgramsAreRead(input, |input|, earlier, fs, h, reserved1, reserved2, s);
    var pids := Pat.DecodedAll(s);
    ProgramsJoined(pids);
    DecodedPrograms(s, |s|);
    assert s[..|s|] == s;
    ItemsOfJoined(ProgramsOf(s));
    ItemsSnoc(Joined(ProgramsOf(s)), Comma);
  }

  /**
   What a reader of the output can rely on: TSInfo is missing exactly when 102 consecutive
   packets lacked the sync byte; otherwise every packet is in `packet_total` once, in the printed
   PID lines twice or in `sync_error`, each column of the PID lines sums to the anomalies of all
   PIDs and within the limits of printing to the totals of both other lists, each line has what
   its PID's own packets give, the percentages ascend, the printed times are the first and last
   that a TOT gave, and the programs are those of the first PAT, if there was one.
   */
  lemma OutputMeaning(input: seq<Feed>)
    ensures var out, st, times := OutputOf(After(input, |input|), |input|), After(input, |input|), Times(input, |input|);
      && (out.FileInfoOnly? <==> exists j :: 0 <= j <= |input| && BadStretch(input, j, 102))
      && (out.WithTsInfo? ==>
            var info, lines := out.info, Items(out.info.dropPid);
            && info.packetTotal == |input|
            && 2 * info.packetTotal == Sums.Sum(TotalColumn(lines)) + 2 * info.syncError
            && (forall kind :: Sums.Sum(Column(lines, kind)) == Sums.Sum(Tallies(st.counts, kind)))
            && PidLinesOf(input, lines)
            && PercentagesAscend(Items(info.dropPercent))
            && (forall kind :: WithinLimits(info, kind) ==>
                  Sums.Sum(Column(lines, kind)) == Total(Items(info.dropPercent), kind) == Total(Items(info.dropTot), kind))
            && (forall i :: 0 <= i < |Items(info.dropTot)| ==> IsTimeKey(Items(info.dropTot)[i].key, times))
            && info.firstTot == (if times == [] then Missing else At(times[0]))
            && info.lastTot == (if times == [] then Missing else At(times[|times| - 1]))
            && info.programInfo == ProgramInfoOf(FirstOf(Delivered(LookedInto(input, |input|, 0)))))
  {
    hide After, BadStretch, Times, Totals, Sums.Sum, Joined, UsedLines, Skipped, ProgramInfoOf, FirstOf, Delivered,
         LookedInto, Items, Column, TotalColumn, Tallies, PidLinesOf, PercentagesAscend, IsTimeKey, FirstLines, WithinLimits, Total;
    var n := |input|;
    LatchIffBadStretch(input, n);
    if !After(input, n).notTs {
      var info := OutputOf(After(input, n), n).info;
      NoneSkipped(input, n);
      PacketAccounting(input, n);
      TimesAreTracked(input, n);
      FirstPatIsTaken(input, n);
      PrintedPids(input, info);
      PrintedKeys(input, info);
      ItemsOfJoined(UsedLines(After(input, n).counts, PID_COUNT));
      forall kind
        ensures Sums.Sum(Column(Items(info.dropPid), kind)) == Sums.Sum(Tallies(After(input, n).counts, kind))
      {
        PrintedColumns(input, n, kind);
      }
      forall kind | WithinLimits(info, kind)
        ensures Sums.Sum(Column(Items(info.dropPid), kind)) == Total(Items(info.dropPercent), kind)
             == Total(Items(info.dropTot), kind)
      {
        PrintedViewsAgree(input, info, kind);
      }
      PrintedColumns(input, n, Drop);
      forall i | 0 <= i < |Items(info.dropTot)|
        ensures IsTimeKey(Items(info.dropTot)[i].key, Times(input, n))
      {
        PrintedTimes(input, info, i, Drop);
      }
    }
  }
}
