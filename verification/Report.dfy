/**
 The comma-separated lists of conv_json.c, with the end marker that m2tlib/drop_count.c sets.
 Output is a sequence of items and commas; the text of an item is not modelled.
 */
module Report {
  import opened Bytes
  import opened Continuity
  import opened DropLists
  import Pat

  datatype Token<T> = Item(value: T) | Comma

  /** Items with a comma between each two and none at the end. */
  function Joined<T>(xs: seq<T>): seq<Token<T>> {
    if xs == [] then []
    else if |xs| == 1 then [Item(xs[0])]
    else Joined(xs[..|xs| - 1]) + [Comma, Item(xs[|xs| - 1])]
  }

  /** Items in the even places, commas in the odd ones, an item at either end. */
  lemma {:induction false} JoinedShape<T>(xs: seq<T>)
    ensures |Joined(xs)| == if xs == [] then 0 else 2 * |xs| - 1
    ensures forall i :: 0 <= i < |xs| ==> Joined(xs)[2 * i] == Item(xs[i])
    ensures forall i :: 0 <= i < |xs| - 1 ==> Joined(xs)[2 * i + 1] == Comma
    decreases |xs|
  {
    if |xs| > 1 {
      JoinedShape(xs[..|xs| - 1]);
    }
  }

  // ---------------------------------------------------------------- marking the last PID

  /** The highest used PID below `n`, or 8191 if there is none. */
  function LastUsed(counts: seq<DropCount>, n: nat): nat
    requires n <= |counts|
  {
    if n == 0 then 8191 else if counts[n - 1].total > 0 then n - 1 else LastUsed(counts, n - 1)
  }

  predicate Marked(counts: seq<DropCount>) {
    forall i :: 0 <= i < |counts| ==> counts[i].last == Flag(i == LastUsed(counts, |counts|))
  }

  /** The array with its end marked. */
  function MarkedAt(counts: seq<DropCount>, last: nat): (r: seq<DropCount>)
    ensures |r| == |counts|
    ensures forall i :: 0 <= i < |counts| ==> r[i] == counts[i].(last := Flag(i == last))
  {
    seq(|counts|, i requires 0 <= i < |counts| => counts[i].(last := Flag(i == last)))
  }

  lemma {:induction false} LastUsedIgnoresMarks(counts: seq<DropCount>, last: nat, n: nat)
    requires n <= |counts|
    ensures LastUsed(MarkedAt(counts, last), n) == LastUsed(counts, n)
    decreases n
  {
    if n > 0 {
      LastUsedIgnoresMarks(counts, last, n - 1);
    }
  }

  lemma {:induction false} LastUsedRange(counts: seq<DropCount>, n: nat)
    requires n <= |counts|
    ensures LastUsed(counts, n) == 8191 || LastUsed(counts, n) < n
    decreases n
  {
    if n > 0 && counts[n - 1].total == 0 {
      LastUsedRange(counts, n - 1);
    }
  }

  /** `mark_last_drop_count` */
  method MarkLastDropCount(counts: array<DropCount>)
    requires counts.Length == PID_COUNT
    modifies counts
    ensures counts[..] == MarkedAt(old(counts[..]), LastUsed(old(counts[..]), PID_COUNT))
    ensures Marked(counts[..])
  {
    ghost var before := counts[..];
    var lastPid := 8191;
    for i := 0 to PID_COUNT
      invariant lastPid == LastUsed(before, i)
      invariant forall j :: 0 <= j < i ==> counts[j] == before[j].(last := 0)
      invariant forall j :: i <= j < PID_COUNT ==> counts[j] == before[j]
    {
      counts[i] := counts[i].(last := 0);
      if counts[i].total > 0 {
        lastPid := i;
      }
    }
    LastUsedRange(before, PID_COUNT);
    counts[lastPid] := counts[lastPid].(last := 1);
    assert counts[..] == MarkedAt(before, lastPid);
    LastUsedIgnoresMarks(before, lastPid, PID_COUNT);
  }

  // ---------------------------------------------------------------- the list of PIDs

  datatype PidLine = PidLine(pid: nat, total: nat, drop: nat, error: nat, scrambling: nat)

  function LineOf(pid: nat, c: DropCount): PidLine {
    PidLine(pid, c.total, c.drop, c.error, c.scrambling)
  }

  /** What the loop prints for the first `n` PIDs: a comma unless the entry is marked. */
  function PidTokens(counts: seq<DropCount>, n: nat): seq<Token<PidLine>>
    requires n <= |counts|
  {
    if n == 0 then []
    else
      var c := counts[n - 1];
      PidTokens(counts, n - 1)
      + (if c.total > 0 then [Item(LineOf(n - 1, c))] + (if c.last == 0 then [Comma] else []) else [])
  }

  /** `conv_json_drop_pid` */
  method ConvJsonDropPid(counts: array<DropCount>) returns (out: seq<Token<PidLine>>)
    requires counts.Length == PID_COUNT
    ensures out == PidTokens(counts[..], PID_COUNT)
  {
    out := [];
    for i := 0 to PID_COUNT
      invariant out == PidTokens(counts[..], i)
    {
      if counts[i].total > 0 {
        out := out + [Item(LineOf(i, counts[i]))];
        if counts[i].last == 0 {
          out := out + [Comma];
        }
      }
    }
  }

  /** The used PIDs below `n` in ascending order. */
  function UsedLines(counts: seq<DropCount>, n: nat): seq<PidLine>
    requires n <= |counts|
  {
    if n == 0 then []
    else UsedLines(counts, n - 1) + if counts[n - 1].total > 0 then [LineOf(n - 1, counts[n - 1])] else []
  }

  /** The line's columns are the entry's fields of those names. */
  predicate Shows(l: PidLine, c: DropCount) {
    l.total == c.total && l.drop == c.drop && l.error == c.error && l.scrambling == c.scrambling
  }

  /** Lines of used PIDs below `n`, in ascending order. */
  predicate Ascends(ls: seq<PidLine>, counts: seq<DropCount>, n: nat)
    requires n <= |counts|
  {
    && (forall i, j :: 0 <= i < j < |ls| ==> ls[i].pid < ls[j].pid)
    && (forall i :: 0 <= i < |ls| ==>
          ls[i].pid < n && counts[ls[i].pid].total > 0 && Shows(ls[i], counts[ls[i].pid]))
  }

  lemma AscendsSnoc(ls: seq<PidLine>, counts: seq<DropCount>, n: nat)
    requires n < |counts| && Ascends(ls, counts, n)
    ensures Ascends(ls, counts, n + 1)
    ensures counts[n].total > 0 ==> Ascends(ls + [LineOf(n, counts[n])], counts, n + 1)
  {}

  lemma {:induction false} LinesAscend(counts: seq<DropCount>, n: nat)
    requires n <= |counts|
    ensures Ascends(UsedLines(counts, n), counts, n)
    decreases n
  {
    hide LineOf, Shows;
    if n > 0 {
      hide Ascends;
      LinesAscend(counts, n - 1);
      AscendsSnoc(UsedLines(counts, n - 1), counts, n - 1);
      assert UsedLines(counts, n - 1) + [] == UsedLines(counts, n - 1);
    }
  }

  /** Every used PID has a line. */
  lemma {:induction false} LinesComplete(counts: seq<DropCount>, n: nat, pid: nat)
    requires pid < n <= |counts| && counts[pid].total > 0
    ensures exists l :: l in UsedLines(counts, n) && l.pid == pid && Shows(l, counts[pid])
    decreases n
  {
    if pid < n - 1 {
      LinesComplete(counts, n - 1, pid);
    } else {
      var l := LineOf(pid, counts[pid]);
      assert l in UsedLines(counts, n) && l.pid == pid && Shows(l, counts[pid]);
    }
  }

  /** A list that is not closed yet ends in a comma. */
  function SoFar<T>(xs: seq<T>, closed: bool): seq<Token<T>> {
    if xs == [] || closed then Joined(xs) else Joined(xs) + [Comma]
  }

  lemma JoinedNone<T>()
    ensures Joined<T>([]) == []
  {}

  lemma JoinedSnoc<T>(xs: seq<T>, x: T)
    ensures Joined(xs + [x]) == if xs == [] then [Item(x)] else Joined(xs) + [Comma, Item(x)]
  {
    assert xs != [] ==> (xs + [x])[..|xs|] == xs;
  }

  lemma SoFarStep<T>(xs: seq<T>, x: T, closes: bool)
    ensures SoFar(xs + [x], closes) == SoFar(xs, false) + ([Item(x)] + if closes then [] else [Comma])
  {
    hide Joined;
    JoinedSnoc(xs, x);
    JoinedNone<T>();
  }

  lemma SoFarNone<T>(closed: bool)
    ensures SoFar<T>([], closed) == []
  {}

  /** The last used PID is used, unless none is. */
  lemma {:induction false} LastIsUsed(counts: seq<DropCount>, n: nat, m: nat)
    requires m <= n <= |counts|
    requires LastUsed(counts, n) >= n || counts[LastUsed(counts, n)].total == 0
    ensures UsedLines(counts, m) == []
    decreases n
  {
    if n > 0 {
      LastIsUsed(counts, n - 1, if m < n then m else n - 1);
    }
  }

  lemma MarkOf(counts: seq<DropCount>, i: nat)
    requires Marked(counts) && i < |counts|
    ensures counts[i].last == 0 <==> i != LastUsed(counts, |counts|)
  {}

  /** No used PID is above the last one. */
  lemma {:induction false} UsedUpToLast(counts: seq<DropCount>, i: nat, n: nat)
    requires i < n <= |counts| && counts[i].total > 0
    ensures i <= LastUsed(counts, n) < n
    decreases n
  {
    if i < n - 1 && counts[n - 1].total == 0 {
      UsedUpToLast(counts, i, n - 1);
    }
  }

  /** Up to the marked entry every item is followed by a comma; there the list ends. */
  lemma {:induction false} TokensSoFar(counts: seq<DropCount>, n: nat)
    requires n <= |counts| && Marked(counts)
    ensures PidTokens(counts, n) == SoFar(UsedLines(counts, n), LastUsed(counts, |counts|) < n)
    decreases n
  {
    hide Marked, SoFar, LastUsed, LineOf;
    if n == 0 {
      SoFarNone<PidLine>(LastUsed(counts, |counts|) < n);
    } else {
      TokensSoFar(counts, n - 1);
      MarkOf(counts, n - 1);
      var xs, last := UsedLines(counts, n - 1), LastUsed(counts, |counts|);
      if counts[n - 1].total > 0 {
        UsedUpToLast(counts, n - 1, |counts|);
        SoFarStep(xs, LineOf(n - 1, counts[n - 1]), last == n - 1);
      } else {
        assert UsedLines(counts, n) == xs;
        if last == n - 1 {
          LastIsUsed(counts, |counts|, n - 1);
          SoFarNone<PidLine>(false);
          SoFarNone<PidLine>(true);
        }
      }
    }
  }

  lemma {:induction false} SomeUsed(counts: seq<DropCount>, n: nat)
    requires n <= |counts| && UsedLines(counts, n) != []
    ensures LastUsed(counts, n) < n
    decreases n
  {
    if counts[n - 1].total == 0 {
      SomeUsed(counts, n - 1);
    }
  }

  /** Printing a marked array gives the used PIDs in ascending order, separated and never trailed by commas. */
  lemma MarkedPidsAreJoined(counts: seq<DropCount>)
    requires Marked(counts)
    ensures PidTokens(counts, |counts|) == Joined(UsedLines(counts, |counts|))
  {
    hide Marked, PidTokens, Joined, LastUsed, UsedLines;
    TokensSoFar(counts, |counts|);
    if UsedLines(counts, |counts|) != [] {
      SomeUsed(counts, |counts|);
    }
  }

  lemma {:induction false} LinesIgnoreMarks(counts: seq<DropCount>, last: nat, n: nat)
    requires n <= |counts|
    ensures UsedLines(MarkedAt(counts, last), n) == UsedLines(counts, n)
    decreases n
  {
    if n > 0 {
      LinesIgnoreMarks(counts, last, n - 1);
    }
  }

  /** The end of the run: mark, then print. */
  method ReportPids(counts: array<DropCount>) returns (out: seq<Token<PidLine>>)
    requires counts.Length == PID_COUNT
    modifies counts
    ensures out == Joined(UsedLines(old(counts[..]), PID_COUNT))
  {
    ghost var before := counts[..];
    MarkLastDropCount(counts);
    out := ConvJsonDropPid(counts);
    MarkedPidsAreJoined(counts[..]);
    LinesIgnoreMarks(before, LastUsed(before, PID_COUNT), PID_COUNT);
  }

  // ---------------------------------------------------------------- the list of programs

  /** What the loop prints for the first `n` entries: a comma behind a program unless its entry is the last. */
  function ProgramTokens(pids: seq<Pat.Entry>, n: nat): seq<Token<nat>>
    requires n <= |pids|
  {
    if n == 0 then []
    else
      var p := pids[n - 1].program;
      ProgramTokens(pids, n - 1)
      + (if p != 0 then [Item(p)] + (if n != |pids| then [Comma] else []) else [])
  }

  /** The list of programs in the output. */
  method ReportPrograms(pat: Pat.TsPat) returns (out: seq<Token<nat>>)
    requires pat.numOfPids == |pat.pids|
    ensures out == ProgramTokens(pat.pids, |pat.pids|)
  {
    out := [];
    for i := 0 to pat.numOfPids
      invariant out == ProgramTokens(pat.pids, i)
    {
      var p := pat.pids[i].program;
      if p != 0 {
        out := out + [Item(p)];
        if i != pat.numOfPids - 1 {
          out := out + [Comma];
        }
      }
    }
  }

  /** The non-zero program numbers among the first `n` entries, in order. */
  function Programs(pids: seq<Pat.Entry>, n: nat): seq<nat>
    requires n <= |pids|
  {
    if n == 0 then []
    else Programs(pids, n - 1) + if pids[n - 1].program != 0 then [pids[n - 1].program] else []
  }

  lemma {:induction false} ProgramsSoFar(pids: seq<Pat.Entry>, n: nat)
    requires n <= |pids|
    ensures ProgramTokens(pids, n) == SoFar(Programs(pids, n), 0 < n == |pids| && pids[n - 1].program != 0)
    decreases n
  {
    hide SoFar;
    if n == 0 {
      SoFarNone<nat>(false);
    } else {
      ProgramsSoFar(pids, n - 1);
      if pids[n - 1].program != 0 {
        SoFarStep(Programs(pids, n - 1), pids[n - 1].program, n == |pids|);
      } else {
        assert Programs(pids, n) == Programs(pids, n - 1);
      }
    }
  }

  /**
   The programs are separated by commas with none trailing exactly if the last entry is a
   program or there is no program at all; otherwise a comma trails.
   */
  lemma {:induction false} ProgramsJoined(pids: seq<Pat.Entry>)
    ensures var n := |pids|; var out, programs := ProgramTokens(pids, n), Programs(pids, n);
      && (out == Joined(programs) <==> programs == [] || pids[n - 1].program != 0)
      && (out == Joined(programs) || out == Joined(programs) + [Comma])
  {
    hide Joined, ProgramTokens;
    ProgramsSoFar(pids, |pids|);
  }

  /** A table whose network entry comes last prints a trailing comma. */
  lemma {:induction false} NetworkEntryLast()
    ensures var pids := [Pat.Entry(0x408, 0, 0x1F0), Pat.Entry(0, 0x10, 0)]; ProgramTokens(pids, 2) == [Item(0x408), Comma]
  {
    var pids := [Pat.Entry(0x408, 0, 0x1F0), Pat.Entry(0, 0x10, 0)];
    assert ProgramTokens(pids, 1) == [Item(0x408), Comma];
  }

  // ---------------------------------------------------------------- the lists of keys

  const MAX_LINES: nat := 20000

  function FirstLines(es: seq<Entry>): seq<Entry> {
    if |es| <= MAX_LINES then es else es[..MAX_LINES]
  }

  /** At most 20000 entries, the first ones. */
  lemma FirstLinesAre(es: seq<Entry>)
    ensures FirstLines(es) <= es
    ensures |FirstLines(es)| == if |es| <= 20000 then |es| else 20000
  {}

  /** `conv_json_drop_key`: at most 20000 lines, without a comma after the last one printed. */
  method ConvJsonDropKey(list: DropList) returns (out: seq<Token<Entry>>)
    requires list.Valid()
    ensures out == Joined(FirstLines(list.Contents()))
  {
    hide Joined, DropNode.Value;
    out := [];
    var p := list.head;
    var i := 0;
    ghost var es := list.Contents();
    SoFarNone<Entry>(i == |es|);
    assert es[..0] == [];
    while i < MAX_LINES
      invariant 0 <= i < MAX_LINES && i <= |es|
      invariant p == list.NodeAt(i)
      invariant out == SoFar(es[..i], i == |es|)
    {
      if p == null {
        break;
      }
      assert es[..i + 1] == es[..i] + [es[i]] && es[i] == p.Value();
      SoFarStep(es[..i], es[i], i == MAX_LINES - 1 || i + 1 == |es|);
      out := out + [Item(p.Value())];
      if i == MAX_LINES - 1 {
        assert |es| == MAX_LINES ==> es[..MAX_LINES] == es;
        return;
      }
      assert p.next == list.NodeAt(i + 1);
      if p.next != null {
        out := out + [Comma];
      }
      p := p.next;
      i := i + 1;
    }
    assert es[..i] == es;
  }
}
