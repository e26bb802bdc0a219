/**
 The keyed tallies of drop_list.c: a linked list that is searched from its head, extended at
 its end and incremented in place.
 */
module DropLists {
  import opened Calendar

  /** The text a loss is filed under: a percentage, a broadcast time, or "unknown" before the first one. */
  datatype Key = Unknown | Percent(n: nat) | Clock(tm: Tm)

  const MAX_COUNT: nat := 99999999
  const SEARCH_LIMIT: nat := 100000

  datatype Entry = Entry(key: Key, drop: nat, error: nat, scrambling: nat)

  /** One call's increments. */
  datatype Add = Add(key: Key, drop: nat, error: nat, scrambling: nat)

  // ---------------------------------------------------------------- specification of one call

  function Capped(count: nat, more: nat): nat {
    if count < MAX_COUNT then count + more else count
  }

  function Bump(e: Entry, a: Add): Entry {
    Entry(e.key, Capped(e.drop, a.drop), Capped(e.error, a.error), Capped(e.scrambling, a.scrambling))
  }

  /** The search from position `i`: it gives up at the limit without comparing the key there. */
  function Scan(es: seq<Entry>, key: Key, i: nat): (j: nat)
    requires i <= |es| && i <= SEARCH_LIMIT
    ensures i <= j <= |es| && j <= SEARCH_LIMIT
    decreases |es| - i
  {
    if i == SEARCH_LIMIT || i == |es| || es[i].key == key then i else Scan(es, key, i + 1)
  }

  function Added(es: seq<Entry>, a: Add): seq<Entry> {
    var j := Scan(es, a.key, 0);
    if j == |es| then es + [Bump(Entry(a.key, 0, 0, 0), a)] else es[j := Bump(es[j], a)]
  }

  lemma {:induction false} ScanResult(es: seq<Entry>, key: Key, i: nat, j: nat)
    requires i <= j <= |es| && j <= SEARCH_LIMIT
    requires forall k :: i <= k < j ==> es[k].key != key
    requires j == SEARCH_LIMIT || j == |es| || es[j].key == key
    ensures Scan(es, key, i) == j
    decreases j - i
  {
    if i < j {
      ScanResult(es, key, i + 1, j);
    }
  }

  // ---------------------------------------------------------------- the linked list

  class DropNode {
    var key: Key
    var drop: nat
    var error: nat
    var scrambling: nat
    var next: DropNode?

    /** A zeroed node with its key filled in. */
    constructor (key: Key)
      ensures this.key == key && drop == error == scrambling == 0 && next == null
    {
      this.key := key;
      drop, error, scrambling := 0, 0, 0;
      next := null;
    }

    function Value(): Entry
      reads this
    {
      Entry(key, drop, error, scrambling)
    }

    /** The three capped increments. */
    method Increment(nowDrop: nat, nowError: nat, nowScrambling: nat)
      modifies this
      ensures Value() == Bump(old(Value()), Add(old(key), nowDrop, nowError, nowScrambling))
      ensures next == old(next)
    {
      if drop < MAX_COUNT {
        drop := drop + nowDrop;
      }
      if error < MAX_COUNT {
        error := error + nowError;
      }
      if scrambling < MAX_COUNT {
        scrambling := scrambling + nowScrambling;
      }
    }
  }

  class DropList {
    var head: DropNode?
    ghost var nodes: seq<DropNode>

    constructor ()
      ensures Valid() && Contents() == [] && nodes == []
    {
      head := null;
      nodes := [];
    }

    ghost predicate Valid()
      reads this, nodes
    {
      && |nodes| <= SEARCH_LIMIT + 1
      && (head == null <==> nodes == [])
      && (nodes != [] ==> head == nodes[0])
      && (forall i {:trigger nodes[i].next} :: 0 <= i < |nodes| ==> nodes[i].next == NodeAt(i + 1))
      && (forall i, j :: 0 <= i < j < |nodes| ==> nodes[i] != nodes[j])
    }

    /** The i-th node, null behind the end. */
    ghost function NodeAt(i: nat): DropNode?
      reads this
    {
      if i < |nodes| then nodes[i] else null
    }

    ghost function Contents(): (es: seq<Entry>)
      reads this, nodes
      ensures |es| == |nodes|
    {
      seq(|nodes|, i requires 0 <= i < |nodes| reads this, nodes => nodes[i].Value())
    }

    /** `add_drop_list` */
    method AddDrop(key: Key, nowDrop: nat, nowError: nat, nowScrambling: nat)
      requires Valid()
      modifies this, nodes
      ensures Valid()
      ensures Contents() == Added(old(Contents()), Add(key, nowDrop, nowError, nowScrambling))
      ensures forall n :: n in nodes ==> n in old(nodes) || fresh(n)
    {
      ghost var a := Add(key, nowDrop, nowError, nowScrambling);
      ghost var es := Contents();
      ghost var j := Scan(es, key, 0);
      var p := Locate(key);
      ghost var found := Contents();
      p.Increment(nowDrop, nowError, nowScrambling);
      forall i | 0 <= i < |nodes| && i != j
        ensures nodes[i].Value() == found[i]
      {
        assert nodes[i] != p;
      }
      assert Contents() == found[j := Bump(found[j], a)];
    }

    /** The search of `add_drop_list`: the node to increment, appended if the key is new. */
    method Locate(key: Key) returns (p: DropNode)
      requires Valid()
      modifies this, nodes
      ensures Valid()
      ensures var j := Scan(old(Contents()), key, 0);
        && j < |nodes| && p == nodes[j]
        && nodes == (if j == |old(nodes)| then old(nodes) + [p] else old(nodes))
        && Contents() == (if j == |old(nodes)| then old(Contents()) + [Entry(key, 0, 0, 0)] else old(Contents()))
        && (j == |old(nodes)| ==> fresh(p))
    {
      if head == null {
        head := new DropNode(key);
        nodes := [head];
        assert Scan([], key, 0) == 0;
        return head;
      }
      p := head;
      var i := 0;
      ghost var es := Contents();
      while i < SEARCH_LIMIT
        invariant 0 <= i <= SEARCH_LIMIT && i < |nodes|
        invariant p == nodes[i]
        invariant forall k :: 0 <= k < i ==> nodes[k].key != key
        invariant Valid() && nodes == old(nodes) && Contents() == es == old(Contents())
      {
        if p.key == key {
          ScanResult(es, key, 0, i);
          return;
        }
        if p.next == null {
          ScanResult(es, key, 0, i + 1);
          p := Append(key, p);
          return;
        }
        assert p.next == NodeAt(i + 1);
        p := p.next;
        i := i + 1;
      }
      ScanResult(es, key, 0, i);
    }

    /** A new node behind the last one. */
    method Append(key: Key, last: DropNode) returns (p: DropNode)
      requires Valid() && nodes != [] && last == nodes[|nodes| - 1] && |nodes| <= SEARCH_LIMIT
      modifies this`nodes, last
      ensures Valid() && fresh(p) && nodes == old(nodes) + [p]
      ensures Contents() == old(Contents()) + [Entry(key, 0, 0, 0)]
    {
      p := new DropNode(key);
      last.next := p;
      nodes := nodes + [p];
    }

    /** `free_drop_list`: its loop stops after a million nodes, but no list is that long, so every node is freed, once. */
    method FreeAll() returns (ghost freed: seq<DropNode>)
      requires Valid()
      ensures freed == nodes
    {
      var ptr := head;
      freed := [];
      var i := 0;
      while i < 1000000
        invariant i <= |nodes|
        invariant freed == nodes[..i]
        invariant ptr == NodeAt(i)
      {
        if ptr == null {
          break;
        }
        assert ptr.next == NodeAt(i + 1);
        var tmp := ptr.next;
        freed := freed + [ptr];
        ptr := tmp;
        i := i + 1;
      }
    }
  }
}
