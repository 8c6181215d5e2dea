/** The list of deferred procedure calls (DPCs) of esd/src/osif.c.

    Part one is the value the spinlock protects and what each critical section does to it.
    Part two is the linked list in memory; each of its methods is proved to do exactly what
    part one says, whatever stale `next` pointers lie about in nodes that are not linked. */
module DpcList {

  /** What the spinlock protects, as a value. `D` identifies a DPC. */
  datatype ListState<!D> = ListState(queue: seq<D>, linked: set<D>, running: set<D>, destroyed: set<D>)

  datatype TriggerResult = Success | NoEntry | Fault

  ghost predicate NoDup<D>(s: seq<D>) {
    forall i, j | 0 <= i < j < |s| :: s[i] != s[j]
  }

  /** The list is duplicate-free, and a DPC is on it exactly when it is marked linked and not
      marked destroyed. */
  ghost predicate ListInv<D>(l: ListState<D>) {
    && NoDup(l.queue)
    && Elements(l.queue) == l.linked - l.destroyed
  }

  ghost function Elements<D>(s: seq<D>): set<D> {
    set d | d in s
  }

  /** The critical section of a trigger. The flag says whether the worker must be notified. */
  function TriggerSpec<D(==)>(l: ListState<D>, d: D): (ListState<D>, TriggerResult, bool) {
    if d in l.destroyed then (l, NoEntry, false)
    else if d in l.linked then (l, Success, false)
    else (l.(queue := l.queue + [d], linked := l.linked + {d}), Success, true)
  }

  /** The worker links out the first entry and marks it running. */
  function StartSpec<D(==)>(l: ListState<D>): ListState<D>
    requires l.queue != []
  {
    l.(queue := l.queue[1..], linked := l.linked - {l.queue[0]}, running := l.running + {l.queue[0]})
  }

  function FinishSpec<D(==)>(l: ListState<D>, d: D): ListState<D> {
    l.(running := l.running - {d})
  }

  function Without<D(==)>(s: seq<D>, d: D): seq<D> {
    if s == [] then []
    else if s[0] == d then s[1..]
    else [s[0]] + Without(s[1..], d)
  }

  /** The critical section of a destroy, up to its wait for a running function. */
  function UnlinkSpec<D(==)>(l: ListState<D>, d: D): ListState<D> {
    l.(queue := Without(l.queue, d), destroyed := l.destroyed + {d})
  }

  /** Removing one occurrence splices the sequence around it. */
  lemma {:induction false} WithoutAt<D>(s: seq<D>, d: D, i: nat)
    requires i < |s| && s[i] == d && d !in s[..i]
    ensures Without(s, d) == s[..i] + s[i + 1..]
  {
    if i > 0 {
      assert s[0] == s[..i][0];
      assert s[1..][..i - 1] == s[..i][1..];
      WithoutAt(s[1..], d, i - 1);
      assert [s[0]] + s[1..][..i - 1] == s[..i];
      assert s[1..][i..] == s[i + 1..];
    }
  }

  lemma {:induction false} WithoutAbsent<D>(s: seq<D>, d: D)
    requires d !in s
    ensures Without(s, d) == s
  {
    if s != [] {
      assert s[0] in s;
      WithoutAbsent(s[1..], d);
    }
  }

  lemma ElementsOfSplice<D>(s: seq<D>, i: nat)
    requires i < |s| && NoDup(s)
    ensures NoDup(s[..i] + s[i + 1..])
    ensures Elements(s[..i] + s[i + 1..]) == Elements(s) - {s[i]}
  {
  }

  /** In a duplicate-free sequence nothing else is removed and no order is changed. */
  lemma WithoutKeeps<D>(s: seq<D>, d: D)
    requires NoDup(s)
    ensures NoDup(Without(s, d))
    ensures Elements(Without(s, d)) == Elements(s) - {d}
  {
    if d in s {
      var i :| 0 <= i < |s| && s[i] == d;
      WithoutAt(s, d, i);
      ElementsOfSplice(s, i);
    } else {
      WithoutAbsent(s, d);
    }
  }

  lemma TailOfNoDup<D>(s: seq<D>)
    requires s != [] && NoDup(s)
    ensures NoDup(s[1..]) && s[0] !in s[1..]
    ensures Elements(s[1..]) == Elements(s) - {s[0]}
  {
  }

  /** Every critical section keeps the list invariant. */
  lemma SectionsKeepListInv<D>(l: ListState<D>, d: D)
    requires ListInv(l)
    ensures ListInv(TriggerSpec(l, d).0)
    ensures l.queue != [] ==> ListInv(StartSpec(l))
    ensures ListInv(FinishSpec(l, d))
    ensures ListInv(UnlinkSpec(l, d))
  {
    WithoutKeeps(l.queue, d);
    if l.queue != [] {
      assert Elements(l.queue) == {l.queue[0]} + Elements(l.queue[1..]);
    }
    assert Elements(l.queue + [d]) == Elements(l.queue) + {d};
    assert d in l.queue <==> d in Elements(l.queue);
  }

  // ---------------------------------------------------------------- the list in memory

  class Dpc {
    var next: Dpc?
    var linked: bool
    var running: bool
    var destroy: bool

    constructor ()
      ensures next == null && !linked && !running && !destroy
    {
      next, linked, running, destroy := null, false, false, false;
    }
  }

  ghost function NodeAt(s: seq<Dpc>, i: nat): Dpc? {
    if i < |s| then s[i] else null
  }

  /** Where every entry is after the entry at position `k` has left. */
  lemma LinkOut(s: seq<Dpc>, k: nat) returns (w: seq<Dpc>)
    requires k < |s| && NoDup(s)
    ensures w == Without(s, s[k]) && |w| == |s| - 1 && NoDup(w)
    ensures forall j {:trigger w[j]} | 0 <= j < |w| :: w[j] == s[if j < k then j else j + 1]
  {
    WithoutAt(s, s[k], k);
    WithoutKeeps(s, s[k]);
    w := s[..k] + s[k + 1..];
  }

  class DpcRoot {
    var first: Dpc?
    ghost var queue: seq<Dpc>
    ghost var nodes: set<Dpc>

    /** The chain that starts at `first` is `queue`: acyclic, duplicate-free, null-terminated. Nothing is said
        about `next` of a node that is not on the chain. */
    ghost predicate Chain()
      reads this, nodes
    {
      && (forall i | 0 <= i < |queue| :: queue[i] in nodes)
      && first == NodeAt(queue, 0)
      && (forall i {:trigger queue[i].next} | 0 <= i < |queue| :: queue[i].next == NodeAt(queue, i + 1))
      && NoDup(queue)
    }

    /** On the chain are exactly the entries marked linked and not marked destroyed. */
    ghost predicate Valid()
      reads this, nodes
    {
      && Chain()
      && (forall d | d in nodes :: d in queue <==> d.linked && !d.destroy)
    }

    ghost function Abs(): ListState<Dpc>
      reads this, nodes
    {
      ListState(queue,
                set d | d in nodes && d.linked,
                set d | d in nodes && d.running,
                set d | d in nodes && d.destroy)
    }

    constructor ()
      ensures Valid() && Abs() == ListState([], {}, {}, {}) && nodes == {}
    {
      first, queue, nodes := null, [], {};
    }

    method Create() returns (dpc: Dpc)
      requires Valid()
      modifies this
      ensures Valid() && fresh(dpc) && nodes == old(nodes) + {dpc}
      ensures Abs() == old(Abs())
      ensures !dpc.running && !dpc.destroy && !dpc.linked
    {
      dpc := new Dpc();
      nodes := nodes + {dpc};
    }

    method Trigger(dpc: Dpc?) returns (result: TriggerResult, notify: bool)
      requires Valid() && (dpc != null ==> dpc in nodes)
      modifies this, nodes
      ensures Valid() && nodes == old(nodes)
      ensures dpc == null ==> result == Fault && !notify && Abs() == old(Abs())
      ensures dpc != null ==> (Abs(), result, notify) == TriggerSpec(old(Abs()), dpc)
    {
      if dpc == null {
        return Fault, false;
      }
      if dpc.destroy {
        return NoEntry, false;
      }
      if !dpc.linked {
        assert dpc !in queue;
        if first == null {
          first := dpc;
        } else {
          var dpc2 := first;
          ghost var i := 0;
          while dpc2.next != null
            invariant 0 <= i < |queue| && dpc2 == queue[i]
            decreases |queue| - i
          {
            dpc2 := dpc2.next;
            i := i + 1;
          }
          dpc2.next := dpc;
        }
        dpc.next := null;
        dpc.linked := true;
        queue := queue + [dpc];
        assert Abs().linked == old(Abs().linked) + {dpc};
        assert Abs().running == old(Abs().running) && Abs().destroyed == old(Abs().destroyed);
        return Success, true;
      }
      return Success, false;
    }

    /** One turn of the worker's drain loop up to the call of the function. Like the source, it leaves
        `next` of the entry it links out as it was. */
    method StartNext() returns (dpc: Dpc)
      requires Valid() && queue != []
      modifies this, nodes
      ensures Valid() && nodes == old(nodes)
      ensures dpc == old(queue[0]) && dpc.next == old(dpc.next)
      ensures Abs() == StartSpec(old(Abs()))
    {
      dpc := first;
      TailOfNoDup(queue);
      first := dpc.next;
      dpc.linked := false;
      dpc.running := true;
      queue := queue[1..];
      assert Abs().linked == old(Abs().linked) - {dpc};
      assert Abs().running == old(Abs().running) + {dpc} && Abs().destroyed == old(Abs().destroyed);
    }

    method Finish(dpc: Dpc)
      requires Valid() && dpc in nodes
      modifies dpc`running
      ensures Valid()
      ensures Abs() == FinishSpec(old(Abs()), dpc)
    {
      dpc.running := false;
    }

    method LinkOutFirst(dpc: Dpc)
      requires Chain() && first == dpc
      modifies this, dpc`next
      ensures Chain() && nodes == old(nodes) && queue == Without(old(queue), dpc)
    {
      ghost var w := LinkOut(queue, 0);
      first := dpc.next;
      dpc.next := null;
      queue := w;
    }

    method LinkOutAfter(dpc2: Dpc, dpc: Dpc, ghost i: nat)
      requires Chain() && i + 1 < |queue| && queue[i] == dpc2 && dpc2.next == dpc
      modifies this, dpc2`next, dpc`next
      ensures Chain() && nodes == old(nodes) && queue == Without(old(queue), dpc)
    {
      ghost var w := LinkOut(queue, i + 1);
      dpc2.next := dpc.next;
      dpc.next := null;
      queue := w;
    }

    /** The search along the chain for the entry before `dpc`; null if there is none. */
    method FindBefore(dpc: Dpc) returns (dpc2: Dpc?, ghost i: nat)
      requires Chain() && dpc != first
      ensures i <= |queue| && dpc2 == NodeAt(queue, i)
      ensures dpc2 != null ==> dpc2.next == dpc
      ensures dpc2 == null ==> dpc !in queue
    {
      dpc2 := first;
      i := 0;
      while dpc2 != null && dpc2.next != dpc
        invariant 0 <= i <= |queue| && dpc2 == NodeAt(queue, i)
        invariant dpc !in queue[..i] && (i < |queue| ==> queue[i] != dpc)
        decreases |queue| - i
      {
        dpc2 := dpc2.next;
        i := i + 1;
      }
    }

    /** Whether the entry is the head, further down or not on the chain at all, exactly that entry leaves it. */
    method LeaveChain(dpc: Dpc)
      requires Chain() && dpc in nodes
      modifies this, nodes`next
      ensures Chain() && nodes == old(nodes) && queue == Without(old(queue), dpc)
    {
      if dpc == first {
        LinkOutFirst(dpc);
      } else {
        ghost var i;
        var dpc2;
        dpc2, i := FindBefore(dpc);
        if dpc2 != null {
          LinkOutAfter(dpc2, dpc, i);
        } else {
          WithoutAbsent(queue, dpc);
        }
      }
    }

    /** The first critical section of a destroy. */
    method Unlink(dpc: Dpc)
      requires Valid() && dpc in nodes
      modifies this, nodes
      ensures Valid() && nodes == old(nodes)
      ensures Abs() == UnlinkSpec(old(Abs()), dpc)
    {
      WithoutKeeps(queue, dpc);
      dpc.destroy := true;
      LeaveChain(dpc);
      forall d | d in nodes
        ensures d in queue <==> d.linked && !d.destroy
      {
        assert d in queue <==> d in Elements(queue);
        assert d in old(queue) <==> d in Elements(old(queue));
      }
      assert Abs().destroyed == old(Abs().destroyed) + {dpc};
      assert Abs().running == old(Abs().running) && Abs().linked == old(Abs().linked);
    }
  }
}
