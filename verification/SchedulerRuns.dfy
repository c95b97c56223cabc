/** Runs of the scheduler: time slices among equals, and two states the code does not handle as meant. */
module SchedulerRuns {
  import opened Queue
  import opened Election
  import opened Sleepers
  import opened Scheduler

  /** Nobody asleep comes to a deadline by this time. */
  ghost predicate Quiet(s: seq<Node>, now: real)
    reads s`timeToWake
  {
    s == [] || s[0].timeToWake > now
  }

  ghost predicate QuietFor(s: seq<Node>, times: seq<real>)
    reads s`timeToWake
  {
    forall i :: 0 <= i < |times| ==> Quiet(s, times[i])
  }

  /** One call while nobody is due is one election. */
  method Slice(k: Kernel, now: real)
    requires k.Valid() && k.actif.state != Endormi && Quiet(k.sleepers.nodes, now)
    modifies k`actif, k`ready, k.queue, k.queue.head`next, k.queue.head`prev, k.sleepers,
      k.table`next, k.table`prev, k.table`suiv, k.table`state
    ensures k.Valid() && k.actif.state != Endormi && k.sleepers.nodes == old(k.sleepers.nodes)
    ensures k.Now() == Elected(old(k.Now()), false)
  {
    hide Elected, Ring, Ordered, Keyed, Chained, ByDeadline, Shows, Placed;
    var panic := k.Ordonnance(now);
    assert !panic;
  }

  /** `ordonnance` called once for each process of the top priority, with nobody due: each runs once, and the state is as before. */
  method TimeSlices(k: Kernel, times: seq<real>, ghost low: seq<Proc>, ghost ring: seq<Proc>) returns (ghost elected: seq<Proc>)
    requires k.Valid() && k.actif.state != Endormi && QuietFor(k.sleepers.nodes, times)
    requires Tied(low, ring) && k.Now() == OfRing(low, ring) && |times| == |ring|
    modifies k`actif, k`ready, k.queue, k.queue.head`next, k.queue.head`prev, k.sleepers,
      k.table`next, k.table`prev, k.table`suiv, k.table`state
    ensures k.Valid() && k.Now() == old(k.Now())
    ensures |elected| == |ring| && forall m :: 0 <= m < |ring| ==> elected[m] == ring[|ring| - 1 - m]
  {
    hide Elected, Ring, Ordered, Keyed, Chained, ByDeadline, Shows, Placed, Kernel.Valid, Kernel.Now, Tied, OfRing, Quiet;
    RoundRobin(low, ring);
    elected := [];
    ghost var c := k.Now();
    for m := 0 to |times|
      invariant k.Valid() && k.actif.state != Endormi && k.sleepers.nodes == old(k.sleepers.nodes) && QuietFor(k.sleepers.nodes, times)
      invariant k.Now() == Rounds(c, m) && |elected| == m && forall j :: 0 <= j < m ==> elected[j] == Rounds(c, j + 1).actif
    {
      Slice(k, times[m]);
      elected := elected + [k.Now().actif];
    }
  }

  /** The idle process running, n others of its priority ready, nobody asleep. */
  method Ready(n: nat) returns (k: Kernel)
    requires n in {1, 2}
    ensures fresh(k) && fresh(k.queue) && fresh(k.queue.head) && fresh(k.sleepers) && fresh(k.table)
    ensures k.Valid() && k.actif in k.table && k.actif.state != Endormi && k.actif.prio == 1
    ensures k.sleepers.nodes == [] && |k.ready| == n && forall i :: 0 <= i < n ==> k.ready[i].prio == 1
  {
    hide Ring, Ordered, Keyed, Chained, ByDeadline, Shows, Placed, Added, Place, Insert, Kernel.ListsBut, Kernel.Lists;
    var idle := new Node(0, 1);
    var a := new Node(1, 1);
    var b := new Node(2, 1);
    k := new Kernel(idle, {idle, a, b});
    assert a in k.table && b in k.table && k.actif != a && k.actif != b;
    NobodyReady(k);
    Admit(k, a);
    if n == 2 {
      Admit(k, b);
    }
    k.RunningIs();
  }

  lemma NobodyReady(k: Kernel)
    requires k.Valid() && k.ready == []
    ensures k.queue.nodes == []
  {
  }

  /** A process without links made ready; all so far have priority 1. */
  method Admit(k: Kernel, e: Node)
    requires k.Valid() && e in k.table && e != k.actif && e !in k.queue.nodes && k.sleepers.nodes == [] && e.prio == 1
    requires k.actif in k.table && forall i :: 0 <= i < |k.ready| ==> k.ready[i].prio == 1
    modifies k`ready, k.queue, k.queue.head`next, k.queue.head`prev, k.table`next, k.table`prev, k.table`suiv, k.table`state
    ensures k.Valid() && k.sleepers.nodes == [] && |k.ready| == |old(k.ready)| + 1
    ensures forall i :: 0 <= i < |k.ready| ==> k.ready[i].prio == 1
    ensures forall n :: n in k.queue.nodes <==> n in old(k.queue.nodes) || n == e
  {
    Admits(k, e);
    hide Ring, Ordered, Keyed, Chained, ByDeadline, Shows, Placed, Place, Kernel.ListsBut;
    ghost var l := k.queue.nodes;
    var i := k.InsertActivable(e);
    InsertHas(l, i, e);
  }

  lemma Admits(k: Kernel, e: Node)
    requires k.Lists() && e in k.table && e !in k.queue.nodes && k.sleepers.nodes == []
    ensures k.ListsBut(e) && e.prev == null && e.next == null
  {
    hide Ring, Ordered, Keyed, Chained, ByDeadline, Shows;
  }

  /** Asleep until a time ahead, behind all others. */
  method Sleep(k: Kernel, time: real, now: real)
    requires k.Valid() && k.actif.state != Endormi && k.ready != [] && now < time && Quiet(k.sleepers.nodes, now)
    requires forall n :: n in k.sleepers.nodes ==> n.timeToWake <= time
    modifies k`actif, k`ready, k.queue, k.queue.head`next, k.queue.head`prev, k.sleepers,
      k.table`next, k.table`prev, k.table`suiv, k.table`state, k.actif`timeToWake
    ensures k.Valid() && k.actif.state != Endormi && k.sleepers.nodes == old(k.sleepers.nodes) + [old(k.actif)]
    ensures old(k.actif).timeToWake == time && old(k.actif) !in old(k.sleepers.nodes) && |k.ready| == |old(k.ready)| - 1
    ensures k.actif !in k.sleepers.nodes && k.actif in k.table
  {
    hide Ring, Ordered, Keyed, Chained, ByDeadline, Shows, Placed, Added, Place, Kernel.ListsBut;
    k.RunningIs();
    ghost var s := k.sleepers.nodes;
    var _, i := k.SleepUntil(time, now);
    assert forall j :: 0 <= j < |s| ==> s[j] in s && s[j].timeToWake <= time;
    LastPlace(s, i, time);
    k.RunningIs();
  }

  lemma LastPlace(s: seq<Node>, i: nat, time: real)
    requires SplitAt(s, i, time) && forall j :: 0 <= j < |s| ==> s[j].timeToWake <= time
    ensures i == |s|
  {
    if i < |s| {
      LaterFrom(s, i, time);
    }
  }

  lemma LaterFrom(s: seq<Node>, i: nat, time: real)
    requires SplitAt(s, i, time) && i < |s|
    ensures s[i].timeToWake > time
  {
  }

  /**
   The idle process and another fall asleep, until 1 and 2; at 5 both are due, one call wakes the
   first and leaves the second asleep.
   */
  method TwoDue() returns (k: Kernel, late: Node)
    ensures fresh(k) && k.Valid() && k.sleepers.nodes == [late] && late.timeToWake == 2.0
    ensures !k.NoneDue(k.sleepers.nodes, 5.0)
  {
    hide Kernel.Valid;
    k := Ready(2);
    Sleep(k, 1.0, 0.0);
    late := k.actif;
    Sleep(k, 2.0, 0.0);
    WakeOne(k, 5.0);
  }

  method WakeOne(k: Kernel, now: real)
    requires k.Valid() && k.actif.state != Endormi && |k.sleepers.nodes| == 2
    requires k.sleepers.nodes[0].timeToWake <= now && k.actif !in k.sleepers.nodes
    modifies k`actif, k`ready, k.queue, k.queue.head`next, k.queue.head`prev, k.sleepers,
      k.table`next, k.table`prev, k.table`suiv, k.table`state
    ensures k.Valid() && k.sleepers.nodes == [old(k.sleepers.nodes)[1]]
  {
    hide Ring, Ordered, Keyed, Chained, ByDeadline, Shows, Placed, Added, Place, Kernel.ListsBut, Elected;
    ghost var s := k.sleepers.nodes;
    var _ := k.Ordonnance(now);
    assert s[1..] == [s[1]];
  }

  /** A process that goes to sleep until a time already past, while another of its priority is ready: `queue_add` panics. */
  method VainSleep() returns (panic: bool)
    ensures panic
  {
    var k := Ready(1);
    hide Kernel.Valid, Kernel.Scheduled;
    assert k.ready[0].prio >= k.actif.prio;
    var vain, _ := k.SleepUntil(0.0, 1.0);
    panic := vain;
  }
}
