/**
 The scheduler of kernel/proc.c: who is running, ready and asleep.

 Context switches, creation and death of processes are not part of this model.  `now` stands for
 `current_clock()`.
 */
module Scheduler {
  import opened Queue
  import opened Election
  import opened Sleepers

  /** v is what the queue holds, as values. */
  ghost predicate Shows(l: seq<Node>, v: seq<Proc>)
    reads l`prio
  {
    |v| == |l| && forall i :: 0 <= i < |l| ==> v[i] == Proc(l[i].pid, l[i].prio)
  }

  ghost function Members(l: seq<Node>): set<Node> { set n | n in l }

  /**
   Of every process of the table, but perhaps one: ready or asleep as its state says, not both, and its links are
   set only while it is ready.
   */
  ghost predicate Placed(table: set<Node>, but: Node?, nodes: seq<Node>, sl: seq<Node>)
    reads table`state, table`prev, table`next
  {
    forall n {:trigger n in table} :: n in table && n != but ==>
      && (n in nodes ==> n.state == Activable)
      && (n in sl <==> n.state == Endormi)
      && (n !in nodes ==> n.prev == null && n.next == null)
  }

  /** `queue_add` is where `Added` says. */
  lemma ShowsAdded(l: seq<Node>, v: seq<Proc>, k: nat, e: Node)
    requires Shows(l, v) && SplitBy(l, k, e.prio)
    ensures Shows(Insert(l, k, e), Added(v, Proc(e.pid, e.prio))) && k == Place(v, e.prio)
  {
    PlaceIs(v, e.prio, k);
  }

  lemma InsertHas(l: seq<Node>, k: nat, e: Node)
    requires k <= |l|
    ensures forall n :: n in Insert(l, k, e) <==> n in l || n == e
    ensures Members(Insert(l, k, e)) == Members(l) + {e}
  {
    assert Insert(l, k, e)[k] == e;
    assert l == l[..k] + l[k..];
  }

  lemma LastApart(l: seq<Node>)
    requires l != []
    ensures forall n :: n in l <==> n in l[..|l| - 1] || n == l[|l| - 1]
    ensures Members(l) == Members(l[..|l| - 1]) + {l[|l| - 1]}
  {
    assert l == l[..|l| - 1] + [l[|l| - 1]];
  }

  lemma FirstApart(l: seq<Node>)
    requires l != []
    ensures forall n :: n in l <==> n in l[1..] || n == l[0]
    ensures Members(l) == Members(l[1..]) + {l[0]}
  {
    assert l == [l[0]] + l[1..];
  }

  lemma ElectedIs(c: Cpu, asleep: bool)
    ensures Elected(c, asleep) ==
            if !Preempted(c, asleep) then c
            else Cpu(c.ready[|c.ready| - 1], if asleep then c.ready[..|c.ready| - 1] else Added(c.ready[..|c.ready| - 1], c.actif))
  {
  }

  lemma ShowsRemoved(l: seq<Node>, v: seq<Proc>, i: nat)
    requires Shows(l, v) && i < |l|
    ensures i < |v| && Shows(Remove(l, i), Remove(v, i))
  {
  }

  /** In p1 whoever of w has the pid has the new priority; that was p0 in old times, else none stands for it. */
  ghost predicate Repriced(w: set<Node>, p0: map<Node, nat>, p1: map<Node, nat>, pid: int, newprio: nat, oldprio: int, none: int) {
    && p0.Keys == p1.Keys && w <= p0.Keys
    && (forall n :: n in p0 ==> p1[n] == if n in w && n.pid == pid then newprio else p0[n])
    && ((forall n :: n in w ==> n.pid != pid) ==> oldprio == none)
    && forall n :: n in w && n.pid == pid ==> oldprio == p0[n]
  }

  lemma RepricedNone(p0: map<Node, nat>, pid: int, newprio: nat, none: int)
    ensures Repriced({}, p0, p0, pid, newprio, none, none)
  {
  }

  lemma PrefixMore(s: seq<Node>, i: nat)
    requires i < |s| && Distinct(s)
    ensures Members(s[..i + 1]) == Members(s[..i]) + {s[i]} && s[i] !in Members(s[..i])
  {
    assert s[..i + 1] == s[..i] + [s[i]];
  }

  lemma RepricedNext(w: set<Node>, p0: map<Node, nat>, p1: map<Node, nat>, p2: map<Node, nat>, n: Node,
      pid: int, newprio: nat, old0: int, old1: int, none: int)
    requires Repriced(w, p0, p1, pid, newprio, old0, none) && n in p0 && n !in w
    requires forall x, y :: x in p0 && y in p0 && x.pid == y.pid ==> x == y
    requires p2 == if n.pid == pid then p1[n := newprio] else p1
    requires old1 == if n.pid == pid then p1[n] else old0
    ensures Repriced(w + {n}, p0, p2, pid, newprio, old1, none)
  {
  }

  lemma RepricedBoth(w: set<Node>, v: set<Node>, a: Node, p0: map<Node, nat>, p1: map<Node, nat>, p2: map<Node, nat>,
      pid: int, newprio: nat, old0: int, old1: int)
    requires Repriced(w, p0, p1, pid, newprio, old0, -1) && Repriced(v, p1, p2, pid, newprio, old1, old0) && w !! v
    requires forall m, n :: m in p0 && n in p0 && m.pid == n.pid ==> m == n
    requires a in p0 && a.pid != pid
    ensures Repriced(w + v + {a}, p0, p2, pid, newprio, old1, -1)
  {
  }

  class Kernel {
    const queue: PriorityQueue
    const sleepers: SleepList
    var actif: Node
    ghost const table: set<Node>     // process[]
    ghost var ready: seq<Proc>       // what the queue shows

    /** Both lists are in order, and all processes are placed, but perhaps one. */
    ghost predicate ListsBut(e: Node?)
      reads this, queue, queue.head, queue.nodes, sleepers, sleepers.nodes, table
    {
      && Members(queue.nodes) <= table && Members(sleepers.nodes) <= table && actif in table && queue.head !in table
      && queue.Valid() && Shows(queue.nodes, ready) && sleepers.Valid()
      && Placed(table, e, queue.nodes, sleepers.nodes)
    }

    ghost predicate Lists()
      reads this, queue, queue.head, queue.nodes, sleepers, sleepers.nodes, table
    {
      ListsBut(null)
    }

    /** The running process is not ready. */
    ghost predicate Valid()
      reads this, queue, queue.head, queue.nodes, sleepers, sleepers.nodes, table
    {
      Lists() && actif !in queue.nodes
    }

    constructor (idle: Node, table: set<Node>)
      requires idle in table && forall n :: n in table ==> n.prev == null && n.next == null && n.state != Endormi
      ensures Valid() && actif == idle && this.table == table && ready == [] && sleepers.nodes == []
      ensures fresh(queue) && fresh(queue.head) && fresh(sleepers)
    {
      actif := idle;
      this.table := table;
      queue := new PriorityQueue();
      sleepers := new SleepList();
      ready := [];
    }

    /** `queue_add`, as the queue shows it. */
    method AddShown(e: Node) returns (ghost k: nat)
      requires queue.Valid() && Shows(queue.nodes, ready)
      requires e !in queue.nodes && e != queue.head && e.prev == null && e.next == null
      modifies this`ready, queue, queue.head`next, queue.head`prev, queue.nodes`next, queue.nodes`prev, e`next, e`prev
      ensures queue.Valid() && Shows(queue.nodes, ready) && ready == Added(old(ready), Proc(e.pid, e.prio))
      ensures k == Place(old(ready), e.prio) && k <= |old(queue.nodes)| && queue.nodes == Insert(old(queue.nodes), k, e)
    {
      ghost var l := queue.nodes;
      hide Ring, Ordered, Keyed, Shows, Added, Insert, Place, SplitBy;
      k := queue.Add(e);
      ShowsAdded(l, ready, k, e);
      ready := Added(ready, Proc(e.pid, e.prio));
    }

    method Enqueue(e: Node) returns (ghost k: nat)
      requires Lists() && e in table && e !in queue.nodes && e.state == Activable
      modifies this`ready, queue, queue.head`next, queue.head`prev, table`next, table`prev
      ensures Lists() && ready == Added(old(ready), Proc(e.pid, e.prio))
      ensures k == Place(old(ready), e.prio) && k <= |old(queue.nodes)| && queue.nodes == Insert(old(queue.nodes), k, e)
    {
      ghost var l := queue.nodes;
      hide Ring, Ordered, Keyed, Chained, ByDeadline, Shows, Added, Insert, Place;
      k := AddShown(e);
      InsertHas(l, k, e);
    }

    method InsertActivable(e: Node) returns (ghost k: nat)
      requires ListsBut(e) && e in table && e !in queue.nodes && e !in sleepers.nodes && e.prev == null && e.next == null
      modifies this`ready, queue, queue.head`next, queue.head`prev, table`next, table`prev, table`suiv, table`state
      ensures Lists() && ready == Added(old(ready), Proc(e.pid, e.prio)) && sleepers.nodes == old(sleepers.nodes)
      ensures k == Place(old(ready), e.prio) && k <= |old(queue.nodes)| && queue.nodes == Insert(old(queue.nodes), k, e)
      ensures e.suiv == null
    {
      hide Ring, Ordered, Keyed, Chained, ByDeadline, Shows, Added, Insert, Place;
      e.state := Activable;
      e.suiv := null;
      assert Lists();
      k := Enqueue(e);
    }

    method Dequeue() returns (r: Node)
      requires Lists() && queue.nodes != []
      modifies this`ready, queue, queue.head`next, queue.head`prev, table`next, table`prev
      ensures Lists() && sleepers.nodes == old(sleepers.nodes)
      ensures var n := |old(queue.nodes)| - 1;
              && r == old(queue.nodes)[n] && queue.nodes == old(queue.nodes)[..n]
              && |old(ready)| == n + 1 && ready == old(ready)[..n] && old(ready)[n] == Proc(r.pid, r.prio)
      ensures r in table && r !in queue.nodes && r.state == Activable
    {
      hide Ring, Ordered, Keyed, Chained, ByDeadline;
      LastApart(queue.nodes);
      r := queue.Out();
      ready := ready[..|ready| - 1];
    }

    method ExtractActivable() returns (r: Node?)
      requires Lists()
      modifies this`ready, queue, queue.head`next, queue.head`prev, table`next, table`prev, table`suiv
      ensures Lists() && sleepers.nodes == old(sleepers.nodes)
      ensures old(queue.nodes) == [] ==> r == null && queue.nodes == [] && ready == old(ready)
      ensures old(queue.nodes) != [] ==>
                var n := |old(queue.nodes)| - 1;
                && r == old(queue.nodes)[n] && queue.nodes == old(queue.nodes)[..n]
                && |old(ready)| == n + 1 && ready == old(ready)[..n] && old(ready)[n] == Proc(r.pid, r.prio)
                && r in table && r !in queue.nodes && r.state == Activable
    {
      hide Ring, Ordered, Keyed, Chained, ByDeadline, Shows;
      var empty := queue.Empty();
      if empty {
        return null;
      }
      r := Dequeue();
      r.suiv := null;
    }

    /** The first sleeper has come to its deadline. */
    ghost predicate Due(now: real)
      reads sleepers, sleepers.nodes`timeToWake
    {
      sleepers.nodes != [] && sleepers.nodes[0].timeToWake <= now
    }

    ghost predicate NoneDue(l: seq<Node>, now: real)
      reads l`timeToWake
    {
      forall i :: 0 <= i < |l| ==> l[i].timeToWake > now
    }

    /** Of sleepers in order, taking the first if it is due leaves none due just when the second is not. */
    lemma OneIsEnough(s: seq<Node>, rest: seq<Node>, now: real)
      requires ByDeadline(s) && rest == if s != [] && s[0].timeToWake <= now then s[1..] else s
      ensures NoneDue(rest, now) <==> |s| < 2 || s[1].timeToWake > now
    {
      if |s| >= 2 && s[1].timeToWake <= now {
        assert s[0].timeToWake <= s[1].timeToWake;
        assert rest[0] == s[1];
      }
    }

    /** The state after e, the first of the sleepers s, was put into the ready queue l. */
    ghost predicate Woke(e: Node, k: nat, l: seq<Node>, s: seq<Node>, r: seq<Proc>)
      reads this`ready, queue`nodes, sleepers`nodes, e`prio
    {
      && s != [] && e == s[0] && sleepers.nodes == s[1..] && ready == Added(r, Proc(e.pid, e.prio))
      && k == Place(r, e.prio) && k <= |l| && queue.nodes == Insert(l, k, e)
    }

    /** What wakes first, off the list of sleepers. */
    method TakeSleeper() returns (e: Node)
      requires Lists() && sleepers.nodes != []
      modifies sleepers, table`suiv
      ensures ListsBut(e) && e == old(sleepers.nodes)[0] && sleepers.nodes == old(sleepers.nodes)[1..]
      ensures e in table && e !in queue.nodes && e !in sleepers.nodes && e.prev == null && e.next == null
    {
      hide Ring, Ordered, Keyed, Chained, ByDeadline, Shows;
      FirstApart(sleepers.nodes);
      e := sleepers.Extract();
    }

    method WakeFirst() returns (e: Node, ghost k: nat)
      requires Lists() && sleepers.nodes != []
      modifies this`ready, queue, queue.head`next, queue.head`prev, sleepers, table`next, table`prev, table`suiv, table`state
      ensures Lists() && Woke(e, k, old(queue.nodes), old(sleepers.nodes), old(ready)) && e in table && e.suiv == null
    {
      hide Ring, Ordered, Keyed, Chained, ByDeadline, Shows, Added, Insert, Place, ListsBut;
      e := TakeSleeper();
      k := InsertActivable(e);
    }

    /**
     `wake_process`: one process at most, as `suiv` of the one woken is cleared before it is
     followed; so everyone due is woken exactly when the second sleeper is not due.
     */
    method Wake(now: real) returns (ghost woken: Node?, ghost k: nat)
      requires Lists()
      modifies this`ready, queue, queue.head`next, queue.head`prev, sleepers, table`next, table`prev, table`suiv, table`state
      ensures Lists() && (woken != null <==> old(Due(now)))
      ensures woken == null ==> ready == old(ready) && queue.nodes == old(queue.nodes) && sleepers.nodes == old(sleepers.nodes)
      ensures woken != null ==> woken in table && Woke(woken, k, old(queue.nodes), old(sleepers.nodes), old(ready))
      ensures NoneDue(sleepers.nodes, now) <==> old(|sleepers.nodes| < 2 || sleepers.nodes[1].timeToWake > now)
    {
      hide Ring, Ordered, Keyed, ByDeadline, Shows, Added, Placed, Insert, Place, NoneDue;
      ghost var s := sleepers.nodes;
      OneIsEnough(s, if s != [] && s[0].timeToWake <= now then s[1..] else s, now);
      var tmp := sleepers.first;
      woken, k := null, 0;
      while tmp != null && tmp.timeToWake <= now && sleepers.last != null
        invariant Lists()
        invariant woken == null ==> ready == old(ready) && queue.nodes == old(queue.nodes) && sleepers.nodes == old(sleepers.nodes)
        invariant woken == null ==> tmp == NodeAt(sleepers.nodes, 0)
        invariant woken != null ==> tmp == null && old(Due(now)) && woken in table && Woke(woken, k, old(queue.nodes), old(sleepers.nodes), old(ready))
        decreases woken == null
      {
        var e;
        e, k := WakeFirst();
        woken := e;
        tmp := tmp.suiv;
      }
    }

    /** The running process and the ready ones, as values. */
    ghost function Now(): Cpu
      reads this`actif, this`ready, actif`prio
    {
      Cpu(Proc(actif.pid, actif.prio), ready)
    }

    lemma Shown()
      requires Lists()
      ensures queue.Valid() && actif in table
      ensures |ready| == |queue.nodes| && Increasing(ready)
      ensures ready != [] ==> ready[|ready| - 1].prio == queue.nodes[|ready| - 1].prio
      ensures actif.state == Endormi <==> actif in sleepers.nodes
      ensures actif in queue.nodes ==> actif.state == Activable && Preempted(Now(), false)
    {
      forall i, j | 0 <= i < j < |ready|
        ensures ready[i].prio <= ready[j].prio
      {
        assert After(queue.keys[i], queue.keys[j]);
      }
      if actif in queue.nodes {
        var i :| 0 <= i < |queue.nodes| && queue.nodes[i] == actif;
        assert ready[i].prio <= ready[|ready| - 1].prio;
      }
    }

    lemma AsleepIs(n: Node)
      requires Lists() && n in table
      ensures n.state == Endormi <==> n in sleepers.nodes
      ensures actif in table
    {
    }

    lemma RunningIs()
      requires Lists()
      ensures actif in table && (actif.state == Endormi <==> actif in sleepers.nodes)
    {
      AsleepIs(actif);
    }

    /** A process has its links set just when it is ready. */
    lemma LinksTell(n: Node)
      requires Lists() && n in table
      ensures n in queue.nodes <==> n.prev != null
      ensures n in queue.nodes <==> n.next != null
    {
      if n in queue.nodes {
        var i :| 0 <= i < |queue.nodes| && queue.nodes[i] == n;
        assert Joined(queue.At(i - 1), queue.At(i)) && Joined(queue.At(i), queue.At(i + 1));
      }
    }

    /** Who is to run: the last of the queue, or still the same. */
    method Choose() returns (newActif: Node)
      requires Lists()
      modifies this`ready, queue, queue.head`next, queue.head`prev, table`next, table`prev, table`suiv
      ensures Lists() && sleepers.nodes == old(sleepers.nodes)
      ensures Chosen(newActif, old(Now()), old(queue.nodes), ready, queue.nodes, actif, old(actif.state == Endormi))
      ensures newActif in table && (newActif != actif ==> newActif.state == Activable)
    {
      ghost var c, l, asleep := Now(), queue.nodes, actif.state == Endormi;
      Shown();
      hide Ring, Ordered, Keyed, Chained, ByDeadline, Shows, Placed, Chosen, Increasing, Preempted, ListsBut;
      newActif := actif;
      var preempted := IsPreempted();
      PreemptedIs(c, asleep);
      if preempted {
        newActif := ExtractActivable();
      }
      ChosenIs(newActif, c, l, ready, queue.nodes, actif, asleep);
    }

    /** Whether the top of the queue has at least the priority of the running process, or that one sleeps. */
    method IsPreempted() returns (b: bool)
      requires Lists()
      ensures b <==> Preempted(Now(), actif.state == Endormi)
    {
      Shown();
      hide Ring, Ordered, Keyed, Chained, ByDeadline, Shows, Placed, Increasing;
      var empty := queue.Empty();
      if empty {
        return false;
      }
      var top := queue.Top();
      b := top.prio >= actif.prio || actif.state == Endormi;
    }

    lemma PreemptedIs(c: Cpu, asleep: bool)
      ensures Preempted(c, asleep) <==> c.ready != [] && (c.ready[|c.ready| - 1].prio >= c.actif.prio || asleep)
    {
    }

    lemma ChosenIs(newActif: Node, c: Cpu, l: seq<Node>, r: seq<Proc>, l1: seq<Node>, a: Node, asleep: bool)
      requires |c.ready| == |l|
      requires Preempted(c, asleep) ==>
                 var n := |l| - 1;
                 n >= 0 && newActif == l[n] && l1 == l[..n] && newActif !in l1 && c.ready[n] == Proc(newActif.pid, newActif.prio) && r == c.ready[..n]
      requires !Preempted(c, asleep) ==> newActif == a && r == c.ready && l1 == l
      ensures Chosen(newActif, c, l, r, l1, a, asleep)
    {
    }

    /** newActif picked: c and l are running process, ready processes and queue before, r and l1 after. */
    ghost predicate Chosen(newActif: Node, c: Cpu, l: seq<Node>, r: seq<Proc>, l1: seq<Node>, a: Node, asleep: bool)
      reads newActif`prio
    {
      if Preempted(c, asleep) then
        var n := |c.ready| - 1;
        && |l| == n + 1 && newActif == l[n] && l1 == l[..n] && newActif !in l1
        && c.ready[n] == Proc(newActif.pid, newActif.prio) && r == c.ready[..n]
      else
        newActif == a && r == c.ready && l1 == l
    }

    /** The running process back into the queue; `queue_add` panics if its links are set. */
    method Requeue() returns (panic: bool)
      requires Lists() && actif.state != Endormi
      modifies this`ready, queue, queue.head`next, queue.head`prev, table`next, table`prev, table`suiv, table`state
      ensures sleepers.nodes == old(sleepers.nodes) && (panic <==> old(actif in queue.nodes))
      ensures panic ==> queue.nodes == old(queue.nodes)
      ensures !panic ==> Lists() && actif.state == Activable && forall n :: n in queue.nodes <==> n in old(queue.nodes) || n == actif
      ensures !panic ==> ready == Added(old(ready), Proc(actif.pid, actif.prio)) && Members(queue.nodes) == Members(old(queue.nodes)) + {actif}
    {
      LinksTell(actif);
      Shown();
      hide Ring, Ordered, Keyed, Chained, ByDeadline, Shows, Added, Insert, Place;
      if actif.prev != null || actif.next != null {
        return true;
      }
      ghost var l := queue.nodes;
      var k := InsertActivable(actif);
      InsertHas(l, k, actif);
      panic := false;
    }

    /** c and l before: the process a that was running goes back into the queue unless it sleeps. */
    ghost predicate Installed(newActif: Node, panic: bool, c: Cpu, l: seq<Node>, a: Node, asleep: bool)
      reads this`actif, this`ready, queue`nodes
    {
      && (panic <==> !asleep && a != newActif && a in l)
      && (!panic ==>
            && actif == newActif
            && if asleep || a == newActif then ready == c.ready && queue.nodes == l
               else ready == Added(c.ready, c.actif) && Members(queue.nodes) == Members(l) + {a})
    }

    /** newActif takes over; the running process goes back into the queue unless it sleeps. */
    method Install(newActif: Node) returns (panic: bool)
      requires Lists() && newActif in table && newActif !in queue.nodes && newActif !in sleepers.nodes
      modifies this`actif, this`ready, queue, queue.head`next, queue.head`prev, table`next, table`prev, table`suiv, table`state
      ensures sleepers.nodes == old(sleepers.nodes)
      ensures !panic ==> Valid() && actif.state != Endormi
      ensures Installed(newActif, panic, old(Now()), old(queue.nodes), old(actif), old(actif.state == Endormi))
    {
      hide Ring, Ordered, Keyed, Chained, ByDeadline, Shows, Added, Placed, Members;
      if actif.state != Endormi && actif != newActif {
        panic := Requeue();
        if panic {
          return;
        }
      }
      actif := newActif;
      panic := false;
      AsleepIs(newActif);
    }

    /** The election is made, and nobody is lost but the process a that was running, if it sleeps. */
    ghost predicate Made(c: Cpu, l: seq<Node>, a: Node, asleep: bool)
      reads this`actif, this`ready, actif`prio, queue`nodes
    {
      Now() == Elected(c, asleep) && Members(queue.nodes) + {actif} == Members(l) + (if asleep then {} else {a})
    }

    /** The running process was the last of the queue l, and is taken out of it. */
    ghost predicate Unmade(l: seq<Node>, r: seq<Proc>, a: Node)
      reads this`actif, this`ready, queue`nodes
    {
      l != [] && actif == a && queue.nodes == l[..|l| - 1] && |r| == |l| && ready == r[..|r| - 1]
    }

    /**
     How an election ends.  If the wake-up has put the running process a itself into the queue l,
     `queue_add` panics, unless that process is elected again.
     */
    ghost predicate Ended(panic: bool, c: Cpu, l: seq<Node>, a: Node, asleep: bool)
      reads this`actif, this`ready, actif`prio, queue`nodes
    {
      && (panic <==> a in l && l[|l| - 1] != a)
      && (a !in l ==> Made(c, l, a, asleep))
      && (a in l && !panic ==> Unmade(l, c.ready, a))
    }

    lemma Conclude(newActif: Node, panic: bool, c: Cpu, l: seq<Node>, c1: Cpu, l1: seq<Node>, a: Node, asleep: bool)
      requires |c.ready| == |l| && (asleep ==> l != [] && a !in l) && (a in l ==> Preempted(c, false))
      requires c.actif == c1.actif == Proc(a.pid, a.prio)
      requires Chosen(newActif, c, l, c1.ready, l1, a, asleep) && Installed(newActif, panic, c1, l1, a, asleep)
      ensures Ended(panic, c, l, a, asleep)
    {
      ElectedIs(c, asleep);
      hide Elected, Added;
      if l != [] {
        LastApart(l);
      }
    }

    lemma ChosenFresh(newActif: Node, c: Cpu, l: seq<Node>, r: seq<Proc>, l1: seq<Node>, a: Node, asleep: bool)
      requires Chosen(newActif, c, l, r, l1, a, asleep) && |c.ready| == |l| && (asleep ==> l != [])
      requires a in l ==> Preempted(c, asleep)
      ensures newActif !in l1 && (asleep ==> newActif == l[|l| - 1])
    {
    }

    /** The election, after the wake-up. */
    method Elect() returns (panic: bool)
      requires Lists() && (actif.state == Endormi ==> queue.nodes != [])
      modifies this`actif, this`ready, queue, queue.head`next, queue.head`prev, table`next, table`prev, table`suiv, table`state
      ensures sleepers.nodes == old(sleepers.nodes)
      ensures !panic ==> Valid() && actif.state != Endormi
      ensures Ended(panic, old(Now()), old(queue.nodes), old(actif), old(actif.state == Endormi))
    {
      ghost var c, l, a, asleep := Now(), queue.nodes, actif, actif.state == Endormi;
      Shown();
      if l != [] {
        ReadyIs(l[|l| - 1]);
      }
      hide Ring, Ordered, Keyed, Chained, ByDeadline, Shows, Placed, Installed, Ended, Chosen, Preempted, Increasing, ListsBut;
      var newActif := Choose();
      ghost var c1, l1 := Now(), queue.nodes;
      ChosenFresh(newActif, c, l, ready, l1, a, asleep);
      AsleepIs(newActif);
      panic := Install(newActif);
      Conclude(newActif, panic, c, l, c1, l1, a, asleep);
    }

    /** Everyone the scheduler knows of. */
    ghost function Everyone(): set<Node>
      reads this`actif, queue`nodes, sleepers`nodes
    {
      Members(queue.nodes) + Members(sleepers.nodes) + {actif}
    }

    lemma AfterElection(c: Cpu, l: seq<Node>, s: seq<Node>, a: Node, asleep: bool)
      requires Made(c, l, a, asleep) && Increasing(c.ready) && (asleep ==> c.ready != [] && a in s) && sleepers.nodes == s
      ensures Now() == Elected(c, asleep) && Everyone() == Members(l) + Members(s) + {a} && Highest()
    {
      ElectedHighest(c, asleep);
      hide Elected;
      assert forall i :: 0 <= i < |ready| ==> ready[i] in ready;
    }

    /** Nobody ready has a higher priority than the running process. */
    ghost predicate Highest()
      reads this`actif, this`ready, actif`prio
    {
      forall i :: 0 <= i < |ready| ==> ready[i].prio <= actif.prio
    }

    /** The woken process a, put among the ready ones l, is the last of them just when all others have lower priorities. */
    lemma Reelected(l: seq<Node>, k: nat, r: seq<Proc>, a: Node, p: nat)
      requires k <= |l| == |r| && k == Place(r, p) && a !in l && Increasing(r)
      ensures Insert(l, k, a)[|l|] != a <==> exists i :: 0 <= i < |r| && r[i].prio >= p
    {
      if k < |l| {
        assert Insert(l, k, a)[|l|] == l[|l| - 1] && r[k].prio >= p;
      }
    }

    lemma LastOfInsert(l: seq<Node>, k: nat, a: Node)
      requires k <= |l|
      ensures Insert(l, k, a)[|l|] == if k == |l| then a else l[|l| - 1]
    {
    }

    lemma AfterReelection(l: seq<Node>, k: nat, r: seq<Proc>, s: seq<Node>, a: Node)
      requires k <= |l| == |r| && k == Place(r, a.prio) && a !in l && Unmade(Insert(l, k, a), Added(r, Proc(a.pid, a.prio)), a)
      requires Insert(l, k, a)[|l|] == a && s != [] && s[0] == a && sleepers.nodes == s[1..]
      ensures queue.nodes == l && ready == r && Everyone() == Members(l) + Members(s) + {a} && Highest()
    {
      LastOfInsert(l, k, a);
      assert Insert(l, k, a)[..|l|] == l && Added(r, Proc(a.pid, a.prio))[..|r|] == r;
      FirstApart(s);
    }

    /** Whether the first of the sleepers s, woken, was the running process a, of priority p, and others of that priority are ready. */
    ghost predicate WokenInVain(due: bool, s: seq<Node>, a: Node, p: nat, r: seq<Proc>) {
      due && s != [] && s[0] == a && exists i :: 0 <= i < |r| && r[i].prio >= p
    }

    /** e is the first sleeper as a value. */
    ghost predicate Scheduled(c: Cpu, s: seq<Node>, a: Node, due: bool, e: Proc, asleep: bool)
      reads this`actif, this`ready, actif`prio, sleepers`nodes
    {
      if due && s != [] then
        && sleepers.nodes == s[1..]
        && (if s[0] == a then Now() == c else Now() == Elected(Cpu(c.actif, Added(c.ready, e)), asleep))
      else
        sleepers.nodes == s && Now() == Elected(c, asleep)
    }

    lemma Done(panic: bool, woken: Node?, k: nat, c: Cpu, l: seq<Node>, s: seq<Node>, a: Node, asleep: bool, e: Proc, l1: seq<Node>, r1: seq<Proc>)
      requires Increasing(c.ready) && |c.ready| == |l| && c.actif == Proc(a.pid, a.prio) && a !in l
      requires asleep <==> a in s
      requires asleep ==> c.ready != []
      requires Distinct(s)
      requires Increasing(r1)
      requires woken == null ==> l1 == l && r1 == c.ready && sleepers.nodes == s
      requires woken != null ==>
                 && s != [] && woken == s[0] && sleepers.nodes == s[1..] && r1 == Added(c.ready, e) && e == Proc(woken.pid, woken.prio)
                 && k == Place(c.ready, e.prio) && k <= |l| && l1 == Insert(l, k, woken)
      requires Ended(panic, Cpu(c.actif, r1), l1, a, asleep && woken != a)
      ensures panic <==> WokenInVain(woken != null, s, a, c.actif.prio, c.ready)
      ensures !panic ==> Scheduled(c, s, a, woken != null, e, asleep) && Everyone() == Members(l) + Members(s) + {a} && Highest()
    {
      hide Place, Added, Elected, Increasing, Made, Unmade, Highest;
      if woken == null {
        AfterElection(c, l, s, a, asleep);
      } else {
        InsertHas(l, k, woken);
        FirstApart(s);
        if woken != a {
          AfterElection(Cpu(c.actif, r1), l1, s[1..], a, asleep);
        } else {
          Reelected(l, k, c.ready, a, a.prio);
          if !panic {
            AfterReelection(l, k, c.ready, s, a);
          }
        }
      }
    }

    /**
     `ordonnance`, when the idle process is ready or running.  It panics exactly when the running
     process has asked to sleep until a time already past while others of its priority are ready;
     otherwise the first sleeper due is woken, the election is made, nobody ready has a higher
     priority than the elected process, and nobody is lost.
     */
    method Ordonnance(now: real) returns (panic: bool)
      requires Valid() && (actif.state == Endormi ==> ready != [])
      modifies this`actif, this`ready, queue, queue.head`next, queue.head`prev, sleepers, table`next, table`prev, table`suiv, table`state
      ensures panic <==> old(WokenInVain(Due(now), sleepers.nodes, actif, actif.prio, ready))
      ensures !panic ==> Valid() && actif.state != Endormi && Highest() && Everyone() == old(Everyone())
      ensures !panic ==> Scheduled(old(Now()), old(sleepers.nodes), old(actif), old(Due(now)), old(FirstAsleep()), old(actif.state == Endormi))
    {
      hide Ring, Ordered, Keyed, Chained, ByDeadline, Shows, Placed, Added, Place, Increasing, Ended, Scheduled, Highest, Distinct, ListsBut, NoneDue;
      ghost var c, l, s, a, asleep, e := Now(), queue.nodes, sleepers.nodes, actif, actif.state == Endormi, FirstAsleep();
      Shown();
      SleepersDistinct();
      ghost var woken, k := Wake(now);
      ghost var l1, r1 := queue.nodes, ready;
      Shown();
      panic := Elect();
      Done(panic, woken, k, c, l, s, a, asleep, e, l1, r1);
    }

    lemma SleepersDistinct()
      requires Lists()
      ensures Distinct(sleepers.nodes)
    {
    }

    ghost function FirstAsleep(): Proc
      reads sleepers, sleepers.nodes`prio
    {
      if sleepers.nodes == [] then Proc(-1, 0) else Proc(sleepers.nodes[0].pid, sleepers.nodes[0].prio)
    }

    // ----- sleeping

    /** What is due first of the sleepers s, as a value. */
    ghost function FirstOf(s: seq<Node>): Proc
      reads s`prio
      requires s != []
    {
      Proc(s[0].pid, s[0].prio)
    }

    /**
     `sleep_until` and `dors`: the running process goes to sleep, behind the sleepers that wake no
     later, and another is elected.  It panics exactly when it is itself the first to wake, its time
     is past, and someone of at least its priority is ready.
     */
    method SleepUntil(time: real, now: real) returns (panic: bool, ghost k: nat)
      requires Valid() && actif.state != Endormi && ready != []
      modifies this`actif, this`ready, queue, queue.head`next, queue.head`prev, sleepers,
        table`next, table`prev, table`suiv, table`state, actif`timeToWake
      ensures panic <==>
                && time <= now && (forall i :: 0 <= i < |old(sleepers.nodes)| ==> old(sleepers.nodes[i].timeToWake) > time)
                && exists i :: 0 <= i < |old(ready)| && old(ready)[i].prio >= old(actif.prio)
      ensures !panic ==> Valid() && actif.state != Endormi && Highest() && Everyone() == old(Everyone())
      ensures k <= |old(sleepers.nodes)| && SplitAt(old(sleepers.nodes), k, time) && old(actif).timeToWake == time
      ensures !panic ==>
                var s := Insert(old(sleepers.nodes), k, old(actif));
                Scheduled(old(Now()), s, old(actif), s[0].timeToWake <= now, FirstOf(s), true)
      ensures !panic && time > now ==>
                old(actif) in sleepers.nodes && old(actif).timeToWake == time && actif != old(actif)
    {
      hide Ring, Ordered, Keyed, Chained, ByDeadline, Shows, Added, Insert, Place, Increasing, Highest, Elected, ListsBut, SplitAt;
      ghost var a, s0 := actif, sleepers.nodes;
      RunningIs();
      k := FallAsleep(time);
      ghost var s := sleepers.nodes;
      FirstApart(s);
      FirstToWake(s0, k, a, time);
      panic := Ordonnance(now);
      if !panic {
        AsleepIs(a);
      }
    }

    /** Whoever falls asleep is first to wake just when all the others wake later. */
    lemma FirstToWake(l: seq<Node>, k: nat, a: Node, time: real)
      requires k <= |l| && SplitAt(l, k, time) && a !in l
      ensures Insert(l, k, a)[0] == a <==> forall i :: 0 <= i < |l| ==> l[i].timeToWake > time
    {
      if k > 0 {
        assert Insert(l, k, a)[0] == l[0];
      }
    }

    method FallAsleep(time: real) returns (ghost k: nat)
      requires Valid() && actif.state != Endormi
      modifies sleepers, table`suiv, actif`state, actif`timeToWake
      ensures Valid() && actif.state == Endormi && actif.timeToWake == time
      ensures k <= |old(sleepers.nodes)| && sleepers.nodes == Insert(old(sleepers.nodes), k, actif) && SplitAt(old(sleepers.nodes), k, time)
      ensures Members(sleepers.nodes) == Members(old(sleepers.nodes)) + {actif}
    {
      hide Ring, Ordered, Keyed, Chained, ByDeadline, Shows, Insert, SplitAt;
      ghost var s := sleepers.nodes;
      k := sleepers.InsertUntil(actif, time);
      InsertHas(s, k, actif);
    }

    // ----- chprio

    ghost predicate UniquePids() {
      forall m, n :: m in table && n in table && m.pid == n.pid ==> m == n
    }

    /** `queue_del`, as the queue shows it. */
    method DelShown(e: Node, ghost i: nat)
      requires queue.Valid() && Shows(queue.nodes, ready) && i < |queue.nodes| && e == queue.nodes[i]
      modifies this`ready, queue, queue.head`next, queue.head`prev, queue.nodes`next, queue.nodes`prev
      ensures queue.Valid() && Shows(queue.nodes, ready) && e.prev == null && e.next == null
      ensures queue.nodes == Remove(old(queue.nodes), i) && i < |old(ready)| && ready == Remove(old(ready), i)
    {
      ghost var l := queue.nodes;
      ShowsRemoved(l, ready, i);
      hide Ring, Ordered, Keyed, Remove, Shows;
      queue.Del(e, i);
      ready := Remove(ready, i);
    }

    method TakeOut(e: Node, ghost i: nat)
      requires Lists() && i < |queue.nodes| && e == queue.nodes[i]
      modifies this`ready, queue, queue.head`next, queue.head`prev, table`next, table`prev
      ensures Lists() && e !in queue.nodes && e.state == Activable
      ensures queue.nodes == Remove(old(queue.nodes), i) && i < |old(ready)| && ready == Remove(old(ready), i)
    {
      ghost var l := queue.nodes;
      ReadyIs(e);
      hide Ring, Ordered, Keyed, Chained, ByDeadline, Remove, Shows;
      DelShown(e, i);
      DistinctRemove(l, i);
    }

    lemma NodesDistinct()
      requires Lists()
      ensures Distinct(queue.nodes) && queue.head !in queue.nodes
    {
    }

    lemma ReadyIs(e: Node)
      requires Lists() && e in queue.nodes
      ensures e in table && e.state == Activable && e != queue.head && Distinct(queue.nodes)
    {
    }

    /** A ready process given another priority, and another place for it. */
    method MoveOne(e: Node, ghost i: nat, newprio: nat) returns (ghost k: nat)
      requires Lists() && i < |queue.nodes| && e == queue.nodes[i]
      modifies this`ready, queue, queue.head`next, queue.head`prev, table`next, table`prev, table`prio
      ensures Lists() && i < |old(ready)| && ready == Added(Remove(old(ready), i), Proc(e.pid, newprio))
      ensures k < |old(queue.nodes)| && queue.nodes == Insert(Remove(old(queue.nodes), i), k, e)
      ensures forall n :: n in table ==> n.prio == if n == e then newprio else old(n.prio)
    {
      hide Ring, Ordered, Keyed, Chained, ByDeadline, Shows, Placed, Added, Remove, Insert, Place;
      ReadyIs(e);
      TakeOut(e, i);
      e.prio := newprio;
      assert Lists();
      k := Enqueue(e);
    }

    /** After moving the element at i to k, the walk goes on from k; the pid is not met again. */
    lemma NotMetAgain(l: seq<Node>, i: nat, k: nat, pid: int)
      requires UniquePids() && Members(l) <= table && Distinct(l) && i < |l| && k < |l| && l[i].pid == pid
      ensures var l' := Insert(Remove(l, i), k, l[i]);
              l'[k] == l[i] && forall j :: k < j < |l'| ==> l'[j].pid != pid
    {
      var l' := Insert(Remove(l, i), k, l[i]);
      forall j | k < j < |l'|
        ensures l'[j].pid != pid
      {
        var h := if j - 1 < i then j - 1 else j;
        assert l'[j] == Remove(l, i)[j - 1] == l[h] && h != i;
        assert l[h] in table && l[i] in table;
      }
    }

    /** What `chprio` has done to the ready processes l, shown as r: nothing yet, or moved the one at i to k. */
    ghost predicate Moved(l: seq<Node>, r: seq<Proc>, i: nat, k: nat, newprio: nat)
      reads this`ready, queue`nodes
    {
      && i < |l| == |r| && k < |l|
      && queue.nodes == Insert(Remove(l, i), k, l[i]) && ready == Added(Remove(r, i), Proc(l[i].pid, newprio))
    }

    /**
     The walk of `chprio` at position i of the queue, which was l, shown as r, with the given priorities:
     it has met nobody yet (at < 0), or has moved l[at] to k and will not meet that pid again.
     */
    ghost predicate Walked(l: seq<Node>, r: seq<Proc>, prios: map<Node, nat>, i: nat, at: int, k: nat, oldprio: int, pid: int, newprio: nat)
      reads this`ready, queue`nodes, table`prio
    {
      && prios.Keys == table && i <= |queue.nodes| == |l| && -1 <= at < |l| && Members(l) <= table
      && (at < 0 ==>
            && oldprio == -1 && queue.nodes == l && ready == r && (forall j :: 0 <= j < i ==> l[j].pid != pid)
            && forall n :: n in table ==> n.prio == prios[n])
      && (at >= 0 ==>
            && l[at].pid == pid && oldprio == prios[l[at]] && l[at].prio == newprio && Moved(l, r, at, k, newprio)
            && (forall j :: i <= j < |l| ==> queue.nodes[j].pid != pid)
            && forall n :: n in table && n != l[at] ==> n.prio == prios[n])
    }

    /**
     The walk of `chprio` over the ready queue.  It deletes and re-inserts the element it stands on and
     goes on from there: it may meet some elements twice and pass over others, but it ends, and changes
     just the process asked for.
     */
    method ChangeReady(pid: int, newprio: nat) returns (oldprio: int, ghost at: int, ghost k: nat)
      requires Lists() && UniquePids()
      modifies this`ready, queue, queue.head`next, queue.head`prev, table`next, table`prev, table`prio
      ensures Lists()
      ensures Walked(old(queue.nodes), old(ready), map n | n in table :: old(n.prio), |queue.nodes|, at, k, oldprio, pid, newprio)
    {
      ghost var l, r, prios := queue.nodes, ready, map n | n in table :: n.prio;
      Shown();
      NodesDistinct();
      hide Ring, Ordered, Keyed, Chained, ByDeadline, Shows, Placed, Added, Insert, Remove, UniquePids, Distinct, Increasing, Walked;
      oldprio, at, k := -1, -1, 0;
      var tmp := queue.First();
      ghost var i: nat := 0;
      WalkStart(l, r, prios, pid, newprio);
      while tmp != queue.head
        invariant Lists() && i <= |queue.nodes| == |l| && tmp == queue.At(i) && Walked(l, r, prios, i, at, k, oldprio, pid, newprio)
        decreases at < 0, |l| - i
      {
        tmp, oldprio, i, at, k := WalkOn(tmp, oldprio, l, r, prios, i, at, k, pid, newprio);
      }
    }

    /** One step of the walk. */
    method WalkOn(tmp0: Node, oldprio0: int, ghost l: seq<Node>, ghost r: seq<Proc>, ghost prios: map<Node, nat>,
        ghost i0: nat, ghost at0: int, ghost k0: nat, pid: int, newprio: nat)
      returns (tmp: Node, oldprio: int, ghost i: nat, ghost at: int, ghost k: nat)
      requires Lists() && UniquePids() && i0 < |queue.nodes| == |l| && tmp0 == queue.nodes[i0]
      requires Walked(l, r, prios, i0, at0, k0, oldprio0, pid, newprio)
      modifies this`ready, queue, queue.head`next, queue.head`prev, table`next, table`prev, table`prio
      ensures Lists() && i <= |queue.nodes| == |l| && tmp == queue.At(i) && Walked(l, r, prios, i, at, k, oldprio, pid, newprio)
      ensures (at0 < 0 && at >= 0) || (at == at0 && i == i0 + 1)
    {
      hide Ring, Ordered, Keyed, Chained, ByDeadline, Shows, Placed, Added, Insert, Remove, UniquePids, Distinct, Increasing, Walked;
      oldprio, at, k, i := oldprio0, at0, k0, i0;
      if tmp0.pid == pid {
        WalkMeets(l, r, prios, i, at, k, oldprio, pid, newprio);
        at := i;
        oldprio, k := Change(tmp0, l, r, prios, i, pid, newprio);
        i := k;
      } else {
        WalkPasses(l, r, prios, i, at, k, oldprio, pid, newprio);
      }
      tmp := queue.Next(tmp0, i);
      i := i + 1;
    }

    method Change(tmp: Node, ghost l: seq<Node>, ghost r: seq<Proc>, ghost prios: map<Node, nat>, ghost i: nat, pid: int, newprio: nat)
      returns (oldprio: int, ghost k: nat)
      requires Lists() && UniquePids() && l == queue.nodes && r == ready && prios == map n | n in table :: n.prio
      requires i < |queue.nodes| && tmp == queue.nodes[i] && tmp.pid == pid
      modifies this`ready, queue, queue.head`next, queue.head`prev, table`next, table`prev, table`prio
      ensures Lists() && k < |queue.nodes| == |l| && queue.nodes[k] == tmp
      ensures Walked(l, r, prios, k + 1, i, k, oldprio, pid, newprio)
    {
      Shown();
      NodesDistinct();
      ReadyIs(tmp);
      hide Ring, Ordered, Keyed, Chained, ByDeadline, Shows, Placed, Added, Insert, Remove, UniquePids, Distinct, Increasing, Walked;
      oldprio := tmp.prio;
      k := MoveOne(tmp, i, newprio);
      WalkMoves(l, r, prios, i, k, oldprio, pid, newprio);
    }

    lemma WalkStart(l: seq<Node>, r: seq<Proc>, prios: map<Node, nat>, pid: int, newprio: nat)
      requires l == queue.nodes && r == ready && prios == map n | n in table :: n.prio
      requires Members(l) <= table
      ensures Walked(l, r, prios, 0, -1, 0, -1, pid, newprio)
    {
    }

    lemma WalkPasses(l: seq<Node>, r: seq<Proc>, prios: map<Node, nat>, i: nat, at: int, k: nat, oldprio: int, pid: int, newprio: nat)
      requires Walked(l, r, prios, i, at, k, oldprio, pid, newprio) && i < |queue.nodes| && queue.nodes[i].pid != pid
      ensures Walked(l, r, prios, i + 1, at, k, oldprio, pid, newprio)
    {
    }

    lemma WalkMeets(l: seq<Node>, r: seq<Proc>, prios: map<Node, nat>, i: nat, at: int, k: nat, oldprio: int, pid: int, newprio: nat)
      requires Walked(l, r, prios, i, at, k, oldprio, pid, newprio) && i < |queue.nodes| && queue.nodes[i].pid == pid
      ensures at < 0 && queue.nodes == l && ready == r && prios == map n | n in table :: n.prio
    {
    }

    lemma WalkMoves(l: seq<Node>, r: seq<Proc>, prios: map<Node, nat>, at: nat, k: nat, oldprio: int, pid: int, newprio: nat)
      requires UniquePids() && Distinct(l) && Members(l) <= table && prios.Keys == table
      requires at < |l| == |r| && k < |l| && l[at].pid == pid && l[at] in table && oldprio == prios[l[at]]
      requires queue.nodes == Insert(Remove(l, at), k, l[at]) && ready == Added(Remove(r, at), Proc(pid, newprio))
      requires forall n :: n in table ==> n.prio == if n == l[at] then newprio else prios[n]
      ensures Walked(l, r, prios, k + 1, at, k, oldprio, pid, newprio) && queue.nodes[k] == l[at]
    {
      NotMetAgain(l, at, k, pid);
    }

    ghost function Prios(): map<Node, nat>
      reads table`prio
    {
      map n | n in table :: n.prio
    }

    /** The walk of `chprio` over the sleepers. */
    method WalkAsleep(pid: int, newprio: nat, oldprio0: int) returns (oldprio: int)
      requires sleepers.Valid() && Members(sleepers.nodes) <= table && UniquePids()
      modifies table`prio
      ensures Repriced(Members(sleepers.nodes), old(Prios()), Prios(), pid, newprio, oldprio, oldprio0)
    {
      ghost var s, p0 := sleepers.nodes, Prios();
      SleepersFacts(s, p0);
      hide ByDeadline, Repriced, UniquePids, Distinct, Members;
      oldprio := oldprio0;
      var tmp := sleepers.first;
      ghost var i: nat := 0;
      RepricedNone(p0, pid, newprio, oldprio);
      while tmp != null
        invariant i <= |s| && tmp == NodeAt(s, i)
        invariant Repriced(Members(s[..i]), p0, Prios(), pid, newprio, oldprio, oldprio0)
        decreases |s| - i
      {
        tmp, oldprio := ChangeNext(tmp, pid, newprio, oldprio, s, i, p0, oldprio0);
        i := i + 1;
      }
      assert s[..i] == s;
    }

    method ChangeNext(tmp: Node, pid: int, newprio: nat, old0: int, ghost s: seq<Node>, ghost i: nat, ghost p0: map<Node, nat>, ghost none: int)
      returns (next: Node?, oldprio: int)
      requires s == sleepers.nodes && sleepers.Valid() && Members(s) <= table && i < |s| && tmp == s[i] && UniquePids()
      requires p0.Keys == table && Repriced(Members(s[..i]), p0, Prios(), pid, newprio, old0, none)
      modifies table`prio
      ensures next == NodeAt(s, i + 1)
      ensures Repriced(Members(s[..i + 1]), p0, Prios(), pid, newprio, oldprio, none)
    {
      ghost var p1 := Prios();
      SleepersFacts(s, p1);
      PrefixMore(s, i);
      hide ByDeadline, Repriced, UniquePids, Distinct, Members;
      oldprio := ChangeSleeper(tmp, pid, newprio, old0);
      RepricedNext(Members(s[..i]), p0, p1, Prios(), tmp, pid, newprio, old0, oldprio, none);
      next := tmp.suiv;
    }

    lemma SleepersFacts(s: seq<Node>, p: map<Node, nat>)
      requires sleepers.Valid() && Members(sleepers.nodes) <= table && UniquePids() && s == sleepers.nodes && p == Prios()
      ensures Distinct(s) && Members(s[..0]) == {} && (forall i :: 0 <= i < |s| ==> s[i] in table && s[i] in p)
      ensures forall x, y :: x in p && y in p && x.pid == y.pid ==> x == y
    {
      forall i | 0 <= i < |s|
        ensures s[i] in table
      {
        assert s[i] in Members(s);
      }
    }

    method ChangeAsleep(pid: int, newprio: nat, oldprio0: int) returns (oldprio: int)
      requires Lists() && UniquePids()
      modifies table`prio
      ensures Lists() && Repriced(Members(sleepers.nodes), old(Prios()), Prios(), pid, newprio, oldprio, oldprio0)
    {
      hide Ring, Ordered, Keyed, Chained, ByDeadline, Placed, Shows, ShownIn, Members, Repriced, UniquePids;
      ghost var p0 := Prios();
      ShownBy(p0);
      oldprio := WalkAsleep(pid, newprio, oldprio0);
      StillShown(p0, pid, newprio, oldprio, oldprio0);
    }

    /** The queue shows the priorities p. */
    ghost predicate ShownIn(p: map<Node, nat>)
      reads this`ready, queue`nodes
    {
      |queue.nodes| == |ready| && forall i :: 0 <= i < |ready| ==> queue.nodes[i] in p && ready[i] == Proc(queue.nodes[i].pid, p[queue.nodes[i]])
    }

    lemma ShownBy(p: map<Node, nat>)
      requires Lists() && p == Prios()
      ensures ShownIn(p) && Members(queue.nodes) !! Members(sleepers.nodes)
    {
      NotReady();
      forall i | 0 <= i < |queue.nodes|
        ensures queue.nodes[i] in p
      {
        assert queue.nodes[i] in Members(queue.nodes);
      }
    }

    lemma StillShown(p: map<Node, nat>, pid: int, newprio: nat, oldprio: int, none: int)
      requires ShownIn(p) && Members(queue.nodes) !! Members(sleepers.nodes)
      requires Repriced(Members(sleepers.nodes), p, Prios(), pid, newprio, oldprio, none)
      ensures Shows(queue.nodes, ready)
    {
      forall i | 0 <= i < |ready|
        ensures ready[i] == Proc(queue.nodes[i].pid, queue.nodes[i].prio)
      {
        assert queue.nodes[i] in Members(queue.nodes);
      }
    }

    method ChangeSleeper(n: Node, pid: int, newprio: nat, oldprio0: int) returns (oldprio: int)
      requires n in table
      modifies n`prio
      ensures Prios() == if n.pid == pid then old(Prios())[n := newprio] else old(Prios())
      ensures oldprio == if n.pid == pid then old(n.prio) else oldprio0
    {
      oldprio := oldprio0;
      if n.pid == pid {
        oldprio := n.prio;
        n.prio := newprio;
      }
    }

    lemma NotReady()
      requires Lists()
      ensures forall n :: n in sleepers.nodes ==> n in table && n !in queue.nodes
      ensures Distinct(sleepers.nodes)
    {
      forall n | n in sleepers.nodes
        ensures n in table && n !in queue.nodes
      {
        assert n in table;
      }
    }

    /** l and r name the same processes. */
    ghost predicate SamePids(l: seq<Node>, r: seq<Proc>) {
      |l| == |r| && forall i :: 0 <= i < |l| ==> r[i].pid == l[i].pid
    }

    /** After the walk: the ready process of that pid is at the place of its new priority. */
    lemma WalkShows(l: seq<Node>, r: seq<Proc>, prios: map<Node, nat>, at: int, k: nat, oldprio: int, pid: int, newprio: nat)
      requires UniquePids() && Distinct(l) && SamePids(l, r) && Walked(l, r, prios, |queue.nodes|, at, k, oldprio, pid, newprio)
      ensures ready == if IndexOf(r, pid) < |r| then Added(Remove(r, IndexOf(r, pid)), Proc(pid, newprio)) else r
    {
      hide Added, Insert, Remove;
      if at >= 0 {
        forall j | 0 <= j < at
          ensures r[j].pid != pid
        {
          assert l[j] in Members(l) && l[at] in Members(l);
        }
        IndexIs(r, pid, at);
      } else {
        IndexIs(r, pid, |r|);
      }
    }

    /** After the walk: whoever is ready under that pid has the new priority, and nobody has left. */
    lemma WalkEnds(l: seq<Node>, r: seq<Proc>, prios: map<Node, nat>, at: int, k: nat, oldprio: int, pid: int, newprio: nat)
      requires UniquePids() && Walked(l, r, prios, |queue.nodes|, at, k, oldprio, pid, newprio)
      ensures Members(queue.nodes) == Members(l) && Repriced(Members(l), prios, Prios(), pid, newprio, oldprio, -1)
    {
      if at >= 0 {
        assert l[at] in l;
        InsertHas(Remove(l, at), k, l[at]);
        assert Members(Remove(l, at)) + {l[at]} == Members(l) by {
          assert l == l[..at] + [l[at]] + l[at + 1..];
        }
      }
    }

    /** The first part of `chprio`: the priority of the process asked for, wherever it is. */
    method SetPriority(pid: int, newprio: nat) returns (oldprio: int)
      requires Valid() && UniquePids()
      modifies this`ready, queue, queue.head`next, queue.head`prev, table`next, table`prev, table`prio
      ensures Valid() && Everyone() == old(Everyone()) && sleepers.nodes == old(sleepers.nodes)
      ensures Repriced(old(Everyone()), old(Prios()), Prios(), pid, newprio, oldprio, -1)
      ensures Now() == WithPrio(old(Now()), pid, newprio)
    {
      if actif.pid == pid {
        oldprio := ChangeRunning(newprio);
      } else {
        oldprio := ChangeOther(pid, newprio);
      }
    }

    method ChangeOther(pid: int, newprio: nat) returns (oldprio: int)
      requires Valid() && UniquePids() && actif.pid != pid
      modifies this`ready, queue, queue.head`next, queue.head`prev, table`next, table`prev, table`prio
      ensures Valid() && Everyone() == old(Everyone()) && sleepers.nodes == old(sleepers.nodes)
      ensures Repriced(old(Everyone()), old(Prios()), Prios(), pid, newprio, oldprio, -1)
      ensures Now() == WithPrio(old(Now()), pid, newprio)
    {
      hide Ring, Ordered, Keyed, Chained, ByDeadline, Shows, Placed, Walked, UniquePids, Repriced, Members, ListsBut, Distinct, Increasing;
      ghost var l, r, p0, c := queue.nodes, ready, Prios(), Now();
      TableFacts(p0);
      ghost var at, k;
      oldprio, at, k := ChangeReady(pid, newprio);
      WalkEnds(l, r, p0, at, k, oldprio, pid, newprio);
      WalkShows(l, r, p0, at, k, oldprio, pid, newprio);
      ghost var p1, old0 := Prios(), oldprio;
      StillRunning(l);
      oldprio := ChangeAsleep(pid, newprio, oldprio);
      RepricedBoth(Members(l), Members(sleepers.nodes), actif, p0, p1, Prios(), pid, newprio, old0, oldprio);
      PrioKept(actif, Everyone(), p0, pid, newprio, oldprio);
    }

    lemma PrioKept(n: Node, w: set<Node>, p0: map<Node, nat>, pid: int, newprio: nat, oldprio: int)
      requires Repriced(w, p0, Prios(), pid, newprio, oldprio, -1) && n in w
      ensures n in p0 && n in table && Proc(n.pid, n.prio) == Changed(Proc(n.pid, p0[n]), pid, newprio)
    {
    }

    lemma TableFacts(p: map<Node, nat>)
      requires Lists() && UniquePids() && p == Prios()
      ensures actif in p && p[actif] == actif.prio && (forall m, n :: m in p && n in p && m.pid == n.pid ==> m == n)
      ensures Members(queue.nodes) !! Members(sleepers.nodes) && Distinct(queue.nodes) && SamePids(queue.nodes, ready)
    {
      NotReady();
    }

    lemma StillRunning(l: seq<Node>)
      requires Members(queue.nodes) == Members(l) && actif !in l
      ensures actif !in queue.nodes
    {
      assert actif !in Members(l);
    }

    method ChangeRunning(newprio: nat) returns (oldprio: int)
      requires Valid() && UniquePids()
      modifies actif`prio
      ensures Valid() && actif.prio == newprio && oldprio == old(actif.prio)
      ensures Repriced(Everyone(), old(Prios()), Prios(), actif.pid, newprio, oldprio, -1)
    {
      oldprio := actif.prio;
      actif.prio := newprio;
    }

    /** Nobody ready and nobody asleep has the pid of the running process. */
    lemma PidsApart()
      requires Valid() && UniquePids() && actif.state != Endormi
      ensures forall i :: 0 <= i < |ready| ==> ready[i].pid != actif.pid
      ensures sleepers.nodes != [] ==> FirstAsleep().pid != actif.pid && sleepers.nodes[0] != actif
    {
      NotReady();
      RunningIs();
      forall i | 0 <= i < |ready|
        ensures ready[i].pid != actif.pid
      {
        assert queue.nodes[i] in Members(queue.nodes);
      }
    }

    lemma AddedPids(l: seq<Proc>, e: Proc, pid: int)
      requires (forall i :: 0 <= i < |l| ==> l[i].pid != pid) && e.pid != pid
      ensures forall i :: 0 <= i < |Added(l, e)| ==> Added(l, e)[i].pid != pid
    {
    }

    /** The processes as values once the first sleeper, e, is woken if it is due. */
    ghost function AfterWake(c: Cpu, due: bool, e: Proc): Cpu {
      if due then Cpu(c.actif, Added(c.ready, e)) else c
    }

    /**
     The election of the state with the new priority, after the wake-up; c, s, a and due are running and ready
     processes, sleepers, the caller and whether someone is due.  The caller hands over if it has to.
     */
    ghost predicate Rescheduled(c: Cpu, s: seq<Node>, a: Node, due: bool, e: Proc, pid: int, newprio: nat)
      reads this`actif, this`ready, actif`prio, sleepers`nodes
    {
      var c1 := AfterWake(WithPrio(c, pid, newprio), due, Changed(e, pid, newprio));
      && Now() == Elected(c1, false) && HandsOver(c1, Now())
      && sleepers.nodes == (if due && s != [] then s[1..] else s)
      && (actif == a <==> forall i :: 0 <= i < |c1.ready| ==> c1.ready[i].prio < c1.actif.prio)
    }

    lemma RescheduledIs(c: Cpu, s: seq<Node>, a: Node, due: bool, e: Proc, pid: int, newprio: nat, c0: Cpu, e1: Proc)
      requires c0 == WithPrio(c, pid, newprio) && Increasing(c0.ready) && (due ==> s != [] && s[0] != a && e1 == Changed(e, pid, newprio))
      requires c0.actif.pid == a.pid && forall i :: 0 <= i < |c0.ready| ==> c0.ready[i].pid != a.pid
      requires due ==> e1.pid != a.pid
      requires Scheduled(c0, s, a, due, e1, false)
      requires actif in table && a in table && UniquePids()
      ensures Rescheduled(c, s, a, due, e, pid, newprio)
    {
      hide WithPrio, Changed, Added, Elected, HandsOver;
      var c1 := AfterWake(c0, due, e1);
      if due {
        AddedPids(c0.ready, e1, a.pid);
        AddedIncreasing(c0.ready, e1);
      }
      ElectedHandsOver(c1);
      RunsOn(c1, Now());
    }

    lemma RunsOn(c: Cpu, c': Cpu)
      requires HandsOver(c, c') && forall i :: 0 <= i < |c.ready| ==> c.ready[i].pid != c.actif.pid
      ensures c'.actif.pid == c.actif.pid <==> forall i :: 0 <= i < |c.ready| ==> c.ready[i].prio < c.actif.prio
    {
    }

    /** `chprio`, called by a process that is awake: the old priority, or -1, and an election that never panics. */
    method ChPrio(pid: int, newprio: int, now: real) returns (oldprio: int, panic: bool)
      requires Valid() && UniquePids() && actif.state != Endormi
      modifies this`actif, this`ready, queue, queue.head`next, queue.head`prev, sleepers,
        table`next, table`prev, table`suiv, table`state, table`prio
      ensures !panic && Valid() && Everyone() == old(Everyone())
      ensures if 0 <= pid < 30 && 1 <= newprio <= 256 then
                && Highest() && Repriced(old(Everyone()), old(Prios()), Prios(), pid, newprio, oldprio, -1)
                && Rescheduled(old(Now()), old(sleepers.nodes), old(actif), old(Due(now)), old(FirstAsleep()), pid, newprio)
              else oldprio == -1 && Now() == old(Now()) && Prios() == old(Prios())
    {
      if pid < 0 || pid > 29 || newprio < 1 || newprio > 256 {
        return -1, false;
      }
      oldprio, panic := ChangeAndElect(pid, newprio, now);
    }

    method ChangeAndElect(pid: int, newprio: nat, now: real) returns (oldprio: int, panic: bool)
      requires Valid() && UniquePids() && actif.state != Endormi
      modifies this`actif, this`ready, queue, queue.head`next, queue.head`prev, sleepers,
        table`next, table`prev, table`suiv, table`state, table`prio
      ensures !panic && Valid() && Everyone() == old(Everyone())
      ensures Highest() && Repriced(old(Everyone()), old(Prios()), Prios(), pid, newprio, oldprio, -1)
      ensures Rescheduled(old(Now()), old(sleepers.nodes), old(actif), old(Due(now)), old(FirstAsleep()), pid, newprio)
    {
      hide Ring, Ordered, Keyed, Chained, ByDeadline, Shows, Highest, Scheduled, Repriced, UniquePids, ListsBut, Members, Placed, Increasing, Distinct, Walked;
      hide Rescheduled, WithPrio, Changed, Elected;
      ghost var c, s, a, due, e, p0, w := Now(), sleepers.nodes, actif, Due(now), FirstAsleep(), Prios(), Everyone();
      RunningIs();
      FirstKnown();
      oldprio := SetPriority(pid, newprio);
      RunningIs();
      PidsApart();
      Shown();
      ghost var c0, e1 := Now(), FirstAsleep();
      if s != [] {
        PrioKept(s[0], w, p0, pid, newprio, oldprio);
      }
      panic := Ordonnance(now);
      RunningIs();
      RescheduledIs(c, s, a, due, e, pid, newprio, c0, e1);
    }

    lemma FirstKnown()
      requires Lists()
      ensures sleepers.nodes != [] ==>
                sleepers.nodes[0] in Everyone() && sleepers.nodes[0] in Prios()
                && FirstAsleep() == Proc(sleepers.nodes[0].pid, Prios()[sleepers.nodes[0]])
    {
      if sleepers.nodes != [] {
        assert sleepers.nodes[0] in Members(sleepers.nodes);
      }
    }
  }
}
