/**
 The choice `ordonnance` makes (kernel/proc.c:367-401), on its own: the ready processes in queue
 order, the running one, and who runs next.
 */
module Election {
  import opened Queue

  datatype Proc = Proc(pid: int, prio: nat)

  predicate Increasing(l: seq<Proc>) {
    forall i, j :: 0 <= i < j < |l| ==> l[i].prio <= l[j].prio
  }

  /** Where `queue_add` puts a process of priority p. */
  function Place(l: seq<Proc>, p: nat): (k: nat)
    ensures k <= |l| && (forall j :: 0 <= j < k ==> l[j].prio < p) && (k < |l| ==> l[k].prio >= p)
  {
    if l == [] || l[0].prio >= p then 0 else 1 + Place(l[1..], p)
  }

  lemma PlaceIs(l: seq<Proc>, p: nat, k: nat)
    requires k <= |l| && (forall j :: 0 <= j < k ==> l[j].prio < p) && (k < |l| ==> l[k].prio >= p)
    ensures Place(l, p) == k
  {
  }

  function Added(l: seq<Proc>, e: Proc): (r: seq<Proc>)
    ensures |r| == |l| + 1
  {
    Insert(l, Place(l, e.prio), e)
  }

  /** Running process and ready queue. */
  datatype Cpu = Cpu(actif: Proc, ready: seq<Proc>)

  /** Whether the last of the queue, of highest priority, takes over. */
  predicate Preempted(c: Cpu, asleep: bool) {
    c.ready != [] && (c.ready[|c.ready| - 1].prio >= c.actif.prio || asleep)
  }

  /** `ordonnance` after its wake-up; asleep says that the running process has gone to sleep. */
  function Elected(c: Cpu, asleep: bool): Cpu {
    if !Preempted(c, asleep) then c
    else
      var n := |c.ready| - 1;
      Cpu(c.ready[n], if asleep then c.ready[..n] else Added(c.ready[..n], c.actif))
  }

  lemma AddedIncreasing(l: seq<Proc>, e: Proc)
    requires Increasing(l)
    ensures Increasing(Added(l, e))
    ensures multiset(Added(l, e)) == multiset(l) + multiset{e}
  {
    var k := Place(l, e.prio);
    assert l == l[..k] + l[k..];
    forall j | k <= j < |l|
      ensures l[j].prio >= e.prio
    {
    }
  }

  /** Nobody ready has a higher priority than the elected process. */
  lemma ElectedHighest(c: Cpu, asleep: bool)
    requires Increasing(c.ready) && (asleep ==> c.ready != [])
    ensures var c' := Elected(c, asleep);
            Increasing(c'.ready) && forall x :: x in c'.ready ==> x.prio <= c'.actif.prio
  {
    if Preempted(c, asleep) {
      var n := |c.ready| - 1;
      AddedIncreasing(c.ready[..n], c.actif);
      forall x | x in Elected(c, asleep).ready
        ensures x.prio <= c.ready[n].prio
      {
        assert x in multiset(Elected(c, asleep).ready);
      }
    }
  }

  /** Nobody is lost and nobody is there twice: only a sleeper leaves. */
  lemma ElectedConserves(c: Cpu, asleep: bool)
    requires Increasing(c.ready) && (asleep ==> c.ready != [])
    ensures var c' := Elected(c, asleep);
            multiset(c'.ready) + multiset{c'.actif} == multiset(c.ready) + (if asleep then multiset{} else multiset{c.actif})
  {
    if Preempted(c, asleep) {
      var n := |c.ready| - 1;
      AddedIncreasing(c.ready[..n], c.actif);
      LastOut(c.ready);
      hide Added, Increasing;
    }
  }

  lemma LastOut(l: seq<Proc>)
    requires l != []
    ensures multiset(l) == multiset(l[..|l| - 1]) + multiset{l[|l| - 1]}
  {
    assert l == l[..|l| - 1] + [l[|l| - 1]];
  }

  // ----- a new priority, and the election after it

  /** Where the process of that pid is ready; |l| if it is not. */
  function IndexOf(l: seq<Proc>, pid: int): (k: nat)
    ensures k <= |l| && (forall j :: 0 <= j < k ==> l[j].pid != pid) && (k < |l| ==> l[k].pid == pid)
  {
    if l == [] || l[0].pid == pid then 0 else 1 + IndexOf(l[1..], pid)
  }

  lemma IndexIs(l: seq<Proc>, pid: int, k: nat)
    requires k <= |l| && (forall j :: 0 <= j < k ==> l[j].pid != pid) && (k < |l| ==> l[k].pid == pid)
    ensures IndexOf(l, pid) == k
  {
  }

  function Changed(e: Proc, pid: int, newprio: nat): Proc { if e.pid == pid then Proc(pid, newprio) else e }

  /** The process of that pid has the new priority; if it is ready it is the newest of that priority now. */
  function WithPrio(c: Cpu, pid: int, newprio: nat): Cpu {
    var i := IndexOf(c.ready, pid);
    if c.actif.pid == pid then Cpu(Proc(pid, newprio), c.ready)
    else if i < |c.ready| then Cpu(c.actif, Added(Remove(c.ready, i), Proc(pid, newprio)))
    else c
  }

  /** e is ready and leaves after all others of its priority. */
  ghost predicate NewestOfEquals(l: seq<Proc>, e: Proc) {
    exists k :: 0 <= k < |l| && l[k] == e && (forall j :: 0 <= j < k ==> l[j].prio < e.prio) && forall j :: k < j < |l| ==> l[j].prio >= e.prio
  }

  /** Whoever runs hands over to the highest of the ready ones if that has at least its priority, and then is the newest of its own; else it runs on. */
  ghost predicate HandsOver(c: Cpu, c': Cpu) {
    if exists i :: 0 <= i < |c.ready| && c.ready[i].prio >= c.actif.prio then
      c'.actif == c.ready[|c.ready| - 1] && NewestOfEquals(c'.ready, c.actif)
    else
      c' == c
  }

  lemma ElectedHandsOver(c: Cpu)
    requires Increasing(c.ready)
    ensures HandsOver(c, Elected(c, false))
  {
    if i :| 0 <= i < |c.ready| && c.ready[i].prio >= c.actif.prio {
      var n := |c.ready| - 1;
      assert c.ready[i].prio <= c.ready[n].prio;
      NewestAdded(c.ready[..n], c.actif);
    }
  }

  lemma NewestAdded(l: seq<Proc>, e: Proc)
    requires Increasing(l)
    ensures NewestOfEquals(Added(l, e), e)
  {
    var k, r := Place(l, e.prio), Added(l, e);
    assert r[k] == e;
    forall j | k < j < |r|
      ensures r[j].prio >= e.prio
    {
      assert r[j] == l[j - 1] && l[k].prio <= l[j - 1].prio;
    }
  }

  // ----- round robin

  /** n calls without wake-ups and without anyone going to sleep. */
  function Rounds(c: Cpu, n: nat): Cpu {
    if n == 0 then c else Elected(Rounds(c, n - 1), false)
  }

  /** The processes of the top priority, the running one first; low holds the others. */
  predicate Tied(low: seq<Proc>, ring: seq<Proc>) {
    && ring != []
    && (forall i :: 0 <= i < |ring| ==> ring[i].prio == ring[0].prio)
    && (forall i :: 0 <= i < |low| ==> low[i].prio < ring[0].prio)
  }

  function OfRing(low: seq<Proc>, ring: seq<Proc>): Cpu
    requires ring != []
  {
    Cpu(ring[0], low + ring[1..])
  }

  /** The last m of the ring brought to the front. */
  function Turned(ring: seq<Proc>, m: nat): seq<Proc>
    requires m <= |ring|
  {
    ring[|ring| - m..] + ring[..|ring| - m]
  }

  /** One call: the one at the back of the queue runs, the running one goes to the end of its equals. */
  lemma OneTurn(low: seq<Proc>, ring: seq<Proc>)
    requires Tied(low, ring)
    ensures Tied(low, Turned(ring, 1)) && Elected(OfRing(low, ring), false) == OfRing(low, Turned(ring, 1))
  {
    hide Added, Place;
    var c, k := OfRing(low, ring), |ring| - 1;
    TurnedLast(ring);
    if k == 0 {
      assert Turned(ring, 1) == ring;
      assert low == [] || low[|low| - 1].prio < ring[0].prio;
    } else {
      ReadySplit(low, ring);
      AddedTied(low, ring);
      assert Elected(c, false) == Cpu(ring[k], low + ring[..k]);
      hide Turned, Elected;
      assert ([ring[k]] + ring[..k])[1..] == ring[..k];
    }
  }

  lemma ReadySplit(low: seq<Proc>, ring: seq<Proc>)
    requires |ring| >= 2
    ensures var r, k := low + ring[1..], |ring| - 1; r[|r| - 1] == ring[k] && r[..|r| - 1] == low + ring[1..k]
  {
  }

  /** The running process goes before its equals, after all lower ones. */
  lemma AddedTied(low: seq<Proc>, ring: seq<Proc>)
    requires Tied(low, ring) && |ring| >= 2
    ensures var k := |ring| - 1; Added(low + ring[1..k], ring[0]) == low + ring[..k]
  {
    var k := |ring| - 1;
    PlaceIs(low + ring[1..k], ring[0].prio, |low|);
    assert Insert(low + ring[1..k], |low|, ring[0]) == low + ring[..k];
  }

  lemma TurnedLast(ring: seq<Proc>)
    requires ring != []
    ensures Turned(ring, 1) == [ring[|ring| - 1]] + ring[..|ring| - 1]
  {
  }

  lemma TurnedOnce(ring: seq<Proc>, m: nat)
    requires m < |ring|
    ensures Turned(Turned(ring, m), 1) == Turned(ring, m + 1)
  {
  }

  /** m calls bring the last m of the ring to the front, one after the other. */
  lemma {:induction false} Turns(low: seq<Proc>, ring: seq<Proc>, m: nat)
    requires Tied(low, ring) && m <= |ring|
    ensures Tied(low, Turned(ring, m)) && Rounds(OfRing(low, ring), m) == OfRing(low, Turned(ring, m))
  {
    if m == 0 {
      assert Turned(ring, 0) == ring;
    } else {
      Turns(low, ring, m - 1);
      TurnedOnce(ring, m - 1);
      OneTurn(low, Turned(ring, m - 1));
    }
  }

  /** k + 1 calls over k ready processes tied with the running one elect each once and end where they began. */
  lemma RoundRobin(low: seq<Proc>, ring: seq<Proc>)
    requires Tied(low, ring)
    ensures forall m :: 1 <= m <= |ring| ==> Rounds(OfRing(low, ring), m).actif == ring[|ring| - m]
    ensures Rounds(OfRing(low, ring), |ring|) == OfRing(low, ring)
  {
    forall m | 1 <= m <= |ring|
      ensures Rounds(OfRing(low, ring), m).actif == ring[|ring| - m]
    {
      Turns(low, ring, m);
    }
    Turns(low, ring, |ring|);
    assert Turned(ring, |ring|) == ring;
  }
}
