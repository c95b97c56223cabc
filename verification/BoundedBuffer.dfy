/**
 The bounded buffer of user/tests/test17: `buf_send` (proc17_1-sem.c) and `buf_receive`
 (proc17_2-sem.c) run by any number of producers and consumers, one step per statement, every
 interleaving allowed.

 `wpos` and `rpos` are 32-bit and wrap.  100 does not divide 2^32, so the slots skip at the
 wrap: `ClashExactly` says when a store then hits a slot still unread.
 */
module BoundedBuffer {
  import opened Arith

  const SIZE: nat := 100

  /** Where a process stands: the statement it executes next. */
  datatype Pc =
    // producer, carrying the byte it sends
    | Ready                // about to call buf_send
    | SendWait(x: byte)    // wait(wsem)
    | SendLock(x: byte)    // wait(mutex)
    | SendStore(x: byte)   // buf[wpos % 100] = x
    | SendBump             // wpos++
    | SendUnlock           // signal(mutex)
    | SendPost             // signal(rsem)
    // consumer
    | RecvWait             // wait(rsem)
    | RecvLock             // wait(mutex)
    | RecvLoad             // x = 0xff & buf[rpos % 100]
    | RecvBump             // rpos++
    | RecvUnlock           // signal(mutex)
    | RecvPost             // signal(wsem)

  datatype State = State(
    buf: seq<int>,      // signed chars
    wpos: nat,
    rpos: nat,
    mutex: nat,
    wsem: nat,
    rsem: nat,
    procs: seq<Pc>,
    sent: seq<byte>,    // history: the bytes stored, in order
    got: seq<byte>)     // history: the bytes loaded, in order

  function ToChar(x: byte): int { if x < 128 then x else x - 256 }

  /** `0xff & (int)c` for a signed char. */
  function FromChar(c: int): byte
    requires -128 <= c < 128
  {
    if c < 0 then c + 256 else c
  }

  /** The slot used by the n-th send and by the n-th receive, counting from 0. */
  function Slot(n: nat): (p: nat)
    ensures p < SIZE
  {
    (n % WORD) % SIZE
  }

  // ----- the statements

  predicate Producer(pc: Pc) {
    pc.Ready? || pc.SendWait? || pc.SendLock? || pc.SendStore? || pc.SendBump? || pc.SendUnlock? || pc.SendPost?
  }

  predicate Enabled(s: State, i: nat)
    requires i < |s.procs|
  {
    match s.procs[i]
    case SendWait(_) => s.wsem > 0
    case RecvWait => s.rsem > 0
    case SendLock(_) | RecvLock => s.mutex > 0
    case _ => true
  }

  ghost predicate Shape(s: State) {
    && |s.buf| == SIZE
    && (forall p :: 0 <= p < SIZE ==> -128 <= s.buf[p] < 128)
    && s.wpos < WORD && s.rpos < WORD
  }

  /** The next statement of process i; `x` is the byte a producer that is ready picks. */
  function Succ(s: State, i: nat, x: byte): Pc
    requires i < |s.procs|
  {
    match s.procs[i]
    case Ready => SendWait(x)
    case SendWait(y) => SendLock(y)
    case SendLock(y) => SendStore(y)
    case SendStore(_) => SendBump
    case SendBump => SendUnlock
    case SendUnlock => SendPost
    case SendPost => Ready
    case RecvWait => RecvLock
    case RecvLock => RecvLoad
    case RecvLoad => RecvBump
    case RecvBump => RecvUnlock
    case RecvUnlock => RecvPost
    case RecvPost => RecvWait
  }

  function Effect(s: State, i: nat): State
    requires Shape(s) && i < |s.procs| && Enabled(s, i)
  {
    match s.procs[i]
    case Ready => s
    case SendWait(_) => s.(wsem := s.wsem - 1)
    case SendLock(_) => s.(mutex := s.mutex - 1)
    case SendStore(y) => s.(buf := s.buf[s.wpos % SIZE := ToChar(y)], sent := s.sent + [y])
    case SendBump => s.(wpos := (s.wpos + 1) % WORD)
    case SendUnlock => s.(mutex := s.mutex + 1)
    case SendPost => s.(rsem := s.rsem + 1)
    case RecvWait => s.(rsem := s.rsem - 1)
    case RecvLock => s.(mutex := s.mutex - 1)
    case RecvLoad => s.(got := s.got + [FromChar(s.buf[s.rpos % SIZE])])
    case RecvBump => s.(rpos := (s.rpos + 1) % WORD)
    case RecvUnlock => s.(mutex := s.mutex + 1)
    case RecvPost => s.(wsem := s.wsem + 1)
  }

  function Next(s: State, i: nat, x: byte): State
    requires Shape(s) && i < |s.procs| && Enabled(s, i)
  {
    Effect(s, i).(procs := s.procs[i := Succ(s, i, x)])
  }

  ghost predicate Initial(s: State) {
    && Shape(s)
    && s.wpos == 0 && s.rpos == 0 && s.mutex == 1 && s.wsem == SIZE && s.rsem == 0
    && s.sent == [] && s.got == []
    && forall i :: 0 <= i < |s.procs| ==> s.procs[i] == Ready || s.procs[i] == RecvWait
  }

  // ----- the invariant

  predicate InCS(pc: Pc) {
    pc.SendStore? || pc.SendBump? || pc.SendUnlock? || pc.RecvLoad? || pc.RecvBump? || pc.RecvUnlock?
  }

  ghost predicate MutexOk(s: State) {
    && s.mutex <= 1
    && (s.mutex == 1 ==> forall i :: 0 <= i < |s.procs| ==> !InCS(s.procs[i]))
    && (s.mutex == 0 ==> exists i :: 0 <= i < |s.procs| && InCS(s.procs[i]))
    && forall i, j :: 0 <= i < |s.procs| && 0 <= j < |s.procs| && InCS(s.procs[i]) && InCS(s.procs[j]) ==> i == j
  }

  /** Which part of the 100 slots a process accounts for. */
  datatype Share = None | Pending | Bumping | Posting | Taking | Lifting | Returning

  function ShareOf(pc: Pc): Share {
    match pc
    case SendLock(_) | SendStore(_) => Pending              // took a free slot, has not stored
    case SendBump => Bumping                                // stored, has not moved wpos
    case SendUnlock | SendPost => Posting                   // stored, has not announced it
    case RecvLock | RecvLoad => Taking                      // was promised a byte, has not loaded it
    case RecvBump => Lifting                                // loaded, has not moved rpos
    case RecvUnlock | RecvPost => Returning                 // loaded, has not given the slot back
    case _ => None
  }

  function Count(procs: seq<Pc>, share: Share): nat {
    if procs == [] then 0
    else Count(procs[..|procs| - 1], share) + (if ShareOf(procs[|procs| - 1]) == share then 1 else 0)
  }

  /** Free, pending, buffered and returning slots make up the buffer; announced bytes are there. */
  ghost predicate Balance(s: State) {
    && |s.got| <= |s.sent|
    && s.wsem + Count(s.procs, Pending) + (|s.sent| - |s.got|) + Count(s.procs, Lifting) + Count(s.procs, Returning) == SIZE
    && s.rsem + Count(s.procs, Bumping) + Count(s.procs, Posting) + Count(s.procs, Taking) == |s.sent| - |s.got|
  }

  /** `wpos` and `rpos` count the stores and the loads, behind by those whose `++` is to come. */
  ghost predicate PositionsOk(s: State) {
    && Count(s.procs, Bumping) <= |s.sent| && Count(s.procs, Lifting) <= |s.got|
    && s.wpos == (|s.sent| - Count(s.procs, Bumping)) % WORD
    && s.rpos == (|s.got| - Count(s.procs, Lifting)) % WORD
  }

  ghost predicate Inv(s: State) {
    Shape(s) && MutexOk(s) && Balance(s) && PositionsOk(s)
  }

  /** Every byte sent and not yet received is in its slot. */
  ghost predicate Buffered(s: State)
    requires Shape(s) && |s.got| <= |s.sent|
  {
    forall n :: |s.got| <= n < |s.sent| ==> FromChar(s.buf[Slot(n)]) == s.sent[n]
  }

  ghost predicate Fifo(s: State) {
    s.got <= s.sent
  }

  // ----- slots, and the wrap at 2^32

  /** The next store, number `sent`, would hit a slot that still holds an unread byte. */
  ghost predicate Clash(sent: nat, got: nat) {
    exists n: nat :: got <= n < sent && Slot(n) == Slot(sent)
  }

  /** That happens only just after a wrap, with 96 unread bytes or more. */
  predicate WrapHits(sent: nat, got: nat) {
    sent >= WORD && sent % WORD < 96 && sent - got >= 96
  }

  lemma SlotOfEarlier(n: nat, sent: nat)
    requires n < sent && sent - n < SIZE
    ensures Slot(n) == Slot(sent) <==> sent >= WORD && sent % WORD < 96 && sent - n == 96
  {
    var q, e := sent / WORD, sent % WORD;
    if n >= q * WORD {
      ModUnique(n, q, WORD, n - q * WORD);
      SlotsApart(n - q * WORD, e);
    } else {
      assert q > 0;
      ModUnique(n, q - 1, WORD, n - (q - 1) * WORD);
    }
  }

  lemma SlotsApart(a: nat, b: nat)
    requires a < b && b - a < SIZE
    ensures a % SIZE != b % SIZE
  {
  }

  lemma ClashExactly(sent: nat, got: nat)
    requires got <= sent && sent - got < SIZE
    ensures Clash(sent, got) <==> WrapHits(sent, got)
  {
    if Clash(sent, got) {
      var n: nat :| got <= n < sent && Slot(n) == Slot(sent);
      SlotOfEarlier(n, sent);
    }
    if WrapHits(sent, got) {
      SlotOfEarlier(sent - 96, sent);
    }
  }

  // ----- every step keeps the invariant

  lemma InitialInv(s: State)
    requires Initial(s)
    ensures Inv(s) && Buffered(s) && Fifo(s)
  {
    NobodyElse(s.procs, Pending);
    NobodyElse(s.procs, Lifting);
    NobodyElse(s.procs, Returning);
    NobodyElse(s.procs, Bumping);
    NobodyElse(s.procs, Posting);
    NobodyElse(s.procs, Taking);
  }

  lemma {:induction false} CountUpdate(procs: seq<Pc>, i: nat, pc: Pc, share: Share)
    requires i < |procs|
    ensures Count(procs[i := pc], share)
         == Count(procs, share) - (if ShareOf(procs[i]) == share then 1 else 0) + (if ShareOf(pc) == share then 1 else 0)
  {
    var n := |procs| - 1;
    if i < n {
      CountUpdate(procs[..n], i, pc, share);
      assert procs[i := pc][..n] == procs[..n][i := pc];
    } else {
      assert procs[i := pc][..n] == procs[..n];
    }
  }

  lemma {:induction false} HasShare(procs: seq<Pc>, i: nat)
    requires i < |procs|
    ensures Count(procs, ShareOf(procs[i])) >= 1
  {
    if i < |procs| - 1 {
      HasShare(procs[..|procs| - 1], i);
    }
  }

  /** A process in its critical section finds nobody else between a store or load and its `++`. */
  lemma {:induction false} NobodyElse(procs: seq<Pc>, share: Share)
    requires forall i :: 0 <= i < |procs| ==> ShareOf(procs[i]) != share
    ensures Count(procs, share) == 0
  {
    if procs != [] {
      NobodyElse(procs[..|procs| - 1], share);
    }
  }

  lemma ShapeKept(s: State, i: nat, x: byte)
    requires Shape(s) && i < |s.procs| && Enabled(s, i)
    ensures Shape(Next(s, i, x))
  {
  }

  lemma MutexKept(s: State, i: nat, x: byte)
    requires Inv(s) && i < |s.procs| && Enabled(s, i)
    ensures MutexOk(Next(s, i, x))
  {
    var s' := Next(s, i, x);
    if s'.mutex == 0 && !InCS(s'.procs[i]) {
      var h :| 0 <= h < |s.procs| && InCS(s.procs[h]);
      assert InCS(s'.procs[h]);
    }
  }

  /** The counters move with the share of the process that steps. */
  lemma EffectByShare(s: State, i: nat, x: byte)
    requires Shape(s) && i < |s.procs| && Enabled(s, i)
    ensures var s', a, b := Effect(s, i), ShareOf(s.procs[i]), ShareOf(Succ(s, i, x));
            && s'.wsem == s.wsem + (if a == None && b == Pending then -1 else if a == Returning && b == None then 1 else 0)
            && s'.rsem == s.rsem + (if a == None && b == Taking then -1 else if a == Posting && b == None then 1 else 0)
            && |s'.sent| == |s.sent| + (if a == Pending && b == Bumping then 1 else 0)
            && |s'.got| == |s.got| + (if a == Taking && b == Lifting then 1 else 0)
            && s'.wpos == (if a == Bumping then (s.wpos + 1) % WORD else s.wpos)
            && s'.rpos == (if a == Lifting then (s.rpos + 1) % WORD else s.rpos)
    ensures var a, b := ShareOf(s.procs[i]), ShareOf(Succ(s, i, x));
            a == b || (a, b) in {(None, Pending), (Pending, Bumping), (Bumping, Posting), (Posting, None),
                                 (None, Taking), (Taking, Lifting), (Lifting, Returning), (Returning, None)}
  {
  }

  lemma BalanceKept(s: State, i: nat, x: byte)
    requires Balance(s) && Shape(s) && i < |s.procs| && Enabled(s, i)
    ensures Balance(Next(s, i, x))
  {
    var pc := Succ(s, i, x);
    EffectByShare(s, i, x);
    CountUpdate(s.procs, i, pc, Pending);
    CountUpdate(s.procs, i, pc, Bumping);
    CountUpdate(s.procs, i, pc, Posting);
    CountUpdate(s.procs, i, pc, Taking);
    CountUpdate(s.procs, i, pc, Lifting);
    CountUpdate(s.procs, i, pc, Returning);
    HasShare(s.procs, i);
    hide ShareOf, Succ, Effect, Enabled, Count;
  }

  lemma PositionsKept(s: State, i: nat, x: byte)
    requires PositionsOk(s) && Shape(s) && i < |s.procs| && Enabled(s, i)
    ensures PositionsOk(Next(s, i, x))
  {
    var pc := Succ(s, i, x);
    EffectByShare(s, i, x);
    CountUpdate(s.procs, i, pc, Bumping);
    CountUpdate(s.procs, i, pc, Lifting);
    ModPlus(|s.sent| - Count(s.procs, Bumping), 1, WORD);
    ModPlus(|s.got| - Count(s.procs, Lifting), 1, WORD);
    hide ShareOf, Succ, Effect, Enabled, Count;
  }

  lemma StepKeeps(s: State, i: nat, x: byte)
    requires Inv(s) && i < |s.procs| && Enabled(s, i)
    ensures Inv(Next(s, i, x))
  {
    ShapeKept(s, i, x);
    MutexKept(s, i, x);
    BalanceKept(s, i, x);
    PositionsKept(s, i, x);
  }

  /** A store keeps the unread bytes in place exactly when it does not hit one of another value. */
  lemma StoreBuffers(s: State, i: nat, x: byte, y: byte)
    requires Inv(s) && Buffered(s) && i < |s.procs| && s.procs[i] == SendStore(y)
    ensures Inv(Next(s, i, x))
    ensures |s.sent| - |s.got| < SIZE
    ensures Buffered(Next(s, i, x)) <==>
            !WrapHits(|s.sent|, |s.got|) || s.sent[|s.sent| - 96] == y
  {
    StepKeeps(s, i, x);
    HasShare(s.procs, i);
    NobodyElse(s.procs, Bumping);
    StoreSlot(s, Next(s, i, x), y);
    hide Buffered, Slot;
  }

  /** One store, seen as a write to the buffer: it loses an unread byte only in the slot it hits. */
  lemma StoreSlot(s: State, s': State, y: byte)
    requires Shape(s) && |s.got| <= |s.sent| && |s.sent| - |s.got| < SIZE && Buffered(s)
    requires s'.buf == s.buf[Slot(|s.sent|) := ToChar(y)] && s'.sent == s.sent + [y] && s'.got == s.got && Shape(s')
    ensures Buffered(s') <==> !WrapHits(|s.sent|, |s.got|) || s.sent[|s.sent| - 96] == y
  {
    var m := |s.sent|;
    assert forall n :: 0 <= n < m ==> s'.sent[n] == s.sent[n];
    forall n | |s.got| <= n < m
      ensures Slot(n) == Slot(m) <==> WrapHits(m, |s.got|) && n == m - 96
    {
      SlotOfEarlier(n, m);
    }
    hide Slot;
    if WrapHits(m, |s.got|) {
      assert FromChar(s'.buf[Slot(m - 96)]) == y;
    }
  }

  /** A load takes the oldest unread byte. */
  lemma LoadTakesOldest(s: State, i: nat, x: byte)
    requires Inv(s) && Buffered(s) && i < |s.procs| && s.procs[i] == RecvLoad
    ensures |s.got| < |s.sent|
    ensures Next(s, i, x).got == s.got + [s.sent[|s.got|]]
  {
    HasShare(s.procs, i);
    NobodyElse(s.procs, Lifting);
    assert s.rpos % SIZE == Slot(|s.got|);
  }

  /** The store process i is about to make is not one that clobbers an unread byte. */
  predicate StepSafe(s: State, i: nat)
    requires i < |s.procs|
  {
    s.procs[i].SendStore? ==> !WrapHits(|s.sent|, |s.got|)
  }

  lemma StepOrdered(s: State, i: nat, x: byte)
    requires Inv(s) && Buffered(s) && Fifo(s)
    requires i < |s.procs| && Enabled(s, i) && StepSafe(s, i)
    ensures Inv(Next(s, i, x)) && Buffered(Next(s, i, x)) && Fifo(Next(s, i, x))
  {
    StepKeeps(s, i, x);
    match s.procs[i] {
      case SendStore(y) => StoreBuffers(s, i, x, y);
      case RecvLoad => LoadTakesOldest(s, i, x);
      case _ =>
    }
  }

  // ----- runs

  datatype Move = Move(i: nat, x: byte)

  /** A run: the moves taken, from an initial state. */
  ghost predicate Run(run: seq<State>, moves: seq<Move>) {
    && |run| == |moves| + 1
    && Initial(run[0])
    && forall k :: 0 <= k < |moves| ==> Took(run[k], moves[k], run[k + 1])
  }

  ghost predicate Took(s: State, m: Move, s': State) {
    Shape(s) && m.i < |s.procs| && Enabled(s, m.i) && s' == Next(s, m.i, m.x)
  }

  lemma {:induction false} RunInv(run: seq<State>, moves: seq<Move>, k: nat)
    requires Run(run, moves) && k < |run|
    ensures Inv(run[k])
  {
    if k == 0 {
      InitialInv(run[0]);
    } else {
      RunInv(run, moves, k - 1);
      assert Took(run[k - 1], moves[k - 1], run[k - 1 + 1]);
      StepKeeps(run[k - 1], moves[k - 1].i, moves[k - 1].x);
    }
  }

  /** Bytes come out in the order they went in, whatever the interleaving. */
  lemma {:induction false} RunOrdered(run: seq<State>, moves: seq<Move>, k: nat)
    requires Run(run, moves) && k < |run|
    requires forall j :: 0 <= j < k ==> moves[j].i < |run[j].procs| && StepSafe(run[j], moves[j].i)
    ensures Inv(run[k]) && Buffered(run[k]) && Fifo(run[k])
  {
    if k == 0 {
      InitialInv(run[0]);
    } else {
      RunOrdered(run, moves, k - 1);
      assert Took(run[k - 1], moves[k - 1], run[k - 1 + 1]);
      StepOrdered(run[k - 1], moves[k - 1].i, moves[k - 1].x);
    }
  }

  lemma {:induction false} SentGrows(run: seq<State>, moves: seq<Move>, j: nat, k: nat)
    requires Run(run, moves) && j <= k < |run|
    ensures |run[j].sent| <= |run[k].sent|
  {
    if j < k {
      SentGrows(run, moves, j, k - 1);
      assert Took(run[k - 1], moves[k - 1], run[k - 1 + 1]);
    }
  }

  /** In particular, for up to 2^32 sends; one more can break the order. */
  lemma ShortRunOrdered(run: seq<State>, moves: seq<Move>, k: nat)
    requires Run(run, moves) && k < |run|
    requires |run[k].sent| <= WORD
    ensures Fifo(run[k]) && |run[k].sent| - |run[k].got| <= SIZE
  {
    forall j | 0 <= j < k
      ensures moves[j].i < |run[j].procs| && StepSafe(run[j], moves[j].i)
    {
      SentGrows(run, moves, j + 1, k);
      assert Took(run[j], moves[j], run[j + 1]);
    }
    RunOrdered(run, moves, k);
  }

  /**
   With nobody in a critical section, a producer and a consumer around, somebody can move:
   otherwise the buffer would have to be full and empty at once.
   */
  lemma SomebodyMoves(s: State, p: nat, c: nat)
    requires Inv(s) && s.mutex == 1
    requires p < |s.procs| && Producer(s.procs[p])
    requires c < |s.procs| && !Producer(s.procs[c])
    ensures exists m :: 0 <= m < |s.procs| && Enabled(s, m)
  {
    if forall i :: 0 <= i < |s.procs| ==> !Enabled(s, i) {
      assert !Enabled(s, p) && !Enabled(s, c);
      forall i | 0 <= i < |s.procs|
        ensures ShareOf(s.procs[i]) == None
      {
        assert !Enabled(s, i);
      }
      NobodyElse(s.procs, Pending);
      NobodyElse(s.procs, Lifting);
      NobodyElse(s.procs, Returning);
      NobodyElse(s.procs, Bumping);
      NobodyElse(s.procs, Posting);
      NobodyElse(s.procs, Taking);
    }
  }

  /** With a producer and a consumer around, some process can always move. */
  lemma NeverStuck(run: seq<State>, moves: seq<Move>, k: nat, p: nat, c: nat)
    requires Run(run, moves) && k < |run|
    requires p < |run[k].procs| && Producer(run[k].procs[p])
    requires c < |run[k].procs| && !Producer(run[k].procs[c])
    ensures exists m :: 0 <= m < |run[k].procs| && Enabled(run[k], m)
  {
    RunInv(run, moves, k);
    var s := run[k];
    if s.mutex == 0 {
      var m :| 0 <= m < |s.procs| && InCS(s.procs[m]);
      assert Enabled(s, m);
    } else {
      SomebodyMoves(s, p, c);
    }
  }

  // ----- past 2^32 sends the order can break: one such run

  ghost predicate Reached(s: State) {
    exists run, moves :: Run(run, moves) && run[|run| - 1] == s
  }

  lemma Advance(s: State, i: nat, x: byte) returns (s': State)
    requires Reached(s) && Shape(s) && i < |s.procs| && Enabled(s, i)
    ensures s' == Next(s, i, x) && Reached(s') && Shape(s')
  {
    s' := Next(s, i, x);
    ShapeKept(s, i, x);
    var run, moves :| Run(run, moves) && run[|run| - 1] == s;
    var run', moves' := run + [s'], moves + [Move(i, x)];
    forall k | 0 <= k < |moves'|
      ensures Took(run'[k], moves'[k], run'[k + 1])
    {
      if k < |moves| {
        assert Took(run[k], moves[k], run[k + 1]);
      }
    }
    assert Run(run', moves') && run'[|run'| - 1] == s';
  }

  /** One producer between sends, one consumer between receives. */
  ghost predicate Quiet(s: State) {
    Shape(s) && Reached(s) && s.mutex == 1 && s.procs == [Ready, RecvWait]
  }

  lemma SendOne(s: State, x: byte) returns (s': State)
    requires Quiet(s) && s.wsem > 0
    ensures Quiet(s')
    ensures s' == s.(buf := s.buf[s.wpos % SIZE := ToChar(x)], sent := s.sent + [x],
                     wpos := (s.wpos + 1) % WORD, wsem := s.wsem - 1, rsem := s.rsem + 1)
  {
    var t := Advance(s, 0, x);
    t := Advance(t, 0, x);
    t := Advance(t, 0, x);
    t := Advance(t, 0, x);
    t := Advance(t, 0, x);
    t := Advance(t, 0, x);
    s' := Advance(t, 0, x);
  }

  lemma ReceiveOne(s: State) returns (s': State)
    requires Quiet(s) && s.rsem > 0
    ensures Quiet(s')
    ensures s' == s.(got := s.got + [FromChar(s.buf[s.rpos % SIZE])],
                     rpos := (s.rpos + 1) % WORD, wsem := s.wsem + 1, rsem := s.rsem - 1)
  {
    var t := Advance(s, 1, 0);
    t := Advance(t, 1, 0);
    t := Advance(t, 1, 0);
    t := Advance(t, 1, 0);
    t := Advance(t, 1, 0);
    s' := Advance(t, 1, 0);
  }

  /** m zeros sent and g of them received. */
  ghost predicate Zeros(s: State, m: nat, g: nat) {
    && Quiet(s) && g <= m
    && |s.sent| == m && |s.got| == g && s.wpos == m % WORD && s.rpos == g % WORD
    && s.rsem == m - g && s.wsem == SIZE - (m - g)
    && (forall p :: 0 <= p < SIZE ==> s.buf[p] == 0)
    && (forall n :: 0 <= n < m ==> s.sent[n] == 0)
    && (forall n :: 0 <= n < g ==> s.got[n] == 0)
  }

  /** Send and receive m zeros in turn. */
  lemma {:induction false} PumpZeros(m: nat) returns (s: State)
    ensures Zeros(s, m, m)
  {
    if m == 0 {
      s := State(seq(SIZE, _ => 0), 0, 0, 1, SIZE, 0, [Ready, RecvWait], [], []);
      assert Run([s], []) && [s][|[s]| - 1] == s;
    } else {
      s := PumpZeros(m - 1);
      s := SendZero(s, m - 1, m - 1);
      s := ReceiveZero(s, m, m - 1);
    }
  }

  lemma SendZero(s: State, m: nat, g: nat) returns (s': State)
    requires Zeros(s, m, g) && m - g < SIZE
    ensures Zeros(s', m + 1, g)
  {
    s' := SendOne(s, 0);
    ModPlus(m, 1, WORD);
  }

  lemma ReceiveZero(s: State, m: nat, g: nat) returns (s': State)
    requires Zeros(s, m, g) && g < m
    ensures Zeros(s', m, g + 1)
  {
    s' := ReceiveOne(s);
    ModPlus(g, 1, WORD);
  }

  lemma {:induction false} SendZeros(s: State, m: nat, g: nat, more: nat) returns (s': State)
    requires Zeros(s, m, g) && m + more - g <= SIZE
    ensures Zeros(s', m + more, g)
  {
    if more == 0 {
      s' := s;
    } else {
      s' := SendZeros(s, m, g, more - 1);
      s' := SendZero(s', m + (more - 1), g);
    }
  }

  /**
   2^32 zeros sent and the last 96 of them unread: one more send, of a 1, lands on the oldest
   unread byte and the next receive returns it.
   */
  lemma OrderBreaks() returns (s: State)
    ensures Quiet(s) && |s.sent| == WORD + 1 && !Fifo(s)
  {
    var g := WORD - 96;
    s := PumpZeros(g);
    s := SendZeros(s, g, g, 96);
    s := SendOne(s, 1);
    s := ReceiveOne(s);
    assert s.got[g] == 1 && s.sent[g] == 0;
  }
}
