/**
 The dining philosophers of user/tests/test20/philosophe.c as a step system: N processes, one
 step per statement that touches shared state, every interleaving allowed.

 A critical section is not one step here.  That its statements exclude each other is proved
 from the semaphore `mutex_philo`, not assumed.
 */
module Philosophers {
  import opened Arith

  const ROUNDS: nat := 6

  /** Where a philosopher stands: the statement it executes next. */
  datatype Pc =
    // prendre_fourchettes
    | TakeWait     // xwait(mutex)
    | TakeTest     // test(p, i)
    | TakeLeft     // f[i] = 1
    | TakeRight    // f[i+1] = 1
    | TakeGo       // xsignal(s[i])
    | TakeBlock    // bloque[i] = 1
    | TakeExit     // xsignal(mutex)
    | TakeSleep    // xwait(s[i])
    // manger: wait, etat = 'm', signal, loop, wait, etat = '-', signal
    | Eat(e: nat)
    // poser_fourchettes
    | PutWait      // xwait(mutex)
    | PutTestL     // bloque[i-1] && !f[i-1]
    | GiveL        // f[i-1] = 1
    | WakeL        // bloque[i-1] = 0
    | SignalL      // xsignal(s[i-1])
    | DropL        // f[i] = 0
    | PutTestR     // bloque[i+1] && !f[i+2]
    | GiveR        // f[i+2] = 1
    | WakeR        // bloque[i+1] = 0
    | SignalR      // xsignal(s[i+1])
    | DropR        // f[i+1] = 0
    | PutExit      // xsignal(mutex)
    // penser: the same seven statements with 'p', then the next round
    | Think(t: nat)
    // after the loop: wait, etat = '-', signal
    | Leave(l: nat)
    | Done

  datatype State = State(
    f: seq<bool>,        // fork in use
    bloque: seq<bool>,   // philosopher waiting for forks
    etat: seq<char>,
    mutex: nat,          // count of mutex_philo
    sem: seq<nat>,       // counts of s[i]
    pc: seq<Pc>,
    round: seq<nat>)

  ghost predicate Shape(s: State, n: nat) {
    n >= 3 && |s.f| == |s.bloque| == |s.etat| == |s.sem| == |s.pc| == |s.round| == n
  }

  /** (i + N - 1) % N and (i + 1) % N. */
  function Left(i: nat, n: nat): (j: nat)
    requires i < n
    ensures j < n && j == (i + n - 1) % n
  {
    ModUnique(i + n - 1, if i == 0 then 0 else 1, n, if i == 0 then n - 1 else i - 1);
    if i == 0 then n - 1 else i - 1
  }

  function Right(i: nat, n: nat): (j: nat)
    requires i < n
    ensures j < n && j == (i + 1) % n
  {
    ModUnique(i + 1, if i == n - 1 then 1 else 0, n, if i == n - 1 then 0 else i + 1);
    if i == n - 1 then 0 else i + 1
  }

  lemma LeftRight(i: nat, n: nat)
    requires i < n && n >= 3
    ensures Left(Right(i, n), n) == i && Right(Left(i, n), n) == i
    ensures Left(i, n) != i && Right(i, n) != i && Left(i, n) != Right(i, n)
  {
  }

  predicate WaitsMutex(pc: Pc) {
    pc in {TakeWait, PutWait, Eat(0), Eat(4), Think(0), Think(4), Leave(0)}
  }

  predicate Enabled(s: State, i: nat)
    requires Shape(s, |s.pc|) && i < |s.pc|
  {
    if WaitsMutex(s.pc[i]) then s.mutex > 0
    else if s.pc[i] == TakeSleep then s.sem[i] > 0
    else s.pc[i] != Done
  }

  // ----- the statements

  function Acquire(s: State): State
    requires s.mutex > 0
  {
    s.(mutex := s.mutex - 1)
  }

  function Release(s: State): State {
    s.(mutex := s.mutex + 1)
  }

  function SetFork(s: State, j: nat, used: bool): State
    requires j < |s.f|
  {
    s.(f := s.f[j := used])
  }

  function SetBlocked(s: State, j: nat, b: bool): State
    requires j < |s.bloque|
  {
    s.(bloque := s.bloque[j := b])
  }

  function Signal(s: State, j: nat): State
    requires j < |s.sem|
  {
    s.(sem := s.sem[j := s.sem[j] + 1])
  }

  function Show(s: State, i: nat, c: char): State
    requires i < |s.etat|
  {
    s.(etat := s.etat[i := c])
  }

  /** The seven statements of `manger` (c == 'm') and of `penser` (c == 'p'). */
  function Section(s: State, i: nat, step: nat, c: char): State
    requires i < |s.etat| && (step == 0 || step == 4 ==> s.mutex > 0)
  {
    match step
    case 0 => Acquire(s)
    case 1 => Show(s, i, c)
    case 2 => Release(s)
    case 3 => s
    case 4 => Acquire(s)
    case 5 => Show(s, i, '-')
    case _ => Release(s)
  }

  /** The statement that follows the one philosopher i is at. */
  function Succ(s: State, i: nat): Pc
    requires Shape(s, |s.pc|) && i < |s.pc|
  {
    var n := |s.pc|;
    var l, r := Left(i, n), Right(i, n);
    match s.pc[i]
    case TakeWait => TakeTest
    case TakeTest => if !s.f[i] && !s.f[r] then TakeLeft else TakeBlock
    case TakeLeft => TakeRight
    case TakeRight => TakeGo
    case TakeGo => TakeExit
    case TakeBlock => TakeExit
    case TakeExit => TakeSleep
    case TakeSleep => Eat(0)
    case Eat(e) => if e < 6 then Eat(e + 1) else PutWait
    case PutWait => PutTestL
    case PutTestL => if s.bloque[l] && !s.f[l] then GiveL else DropL
    case GiveL => WakeL
    case WakeL => SignalL
    case SignalL => PutTestR
    case DropL => PutTestR
    case PutTestR => if s.bloque[r] && !s.f[Right(r, n)] then GiveR else DropR
    case GiveR => WakeR
    case WakeR => SignalR
    case SignalR => PutExit
    case DropR => PutExit
    case PutExit => Think(0)
    case Think(t) =>
      if t < 6 then Think(t + 1)
      else if s.round[i] + 1 < ROUNDS then TakeWait
      else Leave(0)
    case Leave(k) => if k < 2 then Leave(k + 1) else Done
    case Done => Done
  }

  /** What the statement philosopher i is at does to the shared variables. */
  function Effect(s: State, i: nat): State
    requires Shape(s, |s.pc|) && i < |s.pc| && Enabled(s, i)
  {
    var n := |s.pc|;
    var l, r := Left(i, n), Right(i, n);
    match s.pc[i]
    case TakeWait | PutWait => Acquire(s)
    case TakeTest | PutTestL | PutTestR => s
    case TakeLeft => SetFork(s, i, true)
    case TakeRight => SetFork(s, r, true)
    case TakeGo => Signal(s, i)
    case TakeBlock => SetBlocked(s, i, true)
    case TakeExit | PutExit => Release(s)
    case TakeSleep => s.(sem := s.sem[i := s.sem[i] - 1])
    case Eat(e) => Section(s, i, e, 'm')
    case GiveL => SetFork(s, l, true)
    case WakeL => SetBlocked(s, l, false)
    case SignalL => Signal(s, l)
    case DropL => SetFork(s, i, false)
    case GiveR => SetFork(s, Right(r, n), true)
    case WakeR => SetBlocked(s, r, false)
    case SignalR => Signal(s, r)
    case DropR => SetFork(s, r, false)
    case Think(t) =>
      var s' := Section(s, i, t, 'p');
      if t < 6 then s' else s'.(round := s.round[i := s.round[i] + 1])
    case Leave(k) => if k == 0 then Acquire(s) else if k == 1 then Show(s, i, '-') else Release(s)
  }

  /** Philosopher i executes its next statement. */
  function Next(s: State, i: nat): State
    requires Shape(s, |s.pc|) && i < |s.pc| && Enabled(s, i)
  {
    Effect(s, i).(pc := s.pc[i := Succ(s, i)])
  }

  ghost predicate Initial(s: State, n: nat) {
    && Shape(s, n)
    && s.mutex == 1
    && forall i :: 0 <= i < n ==>
                     !s.f[i] && !s.bloque[i] && s.etat[i] == '-' && s.sem[i] == 0
                     && s.pc[i] == TakeWait && s.round[i] == 0
  }

  // ----- who owns what

  /** The statements executed while holding the mutex. */
  predicate InCS(pc: Pc) {
    match pc
    case TakeTest | TakeLeft | TakeRight | TakeGo | TakeBlock | TakeExit => true
    case Eat(e) => e in {1, 2, 5, 6}
    case PutTestL | GiveL | WakeL | SignalL | DropL | PutTestR | GiveR | WakeR | SignalR | DropR | PutExit => true
    case Think(t) => t in {1, 2, 5, 6}
    case Leave(k) => k in {1, 2}
    case _ => false
  }

  /** A neighbour has passed i a fork and set the other one for it, but i is still marked blocked. */
  predicate HalfGranted(s: State, i: nat)
    requires Shape(s, |s.pc|) && i < |s.pc|
  {
    s.pc[Right(i, |s.pc|)] == WakeL || s.pc[Left(i, |s.pc|)] == WakeR
  }

  /** i is granted both forks but its semaphore is not signalled yet. */
  predicate Unsignalled(s: State, i: nat)
    requires Shape(s, |s.pc|) && i < |s.pc|
  {
    || HalfGranted(s, i)
    || s.pc[Right(i, |s.pc|)] == SignalL || s.pc[Left(i, |s.pc|)] == SignalR
  }

  /** Positions at which a philosopher owns its left fork, its right fork. */
  predicate LeftPc(pc: Pc) {
    pc.Eat? || pc in {TakeRight, TakeGo, PutWait, PutTestL, GiveL, DropL}
  }

  predicate RightPc(pc: Pc) {
    pc.Eat? || pc in {TakeGo, PutWait, PutTestL, GiveL, WakeL, SignalL, DropL, PutTestR, GiveR, DropR}
  }

  /** Between asking for forks and being let go. */
  predicate Asking(pc: Pc) {
    pc == TakeExit || pc == TakeSleep
  }

  /** i asked for both forks and has them. */
  predicate Granted(s: State, i: nat)
    requires Shape(s, |s.pc|) && i < |s.pc|
  {
    Asking(s.pc[i]) && (!s.bloque[i] || HalfGranted(s, i))
  }

  /** Philosopher i owns fork i. */
  predicate HoldsLeft(s: State, i: nat)
    requires Shape(s, |s.pc|) && i < |s.pc|
  {
    LeftPc(s.pc[i]) || Granted(s, i)
  }

  /** Philosopher i owns fork i + 1. */
  predicate HoldsRight(s: State, i: nat)
    requires Shape(s, |s.pc|) && i < |s.pc|
  {
    RightPc(s.pc[i]) || Granted(s, i)
  }

  /** Fork j is set exactly when one of its two philosophers owns it, and never both do. */
  ghost predicate ForkOk(s: State, j: nat)
    requires Shape(s, |s.pc|) && j < |s.pc|
  {
    var l := Left(j, |s.pc|);
    && (s.f[j] <==> HoldsLeft(s, j) || HoldsRight(s, l))
    && !(HoldsLeft(s, j) && HoldsRight(s, l))
  }

  /** Philosopher i leaves after its six rounds. */
  ghost predicate RoundOk(s: State, i: nat)
    requires Shape(s, |s.pc|) && i < |s.pc|
  {
    && (if s.pc[i].Leave? || s.pc[i] == Done then s.round[i] == ROUNDS else s.round[i] < ROUNDS)
    && (s.pc[i].Eat? ==> s.pc[i].e <= 6)
    && (s.pc[i].Think? ==> s.pc[i].t <= 6)
    && (s.pc[i].Leave? ==> s.pc[i].l <= 2)
  }

  /** Philosopher i shows 'm' and 'p' just while it eats and thinks. */
  ghost predicate ShowOk(s: State, i: nat)
    requires Shape(s, |s.pc|) && i < |s.pc|
  {
    && s.etat[i] in {'-', 'm', 'p'}
    && (s.etat[i] == 'm' <==> s.pc[i].Eat? && 2 <= s.pc[i].e <= 5)
    && (s.etat[i] == 'p' <==> s.pc[i].Think? && 2 <= s.pc[i].t <= 5)
  }

  /** A blocked philosopher is waiting for a fork that is in use. */
  ghost predicate BlockedOk(s: State, i: nat)
    requires Shape(s, |s.pc|) && i < |s.pc|
  {
    s.bloque[i] ==> Asking(s.pc[i]) && (s.f[i] || s.f[Right(i, |s.pc|)])
  }

  /** s[i] counts 1 exactly when i is granted its forks and has not been let go. */
  ghost predicate SemOk(s: State, i: nat)
    requires Shape(s, |s.pc|) && i < |s.pc|
  {
    && s.sem[i] <= 1
    && (s.sem[i] == 1 <==> Asking(s.pc[i]) && !s.bloque[i] && !Unsignalled(s, i))
  }

  /** What philosopher i has established on its way through a critical section. */
  ghost predicate At(s: State, i: nat)
    requires Shape(s, |s.pc|) && i < |s.pc|
  {
    var n := |s.pc|;
    var l, r := Left(i, n), Right(i, n);
    match s.pc[i]
    case TakeLeft => !s.f[i] && !s.f[r]
    case TakeRight => !s.f[r]
    case TakeBlock => s.f[i] || s.f[r]
    case GiveL => s.bloque[l] && !s.f[l]
    case WakeL => s.bloque[l]
    case SignalL => s.pc[l] == TakeSleep && !s.bloque[l]
    case DropL => !(s.bloque[l] && !s.f[l])
    case GiveR => s.bloque[r] && !s.f[Right(r, n)]
    case WakeR => s.bloque[r]
    case SignalR => s.pc[r] == TakeSleep && !s.bloque[r]
    case DropR => !(s.bloque[r] && !s.f[Right(r, n)])
    case _ => true
  }

  /** `mutex_philo` is 1 when nobody is in a critical section and 0 when one philosopher is. */
  ghost predicate MutexOk(s: State)
    requires Shape(s, |s.pc|)
  {
    && s.mutex <= 1
    && (s.mutex == 1 ==> forall i :: 0 <= i < |s.pc| ==> !InCS(s.pc[i]))
    && (s.mutex == 0 ==> exists i :: 0 <= i < |s.pc| && InCS(s.pc[i]))
    && forall i, j :: 0 <= i < |s.pc| && 0 <= j < |s.pc| && InCS(s.pc[i]) && InCS(s.pc[j]) ==> i == j
  }

  ghost predicate Inv(s: State, n: nat) {
    && Shape(s, n)
    && MutexOk(s)
    && (forall i :: 0 <= i < n ==> RoundOk(s, i))
    && (forall i :: 0 <= i < n ==> ShowOk(s, i))
    && (forall i :: 0 <= i < n ==> BlockedOk(s, i))
    && (forall i :: 0 <= i < n ==> SemOk(s, i))
    && (forall i :: 0 <= i < n ==> At(s, i))
    && (forall j :: 0 <= j < n ==> ForkOk(s, j))
  }

  lemma InitialInv(s: State, n: nat)
    requires Initial(s, n)
    ensures Inv(s, n)
  {
  }

  lemma NextShape(s: State, i: nat, n: nat)
    requires Shape(s, n) && i < n && Enabled(s, i)
    ensures Shape(Next(s, i), n)
  {
    hide Succ, Left, Right;
  }

  /** What any step does to the mutex. */
  lemma NextMutex(s: State, i: nat, n: nat)
    requires Shape(s, n) && i < n && Enabled(s, i) && RoundOk(s, i)
    ensures WaitsMutex(s.pc[i]) ==> !InCS(s.pc[i]) && InCS(Succ(s, i)) && Effect(s, i).mutex == s.mutex - 1
    ensures !WaitsMutex(s.pc[i]) && InCS(Succ(s, i)) ==> InCS(s.pc[i]) && Effect(s, i).mutex == s.mutex
    ensures InCS(s.pc[i]) && !InCS(Succ(s, i)) ==> Effect(s, i).mutex == s.mutex + 1
    ensures !InCS(s.pc[i]) && !InCS(Succ(s, i)) ==> Effect(s, i).mutex == s.mutex
  {
  }

  lemma MutexKept(s: State, i: nat, n: nat)
    requires Inv(s, n) && i < n && Enabled(s, i)
    ensures Shape(Next(s, i), n) && MutexOk(Next(s, i))
  {
    NextShape(s, i, n);
    NextMutex(s, i, n);
    var s' := Next(s, i);
    if s'.mutex == 0 && !InCS(s'.pc[i]) {
      var h :| 0 <= h < n && InCS(s.pc[h]);
      assert InCS(s'.pc[h]);
    }
  }

  lemma RoundKept(s: State, i: nat, n: nat, j: nat)
    requires Shape(s, n) && i < n && j < n && Enabled(s, i) && RoundOk(s, i) && RoundOk(s, j)
    ensures Shape(Next(s, i), n) && RoundOk(Next(s, i), j)
  {
    NextShape(s, i, n);
  }

  lemma ShowKept(s: State, i: nat, n: nat, j: nat)
    requires Shape(s, n) && i < n && j < n && Enabled(s, i) && RoundOk(s, i) && ShowOk(s, i) && ShowOk(s, j)
    ensures Shape(Next(s, i), n) && ShowOk(Next(s, i), j)
  {
    NextShape(s, i, n);
    hide Left, Right;
  }

  /** Everybody but i is outside the critical sections. */
  ghost predicate Alone(s: State, i: nat) {
    forall k :: 0 <= k < |s.pc| && k != i ==> !InCS(s.pc[k])
  }

  /** Enough of the invariant for a step of i, seen from j. */
  ghost predicate Around(s: State, i: nat, n: nat, j: nat) {
    && Shape(s, n) && i < n && j < n && Enabled(s, i)
    && (InCS(s.pc[i]) ==> Alone(s, i))
    && At(s, i) && SemOk(s, i) && RoundOk(s, i)
    && At(s, j) && SemOk(s, j) && BlockedOk(s, j) && ForkOk(s, j)
    && BlockedOk(s, i) && BlockedOk(s, Left(i, n)) && BlockedOk(s, Right(i, n))
    && Left(Right(i, n), n) == i && Right(Left(i, n), n) == i
    && Left(Right(j, n), n) == j && Right(Left(j, n), n) == j
  }

  lemma InvAround(s: State, i: nat, n: nat, j: nat)
    requires Inv(s, n) && i < n && j < n && Enabled(s, i)
    ensures Around(s, i, n, j)
  {
    LeftRight(i, n);
    LeftRight(j, n);
  }

  /** Statements that move i without touching a fork, a mark or a semaphore of a philosopher. */
  predicate Plain(pc: Pc) {
    || pc.Eat? || pc.Think? || pc.Leave?
    || pc in {TakeWait, TakeTest, PutWait, PutTestL, PutTestR, PutExit}
  }

  predicate Granting(pc: Pc) {
    pc in {WakeL, SignalL, WakeR, SignalR}
  }

  lemma PlainEffect(s: State, i: nat, n: nat)
    requires Shape(s, n) && i < n && Enabled(s, i) && Plain(s.pc[i])
    ensures Effect(s, i).f == s.f && Effect(s, i).bloque == s.bloque && Effect(s, i).sem == s.sem
    ensures LeftPc(Succ(s, i)) == LeftPc(s.pc[i]) && RightPc(Succ(s, i)) == RightPc(s.pc[i])
    ensures !Granting(Succ(s, i)) && !Asking(Succ(s, i))
  {
  }

  lemma PlainKept(s: State, s': State, i: nat, n: nat, j: nat)
    requires Shape(s, n) && Shape(s', n) && i < n && j < n && Plain(s.pc[i])
    requires s'.f == s.f && s'.bloque == s.bloque && s'.sem == s.sem && s'.pc == s.pc[i := s'.pc[i]]
    requires LeftPc(s'.pc[i]) == LeftPc(s.pc[i]) && RightPc(s'.pc[i]) == RightPc(s.pc[i])
    requires !Granting(s'.pc[i]) && !Asking(s'.pc[i])
    requires BlockedOk(s, j) && SemOk(s, j) && ForkOk(s, j)
    ensures BlockedOk(s', j) && SemOk(s', j) && ForkOk(s', j)
  {
    hide Left, Right;
  }

  lemma AtKeptOther(s: State, i: nat, n: nat, j: nat)
    requires Around(s, i, n, j)
    requires j != i && !InCS(s.pc[i])
    ensures Shape(Next(s, i), n) && At(Next(s, i), j)
  {
    NextShape(s, i, n);
  }

  lemma AtKeptSelf(s: State, i: nat, n: nat, j: nat)
    requires Around(s, i, n, j)
    requires j == i
    ensures Shape(Next(s, i), n) && At(Next(s, i), j)
  {
    NextShape(s, i, n);
  }

  lemma AtKept(s: State, i: nat, n: nat, j: nat)
    requires Around(s, i, n, j)
    ensures Shape(Next(s, i), n) && At(Next(s, i), j)
  {
    NextShape(s, i, n);
    if j == i {
      AtKeptSelf(s, i, n, j);
    } else if !InCS(s.pc[i]) {
      AtKeptOther(s, i, n, j);
    } else {
      assert !InCS(s.pc[j]);
      hide Effect, Succ, Left, Right;
    }
  }

  lemma BlockedKeptAsking(s: State, i: nat, n: nat, j: nat)
    requires Around(s, i, n, j)
    requires s.pc[i] in {TakeGo, TakeBlock, TakeExit, TakeSleep}
    ensures Shape(Next(s, i), n) && BlockedOk(Next(s, i), j)
  {
    NextShape(s, i, n);
  }

  lemma BlockedKeptGiveL(s: State, i: nat, n: nat, j: nat)
    requires Around(s, i, n, j)
    requires s.pc[i] in {GiveL, WakeL, SignalL}
    ensures Shape(Next(s, i), n) && BlockedOk(Next(s, i), j)
  {
    NextShape(s, i, n);
  }

  lemma BlockedKeptGiveR(s: State, i: nat, n: nat, j: nat)
    requires Around(s, i, n, j)
    requires s.pc[i] in {GiveR, WakeR, SignalR}
    ensures Shape(Next(s, i), n) && BlockedOk(Next(s, i), j)
  {
    NextShape(s, i, n);
  }

  lemma BlockedKeptForks(s: State, i: nat, n: nat, j: nat)
    requires Around(s, i, n, j)
    requires s.pc[i] in {TakeLeft, TakeRight, DropL, DropR}
    ensures Shape(Next(s, i), n) && BlockedOk(Next(s, i), j)
  {
    NextShape(s, i, n);
  }

  lemma SemKeptAsking(s: State, i: nat, n: nat, j: nat)
    requires Around(s, i, n, j)
    requires s.pc[i] in {TakeGo, TakeBlock}
    ensures Shape(Next(s, i), n) && SemOk(Next(s, i), j)
  {
    NextShape(s, i, n);
  }

  lemma SemKeptSleep(s: State, i: nat, n: nat, j: nat)
    requires Around(s, i, n, j)
    requires s.pc[i] in {TakeExit, TakeSleep}
    ensures Shape(Next(s, i), n) && SemOk(Next(s, i), j)
  {
    NextShape(s, i, n);
  }

  lemma SemKeptGiveL(s: State, i: nat, n: nat, j: nat)
    requires Around(s, i, n, j)
    requires s.pc[i] in {GiveL, WakeL, SignalL}
    ensures Shape(Next(s, i), n) && SemOk(Next(s, i), j)
  {
    NextShape(s, i, n);
  }

  lemma SemKeptGiveR(s: State, i: nat, n: nat, j: nat)
    requires Around(s, i, n, j)
    requires s.pc[i] == GiveR
    ensures Shape(Next(s, i), n) && SemOk(Next(s, i), j)
  {
    NextShape(s, i, n);
  }

  lemma SemKeptWakeR(s: State, i: nat, n: nat, j: nat)
    requires Around(s, i, n, j)
    requires s.pc[i] in {WakeR, SignalR}
    ensures Shape(Next(s, i), n) && SemOk(Next(s, i), j)
  {
    NextShape(s, i, n);
  }

  lemma SemKeptTake(s: State, i: nat, n: nat, j: nat)
    requires Around(s, i, n, j)
    requires s.pc[i] in {TakeLeft, TakeRight}
    ensures Shape(Next(s, i), n) && SemOk(Next(s, i), j)
  {
    NextShape(s, i, n);
  }

  lemma SemKeptDrop(s: State, i: nat, n: nat, j: nat)
    requires Around(s, i, n, j)
    requires s.pc[i] in {DropL, DropR}
    ensures Shape(Next(s, i), n) && SemOk(Next(s, i), j)
  {
    NextShape(s, i, n);
  }

  lemma ForkKeptAsking(s: State, i: nat, n: nat, j: nat)
    requires Around(s, i, n, j)
    requires s.pc[i] in {TakeGo, TakeBlock}
    ensures Shape(Next(s, i), n) && ForkOk(Next(s, i), j)
  {
    NextShape(s, i, n);
  }

  lemma ForkKeptSleep(s: State, i: nat, n: nat, j: nat)
    requires Around(s, i, n, j)
    requires s.pc[i] in {TakeExit, TakeSleep}
    ensures Shape(Next(s, i), n) && ForkOk(Next(s, i), j)
  {
    NextShape(s, i, n);
  }

  lemma ForkKeptGiveL(s: State, i: nat, n: nat, j: nat)
    requires Around(s, i, n, j)
    requires s.pc[i] == GiveL
    ensures Shape(Next(s, i), n) && ForkOk(Next(s, i), j)
  {
    NextShape(s, i, n);
  }

  lemma ForkKeptWakeL(s: State, i: nat, n: nat, j: nat)
    requires Around(s, i, n, j)
    requires s.pc[i] in {WakeL, SignalL}
    ensures Shape(Next(s, i), n) && ForkOk(Next(s, i), j)
  {
    NextShape(s, i, n);
  }

  lemma ForkKeptGiveR(s: State, i: nat, n: nat, j: nat)
    requires Around(s, i, n, j)
    requires s.pc[i] == GiveR
    ensures Shape(Next(s, i), n) && ForkOk(Next(s, i), j)
  {
    NextShape(s, i, n);
  }

  lemma ForkKeptWakeR(s: State, i: nat, n: nat, j: nat)
    requires Around(s, i, n, j)
    requires s.pc[i] == WakeR
    ensures Shape(Next(s, i), n) && ForkOk(Next(s, i), j)
  {
    NextShape(s, i, n);
  }

  lemma ForkKeptSignalR(s: State, i: nat, n: nat, j: nat)
    requires Around(s, i, n, j)
    requires s.pc[i] == SignalR
    ensures Shape(Next(s, i), n) && ForkOk(Next(s, i), j)
  {
    NextShape(s, i, n);
  }

  lemma ForkKeptTake(s: State, i: nat, n: nat, j: nat)
    requires Around(s, i, n, j)
    requires s.pc[i] in {TakeLeft, TakeRight}
    ensures Shape(Next(s, i), n) && ForkOk(Next(s, i), j)
  {
    NextShape(s, i, n);
  }

  lemma ForkKeptDrop(s: State, i: nat, n: nat, j: nat)
    requires Around(s, i, n, j)
    requires s.pc[i] in {DropL, DropR}
    ensures Shape(Next(s, i), n) && ForkOk(Next(s, i), j)
  {
    NextShape(s, i, n);
  }

  /** Any step of any philosopher keeps the invariant. */
  lemma StepKeeps(s: State, i: nat, n: nat)
    requires Inv(s, n) && i < n && Enabled(s, i)
    ensures Inv(Next(s, i), n)
  {
    MutexKept(s, i, n);
    forall j | 0 <= j < n
      ensures RoundOk(Next(s, i), j) && ShowOk(Next(s, i), j) && BlockedOk(Next(s, i), j) && SemOk(Next(s, i), j)
      ensures At(Next(s, i), j) && ForkOk(Next(s, i), j)
    {
      InvAround(s, i, n, j);
      RoundKept(s, i, n, j);
      ShowKept(s, i, n, j);
      StepKeepsAt(s, i, n, j);
    }
  }

  lemma StepKeepsAt(s: State, i: nat, n: nat, j: nat)
    requires Around(s, i, n, j)
    ensures Shape(Next(s, i), n)
    ensures BlockedOk(Next(s, i), j) && SemOk(Next(s, i), j) && At(Next(s, i), j) && ForkOk(Next(s, i), j)
  {
    AtKept(s, i, n, j);
    if Plain(s.pc[i]) {
      NextShape(s, i, n);
      PlainEffect(s, i, n);
      PlainKept(s, Next(s, i), i, n, j);
    } else {
      ActKeepsAt(s, i, n, j);
    }
  }

  lemma ActKeepsAt(s: State, i: nat, n: nat, j: nat)
    requires Around(s, i, n, j) && !Plain(s.pc[i])
    ensures Shape(Next(s, i), n)
    ensures BlockedOk(Next(s, i), j) && SemOk(Next(s, i), j) && ForkOk(Next(s, i), j)
  {
    hide Effect, Succ, Left, Right, BlockedOk, SemOk, At, ForkOk;
    match s.pc[i] {
      case TakeGo | TakeBlock =>
        BlockedKeptAsking(s, i, n, j); SemKeptAsking(s, i, n, j); ForkKeptAsking(s, i, n, j);
      case TakeExit | TakeSleep =>
        BlockedKeptAsking(s, i, n, j); SemKeptSleep(s, i, n, j); ForkKeptSleep(s, i, n, j);
      case TakeLeft | TakeRight =>
        BlockedKeptForks(s, i, n, j); SemKeptTake(s, i, n, j); ForkKeptTake(s, i, n, j);
      case DropL | DropR =>
        BlockedKeptForks(s, i, n, j); SemKeptDrop(s, i, n, j); ForkKeptDrop(s, i, n, j);
      case GiveL =>
        BlockedKeptGiveL(s, i, n, j); SemKeptGiveL(s, i, n, j); ForkKeptGiveL(s, i, n, j);
      case WakeL | SignalL =>
        BlockedKeptGiveL(s, i, n, j); SemKeptGiveL(s, i, n, j); ForkKeptWakeL(s, i, n, j);
      case GiveR =>
        BlockedKeptGiveR(s, i, n, j); SemKeptGiveR(s, i, n, j); ForkKeptGiveR(s, i, n, j);
      case WakeR =>
        BlockedKeptGiveR(s, i, n, j); SemKeptWakeR(s, i, n, j); ForkKeptWakeR(s, i, n, j);
      case SignalR =>
        BlockedKeptGiveR(s, i, n, j); SemKeptWakeR(s, i, n, j); ForkKeptSignalR(s, i, n, j);
      case _ => assert false;
    }
  }

  // ----- nobody is stuck

  ghost predicate CanStep(s: State, n: nat, i: nat) {
    Shape(s, n) && i < n && Enabled(s, i)
  }

  /** Someone holds any fork that is in use, and is not done. */
  lemma ForkHolder(s: State, j: nat, n: nat) returns (h: nat)
    requires Inv(s, n) && j < n && s.f[j]
    ensures h < n && (HoldsLeft(s, h) || HoldsRight(s, h)) && s.pc[h] != Done
  {
    assert ForkOk(s, j);
    h := if HoldsLeft(s, j) then j else Left(j, n);
  }

  /**
   Unless all philosophers are done, one of them can take a step: a blocked philosopher waits
   for a fork, whoever holds that fork is not blocked.
   */
  lemma SomeoneMoves(s: State, n: nat, i: nat) returns (m: nat)
    requires Inv(s, n) && i < n && s.pc[i] != Done
    ensures CanStep(s, n, m)
  {
    if s.mutex == 0 {
      m :| 0 <= m < n && InCS(s.pc[m]);
    } else if s.pc[i] != TakeSleep || s.sem[i] > 0 {
      m := i;
    } else {
      assert SemOk(s, i) && BlockedOk(s, i);
      assert s.bloque[i];
      var h := ForkHolder(s, if s.f[i] then i else Right(i, n), n);
      assert SemOk(s, h);
      m := h;
    }
  }

  // ----- every run ends

  /** Statements left on the longest way from a position to the end of its round. */
  function Rank(pc: Pc): nat {
    match pc
    case TakeWait => 40
    case TakeTest => 39
    case TakeLeft => 38
    case TakeRight => 37
    case TakeGo => 36
    case TakeBlock => 36
    case TakeExit => 35
    case TakeSleep => 34
    case Eat(e) => if e <= 6 then 33 - e else 26
    case PutWait => 26
    case PutTestL => 25
    case GiveL => 24
    case WakeL => 23
    case SignalL => 22
    case DropL => 22
    case PutTestR => 21
    case GiveR => 20
    case WakeR => 19
    case SignalR => 18
    case DropR => 18
    case PutExit => 17
    case Think(t) => if t <= 6 then 16 - t else 9
    case Leave(k) => if k <= 2 then 3 - k else 0
    case Done => 0
  }

  function Work(pc: Pc, round: nat): nat {
    if pc.Leave? || pc == Done || round >= ROUNDS then Rank(pc)
    else (ROUNDS - 1 - round) * 40 + Rank(pc)
  }

  /** Statements left, summed over the philosophers. */
  function Remaining(pc: seq<Pc>, round: seq<nat>): nat
    requires |pc| == |round|
  {
    if pc == [] then 0
    else Remaining(pc[..|pc| - 1], round[..|pc| - 1]) + Work(pc[|pc| - 1], round[|pc| - 1])
  }

  lemma {:induction false} RemainingAt(pc: seq<Pc>, round: seq<nat>, pc': seq<Pc>, round': seq<nat>, i: nat)
    requires |pc| == |round| == |pc'| == |round'| && i < |pc|
    requires forall j :: 0 <= j < |pc| && j != i ==> pc[j] == pc'[j] && round[j] == round'[j]
    ensures Remaining(pc', round') - Remaining(pc, round) == Work(pc'[i], round'[i]) - Work(pc[i], round[i])
  {
    hide Work;
    var n := |pc| - 1;
    if i < n {
      RemainingAt(pc[..n], round[..n], pc'[..n], round'[..n], i);
    } else {
      assert pc[..n] == pc'[..n] && round[..n] == round'[..n];
    }
  }

  lemma RankFalls(s: State, i: nat, n: nat)
    requires Shape(s, n) && i < n && Enabled(s, i) && RoundOk(s, i)
    ensures s.pc[i] != Think(6) ==> Rank(Succ(s, i)) < Rank(s.pc[i])
    ensures Succ(s, i).Leave? || Succ(s, i) == Done ==> s.pc[i] == Think(6) || s.pc[i].Leave?
  {
  }

  lemma RoundsCount(s: State, i: nat, n: nat)
    requires Shape(s, n) && i < n && Enabled(s, i)
    ensures Effect(s, i).round == if s.pc[i].Think? && s.pc[i].t >= 6 then s.round[i := s.round[i] + 1] else s.round
  {
  }

  lemma WorkFalls(s: State, i: nat, n: nat)
    requires Shape(s, n) && i < n && Enabled(s, i) && RoundOk(s, i)
    ensures Shape(Next(s, i), n)
    ensures Work(Next(s, i).pc[i], Next(s, i).round[i]) < Work(s.pc[i], s.round[i])
    ensures forall j :: 0 <= j < n && j != i ==> Next(s, i).round[j] == s.round[j]
  {
    NextShape(s, i, n);
    RankFalls(s, i, n);
    RoundsCount(s, i, n);
    assert Succ(s, i).Leave? ==> s.pc[i] == Think(6) || s.pc[i].Leave?;
    hide Effect, Left, Right;
    if s.pc[i] != Think(6) {
      hide Succ, Rank;
    }
  }

  lemma RemainingFalls(s: State, i: nat, n: nat)
    requires Inv(s, n) && i < n && Enabled(s, i)
    ensures Shape(Next(s, i), n)
    ensures Remaining(Next(s, i).pc, Next(s, i).round) < Remaining(s.pc, s.round)
  {
    WorkFalls(s, i, n);
    RemainingAt(s.pc, s.round, Next(s, i).pc, Next(s, i).round, i);
  }

  // ----- runs

  ghost predicate Stuck(s: State, n: nat) {
    forall i: nat :: i < n ==> !CanStep(s, n, i)
  }

  ghost predicate Step(s: State, s': State, n: nat) {
    exists i: nat :: CanStep(s, n, i) && s' == Next(s, i)
  }

  /** A run of n philosophers, interleaved in any way. */
  ghost predicate Run(run: seq<State>, n: nat) {
    && |run| > 0
    && Initial(run[0], n)
    && forall k :: 0 <= k < |run| - 1 ==> Step(run[k], run[k + 1], n)
  }

  lemma {:induction false} RunSafe(run: seq<State>, n: nat, k: nat)
    requires Run(run, n) && k < |run|
    ensures Inv(run[k], n)
    ensures Remaining(run[k].pc, run[k].round) + k <= 240 * n
  {
    if k == 0 {
      InitialInv(run[0], n);
      InitialWork(run[0].pc, run[0].round);
    } else {
      RunSafe(run, n, k - 1);
      assert Step(run[k - 1], run[k - 1 + 1], n);
      var i: nat :| CanStep(run[k - 1], n, i) && run[k] == Next(run[k - 1], i);
      StepKeeps(run[k - 1], i, n);
      RemainingFalls(run[k - 1], i, n);
    }
  }

  lemma {:induction false} InitialWork(pc: seq<Pc>, round: seq<nat>)
    requires |pc| == |round|
    requires forall i :: 0 <= i < |pc| ==> pc[i] == TakeWait && round[i] == 0
    ensures Remaining(pc, round) == 240 * |pc|
  {
    if pc != [] {
      InitialWork(pc[..|pc| - 1], round[..|pc| - 1]);
    }
  }

  /** No run has more than 240 steps a philosopher. */
  lemma RunsEnd(run: seq<State>, n: nat)
    requires Run(run, n)
    ensures |run| <= 240 * n + 1
  {
    RunSafe(run, n, |run| - 1);
  }

  // ----- meals

  /** Philosopher i begins to show c. */
  predicate Turns(s: State, s': State, i: nat, c: char) {
    i < |s.etat| && i < |s'.etat| && s.etat[i] != c && s'.etat[i] == c
  }

  predicate TurnsAt(run: seq<State>, i: nat, c: char, k: nat)
    requires k < |run| - 1
  {
    Turns(run[k], run[k + 1], i, c)
  }

  /** The steps of the run at which philosopher i begins to show c. */
  function Begins(run: seq<State>, i: nat, c: char): set<nat> {
    set k: nat | k < |run| - 1 && TurnsAt(run, i, c, k)
  }

  /** Meals and thoughts begun, by where the philosopher stands in its round. */
  function Begun(pc: Pc, round: nat, c: char): nat {
    if c == 'm' && ((pc.Eat? && pc.e >= 2) || PastMeal(pc)) then round + 1
    else if c == 'p' && pc.Think? && pc.t >= 2 then round + 1
    else round
  }

  predicate PastMeal(pc: Pc) {
    || pc.Think?
    || pc in {PutWait, PutTestL, GiveL, WakeL, SignalL, DropL, PutTestR, GiveR, WakeR, SignalR, DropR, PutExit}
  }

  lemma OwnBegun(s: State, i: nat, n: nat, c: char)
    requires Shape(s, n) && i < n && Enabled(s, i) && RoundOk(s, i) && ShowOk(s, i) && c in {'m', 'p'}
    ensures Shape(Next(s, i), n)
    ensures Begun(Next(s, i).pc[i], Next(s, i).round[i], c) - Begun(s.pc[i], s.round[i], c)
            == if Turns(s, Next(s, i), i, c) then 1 else 0
  {
    NextShape(s, i, n);
    hide Left, Right;
  }

  lemma OthersShow(s: State, i: nat, n: nat, j: nat)
    requires Shape(s, n) && i < n && j < n && j != i && Enabled(s, i)
    ensures Shape(Next(s, i), n)
    ensures Next(s, i).etat[j] == s.etat[j] && Next(s, i).pc[j] == s.pc[j] && Next(s, i).round[j] == s.round[j]
  {
    NextShape(s, i, n);
    hide Left, Right, Succ;
  }

  lemma Shorter(run: seq<State>, n: nat)
    requires Run(run, n) && |run| > 1
    ensures Run(run[..|run| - 1], n)
  {
    var r := run[..|run| - 1];
    forall k | 0 <= k < |r| - 1
      ensures Step(r[k], r[k + 1], n)
    {
      assert Step(run[k], run[k + 1], n);
    }
  }

  /** One more state adds its own step to the beginnings, or nothing. */
  lemma OneMore(run: seq<State>, i: nat, c: char)
    requires |run| > 1
    ensures |Begins(run, i, c)| == |Begins(run[..|run| - 1], i, c)| + (if Turns(run[|run| - 2], run[|run| - 1], i, c) then 1 else 0)
  {
    hide Turns;
    var l := |run| - 2;
    var r := run[..l + 1];
    forall k | 0 <= k < l
      ensures TurnsAt(run, i, c, k) <==> TurnsAt(r, i, c, k)
    {
    }
    assert TurnsAt(run, i, c, l) <==> Turns(run[l], run[l + 1], i, c);
    hide TurnsAt;
    if TurnsAt(run, i, c, l) {
      assert Begins(run, i, c) == Begins(r, i, c) + {l};
    } else {
      assert Begins(run, i, c) == Begins(r, i, c);
    }
  }

  lemma NoneBegun(run: seq<State>, n: nat, i: nat, c: char)
    requires Run(run, n) && |run| == 1 && i < n
    ensures Begins(run, i, c) == {} && Begun(run[0].pc[i], run[0].round[i], c) == 0
  {
  }

  /** What is shown tells the rounds. */
  lemma {:induction false} BeginsAre(run: seq<State>, n: nat, i: nat, c: char)
    requires Run(run, n) && i < n && c in {'m', 'p'}
    ensures var s := run[|run| - 1]; Shape(s, n) && |Begins(run, i, c)| == Begun(s.pc[i], s.round[i], c)
  {
    hide Inv, Step, Enabled, Begins, Turns, Begun;
    if |run| == 1 {
      NoneBegun(run, n, i, c);
    } else {
      var l := |run| - 2;
      Shorter(run, n);
      BeginsAre(run[..l + 1], n, i, c);
      OneMore(run, i, c);
      LastBegun(run, n, i, c);
    }
  }

  lemma LastBegun(run: seq<State>, n: nat, i: nat, c: char)
    requires Run(run, n) && i < n && c in {'m', 'p'} && |run| > 1
    ensures var s, s' := run[|run| - 2], run[|run| - 1];
            && Shape(s, n) && Shape(s', n)
            && Begun(s'.pc[i], s'.round[i], c) - Begun(s.pc[i], s.round[i], c) == if Turns(s, s', i, c) then 1 else 0
  {
    hide Begun, Next, Enabled, RoundOk, BlockedOk, SemOk, At, ForkOk, MutexOk;
    var l := |run| - 2;
    RunSafe(run, n, l);
    RunSafe(run, n, l + 1);
    assert Step(run[l], run[l + 1], n);
    var j: nat :| CanStep(run[l], n, j) && run[l + 1] == Next(run[l], j);
    assert RoundOk(run[l], i) && ShowOk(run[l], i);
    if j == i {
      OwnBegun(run[l], i, n, c);
    } else {
      OthersShow(run[l], j, n, i);
    }
  }

  /** Philosopher i eats: both its forks are in use, by it and not by its neighbours, who do not eat. */
  ghost predicate EatsAlone(s: State, i: nat)
    requires Shape(s, |s.pc|) && i < |s.pc|
  {
    var l, r := Left(i, |s.pc|), Right(i, |s.pc|);
    && s.f[i] && s.f[r] && s.etat[l] != 'm' && s.etat[r] != 'm'
    && HoldsLeft(s, i) && HoldsRight(s, i) && !HoldsRight(s, l) && !HoldsLeft(s, r)
  }

  /** Whoever shows 'm' has both forks to itself. */
  ghost predicate MealsOk(s: State, n: nat) {
    Shape(s, n) && forall i :: 0 <= i < n && s.etat[i] == 'm' ==> EatsAlone(s, i)
  }

  lemma AllMealsOk(run: seq<State>, n: nat, k: nat)
    requires Run(run, n) && k < |run|
    ensures MealsOk(run[k], n)
  {
    RunSafe(run, n, k);
    var s := run[k];
    forall i | 0 <= i < n && s.etat[i] == 'm'
      ensures EatsAlone(s, i)
    {
      var l, r := Left(i, n), Right(i, n);
      LeftRight(i, n);
      assert ShowOk(s, i) && ShowOk(s, l) && ShowOk(s, r) && ForkOk(s, i) && ForkOk(s, r);
    }
  }

  /** At any time as many thoughts as meals have begun, or one less. */
  lemma MealThenThought(run: seq<State>, n: nat, i: nat)
    requires Run(run, n) && i < n
    ensures |Begins(run, i, 'p')| <= |Begins(run, i, 'm')| <= |Begins(run, i, 'p')| + 1
  {
    BeginsAre(run, n, i, 'm');
    BeginsAre(run, n, i, 'p');
  }

  /**
   A run that cannot go on has served everybody: each philosopher ate six times, with both forks, and
   thought six times, and all forks are back.
   */
  lemma MaximalRunServesAll(run: seq<State>, n: nat)
    requires Run(run, n)
    requires Stuck(run[|run| - 1], n)
    ensures forall i :: 0 <= i < n ==> |Begins(run, i, 'm')| == 6 && |Begins(run, i, 'p')| == 6
    ensures forall k :: 0 <= k < |run| ==> MealsOk(run[k], n)
    ensures var s := run[|run| - 1];
            Shape(s, n) && forall i :: 0 <= i < n ==>
                          s.pc[i] == Done && s.round[i] == ROUNDS && s.etat[i] == '-' && !s.f[i] && !s.bloque[i] && s.sem[i] == 0
  {
    forall k | 0 <= k < |run|
      ensures MealsOk(run[k], n)
    {
      AllMealsOk(run, n, k);
    }
    AllDone(run, n);
    forall i | 0 <= i < n
      ensures |Begins(run, i, 'm')| == 6 && |Begins(run, i, 'p')| == 6
    {
      BeginsAre(run, n, i, 'm');
      BeginsAre(run, n, i, 'p');
    }
  }

  lemma AllDone(run: seq<State>, n: nat)
    requires Run(run, n) && Stuck(run[|run| - 1], n)
    ensures var s := run[|run| - 1];
            Shape(s, n) && forall i :: 0 <= i < n ==>
                                         s.pc[i] == Done && s.round[i] == ROUNDS && s.etat[i] == '-' && !s.f[i] && !s.bloque[i] && s.sem[i] == 0
  {
    var s := run[|run| - 1];
    RunSafe(run, n, |run| - 1);
    forall i | 0 <= i < n
      ensures s.pc[i] == Done && s.round[i] == ROUNDS && s.etat[i] == '-' && !s.bloque[i] && s.sem[i] == 0
    {
      if s.pc[i] != Done {
        var m := SomeoneMoves(s, n, i);
      }
      assert RoundOk(s, i) && ShowOk(s, i) && BlockedOk(s, i) && SemOk(s, i);
    }
    forall i | 0 <= i < n
      ensures !s.f[i]
    {
      assert ForkOk(s, i);
    }
  }

  // ----- what the invariant says of a reachable state

  /** Two neighbours never eat at the same time. */
  lemma NeighboursApart(run: seq<State>, n: nat, k: nat, i: nat)
    requires Run(run, n) && k < |run| && i < n
    ensures Shape(run[k], n)
    ensures !(run[k].etat[i] == 'm' && run[k].etat[Right(i, n)] == 'm')
  {
    RunSafe(run, n, k);
    var s, r := run[k], Right(i, n);
    LeftRight(i, n);
    assert ShowOk(s, i) && ShowOk(s, r) && ForkOk(s, r);
  }

  /** No `xsignal` takes a count to 2. */
  lemma CountsBelowTwo(run: seq<State>, n: nat, k: nat, i: nat)
    requires Run(run, n) && k < |run| && i < n
    ensures Shape(run[k], n) && run[k].mutex <= 1 && run[k].sem[i] <= 1
  {
    RunSafe(run, n, k);
    assert SemOk(run[k], i);
  }

  /** A fork flag is set exactly when one of the two philosophers beside it owns the fork. */
  lemma FlagsAreOwners(run: seq<State>, n: nat, k: nat, j: nat)
    requires Run(run, n) && k < |run| && j < n
    ensures Shape(run[k], n)
    ensures var s, l := run[k], Left(j, n);
            s.f[j] <==> (HoldsLeft(s, j) != HoldsRight(s, l))
    ensures !(HoldsLeft(run[k], j) && HoldsRight(run[k], Left(j, n)))
  {
    RunSafe(run, n, k);
    assert ForkOk(run[k], j);
  }

  /** Granting passes the shared fork straight to the neighbour: its flag never goes down. */
  lemma GrantPassesFork(s: State, i: nat, n: nat)
    requires Inv(s, n) && i < n && Enabled(s, i)
    ensures Shape(Next(s, i), n)
    ensures s.pc[i] == GiveL ==>
              var l := Left(i, n);
              HoldsLeft(s, i) && !HoldsRight(s, l) && s.f[i]
              && !HoldsLeft(Next(s, i), i) && HoldsLeft(Next(s, i), l) && HoldsRight(Next(s, i), l) && Next(s, i).f[i]
    ensures s.pc[i] == GiveR ==>
              var r := Right(i, n);
              HoldsRight(s, i) && !HoldsLeft(s, r) && s.f[r]
              && !HoldsRight(Next(s, i), i) && HoldsLeft(Next(s, i), r) && HoldsRight(Next(s, i), r) && Next(s, i).f[r]
  {
    var l, r := Left(i, n), Right(i, n);
    StepKeeps(s, i, n);
    LeftRight(i, n);
    assert At(s, i) && BlockedOk(s, l) && BlockedOk(s, r) && ForkOk(s, i) && ForkOk(s, r);
  }
}
