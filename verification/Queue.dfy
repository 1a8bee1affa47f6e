/** The semaphore-guarded circular queue as a state machine: every step is one atomic action of one thread
    (a semaphore operation, a fetch-and-add, a slot access, a load or a compare-exchange), and threads
    interleave freely. */
module Queue {
  import opened Common

  type Item = int
  type Tid = nat

  /** Where a thread stands inside push, try_push or pop. `claim` is the number of the claim that its
      fetch-and-add made, counted from 0 over the whole run; `slot` is the array index it computed. */
  datatype Pc =
    | Idle
    | PushAcquired(item: Item)
    | PushClaimed(item: Item, claim: nat, slot: nat)
    | PushWritten
    | PopAcquired
    | PopClaimed(claim: nat, slot: nat)
    | PopRead(got: Reading)
    | PopReleased(got: Reading)
    | TailLoaded(got: Reading, expected: nat)
    | TailDone(got: Reading)
    | HeadLoaded(got: Reading, expected: nat)

  /** What a pop read from its slot, and the number of the slot read, counted from 0 over the whole run. */
  datatype Reading = Reading(number: nat, item: Option<Item>)

  /** Capacity `n`, the modulus `m` of the unsigned counters, and the threads that may push and pop. */
  datatype Config = Config(n: nat, m: nat, producers: set<Tid>, consumers: set<Tid>)

  /** The remainder of a natural number, by repeated subtraction. */
  function Mod(a: nat, n: nat): (r: nat)
    requires n >= 1
    ensures r < n
  {
    if a < n then a else Mod(a - n, n)
  }

  lemma {:induction false} ModIsRemainder(a: nat, n: nat)
    requires n >= 1
    ensures Mod(a, n) == a % n
  {
    if a >= n {
      ModIsRemainder(a - n, n);
      assert (a - n) % n == a % n by {
        var q, r := (a - n) / n, (a - n) % n;
        assert a == (q + 1) * n + r;
        RemainderIsUnique(a, q + 1, r, n);
      }
    } else {
      RemainderIsUnique(a, 0, a, n);
    }
  }

  lemma RemainderIsUnique(a: nat, q: nat, r: nat, n: nat)
    requires a == q * n + r && r < n
    ensures a % n == r
  {
    var d := a / n - q;
    assert d * n == r - a % n;
    MultipleOutOfRange(d, n);
  }

  predicate Proper(c: Config) {
    c.n >= 1 && c.m >= 1
  }

  /** The counters wrap at a multiple of the capacity. */
  predicate Divides(c: Config)
    requires Proper(c)
  {
    Mod(c.m, c.n) == 0
  }

  /** The first five fields are the object's and `pcs` is where the threads stand; the others record the
      history of the run. */
  datatype State = State(
    head: nat,
    tail: nat,
    data: map<nat, Item>,
    empty: nat,            // permits of m_sem_empty: items that can be popped
    full: nat,             // permits of m_sem_full: slots that can be filled
    pcs: map<Tid, Pc>,
    claims: seq<Item>,     // the item of every push claim, in claim order
    claimants: seq<Tid>,   // the thread of every push claim
    written: nat,          // number of slot writes
    takes: nat,            // number of pop claims
    owner: map<nat, nat>,  // the push claim whose item a slot holds
    read: set<nat>,        // the pop claims that have read their slot
    popped: seq<Option<Item>>,   // the contents of the slots read, in the order of the reads
    returned: seq<Reading>)      // what the calls of pop returned, in the order of the returns

  function Init(c: Config): State {
    State(0, 0, map[], 0, c.n, map[], [], [], 0, 0, map[], {}, [], [])
  }

  function At(s: State, t: Tid): Pc {
    if t in s.pcs then s.pcs[t] else Idle
  }

  datatype Action =
    | BeginPush(item: Item)  // acquire in push, or a successful try_acquire in try_push
    | RefusePush             // try_acquire failed: try_push returns false
    | BeginPop
    | Continue

  datatype Move = Move(tid: Tid, action: Action)

  function Get<K, V>(m: map<K, V>, k: K): Option<V> {
    if k in m then Some(m[k]) else None
  }

  /** One atomic step; `None` when the thread cannot make it. */
  function Step(c: Config, s: State, mv: Move): Option<State>
    requires Proper(c)
  {
    var t, pc := mv.tid, At(s, mv.tid);
    match mv.action
    case BeginPush(item) =>
      if pc.Idle? && t in c.producers && s.full > 0
      then Some(s.(full := s.full - 1, pcs := s.pcs[t := PushAcquired(item)]))
      else None
    case RefusePush =>
      if pc.Idle? && t in c.producers then Some(s) else None
    case BeginPop =>
      if pc.Idle? && t in c.consumers && s.empty > 0
      then Some(s.(empty := s.empty - 1, pcs := s.pcs[t := PopAcquired]))
      else None
    case Continue =>
      if pc.Idle? then None else Some(Advance(c, s, t))
  }

  /** Fetch-and-add on an unsigned counter of modulus `m`. */
  function Next(counter: nat, m: nat): nat
    requires m >= 1
  {
    Mod(counter + 1, m)
  }

  function Advance(c: Config, s: State, t: Tid): State
    requires Proper(c)
  {
    match At(s, t)
    case Idle => s
    case PushAcquired(item) =>
      s.(head := Next(s.head, c.m), claims := s.claims + [item], claimants := s.claimants + [t],
         pcs := s.pcs[t := PushClaimed(item, |s.claims|, Mod(s.head, c.n))])
    case PushClaimed(item, claim, slot) =>
      s.(data := s.data[slot := item], owner := s.owner[slot := claim], written := s.written + 1,
         pcs := s.pcs[t := PushWritten])
    case PushWritten =>
      s.(empty := s.empty + 1, pcs := s.pcs[t := Idle])
    case PopAcquired =>
      s.(tail := Next(s.tail, c.m), takes := s.takes + 1, pcs := s.pcs[t := PopClaimed(s.takes, Mod(s.tail, c.n))])
    case PopClaimed(claim, slot) =>
      var got := Get(s.data, slot);
      s.(read := s.read + {claim}, popped := s.popped + [got], pcs := s.pcs[t := PopRead(Reading(|s.popped|, got))])
    case PopRead(got) =>
      s.(full := s.full + 1, pcs := s.pcs[t := PopReleased(got)])
    case PopReleased(got) =>
      s.(pcs := s.pcs[t := TailLoaded(got, s.tail)])
    case TailLoaded(got, expected) =>
      s.(tail := if s.tail == expected then Mod(expected, c.n) else s.tail, pcs := s.pcs[t := TailDone(got)])
    case TailDone(got) =>
      s.(pcs := s.pcs[t := HeadLoaded(got, s.head)])
    case HeadLoaded(got, expected) =>
      s.(head := if s.head == expected then Mod(expected, c.n) else s.head, returned := s.returned + [got],
         pcs := s.pcs[t := Idle])
  }

  /** The state after a run of moves from `s`; `None` if some move was not possible. */
  function Run(c: Config, s: State, moves: seq<Move>): Option<State>
    requires Proper(c)
    decreases |moves|
  {
    if moves == [] then Some(s) else
    match Step(c, s, moves[0])
    case None => None
    case Some(s') => Run(c, s', moves[1..])
  }

  // ----- counting threads -----

  function Phase(pc: Pc): nat {
    match pc
    case PushAcquired(_) => 1
    case PushClaimed(_, _, _) => 2
    case PushWritten => 3
    case PopAcquired => 4
    case PopClaimed(_, _) => 5
    case PopRead(_) => 6
    case _ => 0
  }

  function Threads(pcs: map<Tid, Pc>, phase: nat): set<Tid> {
    set t | t in pcs && Phase(pcs[t]) == phase
  }

  function Number(s: State, phase: nat): nat {
    |Threads(s.pcs, phase)|
  }

  lemma Without(a: set<Tid>, t: Tid)
    ensures |a - {t}| == if t in a then |a| - 1 else |a|
  {
  }

  lemma ThreadMoves(pcs: map<Tid, Pc>, t: Tid, pc: Pc, phase: nat)
    ensures |Threads(pcs[t := pc], phase) - {t}| == |Threads(pcs, phase) - {t}|
    ensures t in Threads(pcs[t := pc], phase) <==> Phase(pc) == phase
  {
    assert Threads(pcs[t := pc], phase) - {t} == Threads(pcs, phase) - {t};
  }

  /** The number of threads in each phase between an acquire and its release. */
  datatype Tally = Tally(pushAcquired: nat, pushClaimed: nat, pushWritten: nat,
                         popAcquired: nat, popClaimed: nat, popRead: nat)
  {
    function Pushing(): nat { pushAcquired + pushClaimed + pushWritten }
    function Popping(): nat { popAcquired + popClaimed + popRead }
  }

  function Count(s: State): Tally {
    Tally(Number(s, 1), Number(s, 2), Number(s, 3), Number(s, 4), Number(s, 5), Number(s, 6))
  }

  /** How permits, claims, writes and reads balance against the threads under way. */
  predicate BalancedWith(c: Config, s: State, k: Tally) {
    && s.full + k.pushAcquired + |s.claims| + k.popClaimed + k.popRead == c.n + s.takes
    && s.empty + k.pushClaimed + k.pushWritten + s.takes + k.popAcquired == |s.claims|
    && s.written + k.pushClaimed == |s.claims|
    && |s.popped| + k.popClaimed == s.takes
  }

  predicate Balanced(c: Config, s: State) {
    BalancedWith(c, s, Count(s))
  }

  function Change(was: nat, now: nat, phase: nat): int {
    (if now == phase then 1 else 0) - (if was == phase then 1 else 0)
  }

  predicate Shifted(k: Tally, k': Tally, was: nat, now: nat) {
    && k'.pushAcquired == k.pushAcquired + Change(was, now, 1)
    && k'.pushClaimed == k.pushClaimed + Change(was, now, 2)
    && k'.pushWritten == k.pushWritten + Change(was, now, 3)
    && k'.popAcquired == k.popAcquired + Change(was, now, 4)
    && k'.popClaimed == k.popClaimed + Change(was, now, 5)
    && k'.popRead == k.popRead + Change(was, now, 6)
  }

  /** The number of threads in `phase` changes by one when `t` enters or leaves it. */
  lemma CountThreads(s: State, s': State, t: Tid, phase: nat)
    requires t in s'.pcs && s'.pcs == s.pcs[t := s'.pcs[t]] && phase > 0
    ensures Number(s', phase) == Number(s, phase) + Change(Phase(At(s, t)), Phase(At(s', t)), phase)
  {
    ThreadMoves(s.pcs, t, s'.pcs[t], phase);
    Without(Threads(s.pcs, phase), t);
    Without(Threads(s'.pcs, phase), t);
  }

  lemma CountAllThreads(s: State, s': State, t: Tid)
    requires t in s'.pcs && s'.pcs == s.pcs[t := s'.pcs[t]]
    ensures Shifted(Count(s), Count(s'), Phase(At(s, t)), Phase(At(s', t)))
  {
    CountThreads(s, s', t, 1);
    CountThreads(s, s', t, 2);
    CountThreads(s, s', t, 3);
    CountThreads(s, s', t, 4);
    CountThreads(s, s', t, 5);
    CountThreads(s, s', t, 6);
  }

  lemma PushBalances(c: Config, s: State, t: Tid, k: Tally, k': Tally)
    requires Proper(c) && BalancedWith(c, s, k) && 1 <= Phase(At(s, t)) <= 3
    requires Shifted(k, k', Phase(At(s, t)), Phase(At(Advance(c, s, t), t)))
    ensures BalancedWith(c, Advance(c, s, t), k')
  {
  }

  lemma PopBalances(c: Config, s: State, t: Tid, k: Tally, k': Tally)
    requires Proper(c) && BalancedWith(c, s, k) && 4 <= Phase(At(s, t)) <= 6
    requires Shifted(k, k', Phase(At(s, t)), Phase(At(Advance(c, s, t), t)))
    ensures BalancedWith(c, Advance(c, s, t), k')
  {
  }

  lemma StepBalances(c: Config, s: State, mv: Move, k: Tally, k': Tally)
    requires Proper(c) && BalancedWith(c, s, k) && Step(c, s, mv).Some?
    requires mv.action.RefusePush? ==> k' == k
    requires !mv.action.RefusePush? ==>
               Shifted(k, k', Phase(At(s, mv.tid)), Phase(At(Step(c, s, mv).value, mv.tid)))
    ensures BalancedWith(c, Step(c, s, mv).value, k')
  {
    var phase := Phase(At(s, mv.tid));
    if 1 <= phase <= 3 {
      PushBalances(c, s, mv.tid, k, k');
    } else if 4 <= phase <= 6 {
      PopBalances(c, s, mv.tid, k, k');
    }
  }

  lemma StepKeepsBalance(c: Config, s: State, mv: Move)
    requires Proper(c) && Balanced(c, s) && Step(c, s, mv).Some?
    ensures Balanced(c, Step(c, s, mv).value)
  {
    var s' := Step(c, s, mv).value;
    if !mv.action.RefusePush? {
      CountAllThreads(s, s', mv.tid);
    }
    StepBalances(c, s, mv, Count(s), Count(s'));
  }

  lemma InitIsBalanced(c: Config)
    ensures Balanced(c, Init(c))
  {
  }

  lemma {:induction false} RunKeepsBalance(c: Config, s: State, moves: seq<Move>)
    requires Proper(c) && Balanced(c, s) && Run(c, s, moves).Some?
    ensures Balanced(c, Run(c, s, moves).value)
    decreases |moves|
  {
    if moves != [] {
      StepKeepsBalance(c, s, moves[0]);
      RunKeepsBalance(c, Step(c, s, moves[0]).value, moves[1..]);
    }
  }

  /** In every reachable state, for any number of threads, the permits of both semaphores and the threads
      between an acquire and its release add up to the capacity; pop claims never overtake push claims and
      push claims are never more than the capacity ahead. */
  lemma PermitsAreConserved(c: Config, moves: seq<Move>)
    requires Proper(c) && Run(c, Init(c), moves).Some?
    ensures var s := Run(c, Init(c), moves).value;
            && s.full + s.empty + Count(s).Pushing() + Count(s).Popping() == c.n
            && s.takes <= |s.claims| <= s.takes + c.n
  {
    InitIsBalanced(c);
    RunKeepsBalance(c, Init(c), moves);
  }

  /** Neither semaphore is released past its maximum. */
  lemma ReleasesStayInBounds(c: Config, moves: seq<Move>, mv: Move)
    requires Proper(c) && Run(c, Init(c), moves).Some? && Step(c, Run(c, Init(c), moves).value, mv).Some?
    ensures var s' := Step(c, Run(c, Init(c), moves).value, mv).value; s'.full <= c.n && s'.empty <= c.n
  {
    InitIsBalanced(c);
    RunKeepsBalance(c, Init(c), moves);
    StepKeepsBalance(c, Run(c, Init(c), moves).value, mv);
  }

  // ----- counters -----

  /** Counting on from congruent numbers. */
  lemma {:induction false} ModSucc(a: nat, n: nat)
    requires n >= 1
    ensures Mod(a + 1, n) == if Mod(a, n) + 1 == n then 0 else Mod(a, n) + 1
  {
    if a >= n {
      ModSucc(a - n, n);
    }
  }

  lemma {:induction false} ModDrop(a: nat, m: nat, n: nat)
    requires n >= 1 && m <= a && Mod(m, n) == 0
    ensures Mod(a - m, n) == Mod(a, n)
    decreases m
  {
    if m >= n {
      ModDrop(a - n, m - n, n);
    }
  }

  /** Wrapping at a multiple of `n` is invisible modulo `n`. */
  lemma {:induction false} ModWrap(a: nat, m: nat, n: nat)
    requires n >= 1 && m >= 1 && Mod(m, n) == 0
    ensures Mod(Mod(a, m), n) == Mod(a, n)
    decreases a
  {
    if a >= m {
      ModDrop(a, m, n);
      ModWrap(a - m, m, n);
    }
  }

  /** Different numbers with the same remainder are at least `n` apart. */
  lemma {:induction false} SameRemainderFarApart(a: nat, b: nat, n: nat)
    requires n >= 1 && a < b && Mod(a, n) == Mod(b, n)
    ensures a + n <= b
    decreases b
  {
    if a >= n {
      SameRemainderFarApart(a - n, b - n, n);
    } else if b >= n && a < b - n {
      SameRemainderFarApart(a, b - n, n);
    }
  }

  /** The counters are congruent to the numbers of claims made. */
  predicate Tracks(c: Config, s: State)
    requires Proper(c)
  {
    Mod(s.head, c.n) == Mod(|s.claims|, c.n) && Mod(s.tail, c.n) == Mod(s.takes, c.n)
  }

  lemma ModTwice(a: nat, n: nat)
    requires n >= 1
    ensures Mod(Mod(a, n), n) == Mod(a, n)
  {
  }

  /** A fetch-and-add keeps a counter congruent to the number of claims, unless it wraps harmfully. */
  lemma NextTracks(counter: nat, claims: nat, m: nat, n: nat)
    requires n >= 1 && m >= 1 && Mod(counter, n) == Mod(claims, n)
    requires Mod(m, n) == 0 || counter + 1 < m
    ensures Mod(Next(counter, m), n) == Mod(claims + 1, n)
  {
    ModSucc(counter, n);
    ModSucc(claims, n);
    if Mod(m, n) == 0 {
      ModWrap(counter + 1, m, n);
    }
  }

  /** The step of thread `t` does not wrap a counter, or wraps it at a multiple of the capacity. */
  predicate WrapsWell(c: Config, s: State, t: Tid)
    requires Proper(c)
  {
    || Divides(c)
    || ((At(s, t).PushAcquired? ==> s.head + 1 < c.m) && (At(s, t).PopAcquired? ==> s.tail + 1 < c.m))
  }

  lemma StepKeepsTracking(c: Config, s: State, mv: Move)
    requires Proper(c) && Tracks(c, s) && WrapsWell(c, s, mv.tid) && Step(c, s, mv).Some?
    ensures Tracks(c, Step(c, s, mv).value)
  {
    match At(s, mv.tid)
    case PushAcquired(_) => NextTracks(s.head, |s.claims|, c.m, c.n);
    case PopAcquired => NextTracks(s.tail, s.takes, c.m, c.n);
    case TailLoaded(_, _) => ModTwice(s.tail, c.n);
    case HeadLoaded(_, _) => ModTwice(s.head, c.n);
    case _ =>
  }

  lemma {:induction false} RunKeepsTracking(c: Config, s: State, moves: seq<Move>)
    requires Proper(c) && Divides(c) && Tracks(c, s) && Run(c, s, moves).Some?
    ensures Tracks(c, Run(c, s, moves).value)
    decreases |moves|
  {
    if moves != [] {
      StepKeepsTracking(c, s, moves[0]);
      RunKeepsTracking(c, Step(c, s, moves[0]).value, moves[1..]);
    }
  }

  /** For any number of threads and any interleaving, claim number k is handed slot k modulo the capacity,
      whatever the compare-exchange blocks did before, if the capacity divides the modulus of the counters. */
  lemma SlotsAreClaimNumbers(c: Config, moves: seq<Move>, t: Tid)
    requires Proper(c) && Divides(c) && Run(c, Init(c), moves).Some?
    requires Step(c, Run(c, Init(c), moves).value, Move(t, Continue)).Some?
    ensures var s := Run(c, Init(c), moves).value;
            var pc := At(Step(c, s, Move(t, Continue)).value, t);
            && (At(s, t).PushAcquired? ==> pc == PushClaimed(At(s, t).item, |s.claims|, Mod(|s.claims|, c.n)))
            && (At(s, t).PopAcquired? ==> pc == PopClaimed(s.takes, Mod(s.takes, c.n)))
  {
    RunKeepsTracking(c, Init(c), moves);
  }
}
