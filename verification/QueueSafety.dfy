/** Slot accesses of the circular queue: when no slot can be read before it is written or overwritten
    before it is read, and what then comes out. */
module QueueSafety {
  import opened Common
  import opened Queue

  // ----- what is to be shown -----

  /** Every slot access that a thread is about to make is right: a pop reads the item of the push with the
      same claim number, and a push overwrites only items that have been read. */
  ghost predicate Safe(s: State) {
    && (forall t :: t in s.pcs && s.pcs[t].PopClaimed? ==> Get(s.owner, s.pcs[t].slot) == Some(s.pcs[t].claim))
    && (forall t :: t in s.pcs && s.pcs[t].PushClaimed? && s.pcs[t].slot in s.owner ==>
          s.owner[s.pcs[t].slot] in s.read)
  }

  /** What has been popped is what was pushed first, in order. */
  ghost predicate Fifo(s: State) {
    |s.popped| <= |s.claims| && forall i :: 0 <= i < |s.popped| ==> s.popped[i] == Some(s.claims[i])
  }

  predicate Pushing(pc: Pc) {
    1 <= Phase(pc) <= 3
  }

  predicate Popping(pc: Pc) {
    4 <= Phase(pc) <= 6
  }

  /** At most one thread is inside a push and at most one inside a pop, up to its release. */
  ghost predicate Exclusive(s: State) {
    && (forall t, u :: t in s.pcs && u in s.pcs && Pushing(s.pcs[t]) && Pushing(s.pcs[u]) ==> t == u)
    && (forall t, u :: t in s.pcs && u in s.pcs && Popping(s.pcs[t]) && Popping(s.pcs[u]) ==> t == u)
  }

  // ----- the invariant of exclusive runs -----

  predicate PushClaimOk(c: Config, s: State, pc: Pc)
    requires Proper(c)
  {
    pc.PushClaimed? ==> pc.claim + 1 == |s.claims| && pc.slot == Mod(pc.claim, c.n) && pc.item == s.claims[pc.claim]
  }

  predicate PopClaimOk(c: Config, s: State, pc: Pc)
    requires Proper(c)
  {
    pc.PopClaimed? ==> pc.claim + 1 == s.takes && pc.slot == Mod(pc.claim, c.n)
  }

  ghost predicate ClaimsInOrder(c: Config, s: State)
    requires Proper(c)
  {
    forall t :: t in s.pcs ==> PushClaimOk(c, s, s.pcs[t]) && PopClaimOk(c, s, s.pcs[t])
  }

  /** The item of push claim `j` is in its slot. */
  predicate Holds(c: Config, s: State, j: nat)
    requires Proper(c)
  {
    j < |s.claims| && Get(s.data, Mod(j, c.n)) == Some(s.claims[j]) && Get(s.owner, Mod(j, c.n)) == Some(j)
  }

  ghost predicate Window(c: Config, s: State)
    requires Proper(c)
  {
    forall j :: |s.popped| <= j < s.written ==> Holds(c, s, j)
  }

  predicate OwnerOk(c: Config, s: State, slot: nat)
    requires Proper(c)
  {
    slot in s.owner ==> s.owner[slot] < s.written && Mod(s.owner[slot], c.n) == slot
  }

  ghost predicate Owners(c: Config, s: State)
    requires Proper(c)
  {
    forall slot :: OwnerOk(c, s, slot)
  }

  ghost predicate ReadInOrder(s: State) {
    (forall j :: j in s.read <==> 0 <= j < |s.popped|) && Fifo(s)
  }

  ghost predicate Contents(c: Config, s: State)
    requires Proper(c)
  {
    Owners(c, s) && Window(c, s) && ReadInOrder(s)
  }

  ghost predicate Inv(c: Config, s: State)
    requires Proper(c)
  {
    Balanced(c, s) && Tracks(c, s) && ClaimsInOrder(c, s) && Contents(c, s)
  }

  /** What the balance says to a thread about to write, and to one about to read. */
  lemma Room(c: Config, s: State, t: Tid)
    requires Proper(c) && Balanced(c, s) && Exclusive(s) && t in s.pcs
    ensures s.pcs[t].PushClaimed? ==> s.written + 1 == |s.claims| <= |s.popped| + c.n
    ensures s.pcs[t].PopClaimed? ==> |s.popped| + 1 == s.takes <= s.written
  {
    if s.pcs[t].PushClaimed? {
      assert Threads(s.pcs, 2) == {t};
    } else if s.pcs[t].PopClaimed? {
      assert Threads(s.pcs, 5) == {t};
    }
  }

  lemma ReadIsSafe(c: Config, s: State, t: Tid)
    requires Proper(c) && Inv(c, s) && Exclusive(s) && t in s.pcs && s.pcs[t].PopClaimed?
    ensures s.pcs[t].claim == |s.popped| && Holds(c, s, s.pcs[t].claim) && s.pcs[t].slot == Mod(s.pcs[t].claim, c.n)
  {
    Room(c, s, t);
    assert PopClaimOk(c, s, s.pcs[t]);
  }

  lemma WriteIsSafe(c: Config, s: State, t: Tid)
    requires Proper(c) && Inv(c, s) && Exclusive(s) && t in s.pcs && s.pcs[t].PushClaimed?
    ensures s.pcs[t].claim == s.written < |s.popped| + c.n
    ensures s.pcs[t].slot in s.owner ==> s.owner[s.pcs[t].slot] in s.read
  {
    Room(c, s, t);
    var pc := s.pcs[t];
    assert PushClaimOk(c, s, pc);
    assert OwnerOk(c, s, pc.slot);
    if pc.slot in s.owner {
      SameRemainderFarApart(s.owner[pc.slot], pc.claim, c.n);
    }
  }

  lemma InvIsSafe(c: Config, s: State)
    requires Proper(c) && Inv(c, s) && Exclusive(s)
    ensures Safe(s)
  {
    forall t | t in s.pcs && s.pcs[t].PopClaimed?
      ensures Get(s.owner, s.pcs[t].slot) == Some(s.pcs[t].claim)
    {
      ReadIsSafe(c, s, t);
    }
    forall t | t in s.pcs && s.pcs[t].PushClaimed?
      ensures s.pcs[t].slot in s.owner ==> s.owner[s.pcs[t].slot] in s.read
    {
      WriteIsSafe(c, s, t);
    }
  }

  // ----- every step keeps it -----

  lemma StepKeepsOthersClaim(c: Config, s: State, mv: Move, u: Tid)
    requires Proper(c) && ClaimsInOrder(c, s) && Exclusive(s) && Step(c, s, mv).Some? && u != mv.tid
    ensures var s' := Step(c, s, mv).value;
            u in s'.pcs ==> PushClaimOk(c, s', s'.pcs[u]) && PopClaimOk(c, s', s'.pcs[u])
  {
    if u in s.pcs {
      var pc := At(s, mv.tid);
      assert PushClaimOk(c, s, s.pcs[u]) && PopClaimOk(c, s, s.pcs[u]);
      assert !(pc.PushAcquired? && s.pcs[u].PushClaimed?);
      assert !(pc.PopAcquired? && s.pcs[u].PopClaimed?);
    }
  }

  lemma StepKeepsOwnClaim(c: Config, s: State, mv: Move)
    requires Proper(c) && Tracks(c, s) && Step(c, s, mv).Some?
    requires !mv.action.RefusePush?
    ensures var s' := Step(c, s, mv).value;
            mv.tid in s'.pcs && PushClaimOk(c, s', s'.pcs[mv.tid]) && PopClaimOk(c, s', s'.pcs[mv.tid])
  {
    match At(s, mv.tid)
    case PushAcquired(_) =>
    case PopAcquired =>
    case _ =>
  }

  lemma StepKeepsClaim(c: Config, s: State, mv: Move, u: Tid)
    requires Proper(c) && Tracks(c, s) && ClaimsInOrder(c, s) && Exclusive(s) && Step(c, s, mv).Some?
    ensures var s' := Step(c, s, mv).value;
            u in s'.pcs ==> PushClaimOk(c, s', s'.pcs[u]) && PopClaimOk(c, s', s'.pcs[u])
  {
    if u != mv.tid {
      StepKeepsOthersClaim(c, s, mv, u);
    } else if !mv.action.RefusePush? {
      StepKeepsOwnClaim(c, s, mv);
    }
  }

  lemma StepKeepsClaims(c: Config, s: State, mv: Move)
    requires Proper(c) && Tracks(c, s) && ClaimsInOrder(c, s) && Exclusive(s) && Step(c, s, mv).Some?
    ensures ClaimsInOrder(c, Step(c, s, mv).value)
  {
    forall u {
      StepKeepsClaim(c, s, mv, u);
    }
  }

  lemma WriteKeepsWindow(c: Config, s: State, t: Tid)
    requires Proper(c) && Window(c, s) && At(s, t).PushClaimed? && PushClaimOk(c, s, At(s, t))
    requires At(s, t).claim == s.written < |s.popped| + c.n
    ensures Window(c, Advance(c, s, t))
  {
    var s' := Advance(c, s, t);
    var claim := s.pcs[t].claim;
    forall j | |s'.popped| <= j < s'.written
      ensures Holds(c, s', j)
    {
      if j < claim {
        assert Holds(c, s, j);
        if Mod(j, c.n) == Mod(claim, c.n) {
          SameRemainderFarApart(j, claim, c.n);
        }
      }
    }
  }

  lemma WriteKeepsContents(c: Config, s: State, t: Tid)
    requires Proper(c) && Inv(c, s) && Exclusive(s) && At(s, t).PushClaimed?
    ensures Contents(c, Advance(c, s, t))
  {
    var s' := Advance(c, s, t);
    assert PushClaimOk(c, s, s.pcs[t]);
    WriteIsSafe(c, s, t);
    WriteKeepsWindow(c, s, t);
    forall slot
      ensures OwnerOk(c, s', slot)
    {
      assert OwnerOk(c, s, slot);
    }
  }

  lemma ReadKeepsContents(c: Config, s: State, t: Tid)
    requires Proper(c) && Inv(c, s) && Exclusive(s) && At(s, t).PopClaimed?
    ensures Contents(c, Advance(c, s, t))
  {
    var s' := Advance(c, s, t);
    ReadIsSafe(c, s, t);
    forall j | |s'.popped| <= j < s'.written
      ensures Holds(c, s', j)
    {
      assert Holds(c, s, j);
    }
    forall slot
      ensures OwnerOk(c, s', slot)
    {
      assert OwnerOk(c, s, slot);
    }
  }

  lemma OtherStepsTouchNothing(c: Config, s: State, mv: Move)
    requires Proper(c) && Step(c, s, mv).Some? && !At(s, mv.tid).PushClaimed? && !At(s, mv.tid).PopClaimed?
    ensures var s' := Step(c, s, mv).value;
            && s'.data == s.data && s'.owner == s.owner && s'.written == s.written && s'.popped == s.popped
            && s'.read == s.read && s.claims <= s'.claims
  {
  }

  /** Only slot accesses touch what `Contents` speaks of, except that claims grow. */
  lemma OtherStepsKeepContents(c: Config, s: State, s': State)
    requires Proper(c) && Contents(c, s)
    requires s'.data == s.data && s'.owner == s.owner && s'.written == s.written && s'.popped == s.popped
    requires s'.read == s.read && s.claims <= s'.claims
    ensures Contents(c, s')
  {
    forall j | |s'.popped| <= j < s'.written
      ensures Holds(c, s', j)
    {
      assert Holds(c, s, j);
    }
    forall slot
      ensures OwnerOk(c, s', slot)
    {
      assert OwnerOk(c, s, slot);
    }
  }

  lemma StepKeepsContents(c: Config, s: State, mv: Move)
    requires Proper(c) && Inv(c, s) && Exclusive(s) && Step(c, s, mv).Some?
    ensures Contents(c, Step(c, s, mv).value)
  {
    var pc := At(s, mv.tid);
    if pc.PushClaimed? {
      WriteKeepsContents(c, s, mv.tid);
    } else if pc.PopClaimed? {
      ReadKeepsContents(c, s, mv.tid);
    } else {
      OtherStepsTouchNothing(c, s, mv);
      OtherStepsKeepContents(c, s, Step(c, s, mv).value);
    }
  }

  lemma StepKeepsInv(c: Config, s: State, mv: Move)
    requires Proper(c) && Inv(c, s) && Exclusive(s) && WrapsWell(c, s, mv.tid) && Step(c, s, mv).Some?
    ensures Inv(c, Step(c, s, mv).value)
  {
    StepKeepsBalance(c, s, mv);
    StepKeepsTracking(c, s, mv);
    StepKeepsClaims(c, s, mv);
    StepKeepsContents(c, s, mv);
  }

  // ----- which runs are exclusive -----

  ghost predicate RolesKept(c: Config, s: State) {
    forall t :: t in s.pcs ==>
      (Pushing(s.pcs[t]) ==> t in c.producers) && (!s.pcs[t].Idle? && !Pushing(s.pcs[t]) ==> t in c.consumers)
  }

  lemma StepKeepsRoles(c: Config, s: State, mv: Move)
    requires Proper(c) && RolesKept(c, s) && Step(c, s, mv).Some?
    ensures RolesKept(c, Step(c, s, mv).value)
  {
  }

  lemma SubsetCounts(a: set<Tid>, b: set<Tid>)
    requires a <= b
    ensures |a| <= |b|
  {
    assert b == a + (b - a);
  }

  lemma AtMostOne(a: set<Tid>, t: Tid, u: Tid)
    requires |a| <= 1 && t in a && u in a
    ensures t == u
  {
    if t != u {
      SubsetCounts({t, u}, a);
    }
  }

  /** The capacity is one, or there is one producer and one consumer. */
  predicate ExclusiveConfig(c: Config) {
    c.n == 1 || (|c.producers| <= 1 && |c.consumers| <= 1)
  }

  lemma RolesMakeExclusive(c: Config, s: State)
    requires |c.producers| <= 1 && |c.consumers| <= 1 && RolesKept(c, s)
    ensures Exclusive(s)
  {
    forall t, u | t in s.pcs && u in s.pcs && Pushing(s.pcs[t]) && Pushing(s.pcs[u])
      ensures t == u
    {
      AtMostOne(c.producers, t, u);
    }
    forall t, u | t in s.pcs && u in s.pcs && Popping(s.pcs[t]) && Popping(s.pcs[u])
      ensures t == u
    {
      AtMostOne(c.consumers, t, u);
    }
  }

  lemma Present(s: State, t: Tid, phase: nat)
    requires t in s.pcs && Phase(s.pcs[t]) == phase
    ensures Number(s, phase) >= 1
  {
    assert t in Threads(s.pcs, phase);
  }

  /** With capacity one, the permits leave room for one thread only. */
  lemma CapacityMakesExclusive(c: Config, s: State, t: Tid, u: Tid)
    requires c.n == 1 && Balanced(c, s)
    requires t in s.pcs && u in s.pcs && 1 <= Phase(s.pcs[t]) <= 6 && 1 <= Phase(s.pcs[u]) <= 6
    ensures t == u
  {
    var p, q := Phase(s.pcs[t]), Phase(s.pcs[u]);
    Present(s, t, p);
    Present(s, u, q);
    assert Number(s, 1) + Number(s, 2) + Number(s, 3) + Number(s, 4) + Number(s, 5) + Number(s, 6) <= 1;
    assert p == q;
    AtMostOne(Threads(s.pcs, p), t, u);
  }

  lemma ConfigMakesExclusive(c: Config, s: State)
    requires Proper(c) && ExclusiveConfig(c) && Balanced(c, s) && RolesKept(c, s)
    ensures Exclusive(s)
  {
    if c.n == 1 {
      forall t, u | t in s.pcs && u in s.pcs && 1 <= Phase(s.pcs[t]) <= 6 && 1 <= Phase(s.pcs[u]) <= 6
        ensures t == u
      {
        CapacityMakesExclusive(c, s, t, u);
      }
    } else {
      RolesMakeExclusive(c, s);
    }
  }

  // ----- the tail counter of a single consumer -----

  /** Between its fetch-and-add on the tail and its compare-exchange. */
  predicate TailPending(pc: Pc) {
    pc.PopClaimed? || pc.PopRead? || pc.PopReleased? || pc.TailLoaded?
  }

  ghost predicate TailReduced(c: Config, s: State, q: Tid) {
    && s.tail <= c.n
    && (!TailPending(At(s, q)) ==> s.tail < c.n)
    && (At(s, q).TailLoaded? ==> At(s, q).expected == s.tail)
  }

  lemma StepKeepsTailReduced(c: Config, s: State, mv: Move, q: Tid)
    requires Proper(c) && RolesKept(c, s) && c.consumers == {q} && TailReduced(c, s, q) && Step(c, s, mv).Some?
    ensures TailReduced(c, Step(c, s, mv).value, q)
  {
  }

  /** With one consumer the compare-exchange on the tail always succeeds, so the tail counter never exceeds
      the capacity, however many producers there are. */
  lemma {:induction false} TailStaysReduced(c: Config, s: State, moves: seq<Move>, q: Tid)
    requires Proper(c) && RolesKept(c, s) && c.consumers == {q} && TailReduced(c, s, q) && Run(c, s, moves).Some?
    ensures Run(c, s, moves).value.tail <= c.n
    decreases |moves|
  {
    if moves != [] {
      StepKeepsRoles(c, s, moves[0]);
      StepKeepsTailReduced(c, s, moves[0], q);
      TailStaysReduced(c, Step(c, s, moves[0]).value, moves[1..], q);
    }
  }

  lemma TailNeverExceedsCapacity(c: Config, moves: seq<Move>, q: Tid)
    requires Proper(c) && c.consumers == {q} && Run(c, Init(c), moves).Some?
    ensures Run(c, Init(c), moves).value.tail <= c.n
  {
    TailStaysReduced(c, Init(c), moves, q);
  }

  // ----- the counters of a single thread -----

  /** After its release and before its last compare-exchange. */
  predicate HeadPending(pc: Pc) {
    pc.PopReleased? || pc.TailLoaded? || pc.TailDone? || pc.HeadLoaded?
  }

  /** The head counter leaves room for as many pushes as there are permits before it reaches twice the
      capacity. */
  ghost predicate HeadReduced(c: Config, s: State, t: Tid) {
    if HeadPending(At(s, t)) then
      At(s, t).HeadLoaded? ==> At(s, t).expected == s.head
    else
      s.head + s.full + (if At(s, t).PushAcquired? then 1 else 0) < 2 * c.n
  }

  /** One thread does all the work, and the counters do not wrap below twice the capacity. */
  ghost predicate OneThread(c: Config, t: Tid) {
    c.producers == {t} && c.consumers == {t} && c.m >= 2 * c.n
  }

  lemma StepKeepsHeadReduced(c: Config, s: State, mv: Move, t: Tid)
    requires Proper(c) && OneThread(c, t) && RolesKept(c, s) && Balanced(c, s)
    requires HeadReduced(c, s, t) && Step(c, s, mv).Some?
    ensures HeadReduced(c, Step(c, s, mv).value, t)
  {
    match At(s, t)
    case PushAcquired(_) => assert Next(s.head, c.m) <= s.head + 1;
    case HeadLoaded(_, _) => assert s.full <= c.n;
    case _ =>
  }

  lemma OneThreadWrapsWell(c: Config, s: State, u: Tid, t: Tid)
    requires Proper(c) && OneThread(c, t) && RolesKept(c, s) && HeadReduced(c, s, t) && TailReduced(c, s, t)
    ensures WrapsWell(c, s, u)
  {
    if u != t {
      assert !At(s, u).PushAcquired? && !At(s, u).PopAcquired?;
    }
  }

  // ----- safe configurations -----

  /** The counters stay right for this configuration of threads. */
  predicate CountersHold(c: Config)
    requires Proper(c)
  {
    Divides(c) || (c.producers == c.consumers && |c.producers| == 1 && c.m >= 2 * c.n)
  }

  ghost predicate CountersReduced(c: Config, s: State)
    requires Proper(c)
  {
    Divides(c) || exists t :: OneThread(c, t) && HeadReduced(c, s, t) && TailReduced(c, s, t)
  }

  lemma StepKeepsCounters(c: Config, s: State, mv: Move)
    requires Proper(c) && RolesKept(c, s) && Balanced(c, s) && CountersReduced(c, s) && Step(c, s, mv).Some?
    ensures CountersReduced(c, Step(c, s, mv).value) && WrapsWell(c, s, mv.tid)
  {
    if !Divides(c) {
      var t :| OneThread(c, t) && HeadReduced(c, s, t) && TailReduced(c, s, t);
      OneThreadWrapsWell(c, s, mv.tid, t);
      StepKeepsHeadReduced(c, s, mv, t);
      StepKeepsTailReduced(c, s, mv, t);
    }
  }

  lemma InitCounters(c: Config)
    requires Proper(c) && CountersHold(c)
    ensures CountersReduced(c, Init(c))
  {
    if !Divides(c) {
      var t :| t in c.producers;
      forall u | u in c.producers
        ensures u == t
      {
        AtMostOne(c.producers, t, u);
      }
      assert OneThread(c, t) && HeadReduced(c, Init(c), t) && TailReduced(c, Init(c), t);
    }
  }

  lemma {:induction false} RunKeepsInv(c: Config, s: State, moves: seq<Move>)
    requires Proper(c) && ExclusiveConfig(c) && Run(c, s, moves).Some?
    requires Inv(c, s) && RolesKept(c, s) && CountersReduced(c, s)
    ensures var s' := Run(c, s, moves).value; Inv(c, s') && RolesKept(c, s') && Exclusive(s')
    decreases |moves|
  {
    ConfigMakesExclusive(c, s);
    if moves != [] {
      StepKeepsCounters(c, s, moves[0]);
      StepKeepsInv(c, s, moves[0]);
      StepKeepsRoles(c, s, moves[0]);
      RunKeepsInv(c, Step(c, s, moves[0]).value, moves[1..]);
    }
  }

  /** With one producer and one consumer, or with capacity one and any number of threads, every reachable
      state of every interleaving is safe, and the popped items are the first pushed ones in order, provided
      that the counters hold. */
  lemma ExclusiveRunsAreSafe(c: Config, moves: seq<Move>)
    requires Proper(c) && ExclusiveConfig(c) && CountersHold(c) && Run(c, Init(c), moves).Some?
    ensures var s := Run(c, Init(c), moves).value; Safe(s) && Fifo(s)
  {
    InitIsBalanced(c);
    InitCounters(c);
    RunKeepsInv(c, Init(c), moves);
    InvIsSafe(c, Run(c, Init(c), moves).value);
  }

  // ----- threads that only push, or only pop -----

  /** There are no producers; or no consumers, and the counters can number all slots. */
  predicate OneSided(c: Config) {
    c.producers == {} || (c.consumers == {} && c.m >= c.n)
  }

  /** Push claims made and not yet written are those of slots that have never been written. */
  ghost predicate FreshSlots(c: Config, s: State) {
    && (|s.claims| < c.n ==> s.head == |s.claims|)
    && (forall slot :: slot in s.owner ==> slot < |s.claims|)
    && (forall t :: t in s.pcs && s.pcs[t].PushClaimed? ==>
          s.pcs[t].slot < |s.claims| && s.pcs[t].slot !in s.owner)
    && (forall t, u :: t in s.pcs && u in s.pcs && s.pcs[t].PushClaimed? && s.pcs[u].PushClaimed? && t != u ==>
          s.pcs[t].slot != s.pcs[u].slot)
  }

  ghost predicate OneSidedInv(c: Config, s: State) {
    && RolesKept(c, s) && Balanced(c, s)
    && (c.producers == {} ==> s.claims == [])
    && (c.producers != {} ==> s.takes == 0 && FreshSlots(c, s))
  }

  lemma ClaimIsFresh(c: Config, s: State, t: Tid)
    requires Proper(c) && c.m >= c.n && Balanced(c, s) && s.takes == 0 && FreshSlots(c, s) && At(s, t).PushAcquired?
    ensures FreshSlots(c, Advance(c, s, t))
  {
    Present(s, t, 1);
    assert Mod(s.head, c.n) == |s.claims|;
  }

  lemma WriteKeepsFresh(c: Config, s: State, t: Tid)
    requires Proper(c) && FreshSlots(c, s) && At(s, t).PushClaimed?
    ensures FreshSlots(c, Advance(c, s, t))
  {
  }

  lemma StepKeepsFresh(c: Config, s: State, mv: Move)
    requires Proper(c) && c.consumers == {} && c.m >= c.n && RolesKept(c, s) && Balanced(c, s)
    requires s.takes == 0 && FreshSlots(c, s) && Step(c, s, mv).Some?
    ensures Step(c, s, mv).value.takes == 0 && FreshSlots(c, Step(c, s, mv).value)
  {
    var pc := At(s, mv.tid);
    if pc.PushAcquired? {
      ClaimIsFresh(c, s, mv.tid);
    } else if pc.PushClaimed? {
      WriteKeepsFresh(c, s, mv.tid);
    } else {
      assert pc.Idle? || pc.PushWritten?;
    }
  }

  lemma StepKeepsOneSided(c: Config, s: State, mv: Move)
    requires Proper(c) && OneSided(c) && OneSidedInv(c, s) && Step(c, s, mv).Some?
    ensures OneSidedInv(c, Step(c, s, mv).value)
  {
    StepKeepsRoles(c, s, mv);
    StepKeepsBalance(c, s, mv);
    if c.producers == {} {
      assert !At(s, mv.tid).PushAcquired?;
    } else {
      StepKeepsFresh(c, s, mv);
    }
  }

  lemma OneSidedIsSafe(c: Config, s: State)
    requires OneSided(c) && OneSidedInv(c, s)
    ensures Safe(s)
  {
    forall t | t in s.pcs
      ensures !s.pcs[t].PopClaimed?
    {
      if s.pcs[t].PopClaimed? { Present(s, t, 5); }
    }
  }

  lemma {:induction false} OneSidedRunsAreSafe(c: Config, s: State, moves: seq<Move>)
    requires Proper(c) && OneSided(c) && OneSidedInv(c, s) && Run(c, s, moves).Some?
    ensures Safe(Run(c, s, moves).value)
    decreases |moves|
  {
    OneSidedIsSafe(c, s);
    if moves != [] {
      StepKeepsOneSided(c, s, moves[0]);
      OneSidedRunsAreSafe(c, Step(c, s, moves[0]).value, moves[1..]);
    }
  }
}
