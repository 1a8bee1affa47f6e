/** The runs in which slots are mixed up, and the exact condition on capacity and thread numbers under
    which there are none. */
module QueueHazards {
  import opened Common
  import opened Queue
  import opened QueueSafety

  ghost predicate Reachable(c: Config, s: State)
    requires Proper(c)
  {
    exists moves :: Run(c, Init(c), moves) == Some(s)
  }

  lemma {:induction false} RunThenStep(c: Config, s: State, moves: seq<Move>, mv: Move)
    requires Proper(c) && Run(c, s, moves).Some?
    ensures Run(c, s, moves + [mv]) == Step(c, Run(c, s, moves).value, mv)
    decreases |moves|
  {
    var all := moves + [mv];
    if moves == [] {
      assert all == [mv] && all[1..] == [];
    } else {
      assert all[0] == moves[0] && all[1..] == moves[1..] + [mv];
      RunThenStep(c, Step(c, s, moves[0]).value, moves[1..], mv);
    }
  }

  lemma StepReaches(c: Config, s: State, t: Tid, action: Action) returns (s': State)
    requires Proper(c) && Reachable(c, s) && Step(c, s, Move(t, action)).Some?
    ensures Reachable(c, s') && Step(c, s, Move(t, action)) == Some(s')
  {
    var moves :| Run(c, Init(c), moves) == Some(s);
    s' := Step(c, s, Move(t, action)).value;
    RunThenStep(c, Init(c), moves, Move(t, action));
    assert Run(c, Init(c), moves + [Move(t, action)]) == Some(s');
  }

  lemma InitReachable(c: Config)
    requires Proper(c)
    ensures Reachable(c, Init(c))
  {
    assert Run(c, Init(c), []) == Some(Init(c));
  }

  /** A thread acquires and claims, and then stops. */
  lemma ClaimPush(c: Config, s: State, t: Tid, item: Item) returns (s': State)
    requires Proper(c) && Reachable(c, s) && At(s, t).Idle? && t in c.producers && s.full > 0
    ensures Reachable(c, s')
    ensures s' == s.(full := s.full - 1, head := Next(s.head, c.m), claims := s.claims + [item],
                     claimants := s.claimants + [t],
                     pcs := s.pcs[t := PushClaimed(item, |s.claims|, Mod(s.head, c.n))])
  {
    var s1 := StepReaches(c, s, t, BeginPush(item));
    s' := StepReaches(c, s1, t, Continue);
    assert s1.pcs[t := s'.pcs[t]] == s.pcs[t := s'.pcs[t]];
  }

  lemma ClaimPop(c: Config, s: State, t: Tid) returns (s': State)
    requires Proper(c) && Reachable(c, s) && At(s, t).Idle? && t in c.consumers && s.empty > 0
    ensures Reachable(c, s')
    ensures s' == s.(empty := s.empty - 1, tail := Next(s.tail, c.m), takes := s.takes + 1,
                     pcs := s.pcs[t := PopClaimed(s.takes, Mod(s.tail, c.n))])
  {
    var s1 := StepReaches(c, s, t, BeginPop);
    s' := StepReaches(c, s1, t, Continue);
    assert s1.pcs[t := s'.pcs[t]] == s.pcs[t := s'.pcs[t]];
  }

  /** What a move of thread `t` leaves alone. */
  ghost predicate OthersUnmoved(s: State, s': State, t: Tid) {
    forall u :: u != t ==> At(s', u) == At(s, u)
  }

  /** A whole push without interruption. */
  lemma WholePush(c: Config, s: State, t: Tid, item: Item) returns (s': State)
    requires Proper(c) && Reachable(c, s) && At(s, t).Idle? && t in c.producers && s.full > 0
    ensures Reachable(c, s') && At(s', t).Idle? && OthersUnmoved(s, s', t)
    ensures s'.full == s.full - 1 && s'.empty == s.empty + 1 && s'.head == Next(s.head, c.m) && s'.tail == s.tail
    ensures s'.claims == s.claims + [item] && s'.takes == s.takes && s'.read == s.read
    ensures s'.owner == s.owner[Mod(s.head, c.n) := |s.claims|]
  {
    var s1 := ClaimPush(c, s, t, item);
    var s2 := StepReaches(c, s1, t, Continue);
    s' := StepReaches(c, s2, t, Continue);
  }

  /** A pop without interruption up to its load of the head. */
  lemma PopUpToHead(c: Config, s: State, t: Tid) returns (s': State)
    requires Proper(c) && Reachable(c, s) && At(s, t).Idle? && t in c.consumers && s.empty > 0
    ensures Reachable(c, s') && OthersUnmoved(s, s', t)
    ensures At(s', t).HeadLoaded? && At(s', t).expected == s.head
    ensures s'.full == s.full + 1 && s'.empty == s.empty - 1
    ensures s'.head == s.head && s'.tail == Mod(Next(s.tail, c.m), c.n)
    ensures s'.claims == s.claims && s'.takes == s.takes + 1 && s'.read == s.read + {s.takes} && s'.owner == s.owner
  {
    var s1 := ClaimPop(c, s, t);
    var s2 := StepReaches(c, s1, t, Continue);
    var s3 := StepReaches(c, s2, t, Continue);
    assert OthersUnmoved(s, s3, t);
    s' := ReduceTail(c, s3, t);
  }

  lemma ReduceTail(c: Config, s: State, t: Tid) returns (s': State)
    requires Proper(c) && Reachable(c, s) && At(s, t).PopReleased?
    ensures Reachable(c, s') && OthersUnmoved(s, s', t)
    ensures At(s', t).HeadLoaded? && At(s', t).expected == s.head
    ensures s' == s.(tail := Mod(s.tail, c.n), pcs := s'.pcs)
  {
    var s1 := StepReaches(c, s, t, Continue);
    var s2 := StepReaches(c, s1, t, Continue);
    s' := StepReaches(c, s2, t, Continue);
  }

  /** A whole pop without interruption, up to its return. */
  lemma WholePop(c: Config, s: State, t: Tid) returns (s': State)
    requires Proper(c) && Reachable(c, s) && At(s, t).Idle? && t in c.consumers && s.empty > 0
    ensures Reachable(c, s') && At(s', t).Idle? && OthersUnmoved(s, s', t)
    ensures s'.full == s.full + 1 && s'.empty == s.empty - 1
    ensures s'.head == Mod(s.head, c.n) && s'.tail == Mod(Next(s.tail, c.m), c.n)
    ensures s'.claims == s.claims && s'.takes == s.takes + 1 && s'.read == s.read + {s.takes} && s'.owner == s.owner
  {
    var s1 := PopUpToHead(c, s, t);
    s' := StepReaches(c, s1, t, Continue);
  }

  /** Producer `x` claims slot 0 and is delayed; `y` finishes a push; the consumer then reads slot 0, which
      the push with its claim number has not written. */
  lemma TwoProducersHazard(c: Config, x: Tid, y: Tid, q: Tid) returns (s: State)
    requires Proper(c) && c.n >= 2 && x in c.producers && y in c.producers && q in c.consumers && x != y && x != q
    ensures Reachable(c, s) && !Safe(s)
  {
    InitReachable(c);
    var s1 := ClaimPush(c, Init(c), x, 1);
    var s2 := WholePush(c, s1, y, 2);
    s := ClaimPop(c, s2, q);
    assert s.pcs[q] == PopClaimed(0, 0) && Get(s.owner, 0) != Some(0);
  }

  // ----- runs in which nobody is interrupted -----

  /** All threads are idle after `k` pushes and `j` pops, and the head counter has never been reduced below
      the number of pushes. Slot 0 holds claim 0, and then claim `n`. */
  ghost predicate Marched(c: Config, s: State, k: nat, j: nat)
    requires Proper(c)
  {
    && Reachable(c, s) && (forall t :: At(s, t).Idle?)
    && |s.claims| == k && s.takes == j <= k && s.empty == k - j && s.full == c.n - (k - j)
    && k <= c.m && s.head == (if k == c.m then 0 else k)
    && (forall claim :: claim in s.read ==> claim < j)
    && (1 <= k <= c.n ==> Get(s.owner, 0) == Some(0)) && (c.n < k ==> Get(s.owner, 0) == Some(c.n))
  }

  lemma MarchPush(c: Config, p: Tid, s: State, k: nat, j: nat) returns (s': State)
    requires Proper(c) && p in c.producers && Marched(c, s, k, j) && k < c.m && k < 2 * c.n && k - j < c.n
    ensures Marched(c, s', k + 1, j)
  {
    s' := WholePush(c, s, p, 0);
    assert Mod(k, c.n) == if k < c.n then k else k - c.n;
    assert k + 1 == c.m ==> Next(s.head, c.m) == Mod(0, c.m);
  }

  lemma MarchPop(c: Config, q: Tid, s: State, k: nat, j: nat) returns (s': State)
    requires Proper(c) && q in c.consumers && Marched(c, s, k, j) && j < k && (k < c.n || k == c.m)
    ensures Marched(c, s', k, j + 1)
  {
    s' := WholePop(c, s, q);
  }

  lemma {:induction false} MarchPushes(c: Config, p: Tid, s: State, k: nat, j: nat, last: nat) returns (s': State)
    requires Proper(c) && p in c.producers && Marched(c, s, k, j)
    requires k <= last <= c.m && last <= 2 * c.n && last - j <= c.n
    ensures Marched(c, s', last, j)
    decreases last - k
  {
    s' := s;
    if k < last {
      s' := MarchPush(c, p, s, k, j);
      s' := MarchPushes(c, p, s', k + 1, j, last);
    }
  }

  lemma {:induction false} MarchPops(c: Config, q: Tid, s: State, k: nat, j: nat) returns (s': State)
    requires Proper(c) && q in c.consumers && Marched(c, s, k, j) && k < c.n
    ensures Marched(c, s', k, k)
    decreases k - j
  {
    s' := s;
    if j < k {
      s' := MarchPop(c, q, s, k, j);
      s' := MarchPops(c, q, s', k, j + 1);
    }
  }

  lemma MarchFromInit(c: Config, p: Tid, k: nat) returns (s: State)
    requires Proper(c) && p in c.producers && k <= c.n && k <= c.m
    ensures Marched(c, s, k, 0)
  {
    InitReachable(c);
    s := MarchPushes(c, p, Init(c), 0, 0, k);
  }

  /** The queue is full; consumer `x` claims slot 0 and is delayed; `y` finishes a pop of slot 1, which frees
      one permit; the producer then claims slot 0 again, whose item has not been read. */
  lemma TwoConsumersHazard(c: Config, p: Tid, x: Tid, y: Tid) returns (s: State)
    requires Proper(c) && c.m >= c.n >= 2
    requires p in c.producers && x in c.consumers && y in c.consumers && x != y && x != p
    ensures Reachable(c, s) && !Safe(s)
  {
    var s1 := MarchFromInit(c, p, c.n);
    var s2 := ClaimPop(c, s1, x);
    assert At(s2, y) == At(s1, y) && At(s2, p) == At(s1, p);
    var s3 := WholePop(c, s2, y);
    assert Mod(c.n, c.n) == Mod(0, c.n) == 0;
    s := ClaimPush(c, s3, p, 0);
    assert s.pcs[p].slot == 0 && s.owner[0] == 0 && 0 !in s.read;
  }

  /** Counters with fewer values than there are slots: the producer alone claims slot 0 twice. */
  lemma ShortCounterHazard(c: Config, p: Tid) returns (s: State)
    requires Proper(c) && p in c.producers && c.m < c.n
    ensures Reachable(c, s) && !Safe(s)
  {
    var s1 := MarchFromInit(c, p, c.m);
    s := ClaimPush(c, s1, p, 0);
    assert s.pcs[p].slot == 0 && s.owner[0] == 0 && 0 !in s.read;
  }

  /** One thread, whose pops always reduce the head: it pops the queue empty one claim before the capacity,
      then pushes until the head wraps, which hands out slot 0 while claim `n` is still in it. */
  lemma OneThreadHazard(c: Config, t: Tid) returns (s: State)
    requires Proper(c) && t in c.producers && t in c.consumers && c.n < c.m < 2 * c.n
    ensures Reachable(c, s) && !Safe(s)
  {
    var s1 := MarchFromInit(c, t, c.n - 1);
    var s2 := MarchPops(c, t, s1, c.n - 1, 0);
    var s3 := MarchPushes(c, t, s2, c.n - 1, c.n - 1, c.m);
    var s4 := MarchPop(c, t, s3, c.m, c.n - 1);
    s := ClaimPush(c, s4, t, 0);
    assert s.pcs[t].slot == 0 && s.owner[0] == c.n && c.n !in s.read;
  }

  // ----- a run in which the head is never reduced -----

  /** One item is queued after `k + 1` pushes and `k` pops, and the head counter was never reduced. */
  ghost predicate Climbed(c: Config, s: State, k: nat)
    requires Proper(c)
  {
    && Reachable(c, s) && (forall t :: At(s, t).Idle?)
    && |s.claims| == k + 1 && s.takes == k && s.empty == 1 && s.full == c.n - 1
    && k < c.m && s.head == (if k + 1 == c.m then 0 else k + 1) && s.tail == Mod(k, c.n)
    && (forall slot :: slot in s.owner ==> s.owner[slot] <= k)
  }

  /** The consumer loads the head, the producer pushes, and the compare-exchange fails. */
  lemma ClimbOnce(c: Config, p: Tid, q: Tid, s: State, k: nat) returns (s': State)
    requires Proper(c) && 2 <= c.n < c.m && p in c.producers && q in c.consumers && p != q
    requires Climbed(c, s, k) && k + 1 < c.m
    ensures Climbed(c, s', k + 1)
  {
    var s1 := PopUpToHead(c, s, q);
    assert At(s1, p) == At(s, p);
    var s2 := WholePush(c, s1, p, 0);
    assert At(s2, q) == At(s1, q);
    assert k + 2 == c.m ==> Next(s.head, c.m) == Mod(0, c.m);
    s' := StepReaches(c, s2, q, Continue);
    ModSucc(k, c.n);
    assert forall t :: t != p && t != q ==> At(s', t) == At(s, t);
  }

  lemma {:induction false} Climb(c: Config, p: Tid, q: Tid, k: nat) returns (s: State)
    requires Proper(c) && 2 <= c.n < c.m && p in c.producers && q in c.consumers && p != q && k < c.m
    ensures Climbed(c, s, k)
  {
    if k == 0 {
      InitReachable(c);
      s := WholePush(c, Init(c), p, 0);
    } else {
      s := Climb(c, p, q, k - 1);
      s := ClimbOnce(c, p, q, s, k - 1);
    }
  }

  /** After `m` pushes the head has wrapped: push claim `m` goes to slot 0, and the pop with that claim number
      looks for it in slot `m` modulo the capacity. */
  lemma WrapHazard(c: Config, p: Tid, q: Tid) returns (s: State)
    requires Proper(c) && 2 <= c.n < c.m && !Divides(c) && p in c.producers && q in c.consumers && p != q
    ensures Reachable(c, s) && !Safe(s)
  {
    var s1 := Climb(c, p, q, c.m - 1);
    var s2 := WholePush(c, s1, p, 0);
    assert At(s2, q) == At(s1, q);
    var s3 := WholePop(c, s2, q);
    ModSucc(c.m - 1, c.n);
    ModTwice(c.m, c.n);
    s := ClaimPop(c, s3, q);
    assert s.pcs[q] == PopClaimed(c.m, Mod(c.m, c.n));
    assert Get(s.owner, Mod(c.m, c.n)) != Some(c.m);
  }

  // ----- the exact condition -----

  lemma PickOther(a: set<Tid>, not: Tid) returns (t: Tid)
    requires |a| >= 2
    ensures t in a && t != not
  {
    Without(a, not);
    assert a - {not} != {};
    t :| t in a - {not};
  }

  lemma CrowdHazard(c: Config) returns (s: State)
    requires Proper(c) && c.producers != {} && c.consumers != {} && c.m >= c.n && !ExclusiveConfig(c)
    ensures Reachable(c, s) && !Safe(s)
  {
    if |c.producers| > 1 {
      var q :| q in c.consumers;
      var x := PickOther(c.producers, q);
      var y := PickOther(c.producers, x);
      s := TwoProducersHazard(c, x, y, q);
    } else {
      var p :| p in c.producers;
      var x := PickOther(c.consumers, p);
      var y := PickOther(c.consumers, x);
      s := TwoConsumersHazard(c, p, x, y);
    }
  }

  lemma SameSingleton(a: set<Tid>, b: set<Tid>, t: Tid)
    requires |a| <= 1 && |b| <= 1 && t in a && t in b
    ensures a == b
  {
    assert forall u :: u in a ==> u == t by {
      forall u | u in a { AtMostOne(a, t, u); }
    }
    assert forall u :: u in b ==> u == t by {
      forall u | u in b { AtMostOne(b, t, u); }
    }
  }

  lemma CounterHazard(c: Config) returns (s: State)
    requires Proper(c) && c.producers != {} && c.consumers != {} && c.m >= c.n
    requires ExclusiveConfig(c) && !CountersHold(c)
    ensures Reachable(c, s) && !Safe(s)
  {
    SmallCapacity(c);
    var p :| p in c.producers;
    var q :| q in c.consumers;
    if p == q {
      SameSingleton(c.producers, c.consumers, p);
      Without(c.producers, p);
      s := OneThreadHazard(c, p);
    } else {
      s := WrapHazard(c, p, q);
    }
  }

  lemma SmallCapacity(c: Config)
    requires Proper(c) && !Divides(c)
    ensures c.n >= 2 && c.m != c.n
  {
    assert Mod(c.n, c.n) == Mod(0, c.n);
  }

  lemma ConfigIsSafe(c: Config, s: State)
    requires Proper(c) && (OneSided(c) || (ExclusiveConfig(c) && CountersHold(c))) && Reachable(c, s)
    ensures Safe(s)
  {
    var moves :| Run(c, Init(c), moves) == Some(s);
    if OneSided(c) {
      InitIsBalanced(c);
      OneSidedRunsAreSafe(c, Init(c), moves);
    } else {
      ExclusiveRunsAreSafe(c, moves);
    }
  }

  /** For every capacity, counter width and set of threads: no interleaving mixes up slots exactly when
      the capacity is one or there is one producer and one consumer, and the capacity divides the modulus of
      the counters or the two are the same thread and the modulus is at least twice the capacity; or when
      nobody pushes; or when nobody pops and the counters can number all slots. */
  lemma SafeExactlyWhen(c: Config)
    requires Proper(c)
    ensures (forall s :: Reachable(c, s) ==> Safe(s)) <==> OneSided(c) || (ExclusiveConfig(c) && CountersHold(c))
  {
    if OneSided(c) || (ExclusiveConfig(c) && CountersHold(c)) {
      forall s | Reachable(c, s)
        ensures Safe(s)
      {
        ConfigIsSafe(c, s);
      }
    } else if c.m < c.n {
      var p :| p in c.producers;
      var s := ShortCounterHazard(c, p);
    } else if !ExclusiveConfig(c) {
      var s := CrowdHazard(c);
    } else {
      var s := CounterHazard(c);
    }
  }

  /** The example instance: capacity 10 on 32-bit counters, one producer and one consumer. */
  lemma ExampleQueueHazard(p: Tid, q: Tid) returns (s: State)
    requires p != q
    ensures Reachable(Config(10, 0x1_0000_0000, {p}, {q}), s) && !Safe(s)
  {
    ModIsRemainder(0x1_0000_0000, 10);
    s := WrapHazard(Config(10, 0x1_0000_0000, {p}, {q}), p, q);
  }
}
