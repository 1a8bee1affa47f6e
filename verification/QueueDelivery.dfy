/** From the arguments of push to the results of pop: which items the threads put into the queue and which
    they get back. */
module QueueDelivery {
  import opened Common
  import opened Queue
  import opened QueueSafety

  // ----- the results of pop, for any number of threads -----

  /** What a thread has read from its slot and not yet returned. */
  function Carried(pc: Pc): Option<Reading> {
    if pc.PopRead? || pc.PopReleased? || pc.TailLoaded? || pc.TailDone? || pc.HeadLoaded? then Some(pc.got) else None
  }

  predicate ReadingOk(s: State, r: Reading) {
    r.number < |s.popped| && r.item == s.popped[r.number]
  }

  ghost predicate Returned(s: State, k: nat) {
    exists i :: 0 <= i < |s.returned| && s.returned[i].number == k
  }

  ghost predicate CarriedBy(s: State, t: Tid, k: nat) {
    Carried(At(s, t)).Some? && Carried(At(s, t)).value.number == k
  }

  /** Every reading that is returned or under way is what its slot held. */
  ghost predicate Unaltered(s: State) {
    && (forall i :: 0 <= i < |s.returned| ==> ReadingOk(s, s.returned[i]))
    && (forall t :: Carried(At(s, t)).Some? ==> ReadingOk(s, Carried(At(s, t)).value))
  }

  /** No reading is returned or under way twice. */
  ghost predicate Once(s: State) {
    && (forall i, j :: 0 <= i < j < |s.returned| ==> s.returned[i].number != s.returned[j].number)
    && (forall t, k :: CarriedBy(s, t, k) ==> !Returned(s, k))
    && (forall t, u, k :: CarriedBy(s, t, k) && CarriedBy(s, u, k) ==> t == u)
  }

  /** No reading is lost. */
  ghost predicate Complete(s: State) {
    forall k :: 0 <= k < |s.popped| ==> Returned(s, k) || exists t :: CarriedBy(s, t, k)
  }

  ghost predicate Delivered(s: State) {
    Unaltered(s) && Once(s) && Complete(s)
  }

  /** The readings under way before a step, and after it. */
  lemma OthersCarryOn(c: Config, s: State, mv: Move, u: Tid)
    requires Proper(c) && Step(c, s, mv).Some? && u != mv.tid
    ensures At(Step(c, s, mv).value, u) == At(s, u)
  {
  }

  /** A step reads a slot, returns a reading, or leaves all readings as they are. */
  lemma StepOnReadings(c: Config, s: State, mv: Move)
    requires Proper(c) && Step(c, s, mv).Some?
    ensures var s', pc := Step(c, s, mv).value, At(s, mv.tid);
            var before, after := Carried(pc), Carried(At(s', mv.tid));
            && s'.popped == (if pc.PopClaimed? then s.popped + [Get(s.data, pc.slot)] else s.popped)
            && s'.returned == (if pc.HeadLoaded? then s.returned + [pc.got] else s.returned)
            && (pc.PopClaimed? ==> before == None && after == Some(Reading(|s.popped|, Get(s.data, pc.slot))))
            && (pc.HeadLoaded? ==> before == Some(pc.got) && after == None)
            && (!pc.PopClaimed? && !pc.HeadLoaded? ==> after == before)
  {
  }

  lemma StepKeepsUnaltered(c: Config, s: State, mv: Move)
    requires Proper(c) && Unaltered(s) && Step(c, s, mv).Some?
    ensures Unaltered(Step(c, s, mv).value)
  {
    var s' := Step(c, s, mv).value;
    StepOnReadings(c, s, mv);
    forall t | Carried(At(s', t)).Some?
      ensures ReadingOk(s', Carried(At(s', t)).value)
    {
      if t != mv.tid { OthersCarryOn(c, s, mv, t); }
    }
  }

  /** What is returned or under way after a step was so before, or is the new reading. */
  lemma StepOnNumbers(c: Config, s: State, mv: Move, k: nat)
    requires Proper(c) && Step(c, s, mv).Some?
    ensures var s', pc := Step(c, s, mv).value, At(s, mv.tid);
            && (Returned(s', k) <==> Returned(s, k) || (pc.HeadLoaded? && pc.got.number == k))
            && (forall u :: u != mv.tid ==> (CarriedBy(s', u, k) <==> CarriedBy(s, u, k)))
            && (CarriedBy(s', mv.tid, k) <==>
                if pc.PopClaimed? then k == |s.popped| else !pc.HeadLoaded? && CarriedBy(s, mv.tid, k))
  {
    var s', pc := Step(c, s, mv).value, At(s, mv.tid);
    StepOnReadings(c, s, mv);
    forall u | u != mv.tid
      ensures CarriedBy(s', u, k) <==> CarriedBy(s, u, k)
    {
      OthersCarryOn(c, s, mv, u);
    }
    if Returned(s, k) {
      var i :| 0 <= i < |s.returned| && s.returned[i].number == k;
      assert s'.returned[i].number == k;
    }
    if pc.HeadLoaded? && pc.got.number == k {
      assert s'.returned[|s.returned|].number == k;
    }
  }

  lemma StepKeepsOnce(c: Config, s: State, mv: Move)
    requires Proper(c) && Unaltered(s) && Once(s) && Step(c, s, mv).Some?
    ensures Once(Step(c, s, mv).value)
  {
    var s' := Step(c, s, mv).value;
    StepOnReadings(c, s, mv);
    if At(s, mv.tid).HeadLoaded? {
      assert CarriedBy(s, mv.tid, At(s, mv.tid).got.number);
    }
    forall t, k | CarriedBy(s', t, k)
      ensures !Returned(s', k)
    {
      StepOnNumbers(c, s, mv, k);
    }
    forall t, u, k | CarriedBy(s', t, k) && CarriedBy(s', u, k)
      ensures t == u
    {
      StepOnNumbers(c, s, mv, k);
    }
  }

  lemma StepKeepsComplete(c: Config, s: State, mv: Move)
    requires Proper(c) && Complete(s) && Step(c, s, mv).Some?
    ensures Complete(Step(c, s, mv).value)
  {
    var s' := Step(c, s, mv).value;
    StepOnReadings(c, s, mv);
    forall k | 0 <= k < |s'.popped|
      ensures Returned(s', k) || exists t :: CarriedBy(s', t, k)
    {
      StepOnNumbers(c, s, mv, k);
      if k < |s.popped| && !Returned(s, k) {
        var t :| CarriedBy(s, t, k);
        assert Returned(s', k) || CarriedBy(s', t, k);
      } else if k == |s.popped| {
        assert CarriedBy(s', mv.tid, k);
      }
    }
  }

  lemma {:induction false} RunKeepsDelivered(c: Config, s: State, moves: seq<Move>)
    requires Proper(c) && Delivered(s) && Run(c, s, moves).Some?
    ensures Delivered(Run(c, s, moves).value)
    decreases |moves|
  {
    if moves != [] {
      StepKeepsUnaltered(c, s, moves[0]);
      StepKeepsOnce(c, s, moves[0]);
      StepKeepsComplete(c, s, moves[0]);
      RunKeepsDelivered(c, Step(c, s, moves[0]).value, moves[1..]);
    }
  }

  /** For any number of threads and any interleaving, every slot content that was read is returned by exactly
      one call of pop, unaltered, or still under way in exactly one thread. */
  lemma ReadingsAreDelivered(c: Config, moves: seq<Move>)
    requires Proper(c) && Run(c, Init(c), moves).Some?
    ensures Delivered(Run(c, Init(c), moves).value)
  {
    RunKeepsDelivered(c, Init(c), moves);
  }

  lemma {:induction false} RunKeepsReading(c: Config, s: State, moves: seq<Move>, t: Tid, r: Reading)
    requires Proper(c) && Run(c, s, moves).Some? && (Carried(At(s, t)) == Some(r) || r in s.returned)
    ensures var s' := Run(c, s, moves).value; Carried(At(s', t)) == Some(r) || r in s'.returned
    decreases |moves|
  {
    if moves != [] {
      StepOnReadings(c, s, moves[0]);
      if moves[0].tid != t { OthersCarryOn(c, s, moves[0], t); }
      RunKeepsReading(c, Step(c, s, moves[0]).value, moves[1..], t, r);
    }
  }

  /** A pop returns what its slot held when it read it, whatever all threads do in the meantime. */
  lemma PopReturnsItsSlot(c: Config, s: State, t: Tid, moves: seq<Move>)
    requires Proper(c) && At(s, t).PopClaimed? && Run(c, Advance(c, s, t), moves).Some?
    ensures var s', r := Run(c, Advance(c, s, t), moves).value, Reading(|s.popped|, Get(s.data, At(s, t).slot));
            Carried(At(s', t)) == Some(r) || r in s'.returned
  {
    StepOnReadings(c, s, Move(t, Continue));
    var r := Reading(|s.popped|, Get(s.data, At(s, t).slot));
    RunKeepsReading(c, Advance(c, s, t), moves, t, r);
  }

  // ----- the order of the results with one consumer -----

  /** The results are the readings in order, of which at most the last is still under way. */
  ghost predicate InOrder(s: State) {
    && (forall i :: 0 <= i < |s.returned| ==> s.returned[i].number == i)
    && |s.returned| <= |s.popped| <= |s.returned| + 1
    && (forall t :: Carried(At(s, t)).Some? ==>
          Carried(At(s, t)).value.number == |s.returned| && |s.popped| == |s.returned| + 1)
    && (|s.popped| == |s.returned| + 1 ==> exists t :: CarriedBy(s, t, |s.returned|))
  }

  lemma StepKeepsOrder(c: Config, s: State, mv: Move)
    requires Proper(c) && |c.consumers| <= 1 && RolesKept(c, s) && InOrder(s) && Step(c, s, mv).Some?
    ensures InOrder(Step(c, s, mv).value)
  {
    var s', pc := Step(c, s, mv).value, At(s, mv.tid);
    StepOnReadings(c, s, mv);
    forall t | Carried(At(s, t)).Some? && (pc.PopClaimed? || Carried(pc).Some?)
      ensures t == mv.tid
    {
      AtMostOne(c.consumers, t, mv.tid);
    }
    forall t | Carried(At(s', t)).Some?
      ensures Carried(At(s', t)).value.number == |s'.returned| && |s'.popped| == |s'.returned| + 1
    {
      if t != mv.tid { OthersCarryOn(c, s, mv, t); }
    }
    if |s'.popped| == |s'.returned| + 1 {
      StepOnNumbers(c, s, mv, |s'.returned|);
      if !pc.PopClaimed? {
        var t :| CarriedBy(s, t, |s.returned|);
        assert CarriedBy(s', t, |s'.returned|);
      } else {
        assert CarriedBy(s', mv.tid, |s'.returned|);
      }
    }
  }

  lemma {:induction false} RunKeepsOrder(c: Config, s: State, moves: seq<Move>)
    requires Proper(c) && |c.consumers| <= 1 && RolesKept(c, s) && InOrder(s) && Run(c, s, moves).Some?
    ensures InOrder(Run(c, s, moves).value)
    decreases |moves|
  {
    if moves != [] {
      StepKeepsRoles(c, s, moves[0]);
      StepKeepsOrder(c, s, moves[0]);
      RunKeepsOrder(c, Step(c, s, moves[0]).value, moves[1..]);
    }
  }

  // ----- the arguments of push, for any number of threads -----

  /** The items of the push calls of thread `t` in a run, in the order of the calls. */
  function PushCalls(moves: seq<Move>, t: Tid): seq<Item> {
    if moves == [] then [] else
    (if moves[0].tid == t && moves[0].action.BeginPush? then [moves[0].action.item] else []) + PushCalls(moves[1..], t)
  }

  /** The items that thread `t` has claimed slots for, in the order of the claims. */
  function ClaimsOf(claims: seq<Item>, claimants: seq<Tid>, t: Tid): seq<Item>
    requires |claims| == |claimants|
  {
    if claims == [] then [] else
    var k := |claims| - 1;
    ClaimsOf(claims[..k], claimants[..k], t) + if claimants[k] == t then [claims[k]] else []
  }

  /** The item of a push between its acquire and its claim. */
  function Pending(pc: Pc): seq<Item> {
    if pc.PushAcquired? then [pc.item] else []
  }

  /** The items of the push calls of `t` so far. */
  function Argued(s: State, t: Tid): seq<Item>
    requires |s.claims| == |s.claimants|
  {
    ClaimsOf(s.claims, s.claimants, t) + Pending(At(s, t))
  }

  /** The argument of a push moves from its pending call to its claim. */
  lemma ClaimOnClaims(s: State, s': State, u: Tid, t: Tid)
    requires |s.claims| == |s.claimants| && At(s, u).PushAcquired? && Pending(At(s', u)) == []
    requires s'.claims == s.claims + [At(s, u).item] && s'.claimants == s.claimants + [u]
    requires forall w :: w != u ==> At(s', w) == At(s, w)
    ensures Argued(s', t) == Argued(s, t)
  {
    var k := |s.claims|;
    assert s'.claims[..k] == s.claims && s'.claimants[..k] == s.claimants;
  }

  /** What a step does to claims and pending calls. */
  lemma StepOnPending(c: Config, s: State, mv: Move)
    requires Proper(c) && Step(c, s, mv).Some?
    ensures var s', pc := Step(c, s, mv).value, At(s, mv.tid);
            if pc.PushAcquired? then
              && s'.claims == s.claims + [pc.item] && s'.claimants == s.claimants + [mv.tid]
              && Pending(At(s', mv.tid)) == [] && !mv.action.BeginPush?
            else
              && s'.claims == s.claims && s'.claimants == s.claimants && Pending(pc) == []
              && Pending(At(s', mv.tid)) == if mv.action.BeginPush? then [mv.action.item] else []
  {
  }

  lemma StepOnClaims(c: Config, s: State, mv: Move, t: Tid)
    requires Proper(c) && Step(c, s, mv).Some? && |s.claims| == |s.claimants|
    ensures |Step(c, s, mv).value.claims| == |Step(c, s, mv).value.claimants|
    ensures Argued(Step(c, s, mv).value, t) == Argued(s, t) + PushCalls([mv], t)
  {
    var s', pc := Step(c, s, mv).value, At(s, mv.tid);
    StepOnPending(c, s, mv);
    forall w | w != mv.tid
      ensures At(s', w) == At(s, w)
    {
      OthersCarryOn(c, s, mv, w);
    }
    assert [mv][1..] == [] && PushCalls([], t) == [];
    if pc.PushAcquired? {
      ClaimOnClaims(s, s', mv.tid, t);
    }
  }

  lemma FirstCall(moves: seq<Move>, t: Tid)
    requires moves != []
    ensures PushCalls(moves, t) == PushCalls([moves[0]], t) + PushCalls(moves[1..], t)
  {
    assert [moves[0]][1..] == [];
  }

  lemma {:induction false} RunOnClaims(c: Config, s: State, moves: seq<Move>, t: Tid)
    requires Proper(c) && Run(c, s, moves).Some? && |s.claims| == |s.claimants|
    ensures var s' := Run(c, s, moves).value;
            |s'.claims| == |s'.claimants| && Argued(s', t) == Argued(s, t) + PushCalls(moves, t)
    decreases |moves|
  {
    if moves != [] {
      StepOnClaims(c, s, moves[0], t);
      RunOnClaims(c, Step(c, s, moves[0]).value, moves[1..], t);
      FirstCall(moves, t);
      assert Argued(s, t) + PushCalls([moves[0]], t) + PushCalls(moves[1..], t) ==
             Argued(s, t) + PushCalls(moves, t);
    }
  }

  /** For any number of threads, the items that a thread has claimed slots for are the arguments of its push
      calls in order, up to the one call that may not have come to its claim. */
  lemma ClaimsAreArguments(c: Config, moves: seq<Move>, t: Tid)
    requires Proper(c) && Run(c, Init(c), moves).Some?
    ensures var s := Run(c, Init(c), moves).value;
            && |s.claims| == |s.claimants|
            && PushCalls(moves, t) == ClaimsOf(s.claims, s.claimants, t) + Pending(At(s, t))
  {
    RunOnClaims(c, Init(c), moves, t);
  }

  // ----- from push to pop -----

  /** When runs are safe, every pop returns the item of the push claim with the number of its reading, and no two
      pops return the same one. */
  lemma ResultsWereClaimed(c: Config, moves: seq<Move>)
    requires Proper(c) && ExclusiveConfig(c) && CountersHold(c) && Run(c, Init(c), moves).Some?
    ensures var s := Run(c, Init(c), moves).value;
            && (forall i :: 0 <= i < |s.returned| ==>
                  s.returned[i].number < |s.claims| && s.returned[i].item == Some(s.claims[s.returned[i].number]))
            && (forall i, j :: 0 <= i < j < |s.returned| ==> s.returned[i].number != s.returned[j].number)
  {
    ReadingsAreDelivered(c, moves);
    ExclusiveRunsAreSafe(c, moves);
    var s := Run(c, Init(c), moves).value;
    forall i | 0 <= i < |s.returned|
      ensures s.returned[i].number < |s.claims| && s.returned[i].item == Some(s.claims[s.returned[i].number])
    {
      assert ReadingOk(s, s.returned[i]);
    }
  }

  lemma {:induction false} AllClaimsOf(claims: seq<Item>, claimants: seq<Tid>, p: Tid)
    requires |claims| == |claimants| && forall i :: 0 <= i < |claimants| ==> claimants[i] == p
    ensures ClaimsOf(claims, claimants, p) == claims
  {
    if claims != [] {
      var k := |claims| - 1;
      AllClaimsOf(claims[..k], claimants[..k], p);
    }
  }

  lemma {:induction false} ClaimantsProduce(c: Config, s: State, moves: seq<Move>)
    requires Proper(c) && RolesKept(c, s) && Run(c, s, moves).Some?
    requires forall i :: 0 <= i < |s.claimants| ==> s.claimants[i] in c.producers
    ensures var s' := Run(c, s, moves).value;
            forall i :: 0 <= i < |s'.claimants| ==> s'.claimants[i] in c.producers
    decreases |moves|
  {
    if moves != [] {
      StepKeepsRoles(c, s, moves[0]);
      ClaimantsProduce(c, Step(c, s, moves[0]).value, moves[1..]);
    }
  }

  /** With one producer and one consumer, and counters that hold, the results of pop are the first arguments of
      push, in the order of the calls. */
  lemma FirstInFirstOut(c: Config, moves: seq<Move>, p: Tid)
    requires Proper(c) && c.producers == {p} && |c.consumers| <= 1 && CountersHold(c)
    requires Run(c, Init(c), moves).Some?
    ensures var results, arguments := Run(c, Init(c), moves).value.returned, PushCalls(moves, p);
            |results| <= |arguments| && forall i :: 0 <= i < |results| ==> results[i].item == Some(arguments[i])
  {
    var s := Run(c, Init(c), moves).value;
    ResultsWereClaimed(c, moves);
    RunKeepsOrder(c, Init(c), moves);
    ClaimsAreArguments(c, moves, p);
    ClaimantsProduce(c, Init(c), moves);
    assert s.claims <= PushCalls(moves, p) by {
      forall i | 0 <= i < |s.claimants|
        ensures s.claimants[i] == p
      {
        assert s.claimants[i] in c.producers;
      }
      AllClaimsOf(s.claims, s.claimants, p);
    }
    if s.returned != [] {
      assert s.returned[|s.returned| - 1].number < |s.claims|;
    }
  }
}
