/** The cache of code objects for tracebacks: a growable array sorted by line, searched by bisection. */
module CodeCache {
  import opened Common
  import opened CodeTable

  /** Bisection over the first `count` entries. */
  method Bisect(entries: array<Entry>, count: nat, line: int) returns (pos: nat)
    requires 1 <= count <= entries.Length && Sorted(entries[..count])
    ensures SplitsAt(entries[..count], pos, line)
  {
    var start, mid, end := 0, 0, count - 1;
    ghost var es := entries[..count];
    if line > entries[end].line {
      return count;
    }
    while start < end
      invariant 0 <= start <= end < count && 0 <= mid < count
      invariant forall i :: 0 <= i < start ==> es[i].line < line
      invariant forall i :: end <= i < count ==> line <= es[i].line
      invariant (mid == 0 && start == 0) || mid == end || mid == start - 1
    {
      mid := start + (end - start) / 2;
      if line < entries[mid].line {
        end := mid;
      } else if line > entries[mid].line {
        start := mid + 1;
      } else {
        return mid;
      }
    }
    if line <= entries[mid].line {
      return mid;
    } else {
      return mid + 1;
    }
  }

  /** Shifts the entries from `pos` to `count` one place up and writes `e` at `pos`. */
  method ShiftIn(entries: array<Entry>, pos: nat, count: nat, e: Entry)
    requires pos <= count < entries.Length
    modifies entries
    ensures entries[..count + 1] == old(entries[..pos]) + [e] + old(entries[pos..count])
  {
    ghost var es := entries[..];
    var i := count;
    while i > pos
      invariant pos <= i <= count
      invariant forall j :: 0 <= j <= i ==> entries[j] == es[j]
      invariant forall j :: i < j <= count ==> entries[j] == es[j - 1]
    {
      entries[i] := entries[i - 1];
      i := i - 1;
    }
    entries[pos] := e;
  }

  /** The cache as a plain map from lines to objects, with the number of entries allocated for it. */
  datatype Model = Model(dict: map<int, Obj>, capacity: nat) {

    /** Storing under line zero, or without memory for a new line, changes nothing. */
    function Insert(line: int, code: Obj, granted: bool): Model {
      if line == 0 then this
      else if line in dict then Model(dict[line := code], capacity)
      else if |dict| < capacity then Model(dict[line := code], capacity)
      else if granted then Model(dict[line := code], capacity + 64)
      else this
    }

    function Find(line: int): Option<Obj> {
      if line in dict then Some(dict[line]) else None
    }
  }

  /** One call of the traceback helper: the line numbers, and what the calls into the interpreter give back.
      `cLine` is zero when C lines are not shown. */
  datatype Call = Call(
    cLine: int,
    pyLine: int,
    created: Option<Obj>,  // the code object that is created on a miss, if that works
    granted: bool,         // whether the allocator gives memory
    framed: bool,          // whether a frame is created
    traced: bool)          // whether the traceback keeps the frame
  {
    function Key(): int {
      if cLine != 0 then -cLine else pyLine
    }

    /** The code object that the call uses. */
    function Code(dict: map<int, Obj>): Option<Obj> {
      if Key() in dict then Some(dict[Key()]) else created
    }

    /** The cache after the call. */
    ghost function After(m: Model): Model {
      if Key() !in m.dict && created.Some? then m.Insert(Key(), created.value, granted) else m
    }

    /** Whether the call leaves a reference to `o` behind, in a traceback that keeps its frame. */
    predicate Keeps(m: Model, o: Obj) {
      Code(m.dict) == Some(o) && framed && traced
    }
  }

  class Cache {
    var entries: array?<Entry>
    var count: nat
    var maxCount: nat
    var refs: map<Obj, int>         // reference counts of all code objects
    ghost var held: map<Obj, int>   // references held outside the cache

    constructor ()
      ensures Valid() && Table() == [] && refs == map[] && held == map[]
    {
      entries, count, maxCount, refs, held := null, 0, 0, map[], map[];
    }

    ghost predicate Valid()
      reads this, entries
    {
      && (entries == null ==> count == 0 && maxCount == 0)
      && (entries != null ==> 1 <= count <= maxCount == entries.Length
                              && Sorted(entries[..count]) && NonZero(entries[..count]))
    }

    ghost function Table(): (es: seq<Entry>)
      reads this, entries
      requires Valid()
      ensures Sorted(es)
    {
      if entries == null then [] else entries[..count]
    }

    /** What the cache holds, as a map. */
    ghost function Contents(): Model
      reads this, entries
      requires Valid()
    {
      Model(Dict(Table()), maxCount)
    }

    method IncRef(o: Obj)
      modifies this`refs
      ensures refs == Bump(old(refs), o, 1)
    {
      refs := Bump(refs, o, 1);
    }

    method DecRef(o: Obj)
      modifies this`refs
      ensures refs == Bump(old(refs), o, -1)
    {
      refs := Bump(refs, o, -1);
    }

    /** Lookup agrees with the map of the table; the caller gets a reference of its own. */
    method Find(line: int) returns (r: Option<Obj>)
      requires Valid()
      modifies this`refs
      ensures Valid() && Table() == old(Table()) && Contents() == old(Contents())
      ensures r == Contents().Find(line)
      ensures refs == if r.Some? then Bump(old(refs), r.value, 1) else old(refs)
    {
      if line == 0 || entries == null {
        ZeroIsAbsent(Table());
        return None;
      }
      var pos := Bisect(entries, count, line);
      LookupAt(Table(), pos, line);
      if pos >= count || entries[pos].line != line {
        return None;
      }
      var code := entries[pos].code;
      IncRef(code);
      return Some(code);
    }

    /** `granted` is whether the allocator gives memory if it is asked. */
    method Insert(line: int, code: Obj, granted: bool) returns (ghost stored: bool)
      requires Valid()
      modifies this`entries, this`count, this`maxCount, this`refs, entries
      ensures Valid()
      ensures stored <==> line != 0 && (line in old(Dict(Table())) || old(count) < old(maxCount) || granted)
      ensures Table() == if stored then Store(old(Table()), line, code) else old(Table())
      ensures refs == if stored then RefsAfterStore(old(Table()), old(refs), line, code) else old(refs)
      ensures entries == old(entries) || fresh(entries)
      ensures Contents() == old(Contents()).Insert(line, code, granted)
    {
      DictSize(Table());
      StoreIsUpdate(Table(), line, code);
      if line == 0 {
        return false;
      }
      if entries == null {
        if !granted {
          return false;
        }
        FirstEntry(line, code);
        return true;
      }
      var pos := Bisect(entries, count, line);
      LookupAt(Table(), pos, line);
      if pos < count && entries[pos].line == line {
        ReplaceEntry(pos, line, code);
        return true;
      }
      stored := AddEntry(pos, line, code, granted);
    }

    /** A new entry, after growing the array if it is full. */
    method AddEntry(pos: nat, line: int, code: Obj, granted: bool) returns (ghost stored: bool)
      requires Valid() && entries != null && line != 0
      requires SplitsAt(Table(), pos, line) && line !in Dict(Table())
      modifies this`entries, this`count, this`maxCount, this`refs, entries
      ensures Valid()
      ensures stored <==> old(count) < old(maxCount) || granted
      ensures Table() == if stored then Store(old(Table()), line, code) else old(Table())
      ensures refs == if stored then RefsAfterStore(old(Table()), old(refs), line, code) else old(refs)
      ensures entries == old(entries) || fresh(entries)
      ensures maxCount == if stored && old(count) == old(maxCount) then old(maxCount) + 64 else old(maxCount)
    {
      if count == maxCount {
        if !granted {
          return false;
        }
        Grow();
      }
      InsertEntry(pos, line, code);
      return true;
    }

    /** The first allocation holds 64 entries. */
    method FirstEntry(line: int, code: Obj)
      requires Valid() && entries == null && line != 0
      modifies this`entries, this`count, this`maxCount, this`refs
      ensures Valid() && Table() == Store([], line, code) && refs == RefsAfterStore([], old(refs), line, code)
      ensures fresh(entries) && maxCount == 64
    {
      entries := new Entry[64];
      maxCount, count := 64, 1;
      entries[0] := Entry(line, code);
      IncRef(code);
      assert entries[..1] == [Entry(line, code)];
    }

    method ReplaceEntry(pos: nat, line: int, code: Obj)
      requires Valid() && pos < count && entries[pos].line == line
      modifies this`refs, entries
      ensures Valid() && Table() == Store(old(Table()), line, code)
      ensures refs == RefsAfterStore(old(Table()), old(refs), line, code)
    {
      ghost var es := Table();
      assert SplitsAt(es, pos, line);
      LookupAt(es, pos, line);
      ReplaceIsStore(es, pos, line, code);
      StoreKeepsSorted(es, line, code);
      StoreKeepsNonZero(es, line, code);
      var tmp := entries[pos].code;
      entries[pos] := Entry(line, code);
      assert entries[..count] == es[pos := Entry(line, code)];
      DecRef(tmp);
    }

    /** Reallocation by 64 entries keeps the contents. */
    method Grow()
      requires Valid() && entries != null
      modifies this`entries, this`maxCount
      ensures Valid() && fresh(entries) && count == old(count) && Table() == old(Table())
      ensures maxCount == old(maxCount) + 64
    {
      var bigger := new Entry[maxCount + 64];
      forall i | 0 <= i < count {
        bigger[i] := entries[i];
      }
      assert bigger[..count] == entries[..count];
      entries, maxCount := bigger, maxCount + 64;
    }

    method InsertEntry(pos: nat, line: int, code: Obj)
      requires Valid() && entries != null && count < maxCount && line != 0
      requires SplitsAt(Table(), pos, line) && line !in Dict(Table())
      modifies this`count, this`refs, entries
      ensures Valid() && Table() == Store(old(Table()), line, code)
      ensures refs == RefsAfterStore(old(Table()), old(refs), line, code)
    {
      ghost var es := Table();
      LookupAt(es, pos, line);
      InsertIsStore(es, pos, line, code);
      StoreKeepsSorted(es, line, code);
      StoreKeepsNonZero(es, line, code);
      assert es[pos..] == entries[pos..count] && es[..pos] == entries[..pos];
      ShiftIn(entries, pos, count, Entry(line, code));
      count := count + 1;
      IncRef(code);
    }

    /** What a holder outside does to the count of `o`. */
    method Hold(o: Obj, delta: int)
      requires Valid() && Owned(Table(), refs, held)
      modifies this`refs, this`held
      ensures Valid() && Table() == old(Table()) && Owned(Table(), refs, held)
      ensures refs == Bump(old(refs), o, delta) && held == Bump(old(held), o, delta)
    {
      HolderKeepsOwnership(Table(), refs, held, o, delta);
      refs := Bump(refs, o, delta);
      held := Bump(held, o, delta);
    }

    /** The code object of a call, found or created, with a reference for the caller. */
    method Obtain(call: Call) returns (code: Option<Obj>)
      requires Valid() && Owned(Table(), refs, held)
      modifies this, entries
      ensures Valid() && Owned(Table(), refs, held)
      ensures entries == old(entries) || fresh(entries)
      ensures Contents() == call.After(old(Contents()))
      ensures code == call.Code(old(Contents()).dict)
      ensures held == if code.Some? then Bump(old(held), code.value, 1) else old(held)
    {
      var key := call.Key();
      code := Find(key);
      ghost var es := Table();
      if code.Some? {
        HolderKeepsOwnership(es, old(refs), held, code.value, 1);
        held := Bump(held, code.value, 1);
      } else if call.created.Some? {
        code := call.created;
        Hold(code.value, 1);
        StoreKeepsOwnership(es, refs, held, key, code.value);
        ghost var stored := Insert(key, code.value, call.granted);
      }
    }

    /** One call of the traceback helper. No stored entry is ever replaced, every entry stays owned, and the
        only reference left behind is that of a traceback that keeps its frame. */
    method AddTraceback(call: Call) returns (ghost code: Option<Obj>)
      requires Valid() && Owned(Table(), refs, held)
      modifies this, entries
      ensures Valid() && Owned(Table(), refs, held)
      ensures entries == old(entries) || fresh(entries)
      ensures Contents() == call.After(old(Contents()))
      ensures code == call.Code(old(Contents()).dict)
      ensures forall o: Obj :: Refs(held, o) == Refs(old(held), o) + if call.Keeps(old(Contents()), o) then 1 else 0
    {
      var found := Obtain(call);
      code := found;
      if found.None? {
        return;
      }
      if call.framed {
        Hold(found.value, 1);
        if !call.traced {
          Hold(found.value, -1);
        }
      }
      Hold(found.value, -1);
    }

    /** Any sequence of calls: the cache and the code object that each call uses are those of the plain map, and
        the references outside the cache have grown by exactly the tracebacks that keep their frames. */
    method Replay(calls: seq<Call>) returns (ghost codes: seq<Option<Obj>>)
      requires Valid() && Owned(Table(), refs, held)
      modifies this, entries
      ensures Valid() && Owned(Table(), refs, held)
      ensures Contents() == AfterCalls(old(Contents()), calls)
      ensures codes == UsedCodes(old(Contents()), calls)
      ensures forall o: Obj :: Refs(held, o) == Refs(old(held), o) + Kept(old(Contents()), calls, o)
    {
      ghost var m, h := Contents(), held;
      codes := [];
      assert calls[..0] == [];
      for i := 0 to |calls|
        invariant Valid() && Owned(Table(), refs, held)
        invariant entries == old(entries) || fresh(entries)
        invariant Contents() == AfterCalls(m, calls[..i])
        invariant codes == UsedCodes(m, calls[..i])
        invariant forall o: Obj :: Refs(held, o) == Refs(h, o) + Kept(m, calls[..i], o)
      {
        LastCall(m, calls, i);
        ghost var code := AddTraceback(calls[i]);
        codes := codes + [code];
      }
      assert calls[..|calls|] == calls;
    }

    /** Any sequence of inserts and lookups is answered as a plain map answers it. */
    method Operate(ops: seq<Op>) returns (replies: seq<Option<Obj>>)
      requires Valid()
      modifies this, entries
      ensures Valid()
      ensures Contents() == AfterOps(old(Contents()), ops)
      ensures replies == Replies(old(Contents()), ops)
    {
      ghost var m := Contents();
      replies := [];
      assert ops[..0] == [];
      for i := 0 to |ops|
        invariant Valid()
        invariant entries == old(entries) || fresh(entries)
        invariant Contents() == AfterOps(m, ops[..i])
        invariant replies == Replies(m, ops[..i])
      {
        LastOp(m, ops, i);
        match ops[i] {
          case Enter(line, code, granted) =>
            ghost var stored := Insert(line, code, granted);
          case Look(line) =>
            var r := Find(line);
            replies := replies + [r];
        }
      }
      assert ops[..|ops|] == ops;
    }
  }

  // ----- runs on the plain map -----

  ghost function AfterCalls(m: Model, calls: seq<Call>): Model {
    if calls == [] then m else calls[|calls| - 1].After(AfterCalls(m, calls[..|calls| - 1]))
  }

  /** The code object that call number `i` uses. */
  ghost function Used(m: Model, calls: seq<Call>, i: nat): Option<Obj>
    requires i < |calls|
  {
    calls[i].Code(AfterCalls(m, calls[..i]).dict)
  }

  ghost function UsedCodes(m: Model, calls: seq<Call>): seq<Option<Obj>> {
    if calls == [] then [] else
    var before := calls[..|calls| - 1];
    UsedCodes(m, before) + [calls[|calls| - 1].Code(AfterCalls(m, before).dict)]
  }

  lemma {:induction false} UsedCodesAt(m: Model, calls: seq<Call>, i: nat)
    requires i < |calls|
    ensures |UsedCodes(m, calls)| == |calls| && UsedCodes(m, calls)[i] == Used(m, calls, i)
  {
    var before := calls[..|calls| - 1];
    if |calls| > 1 {
      UsedCodesAt(m, before, if i < |before| then i else 0);
    }
    if i < |before| {
      assert before[..i] == calls[..i];
    }
  }

  /** The calls that leave a reference to `o` behind. */
  ghost function Kept(m: Model, calls: seq<Call>, o: Obj): nat {
    if calls == [] then 0 else
    var before := calls[..|calls| - 1];
    Kept(m, before, o) + (if calls[|calls| - 1].Keeps(AfterCalls(m, before), o) then 1 else 0)
  }

  datatype Op = Enter(line: int, code: Obj, granted: bool) | Look(line: int)

  ghost function AfterOps(m: Model, ops: seq<Op>): Model {
    if ops == [] then m else
    var before := AfterOps(m, ops[..|ops| - 1]);
    match ops[|ops| - 1]
    case Enter(line, code, granted) => before.Insert(line, code, granted)
    case Look(_) => before
  }

  ghost function Replies(m: Model, ops: seq<Op>): seq<Option<Obj>> {
    if ops == [] then [] else
    var before := ops[..|ops| - 1];
    match ops[|ops| - 1]
    case Enter(_, _, _) => Replies(m, before)
    case Look(line) => Replies(m, before) + [AfterOps(m, before).Find(line)]
  }

  lemma LastCall(m: Model, calls: seq<Call>, i: nat)
    requires i < |calls|
    ensures var before := AfterCalls(m, calls[..i]);
            && AfterCalls(m, calls[..i + 1]) == calls[i].After(before)
            && UsedCodes(m, calls[..i + 1]) == UsedCodes(m, calls[..i]) + [calls[i].Code(before.dict)]
            && forall o :: Kept(m, calls[..i + 1], o) ==
                           Kept(m, calls[..i], o) + if calls[i].Keeps(before, o) then 1 else 0
  {
    assert calls[..i + 1][..i] == calls[..i];
  }

  lemma LastOp(m: Model, ops: seq<Op>, i: nat)
    requires i < |ops|
    ensures var before := AfterOps(m, ops[..i]);
            match ops[i]
            case Enter(line, code, granted) =>
              && AfterOps(m, ops[..i + 1]) == before.Insert(line, code, granted)
              && Replies(m, ops[..i + 1]) == Replies(m, ops[..i])
            case Look(line) =>
              && AfterOps(m, ops[..i + 1]) == before
              && Replies(m, ops[..i + 1]) == Replies(m, ops[..i]) + [before.Find(line)]
  {
    assert ops[..i + 1][..i] == ops[..i];
  }

  /** No call replaces a cached object, over any run. */
  lemma {:induction false} CallsKeepLines(m: Model, calls: seq<Call>, line: int)
    requires line in m.dict
    ensures AfterCalls(m, calls).Find(line) == m.Find(line)
  {
    if calls != [] {
      CallsKeepLines(m, calls[..|calls| - 1], line);
    }
  }

  /** Two calls are for the same C line, or for the same Python line without a C line. */
  predicate SameLine(a: Call, b: Call) {
    a.cLine == b.cLine && (a.cLine == 0 ==> a.pyLine == b.pyLine)
  }

  /** C lines and Python lines share the cache without meeting. */
  lemma KeysTellLinesApart(a: Call, b: Call)
    requires a.cLine >= 0 && a.pyLine >= 0 && b.cLine >= 0 && b.pyLine >= 0
    ensures a.Key() == b.Key() <==> SameLine(a, b)
  {
  }

  /** What is cached was created by a call for that line. */
  lemma {:induction false} CachedWasCreated(calls: seq<Call>, line: int) returns (j: nat)
    requires line in AfterCalls(Model(map[], 0), calls).dict
    ensures j < |calls| && calls[j].Key() == line
    ensures calls[j].created == AfterCalls(Model(map[], 0), calls).Find(line)
    ensures line !in AfterCalls(Model(map[], 0), calls[..j]).dict
  {
    var before := calls[..|calls| - 1];
    if line in AfterCalls(Model(map[], 0), before).dict {
      j := CachedWasCreated(before, line);
      assert before[..j] == calls[..j];
    } else {
      j := |calls| - 1;
    }
  }

  /** From an empty cache, a call uses the object that it creates itself, or the one that an earlier call created
      for the same line, when no object for that line was cached. */
  lemma UsedWasCreatedForTheLine(calls: seq<Call>, i: nat) returns (j: nat)
    requires forall k :: 0 <= k < |calls| ==> calls[k].cLine >= 0 && calls[k].pyLine >= 0
    requires i < |calls|
    ensures j <= i && SameLine(calls[j], calls[i])
    ensures var codes := UsedCodes(Model(map[], 0), calls);
            |codes| == |calls| && codes[i] == codes[j] == calls[j].created
  {
    var m := AfterCalls(Model(map[], 0), calls[..i]);
    if calls[i].Key() in m.dict {
      j := CachedWasCreated(calls[..i], calls[i].Key());
      assert calls[..i][..j] == calls[..j];
      KeysTellLinesApart(calls[j], calls[i]);
    } else {
      j := i;
    }
    UsedCodesAt(Model(map[], 0), calls, i);
    UsedCodesAt(Model(map[], 0), calls, j);
  }

  lemma CallCaches(m: Model, call: Call)
    requires call.granted && call.Key() != 0 && call.Code(m.dict).Some?
    ensures call.Key() in call.After(m).dict && call.After(m).Find(call.Key()) == call.Code(m.dict)
  {
  }

  /** Once a call has an object for its line, and memory to store it, every later call for that line uses the same
      object. */
  lemma LaterCallsAgree(m: Model, calls: seq<Call>, i: nat, j: nat)
    requires i < j < |calls| && calls[i].Key() == calls[j].Key() != 0
    requires calls[i].granted && Used(m, calls, i).Some?
    ensures |UsedCodes(m, calls)| == |calls| && UsedCodes(m, calls)[j] == UsedCodes(m, calls)[i]
  {
    UsedCodesAt(m, calls, i);
    UsedCodesAt(m, calls, j);
    LastCall(m, calls, i);
    CallCaches(AfterCalls(m, calls[..i]), calls[i]);
    StaysCached(m, calls, i + 1, j, calls[i].Key());
  }

  lemma {:induction false} StaysCached(m: Model, calls: seq<Call>, i: nat, j: nat, line: int)
    requires i <= j <= |calls| && line in AfterCalls(m, calls[..i]).dict
    ensures AfterCalls(m, calls[..j]).Find(line) == AfterCalls(m, calls[..i]).Find(line)
    decreases j
  {
    if i < j {
      StaysCached(m, calls, i, j - 1, line);
      LastCall(m, calls, j - 1);
    }
  }

  // ----- what the plain map is for -----

  /** The object of the last insert for `line`. */
  function LastEntered(ops: seq<Op>, line: int): Option<Obj> {
    if ops == [] then None else
    var op := ops[|ops| - 1];
    if op.Enter? && op.line == line then Some(op.code) else LastEntered(ops[..|ops| - 1], line)
  }

  /** When memory is granted, a line is found with the object inserted last, and line zero never. */
  lemma {:induction false} LastEnteredIsFound(ops: seq<Op>, line: int)
    requires forall i :: 0 <= i < |ops| && ops[i].Enter? ==> ops[i].granted
    ensures AfterOps(Model(map[], 0), ops).Find(line) == if line == 0 then None else LastEntered(ops, line)
  {
    if ops != [] {
      LastEnteredIsFound(ops[..|ops| - 1], line);
    }
  }

  /** Whether memory is granted or not, a line that is present stays, and is replaced by every insert for it. */
  lemma {:induction false} PresentLinesStay(m: Model, ops: seq<Op>, line: int)
    requires line in m.dict && line != 0
    ensures AfterOps(m, ops).Find(line) ==
            (if LastEntered(ops, line).Some? then LastEntered(ops, line) else m.Find(line))
  {
    if ops != [] {
      PresentLinesStay(m, ops[..|ops| - 1], line);
    }
  }

  /** Whether memory is granted or not, what is found was inserted for that line. */
  lemma {:induction false} FoundWasEntered(ops: seq<Op>, line: int) returns (i: nat)
    requires AfterOps(Model(map[], 0), ops).Find(line).Some?
    ensures i < |ops| && ops[i].Enter? && ops[i].line == line
    ensures Some(ops[i].code) == AfterOps(Model(map[], 0), ops).Find(line)
  {
    var before := ops[..|ops| - 1];
    var op := ops[|ops| - 1];
    if AfterOps(Model(map[], 0), before).Find(line) == AfterOps(Model(map[], 0), ops).Find(line) {
      i := FoundWasEntered(before, line);
    } else {
      i := |ops| - 1;
    }
  }

  /** The array is enlarged in steps of 64 entries, only when it is full. */
  lemma {:induction false} CapacityFits(ops: seq<Op>)
    ensures var m := AfterOps(Model(map[], 0), ops);
            m.capacity % 64 == 0 && |m.dict| <= m.capacity < |m.dict| + 64
  {
    if ops != [] {
      CapacityFits(ops[..|ops| - 1]);
    }
  }

  /** The calls with a frame kept by a traceback, that use object `o`. */
  ghost function Keepers(m: Model, calls: seq<Call>, o: Obj): set<nat> {
    set i: nat | i < |calls| && calls[i].framed && calls[i].traced && Used(m, calls, i) == Some(o)
  }

  lemma LastKeeper(m: Model, calls: seq<Call>, o: Obj)
    requires calls != []
    ensures var last := |calls| - 1;
            var rest := Keepers(m, calls[..last], o);
            && last !in rest
            && Keepers(m, calls, o) ==
               if calls[last].Keeps(AfterCalls(m, calls[..last]), o) then rest + {last} else rest
  {
    var last := |calls| - 1;
    var before := calls[..last];
    forall i: nat | i < last
      ensures i in Keepers(m, calls, o) <==> i in Keepers(m, before, o)
    {
      assert calls[i] == before[i] && before[..i] == calls[..i];
      assert Used(m, before, i) == Used(m, calls, i);
    }
    assert last in Keepers(m, calls, o) <==> calls[last].Keeps(AfterCalls(m, before), o);
  }

  /** The references left behind are counted by those calls; in particular there are none if no call is
      traced. */
  lemma {:induction false} KeptByKeepers(m: Model, calls: seq<Call>, o: Obj)
    ensures Kept(m, calls, o) == |Keepers(m, calls, o)|
  {
    if calls != [] {
      KeptByKeepers(m, calls[..|calls| - 1], o);
      LastKeeper(m, calls, o);
    }
  }
}
