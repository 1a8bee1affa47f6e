/** Sorted tables of code objects, the map such a table stands for, and reference counts. */
module CodeTable {
  import opened Common

  /** The identity of a code object. */
  type Obj = nat

  datatype Entry = Entry(line: int, code: Obj)

  ghost predicate Sorted(es: seq<Entry>) {
    forall i, j :: 0 <= i < j < |es| ==> es[i].line < es[j].line
  }

  ghost predicate NonZero(es: seq<Entry>) {
    forall i :: 0 <= i < |es| ==> es[i].line != 0
  }

  /** Entries before `pos` are for smaller lines and the others are not. */
  ghost predicate SplitsAt(es: seq<Entry>, pos: nat, line: int) {
    && pos <= |es|
    && (forall i :: 0 <= i < pos ==> es[i].line < line)
    && (forall i :: pos <= i < |es| ==> line <= es[i].line)
  }

  // ----- the map of a table -----

  ghost function Dict(es: seq<Entry>): map<int, Obj> {
    if es == [] then map[] else Dict(es[1..])[es[0].line := es[0].code]
  }

  /** The table with `code` stored under `line`. */
  ghost function Store(es: seq<Entry>, line: int, code: Obj): seq<Entry> {
    if es == [] then [Entry(line, code)]
    else if es[0].line < line then [es[0]] + Store(es[1..], line, code)
    else if es[0].line == line then [Entry(line, code)] + es[1..]
    else [Entry(line, code)] + es
  }

  lemma {:induction false} StoreIsUpdate(es: seq<Entry>, line: int, code: Obj)
    ensures Dict(Store(es, line, code)) == Dict(es)[line := code]
  {
    var r := Store(es, line, code);
    if es == [] {
      assert r[1..] == [];
    } else if es[0].line < line {
      StoreIsUpdate(es[1..], line, code);
      assert r[1..] == Store(es[1..], line, code);
    } else if es[0].line == line {
      assert r[1..] == es[1..];
    } else {
      assert r[1..] == es;
    }
  }

  lemma {:induction false} StoreKeepsSorted(es: seq<Entry>, line: int, code: Obj)
    requires Sorted(es)
    ensures Sorted(Store(es, line, code))
    ensures forall e :: e in Store(es, line, code) ==> e == Entry(line, code) || e in es
  {
    if es != [] && es[0].line < line {
      StoreKeepsSorted(es[1..], line, code);
      var r := Store(es[1..], line, code);
      forall j | 0 <= j < |r|
        ensures es[0].line < r[j].line
      {
        assert r[j] in r;
      }
    }
  }

  lemma StoreKeepsNonZero(es: seq<Entry>, line: int, code: Obj)
    requires Sorted(es) && NonZero(es) && line != 0
    ensures NonZero(Store(es, line, code))
  {
  }

  lemma {:induction false} LookupAt(es: seq<Entry>, pos: nat, line: int)
    requires Sorted(es) && SplitsAt(es, pos, line)
    ensures line in Dict(es) <==> pos < |es| && es[pos].line == line
    ensures line in Dict(es) ==> Dict(es)[line] == es[pos].code
  {
    if es != [] {
      if pos > 0 {
        LookupAt(es[1..], pos - 1, line);
      } else if es[0].line != line {
        LookupAt(es[1..], 0, line);
      }
    }
  }

  /** A sorted table has as many entries as its map has lines. */
  lemma {:induction false} DictSize(es: seq<Entry>)
    requires Sorted(es)
    ensures |Dict(es)| == |es|
  {
    if es != [] {
      DictSize(es[1..]);
      if es[0].line in Dict(es[1..]) {
        DictLines(es[1..], es[0].line);
      }
      assert Dict(es).Keys == Dict(es[1..]).Keys + {es[0].line};
    }
  }

  lemma {:induction false} DictLines(es: seq<Entry>, line: int)
    requires line in Dict(es)
    ensures exists i :: 0 <= i < |es| && es[i].line == line
  {
    if es[0].line != line {
      DictLines(es[1..], line);
      var i :| 0 <= i < |es[1..]| && es[1..][i].line == line;
      assert es[i + 1].line == line;
    }
  }

  lemma {:induction false} InsertIsStore(es: seq<Entry>, pos: nat, line: int, code: Obj)
    requires Sorted(es) && SplitsAt(es, pos, line) && (pos < |es| ==> es[pos].line != line)
    ensures es[..pos] + [Entry(line, code)] + es[pos..] == Store(es, line, code)
    decreases pos
  {
    if pos > 0 {
      InsertIsStore(es[1..], pos - 1, line, code);
      assert es[..pos] == [es[0]] + es[1..][..pos - 1];
      assert es[pos..] == es[1..][pos - 1..];
    } else {
      assert es[..0] + [Entry(line, code)] + es[0..] == [Entry(line, code)] + es;
    }
  }

  lemma {:induction false} ReplaceIsStore(es: seq<Entry>, pos: nat, line: int, code: Obj)
    requires Sorted(es) && pos < |es| && es[pos].line == line
    ensures es[pos := Entry(line, code)] == Store(es, line, code)
    decreases pos
  {
    if pos > 0 {
      ReplaceIsStore(es[1..], pos - 1, line, code);
      assert es[0].line < es[pos].line;
      assert es[pos := Entry(line, code)] == [es[0]] + es[1..][pos - 1 := Entry(line, code)];
    }
  }

  // ----- reference counts -----

  /** Entries that hold object `o`. */
  ghost function Stored(es: seq<Entry>, o: Obj): nat {
    if es == [] then 0 else (if es[0].code == o then 1 else 0) + Stored(es[1..], o)
  }

  function Refs(refs: map<Obj, int>, o: Obj): int {
    if o in refs then refs[o] else 0
  }

  function Bump(refs: map<Obj, int>, o: Obj, delta: int): (r: map<Obj, int>)
    ensures forall p :: Refs(r, p) == Refs(refs, p) + if p == o then delta else 0
  {
    refs[o := Refs(refs, o) + delta]
  }

  /** Every object has one reference for each entry that stores it and one for each holder outside. */
  ghost predicate Owned(es: seq<Entry>, refs: map<Obj, int>, held: map<Obj, int>) {
    forall o :: Refs(refs, o) == Stored(es, o) + Refs(held, o)
  }

  lemma {:induction false} StoreCounts(es: seq<Entry>, line: int, code: Obj, o: Obj)
    requires Sorted(es)
    ensures Stored(Store(es, line, code), o) ==
            Stored(es, o) + (if o == code then 1 else 0)
            - (if line in Dict(es) && Dict(es)[line] == o then 1 else 0)
  {
    var r := Store(es, line, code);
    if es == [] {
      assert r[1..] == [];
    } else if es[0].line < line {
      StoreCounts(es[1..], line, code, o);
      assert r[1..] == Store(es[1..], line, code);
    } else if es[0].line == line {
      assert r[1..] == es[1..];
    } else {
      assert r[1..] == es;
      LookupAt(es, 0, line);
    }
  }

  /** The counts after an insert: a new entry takes a reference; a replaced entry gives up that of the old
      object and takes none for the new one. */
  ghost function RefsAfterStore(es: seq<Entry>, refs: map<Obj, int>, line: int, code: Obj): map<Obj, int> {
    if line in Dict(es) then Bump(refs, Dict(es)[line], -1) else Bump(refs, code, 1)
  }

  /** Storing keeps every entry owned exactly when the line was not in the table. */
  lemma StoreKeepsOwnership(es: seq<Entry>, refs: map<Obj, int>, held: map<Obj, int>, line: int, code: Obj)
    requires Sorted(es) && Owned(es, refs, held)
    ensures Owned(Store(es, line, code), RefsAfterStore(es, refs, line, code), held) <==> line !in Dict(es)
  {
    var r, refs' := Store(es, line, code), RefsAfterStore(es, refs, line, code);
    forall o
      ensures Stored(r, o) == Stored(es, o) + (if o == code then 1 else 0)
                              - (if line in Dict(es) && Dict(es)[line] == o then 1 else 0)
    {
      StoreCounts(es, line, code, o);
    }
    if line in Dict(es) {
      assert Refs(refs', code) != Stored(r, code) + Refs(held, code);
    }
  }

  lemma {:induction false} ZeroIsAbsent(es: seq<Entry>)
    requires NonZero(es)
    ensures 0 !in Dict(es)
  {
    if es != [] {
      ZeroIsAbsent(es[1..]);
    }
  }

  /** A reference taken or given up by a holder outside leaves the entries owned. */
  lemma HolderKeepsOwnership(es: seq<Entry>, refs: map<Obj, int>, held: map<Obj, int>, o: Obj, delta: int)
    requires Owned(es, refs, held)
    ensures Owned(es, Bump(refs, o, delta), Bump(held, o, delta))
  {
  }
}
