/** What the parser makes of printed text, for every value whose keys need no escape. */
module JsonReread {
  import opened Common
  import opened JsonValue
  import opened JsonReader
  import opened JsonGrammar
  import opened JsonSoundness
  import opened JsonCompleteness
  import opened JsonPrinter

  // ----- what comes back -----

  /** A double comes back as the double that its trimmed text denotes, as an integer if no fraction is left, or
      not at all. */
  function RereadDouble(stod: Stod, t: PrintedDouble): Option<Json> {
    match t
    case Named(_) => None
    case Fixed(_, _, _) =>
      TrimmedText(t);
      NumeralValue(stod, Trimmed(t))
  }

  /** The value that reading printed text gives; `None` if it throws. */
  function Reread(stod: Stod, dtos: Dtos, v: Json): Option<Json>
    decreases v, 1
  {
    match v
    case Dbl(d) => RereadDouble(stod, dtos(d))
    case Arr(items) =>
      (match RereadItems(stod, dtos, items)
       case None => None
       case Some(vs) => Some(Arr(vs)))
    case Obj(ms) =>
      (match RereadMembers(stod, dtos, ms)
       case None => None
       case Some(ns) => Some(Obj(ns)))
    case _ => Some(v)
  }

  function RereadItems(stod: Stod, dtos: Dtos, items: seq<Json>): Option<seq<Json>>
    decreases items, 0
  {
    if items == [] then Some([]) else
    match Reread(stod, dtos, items[0])
    case None => None
    case Some(v) =>
      match RereadItems(stod, dtos, items[1..])
      case None => None
      case Some(vs) => Some([v] + vs)
  }

  function RereadMembers(stod: Stod, dtos: Dtos, ms: seq<Member>): Option<seq<Member>>
    decreases ms, 0
  {
    if ms == [] then Some([]) else
    match Reread(stod, dtos, ms[0].value)
    case None => None
    case Some(v) =>
      match RereadMembers(stod, dtos, ms[1..])
      case None => None
      case Some(ns) => Some([Member(ms[0].key, v)] + ns)
  }

  /** Every double is printed with a fraction that is not zero, from which `stod` gives that double again. */
  ghost predicate Survives(stod: Stod, dtos: Dtos, v: Json)
    decreases v, 1
  {
    match v
    case Dbl(d) =>
      && dtos(d).Fixed?
      && (exists i :: 0 <= i < |dtos(d).fraction| && dtos(d).fraction[i] != '0')
      && stod(TrimDouble(DoubleString(dtos(d)))) == Some(d)
    case Arr(items) => SurviveItems(stod, dtos, items)
    case Obj(ms) => SurviveMembers(stod, dtos, ms)
    case _ => true
  }

  ghost predicate SurviveItems(stod: Stod, dtos: Dtos, items: seq<Json>)
    decreases items, 0
  {
    items == [] || (Survives(stod, dtos, items[0]) && SurviveItems(stod, dtos, items[1..]))
  }

  ghost predicate SurviveMembers(stod: Stod, dtos: Dtos, ms: seq<Member>)
    decreases ms, 0
  {
    ms == [] || (Survives(stod, dtos, ms[0].value) && SurviveMembers(stod, dtos, ms[1..]))
  }

  /** A value comes back as itself exactly when all its doubles do. */
  lemma {:induction false} RereadSame(stod: Stod, dtos: Dtos, v: Json)
    ensures Reread(stod, dtos, v) == Some(v) <==> Survives(stod, dtos, v)
    decreases v, 1
  {
    match v
    case Dbl(d) => if dtos(d).Fixed? { TrimmedText(dtos(d)); }
    case Arr(items) => RereadSameItems(stod, dtos, items);
    case Obj(ms) => RereadSameMembers(stod, dtos, ms);
    case _ =>
  }

  lemma {:induction false} RereadSameItems(stod: Stod, dtos: Dtos, items: seq<Json>)
    ensures RereadItems(stod, dtos, items) == Some(items) <==> SurviveItems(stod, dtos, items)
    decreases items, 0
  {
    if items != [] {
      RereadSame(stod, dtos, items[0]);
      RereadSameItems(stod, dtos, items[1..]);
      Uncons(items, Reread(stod, dtos, items[0]), RereadItems(stod, dtos, items[1..]));
    }
  }

  lemma {:induction false} RereadSameMembers(stod: Stod, dtos: Dtos, ms: seq<Member>)
    ensures RereadMembers(stod, dtos, ms) == Some(ms) <==> SurviveMembers(stod, dtos, ms)
    decreases ms, 0
  {
    if ms != [] {
      RereadSame(stod, dtos, ms[0].value);
      RereadSameMembers(stod, dtos, ms[1..]);
      var r := Reread(stod, dtos, ms[0].value);
      Uncons(ms, if r.Some? then Some(Member(ms[0].key, r.value)) else None, RereadMembers(stod, dtos, ms[1..]));
    }
  }

  lemma Uncons<T>(s: seq<T>, head: Option<T>, tail: Option<seq<T>>)
    requires s != []
    ensures head.Some? && tail.Some? ==>
            ([head.value] + tail.value == s <==> head.value == s[0] && tail.value == s[1..])
  {
    if head.Some? && tail.Some? {
      var r := [head.value] + tail.value;
      assert r[0] == head.value && r[1..] == tail.value;
      assert s == [s[0]] + s[1..];
    }
  }

  // ----- reading strings and numbers -----

  lemma {:induction false} ReadsChars(s: string, acc: string, rest: string)
    ensures ReadChars(EscapeString(s) + ("\"" + rest), acc) == Done(acc + s, rest)
    decreases |s|
  {
    if s == "" {
      assert acc + s == acc;
      assert EscapeString(s) + ("\"" + rest) == "\"" + rest && ("\"" + rest)[1..] == rest;
    } else {
      var t := EscapeString(s[1..]) + ("\"" + rest);
      Assoc(EscapeChar(s[0]), EscapeString(s[1..]), "\"" + rest);
      ReadsChar(s[0], t, acc);
      ReadsChars(s[1..], acc + [s[0]], rest);
      assert acc + [s[0]] + s[1..] == acc + s;
    }
  }

  lemma ReadsChar(c: char, t: string, acc: string)
    ensures ReadChars(EscapeChar(c) + t, acc) == ReadChars(t, acc + [c])
  {
    var s := EscapeChar(c) + t;
    if c == '\"' || c == '\\' {
      assert s[2..] == t;
    } else {
      assert s[1..] == t;
    }
  }

  lemma {:induction false} PlainIsUnescaped(s: string)
    requires Plain(s)
    ensures EscapeString(s) == s
    decreases |s|
  {
    if s != "" {
      assert s[0] in s && forall c :: c in s[1..] ==> c in s;
      PlainIsUnescaped(s[1..]);
    }
  }

  lemma ReadsNumeral(stod: Stod, n: Numeral, rest: string)
    requires NumeralOk(n) && MayFollowNumeral(n, rest)
    ensures ReadValue(stod, NumeralText(n, "") + rest) ==
            match NumeralValue(stod, n) case Some(v) => Done(v, rest) case None => Fail
  {
    CompleteNumber(stod, n, rest);
    NumeralPrefix(n, rest);
  }

  /** `rest` does not continue a number without exponent. */
  predicate EndsNumber(rest: string) {
    rest != "" && !IsDigit(rest[0]) && rest[0] != '.' && rest[0] != 'e' && rest[0] != 'E'
  }

  lemma ReadsName(stod: Stod, name: string, rest: string)
    requires name == "inf" || name == "-inf" || name == "nan" || name == "-nan"
    ensures ReadValue(stod, name + rest) == Fail
  {
    var s := name + rest;
    assert SkipSpace(s) == s;
    if name[0] == '-' {
      assert s[1..] == name[1..] + rest;
      assert SkipDigits(s[1..]) == s[1..];
      assert s[..|s| - |s[1..]|] == "-";
    } else if name == "nan" {
      assert s[1] == 'a';
    }
  }

  lemma ReadsDouble(stod: Stod, t: PrintedDouble, rest: string)
    requires EndsNumber(rest)
    ensures ReadValue(stod, TrimDouble(DoubleString(t)) + rest) ==
            match RereadDouble(stod, t) case Some(v) => Done(v, rest) case None => Fail
  {
    match t
    case Named(name) => ReadsName(stod, name, rest);
    case Fixed(_, _, _) =>
      TrimmedText(t);
      ReadsNumeral(stod, Trimmed(t), rest);
  }

  lemma ReadsInt(stod: Stod, n: int, rest: string)
    requires InInt64(n) && EndsNumber(rest)
    ensures ReadValue(stod, IntText(n) + rest) == Done(Int(n), rest)
  {
    var d := Decimal(if n < 0 then -n else n);
    var numeral := Numeral(n < 0, d, None, None);
    assert d + "" == d;
    ReadsNumeral(stod, numeral, rest);
  }

  // ----- reading values -----

  function Pad(level: nat): string {
    Indent(level) + "  "
  }

  /** The end of a list or an object. */
  function Close(level: nat, bracket: string, rest: string): string {
    "\n" + (Indent(level) + (bracket + rest))
  }

  lemma CloseSkips(level: nat, bracket: string, rest: string)
    requires bracket == "]" || bracket == "}"
    ensures SkipSpace(Close(level, bracket, rest)) == bracket + rest && (bracket + rest)[1..] == rest
    ensures EndsNumber(Close(level, bracket, rest))
  {
    SkipsSpace("\n", Indent(level) + (bracket + rest));
    SkipsSpace(Indent(level), bracket + rest);
  }

  /** The first character of printed text is not whitespace and closes nothing. */
  lemma PrintStarts(dtos: Dtos, v: Json, level: nat, rest: string)
    ensures var s := Print(dtos, v, level) + rest; s != "" && !IsSpace(s[0]) && s[0] != ']' && s[0] != '}'
  {
    match v
    case Dbl(d) => DoubleStarts(dtos(d));
    case _ =>
  }

  lemma DoubleStarts(t: PrintedDouble)
    ensures var s := TrimDouble(DoubleString(t));
            s != "" && (s[0] == '-' || IsDigit(s[0]) || s[0] == 'i' || s[0] == 'n')
  {
    if t.Fixed? {
      TrimmedText(t);
      assert t.whole[0] in t.whole;
    }
  }

  /** Reading printed text in front of any rest that does not continue it gives what is to come back and stops
      where the text stops, or throws if nothing is to come back. */
  lemma {:induction false} ReadsPrinted(stod: Stod, dtos: Dtos, v: Json, level: nat, rest: string)
    requires Legal(v) && PlainKeys(v) && (v.Int? || v.Dbl? ==> EndsNumber(rest))
    ensures ReadValue(stod, Print(dtos, v, level) + rest) ==
            match Reread(stod, dtos, v) case Some(w) => Done(w, rest) case None => Fail
    decreases v, 2
  {
    match v
    case Null => CompleteWord(stod, Nil, rest);
    case Bool(b) => CompleteWord(stod, if b then True else False, rest);
    case Int(n) => ReadsInt(stod, n, rest);
    case Dbl(d) => ReadsDouble(stod, dtos(d), rest);
    case Str(s) => ReadsString(stod, s, rest);
    case Arr(items) => ReadsArray(stod, dtos, items, level, rest);
    case Obj(ms) => ReadsObject(stod, dtos, ms, level, rest);
  }

  lemma ReadsString(stod: Stod, s: string, rest: string)
    ensures ReadValue(stod, "\"" + EscapeString(s) + "\"" + rest) == Done(Str(s), rest)
  {
    var e := EscapeString(s);
    assert "\"" + e + "\"" + rest == "\"" + (e + ("\"" + rest));
    CompleteExpect("", '\"', e + ("\"" + rest));
    assert "" + ("\"" + (e + ("\"" + rest))) == "\"" + (e + ("\"" + rest));
    ReadsChars(s, "", rest);
    assert "" + s == s;
  }

  lemma BracketText(open: string, inner: string, level: nat, bracket: string, rest: string)
    ensures open + "\n" + inner + "\n" + Indent(level) + bracket + rest ==
            open + ("\n" + (inner + Close(level, bracket, rest)))
  {
  }

  lemma ArrayText(dtos: Dtos, items: seq<Json>, level: nat, rest: string)
    ensures Print(dtos, Arr(items), level) + rest ==
            "[" + ("\n" + (PrintItems(dtos, items, level, true) + Close(level, "]", rest)))
  {
    assert "[" + "\n" == "[\n";
    BracketText("[", PrintItems(dtos, items, level, true), level, "]", rest);
  }

  lemma StartsArray(stod: Stod, s: string)
    requires s != "" && s[0] == '['
    ensures ReadValue(stod, s) == ReadArray(stod, s)
  {
    assert SkipSpace(s) == s;
  }

  lemma OpensArray(stod: Stod, inner: string)
    ensures ReadArray(stod, "[" + ("\n" + inner)) ==
            var u := SkipSpace(inner);
            if u == "" then Fail else if u[0] == ']' then Done(Arr([]), u[1..]) else ReadItems(stod, u, [])
  {
    var s := "[" + ("\n" + inner);
    assert "" + s == s;
    CompleteExpect("", '[', "\n" + inner);
    assert SkipSpace("\n" + inner) == SkipSpace(inner) by { assert ("\n" + inner)[1..] == inner; }
  }

  /** The text of an array is its opening bracket and the text of its items. */
  lemma EntersArray(stod: Stod, dtos: Dtos, items: seq<Json>, level: nat, rest: string)
    ensures var inner := PrintItems(dtos, items, level, true) + Close(level, "]", rest);
            ReadValue(stod, Print(dtos, Arr(items), level) + rest) ==
            if items == [] then Done(Arr([]), rest) else ReadItems(stod, inner, [])
  {
    var inner := PrintItems(dtos, items, level, true) + Close(level, "]", rest);
    ArrayText(dtos, items, level, rest);
    StartsArray(stod, "[" + ("\n" + inner));
    OpensArray(stod, inner);
    if items == [] {
      CloseSkips(level, "]", rest);
      assert inner == Close(level, "]", rest);
    } else {
      ItemsStart(dtos, items, level, Close(level, "]", rest));
      var ws := SpaceSkipped(inner);
      ReadValueSkips(stod, ws, SkipSpace(inner));
    }
  }

  lemma {:induction false} ReadsArray(stod: Stod, dtos: Dtos, items: seq<Json>, level: nat, rest: string)
    requires AllLegal(items) && PlainKeysItems(items)
    ensures ReadValue(stod, Print(dtos, Arr(items), level) + rest) ==
            match Reread(stod, dtos, Arr(items)) case Some(w) => Done(w, rest) case None => Fail
    decreases items, 2
  {
    EntersArray(stod, dtos, items, level, rest);
    if items != [] {
      ReadsItems(stod, dtos, items, level, [], rest);
      var r := RereadItems(stod, dtos, items);
      if r.Some? { assert [] + r.value == r.value; }
    }
  }

  /** The text of the items after the first one, up to the end of the list. */
  function LaterItems(dtos: Dtos, items: seq<Json>, level: nat, close: string): string {
    PrintItems(dtos, items, level, false) + close
  }

  lemma FirstItem(dtos: Dtos, items: seq<Json>, level: nat, close: string)
    requires items != []
    ensures PrintItems(dtos, items, level, true) + close ==
            Pad(level) + (Print(dtos, items[0], level + 1) + LaterItems(dtos, items[1..], level, close))
    ensures LaterItems(dtos, items, level, close) == "," + ("\n" + (PrintItems(dtos, items, level, true) + close))
  {
    var line, later := Pad(level) + Print(dtos, items[0], level + 1), PrintItems(dtos, items[1..], level, false);
    assert "" + line == line;
    Assoc(line, later, close);
    Assoc(Pad(level), Print(dtos, items[0], level + 1), later + close);
    AfterComma(line, later, close);
  }

  lemma AfterComma(line: string, later: string, close: string)
    ensures ",\n" + line + later + close == "," + ("\n" + (line + later + close))
  {
    assert ",\n" == "," + "\n";
  }

  lemma ItemsStart(dtos: Dtos, items: seq<Json>, level: nat, close: string)
    requires items != []
    ensures var t := SkipSpace(PrintItems(dtos, items, level, true) + close); t != "" && t[0] != ']'
  {
    FirstItem(dtos, items, level, close);
    var later := LaterItems(dtos, items[1..], level, close);
    PrintStarts(dtos, items[0], level + 1, later);
    SkipsSpace(Pad(level), Print(dtos, items[0], level + 1) + later);
  }

  /** After an item comes the end of the list, or a comma and the other items. */
  lemma LaterStarts(dtos: Dtos, items: seq<Json>, level: nat, rest: string)
    ensures var close := Close(level, "]", rest);
            var later := LaterItems(dtos, items, level, close);
            && EndsNumber(later)
            && (items == [] ==> SkipSpace(later) == "]" + rest && ("]" + rest)[1..] == rest)
            && (items != [] ==> SkipSpace(later) == later && later[0] == ',' &&
                                later[1..] == "\n" + (PrintItems(dtos, items, level, true) + close))
  {
    var close := Close(level, "]", rest);
    CloseSkips(level, "]", rest);
    if items == [] {
      assert LaterItems(dtos, items, level, close) == close;
    } else {
      FirstItem(dtos, items, level, close);
    }
  }

  lemma {:induction false} ReadsFirstItem(stod: Stod, dtos: Dtos, items: seq<Json>, level: nat, close: string)
    requires items != [] && Legal(items[0]) && PlainKeys(items[0])
    requires EndsNumber(LaterItems(dtos, items[1..], level, close))
    ensures ReadValue(stod, PrintItems(dtos, items, level, true) + close) ==
            match Reread(stod, dtos, items[0])
            case Some(v) => Done(v, LaterItems(dtos, items[1..], level, close))
            case None => Fail
    decreases items, 0
  {
    var later := LaterItems(dtos, items[1..], level, close);
    FirstItem(dtos, items, level, close);
    ReadValueSkips(stod, Pad(level), Print(dtos, items[0], level + 1) + later);
    ReadsPrinted(stod, dtos, items[0], level + 1, later);
  }

  lemma ReadItemsSkips(stod: Stod, s: string, acc: seq<Json>)
    ensures ReadItems(stod, "\n" + s, acc) == ReadItems(stod, s, acc)
  {
    ReadValueSkips(stod, "\n", s);
  }

  lemma {:induction false} ReadsItems(
    stod: Stod, dtos: Dtos, items: seq<Json>, level: nat,
    acc: seq<Json>, rest: string)
    requires items != [] && AllLegal(items) && PlainKeysItems(items)
    ensures ReadItems(stod, PrintItems(dtos, items, level, true) + Close(level, "]", rest), acc) ==
            match RereadItems(stod, dtos, items) case Some(vs) => Done(Arr(acc + vs), rest) case None => Fail
    decreases items, 1
  {
    var close := Close(level, "]", rest);
    LaterStarts(dtos, items[1..], level, rest);
    ReadsFirstItem(stod, dtos, items, level, close);
    var r, vs := Reread(stod, dtos, items[0]), RereadItems(stod, dtos, items[1..]);
    if r.Some? {
      if items[1..] == [] {
        assert [r.value] + [] == [r.value];
      } else {
        ReadItemsSkips(stod, PrintItems(dtos, items[1..], level, true) + close, acc + [r.value]);
        ReadsItems(stod, dtos, items[1..], level, acc + [r.value], rest);
        if vs.Some? { Assoc(acc, [r.value], vs.value); }
      }
    }
  }

  // ----- objects -----

  lemma ObjectText(dtos: Dtos, ms: seq<Member>, level: nat, rest: string)
    ensures Print(dtos, Obj(ms), level) + rest ==
            "{" + ("\n" + (PrintMembers(dtos, ms, level, true) + Close(level, "}", rest)))
  {
    assert "{" + "\n" == "{\n";
    BracketText("{", PrintMembers(dtos, ms, level, true), level, "}", rest);
  }

  lemma StartsObject(stod: Stod, s: string)
    requires s != "" && s[0] == '{'
    ensures ReadValue(stod, s) == ReadObject(stod, s)
  {
    assert SkipSpace(s) == s;
  }

  lemma OpensObject(stod: Stod, inner: string)
    ensures ReadObject(stod, "{" + ("\n" + inner)) ==
            var u := SkipSpace(inner);
            if u == "" then Fail else if u[0] == '}' then Done(Obj([]), u[1..]) else ReadMembers(stod, u, [])
  {
    var s := "{" + ("\n" + inner);
    assert "" + s == s;
    CompleteExpect("", '{', "\n" + inner);
    assert SkipSpace("\n" + inner) == SkipSpace(inner) by { assert ("\n" + inner)[1..] == inner; }
  }

  /** The text of an object is its opening bracket and the text of its members. */
  lemma EntersObject(stod: Stod, dtos: Dtos, ms: seq<Member>, level: nat, rest: string)
    ensures var inner := PrintMembers(dtos, ms, level, true) + Close(level, "}", rest);
            ReadValue(stod, Print(dtos, Obj(ms), level) + rest) ==
            if ms == [] then Done(Obj([]), rest) else ReadMembers(stod, inner, [])
  {
    var inner := PrintMembers(dtos, ms, level, true) + Close(level, "}", rest);
    ObjectText(dtos, ms, level, rest);
    StartsObject(stod, "{" + ("\n" + inner));
    OpensObject(stod, inner);
    if ms == [] {
      CloseSkips(level, "}", rest);
      assert inner == Close(level, "}", rest);
    } else {
      MembersStart(dtos, ms, level, Close(level, "}", rest));
      ReadMembersSkips(stod, inner, []);
    }
  }

  lemma {:induction false} ReadsObject(stod: Stod, dtos: Dtos, ms: seq<Member>, level: nat, rest: string)
    requires Sorted(ms) && MembersLegal(ms) && PlainKeysMembers(ms)
    ensures ReadValue(stod, Print(dtos, Obj(ms), level) + rest) ==
            match Reread(stod, dtos, Obj(ms)) case Some(w) => Done(w, rest) case None => Fail
    decreases ms, 2
  {
    EntersObject(stod, dtos, ms, level, rest);
    if ms != [] {
      assert [] + ms == ms;
      ReadsMembers(stod, dtos, ms, level, [], rest);
      var r := RereadMembers(stod, dtos, ms);
      if r.Some? { assert [] + r.value == r.value; }
    }
  }

  function LaterMembers(dtos: Dtos, ms: seq<Member>, level: nat, close: string): string {
    PrintMembers(dtos, ms, level, false) + close
  }

  lemma FirstMember(dtos: Dtos, ms: seq<Member>, level: nat, close: string)
    requires ms != []
    ensures PrintMembers(dtos, ms, level, true) + close ==
            MemberLine(dtos, ms[0], level, LaterMembers(dtos, ms[1..], level, close))
    ensures LaterMembers(dtos, ms, level, close) == "," + ("\n" + (PrintMembers(dtos, ms, level, true) + close))
  {
    var line, later := PrintMember(dtos, ms[0], level), PrintMembers(dtos, ms[1..], level, false);
    assert "" + line == line;
    Assoc(line, later, close);
    MemberText(level, ms[0].key, Print(dtos, ms[0].value, level + 1), later + close);
    AfterComma(line, later, close);
  }

  function MemberLine(dtos: Dtos, m: Member, level: nat, later: string): string {
    Pad(level) + ("\"" + (m.key + ("\"" + (":" + (" " + (Print(dtos, m.value, level + 1) + later))))))
  }

  lemma MemberText(level: nat, key: string, p: string, u: string)
    ensures (Indent(level) + "  \"" + key + "\": " + p) + u ==
            Pad(level) + ("\"" + (key + ("\"" + (":" + (" " + (p + u))))))
  {
    assert "  \"" == "  " + "\"";
    assert "\": " == "\"" + ":" + " ";
  }

  lemma MembersStart(dtos: Dtos, ms: seq<Member>, level: nat, close: string)
    requires ms != []
    ensures var t := SkipSpace(PrintMembers(dtos, ms, level, true) + close);
            t != "" && t[0] == '\"' && SkipSpace(t) == t
  {
    FirstMember(dtos, ms, level, close);
    var value := Print(dtos, ms[0].value, level + 1) + LaterMembers(dtos, ms[1..], level, close);
    SkipsSpace(Pad(level), "\"" + (ms[0].key + ("\"" + (":" + (" " + value)))));
  }

  lemma ReadMembersSkips(stod: Stod, s: string, acc: seq<Member>)
    ensures ReadMembers(stod, SkipSpace(s), acc) == ReadMembers(stod, s, acc)
  {
    assert SkipSpace(SkipSpace(s)) == SkipSpace(s);
    assert ReadString(SkipSpace(s)) == ReadString(s);
  }

  /** Key, colon and value of one member. */
  lemma {:induction false} ReadsMember(stod: Stod, dtos: Dtos, m: Member, level: nat, later: string)
    requires Legal(m.value) && PlainKeys(m.value) && Plain(m.key) && EndsNumber(later)
    ensures var s := MemberLine(dtos, m, level, later);
            var t := ":" + (" " + (Print(dtos, m.value, level + 1) + later));
            var w := " " + (Print(dtos, m.value, level + 1) + later);
            && ReadString(s) == Done(m.key, t) && Expect(':', t) == Some(w)
            && ReadValue(stod, w) == match Reread(stod, dtos, m.value) case Some(v) => Done(v, later) case None => Fail
    decreases m, 3
  {
    var value := Print(dtos, m.value, level + 1) + later;
    var t := ":" + (" " + value);
    PlainIsUnescaped(m.key);
    CompleteExpect(Pad(level), '\"', m.key + ("\"" + t));
    ReadsChars(m.key, "", t);
    assert "" + m.key == m.key;
    CompleteExpect("", ':', " " + value);
    assert "" + t == t;
    ReadValueSkips(stod, " ", value);
    ReadsPrinted(stod, dtos, m.value, level + 1, later);
  }

  lemma SortedByKeys(a: seq<Member>, b: seq<Member>)
    requires Sorted(a) && |a| == |b| && forall i :: 0 <= i < |a| ==> a[i].key == b[i].key
    ensures Sorted(b)
  {
  }

  lemma PutNext(acc: seq<Member>, ms: seq<Member>, v: Json)
    requires ms != [] && Sorted(acc + ms)
    ensures var next := acc + [Member(ms[0].key, v)];
            Put(acc, ms[0].key, v) == next && Sorted(next + ms[1..])
  {
    var m := Member(ms[0].key, v);
    var next := acc + [m];
    SortedByKeys(acc + ms, next + ms[1..]);
    assert next == (next + ms[1..])[..|next|];
    PutAtEnd(acc, m);
  }

  lemma LaterMembersStart(dtos: Dtos, ms: seq<Member>, level: nat, rest: string)
    ensures var close := Close(level, "}", rest);
            var later := LaterMembers(dtos, ms, level, close);
            && EndsNumber(later)
            && (ms == [] ==> SkipSpace(later) == "}" + rest && ("}" + rest)[1..] == rest)
            && (ms != [] ==> SkipSpace(later) == later && later[0] == ',' &&
                             later[1..] == "\n" + (PrintMembers(dtos, ms, level, true) + close))
  {
    var close := Close(level, "}", rest);
    CloseSkips(level, "}", rest);
    if ms == [] {
      assert LaterMembers(dtos, ms, level, close) == close;
    } else {
      FirstMember(dtos, ms, level, close);
    }
  }

  /** One turn of the object loop, once key and colon are read. */
  lemma MemberTurn(stod: Stod, s: string, acc: seq<Member>, key: string, t: string, w: string)
    requires ReadString(s) == Done(key, t) && Expect(':', t) == Some(w)
    ensures ReadValue(stod, w).Fail? ==> ReadMembers(stod, s, acc) == Fail
    ensures ReadValue(stod, w).Done? ==>
            var next, u := Put(acc, key, ReadValue(stod, w).value), SkipSpace(ReadValue(stod, w).rest);
            && (u != "" && u[0] == ',' ==> ReadMembers(stod, s, acc) == ReadMembers(stod, u[1..], next))
            && (u != "" && u[0] == '}' ==> ReadMembers(stod, s, acc) == Done(Obj(next), u[1..]))
  {
  }

  /** The turn of the object loop that reads the first member. */
  lemma {:induction false} ReadsFirstMember(
    stod: Stod, dtos: Dtos, ms: seq<Member>, level: nat,
    acc: seq<Member>, rest: string)
    requires ms != [] && Legal(ms[0].value) && PlainKeys(ms[0].value) && Plain(ms[0].key) && Sorted(acc + ms)
    ensures var s := PrintMembers(dtos, ms, level, true) + Close(level, "}", rest);
            match Reread(stod, dtos, ms[0].value)
            case None => ReadMembers(stod, s, acc) == Fail
            case Some(v) =>
              var next := acc + [Member(ms[0].key, v)];
              && Sorted(next + ms[1..])
              && ReadMembers(stod, s, acc) ==
                 if ms[1..] == [] then Done(Obj(next), rest)
                 else ReadMembers(stod, "\n" + (PrintMembers(dtos, ms[1..], level, true) + Close(level, "}", rest)),
                                  next)
    decreases ms, 0
  {
    var close := Close(level, "}", rest);
    var later := LaterMembers(dtos, ms[1..], level, close);
    LaterMembersStart(dtos, ms[1..], level, rest);
    FirstMember(dtos, ms, level, close);
    ReadsMember(stod, dtos, ms[0], level, later);
    var value := " " + (Print(dtos, ms[0].value, level + 1) + later);
    MemberTurn(stod, MemberLine(dtos, ms[0], level, later), acc, ms[0].key, ":" + value, value);
    var r := Reread(stod, dtos, ms[0].value);
    if r.Some? { PutNext(acc, ms, r.value); }
  }

  lemma {:induction false} ReadsMembers(
    stod: Stod, dtos: Dtos, ms: seq<Member>, level: nat,
    acc: seq<Member>, rest: string)
    requires ms != [] && MembersLegal(ms) && PlainKeysMembers(ms) && Sorted(acc + ms)
    ensures ReadMembers(stod, PrintMembers(dtos, ms, level, true) + Close(level, "}", rest), acc) ==
            match RereadMembers(stod, dtos, ms) case Some(ns) => Done(Obj(acc + ns), rest) case None => Fail
    decreases ms, 1
  {
    ReadsFirstMember(stod, dtos, ms, level, acc, rest);
    var r, ns := Reread(stod, dtos, ms[0].value), RereadMembers(stod, dtos, ms[1..]);
    if r.Some? {
      var m := Member(ms[0].key, r.value);
      if ms[1..] == [] {
        assert [m] + [] == [m];
      } else {
        var more := PrintMembers(dtos, ms[1..], level, true) + Close(level, "}", rest);
        SkipsSpace("\n", more);
        ReadMembersSkips(stod, "\n" + more, acc + [m]);
        ReadMembersSkips(stod, more, acc + [m]);
        ReadsMembers(stod, dtos, ms[1..], level, acc + [m], rest);
        if ns.Some? { Assoc(acc, [m], ns.value); }
      }
    }
  }
}
