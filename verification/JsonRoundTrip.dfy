/** Exactly which values survive printing and parsing. */
module JsonRoundTrip {
  import opened Common
  import opened JsonValue
  import opened JsonReader
  import opened JsonGrammar
  import opened JsonSoundness
  import opened JsonCompleteness
  import opened JsonPrinter
  import opened JsonReread

  /** Printed text, followed by anything that cannot continue a number, is read back as the value and
      the reader stops where the printed text stops. */
  lemma PrintedTextIsReadBack(stod: Stod, dtos: Dtos, v: Json, level: nat, rest: string)
    requires Legal(v) && PlainKeys(v) && Survives(stod, dtos, v) && (v.Int? || v.Dbl? ==> EndsNumber(rest))
    ensures ReadValue(stod, Print(dtos, v, level) + rest) == Done(v, rest)
    ensures exists n :: Derives(stod, n, v, Print(dtos, v, level) + rest, rest)
  {
    ReadsPrinted(stod, dtos, v, level, rest);
    RereadSame(stod, dtos, v);
    ReadValueIffGrammar(stod, Print(dtos, v, level) + rest, v, rest);
  }

  /** Every 64-bit integer is read back exactly when a character follows that does not continue it. */
  lemma IntegerRoundTrip(stod: Stod, n: int, rest: string)
    requires InInt64(n) && EndsNumber(rest)
    ensures ReadNumber(stod, IntText(n) + rest) == Done(Int(n), rest)
  {
    ReadsInt(stod, n, rest);
    var s := IntText(n) + rest;
    assert SkipSpace(s) == s && (s[0] == '-' || IsDigit(s[0]));
  }

  /** An integer text is accepted exactly when a character follows it and it fits in 64 bits. */
  lemma IntegerTextAccepted(stod: Stod, negative: bool, digits: string, rest: string)
    requires digits != "" && AllDigits(digits)
    requires rest != "" ==> EndsNumber(rest)
    ensures var i := Signed(negative, DigitsValue(digits));
            ReadNumber(stod, SignText(negative, digits + rest)) ==
            if rest != "" && InInt64(i) then Done(Int(i), rest) else Fail
  {
    var n := Numeral(negative, digits, None, None);
    if rest == "" {
      SkipsDigits(digits, rest);
      assert negative ==> SignText(negative, digits + rest)[1..] == digits + rest;
    } else {
      CompleteNumber(stod, n, rest);
    }
  }

  // ----- counting backslashes -----

  function Count(c: char, s: string): nat {
    if s == "" then 0 else (if s[0] == c then 1 else 0) + Count(c, s[1..])
  }

  lemma {:induction false} CountConcat(c: char, s: string, t: string)
    ensures Count(c, s + t) == Count(c, s) + Count(c, t)
  {
    if s == "" {
      assert s + t == t;
    } else {
      assert (s + t)[1..] == s[1..] + t;
      CountConcat(c, s[1..], t);
    }
  }

  lemma {:induction false} CountIsZero(c: char, s: string)
    ensures Count(c, s) == 0 <==> c !in s
  {
    if s != "" {
      CountIsZero(c, s[1..]);
      assert s == [s[0]] + s[1..];
    }
  }

  /** Backslashes in a text. */
  function Slashes(s: string): nat {
    Count('\\', s)
  }

  /** Backslashes needed to write a string inside quotation marks. */
  function StringCost(s: string): nat {
    Count('\"', s) + 2 * Count('\\', s)
  }

  function Cost(v: Json): nat
    decreases v, 1
  {
    match v
    case Str(s) => StringCost(s)
    case Arr(items) => ItemsCost(items)
    case Obj(ms) => MembersCost(ms)
    case _ => 0
  }

  function ItemsCost(items: seq<Json>): nat
    decreases items, 0
  {
    if items == [] then 0 else Cost(items[0]) + ItemsCost(items[1..])
  }

  function MembersCost(ms: seq<Member>): nat
    decreases ms, 0
  {
    if ms == [] then 0 else StringCost(ms[0].key) + Cost(ms[0].value) + MembersCost(ms[1..])
  }

  /** Backslashes that printing leaves out because keys are not escaped. */
  function Unpaid(v: Json): nat
    decreases v, 1
  {
    match v
    case Arr(items) => ItemsUnpaid(items)
    case Obj(ms) => MembersUnpaid(ms)
    case _ => 0
  }

  function ItemsUnpaid(items: seq<Json>): nat
    decreases items, 0
  {
    if items == [] then 0 else Unpaid(items[0]) + ItemsUnpaid(items[1..])
  }

  function MembersUnpaid(ms: seq<Member>): nat
    decreases ms, 0
  {
    if ms == [] then 0 else
    Count('\"', ms[0].key) + Count('\\', ms[0].key) + Unpaid(ms[0].value) + MembersUnpaid(ms[1..])
  }

  lemma {:induction false} NothingUnpaid(v: Json)
    ensures Unpaid(v) == 0 <==> PlainKeys(v)
    decreases v, 1
  {
    match v
    case Arr(items) => NothingUnpaidItems(items);
    case Obj(ms) => NothingUnpaidMembers(ms);
    case _ =>
  }

  lemma {:induction false} NothingUnpaidItems(items: seq<Json>)
    ensures ItemsUnpaid(items) == 0 <==> PlainKeysItems(items)
    decreases items, 0
  {
    if items != [] {
      NothingUnpaid(items[0]);
      NothingUnpaidItems(items[1..]);
    }
  }

  lemma {:induction false} NothingUnpaidMembers(ms: seq<Member>)
    ensures MembersUnpaid(ms) == 0 <==> PlainKeysMembers(ms)
    decreases ms, 0
  {
    if ms != [] {
      NothingUnpaid(ms[0].value);
      NothingUnpaidMembers(ms[1..]);
      var k := ms[0].key;
      CountIsZero('\"', k);
      CountIsZero('\\', k);
    }
  }

  // ----- printed text has the backslashes of the value, less the unpaid ones -----

  lemma {:induction false} EscapeSlashes(s: string)
    ensures Slashes(EscapeString(s)) == StringCost(s)
  {
    if s != "" {
      EscapeSlashes(s[1..]);
      CountConcat('\\', EscapeChar(s[0]), EscapeString(s[1..]));
    }
  }

  lemma NoSlashes(s: string)
    requires AllDigits(s) || AllSpace(s)
    ensures Slashes(s) == 0
  {
    CountIsZero('\\', s);
  }

  lemma DoubleSlashes(t: PrintedDouble)
    ensures Slashes(TrimDouble(DoubleString(t))) == 0
  {
    var s := DoubleString(t);
    CountIsZero('\\', TrimDouble(s));
    if t.Fixed? {
      assert '.' in s && '\\' !in s;
      var _ := TrimDropsZeros(s);
    }
  }

  /** Three texts written one after the other. */
  lemma Slashes3(a: string, b: string, c: string)
    ensures Slashes(a + b + c) == Slashes(a) + Slashes(b) + Slashes(c)
  {
    CountConcat('\\', a + b, c);
    CountConcat('\\', a, b);
  }

  lemma BracketSlashes(open: string, inner: string, level: nat, close: string)
    ensures Slashes(open + inner + "\n" + Indent(level) + close) == Slashes(open) + Slashes(inner) + Slashes(close)
  {
    NoSlashes(Indent(level));
    Slashes3(open + inner + "\n", Indent(level), close);
    Slashes3(open, inner, "\n");
  }

  lemma {:induction false} PrintSlashes(dtos: Dtos, v: Json, level: nat)
    ensures Slashes(Print(dtos, v, level)) + Unpaid(v) == Cost(v)
    decreases v, 1
  {
    match v
    case Null => assert Slashes("null") == 0;
    case Bool(_) => assert Slashes("true") == 0 && Slashes("false") == 0;
    case Int(n) =>
      var d := Decimal(if n < 0 then -n else n);
      NoSlashes(d);
      CountConcat('\\', "-", d);
    case Dbl(d) => DoubleSlashes(dtos(d));
    case Str(s) =>
      EscapeSlashes(s);
      Slashes3("\"", EscapeString(s), "\"");
    case Arr(items) =>
      BracketSlashes("[\n", PrintItems(dtos, items, level, true), level, "]");
      PrintItemsSlashes(dtos, items, level, true);
    case Obj(ms) =>
      BracketSlashes("{\n", PrintMembers(dtos, ms, level, true), level, "}");
      PrintMembersSlashes(dtos, ms, level, true);
  }

  lemma {:induction false} PrintItemsSlashes(dtos: Dtos, items: seq<Json>, level: nat, first: bool)
    ensures Slashes(PrintItems(dtos, items, level, first)) + ItemsUnpaid(items) == ItemsCost(items)
    decreases items, 0
  {
    if items != [] {
      PrintSlashes(dtos, items[0], level + 1);
      PrintItemsSlashes(dtos, items[1..], level, false);
      NoSlashes(Indent(level));
      NoSlashes("  ");
      assert Slashes("") == 0 && Slashes(",\n") == 0;
      Slashes3(Indent(level), "  ", Print(dtos, items[0], level + 1));
      Slashes3(Separator(first), Indent(level) + "  " + Print(dtos, items[0], level + 1),
               PrintItems(dtos, items[1..], level, false));
    }
  }

  lemma MemberSlashes(dtos: Dtos, m: Member, level: nat)
    ensures Slashes(PrintMember(dtos, m, level)) == Count('\\', m.key) + Slashes(Print(dtos, m.value, level + 1))
  {
    NoSlashes(Indent(level));
    Slashes3(Indent(level), "  \"", m.key);
    Slashes3(Indent(level) + "  \"" + m.key, "\": ", Print(dtos, m.value, level + 1));
    assert Slashes("  \"") == 0 && Slashes("\": ") == 0;
  }

  lemma {:induction false} PrintMembersSlashes(dtos: Dtos, ms: seq<Member>, level: nat, first: bool)
    ensures Slashes(PrintMembers(dtos, ms, level, first)) + MembersUnpaid(ms) == MembersCost(ms)
    decreases ms, 0
  {
    if ms != [] {
      PrintSlashes(dtos, ms[0].value, level + 1);
      MemberSlashes(dtos, ms[0], level);
      PrintMembersSlashes(dtos, ms[1..], level, false);
      assert Slashes("") == 0 && Slashes(",\n") == 0;
      Slashes3(Separator(first), PrintMember(dtos, ms[0], level), PrintMembers(dtos, ms[1..], level, false));
    }
  }

  // ----- any text of a value has at least the backslashes of the value -----

  lemma {:induction false} PiecesSlashes(ps: seq<Piece>, rest: string)
    requires PiecesOk(ps)
    ensures Slashes(PiecesText(ps, rest)) >= StringCost(PiecesString(ps)) + Slashes(rest)
  {
    if ps != [] {
      PiecesSlashes(ps[1..], rest);
      PieceSlashes(ps[0], PiecesText(ps[1..], rest));
    }
  }

  lemma CharCost(c: char)
    ensures Slashes([c]) == if c == '\\' then 1 else 0
    ensures StringCost([c]) == (if c == '\"' then 1 else 0) + (if c == '\\' then 2 else 0)
  {
    CountOne('\\', c);
    CountOne('\"', c);
  }

  lemma CountOne(x: char, c: char)
    ensures Count(x, [c]) == if c == x then 1 else 0
  {
  }

  lemma PieceSlashes(p: Piece, rest: string)
    requires PieceOk(p)
    ensures Slashes(PieceText(p, rest)) >= StringCost([PieceChar(p)]) + Slashes(rest)
  {
    CharCost(PieceChar(p));
    if p.Raw? {
      CountConcat('\\', [p.c], rest);
    } else {
      CountConcat('\\', ['\\', p.e], rest);
      assert ['\\', p.e] == ['\\'] + [p.e];
      CountConcat('\\', ['\\'], [p.e]);
      CharCost(p.e);
    }
  }

  lemma QuotedSlashes(ps: seq<Piece>, rest: string)
    requires PiecesOk(ps)
    ensures Slashes(Quoted(ps, rest)) >= StringCost(PiecesString(ps)) + Slashes(rest)
  {
    PiecesSlashes(ps, "\"" + rest);
  }

  lemma {:induction false} PutCost(ms: seq<Member>, k: string, v: Json)
    ensures MembersCost(Put(ms, k, v)) <= MembersCost(ms) + StringCost(k) + Cost(v)
  {
    var p := Put(ms, k, v);
    if ms == [] {
      assert p[1..] == [];
    } else if ms[0].key == k {
      assert p[1..] == ms[1..];
    } else if Less(k, ms[0].key) {
      assert p[1..] == ms;
    } else {
      PutCost(ms[1..], k, v);
      assert p[1..] == Put(ms[1..], k, v);
    }
  }

  lemma {:induction false} NodeSlashes(stod: Stod, n: Node, rest: string)
    requires NodeOk(stod, n)
    ensures Slashes(NodeText(n, rest)) >= Cost(NodeValue(stod, n)) + Slashes(rest)
    decreases n, 1
  {
    CountConcat('\\', n.ws, BodyText(n.body, rest));
    BodySlashes(stod, n.body, rest);
  }

  lemma {:induction false} BodySlashes(stod: Stod, b: Body, rest: string)
    requires BodyOk(stod, b)
    ensures Slashes(BodyText(b, rest)) >= Cost(BodyValue(stod, b)) + Slashes(rest)
    decreases b, 0
  {
    match b
    case Word(True) => CountConcat('\\', "true", rest);
    case Word(False) => CountConcat('\\', "false", rest);
    case Word(Nil) => CountConcat('\\', "null", rest);
    case Chars(ps) => QuotedSlashes(ps, rest);
    case Num(m) =>
      NumeralPrefix(m, rest);
      CountConcat('\\', NumeralText(m, ""), rest);
    case List(ws, items) =>
      ItemsSlashes(stod, items, "]" + rest);
      CountConcat('\\', ws, ItemsText(items, "]" + rest));
    case Table(ws, fields) =>
      FieldsSlashes(stod, [], fields, "}" + rest);
      CountConcat('\\', ws, FieldsText(fields, "}" + rest));
  }

  lemma {:induction false} ItemsSlashes(stod: Stod, items: seq<Item>, rest: string)
    requires ItemsOk(stod, items)
    ensures Slashes(ItemsText(items, rest)) >= ItemsCost(ItemsValue(stod, items)) + Slashes(rest)
    decreases items, 0
  {
    if items != [] {
      var t := if |items| == 1 then rest else "," + ItemsText(items[1..], rest);
      NodeSlashes(stod, items[0].value, items[0].after + t);
      CountConcat('\\', items[0].after, t);
      ItemsSlashes(stod, items[1..], rest);
      assert ItemsValue(stod, items)[1..] == ItemsValue(stod, items[1..]);
    }
  }

  lemma {:induction false} FieldsSlashes(stod: Stod, ms: seq<Member>, fields: seq<Field>, rest: string)
    requires FieldsOk(stod, fields)
    ensures Slashes(FieldsText(fields, rest)) + MembersCost(ms) >=
            MembersCost(FieldsValue(stod, ms, fields)) + Slashes(rest)
    decreases fields, 0
  {
    if fields != [] {
      var f := fields[0];
      var t := if |fields| == 1 then rest else "," + FieldsText(fields[1..], rest);
      var v := NodeValue(stod, f.value);
      FieldSlashes(stod, f, t);
      PutCost(ms, FieldKey(f), v);
      FieldsSlashes(stod, Put(ms, FieldKey(f), v), fields[1..], rest);
    }
  }

  lemma {:induction false} FieldSlashes(stod: Stod, f: Field, t: string)
    requires PiecesOk(f.key) && NodeOk(stod, f.value)
    ensures Slashes(f.before + Quoted(f.key, f.colon + (":" + NodeText(f.value, f.after + t)))) >=
            StringCost(FieldKey(f)) + Cost(NodeValue(stod, f.value)) + Slashes(t)
    decreases f
  {
    var w := NodeText(f.value, f.after + t);
    NodeSlashes(stod, f.value, f.after + t);
    CountConcat('\\', f.after, t);
    CountConcat('\\', f.colon, ":" + w);
    QuotedSlashes(f.key, f.colon + (":" + w));
    CountConcat('\\', f.before, Quoted(f.key, f.colon + (":" + w)));
  }

  /** What parsing the printed text of a value with plain keys gives: nothing for a bare number, and otherwise
      the value with each double replaced by what its trimmed text denotes. */
  lemma PrintedDocument(stod: Stod, dtos: Dtos, v: Json, level: nat)
    requires Legal(v) && PlainKeys(v)
    ensures Parse(stod, Print(dtos, v, level)) == if v.Int? || v.Dbl? then None else Reread(stod, dtos, v)
  {
    var s := Print(dtos, v, level);
    if v.Int? {
      BareIntegerIsRejected(stod, dtos, v.n, level);
    } else if v.Dbl? {
      BareDoubleIsRejected(stod, dtos, v.d, level);
    } else {
      ReadsPrinted(stod, dtos, v, level, "");
      assert s + "" == s;
    }
  }

  /** A value is read back from its printed text, at every indentation level, exactly when it is not a bare
      number, no key in it contains a quotation mark or a backslash, and each of its doubles is printed with a
      fraction that is not zero and from which `stod` gives it again. */
  lemma RoundTrip(stod: Stod, dtos: Dtos, v: Json, level: nat)
    requires Legal(v)
    ensures Parse(stod, Print(dtos, v, level)) == Some(v) <==>
            !v.Int? && !v.Dbl? && PlainKeys(v) && Survives(stod, dtos, v)
  {
    if PlainKeys(v) {
      PrintedDocument(stod, dtos, v, level);
      RereadSame(stod, dtos, v);
    } else if Parse(stod, Print(dtos, v, level)) == Some(v) {
      var s := Print(dtos, v, level);
      var n := SoundValue(stod, s);
      NodeSlashes(stod, n, ReadValue(stod, s).rest);
      PrintSlashes(dtos, v, level);
      NothingUnpaid(v);
    }
  }

  /** Scanning fails when the text ends where the numeral could go on. */
  lemma UnfinishedScan(n: Numeral)
    requires NumeralOk(n) && !MayFollowNumeral(n, "")
    ensures ScanNumber(NumeralText(n, "")).Fail?
    ensures var s := NumeralText(n, ""); s != "" && (s[0] == '-' || IsDigit(s[0]))
  {
    var t := ExponentText(n.exponent, "");
    var u := FractionText(n.fraction, t);
    if n.exponent.Some? {
      assert t == [n.exponent.value.mark];
      CompleteFraction(n, t);
      CompleteWhole(n, u);
    } else if n.fraction.Some? {
      SkipsDigits(n.fraction.value, "");
      assert u[1..] == n.fraction.value + "";
      CompleteWhole(n, u);
    } else {
      SkipsDigits(n.whole, "");
      assert n.negative ==> NumeralText(n, "")[1..] == n.whole + "";
    }
  }

  /** A document that is a number and nothing else is accepted exactly when the number ends in an exponent
      sign or exponent digits; without those, the reader looks past the end of the text. */
  lemma BareNumber(stod: Stod, n: Numeral)
    requires NumeralOk(n)
    ensures Parse(stod, NumeralText(n, "")) ==
            if n.exponent.Some? && (n.exponent.value.sign != "" || n.exponent.value.digits != "")
            then NumeralValue(stod, n) else None
  {
    var s := NumeralText(n, "");
    if MayFollowNumeral(n, "") {
      CompleteNumber(stod, n, "");
    } else {
      UnfinishedScan(n);
    }
    assert SkipSpace(s) == s;
  }

  /** In particular, a printed integer is not a document. */
  lemma BareIntegerIsRejected(stod: Stod, dtos: Dtos, n: int, level: nat)
    ensures Parse(stod, Print(dtos, Int(n), level)) == None
  {
    var d := Decimal(if n < 0 then -n else n);
    BareNumber(stod, Numeral(n < 0, d, None, None));
    assert d + "" == d;
  }

  lemma BareDoubleIsRejected(stod: Stod, dtos: Dtos, d: Double, level: nat)
    ensures Parse(stod, Print(dtos, Dbl(d), level)) == None
  {
    match dtos(d)
    case Named(name) =>
      ReadsName(stod, name, "");
      assert name + "" == name;
    case Fixed(_, _, _) =>
      TrimmedText(dtos(d));
      BareNumber(stod, Trimmed(dtos(d)));
  }

  lemma OneItem(stod: Stod, dtos: Dtos, v: Json, level: nat)
    requires Legal(v) && PlainKeys(v)
    ensures Parse(stod, Print(dtos, Arr([v]), level)) ==
            match Reread(stod, dtos, v) case Some(w) => Some(Arr([w])) case None => None
  {
    var items := [v];
    assert items[1..] == [];
    PrintedDocument(stod, dtos, Arr(items), level);
    assert RereadItems(stod, dtos, items[1..]) == Some([]);
    var r := Reread(stod, dtos, v);
    assert r.Some? ==> [r.value] + [] == [r.value];
  }

  /** What comes back for a double in an array: the double that `stod` gives for the trimmed text if the printed
      fraction is not zero, an integer if it is zero, and a rejected document if that integer does not fit in 64
      bits, if `stod` throws, or if the double is not finite. */
  lemma DoubleInArray(stod: Stod, dtos: Dtos, d: Double, level: nat)
    ensures Parse(stod, Print(dtos, Arr([Dbl(d)]), level)) ==
            match dtos(d)
            case Named(_) => None
            case Fixed(negative, whole, fraction) =>
              if exists i :: 0 <= i < |fraction| && fraction[i] != '0' then
                match stod(TrimDouble(DoubleString(dtos(d))))
                case Some(e) => Some(Arr([Dbl(e)]))
                case None => None
              else
                var n := Signed(negative, DigitsValue(whole));
                if InInt64(n) then Some(Arr([Int(n)])) else None
  {
    var v := Dbl(d);
    assert Legal(v) && PlainKeys(v);
    OneItem(stod, dtos, v, level);
    var r := RereadDouble(stod, dtos(d));
    assert Reread(stod, dtos, v) == r;
    if dtos(d).Fixed? {
      TrimmedText(dtos(d));
    }
  }

  /** The key `"` is printed as an empty key followed by a stray quotation mark. */
  lemma QuoteInKeyBreaksRoundTrip(stod: Stod, dtos: Dtos)
    ensures var v := Obj([Member("\"", Null)]); Legal(v) && Parse(stod, Print(dtos, v, 0)) != Some(v)
  {
    var v := Obj([Member("\"", Null)]);
    assert v.members[1..] == [];
    assert v.members[0].key[0] == '\"';
    RoundTrip(stod, dtos, v, 0);
  }

  // ----- parsing, then printing, then parsing -----

  lemma {:induction false} NodeIsLegal(stod: Stod, n: Node)
    requires NodeOk(stod, n)
    ensures Legal(NodeValue(stod, n))
    decreases n
  {
    match n.body
    case Word(True) =>
    case Word(False) =>
    case Word(Nil) =>
    case Num(_) =>
    case Chars(_) =>
    case List(_, items) => ItemsAreLegal(stod, items);
    case Table(_, fields) =>
      FieldsAreLegal(stod, [], fields);
      LastFieldWins(stod, [], fields, "");
  }

  lemma {:induction false} ItemsAreLegal(stod: Stod, items: seq<Item>)
    requires ItemsOk(stod, items)
    ensures AllLegal(ItemsValue(stod, items))
    decreases items
  {
    if items != [] {
      NodeIsLegal(stod, items[0].value);
      ItemsAreLegal(stod, items[1..]);
      assert ItemsValue(stod, items)[1..] == ItemsValue(stod, items[1..]);
    }
  }

  lemma {:induction false} FieldsAreLegal(stod: Stod, ms: seq<Member>, fields: seq<Field>)
    requires FieldsOk(stod, fields) && MembersLegal(ms)
    ensures MembersLegal(FieldsValue(stod, ms, fields))
    decreases fields
  {
    if fields != [] {
      var v := NodeValue(stod, fields[0].value);
      NodeIsLegal(stod, fields[0].value);
      PutIsLegal(ms, FieldKey(fields[0]), v);
      FieldsAreLegal(stod, Put(ms, FieldKey(fields[0]), v), fields[1..]);
    }
  }

  lemma {:induction false} PutIsLegal(ms: seq<Member>, k: string, v: Json)
    requires MembersLegal(ms) && Legal(v)
    ensures MembersLegal(Put(ms, k, v))
    decreases ms
  {
    var p := Put(ms, k, v);
    if ms == [] {
      assert p[1..] == [];
    } else if ms[0].key == k {
      assert p[1..] == ms[1..];
    } else if Less(k, ms[0].key) {
      assert p[1..] == ms;
    } else {
      PutIsLegal(ms[1..], k, v);
      assert p[1..] == Put(ms[1..], k, v);
    }
  }

  /** What the test driver does with every document: printing the value of an accepted document and parsing
      again gives the same value, exactly under the conditions of the round trip. */
  lemma ReprintedDocument(stod: Stod, dtos: Dtos, s: string, level: nat)
    requires Parse(stod, s).Some?
    ensures var v := Parse(stod, s).value;
            && Legal(v)
            && (Parse(stod, Print(dtos, v, level)) == Parse(stod, s) <==>
                !v.Int? && !v.Dbl? && PlainKeys(v) && Survives(stod, dtos, v))
  {
    var n := SoundValue(stod, s);
    NodeIsLegal(stod, n);
    RoundTrip(stod, dtos, Parse(stod, s).value, level);
  }
}
