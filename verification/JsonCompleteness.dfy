/** Whatever is in the grammar is accepted, with the value the grammar gives it. Together with soundness
    this fixes the accepted language and every result exactly. */
module JsonCompleteness {
  import opened Common
  import opened JsonValue
  import opened JsonReader
  import opened JsonGrammar
  import opened JsonSoundness

  lemma {:induction false} SkipsSpace(ws: string, s: string)
    requires AllSpace(ws)
    ensures SkipSpace(ws + s) == SkipSpace(s)
  {
    if ws == "" {
      assert ws + s == s;
    } else {
      assert (ws + s)[1..] == ws[1..] + s;
      SkipsSpace(ws[1..], s);
    }
  }

  lemma CompleteExpect(ws: string, c: char, rest: string)
    requires AllSpace(ws) && !IsSpace(c)
    ensures Expect(c, ws + ([c] + rest)) == Some(rest)
  {
    SkipsSpace(ws, [c] + rest);
  }

  lemma {:induction false} SkipsDigits(d: string, rest: string)
    requires AllDigits(d) && (rest == "" || !IsDigit(rest[0]))
    ensures SkipDigits(d + rest) == rest
  {
    if d == "" {
      assert d + rest == rest;
    } else {
      assert (d + rest)[1..] == d[1..] + rest;
      SkipsDigits(d[1..], rest);
    }
  }

  lemma {:induction false} CompleteChars(ps: seq<Piece>, acc: string, rest: string)
    requires PiecesOk(ps)
    ensures ReadChars(PiecesText(ps, "\"" + rest), acc) == Done(acc + PiecesString(ps), rest)
    decreases ps
  {
    if ps == [] {
      assert acc + "" == acc;
    } else {
      var t := PiecesText(ps[1..], "\"" + rest);
      var c := PieceChar(ps[0]);
      CompletePiece(ps[0], t, acc);
      CompleteChars(ps[1..], acc + [c], rest);
      Assoc(acc, [c], PiecesString(ps[1..]));
    }
  }

  lemma CompletePiece(p: Piece, t: string, acc: string)
    requires PieceOk(p)
    ensures ReadChars(PieceText(p, t), acc) == ReadChars(t, acc + [PieceChar(p)])
  {
  }

  lemma CompleteString(ws: string, ps: seq<Piece>, rest: string)
    requires AllSpace(ws) && PiecesOk(ps)
    ensures ReadString(ws + Quoted(ps, rest)) == Done(PiecesString(ps), rest)
  {
    CompleteExpect(ws, '\"', PiecesText(ps, "\"" + rest));
    CompleteChars(ps, "", rest);
    assert "" + PiecesString(ps) == PiecesString(ps);
  }

  // ----- numbers -----

  lemma CompleteExponent(n: Numeral, rest: string)
    requires NumeralOk(n) && MayFollowNumeral(n, rest)
    ensures SkipExponent(ExponentText(n.exponent, rest)) == Some(rest)
    ensures var t := ExponentText(n.exponent, rest); t != "" && !IsDigit(t[0]) && (n.fraction.None? ==> t[0] != '.')
    ensures n.exponent.Some? <==> rest != ExponentText(n.exponent, rest)
  {
    if n.exponent.Some? {
      var x := n.exponent.value;
      var t := ExponentText(n.exponent, rest);
      SkipsDigits(x.digits, rest);
      assert t[1..] == x.sign + (x.digits + rest);
      if x.sign != "" {
        assert t[2..] == x.digits + rest;
      } else {
        assert t[1..] == x.digits + rest;
        assert x.digits != "" ==> IsDigit(t[1]);
      }
    }
  }

  lemma CompleteFraction(n: Numeral, t: string)
    requires NumeralOk(n)
    requires t != "" && !IsDigit(t[0]) && (n.fraction.None? ==> t[0] != '.')
    ensures var u := FractionText(n.fraction, t);
            u != "" && !IsDigit(u[0]) && n.fraction.Some? == (u[0] == '.') &&
            t == if u[0] == '.' then SkipDigits(u[1..]) else u
  {
    if n.fraction.Some? {
      SkipsDigits(n.fraction.value, t);
      assert FractionText(n.fraction, t)[1..] == n.fraction.value + t;
    }
  }

  lemma CompleteWhole(n: Numeral, u: string)
    requires NumeralOk(n) && u != "" && !IsDigit(u[0])
    ensures var s := SignText(n.negative, n.whole + u);
            && s != "" && (s[0] == '-' || IsDigit(s[0])) && (s[0] == '-') == n.negative
            && u == SkipDigits(if s[0] == '-' then s[1..] else s)
  {
    SkipsDigits(n.whole, u);
    assert n.negative ==> SignText(n.negative, n.whole + u)[1..] == n.whole + u;
  }

  lemma CompleteScan(n: Numeral, rest: string)
    requires NumeralOk(n) && MayFollowNumeral(n, rest)
    ensures ScanNumber(NumeralText(n, rest)) == Done(n.fraction.Some? || n.exponent.Some?, rest)
    ensures var s := NumeralText(n, rest); s != "" && (s[0] == '-' || IsDigit(s[0]))
  {
    var t := ExponentText(n.exponent, rest);
    CompleteExponent(n, rest);
    CompleteFraction(n, t);
    CompleteWhole(n, FractionText(n.fraction, t));
  }

  /** A scanned numeral is converted to the value the grammar gives it, or rejected if it has none. */
  lemma CompleteNumber(stod: Stod, n: Numeral, rest: string)
    requires NumeralOk(n) && MayFollowNumeral(n, rest)
    ensures ReadNumber(stod, NumeralText(n, rest)) ==
            match NumeralValue(stod, n) case Some(v) => Done(v, rest) case None => Fail
    ensures var s := NumeralText(n, rest); s != "" && (s[0] == '-' || IsDigit(s[0]))
  {
    CompleteScan(n, rest);
    NumeralCut(n, rest);
    ConvertIsRight(stod, n);
  }

  // ----- values -----

  /** The first character of a value tells it apart from whitespace and punctuation. */
  lemma BodyStart(stod: Stod, b: Body, rest: string)
    requires BodyOk(stod, b) && (b.Num? ==> MayFollowNumeral(b.numeral, rest))
    ensures var s := BodyText(b, rest); s != "" && !IsSpace(s[0]) && s[0] != ']' && s[0] != '}' && SkipSpace(s) == s
  {
  }

  lemma ReadValueSkips(stod: Stod, ws: string, s: string)
    requires AllSpace(ws)
    ensures ReadValue(stod, ws + s) == ReadValue(stod, s)
  {
    SkipsSpace(ws, s);
  }

  /** Spaces, commas and closing brackets never continue a numeral. */
  lemma PunctuationMayFollow(n: Numeral, ws: string, c: char, rest: string)
    requires AllSpace(ws) && (c == ',' || c == ']' || c == '}')
    ensures MayFollowNumeral(n, ws + ([c] + rest))
  {
  }

  lemma {:induction false} CompleteValue(stod: Stod, n: Node, rest: string)
    requires NodeOk(stod, n) && MayFollow(n, rest)
    ensures ReadValue(stod, NodeText(n, rest)) == Done(NodeValue(stod, n), rest)
    decreases n, 2
  {
    ReadValueSkips(stod, n.ws, BodyText(n.body, rest));
    CompleteBody(stod, n.body, rest);
  }

  lemma CompleteWord(stod: Stod, l: Literal, rest: string)
    ensures ReadValue(stod, LiteralText(l) + rest) == Done(BodyValue(stod, Word(l)), rest)
  {
  }

  lemma {:induction false} CompleteBody(stod: Stod, b: Body, rest: string)
    requires BodyOk(stod, b) && (b.Num? ==> MayFollowNumeral(b.numeral, rest))
    ensures ReadValue(stod, BodyText(b, rest)) == Done(BodyValue(stod, b), rest)
    decreases b, 1
  {
    BodyStart(stod, b, rest);
    match b
    case Word(l) => CompleteWord(stod, l, rest);
    case Chars(ps) =>
      CompleteString("", ps, rest);
      assert "" + Quoted(ps, rest) == Quoted(ps, rest);
    case Num(n) =>
      CompleteNumber(stod, n, rest);
    case List(ws, items) =>
      CompleteList(stod, ws, items, rest);
    case Table(ws, fields) =>
      CompleteTable(stod, ws, fields, rest);
  }

  lemma {:induction false} CompleteList(stod: Stod, ws: string, items: seq<Item>, rest: string)
    requires AllSpace(ws) && ItemsOk(stod, items)
    ensures ReadArray(stod, BodyText(List(ws, items), rest)) == Done(Arr(ItemsValue(stod, items)), rest)
    decreases items, 1
  {
    var t := ItemsText(items, "]" + rest);
    var s := BodyText(List(ws, items), rest);
    assert s[1..] == ws + t;
    SkipsSpace(ws, t);
    if items == [] {
      assert ("]" + rest)[1..] == rest;
    } else {
      CompleteItems(stod, items, [], rest);
      assert [] + ItemsValue(stod, items) == ItemsValue(stod, items);
      var next := if |items| == 1 then ']' else ',';
      var more := if |items| == 1 then rest else ItemsText(items[1..], "]" + rest);
      SkipsToFirst(stod, items[0].value, AfterItem(items, "]" + rest), items[0].after, next, more);
      var pre := SpaceSkipped(t);
      ReadValueSkips(stod, pre, SkipSpace(t));
      assert ReadItems(stod, t, []) == ReadItems(stod, SkipSpace(t), []);
    }
  }

  function AfterItem(items: seq<Item>, rest: string): string
    requires items != []
  {
    items[0].after + (if |items| == 1 then rest else "," + ItemsText(items[1..], rest))
  }

  /** Skipping whitespace in front of an item stops at its first character, which closes nothing. */
  lemma SkipsToFirst(stod: Stod, n: Node, s: string, ws: string, c: char, rest: string)
    requires NodeOk(stod, n) && AllSpace(ws) && (c == ',' || c == ']' || c == '}') && s == ws + ([c] + rest)
    ensures var t := SkipSpace(NodeText(n, s)); t != "" && t[0] != ']' && t[0] != '}'
  {
    SkipsSpace(n.ws, BodyText(n.body, s));
    if n.body.Num? {
      PunctuationMayFollow(n.body.numeral, ws, c, rest);
    }
    BodyStart(stod, n.body, s);
  }

  lemma {:induction false} CompleteItems(stod: Stod, items: seq<Item>, acc: seq<Json>, rest: string)
    requires items != [] && ItemsOk(stod, items)
    ensures ReadItems(stod, ItemsText(items, "]" + rest), acc) == Done(Arr(acc + ItemsValue(stod, items)), rest)
    decreases items, 0
  {
    var node, after := items[0].value, items[0].after;
    var v := NodeValue(stod, node);
    if |items| == 1 {
      CompleteItem(stod, node, after, ']', rest);
      assert items[1..] == [];
      assert [v] + [] == [v];
    } else {
      var t := ItemsText(items[1..], "]" + rest);
      CompleteItem(stod, node, after, ',', t);
      CompleteItems(stod, items[1..], acc + [v], rest);
      Assoc(acc, [v], ItemsValue(stod, items[1..]));
    }
  }

  /** One value and the punctuation after it. */
  lemma {:induction false} CompleteItem(stod: Stod, n: Node, after: string, c: char, rest: string)
    requires NodeOk(stod, n) && AllSpace(after) && (c == ',' || c == ']' || c == '}')
    ensures ReadValue(stod, NodeText(n, after + ([c] + rest))) == Done(NodeValue(stod, n), after + ([c] + rest))
    ensures SkipSpace(after + ([c] + rest)) == [c] + rest && ([c] + rest)[1..] == rest
    decreases n, 3
  {
    if n.body.Num? {
      PunctuationMayFollow(n.body.numeral, after, c, rest);
    }
    CompleteValue(stod, n, after + ([c] + rest));
    SkipsSpace(after, [c] + rest);
  }

  lemma {:induction false} CompleteTable(stod: Stod, ws: string, fields: seq<Field>, rest: string)
    requires AllSpace(ws) && FieldsOk(stod, fields)
    ensures ReadObject(stod, BodyText(Table(ws, fields), rest)) == Done(Obj(FieldsValue(stod, [], fields)), rest)
    decreases fields, 1
  {
    var t := FieldsText(fields, "}" + rest);
    var s := BodyText(Table(ws, fields), rest);
    assert s[1..] == ws + t;
    SkipsSpace(ws, t);
    if fields == [] {
      assert ("}" + rest)[1..] == rest;
    } else {
      CompleteFields(stod, fields, [], rest);
      var q: string :| t == fields[0].before + ("\"" + q);
      SkipsSpace(fields[0].before, "\"" + q);
      assert ReadString(t) == ReadString(SkipSpace(t));
      assert ReadMembers(stod, t, []) == ReadMembers(stod, SkipSpace(t), []);
    }
  }

  lemma {:induction false} CompleteFields(stod: Stod, fields: seq<Field>, acc: seq<Member>, rest: string)
    requires fields != [] && FieldsOk(stod, fields)
    ensures ReadMembers(stod, FieldsText(fields, "}" + rest), acc) == Done(Obj(FieldsValue(stod, acc, fields)), rest)
    decreases fields, 0
  {
    var f := fields[0];
    var v := NodeValue(stod, f.value);
    var c, u := if |fields| == 1 then '}' else ',', if |fields| == 1 then rest else FieldsText(fields[1..], "}" + rest);
    var afterColon := NodeText(f.value, f.after + ([c] + u));
    CompleteString(f.before, f.key, f.colon + (":" + afterColon));
    CompleteExpect(f.colon, ':', afterColon);
    CompleteItem(stod, f.value, f.after, c, u);
    if |fields| > 1 {
      CompleteFields(stod, fields[1..], Put(acc, FieldKey(f), v), rest);
    } else {
      assert fields[1..] == [];
    }
  }

  // ----- the theorems -----

  /** The parser reads value `v` off the front of `s` and stops at `rest` exactly when `s` is the text
      of a syntax tree of `v`, followed by `rest`. */
  lemma ReadValueIffGrammar(stod: Stod, s: string, v: Json, rest: string)
    ensures ReadValue(stod, s) == Done(v, rest) <==> exists n :: Derives(stod, n, v, s, rest)
  {
    if ReadValue(stod, s) == Done(v, rest) {
      var n := SoundValue(stod, s);
      assert Derives(stod, n, v, s, rest);
    }
    forall n | Derives(stod, n, v, s, rest)
      ensures ReadValue(stod, s) == Done(v, rest)
    {
      CompleteValue(stod, n, rest);
    }
  }

  /** A document is accepted with value `v` exactly when it is a syntax tree of `v` and whitespace. */
  lemma ParseIffGrammar(stod: Stod, s: string, v: Json)
    ensures Parse(stod, s) == Some(v) <==> exists n, ws :: AllSpace(ws) && Derives(stod, n, v, s, ws)
  {
    if Parse(stod, s) == Some(v) {
      var n := SoundValue(stod, s);
      var ws := SpaceSkipped(ReadValue(stod, s).rest);
      assert ws + "" == ws;
      assert AllSpace(ws) && Derives(stod, n, v, s, ws);
    }
    forall n, ws | AllSpace(ws) && Derives(stod, n, v, s, ws)
      ensures Parse(stod, s) == Some(v)
    {
      CompleteValue(stod, n, ws);
      SkipsSpace(ws, "");
      assert ws + "" == ws;
    }
  }

  /** An accepted object has exactly the keys that occur in its text, in strictly increasing lexicographic
      order, each bound to the value of its last occurrence. */
  lemma AcceptedObject(stod: Stod, s: string) returns (n: Node)
    requires ReadValue(stod, s).Done? && ReadValue(stod, s).value.Obj?
    ensures var r := ReadValue(stod, s);
            && Derives(stod, n, r.value, s, r.rest) && n.body.Table? && FieldsOk(stod, n.body.fields)
            && Sorted(r.value.members) && InKeyOrder(r.value.members)
            && forall k :: Lookup(r.value.members, k) == LastValue(stod, n.body.fields, k)
  {
    n := SoundValue(stod, s);
    ObjectsAreTables(stod, n);
    forall k
      ensures Lookup(ReadValue(stod, s).value.members, k) == LastValue(stod, n.body.fields, k)
    {
      LastFieldWins(stod, [], n.body.fields, k);
    }
    LastFieldWins(stod, [], n.body.fields, "");
  }

  lemma ObjectsAreTables(stod: Stod, n: Node)
    requires NodeOk(stod, n) && NodeValue(stod, n).Obj?
    ensures n.body.Table? && FieldsOk(stod, n.body.fields)
    ensures NodeValue(stod, n).members == FieldsValue(stod, [], n.body.fields)
  {
  }

  // ----- extending the text -----

  lemma {:induction false} PiecesTextAppend(ps: seq<Piece>, rest: string, ext: string)
    ensures PiecesText(ps, rest) + ext == PiecesText(ps, rest + ext)
  {
    if ps != [] {
      PiecesTextAppend(ps[1..], rest, ext);
      var t := PiecesText(ps[1..], rest);
      Assoc(if ps[0].Raw? then [ps[0].c] else ['\\', ps[0].e], t, ext);
    }
  }

  lemma QuotedAppend(ps: seq<Piece>, rest: string, ext: string)
    ensures Quoted(ps, rest) + ext == Quoted(ps, rest + ext)
  {
    PiecesTextAppend(ps, "\"" + rest, ext);
    Assoc("\"", rest, ext);
    Assoc("\"", PiecesText(ps, "\"" + rest), ext);
  }

  lemma {:induction false} NodeTextAppend(n: Node, rest: string, ext: string)
    ensures NodeText(n, rest) + ext == NodeText(n, rest + ext)
    decreases n, 1
  {
    BodyTextAppend(n.body, rest, ext);
    Assoc(n.ws, BodyText(n.body, rest), ext);
  }

  lemma {:induction false} BodyTextAppend(b: Body, rest: string, ext: string)
    ensures BodyText(b, rest) + ext == BodyText(b, rest + ext)
    decreases b, 0
  {
    match b
    case Word(l) => Assoc(LiteralText(l), rest, ext);
    case Chars(ps) => QuotedAppend(ps, rest, ext);
    case Num(n) =>
      NumeralPrefix(n, rest);
      NumeralPrefix(n, rest + ext);
      Assoc(NumeralText(n, ""), rest, ext);
    case List(ws, items) =>
      ItemsTextAppend(items, "]" + rest, ext);
      Enclosed("[", ws, ItemsText(items, "]" + rest), "]", rest, ext);
    case Table(ws, fields) =>
      FieldsTextAppend(fields, "}" + rest, ext);
      Enclosed("{", ws, FieldsText(fields, "}" + rest), "}", rest, ext);
  }

  lemma Enclosed(open: string, ws: string, inner: string, close: string, rest: string, ext: string)
    ensures open + (ws + inner) + ext == open + (ws + (inner + ext))
    ensures close + rest + ext == close + (rest + ext)
  {
  }

  lemma {:induction false} ItemsTextAppend(items: seq<Item>, rest: string, ext: string)
    ensures ItemsText(items, rest) + ext == ItemsText(items, rest + ext)
    decreases items, 0
  {
    if items != [] {
      var t := if |items| == 1 then rest else "," + ItemsText(items[1..], rest);
      NodeTextAppend(items[0].value, items[0].after + t, ext);
      Assoc(items[0].after, t, ext);
      if |items| > 1 {
        ItemsTextAppend(items[1..], rest, ext);
        Assoc(",", ItemsText(items[1..], rest), ext);
      }
    }
  }

  lemma {:induction false} FieldsTextAppend(fields: seq<Field>, rest: string, ext: string)
    ensures FieldsText(fields, rest) + ext == FieldsText(fields, rest + ext)
    decreases fields, 0
  {
    if fields != [] {
      var f := fields[0];
      var t := if |fields| == 1 then rest else "," + FieldsText(fields[1..], rest);
      if |fields| > 1 {
        FieldsTextAppend(fields[1..], rest, ext);
        Assoc(",", FieldsText(fields[1..], rest), ext);
      }
      FieldTextAppend(f, t, ext);
    }
  }

  lemma {:induction false} FieldTextAppend(f: Field, t: string, ext: string)
    ensures f.before + Quoted(f.key, f.colon + (":" + NodeText(f.value, f.after + t))) + ext ==
            f.before + Quoted(f.key, f.colon + (":" + NodeText(f.value, f.after + (t + ext))))
    decreases f
  {
    NodeTextAppend(f.value, f.after + t, ext);
    Assoc(f.after, t, ext);
    var w := NodeText(f.value, f.after + t);
    Assoc(":", w, ext);
    Assoc(f.colon, ":" + w, ext);
    QuotedAppend(f.key, f.colon + (":" + w), ext);
    Assoc(f.before, Quoted(f.key, f.colon + (":" + w)), ext);
  }

  lemma NumbersAreNumerals(stod: Stod, n: Node)
    requires NodeOk(stod, n)
    ensures n.body.Num? ==> NodeValue(stod, n).Int? == (n.body.numeral.fraction.None? && n.body.numeral.exponent.None?)
    ensures n.body.Num? <==> NodeValue(stod, n).Int? || NodeValue(stod, n).Dbl?
  {
  }

  lemma MayFollowAppend(n: Node, rest: string, ext: string)
    requires MayFollow(n, rest) && (rest == "" && n.body.Num? ==> ext == "" || !IsDigit(ext[0]))
    ensures MayFollow(n, rest + ext)
  {
  }

  /** More text after an accepted value changes neither the value nor where the value ends, except when
      the text stopped inside the exponent of a double and the new text goes on with a digit. */
  lemma ExtendingKeepsResult(stod: Stod, s: string, ext: string)
    requires ReadValue(stod, s).Done?
    ensures var r := ReadValue(stod, s);
            ReadValue(stod, s + ext) == Done(r.value, r.rest + ext) <==>
            !(r.value.Dbl? && r.rest == "" && ext != "" && IsDigit(ext[0]))
  {
    var r := ReadValue(stod, s);
    var n := SoundValue(stod, s);
    if r.value.Dbl? && r.rest == "" && ext != "" && IsDigit(ext[0]) {
      if ReadValue(stod, s + ext) == Done(r.value, r.rest + ext) {
        DigitsNeverFollow(stod, s + ext, r.rest + ext);
      }
    } else {
      NodeTextAppend(n, r.rest, ext);
      NumbersAreNumerals(stod, n);
      MayFollowAppend(n, r.rest, ext);
      CompleteValue(stod, n, r.rest + ext);
    }
  }

  lemma DigitsNeverFollow(stod: Stod, s: string, rest: string)
    requires ReadValue(stod, s).Done? && ReadValue(stod, s).value.Dbl? && ReadValue(stod, s).rest == rest
    ensures rest == "" || !IsDigit(rest[0])
  {
    var n := SoundValue(stod, s);
    NumbersAreNumerals(stod, n);
  }

  /** Whitespace around an accepted document does not change its value. */
  lemma SurroundingSpaceIsIgnored(stod: Stod, before: string, s: string, after: string)
    requires AllSpace(before) && AllSpace(after) && Parse(stod, s).Some?
    ensures Parse(stod, before + s + after) == Parse(stod, s)
  {
    ReadValueSkips(stod, before, s);
    ExtendingKeepsResult(stod, before + s, after);
    var rest := ReadValue(stod, s).rest;
    var ws := SpaceSkipped(rest);
    assert ws + "" == ws;
    SkipsSpace(rest + after, "");
    assert rest + after + "" == rest + after;
  }
}
