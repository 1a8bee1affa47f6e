/** Whatever the parser accepts is in the grammar, with the value the grammar gives it. */
module JsonSoundness {
  import opened Common
  import opened JsonValue
  import opened JsonReader
  import opened JsonGrammar

  lemma {:induction false} SpaceSkipped(s: string) returns (ws: string)
    ensures AllSpace(ws) && s == ws + SkipSpace(s)
  {
    if s != "" && IsSpace(s[0]) {
      var ws' := SpaceSkipped(s[1..]);
      ws := [s[0]] + ws';
    } else {
      ws := "";
    }
  }

  lemma SoundExpect(c: char, s: string) returns (ws: string)
    requires Expect(c, s).Some?
    ensures AllSpace(ws) && s == ws + ([c] + Expect(c, s).value)
  {
    ws := SpaceSkipped(s);
    var t := SkipSpace(s);
    assert t == [c] + t[1..];
  }

  /** Nothing is skipped in front of a character that is already there. */
  lemma SoundExpectNow(c: char, s: string)
    requires StartsWith(s, c) && !IsSpace(c)
    ensures Expect(c, s) == Some(s[1..]) && s == [c] + s[1..]
  {
  }

  lemma {:induction false} SoundChars(s: string, acc: string) returns (ps: seq<Piece>)
    requires ReadChars(s, acc).Done?
    ensures PiecesOk(ps)
    ensures s == PiecesText(ps, "\"" + ReadChars(s, acc).rest)
    ensures ReadChars(s, acc).value == acc + PiecesString(ps)
    decreases |s|
  {
    if s[0] == '\"' {
      ps := [];
      assert s == "\"" + s[1..];
    } else {
      var p, t := SoundPiece(s);
      var c := PieceChar(p);
      assert ReadChars(s, acc) == ReadChars(t, acc + [c]);
      var later := SoundChars(t, acc + [c]);
      ps := [p] + later;
      assert ps[1..] == later;
      Assoc(acc, [c], PiecesString(later));
    }
  }

  lemma SoundPiece(s: string) returns (p: Piece, t: string)
    requires s != "" && s[0] != '\"'
    requires s[0] == '\\' ==> |s| > 1 && Unescape(s[1]).Some?
    ensures PieceOk(p) && s == PieceText(p, t) && |t| < |s|
    ensures forall acc :: ReadChars(s, acc) == ReadChars(t, acc + [PieceChar(p)])
  {
    if s[0] == '\\' {
      p, t := Escaped(s[1]), s[2..];
    } else {
      p, t := Raw(s[0]), s[1..];
    }
  }

  lemma SoundString(s: string) returns (ws: string, ps: seq<Piece>)
    requires ReadString(s).Done?
    ensures AllSpace(ws) && PiecesOk(ps)
    ensures s == ws + Quoted(ps, ReadString(s).rest)
    ensures ReadString(s).value == PiecesString(ps)
  {
    ws := SoundExpect('\"', s);
    ps := SoundChars(Expect('\"', s).value, "");
  }

  lemma SoundExponent(s: string) returns (x: Option<Exponent>)
    requires SkipExponent(s).Some?
    ensures x.Some? ==> IsMark(x.value.mark) && IsSign(x.value.sign) && AllDigits(x.value.digits)
    ensures s == ExponentText(x, SkipExponent(s).value)
    ensures x.None? <==> SkipExponent(s).value == s
    ensures forall n: Numeral :: n.exponent == x && (x.None? ==> !IsDigit(s[0]) && (n.fraction.None? ==> s[0] != '.'))
              ==> MayFollowNumeral(n, SkipExponent(s).value)
  {
    if s[0] != 'e' && s[0] != 'E' {
      x := None;
    } else {
      var sign, t := "", s[1..];
      if s[1] == '+' || s[1] == '-' {
        sign, t := [s[1]], s[2..];
      }
      assert s == [s[0]] + (sign + t);
      var d := SkipDigitsSplit(t);
      x := Some(Exponent(s[0], sign, d));
    }
  }

  lemma ExponentPrefix(x: Option<Exponent>, rest: string)
    ensures ExponentText(x, rest) == ExponentText(x, "") + rest
  {
    if x.Some? {
      Assoc(x.value.digits, "", rest);
      Assoc(x.value.sign, x.value.digits, rest);
    }
  }

  lemma FractionPrefix(f: Option<string>, s: string, rest: string)
    ensures FractionText(f, s + rest) == FractionText(f, s) + rest
  {
    if f.Some? {
      Assoc(f.value, s, rest);
    }
  }

  /** The text of a numeral is the part of the text in front of the rest. */
  lemma NumeralPrefix(n: Numeral, rest: string)
    ensures NumeralText(n, rest) == NumeralText(n, "") + rest
  {
    ExponentPrefix(n.exponent, rest);
    var x := ExponentText(n.exponent, "");
    FractionPrefix(n.fraction, x, rest);
    Assoc(n.whole, FractionText(n.fraction, x), rest);
    Assoc("-", n.whole + FractionText(n.fraction, x), rest);
  }

  lemma NumeralCut(n: Numeral, rest: string)
    ensures var s := NumeralText(n, rest); |rest| <= |s| && s[..|s| - |rest|] == NumeralText(n, "")
  {
  }

  lemma SoundNumber(stod: Stod, s: string) returns (n: Numeral)
    requires s != "" && (s[0] == '-' || IsDigit(s[0]))
    requires ReadNumber(stod, s).Done?
    ensures NumeralOk(n) && NumeralValue(stod, n) == Some(ReadNumber(stod, s).value)
    ensures s == NumeralText(n, ReadNumber(stod, s).rest)
    ensures MayFollowNumeral(n, ReadNumber(stod, s).rest)
  {
    n := SoundScan(s);
    NumeralIsSignedDigits(s);
    NumeralCut(n, ScanNumber(s).rest);
    ConvertIsRight(stod, n);
  }

  /** The conversion of a numeral's text is the value the grammar gives it, if it has one. */
  lemma ConvertIsRight(stod: Stod, n: Numeral)
    requires NumeralOk(n)
    ensures var isDouble, s := n.fraction.Some? || n.exponent.Some?, NumeralText(n, "");
            (!isDouble ==> SignedDigits(s)) && Convert(stod, isDouble, s) == NumeralValue(stod, n)
  {
    if n.fraction.None? && n.exponent.None? {
      assert n.whole + "" == n.whole;
      var s := NumeralText(n, "");
      if n.negative {
        assert s[1..] == n.whole;
      } else {
        assert s == n.whole;
      }
    }
  }

  lemma SoundScan(s: string) returns (n: Numeral)
    requires s != "" && (s[0] == '-' || IsDigit(s[0]))
    requires ScanNumber(s).Done?
    ensures NumeralOk(n) && ScanNumber(s).value == (n.fraction.Some? || n.exponent.Some?)
    ensures s == NumeralText(n, ScanNumber(s).rest)
    ensures MayFollowNumeral(n, ScanNumber(s).rest)
  {
    var negative, whole, afterWhole := SoundWhole(s);
    var fraction, afterFraction := SoundFraction(afterWhole);
    var exponent := SoundExponent(afterFraction);
    n := Numeral(negative, whole, fraction, exponent);
  }

  lemma SoundWhole(s: string) returns (negative: bool, whole: string, t: string)
    requires s != "" && (s[0] == '-' || IsDigit(s[0]))
    ensures t == SkipDigits(if s[0] == '-' then s[1..] else s)
    ensures AllDigits(whole) && (negative || whole != "")
    ensures s == SignText(negative, whole + t)
  {
    negative := s[0] == '-';
    var afterSign := if negative then s[1..] else s;
    whole := SkipDigitsSplit(afterSign);
    t := SkipDigits(afterSign);
    assert s == SignText(negative, afterSign);
  }

  lemma SoundFraction(s: string) returns (f: Option<string>, t: string)
    requires s != "" && !IsDigit(s[0])
    ensures t == if s[0] == '.' then SkipDigits(s[1..]) else s
    ensures f.Some? <==> s[0] == '.'
    ensures f.Some? ==> AllDigits(f.value)
    ensures s == FractionText(f, t)
    ensures t != "" ==> !IsDigit(t[0])
  {
    f, t := None, s;
    if s[0] == '.' {
      var d := SkipDigitsSplit(s[1..]);
      f, t := Some(d), SkipDigits(s[1..]);
      assert s == "." + s[1..];
    }
  }

  lemma {:induction false} SoundValue(stod: Stod, s: string) returns (n: Node)
    requires ReadValue(stod, s).Done?
    ensures var r := ReadValue(stod, s); Derives(stod, n, r.value, s, r.rest)
    decreases |s|, 3
  {
    var ws := SpaceSkipped(s);
    var t := SkipSpace(s);
    var body := SoundBody(stod, t, ReadValue(stod, s));
    n := Node(ws, body);
  }

  lemma {:induction false} SoundBody(stod: Stod, t: string, r: Result<Json>) returns (b: Body)
    requires t != "" && SkipSpace(t) == t && r == ReadValue(stod, t) && r.Done?
    ensures BodyOk(stod, b) && BodyValue(stod, b) == r.value && t == BodyText(b, r.rest)
    ensures b.Num? ==> MayFollowNumeral(b.numeral, r.rest)
    decreases |t|, 2
  {
    if t[0] == '\"' {
      var none, ps := SoundString(t);
      assert none == "";
      b := Chars(ps);
    } else if t[0] == '-' || IsDigit(t[0]) {
      var num := SoundNumber(stod, t);
      b := Num(num);
    } else if t[0] == '[' {
      b := SoundArray(stod, t);
    } else if t[0] == '{' {
      b := SoundObject(stod, t);
    } else {
      b := Word(if t[0] == 't' then True else if t[0] == 'f' then False else Nil);
    }
  }

  lemma {:induction false} SoundArray(stod: Stod, s: string) returns (b: Body)
    requires StartsWith(s, '[') && ReadArray(stod, s).Done?
    ensures b.List? && BodyOk(stod, b) && BodyValue(stod, b) == ReadArray(stod, s).value
    ensures s == BodyText(b, ReadArray(stod, s).rest)
    decreases |s|, 1
  {
    SoundExpectNow('[', s);
    var ws := SpaceSkipped(s[1..]);
    var u := SkipSpace(s[1..]);
    if u[0] == ']' {
      b := List(ws, []);
      assert u == "]" + u[1..];
    } else {
      var items := SoundItems(stod, u, []);
      b := List(ws, items);
    }
  }

  lemma ConsItem(stod: Stod, item: Item, later: seq<Item>, rest: string)
    requires later != [] && ItemsOk(stod, later) && NodeOk(stod, item.value) && AllSpace(item.after)
    ensures ItemsOk(stod, [item] + later)
    ensures ItemsValue(stod, [item] + later) == [NodeValue(stod, item.value)] + ItemsValue(stod, later)
    ensures ItemsText([item] + later, rest) == NodeText(item.value, item.after + ("," + ItemsText(later, rest)))
  {
  }

  lemma OneItem(stod: Stod, item: Item, rest: string)
    requires NodeOk(stod, item.value) && AllSpace(item.after)
    ensures ItemsOk(stod, [item])
    ensures ItemsValue(stod, [item]) == [NodeValue(stod, item.value)]
    ensures ItemsText([item], rest) == NodeText(item.value, item.after + rest)
  {
  }

  lemma {:induction false} SoundItems(stod: Stod, s: string, acc: seq<Json>) returns (items: seq<Item>)
    requires ReadItems(stod, s, acc).Done?
    ensures items != [] && ItemsOk(stod, items)
    ensures ReadItems(stod, s, acc).value == Arr(acc + ItemsValue(stod, items))
    ensures s == ItemsText(items, "]" + ReadItems(stod, s, acc).rest)
    decreases |s|, 4
  {
    var node := SoundValue(stod, s);
    var v, t := ReadValue(stod, s).value, ReadValue(stod, s).rest;
    var after := SpaceSkipped(t);
    var u := SkipSpace(t);
    var item := Item(node, after);
    if u[0] == ',' {
      assert ReadItems(stod, s, acc) == ReadItems(stod, u[1..], acc + [v]);
      var later := SoundItems(stod, u[1..], acc + [v]);
      items := [item] + later;
      assert u == "," + u[1..];
      ConsItem(stod, item, later, "]" + ReadItems(stod, s, acc).rest);
      Assoc(acc, [v], ItemsValue(stod, later));
    } else {
      items := [item];
      assert u == "]" + u[1..];
      OneItem(stod, item, u);
    }
  }

  lemma {:induction false} SoundObject(stod: Stod, s: string) returns (b: Body)
    requires StartsWith(s, '{') && ReadObject(stod, s).Done?
    ensures b.Table? && BodyOk(stod, b) && BodyValue(stod, b) == ReadObject(stod, s).value
    ensures s == BodyText(b, ReadObject(stod, s).rest)
    decreases |s|, 1
  {
    SoundExpectNow('{', s);
    var ws := SpaceSkipped(s[1..]);
    var u := SkipSpace(s[1..]);
    if u[0] == '}' {
      b := Table(ws, []);
      assert u == "}" + u[1..];
    } else {
      var fields := SoundMembers(stod, u, []);
      b := Table(ws, fields);
    }
  }

  lemma {:induction false} SoundMembers(stod: Stod, s: string, acc: seq<Member>) returns (fields: seq<Field>)
    requires ReadMembers(stod, s, acc).Done?
    ensures fields != [] && FieldsOk(stod, fields)
    ensures ReadMembers(stod, s, acc).value == Obj(FieldsValue(stod, acc, fields))
    ensures s == FieldsText(fields, "}" + ReadMembers(stod, s, acc).rest)
    decreases |s|, 4
  {
    var before, key := SoundString(s);
    var k, t := ReadString(s).value, ReadString(s).rest;
    var colon := SoundExpect(':', t);
    var w := Expect(':', t).value;
    var node := SoundValue(stod, w);
    var v, x := ReadValue(stod, w).value, ReadValue(stod, w).rest;
    var after := SpaceSkipped(x);
    var u := SkipSpace(x);
    assert u == [u[0]] + u[1..];
    var field := Field(before, key, colon, node, after);
    if u[0] == ',' {
      var later := SoundMembers(stod, u[1..], Put(acc, k, v));
      fields := [field] + later;
      assert fields[1..] == later;
    } else {
      fields := [field];
    }
  }
}
