/** What serialize_json computes. */
module JsonPrinter {
  import opened Common
  import opened JsonValue
  import opened JsonGrammar

  /** What std::to_string prints for a double: fixed-point digits, or the name of a value that is not finite. */
  datatype DoubleText =
    | Fixed(negative: bool, whole: string, fraction: string)
    | Named(name: string)

  predicate DoubleTextOk(t: DoubleText) {
    match t
    case Fixed(_, whole, fraction) => whole != "" && AllDigits(whole) && AllDigits(fraction)
    case Named(name) => name == "inf" || name == "-inf" || name == "nan" || name == "-nan"
  }

  type PrintedDouble = t: DoubleText | DoubleTextOk(t) witness Fixed(false, "0", "")

  /** std::to_string on doubles. */
  type Dtos = Double -> PrintedDouble

  function DoubleString(t: DoubleText): string {
    match t
    case Fixed(negative, whole, fraction) => SignText(negative, whole + ("." + fraction))
    case Named(name) => name
  }

  function Indent(level: nat): string {
    seq(2 * level, _ => ' ')
  }

  function EscapeChar(c: char): string {
    if c == '\"' then "\\\"" else if c == '\\' then "\\\\" else [c]
  }

  function EscapeString(s: string): string {
    if s == "" then "" else EscapeChar(s[0]) + EscapeString(s[1..])
  }

  function DropZeros(s: string): string {
    if s != "" && s[|s| - 1] == '0' then DropZeros(s[..|s| - 1]) else s
  }

  /** Trailing zeros are dropped after a decimal point, and then a point at the end. */
  function TrimDouble(s: string): string {
    if '.' !in s then s else
    var t := DropZeros(s);
    if t != "" && t[|t| - 1] == '.' then t[..|t| - 1] else t
  }

  /** Only zeros after the last other character are dropped, with the point if it is that character. */
  lemma TrimDropsZeros(s: string) returns (zeros: string)
    requires '.' in s
    ensures forall i :: 0 <= i < |zeros| ==> zeros[i] == '0'
    ensures var t := TrimDouble(s);
            s == t + "." + zeros || (s == t + zeros && t != "" && t[|t| - 1] != '0' && t[|t| - 1] != '.')
  {
    zeros := DroppedZeros(s);
    var t := DropZeros(s);
    if t != "" && t[|t| - 1] == '.' {
      assert t == t[..|t| - 1] + ".";
    }
  }

  lemma {:induction false} DroppedZeros(s: string) returns (zeros: string)
    requires '.' in s
    ensures forall i :: 0 <= i < |zeros| ==> zeros[i] == '0'
    ensures var t := DropZeros(s); s == t + zeros && t != "" && t[|t| - 1] != '0'
    decreases |s|
  {
    if s[|s| - 1] == '0' {
      assert s == s[..|s| - 1] + "0";
      zeros := DroppedZeros(s[..|s| - 1]);
      Assoc(DropZeros(s), zeros, "0");
      zeros := zeros + "0";
    } else {
      zeros := "";
    }
  }

  function Print(dtos: Dtos, v: Json, level: nat): string
    decreases v, 1
  {
    match v
    case Null => "null"
    case Bool(b) => if b then "true" else "false"
    case Int(n) => IntText(n)
    case Dbl(d) => TrimDouble(DoubleString(dtos(d)))
    case Str(s) => "\"" + EscapeString(s) + "\""
    case Arr(items) => "[\n" + PrintItems(dtos, items, level, true) + "\n" + Indent(level) + "]"
    case Obj(members) => "{\n" + PrintMembers(dtos, members, level, true) + "\n" + Indent(level) + "}"
  }

  function Separator(first: bool): string {
    if first then "" else ",\n"
  }

  function PrintItems(dtos: Dtos, items: seq<Json>, level: nat, first: bool): string
    decreases items, 0
  {
    if items == [] then "" else
    Separator(first) + (Indent(level) + "  " + Print(dtos, items[0], level + 1)) +
    PrintItems(dtos, items[1..], level, false)
  }

  function PrintMember(dtos: Dtos, m: Member, level: nat): string
    decreases m, 2
  {
    Indent(level) + "  \"" + m.key + "\": " + Print(dtos, m.value, level + 1)
  }

  function PrintMembers(dtos: Dtos, ms: seq<Member>, level: nat, first: bool): string
    decreases ms, 0
  {
    if ms == [] then "" else
    Separator(first) + PrintMember(dtos, ms[0], level) + PrintMembers(dtos, ms[1..], level, false)
  }

  // ----- the values that C++ objects of type JsonValue hold -----

  /** Integers are 64 bits wide and objects are ordered maps. */
  ghost predicate Legal(v: Json)
    decreases v, 1
  {
    match v
    case Int(n) => InInt64(n)
    case Arr(items) => AllLegal(items)
    case Obj(ms) => Sorted(ms) && MembersLegal(ms)
    case _ => true
  }

  ghost predicate AllLegal(items: seq<Json>)
    decreases items, 0
  {
    items == [] || (Legal(items[0]) && AllLegal(items[1..]))
  }

  ghost predicate MembersLegal(ms: seq<Member>)
    decreases ms, 0
  {
    ms == [] || (Legal(ms[0].value) && MembersLegal(ms[1..]))
  }

  predicate Plain(s: string) {
    '\"' !in s && '\\' !in s
  }

  /** No object key, at any depth, contains a quotation mark or a backslash. */
  predicate PlainKeys(v: Json)
    decreases v, 1
  {
    match v
    case Arr(items) => PlainKeysItems(items)
    case Obj(ms) => PlainKeysMembers(ms)
    case _ => true
  }

  predicate PlainKeysItems(items: seq<Json>)
    decreases items, 0
  {
    items == [] || (PlainKeys(items[0]) && PlainKeysItems(items[1..]))
  }

  predicate PlainKeysMembers(ms: seq<Member>)
    decreases ms, 0
  {
    ms == [] || (Plain(ms[0].key) && PlainKeys(ms[0].value) && PlainKeysMembers(ms[1..]))
  }

  // ----- the text of a printed double -----

  /** The numeral that is left of fixed-point digits after trimming. */
  function Trimmed(t: DoubleText): Numeral
    requires t.Fixed?
  {
    var digits := DropZeros(t.fraction);
    Numeral(t.negative, t.whole, if digits == "" then None else Some(digits), None)
  }

  lemma {:induction false} DropZerosAfterPoint(a: string, digits: string)
    ensures DropZeros(a + ("." + digits)) == a + ("." + DropZeros(digits))
    decreases |digits|
  {
    var s := a + ("." + digits);
    if digits != "" {
      assert s[|s| - 1] == digits[|digits| - 1];
      if digits[|digits| - 1] == '0' {
        assert s[..|s| - 1] == a + ("." + digits[..|digits| - 1]);
        DropZerosAfterPoint(a, digits[..|digits| - 1]);
      }
    }
  }

  lemma {:induction false} DropZerosKeepsDigits(digits: string)
    requires AllDigits(digits)
    ensures AllDigits(DropZeros(digits))
    ensures DropZeros(digits) == "" <==> forall i :: 0 <= i < |digits| ==> digits[i] == '0'
    decreases |digits|
  {
    if digits != "" && digits[|digits| - 1] == '0' {
      DropZerosKeepsDigits(digits[..|digits| - 1]);
    }
  }

  lemma TrimAfterPoint(a: string, digits: string)
    requires AllDigits(digits)
    ensures var kept := DropZeros(digits);
            TrimDouble(a + ("." + digits)) == if kept == "" then a else a + ("." + kept)
  {
    var kept := DropZeros(digits);
    var s, t := a + ("." + digits), a + ("." + kept);
    assert s[|a|] == '.';
    DropZerosAfterPoint(a, digits);
    DropZerosKeepsDigits(digits);
    if kept == "" {
      assert t[|t| - 1] == '.' && t[..|t| - 1] == a;
    } else {
      assert t[|t| - 1] == kept[|kept| - 1];
    }
  }

  /** Trimming the text of a double leaves the text of a numeral, which has a fraction exactly when the double
      was printed with one that is not zero. */
  lemma TrimmedText(t: PrintedDouble)
    requires t.Fixed?
    ensures NumeralOk(Trimmed(t)) && NumeralText(Trimmed(t), "") == TrimDouble(DoubleString(t))
    ensures Trimmed(t).fraction.Some? <==> exists i :: 0 <= i < |t.fraction| && t.fraction[i] != '0'
  {
    var a := SignText(t.negative, t.whole);
    var kept := DropZeros(t.fraction);
    DropZerosKeepsDigits(t.fraction);
    TrimAfterPoint(a, t.fraction);
    SignAssoc(t.negative, t.whole, "." + t.fraction);
    SignAssoc(t.negative, t.whole, "." + kept);
    SignAssoc(t.negative, t.whole, "");
    assert kept + "" == kept && a + "" == a;
  }

  lemma SignAssoc(negative: bool, a: string, b: string)
    ensures SignText(negative, a + b) == SignText(negative, a) + b
  {
    Assoc("-", a, b);
  }
}
