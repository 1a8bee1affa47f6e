/** What each parser method computes, as a function from the unread text to a value and the rest.
    A thrown exception is `Fail`. `stod` is the conversion of number text to a double, which may throw. */
module JsonReader {
  import opened Common
  import opened JsonValue

  datatype Result<+T> = Fail | Done(value: T, rest: string)

  function SkipSpace(s: string): (r: string)
    ensures |r| <= |s|
    ensures r != "" ==> !IsSpace(r[0])
  {
    if s != "" && IsSpace(s[0]) then SkipSpace(s[1..]) else s
  }

  function SkipDigits(s: string): (r: string)
    ensures |r| <= |s|
    ensures r != "" ==> !IsDigit(r[0])
  {
    if s != "" && IsDigit(s[0]) then SkipDigits(s[1..]) else s
  }

  predicate StartsWith(s: string, c: char) {
    s != "" && s[0] == c
  }

  function Expect(c: char, s: string): (r: Option<string>)
    ensures r.Some? ==> |r.value| < |s|
  {
    var t := SkipSpace(s);
    if StartsWith(t, c) then Some(t[1..]) else None
  }

  // ----- strings -----

  function Unescape(e: char): Option<char> {
    match e
    case '\"' => Some('\"')
    case '\\' => Some('\\')
    case '/' => Some('/')
    case 'b' => Some(8 as char)
    case 'f' => Some(12 as char)
    case 'n' => Some('\n')
    case 'r' => Some('\r')
    case 't' => Some('\t')
    case _ => None
  }

  function ReadChars(s: string, acc: string): (r: Result<string>)
    ensures r.Done? ==> |r.rest| < |s|
    decreases |s|
  {
    if s == "" then Fail
    else if s[0] == '\"' then Done(acc, s[1..])
    else if s[0] != '\\' then ReadChars(s[1..], acc + [s[0]])
    else if |s| == 1 then Fail
    else match Unescape(s[1])
      case None => Fail
      case Some(c) => ReadChars(s[2..], acc + [c])
  }

  function ReadString(s: string): (r: Result<string>)
    ensures r.Done? ==> |r.rest| < |s|
  {
    match Expect('\"', s)
    case None => Fail
    case Some(t) => ReadChars(t, "")
  }

  // ----- numbers -----

  /** std::stoll on a text of the form -?[0-9]*: throws without digits or outside 64 bits. */
  function Stoll(s: string): Option<int>
    requires SignedDigits(s)
  {
    var negative := StartsWith(s, '-');
    var digits := if negative then s[1..] else s;
    if digits == "" then None else
    var n := Signed(negative, DigitsValue(digits));
    if InInt64(n) then Some(n) else None
  }

  /** The rest after an exponent part, if the text has one; `None` when `peek` throws. */
  function SkipExponent(s: string): (r: Option<string>)
    ensures r.Some? ==> |r.value| <= |s|
  {
    if s == "" then None
    else if s[0] != 'e' && s[0] != 'E' then Some(s)
    else if |s| == 1 then None
    else if s[1] == '+' || s[1] == '-' then Some(SkipDigits(s[2..]))
    else Some(SkipDigits(s[1..]))
  }

  lemma SkipDigitsSplit(s: string) returns (d: string)
    ensures AllDigits(d) && s == d + SkipDigits(s)
  {
    if s != "" && IsDigit(s[0]) {
      var d' := SkipDigitsSplit(s[1..]);
      d := [s[0]] + d';
    } else {
      d := "";
    }
  }

  /** Scans a numeral; the value says whether it has a fraction or an exponent. */
  function ScanNumber(s: string): (r: Result<bool>)
    ensures r.Done? ==> s != "" && |r.rest| <= |s|
    ensures r.Done? && (s[0] == '-' || IsDigit(s[0])) ==> |r.rest| < |s|
  {
    if s == "" then Fail else
    var afterWhole := SkipDigits(if s[0] == '-' then s[1..] else s);
    if afterWhole == "" then Fail else
    var fraction := afterWhole[0] == '.';
    var afterFraction := if fraction then SkipDigits(afterWhole[1..]) else afterWhole;
    match SkipExponent(afterFraction)
    case None => Fail
    case Some(rest) => Done(fraction || rest != afterFraction, rest)
  }

  predicate SignedDigits(s: string) {
    AllDigits(s) || (StartsWith(s, '-') && AllDigits(s[1..]))
  }

  function Convert(stod: Stod, isDouble: bool, numeral: string): Option<Json>
    requires !isDouble ==> SignedDigits(numeral)
  {
    if isDouble then
      match stod(numeral)
      case None => None
      case Some(d) => Some(Dbl(d))
    else
      match Stoll(numeral)
      case None => None
      case Some(n) => Some(Int(n))
  }

  function ReadNumber(stod: Stod, s: string): (r: Result<Json>)
    ensures r.Done? ==> s != "" && |r.rest| <= |s|
    ensures r.Done? && (s[0] == '-' || IsDigit(s[0])) ==> |r.rest| < |s|
  {
    match ScanNumber(s)
    case Fail => Fail
    case Done(isDouble, rest) =>
      NumeralIsSignedDigits(s);
      match Convert(stod, isDouble, s[..|s| - |rest|])
      case None => Fail
      case Some(v) => Done(v, rest)
  }

  lemma NumeralIsSignedDigits(s: string)
    requires ScanNumber(s).Done?
    ensures !ScanNumber(s).value ==> SignedDigits(s[..|s| - |ScanNumber(s).rest|])
  {
    if !ScanNumber(s).value {
      var d := SkipDigitsSplit(if s[0] == '-' then s[1..] else s);
      var numeral := s[..|s| - |ScanNumber(s).rest|];
      if s[0] == '-' {
        assert numeral[1..] == d;
      } else {
        assert numeral == d;
      }
    }
  }

  // ----- values -----

  function ReadLiteral(literal: string, v: Json, s: string): Result<Json> {
    if literal <= s then Done(v, s[|literal|..]) else Fail
  }

  function ReadValue(stod: Stod, s: string): (r: Result<Json>)
    ensures r.Done? ==> |r.rest| < |s|
    decreases |s|, 2
  {
    var t := SkipSpace(s);
    if t == "" then Fail
    else if t[0] == '\"' then
      match ReadString(t)
      case Fail => Fail
      case Done(str, rest) => Done(Str(str), rest)
    else if t[0] == '-' || IsDigit(t[0]) then ReadNumber(stod, t)
    else if t[0] == '[' then ReadArray(stod, t)
    else if t[0] == '{' then ReadObject(stod, t)
    else if t[0] == 't' then ReadLiteral("true", Bool(true), t)
    else if t[0] == 'f' then ReadLiteral("false", Bool(false), t)
    else if t[0] == 'n' then ReadLiteral("null", Null, t)
    else Fail
  }

  function ReadArray(stod: Stod, s: string): (r: Result<Json>)
    ensures r.Done? ==> |r.rest| < |s|
    decreases |s|, 1
  {
    match Expect('[', s)
    case None => Fail
    case Some(t) =>
      var u := SkipSpace(t);
      if u == "" then Fail
      else if u[0] == ']' then Done(Arr([]), u[1..])
      else ReadItems(stod, u, [])
  }

  /** The loop of parse_array, entered with the items read so far. */
  function ReadItems(stod: Stod, s: string, acc: seq<Json>): (r: Result<Json>)
    ensures r.Done? ==> |r.rest| < |s|
    decreases |s|, 3
  {
    match ReadValue(stod, s)
    case Fail => Fail
    case Done(v, t) =>
      var u := SkipSpace(t);
      if u == "" then Fail
      else if u[0] == ',' then ReadItems(stod, u[1..], acc + [v])
      else if u[0] == ']' then Done(Arr(acc + [v]), u[1..])
      else Fail
  }

  function ReadObject(stod: Stod, s: string): (r: Result<Json>)
    ensures r.Done? ==> |r.rest| < |s|
    decreases |s|, 1
  {
    match Expect('{', s)
    case None => Fail
    case Some(t) =>
      var u := SkipSpace(t);
      if u == "" then Fail
      else if u[0] == '}' then Done(Obj([]), u[1..])
      else ReadMembers(stod, u, [])
  }

  /** The loop of parse_object, entered with the map built so far. */
  function ReadMembers(stod: Stod, s: string, acc: seq<Member>): (r: Result<Json>)
    ensures r.Done? ==> |r.rest| < |s|
    decreases |s|, 3
  {
    match ReadString(s)
    case Fail => Fail
    case Done(key, t) =>
      match Expect(':', t)
      case None => Fail
      case Some(w) =>
        match ReadValue(stod, w)
        case Fail => Fail
        case Done(v, x) =>
          var u := SkipSpace(x);
          if u == "" then Fail
          else if u[0] == ',' then ReadMembers(stod, u[1..], Put(acc, key, v))
          else if u[0] == '}' then Done(Obj(Put(acc, key, v)), u[1..])
          else Fail
  }

  /** The public entry point: one value, then only whitespace. */
  function Parse(stod: Stod, s: string): Option<Json> {
    match ReadValue(stod, s)
    case Fail => None
    case Done(v, rest) => if SkipSpace(rest) == "" then Some(v) else None
  }
}
