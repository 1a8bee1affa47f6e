/** The accepted language, stated without reference to the parser: concrete syntax trees with the text
    and the value of each. It is the grammar of RFC 8259, sections 2 to 7, without \u escapes and
    relaxed: leading zeros, missing digits after a point or an exponent mark, an integer part that is
    only a minus sign, raw control characters in strings, and \v and \f as whitespace. */
module JsonGrammar {
  import opened Common
  import opened JsonValue

  /** One character of a string: written as itself, or as a backslash and an escape letter. */
  datatype Piece = Raw(c: char) | Escaped(e: char)

  datatype Exponent = Exponent(mark: char, sign: string, digits: string)

  datatype Numeral = Numeral(negative: bool, whole: string, fraction: Option<string>, exponent: Option<Exponent>)

  datatype Literal = True | False | Nil

  /** A value with the whitespace before it. */
  datatype Node = Node(ws: string, body: Body)

  datatype Body =
    | Word(literal: Literal)
    | Chars(pieces: seq<Piece>)
    | Num(numeral: Numeral)
    | List(ws: string, items: seq<Item>)
    | Table(ws: string, fields: seq<Field>)

  datatype Item = Item(value: Node, after: string)

  datatype Field = Field(before: string, key: seq<Piece>, colon: string, value: Node, after: string)

  // ----- well-formed trees -----

  predicate IsEscape(c: char) {
    c in {'\"', '\\', '/', 'b', 'f', 'n', 'r', 't'}
  }

  predicate PieceOk(p: Piece) {
    match p
    case Raw(c) => c != '\"' && c != '\\'
    case Escaped(e) => IsEscape(e)
  }

  predicate PiecesOk(ps: seq<Piece>) {
    forall i :: 0 <= i < |ps| ==> PieceOk(ps[i])
  }

  predicate IsMark(c: char) {
    c == 'e' || c == 'E'
  }

  predicate IsSign(s: string) {
    s == "" || s == "+" || s == "-"
  }

  predicate NumeralOk(n: Numeral) {
    && AllDigits(n.whole)
    && (n.negative || n.whole != "")
    && (n.fraction.Some? ==> AllDigits(n.fraction.value))
    && (n.exponent.Some? ==>
          && IsMark(n.exponent.value.mark)
          && IsSign(n.exponent.value.sign)
          && AllDigits(n.exponent.value.digits))
  }

  predicate NodeOk(stod: Stod, n: Node)
    decreases n, 1
  {
    AllSpace(n.ws) && BodyOk(stod, n.body)
  }

  predicate BodyOk(stod: Stod, b: Body)
    decreases b, 0
  {
    match b
    case Word(_) => true
    case Chars(ps) => PiecesOk(ps)
    case Num(n) => NumeralOk(n) && NumeralValue(stod, n).Some?
    case List(ws, items) => AllSpace(ws) && ItemsOk(stod, items)
    case Table(ws, fields) => AllSpace(ws) && FieldsOk(stod, fields)
  }

  predicate ItemsOk(stod: Stod, items: seq<Item>)
    decreases items, 0
  {
    items == [] || (NodeOk(stod, items[0].value) && AllSpace(items[0].after) && ItemsOk(stod, items[1..]))
  }

  predicate FieldsOk(stod: Stod, fields: seq<Field>)
    decreases fields, 0
  {
    fields == [] ||
    (&& AllSpace(fields[0].before) && PiecesOk(fields[0].key) && AllSpace(fields[0].colon)
     && NodeOk(stod, fields[0].value) && AllSpace(fields[0].after) && FieldsOk(stod, fields[1..]))
  }

  // ----- the text of a tree -----
  //
  // Each function gives the text of a tree with `rest` written after it.

  function PieceText(p: Piece, rest: string): string {
    match p
    case Raw(c) => [c] + rest
    case Escaped(e) => ['\\', e] + rest
  }

  function PiecesText(ps: seq<Piece>, rest: string): string {
    if ps == [] then rest else PieceText(ps[0], PiecesText(ps[1..], rest))
  }

  function Quoted(ps: seq<Piece>, rest: string): string {
    "\"" + PiecesText(ps, "\"" + rest)
  }

  function ExponentText(x: Option<Exponent>, rest: string): string {
    if x.None? then rest else [x.value.mark] + (x.value.sign + (x.value.digits + rest))
  }

  function FractionText(f: Option<string>, rest: string): string {
    if f.None? then rest else "." + (f.value + rest)
  }

  function SignText(negative: bool, rest: string): string {
    if negative then "-" + rest else rest
  }

  function NumeralText(n: Numeral, rest: string): string {
    SignText(n.negative, n.whole + FractionText(n.fraction, ExponentText(n.exponent, rest)))
  }

  function LiteralText(l: Literal): string {
    match l
    case True => "true"
    case False => "false"
    case Nil => "null"
  }

  function NodeText(n: Node, rest: string): string
    decreases n, 1
  {
    n.ws + BodyText(n.body, rest)
  }

  function BodyText(b: Body, rest: string): string
    decreases b, 0
  {
    match b
    case Word(l) => LiteralText(l) + rest
    case Chars(ps) => Quoted(ps, rest)
    case Num(n) => NumeralText(n, rest)
    case List(ws, items) => "[" + (ws + ItemsText(items, "]" + rest))
    case Table(ws, fields) => "{" + (ws + FieldsText(fields, "}" + rest))
  }

  /** Items with commas between them. */
  function ItemsText(items: seq<Item>, rest: string): string
    decreases items, 0
  {
    if items == [] then rest else
    NodeText(items[0].value, items[0].after +
      (if |items| == 1 then rest else "," + ItemsText(items[1..], rest)))
  }

  /** Fields with commas between them. */
  function FieldsText(fields: seq<Field>, rest: string): string
    decreases fields, 0
  {
    if fields == [] then rest else
    var f := fields[0];
    f.before + Quoted(f.key, f.colon + (":" + NodeText(f.value, f.after +
      (if |fields| == 1 then rest else "," + FieldsText(fields[1..], rest)))))
  }

  // ----- the value of a tree -----

  function PieceChar(p: Piece): char {
    match p
    case Raw(c) => c
    case Escaped('b') => 8 as char
    case Escaped('f') => 12 as char
    case Escaped('n') => '\n'
    case Escaped('r') => '\r'
    case Escaped('t') => '\t'
    case Escaped(e) => e
  }

  function PiecesString(ps: seq<Piece>): string {
    if ps == [] then "" else [PieceChar(ps[0])] + PiecesString(ps[1..])
  }

  /** An integer if the numeral has neither fraction nor exponent, and then only within 64 bits. */
  function NumeralValue(stod: Stod, n: Numeral): Option<Json>
    requires NumeralOk(n)
  {
    if n.fraction.None? && n.exponent.None? then
      var i := Signed(n.negative, DigitsValue(n.whole));
      if n.whole != "" && InInt64(i) then Some(Int(i)) else None
    else
      match stod(NumeralText(n, ""))
      case None => None
      case Some(d) => Some(Dbl(d))
  }

  function NodeValue(stod: Stod, n: Node): Json
    requires NodeOk(stod, n)
    decreases n, 1
  {
    BodyValue(stod, n.body)
  }

  function BodyValue(stod: Stod, b: Body): Json
    requires BodyOk(stod, b)
    decreases b, 0
  {
    match b
    case Word(True) => Bool(true)
    case Word(False) => Bool(false)
    case Word(Nil) => Null
    case Chars(ps) => Str(PiecesString(ps))
    case Num(n) => NumeralValue(stod, n).value
    case List(_, items) => Arr(ItemsValue(stod, items))
    case Table(_, fields) => Obj(FieldsValue(stod, [], fields))
  }

  function ItemsValue(stod: Stod, items: seq<Item>): seq<Json>
    requires ItemsOk(stod, items)
    decreases items, 0
  {
    if items == [] then [] else [NodeValue(stod, items[0].value)] + ItemsValue(stod, items[1..])
  }

  /** The fields written one after the other into the map `ms`. */
  function FieldsValue(stod: Stod, ms: seq<Member>, fields: seq<Field>): seq<Member>
    requires FieldsOk(stod, fields)
    decreases fields, 0
  {
    if fields == [] then ms
    else
      var ms' := Put(ms, PiecesString(fields[0].key), NodeValue(stod, fields[0].value));
      FieldsValue(stod, ms', fields[1..])
  }

  // ----- what may follow a tree -----

  /** `peek` throws at the end of the text, so most numerals need a next character, and that character
      must not continue the numeral. */
  predicate MayFollowNumeral(n: Numeral, rest: string) {
    if n.exponent.None? then
      rest != "" && !IsDigit(rest[0]) && !IsMark(rest[0]) && (n.fraction.None? ==> rest[0] != '.')
    else if n.exponent.value.sign == "" && n.exponent.value.digits == "" then
      rest != "" && !IsDigit(rest[0]) && rest[0] != '+' && rest[0] != '-'
    else
      rest == "" || !IsDigit(rest[0])
  }

  predicate MayFollow(n: Node, rest: string) {
    n.body.Num? ==> MayFollowNumeral(n.body.numeral, rest)
  }

  /** `n` is the syntax of value `v` and `s` is its text followed by `rest`. */
  predicate Derives(stod: Stod, n: Node, v: Json, s: string, rest: string) {
    NodeOk(stod, n) && NodeValue(stod, n) == v && s == NodeText(n, rest) && MayFollow(n, rest)
  }

  // ----- objects -----

  /** The key of a field. */
  function FieldKey(f: Field): string {
    PiecesString(f.key)
  }

  /** Value of the last field with key `k`. */
  function LastValue(stod: Stod, fields: seq<Field>, k: string): Option<Json>
    requires FieldsOk(stod, fields)
    decreases fields, 0
  {
    if fields == [] then None
    else
      var later := LastValue(stod, fields[1..], k);
      if later.Some? then later
      else if FieldKey(fields[0]) == k then Some(NodeValue(stod, fields[0].value))
      else None
  }

  /** The members of an object are in strictly increasing key order, and each key that occurs is bound
      to the value of its last occurrence. */
  lemma {:induction false} LastFieldWins(stod: Stod, ms: seq<Member>, fields: seq<Field>, k: string)
    requires FieldsOk(stod, fields) && Sorted(ms)
    ensures Sorted(FieldsValue(stod, ms, fields)) && InKeyOrder(FieldsValue(stod, ms, fields))
    ensures Lookup(FieldsValue(stod, ms, fields), k) ==
            (var last := LastValue(stod, fields, k); if last.Some? then last else Lookup(ms, k))
    decreases fields
  {
    if fields != [] {
      var v := NodeValue(stod, fields[0].value);
      PutKeepsSorted(ms, FieldKey(fields[0]), v);
      PutThenLookup(ms, FieldKey(fields[0]), v, k);
      LastFieldWins(stod, Put(ms, FieldKey(fields[0]), v), fields[1..], k);
    }
    SortedIsLexicographic(FieldsValue(stod, ms, fields));
  }
}
