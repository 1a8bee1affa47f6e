/** The compact serializer of nested lists with 8-byte strings, and why its output is unambiguous. */
module CompactJson {
  import opened Common
  import opened JsonValue
  import opened JsonReader
  import opened JsonCompleteness

  /** A small string is an array of 8 characters; a list may be a null pointer. */
  datatype Node =
    | Small(chars: string)
    | Number(n: int)
    | NullList
    | List(items: seq<Node>)

  const NUL: char := 0 as char

  /** `std::string(data, 8).c_str()`: the characters before the first NUL. */
  function UpToNul(s: string): string {
    if s == "" || s[0] == NUL then "" else [s[0]] + UpToNul(s[1..])
  }

  // The text of a node, with `rest` written after it.

  function Text(n: Node, rest: string): string
    decreases n, 1
  {
    match n
    case Small(s) => "\"" + (UpToNul(s) + ("\"" + rest))
    case Number(i) => IntText(i) + rest
    case NullList => "nullptr!!!" + rest
    case List(items) => "[" + ItemsText(items, true, rest)
  }

  function ItemsText(items: seq<Node>, first: bool, rest: string): string
    decreases items, 0
  {
    if items == [] then "]" + rest
    else (if first then "" else ",") + Text(items[0], ItemsText(items[1..], false, rest))
  }

  // ----- serializing -----

  lemma {:induction false} TextAppend(n: Node, rest: string, more: string)
    ensures Text(n, rest) + more == Text(n, rest + more)
    decreases n, 1
  {
    match n
    case Small(s) =>
      var u := UpToNul(s);
      assert "\"" + (u + ("\"" + rest)) + more == "\"" + (u + ("\"" + (rest + more)));
    case Number(i) => assert IntText(i) + rest + more == IntText(i) + (rest + more);
    case NullList => assert "nullptr!!!" + rest + more == "nullptr!!!" + (rest + more);
    case List(items) =>
      ItemsAppend(items, true, rest, more);
      assert "[" + ItemsText(items, true, rest) + more == "[" + (ItemsText(items, true, rest) + more);
  }

  lemma {:induction false} ItemsAppend(items: seq<Node>, first: bool, rest: string, more: string)
    ensures ItemsText(items, first, rest) + more == ItemsText(items, first, rest + more)
    decreases items, 0
  {
    if items == [] {
      assert "]" + rest + more == "]" + (rest + more);
    } else {
      var t := ItemsText(items[1..], false, rest);
      ItemsAppend(items[1..], false, rest, more);
      TextAppend(items[0], t, more);
      var sep := if first then "" else ",";
      assert sep + Text(items[0], t) + more == sep + (Text(items[0], t) + more);
    }
  }

  method Serialize(n: Node) returns (out: string)
    ensures out == Text(n, "")
    decreases n, 1
  {
    match n
    case Small(s) =>
      out := "\"" + UpToNul(s) + "\"";
      assert out == Text(n, "");
    case Number(i) =>
      out := IntText(i);
      assert out + "" == out;
    case NullList =>
      out := "nullptr!!!";
      assert out + "" == out;
    case List(items) => out := SerializeList(items);
  }

  method SerializeList(items: seq<Node>) returns (out: string)
    ensures out == Text(List(items), "")
    decreases items, 0
  {
    out := "[";
    var first := true;
    for i := 0 to |items|
      invariant first == (i == 0)
      invariant out + ItemsText(items[i..], first, "") == "[" + ItemsText(items, true, "")
    {
      var sep := if first then "" else ",";
      var item := Serialize(items[i]);
      ghost var later := ItemsText(items[i + 1..], false, "");
      assert items[i..][1..] == items[i + 1..];
      TextAppend(items[i], "", later);
      assert "" + later == later;
      Regroup(out, sep, item, later);
      out := out + sep;
      first := false;
      out := out + item;
    }
    assert "]" + "" == "]";
    out := out + "]";
  }

  lemma Regroup(a: string, b: string, c: string, d: string)
    ensures a + (b + (c + d)) == a + b + c + d
  {
  }

  // ----- unambiguous output -----

  /** A quotation mark inside the string is never followed by a comma or a closing bracket. */
  predicate Closed(s: string) {
    forall i :: 0 <= i < |s| - 1 && s[i] == '\"' ==> s[i + 1] != ',' && s[i + 1] != ']'
  }

  /** All printed small strings, at any depth, are closed; strings without quotation marks always are. */
  predicate AllClosed(n: Node)
    decreases n, 1
  {
    match n
    case Small(s) => Closed(UpToNul(s))
    case List(items) => ItemsClosed(items)
    case _ => true
  }

  predicate ItemsClosed(items: seq<Node>)
    decreases items, 0
  {
    items == [] || (AllClosed(items[0]) && ItemsClosed(items[1..]))
  }

  /** The tree with small strings cut at their first NUL. */
  function Cut(n: Node): Node
    decreases n, 1
  {
    match n
    case Small(s) => Small(UpToNul(s))
    case List(items) => List(CutAll(items))
    case _ => n
  }

  function CutAll(items: seq<Node>): seq<Node>
    decreases items, 0
  {
    if items == [] then [] else [Cut(items[0])] + CutAll(items[1..])
  }

  predicate Stops(s: string) {
    s == "" || s[0] == ',' || s[0] == ']'
  }

  /** A quotation mark at the start of a closed string is not followed by a stop. */
  lemma QuoteStarts(a: string, x: string)
    requires Closed(a)
    ensures var s := a + ("\"" + x);
            if a == "" then s[0] == '\"' && s[1..] == x
            else s[0] == a[0] && s[1..] == a[1..] + ("\"" + x) && (s[0] == '\"' ==> !Stops(s[1..]))
  {
  }

  lemma {:induction false} QuoteEnds(a: string, b: string, x: string, y: string)
    requires Closed(a) && Closed(b) && Stops(x) && Stops(y) && a + ("\"" + x) == b + ("\"" + y)
    ensures a == b && x == y
  {
    QuoteStarts(a, x);
    QuoteStarts(b, y);
    if a != "" {
      ClosedTail(a);
      ClosedTail(b);
      QuoteEnds(a[1..], b[1..], x, y);
      assert a == [a[0]] + a[1..] && b == [b[0]] + b[1..];
    }
  }

  lemma ClosedTail(s: string)
    requires Closed(s) && s != ""
    ensures Closed(s[1..])
  {
    var t := s[1..];
    forall i | 0 <= i < |t| - 1 && t[i] == '\"'
      ensures t[i + 1] != ',' && t[i + 1] != ']'
    {
      assert t[i] == s[i + 1] && t[i + 1] == s[i + 2];
    }
  }

  lemma DigitsEnd(a: string, b: string, x: string, y: string)
    requires AllDigits(a) && AllDigits(b) && Stops(x) && Stops(y) && a + x == b + y
    ensures a == b && x == y
  {
    SkipsDigits(a, x);
    SkipsDigits(b, y);
    assert |a| == |b|;
    assert (a + x)[..|a|] == a && (b + y)[..|b|] == b;
  }

  lemma IntStarts(i: int, x: string)
    ensures var s := IntText(i) + x; s != "" && (s[0] == '-' <==> i < 0) && (i < 0 ==> s[1..] == Decimal(-i) + x)
  {
    var d := Decimal(if i < 0 then -i else i);
    assert IsDigit(d[0]) && (d + x)[0] == d[0];
    assert "-" + d + x == "-" + (d + x);
  }

  lemma IntsEnd(i: int, j: int, x: string, y: string)
    requires Stops(x) && Stops(y) && IntText(i) + x == IntText(j) + y
    ensures i == j && x == y
  {
    IntStarts(i, x);
    IntStarts(j, y);
    if i < 0 {
      DigitsEnd(Decimal(-i), Decimal(-j), x, y);
    } else {
      DigitsEnd(Decimal(i), Decimal(j), x, y);
    }
  }

  /** The first character of a node tells its kind. */
  lemma FirstChar(n: Node, rest: string)
    ensures var s := Text(n, rest);
            && s != "" && s[0] != ']' && s[0] != ','
            && (n.Small? <==> s[0] == '\"') && (n.NullList? <==> s[0] == 'n') && (n.List? <==> s[0] == '[')
  {
  }

  lemma {:induction false} TextIsUnique(a: Node, b: Node, x: string, y: string)
    requires AllClosed(a) && AllClosed(b) && Stops(x) && Stops(y) && Text(a, x) == Text(b, y)
    ensures Cut(a) == Cut(b) && x == y
    decreases a, 1
  {
    var s := Text(a, x);
    FirstChar(a, x);
    FirstChar(b, y);
    match a
    case Small(u) =>
      var p, q := UpToNul(u), UpToNul(b.chars);
      assert s[1..] == p + ("\"" + x) && s[1..] == q + ("\"" + y);
      QuoteEnds(p, q, x, y);
    case Number(i) => IntsEnd(i, b.n, x, y);
    case NullList => assert s[10..] == x && s[10..] == y;
    case List(items) =>
      assert s[1..] == ItemsText(items, true, x) && s[1..] == ItemsText(b.items, true, y);
      ItemsAreUnique(items, b.items, true, x, y);
  }

  lemma {:induction false} ItemsAreUnique(a: seq<Node>, b: seq<Node>, first: bool, x: string, y: string)
    requires ItemsClosed(a) && ItemsClosed(b) && Stops(x) && Stops(y)
    requires ItemsText(a, first, x) == ItemsText(b, first, y)
    ensures CutAll(a) == CutAll(b) && x == y
    decreases a, 0
  {
    var s := ItemsText(a, first, x);
    ItemsStart(a, first, x);
    ItemsStart(b, first, y);
    if a == [] {
      assert s[1..] == x && s[1..] == y;
    } else {
      var t, u := ItemsText(a[1..], false, x), ItemsText(b[1..], false, y);
      ItemsStart(a[1..], false, x);
      ItemsStart(b[1..], false, y);
      assert Text(a[0], t) == Text(b[0], u) by {
        assert s[if first then 0 else 1..] == Text(a[0], t);
        assert s[if first then 0 else 1..] == Text(b[0], u);
      }
      TextIsUnique(a[0], b[0], t, u);
      ItemsAreUnique(a[1..], b[1..], false, x, y);
    }
  }

  /** After an item comes a comma or the closing bracket, and only an empty list starts with the latter. */
  lemma ItemsStart(items: seq<Node>, first: bool, rest: string)
    ensures var s := ItemsText(items, first, rest);
            s != "" && (s[0] == ']' <==> items == []) && (!first ==> Stops(s))
  {
  }

  lemma {:induction false} CutKeepsText(n: Node, rest: string)
    ensures Text(Cut(n), rest) == Text(n, rest)
    decreases n, 1
  {
    match n
    case Small(s) => CutTwice(s);
    case List(items) => CutAllKeepsText(items, true, rest);
    case _ =>
  }

  lemma {:induction false} CutAllKeepsText(items: seq<Node>, first: bool, rest: string)
    ensures ItemsText(CutAll(items), first, rest) == ItemsText(items, first, rest)
    decreases items, 0
  {
    if items != [] {
      assert CutAll(items)[1..] == CutAll(items[1..]);
      CutAllKeepsText(items[1..], false, rest);
      CutKeepsText(items[0], ItemsText(items[1..], false, rest));
    }
  }

  lemma {:induction false} CutTwice(s: string)
    ensures UpToNul(UpToNul(s)) == UpToNul(s)
  {
    if s != "" && s[0] != NUL {
      CutTwice(s[1..]);
      assert UpToNul(s)[1..] == UpToNul(s[1..]);
    }
  }

  /** Two trees of closed strings, such as all strings without quotation marks, serialize alike exactly when
      they are the same tree up to what follows the first NUL of a small string. */
  lemma SerializationIsInjective(a: Node, b: Node)
    requires AllClosed(a) && AllClosed(b)
    ensures Text(a, "") == Text(b, "") <==> Cut(a) == Cut(b)
  {
    if Text(a, "") == Text(b, "") {
      TextIsUnique(a, b, "", "");
    }
    CutKeepsText(a, "");
    CutKeepsText(b, "");
  }

  // ----- small strings from C strings -----

  /** The recursive length, which counts the terminating NUL. */
  function Length(s: string): (n: nat)
    ensures n == |s| + 1
  {
    if s == "" then 1 else Length(s[1..]) + 1
  }

  /** The first 8 characters of `s`, filled up with NUL. */
  function SmallOf(s: string): Node {
    var k := if |s| < 8 then |s| else 8;
    Small(s[..k] + seq(8 - k, _ => NUL))
  }

  /** The constructor from a C string with characters `s`. What is kept and printed is its first 8 characters. */
  method FromCString(s: string) returns (n: Node)
    requires NUL !in s
    ensures n == SmallOf(s) && |n.chars| == 8
    ensures UpToNul(n.chars) == s[..if |s| < 8 then |s| else 8]
  {
    var d := new char[8](_ => NUL);
    var source := s + [NUL];
    var count := if Length(s) < 8 then Length(s) else 8;
    for i := 0 to count
      invariant d[..] == source[..i] + seq(8 - i, _ => NUL)
    {
      d[i] := source[i];
    }
    n := Small(d[..]);
    SmallOfPrints(s);
  }

  lemma SmallOfPrints(s: string)
    requires NUL !in s
    ensures UpToNul(SmallOf(s).chars) == s[..if |s| < 8 then |s| else 8]
  {
    var k := if |s| < 8 then |s| else 8;
    PaddedString(s[..k], seq(8 - k, _ => NUL));
  }

  lemma {:induction false} PaddedString(s: string, pad: string)
    requires NUL !in s && (pad == "" || pad[0] == NUL)
    ensures UpToNul(s + pad) == s
  {
    if s == "" {
      assert s + pad == pad;
    } else {
      assert (s + pad)[1..] == s[1..] + pad;
      PaddedString(s[1..], pad);
    }
  }

  lemma Splice(p: string, q: string, t: string)
    ensures (p + "\",\"" + q) + t == p + ("\"" + ("," + ("\"" + (q + t))))
  {
  }

  /** A string that is not closed can make the output ambiguous: any two strings in a list look like one that
      has a quotation mark, a comma and a quotation mark between them, if that one still fits in 8 bytes. */
  lemma QuoteIsAmbiguous(p: string, q: string)
    requires NUL !in p && NUL !in q && |p| + |q| <= 5
    ensures var one := List([SmallOf(p + "\",\"" + q)]);
            var two := List([SmallOf(p), SmallOf(q)]);
            Cut(one) != Cut(two) && Text(one, "") == Text(two, "")
  {
    var r := p + "\",\"" + q;
    var one, two := [SmallOf(r)], [SmallOf(p), SmallOf(q)];
    SmallOfPrints(r);
    SmallOfPrints(p);
    SmallOfPrints(q);
    assert r[..|r|] == r && p[..|p|] == p && q[..|q|] == q;
    assert one[1..] == [] && two[1..] == [SmallOf(q)] && [SmallOf(q)][1..] == [];
    var t := "\"" + ("]" + "");
    Splice(p, q, t);
    assert ItemsText([], false, "") == "]" + "";
    assert Text(SmallOf(q), "]" + "") == "\"" + (q + t);
    var later := ItemsText([SmallOf(q)], false, "");
    assert later == "," + ("\"" + (q + t));
    assert ItemsText(one, true, "") == "" + ("\"" + (r + t));
    assert ItemsText(two, true, "") == "" + ("\"" + (p + ("\"" + later)));
    assert |CutAll(two[1..])| == 1;
    assert |CutAll(one)| == 1 && |CutAll(two)| == 2;
  }

  /** A small string on its own is never ambiguous, whatever it contains. */
  lemma LoneStringIsUnambiguous(s: string, n: Node)
    ensures Text(Small(s), "") == Text(n, "") <==> Cut(Small(s)) == Cut(n)
  {
    FirstChar(Small(s), "");
    FirstChar(n, "");
    if n.Small? {
      var a, b := UpToNul(s), UpToNul(n.chars);
      var t := "\"" + "";
      if a + t == b + t {
        assert (a + t)[..|a|] == a && (b + t)[..|b|] == b;
      }
      assert Text(Small(s), "")[1..] == a + t && Text(n, "")[1..] == b + t;
    }
  }
}
