/** What the JSON parser makes of the compact serializer's output. */
module CompactReread {
  import opened Common
  import opened JsonValue
  import opened JsonReader
  import opened JsonSoundness
  import opened JsonCompleteness
  import opened JsonPrinter
  import opened JsonReread
  import opened JsonRoundTrip
  import C = CompactJson

  type Tree = C.Node

  /** The JSON value that a tree stands for. */
  function ToJson(n: Tree): Json
    decreases n, 1
  {
    match n
    case Small(s) => Str(C.UpToNul(s))
    case Number(i) => Int(i)
    case NullList => Null
    case List(items) => Arr(ToJsons(items))
  }

  function ToJsons(items: seq<Tree>): seq<Json>
    decreases items, 0
  {
    if items == [] then [] else [ToJson(items[0])] + ToJsons(items[1..])
  }

  /** Numbers are of type int64_t. */
  predicate Typed(n: Tree)
    decreases n, 1
  {
    match n
    case Number(i) => InInt64(i)
    case List(items) => AllTyped(items)
    case _ => true
  }

  predicate AllTyped(items: seq<Tree>)
    decreases items, 0
  {
    items == [] || (Typed(items[0]) && AllTyped(items[1..]))
  }

  /** No list, at any depth, is a null pointer. */
  predicate NonNull(n: Tree)
    decreases n, 1
  {
    match n
    case NullList => false
    case List(items) => AllNonNull(items)
    case _ => true
  }

  predicate AllNonNull(items: seq<Tree>)
    decreases items, 0
  {
    items == [] || (NonNull(items[0]) && AllNonNull(items[1..]))
  }

  /** No printed string, at any depth, contains a quotation mark or a backslash. */
  predicate PlainTree(n: Tree)
    decreases n, 1
  {
    match n
    case Small(s) => Plain(C.UpToNul(s))
    case List(items) => AllPlain(items)
    case _ => true
  }

  predicate AllPlain(items: seq<Tree>)
    decreases items, 0
  {
    items == [] || (PlainTree(items[0]) && AllPlain(items[1..]))
  }

  // ----- reading -----

  lemma ReadsSmall(stod: Stod, s: string, rest: string)
    requires Plain(C.UpToNul(s))
    ensures ReadValue(stod, C.Text(C.Small(s), rest)) == Done(Str(C.UpToNul(s)), rest)
  {
    var u := C.UpToNul(s);
    PlainIsUnescaped(u);
    ReadsString(stod, u, rest);
    assert "\"" + u + "\"" + rest == "\"" + (u + ("\"" + rest));
  }

  /** A null list reads as null and leaves the rest of its text behind. */
  lemma ReadsNullList(stod: Stod, rest: string)
    ensures ReadValue(stod, C.Text(C.NullList, rest)) == Done(Null, "ptr!!!" + rest)
  {
    var s := "nullptr!!!" + rest;
    assert SkipSpace(s) == s && s[..4] == "null" && s[4..] == "ptr!!!" + rest;
  }

  /** The text of a tree in front of any rest that does not continue it is read as the tree and ends where the
      text ends, if the tree has no null list; otherwise the reader throws, or stops inside the name. */
  lemma {:induction false} ReadsTree(stod: Stod, n: Tree, rest: string)
    requires Typed(n) && PlainTree(n) && (n.Number? ==> EndsNumber(rest))
    ensures ReadValue(stod, C.Text(n, rest)) ==
            if n.NullList? then Done(Null, "ptr!!!" + rest)
            else if NonNull(n) then Done(ToJson(n), rest) else Fail
    decreases n, 1
  {
    match n
    case Small(s) => ReadsSmall(stod, s, rest);
    case Number(i) => ReadsInt(stod, i, rest);
    case NullList => ReadsNullList(stod, rest);
    case List(items) =>
      EntersList(stod, items, rest);
      if items != [] {
        ReadsTrees(stod, items, [], rest);
        assert [] + ToJsons(items) == ToJsons(items);
      }
  }

  lemma EntersList(stod: Stod, items: seq<Tree>, rest: string)
    ensures ReadValue(stod, C.Text(C.List(items), rest)) ==
            if items == [] then Done(Arr([]), rest) else ReadItems(stod, C.ItemsText(items, true, rest), [])
  {
    var t := C.ItemsText(items, true, rest);
    StartsArray(stod, "[" + t);
    CompleteExpect("", '[', t);
    assert "" + ("[" + t) == "[" + t;
    if items == [] {
      assert t[1..] == rest;
    } else {
      Starts(items, rest);
    }
  }

  /** Items begin with neither whitespace nor a closing bracket. */
  lemma Starts(items: seq<Tree>, rest: string)
    requires items != []
    ensures var t := C.ItemsText(items, true, rest); t != "" && t[0] != ']' && SkipSpace(t) == t
  {
    var t := C.ItemsText(items, true, rest);
    var more := C.ItemsText(items[1..], false, rest);
    C.FirstChar(items[0], more);
    assert "" + C.Text(items[0], more) == C.Text(items[0], more) == t;
    match items[0]
    case Number(i) => C.IntStarts(i, more);
    case _ =>
  }

  /** After an item comes the end of the list, or a comma and the other items. */
  lemma LaterTrees(items: seq<Tree>, rest: string)
    ensures var t := C.ItemsText(items, false, rest);
            && EndsNumber(t) && SkipSpace(t) == t
            && t == if items == [] then "]" + rest else "," + C.ItemsText(items, true, rest)
  {
    if items != [] {
      var more := C.ItemsText(items[1..], false, rest);
      assert "" + C.Text(items[0], more) == C.Text(items[0], more);
    }
  }

  lemma {:induction false} ReadsTrees(stod: Stod, items: seq<Tree>, acc: seq<Json>, rest: string)
    requires items != [] && AllTyped(items) && AllPlain(items)
    ensures ReadItems(stod, C.ItemsText(items, true, rest), acc) ==
            if AllNonNull(items) then Done(Arr(acc + ToJsons(items)), rest) else Fail
    decreases items, 0
  {
    var later := C.ItemsText(items[1..], false, rest);
    assert C.ItemsText(items, true, rest) == C.Text(items[0], later);
    LaterTrees(items[1..], rest);
    ReadsTree(stod, items[0], later);
    if items[0].NullList? {
      assert ("ptr!!!" + later)[0] == 'p';
      assert SkipSpace("ptr!!!" + later) == "ptr!!!" + later;
    } else if NonNull(items[0]) {
      var v := ToJson(items[0]);
      assert later[1..] == if items[1..] == [] then rest else C.ItemsText(items[1..], true, rest);
      if items[1..] == [] {
        assert [v] + [] == [v];
      } else {
        ReadsTrees(stod, items[1..], acc + [v], rest);
        assert acc + [v] + ToJsons(items[1..]) == acc + ([v] + ToJsons(items[1..]));
      }
    }
  }

  // ----- which trees are read back -----

  /** Backslashes that the serializer leaves out because it does not escape. */
  function Unescaped(n: Tree): nat
    decreases n, 1
  {
    match n
    case Small(s) => Count('\"', C.UpToNul(s)) + Count('\\', C.UpToNul(s))
    case List(items) => AllUnescaped(items)
    case _ => 0
  }

  function AllUnescaped(items: seq<Tree>): nat
    decreases items, 0
  {
    if items == [] then 0 else Unescaped(items[0]) + AllUnescaped(items[1..])
  }

  lemma {:induction false} NothingUnescaped(n: Tree)
    ensures Unescaped(n) == 0 <==> PlainTree(n)
    decreases n, 1
  {
    match n
    case Small(s) =>
      CountIsZero('\"', C.UpToNul(s));
      CountIsZero('\\', C.UpToNul(s));
    case List(items) => NoneUnescaped(items);
    case _ =>
  }

  lemma {:induction false} NoneUnescaped(items: seq<Tree>)
    ensures AllUnescaped(items) == 0 <==> AllPlain(items)
    decreases items, 0
  {
    if items != [] {
      NothingUnescaped(items[0]);
      NoneUnescaped(items[1..]);
    }
  }

  lemma StringSlashes(u: string, rest: string)
    ensures Slashes("\"" + (u + ("\"" + rest))) == Slashes(u) + Slashes(rest)
  {
    CountConcat('\\', "\"", rest);
    CountConcat('\\', u, "\"" + rest);
    CountConcat('\\', "\"", u + ("\"" + rest));
  }

  lemma CleanSlashes(a: string, rest: string)
    requires '\\' !in a
    ensures Slashes(a + rest) == Slashes(rest)
  {
    CountIsZero('\\', a);
    CountConcat('\\', a, rest);
  }

  lemma {:induction false} TextSlashes(n: Tree, rest: string)
    ensures Slashes(C.Text(n, rest)) + Unescaped(n) == Cost(ToJson(n)) + Slashes(rest)
    decreases n, 1
  {
    match n
    case Small(s) => StringSlashes(C.UpToNul(s), rest);
    case Number(i) => CleanSlashes(IntText(i), rest);
    case NullList => CleanSlashes("nullptr!!!", rest);
    case List(items) =>
      ItemsSlashes(items, true, rest);
      CountConcat('\\', "[", C.ItemsText(items, true, rest));
  }

  lemma {:induction false} ItemsSlashes(items: seq<Tree>, first: bool, rest: string)
    ensures Slashes(C.ItemsText(items, first, rest)) + AllUnescaped(items) == ItemsCost(ToJsons(items)) + Slashes(rest)
    decreases items, 0
  {
    if items == [] {
      CountConcat('\\', "]", rest);
    } else {
      var later := C.ItemsText(items[1..], false, rest);
      TextSlashes(items[0], later);
      ItemsSlashes(items[1..], false, rest);
      CountConcat('\\', if first then "" else ",", C.Text(items[0], later));
      assert ToJsons(items)[1..] == ToJsons(items[1..]);
    }
  }

  lemma BareNumberTree(stod: Stod, i: int)
    ensures Parse(stod, C.Text(C.Number(i), "")) == None
  {
    BareIntegerIsRejected(stod, _ => Fixed(false, "0", ""), i, 0);
    assert IntText(i) + "" == IntText(i);
  }

  /** A serialized tree is parsed back as the tree it was exactly when it is not a bare number, has no null
      list, and no string in it contains a quotation mark or a backslash. */
  lemma CompactRoundTrip(stod: Stod, n: Tree)
    requires Typed(n)
    ensures Parse(stod, C.Text(n, "")) == Some(ToJson(n)) <==> !n.Number? && NonNull(n) && PlainTree(n)
  {
    var s := C.Text(n, "");
    if n.Number? {
      BareNumberTree(stod, n.n);
    } else if PlainTree(n) {
      ReadsTree(stod, n, "");
    } else if Parse(stod, s) == Some(ToJson(n)) {
      var tree := SoundValue(stod, s);
      NodeSlashes(stod, tree, ReadValue(stod, s).rest);
      TextSlashes(n, "");
      NothingUnescaped(n);
    }
  }
}
