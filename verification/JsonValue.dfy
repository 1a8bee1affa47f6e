/** Characters, decimal numerals and the value type shared by the parser, the grammar and the printer. */
module JsonValue {

  import opened Common

  // ----- characters -----

  /** std::isspace in the "C" locale: space, \t, \n, \v, \f and \r. */
  predicate IsSpace(c: char) {
    c == ' ' || 9 <= c as int <= 13
  }

  predicate IsDigit(c: char) {
    '0' <= c <= '9'
  }

  lemma CharacterClasses(c: char)
    ensures IsSpace(c) <==> c in " \t\n\U{0b}\U{0c}\r"
    ensures IsDigit(c) <==> c in "0123456789"
  {
  }

  predicate AllSpace(s: string) {
    forall i :: 0 <= i < |s| ==> IsSpace(s[i])
  }

  predicate AllDigits(s: string) {
    forall i :: 0 <= i < |s| ==> IsDigit(s[i])
  }

  // ----- decimal numerals -----

  /** The number that a string of decimal digits denotes. */
  function DigitsValue(s: string): (n: nat)
    requires AllDigits(s)
  {
    if s == "" then 0
    else DigitsValue(s[..|s| - 1]) * 10 + (s[|s| - 1] as int - '0' as int)
  }

  function Decimal(n: nat): (s: string)
    ensures s != "" && AllDigits(s) && DigitsValue(s) == n
    ensures s[0] == '0' ==> s == "0"
  {
    var last := [('0' as int + n % 10) as char];
    if n < 10 then last else
    var s := Decimal(n / 10) + last;
    assert s[..|s| - 1] == Decimal(n / 10);
    s
  }

  /** std::to_string on integers. */
  function IntText(n: int): string {
    if n < 0 then "-" + Decimal(-n) else Decimal(n)
  }

  function Signed(negative: bool, n: nat): int {
    if negative then 0 - n else n
  }

  const INT64_MIN: int := -0x8000_0000_0000_0000
  const INT64_MAX: int := 0x7fff_ffff_ffff_ffff

  predicate InInt64(n: int) {
    INT64_MIN <= n <= INT64_MAX
  }

  /** The limits of long long in decimal. */
  lemma Int64Limits(n: int)
    ensures InInt64(n) <==> -9_223_372_036_854_775_808 <= n <= 9_223_372_036_854_775_807
  {
  }

  // ----- values -----

  /** A double, by its bit pattern. No arithmetic on doubles is modelled. */
  datatype Double = Double(bits: nat)

  /** std::stod: the double that a number text denotes, if it does not throw. */
  type Stod = string -> Option<Double>

  /** The alternatives of the variant. An object is the ordered contents of a std::map. */
  datatype Json =
    | Null
    | Bool(b: bool)
    | Int(n: int)
    | Dbl(d: Double)
    | Str(s: string)
    | Arr(items: seq<Json>)
    | Obj(members: seq<Member>)

  datatype Member = Member(key: string, value: Json)

  // ----- the ordered map behind an object -----

  /** The order of std::less<std::string>. */
  predicate Less(a: string, b: string) {
    if b == "" then false
    else if a == "" then true
    else if a[0] != b[0] then a[0] < b[0]
    else Less(a[1..], b[1..])
  }

  lemma {:induction false} LessIsTotal(a: string, b: string)
    ensures a == b || Less(a, b) || Less(b, a)
    ensures !(Less(a, b) && Less(b, a)) && !Less(a, a)
  {
    if a != "" && b != "" {
      LessIsTotal(a[1..], b[1..]);
      LessIsTotal(a[1..], a[1..]);
      assert a == [a[0]] + a[1..] && b == [b[0]] + b[1..];
    } else if a != "" {
      LessIsTotal(a[1..], a[1..]);
    }
  }

  lemma {:induction false} LessIsTransitive(a: string, b: string, c: string)
    requires Less(a, b) && Less(b, c)
    ensures Less(a, c)
  {
    if a != "" && a[0] == b[0] == c[0] {
      LessIsTransitive(a[1..], b[1..], c[1..]);
    }
  }

  /** `a` and `b` agree on their first `k` characters, after which `a` ends or has the smaller character. */
  predicate DifferAt(a: string, b: string, k: nat) {
    k <= |a| && k < |b| && a[..k] == b[..k] && (k == |a| || a[k] < b[k])
  }

  /** Lexicographic order. */
  ghost predicate Precedes(a: string, b: string) {
    exists k: nat :: DifferAt(a, b, k)
  }

  lemma {:induction false} LessDiffers(a: string, b: string) returns (k: nat)
    requires Less(a, b)
    ensures DifferAt(a, b, k)
  {
    if a == "" || a[0] != b[0] {
      k := 0;
    } else {
      var j := LessDiffers(a[1..], b[1..]);
      k := j + 1;
      assert a[..k] == [a[0]] + a[1..][..j] && b[..k] == [b[0]] + b[1..][..j];
    }
  }

  lemma {:induction false} DifferIsLess(a: string, b: string, k: nat)
    requires DifferAt(a, b, k)
    ensures Less(a, b)
    decreases k
  {
    if k > 0 {
      assert a[..k][0] == a[0] && b[..k][0] == b[0];
      assert a[1..][..k - 1] == a[..k][1..] && b[1..][..k - 1] == b[..k][1..];
      DifferIsLess(a[1..], b[1..], k - 1);
    }
  }

  lemma LessIsLexicographic(a: string, b: string)
    ensures Less(a, b) <==> Precedes(a, b)
  {
    if Less(a, b) {
      var k := LessDiffers(a, b);
    } else if Precedes(a, b) {
      var k: nat :| DifferAt(a, b, k);
      DifferIsLess(a, b, k);
    }
  }

  ghost predicate InKeyOrder(ms: seq<Member>) {
    forall i, j :: 0 <= i < j < |ms| ==> Precedes(ms[i].key, ms[j].key)
  }

  lemma SortedIsLexicographic(ms: seq<Member>)
    ensures Sorted(ms) <==> InKeyOrder(ms)
  {
    forall i, j | 0 <= i < j < |ms|
      ensures Less(ms[i].key, ms[j].key) <==> Precedes(ms[i].key, ms[j].key)
    {
      LessIsLexicographic(ms[i].key, ms[j].key);
    }
  }

  ghost predicate Sorted(ms: seq<Member>) {
    forall i, j :: 0 <= i < j < |ms| ==> Less(ms[i].key, ms[j].key)
  }

  /** `obj[key] = value` on the ordered map. */
  function Put(ms: seq<Member>, k: string, v: Json): seq<Member> {
    if ms == [] then [Member(k, v)]
    else if ms[0].key == k then [Member(k, v)] + ms[1..]
    else if Less(k, ms[0].key) then [Member(k, v)] + ms
    else [ms[0]] + Put(ms[1..], k, v)
  }

  function Lookup(ms: seq<Member>, k: string): Option<Json> {
    if ms == [] then None
    else if ms[0].key == k then Some(ms[0].value)
    else Lookup(ms[1..], k)
  }

  lemma {:induction false} PutKeepsSorted(ms: seq<Member>, k: string, v: Json)
    requires Sorted(ms)
    ensures Sorted(Put(ms, k, v)) && InKeyOrder(Put(ms, k, v))
    ensures forall m :: m in Put(ms, k, v) ==> m == Member(k, v) || m in ms
  {
    if ms != [] {
      if ms[0].key == k {
      } else if Less(k, ms[0].key) {
        forall j | 0 <= j < |ms|
          ensures Less(k, ms[j].key)
        {
          if j > 0 { LessIsTransitive(k, ms[0].key, ms[j].key); }
        }
      } else {
        LessIsTotal(k, ms[0].key);
        PutKeepsSorted(ms[1..], k, v);
        var r := Put(ms[1..], k, v);
        forall j | 0 <= j < |r|
          ensures Less(ms[0].key, r[j].key)
        {
          assert r[j] in r;
        }
      }
    }
    SortedIsLexicographic(Put(ms, k, v));
  }

  lemma {:induction false} PutThenLookup(ms: seq<Member>, k: string, v: Json, other: string)
    ensures Lookup(Put(ms, k, v), other) == if other == k then Some(v) else Lookup(ms, other)
  {
    if ms != [] && ms[0].key != k && !Less(k, ms[0].key) {
      PutThenLookup(ms[1..], k, v, other);
      assert Put(ms, k, v)[1..] == Put(ms[1..], k, v);
    } else {
      assert Put(ms, k, v)[1..] == if ms != [] && ms[0].key == k then ms[1..] else ms;
      LessIsTotal(k, k);
    }
  }

  /** Writing keys in increasing order appends them. */
  lemma {:induction false} PutAtEnd(ms: seq<Member>, m: Member)
    requires Sorted(ms + [m])
    ensures Put(ms, m.key, m.value) == ms + [m]
  {
    if ms != [] {
      var all := ms + [m];
      assert Less(all[0].key, all[|ms|].key);
      LessIsTotal(ms[0].key, m.key);
      assert ms[1..] + [m] == all[1..];
      PutAtEnd(ms[1..], m);
    }
  }
}
