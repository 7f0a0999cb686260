/**
 Rust `str` values and the few library operations the connector applies to them.
 A Rust string is modelled as the sequence of its UTF-8 bytes, one `char` per byte, so that
 lengths, comparisons and literals agree with `str::len`, `str::cmp` and `b'..'`.
 */
module Text {
  import opened Basics
  import Utf8

  const U64_LIMIT: nat := 0x1_0000_0000_0000_0000

  // ---------------------------------------------------------------- prefixes and suffixes

  predicate StartsWith(s: string, prefix: string) {
    prefix <= s
  }

  predicate EndsWithChar(s: string, c: char) {
    |s| > 0 && s[|s| - 1] == c
  }

  lemma EndsIff(s: string, c: char)
    ensures EndsWithChar(s, c) <==> exists front :: s == front + [c]
  {
    if EndsWithChar(s, c) { assert s == s[..|s| - 1] + [c]; }
  }

  function StripPrefix(s: string, prefix: string): (r: Option<string>)
    ensures r.Some? <==> StartsWith(s, prefix)
    ensures r.Some? ==> s == prefix + r.value
  {
    if prefix <= s then Some(s[|prefix|..]) else None
  }

  // ---------------------------------------------------------------- white space

  // The code points of the Unicode property White_Space, by length of their UTF-8 encoding.
  predicate Space1(a: char) {
    '\t' <= a <= '\r' || a == ' '
  }

  predicate Space2(a: char, b: char) {
    a as int == 0xC2 && (b as int == 0x85 || b as int == 0xA0)
  }

  predicate Space3(a: char, b: char, c: char) {
    var (x, y, z) := (a as int, b as int, c as int);
    || (x == 0xE1 && y == 0x9A && z == 0x80)
    || (x == 0xE2 && y == 0x80 && (0x80 <= z <= 0x8A || z == 0xA8 || z == 0xA9 || z == 0xAF))
    || (x == 0xE2 && y == 0x81 && z == 0x9F)
    || (x == 0xE3 && y == 0x80 && z == 0x80)
  }

  /** Bytes taken by the white-space character that opens `s`; 0 if none does. */
  function LeadingSpace(s: string): (n: nat)
    ensures n <= |s|
  {
    if |s| >= 1 && Space1(s[0]) then 1
    else if |s| >= 2 && Space2(s[0], s[1]) then 2
    else if |s| >= 3 && Space3(s[0], s[1], s[2]) then 3
    else 0
  }

  /** Bytes taken by the white-space character that closes `s`; 0 if none does. */
  function TrailingSpace(s: string): (n: nat)
    ensures n <= |s|
  {
    var k := |s|;
    if k >= 1 && Space1(s[k - 1]) then 1
    else if k >= 2 && Space2(s[k - 2], s[k - 1]) then 2
    else if k >= 3 && Space3(s[k - 3], s[k - 2], s[k - 1]) then 3
    else 0
  }

  /** The code points with the Unicode property White_Space. */
  predicate WhiteSpace(c: nat) {
    || 0x9 <= c <= 0xD
    || 0x2000 <= c <= 0x200A
    || c in {0x20, 0x85, 0xA0, 0x1680, 0x2028, 0x2029, 0x202F, 0x205F, 0x3000}
  }

  lemma LeadingSpaceIff(c: nat, rest: string)
    requires Utf8.Scalar(c)
    ensures var e := Utf8.EncodeScalar(c);
            LeadingSpace(e + rest) == if WhiteSpace(c) then |e| else 0
  {
    var e := Utf8.EncodeScalar(c);
    assert forall i :: 0 <= i < |e| ==> (e + rest)[i] == e[i];
  }

  lemma TrailingSpaceIff(c: nat, rest: string)
    requires Utf8.Scalar(c)
    ensures var e := Utf8.EncodeScalar(c);
            TrailingSpace(rest + e) == if WhiteSpace(c) then |e| else 0
  {
    var e := Utf8.EncodeScalar(c);
    assert forall i :: 0 <= i < |e| ==> (rest + e)[|rest| + i] == e[i];
  }

  /** An encoded white-space character, and only that, is taken for white space, in front and behind. */
  lemma SpaceIff(c: nat, rest: string)
    requires Utf8.Scalar(c)
    ensures var e := Utf8.EncodeScalar(c);
            && LeadingSpace(e + rest) == (if WhiteSpace(c) then |e| else 0)
            && TrailingSpace(rest + e) == (if WhiteSpace(c) then |e| else 0)
  {
    LeadingSpaceIff(c, rest);
    TrailingSpaceIff(c, rest);
  }

  function TrimStart(s: string): (r: string)
    ensures LeadingSpace(r) == 0
    ensures |r| <= |s|
    decreases |s|
  {
    var n := LeadingSpace(s);
    if n == 0 then s else TrimStart(s[n..])
  }

  function TrimEnd(s: string): (r: string)
    ensures TrailingSpace(r) == 0
    ensures r <= s
    decreases |s|
  {
    var n := TrailingSpace(s);
    if n == 0 then s else TrimEnd(s[..|s| - n])
  }

  function Trim(s: string): (r: string)
    ensures LeadingSpace(r) == 0 && TrailingSpace(r) == 0
  {
    var t := TrimStart(s);
    PrefixKeepsStart(t, TrimEnd(t));
    TrimEnd(t)
  }

  predicate Blank(s: string) {
    Trim(s) == ""
  }

  /** White-space characters and nothing else. */
  predicate Spaces(s: string)
    decreases |s|
  {
    s == "" || (LeadingSpace(s) > 0 && Spaces(s[LeadingSpace(s)..]))
  }

  lemma {:induction false} SpacesConcat(a: string, b: string)
    requires Spaces(a) && Spaces(b)
    ensures Spaces(a + b)
    decreases |a|
  {
    if a == "" {
      assert a + b == b;
    } else {
      var n := LeadingSpace(a);
      assert forall i | 0 <= i < |a| :: (a + b)[i] == a[i];
      assert LeadingSpace(a + b) == n;
      assert (a + b)[n..] == a[n..] + b;
      SpacesConcat(a[n..], b);
    }
  }

  lemma LeadingChunk(s: string)
    ensures Spaces(s[..LeadingSpace(s)])
  {
  }

  lemma TrailingChunk(s: string)
    ensures Spaces(s[|s| - TrailingSpace(s)..])
  {
  }

  lemma {:induction false} TrimStartCuts(s: string) returns (a: string)
    ensures s == a + TrimStart(s) && Spaces(a)
    decreases |s|
  {
    var n := LeadingSpace(s);
    LeadingChunk(s);
    a := s[..n];
    if n == 0 {
    } else {
      var rest := TrimStartCuts(s[n..]);
      SpacesConcat(a, rest);
      Reassociate(s, n, rest, TrimStart(s[n..]));
      a := a + rest;
    }
  }

  lemma Reassociate(s: string, n: nat, b: string, c: string)
    requires n <= |s| && s[n..] == b + c
    ensures s == (s[..n] + b) + c
  {
  }

  lemma {:induction false} TrimEndCuts(s: string) returns (b: string)
    ensures s == TrimEnd(s) + b && Spaces(b)
    decreases |s|
  {
    var n := TrailingSpace(s);
    var cut := |s| - n;
    TrailingChunk(s);
    b := s[cut..];
    if n == 0 {
    } else {
      var rest := TrimEndCuts(s[..cut]);
      SpacesConcat(rest, b);
      ReassociateEnd(s, cut, TrimEnd(s[..cut]), rest);
      b := rest + b;
    }
  }

  lemma ReassociateEnd(s: string, cut: nat, a: string, b: string)
    requires cut <= |s| && s[..cut] == a + b
    ensures s == a + (b + s[cut..])
  {
  }

  /** Trimming removes white space at the two ends and nothing else. */
  lemma TrimCuts(s: string) returns (a: string, b: string)
    ensures s == a + Trim(s) + b && Spaces(a) && Spaces(b)
  {
    a := TrimStartCuts(s);
    b := TrimEndCuts(TrimStart(s));
  }

  lemma {:induction false} TrimStartDrops(a: string, x: string)
    requires Spaces(a)
    ensures TrimStart(a + x) == TrimStart(x)
    decreases |a|
  {
    if a == "" {
      assert a + x == x;
    } else {
      var n := LeadingSpace(a);
      assert forall i | 0 <= i < |a| :: (a + x)[i] == a[i];
      assert LeadingSpace(a + x) == n;
      assert (a + x)[n..] == a[n..] + x;
      TrimStartDrops(a[n..], x);
    }
  }

  /** A white-space character is recognised from either end. */
  lemma OneSpaceCloses(x: string, c: string)
    requires c != "" && LeadingSpace(c) == |c|
    ensures TrailingSpace(x + c) == |c|
  {
    var s := x + c;
    assert forall i | 0 <= i < |c| :: s[|x| + i] == c[i];
  }

  lemma {:induction false} TrimEndDrops(x: string, b: string)
    requires Spaces(b)
    ensures TrimEnd(x + b) == TrimEnd(x)
    decreases |b|
  {
    if b == "" {
      assert x + b == x;
    } else {
      var n := LeadingSpace(b);
      var c := b[..n];
      assert forall i | 0 <= i < n :: c[i] == b[i];
      OneSpaceCloses(x, c);
      assert (x + c)[..|x|] == x;
      assert x + b == (x + c) + b[n..];
      TrimEndDrops(x + c, b[n..]);
    }
  }

  /** White space after a text completes no white-space character at its front. */
  lemma FrontStaysTight(r: string, b: string)
    requires r != "" && LeadingSpace(r) == 0 && Spaces(b)
    ensures LeadingSpace(r + b) == 0
  {
    var s := r + b;
    assert forall i | 0 <= i < |r| :: s[i] == r[i];
    assert forall i | 0 <= i < |b| :: s[|r| + i] == b[i];
  }

  lemma TrimPadded(s: string, a: string, x: string, r: string, b: string)
    requires s == a + x && x == r + b && Spaces(a) && Spaces(b) && LeadingSpace(r) == 0 && TrailingSpace(r) == 0
    ensures Trim(s) == r
  {
    TrimStartDrops(a, x);
    TrimOpen(r, b, x);
  }

  lemma TrimOpen(r: string, b: string, x: string)
    requires x == r + b && Spaces(b) && LeadingSpace(r) == 0 && TrailingSpace(r) == 0
    ensures TrimEnd(TrimStart(x)) == r
  {
    if r == "" {
      assert x == b;
      SpacesAreBlank(b);
    } else {
      FrontStaysTight(r, b);
      TrimEndDrops(r, b);
    }
  }

  lemma SpacesAreBlank(s: string)
    requires Spaces(s)
    ensures Blank(s)
  {
    assert s == s + "";
    TrimStartDrops(s, "");
  }

  ghost predicate Padded(s: string, a: string, r: string, b: string) {
    s == a + r + b && Spaces(a) && Spaces(b)
  }

  /** What trimming means: the one text without white space at its ends that is left of `s` when white
      space is cut off the two ends. */
  lemma TrimMeans(s: string, r: string)
    ensures Trim(s) == r <==>
            LeadingSpace(r) == 0 && TrailingSpace(r) == 0 && exists a, b :: Padded(s, a, r, b)
  {
    if Trim(s) == r {
      var a, b := TrimCuts(s);
      assert Padded(s, a, r, b);
    }
    if LeadingSpace(r) == 0 && TrailingSpace(r) == 0 {
      forall a, b | Padded(s, a, r, b) ensures Trim(s) == r {
        assert s == a + (r + b);
        TrimPadded(s, a, r + b, r, b);
      }
    }
  }

  lemma PrefixKeepsStart(s: string, p: string)
    requires p <= s && LeadingSpace(s) == 0
    ensures LeadingSpace(p) == 0
  {
  }

  // ---------------------------------------------------------------- decimal numbers

  predicate IsDigit(c: char) {
    '0' <= c <= '9'
  }

  predicate AllDigits(s: string) {
    forall i :: 0 <= i < |s| ==> IsDigit(s[i])
  }

  /** `ToString` of an unsigned integer. */
  function Decimal(n: nat): (s: string)
    ensures |s| >= 1 && AllDigits(s)
    ensures n > 0 ==> s[0] != '0'
  {
    var last := ('0' as int + n % 10) as char;
    if n < 10 then [last] else Decimal(n / 10) + [last]
  }

  function DecimalValue(s: string): nat
    requires AllDigits(s)
  {
    if s == [] then 0
    else DecimalValue(s[..|s| - 1]) * 10 + (s[|s| - 1] as int - '0' as int)
  }

  lemma {:induction false} DecimalRoundTrip(n: nat)
    ensures DecimalValue(Decimal(n)) == n
  {
    var s := Decimal(n);
    if n < 10 {
      assert s[..|s| - 1] == [];
    } else {
      DecimalRoundTrip(n / 10);
      assert s[..|s| - 1] == Decimal(n / 10);
    }
  }

  /** `str::parse::<u64>`: an optional '+', at least one digit, and a value that fits. */
  function ParseU64(s: string): (r: Option<nat>)
    ensures r.Some? ==> r.value < U64_LIMIT
  {
    var digits := if |s| > 0 && s[0] == '+' then s[1..] else s;
    if digits == [] || !AllDigits(digits) then None
    else if DecimalValue(digits) < U64_LIMIT then Some(DecimalValue(digits))
    else None
  }

  lemma ParsePrinted(n: nat)
    requires n < U64_LIMIT
    ensures ParseU64(Decimal(n)) == Some(n)
  {
    assert Decimal(n)[0] != '+' by { assert IsDigit(Decimal(n)[0]); }
    DecimalRoundTrip(n);
  }

  /** A text of digits without a needless '0' in front is the printed form of its value. */
  lemma {:induction false} PrintedAgain(s: string)
    requires s != [] && AllDigits(s) && (s[0] == '0' ==> |s| == 1)
    ensures Decimal(DecimalValue(s)) == s
  {
    var init, last := s[..|s| - 1], s[|s| - 1];
    if init == [] {
      assert DecimalValue(s) == last as int - '0' as int;
    } else {
      PrintedAgain(init);
      PositiveValue(init);
      PrintedLast(DecimalValue(init), last);
      assert s == init + [last];
    }
  }

  lemma PrintedLast(n: nat, last: char)
    requires n > 0 && IsDigit(last)
    ensures Decimal(10 * n + (last as int - '0' as int)) == Decimal(n) + [last]
  {
  }

  lemma {:induction false} PositiveValue(s: string)
    requires s != [] && AllDigits(s) && s[0] != '0'
    ensures DecimalValue(s) > 0
  {
    if |s| == 1 {
      assert s[..0] == [];
    } else {
      PositiveValue(s[..|s| - 1]);
    }
  }

  predicate Zeros(s: string) {
    forall i :: 0 <= i < |s| ==> s[i] == '0'
  }

  lemma {:induction false} LeadingZeros(zeros: string, s: string)
    requires Zeros(zeros) && AllDigits(s)
    ensures AllDigits(zeros + s) && DecimalValue(zeros + s) == DecimalValue(s)
    decreases |zeros| + |s|
  {
    var t := zeros + s;
    if t == [] {
      assert s == [];
    } else if s == [] {
      assert t[..|t| - 1] == zeros[..|zeros| - 1] + [];
      LeadingZeros(zeros[..|zeros| - 1], []);
    } else {
      assert t[..|t| - 1] == zeros + s[..|s| - 1];
      LeadingZeros(zeros, s[..|s| - 1]);
    }
  }

  /** Digits are zeros and then the printed form of their value. */
  lemma {:induction false} ZerosThenPrinted(s: string) returns (zeros: string)
    requires s != [] && AllDigits(s)
    ensures Zeros(zeros) && s == zeros + Decimal(DecimalValue(s))
  {
    if s[0] == '0' && |s| > 1 {
      var rest := ZerosThenPrinted(s[1..]);
      zeros := "0" + rest;
      LeadingZeros("0", s[1..]);
      assert s == "0" + s[1..];
    } else {
      zeros := "";
      PrintedAgain(s);
    }
  }

  ghost predicate PrintsAs(s: string, plus: string, zeros: string, n: nat) {
    (plus == "" || plus == "+") && Zeros(zeros) && s == plus + (zeros + Decimal(n))
  }

  /** What parses as `n`: an optional '+', zeros, and the printed form of `n`, if that fits in 64 bits. */
  lemma ParsesIff(s: string, n: nat)
    ensures ParseU64(s) == Some(n) <==> n < 18446744073709551616 && exists plus, zeros :: PrintsAs(s, plus, zeros, n)
  {
    if ParseU64(s) == Some(n) {
      var plus := if s[0] == '+' then "+" else "";
      var digits := s[|plus|..];
      assert s == plus + digits;
      var zeros := ZerosThenPrinted(digits);
      assert PrintsAs(s, plus, zeros, n);
    }
    if n < U64_LIMIT {
      forall plus, zeros | PrintsAs(s, plus, zeros, n) ensures ParseU64(s) == Some(n) {
        WrittenParses(s, plus, zeros, n);
      }
    }
  }

  lemma WrittenParses(s: string, plus: string, zeros: string, n: nat)
    requires n < U64_LIMIT && PrintsAs(s, plus, zeros, n)
    ensures ParseU64(s) == Some(n)
  {
    var digits := zeros + Decimal(n);
    LeadingZeros(zeros, Decimal(n));
    DecimalRoundTrip(n);
    assert IsDigit(digits[0]);
    assert plus == "+" ==> s[1..] == digits;
    assert plus == "" ==> s == digits;
  }

  // ---------------------------------------------------------------- ordered sets of strings

  /** Byte-wise lexicographic order, the `Ord` of `str`. */
  predicate Less(a: string, b: string) {
    b != [] && (a == [] || a[0] < b[0] || (a[0] == b[0] && Less(a[1..], b[1..])))
  }

  lemma {:induction false} LessTotal(a: string, b: string)
    ensures a == b || Less(a, b) || Less(b, a)
  {
    if a != [] && b != [] && a[0] == b[0] {
      LessTotal(a[1..], b[1..]);
      assert a == [a[0]] + a[1..] && b == [b[0]] + b[1..];
    }
  }

  lemma {:induction false} LessTransitive(a: string, b: string, c: string)
    requires Less(a, b) && Less(b, c)
    ensures Less(a, c)
  {
    if a != [] && a[0] == b[0] == c[0] {
      LessTransitive(a[1..], b[1..], c[1..]);
    }
  }

  lemma {:induction false} LessIrreflexive(a: string)
    ensures !Less(a, a)
  {
    if a == [] {
    } else {
      LessIrreflexive(a[1..]);
    }
  }

  /** A `BTreeSet<String>` is represented by its iteration order: strictly increasing. */
  ghost predicate Ascending(s: seq<string>) {
    forall i, j :: 0 <= i < j < |s| ==> Less(s[i], s[j])
  }

  /** `BTreeSet::insert`. */
  function Insert(s: seq<string>, x: string): (r: seq<string>)
    ensures forall y :: y in r <==> y == x || y in s
  {
    if s == [] then [x]
    else if s[0] == x then s
    else if Less(x, s[0]) then [x] + s
    else [s[0]] + Insert(s[1..], x)
  }

  /** `iter().collect::<BTreeSet<_>>()`: the distinct elements in ascending order. */
  function Collect(xs: seq<string>): seq<string> {
    if xs == [] then [] else Insert(Collect(xs[..|xs| - 1]), xs[|xs| - 1])
  }

  lemma {:induction false} CollectElements(xs: seq<string>)
    ensures forall y :: y in Collect(xs) <==> y in xs
  {
    if xs == [] {
    } else {
      CollectElements(xs[..|xs| - 1]);
      assert xs == xs[..|xs| - 1] + [xs[|xs| - 1]];
    }
  }

  lemma {:induction false} InsertAscending(s: seq<string>, x: string)
    requires Ascending(s)
    ensures Ascending(Insert(s, x))
  {
    if s != [] && s[0] != x {
      if Less(x, s[0]) {
        forall j | 0 <= j < |s| ensures Less(x, s[j]) {
          if j > 0 { LessTransitive(x, s[0], s[j]); }
        }
      } else {
        LessTotal(x, s[0]);
        InsertAscending(s[1..], x);
        var t := Insert(s[1..], x);
        forall j | 0 <= j < |t| ensures Less(s[0], t[j]) {
          assert t[j] in t;
        }
      }
    }
  }

  lemma {:induction false} CollectAscending(xs: seq<string>)
    ensures Ascending(Collect(xs))
  {
    if xs == [] {
    } else {
      CollectAscending(xs[..|xs| - 1]);
      InsertAscending(Collect(xs[..|xs| - 1]), xs[|xs| - 1]);
    }
  }

  lemma HasElement(s: seq<string>)
    requires s != []
    ensures exists y :: y in s
  {
    assert s[0] in s;
  }

  /** An ascending listing is determined by its elements. */
  lemma {:induction false} AscendingUnique(s: seq<string>, t: seq<string>)
    requires Ascending(s) && Ascending(t)
    requires forall y :: y in s <==> y in t
    ensures s == t
  {
    if t != [] { HasElement(t); }
    if s == [] {
    } else {
      HasElement(s);
      SameFirst(s, t);
      SameTail(s, t);
      AscendingUnique(s[1..], t[1..]);
      assert s == [s[0]] + s[1..] && t == [t[0]] + t[1..];
    }
  }

  lemma SameFirst(s: seq<string>, t: seq<string>)
    requires Ascending(s) && Ascending(t) && s != [] && t != []
    requires s[0] in t && t[0] in s
    ensures s[0] == t[0]
  {
    var i :| 0 <= i < |t| && t[i] == s[0];
    var j :| 0 <= j < |s| && s[j] == t[0];
    if i > 0 && j > 0 {
      LessTransitive(s[0], s[j], s[0]);
      LessIrreflexive(s[0]);
    }
  }

  lemma SameTail(s: seq<string>, t: seq<string>)
    requires Ascending(s) && Ascending(t) && s != [] && t != []
    requires s[0] == t[0]
    requires forall y :: y in s <==> y in t
    ensures forall y :: y in s[1..] <==> y in t[1..]
  {
    forall y ensures y in s[1..] <==> y in s && y != s[0] {
      InTail(s, y);
    }
    forall y ensures y in t[1..] <==> y in t && y != t[0] {
      InTail(t, y);
    }
  }

  lemma InTail(s: seq<string>, y: string)
    requires Ascending(s) && s != []
    ensures y in s[1..] <==> y in s && y != s[0]
  {
    LessIrreflexive(s[0]);
    if y in s[1..] {
      var i :| 0 <= i < |s[1..]| && s[1..][i] == y;
      assert s[i + 1] == y;
    }
  }

  ghost function SetOf(xs: seq<string>): set<string> {
    set x | x in xs
  }

  /** Collecting is a normal form for "same set of strings". */
  lemma CollectNormal(xs: seq<string>, ys: seq<string>)
    ensures Collect(xs) == Collect(ys) <==> SetOf(xs) == SetOf(ys)
  {
    var a, b := SetOf(xs), SetOf(ys);
    CollectElements(xs);
    CollectElements(ys);
    if Collect(xs) == Collect(ys) {
      forall z ensures z in a <==> z in b {
        assert z in Collect(xs) <==> z in Collect(ys);
      }
    }
    if a == b {
      forall z ensures z in Collect(xs) <==> z in Collect(ys) {
        assert z in a <==> z in b;
      }
      CollectAscending(xs);
      CollectAscending(ys);
      AscendingUnique(Collect(xs), Collect(ys));
    }
  }

  // ---------------------------------------------------------------- splitting

  /** `str::split(d)`: always at least one piece. */
  function Split(s: string, d: char): (r: seq<string>)
    ensures |r| >= 1
    ensures forall i :: 0 <= i < |r| ==> d !in r[i]
  {
    if s == [] then [""]
    else
      var rest := Split(s[1..], d);
      if s[0] == d then [""] + rest
      else [[s[0]] + rest[0]] + rest[1..]
  }

  /** Pieces put back together with the delimiter between them. */
  function Join(r: seq<string>, d: char): string
    requires |r| >= 1
  {
    if |r| == 1 then r[0] else r[0] + [d] + Join(r[1..], d)
  }

  lemma {:induction false} JoinSplit(s: string, d: char)
    ensures Join(Split(s, d), d) == s
  {
    if s == [] {
    } else {
      var rest := Split(s[1..], d);
      JoinSplit(s[1..], d);
      if s[0] == d {
        assert ([""] + rest)[1..] == rest;
        assert s == [d] + s[1..];
      } else {
        var r := Split(s, d);
        assert r[1..] == rest[1..];
        assert s == [s[0]] + Join(rest, d);
        assert Join(r, d) == [s[0]] + Join(rest, d);
      }
    }
  }

  lemma {:induction false} SplitWhole(s: string, d: char)
    requires d !in s
    ensures Split(s, d) == [s]
  {
    if s == [] {
    } else {
      SplitWhole(s[1..], d);
      assert [s[0]] + s[1..] == s;
    }
  }

  /** Splitting at a delimiter is compositional. */
  lemma {:induction false} SplitConcat(a: string, d: char, b: string)
    ensures Split(a + [d] + b, d) == Split(a, d) + Split(b, d)
  {
    var s, tail := a + [d] + b, Split(b, d);
    if a == [] {
      assert s[1..] == b;
    } else {
      SplitConcat(a[1..], d, b);
      var rest := Split(a[1..], d);
      assert s[1..] == a[1..] + [d] + b;
      assert Split(s[1..], d) == rest + tail;
      assert s[0] == a[0];
      ConsAssoc(rest, tail, a[0]);
    }
  }

  lemma ConsAssoc(rest: seq<string>, tail: seq<string>, c: char)
    requires |rest| >= 1
    ensures [""] + (rest + tail) == ([""] + rest) + tail
    ensures [[c] + (rest + tail)[0]] + (rest + tail)[1..] == [[c] + rest[0]] + rest[1..] + tail
  {
  }

  function Count(s: string, c: char): nat {
    if s == [] then 0 else (if s[0] == c then 1 else 0) + Count(s[1..], c)
  }

  lemma {:induction false} CountConcat(a: string, b: string, c: char)
    ensures Count(a + b, c) == Count(a, c) + Count(b, c)
  {
    if a == [] {
      assert a + b == b;
    } else {
      assert (a + b)[1..] == a[1..] + b;
      CountConcat(a[1..], b, c);
    }
  }

  function FirstIndex(s: string, c: char): (k: nat)
    ensures k <= |s| && c !in s[..k]
    ensures k < |s| ==> s[k] == c
  {
    if s == [] || s[0] == c then 0 else 1 + FirstIndex(s[1..], c)
  }

  /** The first piece of a split and what is left to split. */
  lemma SplitFirst(s: string, d: char)
    ensures var k := FirstIndex(s, d);
            Split(s, d) == if k == |s| then [s] else [s[..k]] + Split(s[k + 1..], d)
  {
    var k := FirstIndex(s, d);
    SplitWhole(s[..k], d);
    if k == |s| {
      assert s[..k] == s;
    } else {
      SplitConcat(s[..k], d, s[k + 1..]);
      assert s == s[..k] + [d] + s[k + 1..];
    }
  }
}
