/** Well-formed UTF-8, after the grammar in section 4 of RFC 3629. */
module Utf8 {

  predicate Between(c: char, lo: int, hi: int) {
    lo <= c as int <= hi
  }

  predicate Tail(c: char) {
    Between(c, 0x80, 0xBF)
  }

  /** Length of the well-formed character that opens `s`; 0 if there is none. */
  function CharLength(s: string): (n: nat)
    ensures n <= |s|
  {
    if |s| >= 1 && Between(s[0], 0x00, 0x7F) then 1
    else if |s| >= 2 && Between(s[0], 0xC2, 0xDF) && Tail(s[1]) then 2
    else if |s| >= 3 && Lead3(s[0], s[1]) && Tail(s[2]) then 3
    else if |s| >= 4 && Lead4(s[0], s[1]) && Tail(s[2]) && Tail(s[3]) then 4
    else 0
  }

  predicate Lead3(a: char, b: char) {
    || (Between(a, 0xE0, 0xE0) && Between(b, 0xA0, 0xBF))
    || (Between(a, 0xE1, 0xEC) && Tail(b))
    || (Between(a, 0xED, 0xED) && Between(b, 0x80, 0x9F))
    || (Between(a, 0xEE, 0xEF) && Tail(b))
  }

  predicate Lead4(a: char, b: char) {
    || (Between(a, 0xF0, 0xF0) && Between(b, 0x90, 0xBF))
    || (Between(a, 0xF1, 0xF3) && Tail(b))
    || (Between(a, 0xF4, 0xF4) && Between(b, 0x80, 0x8F))
  }

  predicate Valid(s: string)
    decreases |s|
  {
    s == [] || (CharLength(s) > 0 && Valid(s[CharLength(s)..]))
  }

  /** After a valid string, what follows decides: strings can be joined and cut at character boundaries. */
  lemma {:induction false} ValidAfter(a: string, b: string)
    requires Valid(a)
    ensures Valid(a + b) <==> Valid(b)
    decreases |a|
  {
    if a == [] {
      assert a + b == b;
    } else {
      var n := CharLength(a);
      assert CharLength(a + b) == n by {
        assert forall i | 0 <= i < |a| :: (a + b)[i] == a[i];
      }
      assert (a + b)[n..] == a[n..] + b;
      ValidAfter(a[n..], b);
    }
  }

  /** Well-formed text is made of bytes. */
  lemma {:induction false} ValidIsBytes(s: string)
    requires Valid(s)
    ensures forall i :: 0 <= i < |s| ==> s[i] as int < 256
    decreases |s|
  {
    if s == [] {
    } else {
      var n := CharLength(s);
      ValidIsBytes(s[n..]);
      assert forall i :: n <= i < |s| ==> s[i] == s[n..][i - n];
    }
  }

  // ---------------------------------------------------------------- scalar values

  /** The Unicode scalar values: every code point but the surrogates. */
  predicate Scalar(c: nat) {
    c < 0xD800 || 0xE000 <= c < 0x110000
  }

  /** The encoding of one scalar value, after the table in section 3 of RFC 3629. */
  function EncodeScalar(c: nat): (s: string)
    requires Scalar(c)
    ensures 1 <= |s| <= 4
  {
    if c < 0x80 then [c as char]
    else if c < 0x800 then [(0xC0 + c / 64) as char, (0x80 + c % 64) as char]
    else if c < 0x10000 then [(0xE0 + c / 4096) as char, (0x80 + c / 64 % 64) as char, (0x80 + c % 64) as char]
    else [(0xF0 + c / 262144) as char, (0x80 + c / 4096 % 64) as char, (0x80 + c / 64 % 64) as char, (0x80 + c % 64) as char]
  }

  /** An encoded scalar is recognised, whatever follows. */
  lemma EncodedOpens(c: nat, rest: string)
    requires Scalar(c)
    ensures CharLength(EncodeScalar(c) + rest) == |EncodeScalar(c)|
  {
    var e := EncodeScalar(c);
    var s := e + rest;
    assert forall i :: 0 <= i < |e| ==> s[i] == e[i];
  }

  lemma Digits3(x: nat, y: nat, z: nat, c: nat)
    requires y < 64 && z < 64 && c == x * 4096 + y * 64 + z
    ensures c / 4096 == x && c / 64 % 64 == y && c % 64 == z
  {
    assert c / 64 == x * 64 + y;
    assert (x * 64 + y) % 64 == y;
  }

  lemma Digits4(w: nat, x: nat, y: nat, z: nat, c: nat)
    requires x < 64 && y < 64 && z < 64 && c == w * 262144 + x * 4096 + y * 64 + z
    ensures c / 262144 == w && c / 4096 % 64 == x && c / 64 % 64 == y && c % 64 == z
  {
    Digits3(w * 64 + x, y, z, c);
  }

  lemma Opens3(s: string) returns (c: nat)
    requires CharLength(s) == 3
    ensures Scalar(c) && EncodeScalar(c) == s[..3]
  {
    var x, y, z := s[0] as int - 0xE0, s[1] as int - 0x80, s[2] as int - 0x80;
    c := x * 4096 + y * 64 + z;
    Digits3(x, y, z, c);
  }

  lemma Opens4(s: string) returns (c: nat)
    requires CharLength(s) == 4
    ensures Scalar(c) && EncodeScalar(c) == s[..4]
  {
    var w, x, y, z := s[0] as int - 0xF0, s[1] as int - 0x80, s[2] as int - 0x80, s[3] as int - 0x80;
    c := w * 262144 + x * 4096 + y * 64 + z;
    Digits4(w, x, y, z, c);
  }

  /** And nothing else is. */
  lemma OpensWithEncoded(s: string) returns (c: nat)
    requires CharLength(s) > 0
    ensures Scalar(c) && EncodeScalar(c) == s[..CharLength(s)]
  {
    var n := CharLength(s);
    if n == 1 {
      c := s[0] as int;
    } else if n == 2 {
      c := (s[0] as int - 0xC0) * 64 + (s[1] as int - 0x80);
    } else if n == 3 {
      c := Opens3(s);
    } else {
      c := Opens4(s);
    }
  }

  predicate Scalars(cs: seq<nat>) {
    forall i :: 0 <= i < |cs| ==> Scalar(cs[i])
  }

  function EncodeAll(cs: seq<nat>): string
    requires Scalars(cs)
  {
    if cs == [] then "" else EncodeScalar(cs[0]) + EncodeAll(cs[1..])
  }

  /** Well-formed text is the encoding of some sequence of scalar values. */
  lemma ValidIff(s: string)
    ensures Valid(s) <==> exists cs :: Scalars(cs) && EncodeAll(cs) == s
  {
    if Valid(s) { var cs := ValidIsEncoded(s); }
    forall cs | Scalars(cs) && EncodeAll(cs) == s ensures Valid(s) { EncodedIsValid(cs); }
  }

  lemma {:induction false} ValidIsEncoded(s: string) returns (cs: seq<nat>)
    requires Valid(s)
    ensures Scalars(cs) && EncodeAll(cs) == s
    decreases |s|
  {
    if s == [] {
      cs := [];
    } else {
      var n := CharLength(s);
      var c := OpensWithEncoded(s);
      var rest := ValidIsEncoded(s[n..]);
      cs := [c] + rest;
      assert cs[1..] == rest && s == s[..n] + s[n..];
    }
  }

  lemma {:induction false} EncodedIsValid(cs: seq<nat>)
    requires Scalars(cs)
    ensures Valid(EncodeAll(cs))
  {
    if cs == [] {
    } else {
      var e, rest := EncodeScalar(cs[0]), EncodeAll(cs[1..]);
      EncodedOpens(cs[0], rest);
      EncodedIsValid(cs[1..]);
      assert (e + rest)[|e|..] == rest;
    }
  }
}
