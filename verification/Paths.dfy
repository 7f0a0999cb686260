/**
 Canonical request paths (src/routing.rs): percent-decoding with every check that
 `canonical_request_path` makes, in its order, and what the accepted paths are.
 */
module Paths {
  import opened Basics
  import opened Text
  import Utf8

  datatype PathError = NotAbsolute | BadEncoding | EncodedDelimiter | DotSegment

  // ---------------------------------------------------------------- percent-encoding

  predicate IsHex(c: char) {
    '0' <= c <= '9' || 'a' <= c <= 'f' || 'A' <= c <= 'F'
  }

  function HexValue(c: char): (v: nat)
    requires IsHex(c)
    ensures v < 16
  {
    if '0' <= c <= '9' then c as int - '0' as int
    else if 'a' <= c <= 'f' then c as int - 'a' as int + 10
    else c as int - 'A' as int + 10
  }

  predicate EscapeAt0(s: string) {
    |s| >= 3 && s[0] == '%' && IsHex(s[1]) && IsHex(s[2])
  }

  function EscapedByte(s: string): char
    requires EscapeAt0(s)
  {
    (16 * HexValue(s[1]) + HexValue(s[2])) as char
  }

  /** Every '%' opens an escape. */
  predicate WellFormed(s: string) {
    if s == [] then true
    else if s[0] == '%' then EscapeAt0(s) && WellFormed(s[3..])
    else WellFormed(s[1..])
  }

  /** `percent_decode_str`: a '%' that opens no escape stands for itself. */
  function Decode(s: string): string {
    if s == [] then []
    else if EscapeAt0(s) then [EscapedByte(s)] + Decode(s[3..])
    else [s[0]] + Decode(s[1..])
  }

  /** `reject_invalid_percent_encoding`: the index loop decides well-formedness. */
  method CheckPercentEncoding(path: string) returns (ok: bool)
    ensures ok <==> WellFormed(path)
  {
    var index := 0;
    while index < |path|
      invariant 0 <= index <= |path|
      invariant WellFormed(path) <==> WellFormed(path[index..])
    {
      if path[index] == '%' {
        if index + 2 >= |path| || !IsHex(path[index + 1]) || !IsHex(path[index + 2]) {
          return false;
        }
        assert path[index..][3..] == path[index + 3..];
        index := index + 3;
      } else {
        assert path[index..][1..] == path[index + 1..];
        index := index + 1;
      }
    }
    return true;
  }

  // ---------------------------------------------------------------- canonical paths

  predicate IsDot(segment: string) {
    segment == "." || segment == ".."
  }

  predicate NoDotSegments(path: string) {
    forall i :: 0 <= i < |Split(path, '/')| ==> !IsDot(Split(path, '/')[i])
  }

  predicate EncodedDelimiterIn(raw: string, decoded: string) {
    ('%' in raw && '\\' in decoded) || Count(decoded, '/') > Count(raw, '/')
  }

  function Canonical(raw: string): Result<string, PathError> {
    if !StartsWith(raw, "/") then Err(NotAbsolute)
    else if !WellFormed(raw) then Err(BadEncoding)
    else
      var decoded := Decode(raw);
      if !Utf8.Valid(decoded) then Err(BadEncoding)
      else if EncodedDelimiterIn(raw, decoded) then Err(EncodedDelimiter)
      else if !NoDotSegments(decoded) then Err(DotSegment)
      else Ok(decoded)
  }

  /** `canonical_request_path`, with its two scans. */
  method CanonicalRequestPath(path: string) returns (r: Result<string, PathError>)
    ensures r == Canonical(path)
  {
    if !StartsWith(path, "/") {
      return Err(NotAbsolute);
    }
    var encodingOk := CheckPercentEncoding(path);
    if !encodingOk {
      return Err(BadEncoding);
    }
    var decoded := Decode(path);
    if !Utf8.Valid(decoded) {
      return Err(BadEncoding);
    }
    if EncodedDelimiterIn(path, decoded) {
      return Err(EncodedDelimiter);
    }
    var segments := Split(decoded, '/');
    for i := 0 to |segments|
      invariant forall j :: 0 <= j < i ==> !IsDot(segments[j])
    {
      if IsDot(segments[i]) {
        return Err(DotSegment);
      }
    }
    return Ok(decoded);
  }

  /** What a configured or received path must be once decoded. */
  predicate IsCanonical(c: string) {
    StartsWith(c, "/") && Utf8.Valid(c) && NoDotSegments(c)
  }

  // The digits of section 2.1 of RFC 3986, by value.
  const LOWER_HEX := "0123456789abcdef"
  const UPPER_HEX := "0123456789ABCDEF"

  /** `c` is the digit of value `v`, in either case. */
  predicate Digit(c: char, v: nat) {
    v < 16 && (c == LOWER_HEX[v] || c == UPPER_HEX[v])
  }

  /** `raw` opens with '%' and the two digits of the byte `c`. */
  predicate Writes(raw: string, c: char) {
    |raw| >= 3 && raw[0] == '%' && c as int < 256 && Digit(raw[1], c as int / 16) && Digit(raw[2], c as int % 16)
  }

  lemma DigitValue(c: char, v: nat)
    ensures Digit(c, v) <==> IsHex(c) && HexValue(c) == v
  {
  }

  /** The arithmetic on digits reads exactly what the tables write. */
  lemma WrittenIsRead(raw: string, c: char)
    ensures Writes(raw, c) <==> EscapeAt0(raw) && EscapedByte(raw) == c
  {
    if |raw| >= 3 {
      DigitValue(raw[1], c as int / 16);
      DigitValue(raw[2], c as int % 16);
    }
  }

  /**
   `raw` is a percent-encoding of `c` in the sense of section 2.1 of RFC 3986 in which every '/'
   is literal: each byte of `c` appears as itself or as an escape in either hex case, '%' only
   as an escape, '/' only as itself.
   */
  predicate Spells(raw: string, c: string) {
    if c == [] then raw == []
    else if raw == [] then false
    else
      || (raw[0] == c[0] != '%' && Spells(raw[1..], c[1..]))
      || (Writes(raw, c[0]) && c[0] != '/' && Spells(raw[3..], c[1..]))
  }

  lemma {:induction false} DecodedSlashes(raw: string)
    requires WellFormed(raw)
    ensures Count(Decode(raw), '/') >= Count(raw, '/')
  {
    if raw == [] {
    } else {
      if raw[0] == '%' {
        EscapeHasNoSlash(raw);
        DecodedSlashes(raw[3..]);
        assert Decode(raw)[1..] == Decode(raw[3..]);
      } else {
        DecodedSlashes(raw[1..]);
        assert Decode(raw)[1..] == Decode(raw[1..]);
      }
    }
  }

  lemma EscapeHasNoSlash(raw: string)
    requires EscapeAt0(raw)
    ensures Count(raw, '/') == Count(raw[3..], '/')
  {
    assert raw[1..][1..] == raw[2..] && raw[2..][1..] == raw[3..];
    assert Count(raw, '/') == Count(raw[1..], '/') == Count(raw[2..], '/') == Count(raw[3..], '/');
  }

  lemma {:induction false} DecodedIsSpelled(raw: string)
    requires WellFormed(raw) && Count(Decode(raw), '/') <= Count(raw, '/')
    ensures Spells(raw, Decode(raw))
  {
    DecodedSlashes(raw);
    if raw == [] {
    } else {
      var c := Decode(raw);
      if raw[0] == '%' {
        EscapeHasNoSlash(raw);
        assert c[1..] == Decode(raw[3..]);
        WrittenIsRead(raw, c[0]);
        DecodedSlashes(raw[3..]);
        DecodedIsSpelled(raw[3..]);
      } else {
        assert c[1..] == Decode(raw[1..]);
        DecodedIsSpelled(raw[1..]);
      }
    }
  }

  lemma {:induction false} SpelledDecodes(raw: string, c: string)
    requires Spells(raw, c)
    ensures WellFormed(raw) && Decode(raw) == c && Count(raw, '/') == Count(c, '/')
  {
    if c == [] {
    } else {
      if raw[0] == c[0] != '%' && Spells(raw[1..], c[1..]) {
        SpelledDecodes(raw[1..], c[1..]);
      } else {
        WrittenIsRead(raw, c[0]);
        EscapeHasNoSlash(raw);
        SpelledDecodes(raw[3..], c[1..]);
      }
      assert c == [c[0]] + c[1..];
    }
  }

  /**
   Canonicalisation is exactly the inverse of percent-encoding with literal slashes. The last
   conjunct is the one place where the spelling matters beyond what it spells: a backslash is
   accepted only in a path that uses no escape at all.
   */
  lemma CanonicalInvertsSpelling(raw: string, c: string)
    ensures Canonical(raw) == Ok(c) <==>
            Spells(raw, c) && IsCanonical(c) && ('\\' in c ==> '%' !in raw)
  {
    if Canonical(raw) == Ok(c) {
      DecodedIsSpelled(raw);
      assert raw[0] == '/' && c == Decode(raw) && c[0] == '/';
    }
    if Spells(raw, c) {
      SpelledDecodes(raw, c);
      if IsCanonical(c) {
        assert c[0] == '/' && raw[0] == '/';
      }
    }
  }

  /** The shortest spelling: only '%' is escaped. */
  function Encode(c: string): string {
    if c == [] then []
    else (if c[0] == '%' then "%25" else [c[0]]) + Encode(c[1..])
  }

  lemma {:induction false} EncodeSpells(c: string)
    ensures Spells(Encode(c), c)
    ensures '%' in Encode(c) <==> '%' in c
  {
    if c == [] {
    } else {
      EncodeSpells(c[1..]);
      var e := Encode(c);
      if c[0] == '%' {
        assert e[3..] == Encode(c[1..]);
        assert e[0] == '%' && e[1] == '2' && e[2] == '5';
        assert Writes(e, '%');
      } else {
        assert e[1..] == Encode(c[1..]);
        assert '%' in e <==> '%' in e[1..];
      }
    }
  }

  /** Round trip: every canonical path has a raw form, except one that mixes '\' and '%'. */
  lemma CanonicalRoundTrip(c: string)
    requires IsCanonical(c)
    ensures (exists raw :: Canonical(raw) == Ok(c)) <==> !('\\' in c && '%' in c)
    ensures !('\\' in c && '%' in c) ==> Canonical(Encode(c)) == Ok(c)
  {
    EncodeSpells(c);
    CanonicalInvertsSpelling(Encode(c), c);
    forall raw | Canonical(raw) == Ok(c) ensures !('\\' in c && '%' in c) {
      CanonicalInvertsSpelling(raw, c);
      if '%' in c { SpelledPercent(raw, c); }
    }
  }

  /** The longest spelling: every byte but '/' as an escape, with digits from the given table. */
  function EscapeAll(c: string, table: string): string
    requires |table| == 16 && forall i :: 0 <= i < |c| ==> c[i] as int < 256
  {
    if c == [] then []
    else
      (if c[0] == '/' then "/" else ['%', table[c[0] as int / 16], table[c[0] as int % 16]]) + EscapeAll(c[1..], table)
  }

  lemma {:induction false} EscapeAllSpells(c: string, table: string)
    requires (table == LOWER_HEX || table == UPPER_HEX) && forall i :: 0 <= i < |c| ==> c[i] as int < 256
    ensures Spells(EscapeAll(c, table), c)
  {
    if c == [] {
    } else {
      var e := EscapeAll(c, table);
      EscapeAllSpells(c[1..], table);
      if c[0] == '/' {
        assert e[1..] == EscapeAll(c[1..], table);
      } else {
        assert e[3..] == EscapeAll(c[1..], table);
        assert e[0] == '%' && e[1] == table[c[0] as int / 16] && e[2] == table[c[0] as int % 16];
      }
    }
  }

  /** Round trip: a canonical path comes back from the text in which every byte but '/' is escaped, in either
      case, unless it has a backslash, which is then refused. */
  lemma EscapedRoundTrip(c: string, table: string)
    requires IsCanonical(c) && (table == LOWER_HEX || table == UPPER_HEX)
    ensures forall i :: 0 <= i < |c| ==> c[i] as int < 256
    ensures '\\' !in c ==> Canonical(EscapeAll(c, table)) == Ok(c)
    ensures '\\' in c ==> Canonical(EscapeAll(c, table)) == Err(EncodedDelimiter)
  {
    Utf8.ValidIsBytes(c);
    EscapeAllSpells(c, table);
    SpelledDecodes(EscapeAll(c, table), c);
    CanonicalInvertsSpelling(EscapeAll(c, table), c);
    if '\\' in c { EscapesHavePercent(c, table); }
  }

  lemma {:induction false} EscapesHavePercent(c: string, table: string)
    requires |table| == 16 && (forall i :: 0 <= i < |c| ==> c[i] as int < 256) && '\\' in c
    ensures '%' in EscapeAll(c, table)
  {
    if c[0] != '/' {
      assert EscapeAll(c, table)[0] == '%';
    } else {
      EscapesHavePercent(c[1..], table);
    }
  }

  /** An escaped '/' is refused wherever it stands in a well-formed absolute path, in either case. */
  lemma EscapedSlashRefused(before: string, digits: string, after: string)
    requires StartsWith(before, "/") && WellFormed(before) && WellFormed(after) && digits in {"%2f", "%2F"}
    requires Utf8.Valid(Decode(before + digits + after))
    ensures Canonical(before + digits + after) == Err(EncodedDelimiter)
  {
    var raw, rest := before + digits + after, digits + after;
    assert raw == before + rest && rest[3..] == after && rest[0] == '%' && digits[1] == '2';
    assert Writes(rest, '/') by { assert LOWER_HEX[2] == '2' && LOWER_HEX[15] == 'f' && UPPER_HEX[15] == 'F'; }
    WrittenIsRead(rest, '/');
    WellFormedConcat(before, rest);
    DecodeConcat(before, rest);
    EscapeHasNoSlash(rest);
    DecodedSlashes(before);
    DecodedSlashes(after);
    CountConcat(before, rest, '/');
    CountConcat(Decode(before), Decode(rest), '/');
    assert Decode(rest)[1..] == Decode(after);
    assert raw[0] == before[0];
  }

  /** One step of decoding takes this many characters and gives this one. */
  function StepLength(s: string): nat
    requires s != [] && WellFormed(s)
  {
    if s[0] == '%' then 3 else 1
  }

  function StepByte(s: string): char
    requires s != [] && WellFormed(s)
  {
    if s[0] == '%' then EscapedByte(s) else s[0]
  }

  lemma DecodeStep(s: string)
    requires s != [] && WellFormed(s)
    ensures StepLength(s) <= |s| && WellFormed(s[StepLength(s)..])
    ensures Decode(s) == [StepByte(s)] + Decode(s[StepLength(s)..])
  {
  }

  lemma StepConcat(a: string, b: string)
    requires a != [] && WellFormed(a) && WellFormed(a[StepLength(a)..] + b)
    ensures WellFormed(a + b) && StepLength(a + b) == StepLength(a) && StepByte(a + b) == StepByte(a)
    ensures (a + b)[StepLength(a)..] == a[StepLength(a)..] + b
  {
    assert forall i :: 0 <= i < |a| ==> (a + b)[i] == a[i];
    assert (a + b)[StepLength(a)..] == a[StepLength(a)..] + b;
  }

  lemma {:induction false} WellFormedConcat(a: string, b: string)
    requires WellFormed(a) && WellFormed(b)
    ensures WellFormed(a + b)
    decreases |a|
  {
    if a == [] {
      assert a + b == b;
    } else {
      DecodeStep(a);
      WellFormedConcat(a[StepLength(a)..], b);
      StepConcat(a, b);
    }
  }

  lemma DecodeGlue(a: string, b: string, rest: string)
    requires a != [] && WellFormed(a) && rest == a[StepLength(a)..] && WellFormed(rest + b)
    requires Decode(rest + b) == Decode(rest) + Decode(b)
    ensures Decode(a + b) == [StepByte(a)] + (Decode(rest) + Decode(b))
  {
    StepConcat(a, b);
    DecodeStep(a + b);
  }

  lemma {:induction false} DecodeConcat(a: string, b: string)
    requires WellFormed(a) && WellFormed(b)
    ensures Decode(a + b) == Decode(a) + Decode(b)
    decreases |a|
  {
    if a == [] {
      assert a + b == b;
    } else {
      DecodeStep(a);
      var rest := a[StepLength(a)..];
      WellFormedConcat(rest, b);
      DecodeConcat(rest, b);
      DecodeGlue(a, b, rest);
      Reassociate1(StepByte(a), Decode(rest), Decode(b));
    }
  }

  lemma Reassociate1(c: char, x: string, y: string)
    ensures [c] + (x + y) == ([c] + x) + y
  {
  }

  lemma {:induction false} SpelledPercent(raw: string, c: string)
    requires Spells(raw, c) && '%' in c
    ensures '%' in raw
  {
    if raw[0] == c[0] != '%' && Spells(raw[1..], c[1..]) {
      SpelledPercent(raw[1..], c[1..]);
    }
  }

  /**
   Canonicalisation leaves an already canonical path alone exactly when it has no '%': a path
   may be canonicalised again at the next hop only then.
   */
  lemma CanonicalFixedPoint(c: string)
    requires IsCanonical(c)
    ensures Canonical(c) == Ok(c) <==> '%' !in c
  {
    if '%' !in c {
      LiteralSpells(c);
      CanonicalInvertsSpelling(c, c);
    } else if Canonical(c) == Ok(c) {
      CanonicalInvertsSpelling(c, c);
      SpellingIsLonger(c, c);
    }
  }

  lemma {:induction false} LiteralSpells(c: string)
    requires '%' !in c
    ensures Spells(c, c)
  {
    if c == [] {
    } else {
      LiteralSpells(c[1..]);
    }
  }

  lemma {:induction false} SpellingIsLonger(raw: string, c: string)
    requires Spells(raw, c)
    ensures |raw| >= |c|
    ensures '%' in c ==> |raw| > |c|
  {
    if c == [] {
    } else {
      if raw[0] == c[0] != '%' && Spells(raw[1..], c[1..]) {
        SpellingIsLonger(raw[1..], c[1..]);
      } else {
        SpellingIsLonger(raw[3..], c[1..]);
      }
    }
  }

  // ---------------------------------------------------------------- segments

  /** Decoding commutes with splitting: segment by segment, with the same number of segments. */
  lemma DecodingKeepsSegments(raw: string, c: string)
    requires Canonical(raw) == Ok(c)
    ensures |Split(raw, '/')| == |Split(c, '/')|
    ensures forall i :: 0 <= i < |Split(c, '/')| ==> Decode(Split(raw, '/')[i]) == Split(c, '/')[i]
  {
    CanonicalInvertsSpelling(raw, c);
    SpelledSegments(raw, c);
    forall i | 0 <= i < |Split(c, '/')| ensures Decode(Split(raw, '/')[i]) == Split(c, '/')[i] {
      SpelledDecodes(Split(raw, '/')[i], Split(c, '/')[i]);
    }
  }

  /** Both splits have the same shape and agree piece by piece. */
  ghost predicate PiecesSpell(rs: seq<string>, cs: seq<string>) {
    |rs| == |cs| && forall i :: 0 <= i < |cs| ==> Spells(rs[i], cs[i])
  }

  lemma {:induction false} SpelledSegments(raw: string, c: string)
    requires Spells(raw, c)
    ensures PiecesSpell(Split(raw, '/'), Split(c, '/'))
  {
    if c == [] {
    } else {
      var cs := Split(c[1..], '/');
      if raw[0] == c[0] != '%' && Spells(raw[1..], c[1..]) {
        SpelledSegments(raw[1..], c[1..]);
        var rs := Split(raw[1..], '/');
        if c[0] == '/' {
          PiecesSpellCons("", rs, "", cs);
        } else {
          assert ([raw[0]] + rs[0])[1..] == rs[0] && ([c[0]] + cs[0])[1..] == cs[0];
          PiecesSpellCons([raw[0]] + rs[0], rs[1..], [c[0]] + cs[0], cs[1..]);
        }
      } else {
        SpelledSegments(raw[3..], c[1..]);
        var rs := Split(raw[3..], '/');
        WrittenIsRead(raw, c[0]);
        SplitEscape(raw);
        assert (raw[..3] + rs[0])[3..] == rs[0] && ([c[0]] + cs[0])[1..] == cs[0];
        PiecesSpellCons(raw[..3] + rs[0], rs[1..], [c[0]] + cs[0], cs[1..]);
      }
    }
  }

  lemma PiecesSpellCons(r: string, rs: seq<string>, c: string, cs: seq<string>)
    requires Spells(r, c) && PiecesSpell(rs, cs)
    ensures PiecesSpell([r] + rs, [c] + cs)
  {
  }

  lemma SplitEscape(raw: string)
    requires EscapeAt0(raw)
    ensures Split(raw, '/') == [raw[..3] + Split(raw[3..], '/')[0]] + Split(raw[3..], '/')[1..]
  {
    var rr := Split(raw[3..], '/');
    assert raw[2..][1..] == raw[3..] && raw[1..][1..] == raw[2..];
    assert Split(raw[2..], '/') == [[raw[2]] + rr[0]] + rr[1..];
    assert Split(raw[1..], '/') == [[raw[1]] + ([raw[2]] + rr[0])] + rr[1..];
    assert [raw[0]] + ([raw[1]] + ([raw[2]] + rr[0])) == raw[..3] + rr[0];
  }
}
