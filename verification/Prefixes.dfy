/** Segment-aware prefix matching and prefix rewriting (src/routing.rs). */
module Prefixes {
  import opened Text
  import opened Paths
  import Utf8

  predicate PrefixMatches(path: string, prefix: string) {
    || path == prefix
    || (&& StartsWith(path, prefix)
        && (EndsWithChar(prefix, '/') || StartsWith(path[|prefix|..], "/")))
  }

  function Suffix(path: string, prefix: string): string {
    if StartsWith(path, prefix) then path[|prefix|..] else ""
  }

  function Rewrite(path: string, local: string, upstream: string): string {
    var suffix := Suffix(path, local);
    if suffix == "" then upstream
    else if EndsWithChar(upstream, '/') || StartsWith(suffix, "/") then upstream + suffix
    else upstream + "/" + suffix
  }

  // ---------------------------------------------------------------- matching is list prefix

  /** The segments a prefix names; a trailing '/' names no segment of its own. */
  function Base(prefix: string): (segments: seq<string>)
    ensures EndsWithChar(prefix, '/') ==> |segments| == |Split(prefix, '/')| - 1
  {
    var s := Split(prefix, '/');
    if EndsWithChar(prefix, '/') then s[..|s| - 1] else s
  }

  /** The specification on segment lists: a trailing '/' also asks for one more segment. */
  predicate SegmentsMatch(path: string, prefix: string) {
    Base(prefix) <= Split(path, '/') && |Split(prefix, '/')| <= |Split(path, '/')|
  }

  lemma {:induction false} JoinConcat(a: seq<string>, b: seq<string>)
    requires |a| >= 1 && |b| >= 1
    ensures Join(a + b, '/') == Join(a, '/') + "/" + Join(b, '/')
  {
    assert (a + b)[1..] == a[1..] + b;
    if |a| <= 1 {
    } else {
      JoinConcat(a[1..], b);
    }
  }

  /** If the segments of `q` open those of `path`, `path` is `q`, or `q` and '/' and more. */
  lemma ListPrefixIsTextPrefix(path: string, q: string)
    requires Split(q, '/') <= Split(path, '/')
    ensures |Split(q, '/')| == |Split(path, '/')| ==> path == q
    ensures |Split(q, '/')| < |Split(path, '/')| ==> StartsWith(path, q + "/")
  {
    var p, m := Split(path, '/'), |Split(q, '/')|;
    assert p[..m] == Split(q, '/');
    if m < |p| {
      assert p == p[..m] + p[m..];
      SplitAhead(path, q, p[m..]);
    } else {
      assert p == p[..m];
      SplitInjective(path, q);
    }
  }

  lemma SplitInjective(s: string, t: string)
    requires Split(s, '/') == Split(t, '/')
    ensures s == t
  {
    JoinSplit(s, '/');
    JoinSplit(t, '/');
  }

  lemma SplitAhead(path: string, q: string, rest: seq<string>)
    requires |rest| >= 1 && Split(path, '/') == Split(q, '/') + rest
    ensures StartsWith(path, q + "/")
  {
    JoinConcat(Split(q, '/'), rest);
    JoinSplit(path, '/');
    JoinSplit(q, '/');
  }

  lemma TrailingSlash(prefix: string) returns (q: string)
    requires EndsWithChar(prefix, '/')
    ensures prefix == q + "/" && Split(q, '/') == Base(prefix)
  {
    q := prefix[..|prefix| - 1];
    assert prefix == q + "/" + "";
    SplitConcat(q, '/', "");
  }

  lemma TextPrefixIsListPrefix(q: string, rest: string)
    ensures Split(q, '/') <= Split(q + "/" + rest, '/')
    ensures |Split(q, '/')| < |Split(q + "/" + rest, '/')|
  {
    SplitConcat(q, '/', rest);
  }

  /** The string test is the list-prefix test on segments, for all strings. */
  lemma MatchingIsListPrefix(path: string, prefix: string)
    ensures PrefixMatches(path, prefix) <==> SegmentsMatch(path, prefix)
  {
    if EndsWithChar(prefix, '/') {
      var q := TrailingSlash(prefix);
      if PrefixMatches(path, prefix) {
        assert path == q + "/" + path[|prefix|..];
        TextPrefixIsListPrefix(q, path[|prefix|..]);
      }
      if SegmentsMatch(path, prefix) {
        ListPrefixIsTextPrefix(path, q);
      }
    } else {
      if PrefixMatches(path, prefix) && path != prefix {
        assert path == prefix + "/" + path[|prefix| + 1..];
        TextPrefixIsListPrefix(prefix, path[|prefix| + 1..]);
      }
      if SegmentsMatch(path, prefix) {
        ListPrefixIsTextPrefix(path, prefix);
        if path != prefix {
          assert path[..|prefix| + 1] == prefix + "/";
          assert path[|prefix|..][0] == '/';
        }
      }
    }
  }

  /** "Lies under" is a partial order on paths. */
  lemma MatchingIsPartialOrder(a: string, b: string, c: string)
    ensures PrefixMatches(a, a)
    ensures PrefixMatches(a, b) && PrefixMatches(b, a) ==> a == b
    ensures PrefixMatches(a, b) && PrefixMatches(b, c) ==> PrefixMatches(a, c)
  {
  }

  // ---------------------------------------------------------------- rewriting

  /** Whatever the request, the rewritten path lies under the upstream prefix. */
  lemma RewrittenMatches(path: string, local: string, upstream: string)
    ensures PrefixMatches(Rewrite(path, local, upstream), upstream)
  {
  }

  /**
   Rewriting there and back restores the path, except in one case: a local prefix that ends in
   '/' is exchanged for an upstream prefix that does not, and the suffix needs the '/' that
   the first rewriting then inserts.
   */
  lemma RewriteBack(path: string, local: string, upstream: string)
    requires PrefixMatches(path, local)
    ensures Rewrite(Rewrite(path, local, upstream), upstream, local) == path <==>
            !(&& EndsWithChar(local, '/') && !EndsWithChar(upstream, '/')
              && Suffix(path, local) != "" && Suffix(path, local)[0] != '/')
  {
  }

  lemma RewriteBackWhenSlashesAgree(path: string, local: string, upstream: string)
    requires PrefixMatches(path, local)
    requires !EndsWithChar(local, '/') || EndsWithChar(upstream, '/')
    ensures Rewrite(Rewrite(path, local, upstream), upstream, local) == path
  {
  }

  /** The segments of a request below its local prefix. */
  function Below(path: string, local: string): (rest: seq<string>)
    requires PrefixMatches(path, local)
    ensures |Base(local)| + |rest| == |Split(path, '/')|
  {
    MatchingIsListPrefix(path, local);
    Split(path, '/')[|Base(local)|..]
  }

  /** A request below the local prefix, cut at the prefix: a whole number of segments remains. */
  lemma RemainingSegments(path: string, local: string)
    requires PrefixMatches(path, local) && path != local
    ensures Suffix(path, local) != "" && |Below(path, local)| >= 1
    ensures var rest := Below(path, local);
            if EndsWithChar(local, '/') then Split(Suffix(path, local), '/') == rest
            else Suffix(path, local)[0] == '/' && Split(Suffix(path, local)[1..], '/') == rest
  {
    var suffix := Suffix(path, local);
    assert path == local + suffix;
    if EndsWithChar(local, '/') {
      var q := TrailingSlash(local);
      assert path == q + "/" + suffix;
      SplitConcat(q, '/', suffix);
    } else {
      assert path == local + "/" + suffix[1..];
      SplitConcat(local, '/', suffix[1..]);
    }
  }

  /** Rewriting is the exchange of the prefix's segments, up to empty segments at the seam. */
  lemma RewriteExchangesSegments(path: string, local: string, upstream: string)
    requires PrefixMatches(path, local) && path != local
    ensures var rest := Below(path, local);
            var result := Split(Rewrite(path, local, upstream), '/');
            if !EndsWithChar(local, '/') then result == Split(upstream, '/') + rest
            else if EndsWithChar(upstream, '/') then result == Base(upstream) + rest
            else if |rest| > 1 && rest[0] == "" then result == Split(upstream, '/') + rest[1..]
            else result == Split(upstream, '/') + rest
  {
    RemainingSegments(path, local);
    var suffix := Suffix(path, local);
    var r := Rewrite(path, local, upstream);
    if !EndsWithChar(local, '/') {
      assert r == upstream + "/" + suffix[1..];
      SplitConcat(upstream, '/', suffix[1..]);
    } else if EndsWithChar(upstream, '/') {
      var q := TrailingSlash(upstream);
      assert r == q + "/" + suffix;
      SplitConcat(q, '/', suffix);
    } else if suffix[0] == '/' {
      assert r == upstream + "/" + suffix[1..];
      SplitConcat(upstream, '/', suffix[1..]);
      assert Split(suffix, '/')[1..] == Split(suffix[1..], '/');
    } else {
      assert r == upstream + "/" + suffix;
      SplitConcat(upstream, '/', suffix);
    }
  }

  lemma NoDotsTogether(up: seq<string>, p: seq<string>, result: seq<string>, n: nat)
    requires forall i :: 0 <= i < |up| ==> !IsDot(up[i])
    requires forall i :: 0 <= i < |p| ==> !IsDot(p[i])
    requires n < |p| && |up| >= 1
    requires || result == up + p[n..] || result == up[..|up| - 1] + p[n..]
             || result == up + p[n..][1..]
    ensures forall i :: 0 <= i < |result| ==> !IsDot(result[i])
  {
  }

  lemma RewriteValid(path: string, local: string, upstream: string)
    requires Utf8.Valid(path) && Utf8.Valid(local) && Utf8.Valid(upstream) && PrefixMatches(path, local)
    ensures Utf8.Valid(Rewrite(path, local, upstream))
  {
    assert path == local + Suffix(path, local);
    TailValid(local, Suffix(path, local), upstream);
  }

  lemma TailValid(local: string, tail: string, upstream: string)
    requires Utf8.Valid(local) && Utf8.Valid(local + tail) && Utf8.Valid(upstream)
    ensures Utf8.Valid(upstream + tail) && Utf8.Valid(upstream + "/" + tail)
  {
    Utf8.ValidAfter(local, tail);
    Utf8.ValidAfter(upstream, tail);
    Utf8.ValidAfter(upstream, "/");
    Utf8.ValidAfter(upstream + "/", tail);
  }

  /** A canonical path rewritten onto a canonical prefix is a canonical path. */
  lemma RewriteKeepsCanonical(path: string, local: string, upstream: string)
    requires IsCanonical(path) && IsCanonical(local) && IsCanonical(upstream)
    requires PrefixMatches(path, local)
    ensures IsCanonical(Rewrite(path, local, upstream))
  {
    if path != local {
      var r := Rewrite(path, local, upstream);
      RewriteValid(path, local, upstream);
      assert r[0] == upstream[0] == '/';
      RemainingSegments(path, local);
      RewriteExchangesSegments(path, local, upstream);
      NoDotsTogether(Split(upstream, '/'), Split(path, '/'), Split(r, '/'), |Base(local)|);
    }
  }

  /** The rewritten path has a '%' only if the request or the upstream prefix has one. */
  lemma RewriteAddsNoPercent(path: string, local: string, upstream: string)
    requires '%' !in path && '%' !in upstream
    ensures '%' !in Rewrite(path, local, upstream)
  {
  }

  /** Decoding leaves a front without '%' alone. */
  lemma {:induction false} DecodeAfter(front: string, rest: string)
    requires '%' !in front
    ensures Decode(front + rest) == front + Decode(rest)
  {
    if front == [] {
      assert front + rest == rest;
    } else {
      assert (front + rest)[1..] == front[1..] + rest;
      DecodeAfter(front[1..], rest);
      assert [front[0]] + (front[1..] + Decode(rest)) == front + Decode(rest);
    }
  }

  /** A path under a prefix without '%' stays under it when it is decoded once more. */
  lemma DecodedStaysUnder(path: string, prefix: string)
    requires PrefixMatches(path, prefix) && '%' !in prefix
    ensures PrefixMatches(Decode(path), prefix)
  {
    var rest := path[|prefix|..];
    assert path == prefix + rest;
    DecodeAfter(prefix, rest);
    if rest == "" {
      assert Decode(path) == prefix + "" == prefix;
    } else {
      assert Decode(path)[|prefix|..] == Decode(rest);
      assert Decode(path)[..|prefix|] == prefix;
    }
  }
}
