/** The remove-dot-segments algorithm of section 5.2.4 of RFC 3986, and the paths it leaves alone. */
module DotSegments {
  import opened Basics
  import opened Text
  import opened Paths

  /** Removes the last segment and its preceding '/', if any. */
  function DropLastSegment(output: string): (r: string)
    ensures |r| <= |output|
  {
    if output == [] then []
    else if output[|output| - 1] == '/' then output[..|output| - 1]
    else DropLastSegment(output[..|output| - 1])
  }

  /** Length of the first path segment, with its initial '/' if there is one. */
  function FirstSegment(input: string): (n: nat)
    requires input != []
    ensures 1 <= n <= |input|
  {
    if input[0] == '/' then 1 + FirstIndex(input[1..], '/') else FirstIndex(input, '/')
  }

  /** Steps 2A to 2E: what one round leaves in the input and output buffers. */
  function Round(input: string, output: string): (r: (string, string))
    requires input != []
    ensures |r.0| < |input| && |r.0| + |r.1| <= |input| + |output|
  {
    if StartsWith(input, "../") then (input[3..], output)
    else if StartsWith(input, "./") then (input[2..], output)
    else if StartsWith(input, "/./") then (input[2..], output)
    else if input == "/." then ("/", output)
    else if StartsWith(input, "/../") then (input[3..], DropLastSegment(output))
    else if input == "/.." then ("/", DropLastSegment(output))
    else if input == "." || input == ".." then ("", output)
    else
      var n := FirstSegment(input);
      (input[n..], output + input[..n])
  }

  /** Step 2: rounds until the input buffer is empty. */
  function RemoveDots(input: string, output: string): (r: string)
    ensures |r| <= |input| + |output|
    decreases |input|
  {
    if input == [] then output
    else
      var (rest, output') := Round(input, output);
      RemoveDots(rest, output')
  }

  ghost predicate Clean(segments: seq<string>) {
    forall i :: 0 <= i < |segments| ==> !IsDot(segments[i])
  }

  lemma FirstIsDot(x: string)
    ensures var first := x[..FirstIndex(x, '/')];
            && (first == "." <==> x == "." || StartsWith(x, "./"))
            && (first == ".." <==> x == ".." || StartsWith(x, "../"))
  {
  }

  /** Only step 2E applies to a clean segment. */
  lemma MoveSegment(x: string, output: string)
    requires !IsDot(x[..FirstIndex(x, '/')])
    ensures var k := FirstIndex(x, '/');
            Round("/" + x, output) == (x[k..], output + ("/" + x[..k]))
  {
    var input, k := "/" + x, FirstIndex(x, '/');
    FirstIsDot(x);
    assert input[1..] == x;
    assert input[0] == '/';
    assert FirstSegment(input) == 1 + k;
    assert input[1 + k..] == x[k..] && input[..1 + k] == "/" + x[..k];
  }

  lemma {:induction false} CleanIsKept(x: string, output: string)
    requires Clean(Split(x, '/'))
    ensures RemoveDots("/" + x, output) == output + "/" + x
    decreases |x|
  {
    var k := FirstIndex(x, '/');
    SplitFirst(x, '/');
    assert Split(x, '/')[0] == x[..k];
    MoveSegment(x, output);
    Seam(x, k, output);
    var output' := output + ("/" + x[..k]);
    if k < |x| {
      var rest := x[k + 1..];
      assert Split(x, '/')[1..] == Split(rest, '/');
      CleanIsKept(rest, output');
      assert RemoveDots("/" + x, output) == RemoveDots("/" + rest, output') == output' + "/" + rest;
    } else {
      assert RemoveDots("/" + x, output) == RemoveDots("", output') == output';
    }
  }

  lemma Seam(x: string, k: nat, output: string)
    requires k <= |x| && (k < |x| ==> x[k] == '/')
    ensures k == |x| ==> x[k..] == "" && output + ("/" + x[..k]) == output + "/" + x
    ensures k < |x| ==> x[k..] == "/" + x[k + 1..]
    ensures k < |x| ==> output + ("/" + x[..k]) + "/" + x[k + 1..] == output + "/" + x
  {
  }

  lemma {:induction false} DotIsLost(x: string, output: string)
    requires !Clean(Split(x, '/'))
    ensures |RemoveDots("/" + x, output)| < 1 + |x| + |output|
    decreases |x|
  {
    var k := FirstIndex(x, '/');
    SplitFirst(x, '/');
    if IsDot(x[..k]) {
      FirstIsDot(x);
      DotIsDropped(x, output);
    } else {
      MoveSegment(x, output);
      assert k < |x|;
      assert Split(x, '/')[1..] == Split(x[k + 1..], '/');
      DotIsLost(x[k + 1..], output + ("/" + x[..k]));
      assert x[k..] == "/" + x[k + 1..];
    }
  }

  lemma DotIsDropped(x: string, output: string)
    requires x == "." || StartsWith(x, "./") || x == ".." || StartsWith(x, "../")
    ensures var (rest, output') := Round("/" + x, output); |rest| + |output'| < 1 + |x| + |output|
  {
  }

  /**
   The absolute paths that remove-dot-segments leaves unchanged are those without dot segments:
   the ones `canonical_request_path` lets through.
   */
  lemma FixedPoints(path: string)
    requires StartsWith(path, "/")
    ensures RemoveDots(path, "") == path <==> NoDotSegments(path)
  {
    var x := path[1..];
    assert path == "/" + x;
    assert Split(path, '/') == [""] + Split(x, '/');
    assert NoDotSegments(path) <==> Clean(Split(x, '/')) by {
      assert Split(path, '/')[1..] == Split(x, '/');
      assert !IsDot(Split(path, '/')[0]);
    }
    if Clean(Split(x, '/')) {
      CleanIsKept(x, "");
      assert "" + "/" + x == path;
    } else {
      DotIsLost(x, "");
    }
  }

  lemma CanonicalNeedsNoRemoval(raw: string, c: string)
    requires Canonical(raw) == Ok(c)
    ensures RemoveDots(c, "") == c
  {
    CanonicalInvertsSpelling(raw, c);
    FixedPoints(c);
  }
}
