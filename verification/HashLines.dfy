/** Length-prefixed lines (src/proxy.rs, `push_hash_field`) and the parser that reads them back. */
module HashLines {
  import opened Basics
  import opened Text

  datatype HashField = HashField(name: string, value: string)

  /** `push_hash_field`. */
  function Line(f: HashField): string {
    f.name + ":" + Decimal(|f.value|) + ":" + f.value + "\n"
  }

  function Serialize(fields: seq<HashField>): string {
    if fields == [] then "" else Line(fields[0]) + Serialize(fields[1..])
  }

  lemma Associative(x: string, y: string, z: string)
    ensures x + (y + z) == (x + y) + z
  {
  }

  lemma {:induction false} SerializeConcat(a: seq<HashField>, b: seq<HashField>)
    ensures Serialize(a + b) == Serialize(a) + Serialize(b)
  {
    if a == [] {
      assert a + b == b;
    } else {
      assert (a + b)[1..] == a[1..] + b;
      SerializeConcat(a[1..], b);
      Associative(Line(a[0]), Serialize(a[1..]), Serialize(b));
    }
  }

  /** Reads a name up to ':', a decimal length up to ':', that many bytes and a line feed. */
  function ParseOne(s: string): (r: Option<(HashField, string)>)
    ensures r.Some? ==> |r.value.1| < |s|
  {
    var k := FirstIndex(s, ':');
    if k == |s| then None
    else
      var t := s[k + 1..];
      var j := FirstIndex(t, ':');
      if j == |t| || !AllDigits(t[..j]) then None
      else
        var u, n := t[j + 1..], DecimalValue(t[..j]);
        if n >= |u| || u[n] != '\n' then None
        else Some((HashField(s[..k], u[..n]), u[n + 1..]))
  }

  function Parse(s: string): Option<seq<HashField>>
    decreases |s|
  {
    if s == "" then Some([])
    else match ParseOne(s)
      case None => None
      case Some(p) =>
        match Parse(p.1)
        case None => None
        case Some(rest) => Some([p.0] + rest)
  }

  lemma {:induction false} FirstIndexAt(a: string, c: char, b: string)
    requires c !in a
    ensures FirstIndex(a + [c] + b, c) == |a|
  {
    var s := a + [c] + b;
    if a == [] {
    } else {
      assert s[1..] == a[1..] + [c] + b;
      FirstIndexAt(a[1..], c, b);
    }
  }

  /** A text cut at a delimiter that its first part does not contain. */
  lemma CutAt(s: string, a: string, c: char, b: string)
    requires c !in a && s == a + [c] + b
    ensures FirstIndex(s, c) == |a| < |s| && s[..|a|] == a && s[|a| + 1..] == b
  {
    FirstIndexAt(a, c, b);
  }

  lemma DigitsHaveNoColon(n: nat)
    ensures ':' !in Decimal(n)
  {
  }

  lemma LineParts(f: HashField, rest: string, digits: string)
    requires digits == Decimal(|f.value|)
    ensures Line(f) + rest == f.name + ":" + (digits + ":" + (f.value + "\n" + rest))
    ensures var u := f.value + "\n" + rest;
            u[..|f.value|] == f.value && u[|f.value|] == '\n' && u[|f.value| + 1..] == rest
  {
  }

  /** The parser takes exactly one line off, whatever the value contains. */
  lemma ParseLine(f: HashField, rest: string)
    requires ':' !in f.name
    ensures ParseOne(Line(f) + rest) == Some((f, rest))
  {
    var s, digits := Line(f) + rest, Decimal(|f.value|);
    var u := f.value + "\n" + rest;
    var t := digits + ":" + u;
    LineParts(f, rest, digits);
    CutAt(s, f.name, ':', t);
    DigitsHaveNoColon(|f.value|);
    CutAt(t, digits, ':', u);
    DecimalRoundTrip(|f.value|);
  }

  lemma ParseMore(f: HashField, rest: string, fs: seq<HashField>)
    requires ':' !in f.name && Parse(rest) == Some(fs)
    ensures Parse(Line(f) + rest) == Some([f] + fs)
  {
    ParseLine(f, rest);
    assert |Line(f)| > 0;
  }

  ghost predicate NamesOk(fields: seq<HashField>) {
    forall i :: 0 <= i < |fields| ==> ':' !in fields[i].name
  }

  /** Unique decodability: the parser recovers the exact field list. */
  lemma {:induction false} ParseSerialized(fields: seq<HashField>)
    requires NamesOk(fields)
    ensures Parse(Serialize(fields)) == Some(fields)
  {
    if fields == [] {
    } else {
      ParseSerialized(fields[1..]);
      ParseMore(fields[0], Serialize(fields[1..]), fields[1..]);
      assert fields == [fields[0]] + fields[1..];
    }
  }

  // ---------------------------------------------------------------- groups of lines

  function Lines(name: string, values: seq<string>): (fields: seq<HashField>)
    ensures |fields| == |values|
    ensures forall i :: 0 <= i < |fields| ==> fields[i] == HashField(name, values[i])
  {
    seq(|values|, i requires 0 <= i < |values| => HashField(name, values[i]))
  }

  /** All values pushed under one name. */
  datatype Group = Group(name: string, values: seq<string>)

  function Flatten(groups: seq<Group>): seq<HashField> {
    if groups == [] then []
    else
      var last := groups[|groups| - 1];
      Flatten(groups[..|groups| - 1]) + Lines(last.name, last.values)
  }

  // ---------------------------------------------------------------- reading the fields back

  /** The values listed under a name. */
  function ValuesOf(fields: seq<HashField>, name: string): seq<string> {
    if fields == [] then []
    else
      var last := fields[|fields| - 1];
      ValuesOf(fields[..|fields| - 1], name) + if last.name == name then [last.value] else []
  }

  lemma {:induction false} ValuesOfConcat(a: seq<HashField>, b: seq<HashField>, name: string)
    ensures ValuesOf(a + b, name) == ValuesOf(a, name) + ValuesOf(b, name)
  {
    if b == [] {
      assert a + b == a;
    } else {
      var init := b[..|b| - 1];
      assert (a + b)[..|a + b| - 1] == a + init;
      ValuesOfConcat(a, init, name);
    }
  }

  lemma {:induction false} ValuesOfLines(name: string, values: seq<string>, other: string)
    ensures ValuesOf(Lines(name, values), other) == if name == other then values else []
  {
    if values == [] {
    } else {
      var init := values[..|values| - 1];
      assert Lines(name, values)[..|values| - 1] == Lines(name, init);
      ValuesOfLines(name, init, other);
    }
  }

  ghost predicate DistinctNames(groups: seq<Group>) {
    forall i, j :: 0 <= i < j < |groups| ==> groups[i].name != groups[j].name
  }

  /** Every group of values can be read back under its name. */
  lemma {:induction false} ReadBack(groups: seq<Group>, n: nat, k: nat)
    requires n <= |groups| && k < |groups| && DistinctNames(groups)
    ensures ValuesOf(Flatten(groups[..n]), groups[k].name) == if k < n then groups[k].values else []
  {
    if n == 0 {
    } else {
      ReadBack(groups, n - 1, k);
      FlattenLast(groups, n);
      ReadBackStep(Flatten(groups[..n - 1]), groups[n - 1], groups[k].name);
      assert k != n - 1 ==> groups[k].name != groups[n - 1].name;
    }
  }

  lemma FlattenLast(groups: seq<Group>, n: nat)
    requires 0 < n <= |groups|
    ensures Flatten(groups[..n]) == Flatten(groups[..n - 1]) + Lines(groups[n - 1].name, groups[n - 1].values)
  {
    assert groups[..n][..n - 1] == groups[..n - 1];
  }

  lemma ReadBackStep(before: seq<HashField>, g: Group, name: string)
    ensures ValuesOf(before + Lines(g.name, g.values), name) ==
            ValuesOf(before, name) + if g.name == name then g.values else []
  {
    ValuesOfConcat(before, Lines(g.name, g.values), name);
    ValuesOfLines(g.name, g.values, name);
  }

  lemma {:induction false} FlattenNamesOk(groups: seq<Group>)
    requires forall i :: 0 <= i < |groups| ==> ':' !in groups[i].name
    ensures NamesOk(Flatten(groups))
  {
    if groups == [] {
    } else {
      FlattenNamesOk(groups[..|groups| - 1]);
    }
  }

  /** The material determines the groups, for any two lists of groups under the same distinct names. */
  lemma SerializedGroups(a: seq<Group>, b: seq<Group>)
    requires |a| == |b| && DistinctNames(a)
    requires forall i :: 0 <= i < |a| ==> a[i].name == b[i].name && ':' !in a[i].name
    requires Serialize(Flatten(a)) == Serialize(Flatten(b))
    ensures a == b
  {
    FlattenNamesOk(a);
    FlattenNamesOk(b);
    ParseSerialized(Flatten(a));
    ParseSerialized(Flatten(b));
    assert a[..|a|] == a && b[..|b|] == b;
    forall k | 0 <= k < |a| ensures a[k] == b[k] {
      ReadBack(a, |a|, k);
      ReadBack(b, |b|, k);
    }
  }

  // ---------------------------------------------------------------- pushing

  lemma FlattenPush(groups: seq<Group>, g: Group)
    ensures Serialize(Flatten(groups + [g])) == Serialize(Flatten(groups)) + Serialize(Lines(g.name, g.values))
  {
    assert (groups + [g])[..|groups|] == groups;
    SerializeConcat(Flatten(groups), Lines(g.name, g.values));
  }

  lemma PushedLine(name: string, values: seq<string>, i: nat)
    requires i < |values|
    ensures Serialize(Lines(name, values[..i + 1])) ==
            Serialize(Lines(name, values[..i])) + Line(HashField(name, values[i]))
  {
    var f := HashField(name, values[i]);
    assert Lines(name, values[..i + 1]) == Lines(name, values[..i]) + [f];
    SerializeConcat(Lines(name, values[..i]), [f]);
    assert Serialize([f]) == Line(f) + Serialize([f][1..]);
  }

  /** Pushes every value under one name, in order. */
  method PushAll(material: string, name: string, values: seq<string>) returns (m: string)
    ensures m == material + Serialize(Lines(name, values))
  {
    m := material;
    for i := 0 to |values|
      invariant m == material + Serialize(Lines(name, values[..i]))
    {
      PushedLine(name, values, i);
      Associative(material, Serialize(Lines(name, values[..i])), Line(HashField(name, values[i])));
      m := m + Line(HashField(name, values[i]));
    }
    assert values[..|values|] == values;
  }

  /** Pushes group after group onto an empty material. */
  method PushGroups(groups: seq<Group>) returns (m: string)
    ensures m == Serialize(Flatten(groups))
  {
    m := "";
    for i := 0 to |groups|
      invariant m == Serialize(Flatten(groups[..i]))
    {
      assert groups[..i + 1] == groups[..i] + [groups[i]];
      FlattenPush(groups[..i], groups[i]);
      m := PushAll(m, groups[i].name, groups[i].values);
    }
    assert groups[..|groups|] == groups;
  }
}
