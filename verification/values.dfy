/** Optional arguments, failures, the truthiness test the connection helpers
    apply to their optional string arguments, and `str.join`. */
module Values {

  /** An argument that may be absent (`None` in the helpers' signatures). */
  datatype Option<+T> = None | Some(value: T)

  /** Either the recorded outcome of an operation or the error it raises. */
  datatype Result<+T, +E> = Ok(value: T) | Err(error: E)

  /** Truthiness of an optional string argument: absent and empty are both false. */
  predicate Truthy(o: Option<string>)
    ensures Truthy(o) <==> o != None && o != Some([])
  {
    o.Some? && o.value != []
  }

  /** `sep.join(parts)`: the parts in order, with `sep` between neighbours.
      No parts give the empty text and one part is returned as it is;
      `Split` below takes a join with a one-character separator apart. */
  function Join(parts: seq<string>, sep: string): (r: string)
    ensures parts == [] ==> r == []
    ensures |parts| == 1 ==> r == parts[0]
    decreases |parts|
  {
    if |parts| == 0 then []
    else if |parts| == 1 then parts[0]
    else parts[0] + sep + Join(parts[1..], sep)
  }

  /** Two parts joined: the first, the separator, the second. */
  lemma JoinTwo(a: string, b: string, sep: string)
    ensures Join([a, b], sep) == a + sep + b
  {
    assert [a, b][1..] == [b];
  }

  /** Three parts joined, with the separator between neighbours. */
  lemma JoinThree(a: string, b: string, c: string, sep: string)
    ensures Join([a, b, c], sep) == a + sep + b + sep + c
  {
    assert [a, b, c][1..] == [b, c];
    JoinTwo(b, c, sep);
  }

  /** `s.split(sep)` for a one-character separator: the pieces of `s`
      between occurrences of `sep`, in order. A text without `sep`, the
      empty text included, is one piece. */
  function Split(s: string, sep: char): (parts: seq<string>)
    ensures |parts| > 0
    ensures forall n :: 0 <= n < |parts| ==> sep !in parts[n]
    decreases |s|
  {
    if s == [] then [[]]
    else
      var rest := Split(s[1..], sep);
      if s[0] == sep then [[]] + rest else [[s[0]] + rest[0]] + rest[1..]
  }

  /** Joining parts whose first part gains a leading character is joining
      them and putting that character first. */
  lemma JoinExtendsFirst(c: char, parts: seq<string>, sep: string)
    requires |parts| > 0
    ensures Join([[c] + parts[0]] + parts[1..], sep) == [c] + Join(parts, sep)
  {
    var ext := [[c] + parts[0]] + parts[1..];
    assert ext[1..] == parts[1..];
  }

  /** Splitting and joining back with the same separator gives the text
      back: `sep.join(s.split(sep)) == s` for every text. */
  lemma {:induction false} JoinSplit(s: string, sep: char)
    ensures Join(Split(s, sep), [sep]) == s
    decreases |s|
  {
    if s != [] {
      var rest := Split(s[1..], sep);
      JoinSplit(s[1..], sep);
      if s[0] == sep {
        assert ([[]] + rest)[1..] == rest;
        assert Join([[]] + rest, [sep]) == [] + [sep] + Join(rest, [sep]);
      } else {
        JoinExtendsFirst(s[0], rest, [sep]);
      }
      assert s == [s[0]] + s[1..];
    }
  }

  /** A text without the separator, followed by any text, splits into the
      first piece extended by that text and the remaining pieces. */
  lemma {:induction false} SplitPrefix(a: string, b: string, sep: char)
    requires sep !in a
    ensures Split(a + b, sep) == [a + Split(b, sep)[0]] + Split(b, sep)[1..]
    decreases |a|
  {
    if a != [] {
      var sb := Split(b, sep);
      assert a[0] != sep;
      assert (a + b)[1..] == a[1..] + b;
      assert (a + b)[0] == a[0];
      SplitPrefix(a[1..], b, sep);
      var r := Split(a[1..] + b, sep);
      assert r == [a[1..] + sb[0]] + sb[1..];
      assert Split(a + b, sep) == [[a[0]] + r[0]] + r[1..];
      assert r[1..] == sb[1..];
      assert [a[0]] + (a[1..] + sb[0]) == a + sb[0];
    } else {
      var sb := Split(b, sep);
      assert a + b == b;
      assert a + sb[0] == sb[0];
      assert sb == [sb[0]] + sb[1..];
    }
  }

  /** Joining parts that do not contain the separator and splitting the
      result gives the parts back: `sep.join(parts).split(sep) == parts`
      for every non-empty list of such parts. */
  lemma {:induction false} SplitJoin(parts: seq<string>, sep: char)
    requires |parts| > 0
    requires forall n :: 0 <= n < |parts| ==> sep !in parts[n]
    ensures Split(Join(parts, [sep]), sep) == parts
    decreases |parts|
  {
    if |parts| == 1 {
      SplitPrefix(parts[0], [], sep);
      assert parts[0] + [] == parts[0];
    } else {
      var rest := Join(parts[1..], [sep]);
      assert forall n :: 0 <= n < |parts[1..]| ==> sep !in parts[1..][n];
      SplitJoin(parts[1..], sep);
      assert ([sep] + rest)[1..] == rest;
      var tail := Split([sep] + rest, sep);
      assert tail == [[]] + parts[1..];
      SplitPrefix(parts[0], [sep] + rest, sep);
      assert Join(parts, [sep]) == parts[0] + ([sep] + rest);
      assert tail[0] == [] && tail[1..] == parts[1..];
      assert parts[0] + tail[0] == parts[0];
      assert parts == [parts[0]] + parts[1..];
    }
  }
}
