/** Properties of the host-extraction patterns: the standalone search finds
    the first pair `findall` finds; a pair written as `host:port`, or as a
    bare host, is extracted back as itself, also after a `scheme://` prefix;
    and a list of written pairs separated by `,`, `;` or white space is
    extracted back in order. */
module PatternFacts {
  import opened Values
  import opened CharClass
  import opened HostPattern

  /** A greedy run ends exactly where its class first fails. */
  lemma {:induction false} RunEndExact(s: string, i: nat, j: nat, cls: Class)
    requires i <= j <= |s|
    requires forall k :: i <= k < j ==> In(cls, s[k])
    requires j < |s| ==> !In(cls, s[j])
    ensures RunEnd(s, i, cls) == j
    decreases j - i
  {
    if i < j {
      RunEndExact(s, i + 1, j, cls);
    }
  }

  /** A match attempt in terms of the positions where its groups start and end. */
  lemma MatchAtParts(s: string, i: nat)
    requires i <= |s|
    ensures var hs := HostStart(s, i);
      var he := RunEnd(s, hs, Host);
      var ps := PortStart(s, he);
      var pe := RunEnd(s, ps, Digit);
      && (MatchAt(s, i).Some? <==> he != hs)
      && (he != hs ==> MatchAt(s, i).value.token.host == s[hs..he])
      && (he != hs ==> MatchAt(s, i).value.token.port == s[ps..pe])
      && (he != hs ==> MatchAt(s, i).value.end == pe)
  {
  }

  /** A `findall` attempt in terms of the match after the leading white space. */
  lemma NextAtParts(s: string, i: nat)
    requires i <= |s|
    ensures var j := RunEnd(s, i, Space);
      && (NextAt(s, i).Some? <==> MatchAt(s, j).Some?)
      && (MatchAt(s, j).Some? ==> NextAt(s, i).value.token == MatchAt(s, j).value.token)
      && (MatchAt(s, j).Some? ==> NextAt(s, i).value.end == RunEnd(s, MatchAt(s, j).value.end, Space))
  {
  }

  /** One step of `findall`. */
  lemma FindAllFromStep(s: string, i: nat)
    requires i <= |s|
    ensures NextAt(s, i).Some? ==>
      FindAllFrom(s, i) == [NextAt(s, i).value.token] + FindAllFrom(s, NextAt(s, i).value.end)
    ensures NextAt(s, i).None? && i < |s| ==> FindAllFrom(s, i) == FindAllFrom(s, i + 1)
    ensures NextAt(s, i).None? && i == |s| ==> FindAllFrom(s, i) == []
  {
  }

  /** `findall` at a position where an attempt extracts `t` and stops at `e`
      goes on at `e`. */
  lemma FindAllFromMatched(s: string, a: nat, t: Token, e: nat)
    requires a <= |s| && NextAt(s, a) == Some(Match(t, e))
    ensures FindAllFrom(s, a) == [t] + FindAllFrom(s, e)
  {
  }

  // ---------------------------------------------------------------------
  // The standalone search and the cluster findall agree on the first pair.
  // ---------------------------------------------------------------------

  /** White space before an attempt is swallowed by it. */
  lemma NextAtSkipsSpace(s: string, i: nat)
    requires i < |s| && IsSpace(s[i])
    ensures NextAt(s, i) == NextAt(s, i + 1)
  {
    assert RunEnd(s, i, Space) == RunEnd(s, i + 1, Space);
  }

  /** An attempt at a character that is neither white space nor a host
      character fails. */
  lemma NextAtFailsAt(s: string, i: nat)
    requires i < |s| && !IsSpace(s[i]) && !IsHostChar(s[i])
    ensures NextAt(s, i).None?
  {
    assert RunEnd(s, i, Space) == i;
  }

  /** A character that cannot start a host is skipped by `findall`: white
      space is swallowed by the next match, anything else fails to match. */
  lemma FindAllSkips(s: string, i: nat, n: nat)
    requires i < |s| && !IsHostChar(s[i]) && n == i + 1
    ensures FindAllFrom(s, i) == FindAllFrom(s, n)
  {
    FindAllFromStep(s, i);
    FindAllFromStep(s, n);
    if IsSpace(s[i]) {
      NextAtSkipsSpace(s, i);
    } else {
      NextAtFailsAt(s, i);
    }
  }

  /** `findall` moves over a stretch of characters none of which can start
      a host. */
  lemma {:induction false} FindAllSkipsTo(s: string, i: nat, j: nat)
    requires i <= j <= |s|
    requires forall k :: i <= k < j ==> !IsHostChar(s[k])
    ensures FindAllFrom(s, i) == FindAllFrom(s, j)
    decreases j - i
  {
    if i < j {
      var n := i + 1;
      FindAllSkips(s, i, n);
      FindAllSkipsTo(s, n, j);
    }
  }

  /** `findall` moves over a run of white space or of delimiters. */
  lemma FindAllSkipsRun(s: string, i: nat, cls: Class)
    requires i <= |s| && (cls == Space || cls == Delimiter)
    ensures FindAllFrom(s, i) == FindAllFrom(s, RunEnd(s, i, cls))
  {
    var j := RunEnd(s, i, cls);
    RunEndInClass(s, i, cls);
    assert forall k :: i <= k < j ==> !IsHostChar(s[k]) by {
      forall k | i <= k < j
        ensures !IsHostChar(s[k])
      {
        assert In(cls, s[k]);
      }
    }
    FindAllSkipsTo(s, i, j);
  }

  /** Nothing is found from the end of the text. */
  lemma FindAllAtEnd(s: string)
    ensures FindAllFrom(s, |s|) == []
  {
    assert RunEnd(s, |s|, Space) == |s|;
    assert NextAt(s, |s|).None?;
  }

  /** From any position, the standalone search finds exactly the first pair
      `findall` extracts. */
  lemma {:induction false} SearchIsFirstFrom(s: string, i: nat)
    requires i <= |s|
    ensures SearchFrom(s, i) == (if FindAllFrom(s, i) == [] then None else Some(FindAllFrom(s, i)[0]))
    decreases |s| - i
  {
    if i == |s| {
      FindAllAtEnd(s);
    } else if IsHostChar(s[i]) {
      assert RunEnd(s, i, Space) == i;
      var m := MatchAt(s, i).value;
      assert NextAt(s, i).value.token == m.token;
    } else {
      FindAllSkips(s, i, i + 1);
      SearchIsFirstFrom(s, i + 1);
    }
  }

  /** The standalone search finds exactly the first pair `findall` extracts,
      and `findall` extracts nothing exactly when no character of the text
      can start a host. */
  lemma SearchIsFirstOfFindAll(s: string)
    ensures Search(s) == (if FindAll(s) == [] then None else Some(FindAll(s)[0]))
    ensures FindAll(s) == [] <==> forall k :: 0 <= k < |s| ==> !IsHostChar(s[k])
  {
    SearchIsFirstFrom(s, 0);
  }

  // ---------------------------------------------------------------------
  // A pair written as `host:port` at some position is extracted back.
  // ---------------------------------------------------------------------

  /** Where the text `host:port` of `t`, written at position `a`, ends. */
  function RenderEnd(a: nat, t: Token): (e: nat)
    ensures e == a + |Render(t)|
  {
    a + |t.host| + 1 + |t.port|
  }

  /** The text `host:port` of `t` stands in `s` at position `a`, and what
      follows it, if anything, is a `,`, a `;` or white space. */
  predicate RenderedAt(s: string, a: nat, t: Token) {
    && RenderEnd(a, t) <= |s|
    && s[a..a + |t.host|] == t.host
    && s[a + |t.host|] == ':'
    && s[a + |t.host| + 1..RenderEnd(a, t)] == t.port
    && (RenderEnd(a, t) < |s| ==> IsDelimiter(s[RenderEnd(a, t)]))
  }

  /** No scheme group can match at a written pair: the word run ends inside
      the host or at its `:`, which a digit, a delimiter or nothing follows. */
  lemma RenderedHasNoScheme(s: string, a: nat, t: Token)
    requires WellFormed(t) && RenderedAt(s, a, t)
    ensures HostStart(s, a) == a
  {
    var e := a + |t.host|;
    var w := RunEnd(s, a, Word);
    RunEndInClass(s, a, Word);
    assert !IsWordChar(s[e]);
    if w < e {
      assert s[w] == s[a..e][w - a];
    } else if w + 1 < |s| {
      if |t.port| > 0 {
        assert s[w + 1] == s[e + 1..RenderEnd(a, t)][0];
      } else {
        assert IsDelimiter(s[w + 1]);
      }
    }
    assert SchemeEnd(s, a).None?;
  }

  /** The host group of a written pair is its host. */
  lemma RenderedHost(s: string, a: nat, t: Token)
    requires WellFormed(t) && RenderedAt(s, a, t)
    ensures RunEnd(s, a, Host) == a + |t.host|
  {
    var e := a + |t.host|;
    forall k | a <= k < e
      ensures In(Host, s[k])
    {
      assert s[k] == s[a..e][k - a];
    }
    RunEndExact(s, a, e, Host);
  }

  /** The port group of a written pair is its port. */
  lemma RenderedPort(s: string, a: nat, t: Token)
    requires WellFormed(t) && RenderedAt(s, a, t)
    ensures PortStart(s, a + |t.host|) == a + |t.host| + 1
    ensures RunEnd(s, a + |t.host| + 1, Digit) == RenderEnd(a, t)
  {
    var e := a + |t.host| + 1;
    var f := RenderEnd(a, t);
    forall k | e <= k < f
      ensures In(Digit, s[k])
    {
      assert s[k] == s[e..f][k - e];
    }
    RunEndExact(s, e, f, Digit);
  }

  /** An attempt whose host group starts at a written pair matches that pair
      whole, with its own groups. */
  lemma MatchAtRenderedFrom(s: string, i: nat, a: nat, t: Token)
    requires WellFormed(t) && RenderedAt(s, a, t)
    requires i <= a && HostStart(s, i) == a
    ensures MatchAt(s, i).Some?
    ensures MatchAt(s, i).value.token == t
    ensures MatchAt(s, i).value.end == RenderEnd(a, t)
  {
    RenderedHost(s, a, t);
    RenderedPort(s, a, t);
    MatchAtParts(s, i);
  }

  /** A written pair is matched whole, with its own groups. */
  lemma MatchAtRendered(s: string, a: nat, t: Token)
    requires WellFormed(t) && RenderedAt(s, a, t)
    ensures MatchAt(s, a).Some?
    ensures MatchAt(s, a).value.token == t
    ensures MatchAt(s, a).value.end == RenderEnd(a, t)
  {
    RenderedHasNoScheme(s, a, t);
    MatchAtRenderedFrom(s, a, a, t);
  }

  /** A `findall` attempt at a written pair extracts it and stops after the
      white space that follows it. */
  lemma NextAtRendered(s: string, a: nat, t: Token)
    requires WellFormed(t) && RenderedAt(s, a, t)
    ensures NextAt(s, a).Some?
    ensures NextAt(s, a).value.token == t
    ensures NextAt(s, a).value.end == RunEnd(s, RenderEnd(a, t), Space)
  {
    MatchAtRendered(s, a, t);
    assert s[a] == t.host[0];
    assert RunEnd(s, a, Space) == a;
    NextAtParts(s, a);
  }

  /** `findall` at a written pair extracts it, then goes on after it. */
  lemma FindAllFromRendered(s: string, a: nat, t: Token)
    requires WellFormed(t) && RenderedAt(s, a, t)
    ensures FindAllFrom(s, a) == [t] + FindAllFrom(s, RenderEnd(a, t))
  {
    NextAtRendered(s, a, t);
    FindAllFromMatched(s, a, t, RunEnd(s, RenderEnd(a, t), Space));
    FindAllSkipsRun(s, RenderEnd(a, t), Space);
  }

  /** A pair written after any text and before nothing or a delimiter
      stands where it was written. */
  lemma RenderedAtAppend(p: string, t: Token, z: string)
    requires z == [] || IsDelimiter(z[0])
    ensures RenderedAt(p + Render(t) + z, |p|, t)
  {
    var s := p + Render(t) + z;
    var a := |p|;
    var e := a + |t.host|;
    assert s == p + t.host + ":" + t.port + z;
    assert s[a..e] == t.host;
    assert s[e + 1..RenderEnd(a, t)] == t.port;
    if z != [] {
      assert s[RenderEnd(a, t)] == z[0];
    }
  }

  /** A well-formed pair written as `host:port` is extracted back as itself,
      by either pattern, even when its port is empty. */
  lemma RenderReparses(t: Token)
    requires WellFormed(t)
    ensures FindAll(Render(t)) == [t]
    ensures Search(Render(t)) == Some(t)
  {
    var s := Render(t);
    RenderedAtAppend([], t, []);
    assert [] + Render(t) + [] == s;
    FindAllFromRendered(s, 0, t);
    FindAllAtEnd(s);
    SearchIsFirstOfFindAll(s);
  }

  // ---------------------------------------------------------------------
  // A bare host, written without `:`, is extracted with an empty port.
  // ---------------------------------------------------------------------

  /** The host `h` stands in `s` at position `a` with no `:` after it: what
      follows it, if anything, is a `,`, a `;` or white space. */
  predicate BareAt(s: string, a: nat, h: string) {
    && a + |h| <= |s|
    && s[a..a + |h|] == h
    && (a + |h| < |s| ==> IsDelimiter(s[a + |h|]))
  }

  /** No scheme group can match at a bare host: its word run ends inside the
      host or at its end, where no `:` follows. */
  lemma BareHasNoScheme(s: string, a: nat, h: string)
    requires WellFormed(Token(h, [])) && BareAt(s, a, h)
    ensures HostStart(s, a) == a
  {
    var e := a + |h|;
    var w := RunEnd(s, a, Word);
    RunEndInClass(s, a, Word);
    assert e < |s| ==> !In(Word, s[e]);
    if w < e {
      assert s[w] == s[a..e][w - a];
    }
    assert SchemeEnd(s, a).None?;
  }

  /** An attempt whose host group starts at a bare host matches that host
      whole, with an empty port group. */
  lemma MatchAtBareFrom(s: string, i: nat, a: nat, h: string)
    requires WellFormed(Token(h, [])) && BareAt(s, a, h)
    requires i <= a && HostStart(s, i) == a
    ensures MatchAt(s, i).Some?
    ensures MatchAt(s, i).value.token == Token(h, [])
    ensures MatchAt(s, i).value.end == a + |h|
  {
    var e := a + |h|;
    forall k | a <= k < e
      ensures In(Host, s[k])
    {
      assert s[k] == s[a..e][k - a];
    }
    RunEndExact(s, a, e, Host);
    assert PortStart(s, e) == e;
    assert RunEnd(s, e, Digit) == e;
    MatchAtParts(s, i);
  }

  /** A bare host is matched whole, with an empty port group. */
  lemma MatchAtBare(s: string, a: nat, h: string)
    requires WellFormed(Token(h, [])) && BareAt(s, a, h)
    ensures MatchAt(s, a).Some?
    ensures MatchAt(s, a).value.token == Token(h, [])
    ensures MatchAt(s, a).value.end == a + |h|
  {
    BareHasNoScheme(s, a, h);
    MatchAtBareFrom(s, a, a, h);
  }

  /** A `findall` attempt at a bare host, ending at `e`, extracts it with an
      empty port and stops after the white space that follows it. */
  lemma NextAtBare(s: string, a: nat, e: nat, h: string)
    requires WellFormed(Token(h, [])) && BareAt(s, a, h) && e == a + |h|
    ensures NextAt(s, a).Some?
    ensures NextAt(s, a).value.token == Token(h, [])
    ensures NextAt(s, a).value.end == RunEnd(s, e, Space)
  {
    MatchAtBare(s, a, h);
    assert s[a] == h[0];
    assert RunEnd(s, a, Space) == a;
    NextAtParts(s, a);
  }

  /** `findall` at a bare host extracts it with an empty port, then goes on
      at `e`, just after it. */
  lemma FindAllFromBare(s: string, a: nat, e: nat, h: string)
    requires WellFormed(Token(h, [])) && BareAt(s, a, h) && e == a + |h|
    ensures FindAllFrom(s, a) == [Token(h, [])] + FindAllFrom(s, e)
  {
    NextAtBare(s, a, e, h);
    FindAllFromMatched(s, a, Token(h, []), RunEnd(s, e, Space));
    FindAllSkipsRun(s, e, Space);
  }

  /** A bare host written after any text and before nothing or a delimiter
      stands where it was written. */
  lemma BareAtAppend(p: string, h: string, z: string)
    requires z == [] || IsDelimiter(z[0])
    ensures BareAt(p + h + z, |p|, h)
  {
    var s := p + h + z;
    assert s[|p|..|p| + |h|] == h;
    if z != [] {
      assert s[|p| + |h|] == z[0];
    }
  }

  /** A text that is one bare host is extracted, by either pattern, as that
      host with an empty port. */
  lemma BareHostReparses(h: string)
    requires WellFormed(Token(h, []))
    ensures FindAll(h) == [Token(h, [])]
    ensures Search(h) == Some(Token(h, []))
  {
    assert BareAt(h, 0, h);
    FindAllFromBare(h, 0, |h|, h);
    FindAllAtEnd(h);
    SearchIsFirstOfFindAll(h);
  }

  // ---------------------------------------------------------------------
  // A list of pairs, each written in its shortest form, separated by runs
  // of `,`, `;` and white space, is extracted back exactly, in order.
  // ---------------------------------------------------------------------

  /** Where the shortest form of `t`, written at position `a`, ends. */
  function TextEnd(a: nat, t: Token): nat {
    a + |Text(t)|
  }

  /** The text `w`, from its `k`-th character on, stands in `s` from
      position `a + k` on. This is slice equality, `s[a + k..a + |w|] ==
      w[k..]` (`SpelledIsSlice`, `SliceIsSpelled`), stated one character at
      a time: the list proofs below hold `TextAt` facts about several
      positions of one text at once, and a recursive predicate is unfolded
      only as far as a proof asks, where a slice equality is not. */
  predicate SpelledFrom(s: string, a: nat, w: string, k: nat)
    requires k <= |w|
    decreases |w| - k
  {
    k == |w| || (a + k < |s| && s[a + k] == w[k] && SpelledFrom(s, a, w, k + 1))
  }

  /** Spelling a text out character by character is standing as a slice. */
  lemma {:induction false} SpelledIsSlice(s: string, a: nat, w: string, k: nat)
    requires k <= |w| && a + |w| <= |s| && SpelledFrom(s, a, w, k)
    ensures s[a + k..a + |w|] == w[k..]
    decreases |w| - k
  {
    if k < |w| {
      SpelledIsSlice(s, a, w, k + 1);
      assert s[a + k..a + |w|] == [s[a + k]] + s[a + k + 1..a + |w|];
      assert w[k..] == [w[k]] + w[k + 1..];
    }
  }

  /** A slice is spelled out character by character. */
  lemma {:induction false} SliceIsSpelled(s: string, a: nat, w: string, k: nat)
    requires k <= |w| && a + |w| <= |s| && s[a..a + |w|] == w
    ensures SpelledFrom(s, a, w, k)
    decreases |w| - k
  {
    if k < |w| {
      assert s[a + k] == s[a..a + |w|][k];
      SliceIsSpelled(s, a, w, k + 1);
    }
  }

  /** The shortest form of `t` stands in `s` at position `a`, and what
      follows it, if anything, is a `,`, a `;` or white space. It is `BareAt` for a pair
      without a port and `RenderedAt` for one with a port (`TextAtCases`);
      those two describe the forms `findall` reads, this one the form the
      pairs of a list are written in. */
  predicate TextAt(s: string, a: nat, t: Token) {
    && TextEnd(a, t) <= |s|
    && SpelledFrom(s, a, Text(t), 0)
    && (TextEnd(a, t) < |s| ==> IsDelimiter(s[TextEnd(a, t)]))
  }

  /** A pair in its shortest form stands in the text as a slice. */
  lemma TextAtSlice(s: string, a: nat, t: Token)
    requires TextAt(s, a, t)
    ensures s[a..TextEnd(a, t)] == Text(t)
  {
    SpelledIsSlice(s, a, Text(t), 0);
    assert Text(t)[0..] == Text(t);
  }

  /** A pair in its shortest form is a bare host when its port is empty and
      `host:port` otherwise. */
  lemma TextAtCases(s: string, a: nat, t: Token)
    requires TextAt(s, a, t)
    ensures t.port == [] ==> BareAt(s, a, t.host)
    ensures t.port != [] ==> RenderedAt(s, a, t)
  {
    var e := TextEnd(a, t);
    var h := a + |t.host|;
    TextAtSlice(s, a, t);
    assert s[a..h] == s[a..e][..|t.host|];
    if t.port != [] {
      assert s[h] == s[a..e][|t.host|];
      assert s[h + 1..e] == s[a..e][|t.host| + 1..];
    }
  }

  /** Where the shortest form of a pair ends, by the form it takes. */
  lemma TextEndCases(a: nat, t: Token)
    ensures t.port == [] ==> TextEnd(a, t) == a + |t.host| && t == Token(t.host, [])
    ensures t.port != [] ==> TextEnd(a, t) == RenderEnd(a, t)
  {
  }

  /** `findall` at a bare host in its shortest form. */
  lemma FindAllFromTextBare(s: string, a: nat, t: Token)
    requires WellFormed(t) && t.port == [] && BareAt(s, a, t.host)
    ensures FindAllFrom(s, a) == [t] + FindAllFrom(s, TextEnd(a, t))
  {
    TextEndCases(a, t);
    FindAllFromBare(s, a, TextEnd(a, t), t.host);
  }

  /** `findall` at a pair with a port, in its shortest form. */
  lemma FindAllFromTextRendered(s: string, a: nat, t: Token)
    requires WellFormed(t) && t.port != [] && RenderedAt(s, a, t)
    ensures FindAllFrom(s, a) == [t] + FindAllFrom(s, TextEnd(a, t))
  {
    TextEndCases(a, t);
    FindAllFromRendered(s, a, t);
  }

  /** `findall` at a pair written in its shortest form extracts it, then
      goes on after it. */
  lemma FindAllFromText(s: string, a: nat, t: Token)
    requires WellFormed(t) && TextAt(s, a, t)
    ensures FindAllFrom(s, a) == [t] + FindAllFrom(s, TextEnd(a, t))
  {
    TextAtCases(s, a, t);
    if t.port == [] {
      FindAllFromTextBare(s, a, t);
    } else {
      FindAllFromTextRendered(s, a, t);
    }
  }

  /** A pair written in its shortest form after any text and before nothing
      or a separator stands where it was written. */
  lemma TextAtAppend(p: string, t: Token, z: string)
    requires z == [] || IsDelimiter(z[0])
    ensures TextAt(p + Text(t) + z, |p|, t)
  {
    var s := p + Text(t) + z;
    assert s[|p|..TextEnd(|p|, t)] == Text(t);
    SliceIsSpelled(s, |p|, Text(t), 0);
    if z != [] {
      assert s[TextEnd(|p|, t)] == z[0];
    }
  }

  /** Every character of `w` is a `,`, a `;` or white space. */
  predicate AllDelimiters(w: string) {
    forall k :: 0 <= k < |w| ==> IsDelimiter(w[k])
  }

  /** `findall` at a pair in its shortest form extracts the pair, skips the
      run of delimiters after it and goes on with what follows. */
  lemma TextThenGap(s: string, a: nat, g: nat, t: Token, rest: seq<Token>)
    requires WellFormed(t) && TextAt(s, a, t)
    requires g == RunEnd(s, TextEnd(a, t), Delimiter) && ExtractsFrom(s, g, rest)
    ensures ExtractsFrom(s, a, [t] + rest)
  {
    FindAllFromText(s, a, t);
    FindAllSkipsRun(s, TextEnd(a, t), Delimiter);
  }

  /** A non-empty sequence is its head followed by its tail. */
  lemma HeadTail<T>(xs: seq<T>)
    requires xs != []
    ensures xs == [xs[0]] + xs[1..]
  {
  }

  /** Each pair written in its shortest form, in order. */
  function TextAll(ts: seq<Token>): (ws: seq<string>)
    ensures |ws| == |ts|
    ensures forall n :: 0 <= n < |ts| ==> ws[n] == Text(ts[n])
  {
    if ts == [] then [] else [Text(ts[0])] + TextAll(ts[1..])
  }

  /** The pairs `ts` stand in `s` from position `a` to its end, each written
      in its shortest form and followed by the longest run of delimiters
      there; the run after the last pair reaches the end of `s`. Since a
      well-formed pair starts with a host character and `TextAt` wants a
      delimiter right after a pair, the run between two pairs is never
      empty. */
  predicate ListedAt(s: string, a: nat, ts: seq<Token>)
    decreases |ts|
  {
    if ts == [] then a == |s|
    else
      && TextAt(s, a, ts[0])
      && ListedAt(s, RunEnd(s, TextEnd(a, ts[0]), Delimiter), ts[1..])
  }

  /** Extracting the head of a list followed by its tail is extracting the
      list. */
  lemma ExtractsHeadTail(s: string, a: nat, ts: seq<Token>)
    requires |ts| > 0 && ExtractsFrom(s, a, [ts[0]] + ts[1..])
    ensures ExtractsFrom(s, a, ts)
  {
    HeadTail(ts);
  }

  /** `findall` extracts exactly the pairs of a list laid out as `ListedAt`
      describes. */
  lemma {:induction false} FindAllFromListed(s: string, a: nat, ts: seq<Token>)
    requires a <= |s| && ListedAt(s, a, ts)
    requires forall n :: 0 <= n < |ts| ==> WellFormed(ts[n])
    ensures ExtractsFrom(s, a, ts)
    decreases |ts|
  {
    if ts == [] {
      FindAllAtEnd(s);
    } else {
      var g := RunEnd(s, TextEnd(a, ts[0]), Delimiter);
      assert forall n :: 0 <= n < |ts[1..]| ==> WellFormed(ts[1..][n]);
      FindAllFromListed(s, g, ts[1..]);
      TextThenGap(s, a, g, ts[0], ts[1..]);
      ExtractsHeadTail(s, a, ts);
    }
  }

  /** Pairs written in their shortest forms, each followed by its own gap
      text. */
  function Listed(ts: seq<Token>, gaps: seq<string>): string
    requires |gaps| == |ts|
    decreases |ts|
  {
    if ts == [] then [] else Text(ts[0]) + gaps[0] + Listed(ts[1..], gaps[1..])
  }

  /** Gap texts of a list: runs of delimiters, each but the last one
      non-empty. */
  predicate Gaps(gaps: seq<string>) {
    && (forall n :: 0 <= n < |gaps| ==> AllDelimiters(gaps[n]))
    && (forall n :: 0 <= n < |gaps| - 1 ==> gaps[n] != [])
  }

  /** A list of well-formed pairs starts with a host character. */
  lemma ListedStart(ts: seq<Token>, gaps: seq<string>)
    requires |gaps| == |ts| && ts != [] && WellFormed(ts[0])
    ensures Listed(ts, gaps) != [] && IsHostChar(Listed(ts, gaps)[0])
  {
  }

  /** A run of delimiters written before nothing or a host character ends
      where it was written. */
  lemma GapEnd(q: string, g: string, r: string)
    requires AllDelimiters(g) && (r == [] || IsHostChar(r[0]))
    ensures RunEnd(q + g + r, |q|, Delimiter) == |q| + |g|
  {
    var s := q + g + r;
    assert forall k :: |q| <= k < |q| + |g| ==> s[k] == g[k - |q|];
    if r != [] {
      assert s[|q| + |g|] == r[0];
    }
    RunEndExact(s, |q|, |q| + |g|, Delimiter);
  }

  /** A run of delimiters that starts a text before nothing or a host
      character ends where it was written. */
  lemma LeadEnd(g: string, r: string)
    requires AllDelimiters(g) && (r == [] || IsHostChar(r[0]))
    ensures RunEnd(g + r, 0, Delimiter) == |g|
  {
    GapEnd([], g, r);
    assert [] + g + r == g + r;
  }

  /** The gap texts after the first pair are gap texts too. */
  lemma GapsTail(gaps: seq<string>)
    requires gaps != [] && Gaps(gaps)
    ensures Gaps(gaps[1..])
  {
  }

  /** What a list needs of its first gap text: delimiters only, and not
      empty when another pair follows, which starts with a host character. */
  lemma FirstGap(ts: seq<Token>, gaps: seq<string>)
    requires ts != [] && |gaps| == |ts| && Gaps(gaps)
    requires forall n :: 0 <= n < |ts| ==> WellFormed(ts[n])
    ensures AllDelimiters(gaps[0])
    ensures |ts| > 1 ==> gaps[0] != [] && Listed(ts[1..], gaps[1..]) != []
    ensures |ts| > 1 ==> IsHostChar(Listed(ts[1..], gaps[1..])[0])
    ensures |ts| == 1 ==> Listed(ts[1..], gaps[1..]) == []
  {
  }

  /** A list is its first pair, its first gap text and the rest of it. */
  lemma ListedSplit(p: string, ts: seq<Token>, gaps: seq<string>)
    requires ts != [] && |gaps| == |ts|
    ensures p + Listed(ts, gaps) == p + Text(ts[0]) + (gaps[0] + Listed(ts[1..], gaps[1..]))
    ensures p + Listed(ts, gaps) == p + Text(ts[0]) + gaps[0] + Listed(ts[1..], gaps[1..])
  {
    var w, g, r := Text(ts[0]), gaps[0], Listed(ts[1..], gaps[1..]);
    assert Listed(ts, gaps) == w + g + r;
    assert p + (w + g + r) == p + w + (g + r);
    assert p + (w + g + r) == p + w + g + r;
  }

  /** The first pair of a list, after any text, stands where it was
      written. */
  lemma ListedHeadAt(p: string, t: Token, g: string, r: string)
    requires AllDelimiters(g) && (g == [] ==> r == [])
    ensures TextAt(p + Text(t) + (g + r), |p|, t)
  {
    var z := g + r;
    if g != [] {
      assert z[0] == g[0];
    }
    TextAtAppend(p, t, z);
  }

  /** The run of delimiters after the first pair of a list ends where the
      rest of the list starts. */
  lemma ListedHeadGap(p: string, t: Token, g: string, r: string)
    requires AllDelimiters(g) && (r == [] || IsHostChar(r[0]))
    ensures RunEnd(p + Text(t) + g + r, TextEnd(|p|, t), Delimiter) == |p + Text(t) + g|
  {
    GapEnd(p + Text(t), g, r);
  }

  /** Pairs in their shortest forms with their gap texts, after any text,
      are laid out as `ListedAt` describes. */
  lemma {:induction false} ListedLayout(p: string, ts: seq<Token>, gaps: seq<string>)
    requires |gaps| == |ts| && Gaps(gaps)
    requires forall n :: 0 <= n < |ts| ==> WellFormed(ts[n])
    ensures ListedAt(p + Listed(ts, gaps), |p|, ts)
    decreases |ts|
  {
    if ts == [] {
      assert p + Listed(ts, gaps) == p;
    } else {
      var rest := Listed(ts[1..], gaps[1..]);
      FirstGap(ts, gaps);
      ListedSplit(p, ts, gaps);
      ListedHeadAt(p, ts[0], gaps[0], rest);
      ListedHeadGap(p, ts[0], gaps[0], rest);
      GapsTail(gaps);
      assert forall n :: 0 <= n < |ts[1..]| ==> WellFormed(ts[1..][n]);
      ListedLayout(p + Text(ts[0]) + gaps[0], ts[1..], gaps[1..]);
    }
  }

  /** Well-formed pairs, each written in its shortest form, with runs of
      `,`, `;` and white space before, between and after them, are
      extracted back by `findall` exactly, in order. */
  lemma ListedReparses(lead: string, ts: seq<Token>, gaps: seq<string>)
    requires AllDelimiters(lead) && |gaps| == |ts| && Gaps(gaps)
    requires forall n :: 0 <= n < |ts| ==> WellFormed(ts[n])
    ensures FindAll(lead + Listed(ts, gaps)) == ts
  {
    var body := Listed(ts, gaps);
    var s := lead + body;
    ListedLayout(lead, ts, gaps);
    if ts != [] {
      ListedStart(ts, gaps);
    }
    LeadEnd(lead, body);
    FindAllSkipsRun(s, 0, Delimiter);
    FindAllFromListed(s, |lead|, ts);
  }

  /** The gap texts of a comma-joined list of `n` pairs: a comma after each
      pair but the last. */
  function Commas(n: nat): (gaps: seq<string>)
    ensures |gaps| == n && Gaps(gaps)
  {
    if n == 0 then [] else if n == 1 then [""] else [","] + Commas(n - 1)
  }

  /** The comma-joined list of pairs in their shortest form is the list with
      a comma after each pair but the last. */
  lemma {:induction false} JoinIsListed(ts: seq<Token>)
    ensures Join(TextAll(ts), ",") == Listed(ts, Commas(|ts|))
    decreases |ts|
  {
    if |ts| > 1 {
      JoinIsListed(ts[1..]);
      assert TextAll(ts)[1..] == TextAll(ts[1..]);
      assert Commas(|ts|)[1..] == Commas(|ts| - 1);
    }
  }

  /** Well-formed pairs, each written in its shortest form and joined with
      commas, are extracted back by `findall` exactly, in order. */
  lemma JoinedListReparses(ts: seq<Token>)
    requires forall n :: 0 <= n < |ts| ==> WellFormed(ts[n])
    ensures FindAll(Join(TextAll(ts), ",")) == ts
  {
    JoinIsListed(ts);
    ListedReparses([], ts, Commas(|ts|));
    assert [] + Listed(ts, Commas(|ts|)) == Listed(ts, Commas(|ts|));
  }

  // ---------------------------------------------------------------------
  // A `scheme://` prefix is dropped, never read as part of the host.
  // ---------------------------------------------------------------------

  /** The text `w://` followed by a pair starting with a host character has
      its scheme group matched, ending right after the `://`. */
  lemma SchemeSkipped(w: string, x: string)
    requires |w| > 0 && forall k :: 0 <= k < |w| ==> IsWordChar(w[k])
    requires |x| > 0 && IsHostChar(x[0])
    ensures HostStart(w + "://" + x, 0) == |w| + 3
  {
    var s := w + "://" + x;
    forall k | 0 <= k < |w|
      ensures In(Word, s[k])
    {
      assert s[k] == w[k];
    }
    assert s[|w|] == ':';
    RunEndExact(s, 0, |w|, Word);
    assert s[|w| + 1] == '/' && s[|w| + 2] == '/';
    assert s[|w| + 3] == x[0];
  }

  /** A well-formed pair written as `host:port` after a `scheme://` prefix
      is extracted, by either pattern, as the pair alone: the scheme never
      becomes part of the host. */
  lemma SchemeIsDropped(w: string, t: Token)
    requires |w| > 0 && forall k :: 0 <= k < |w| ==> IsWordChar(w[k])
    requires WellFormed(t)
    ensures Search(w + "://" + Render(t)) == Some(t)
    ensures FindAll(w + "://" + Render(t)) == [t]
  {
    var s := w + "://" + Render(t);
    var a := |w| + 3;
    SchemeSkipped(w, Render(t));
    RenderedAtAppend(w + "://", t, []);
    assert s == (w + "://") + Render(t) + [];
    MatchAtRenderedFrom(s, 0, a, t);
    assert s[0] == w[0];
    assert RunEnd(s, 0, Space) == 0;
    assert RunEnd(s, |s|, Space) == |s|;
    NextAtParts(s, 0);
    FindAllFromStep(s, 0);
    FindAllAtEnd(s);
    SearchIsFirstOfFindAll(s);
  }

  /** A findall attempt at the start of `w://` followed by a bare host
      extracts the host alone and stops at the end of the text. */
  lemma NextAtSchemeBare(w: string, h: string)
    requires |w| > 0 && forall k :: 0 <= k < |w| ==> IsWordChar(w[k])
    requires WellFormed(Token(h, []))
    ensures NextAt(w + "://" + h, 0) == Some(Match(Token(h, []), |w + "://" + h|))
  {
    var s := w + "://" + h;
    var a := |w| + 3;
    SchemeSkipped(w, h);
    BareAtAppend(w + "://", h, []);
    assert s == (w + "://") + h + [];
    MatchAtBareFrom(s, 0, a, h);
    assert s[0] == w[0];
    assert RunEnd(s, 0, Space) == 0;
    assert RunEnd(s, |s|, Space) == |s|;
    NextAtParts(s, 0);
  }

  /** A well-formed bare host after a `scheme://` prefix is extracted, by
      either pattern, as the host alone with an empty port. */
  lemma SchemeIsDroppedBare(w: string, h: string)
    requires |w| > 0 && forall k :: 0 <= k < |w| ==> IsWordChar(w[k])
    requires WellFormed(Token(h, []))
    ensures Search(w + "://" + h) == Some(Token(h, []))
    ensures FindAll(w + "://" + h) == [Token(h, [])]
  {
    var s := w + "://" + h;
    NextAtSchemeBare(w, h);
    FindAllFromMatched(s, 0, Token(h, []), |s|);
    FindAllAtEnd(s);
    SearchIsFirstOfFindAll(s);
  }

  /** A well-formed pair in its shortest form after a `scheme://` prefix,
      `scheme://host` or `scheme://host:port`, is extracted by either
      pattern as the pair alone. */
  lemma SchemeTextIsDropped(w: string, t: Token)
    requires |w| > 0 && forall k :: 0 <= k < |w| ==> IsWordChar(w[k])
    requires WellFormed(t)
    ensures Search(w + "://" + Text(t)) == Some(t)
    ensures FindAll(w + "://" + Text(t)) == [t]
  {
    if t.port == [] {
      SchemeIsDroppedBare(w, t.host);
      assert t == Token(t.host, []);
    } else {
      SchemeIsDropped(w, t);
    }
  }
}
