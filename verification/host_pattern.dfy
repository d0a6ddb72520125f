/** The two host-extraction patterns of the connection helpers, read as
    deterministic functions over positions of the input text:

      standalone (`re.search`):  (?:\w+://)?([^:\s,;]+):?(\d*)
      cluster    (`re.findall`): \s*(?:\w+://)?([^:\s,;]+):?(\d*)\s*

    Every repetition in them is greedy and, once the host group has matched,
    the rest of the pattern always succeeds, so the only backtracking that can
    change a result is giving up the optional scheme group when no host
    follows it. */
module HostPattern {
  import opened Values
  import opened CharClass

  /** The two groups of one match: the host, and the digit run after an
      optional `:` (empty when there is none). */
  datatype Token = Token(host: string, port: string)

  /** A match: its groups and the position just after it. */
  datatype Match = Match(token: Token, end: nat)

  /** The shape of every extracted pair. */
  predicate WellFormed(t: Token) {
    && |t.host| > 0
    && (forall k :: 0 <= k < |t.host| ==> IsHostChar(t.host[k]))
    && (forall k :: 0 <= k < |t.port| ==> IsDigit(t.port[k]))
  }

  /** The pair written back in `host:port` form. */
  function Render(t: Token): string {
    t.host + ":" + t.port
  }

  /** The pair written in its shortest form: the bare host when the port is
      empty, `host:port` otherwise. */
  function Text(t: Token): string {
    if t.port == [] then t.host else Render(t)
  }

  /** Where a greedy repetition of the class `cls` that starts at position
      `i` of `s` stops: the end of the longest run of characters in `cls`. */
  function RunEnd(s: string, i: nat, cls: Class): (j: nat)
    requires i <= |s|
    ensures i <= j <= |s|
    ensures i < j ==> In(cls, s[i])
    ensures j < |s| ==> !In(cls, s[j])
    decreases |s| - i
  {
    if i < |s| && In(cls, s[i]) then RunEnd(s, i + 1, cls) else i
  }

  /** Every character of the run is in the class. */
  lemma {:induction false} RunEndInClass(s: string, i: nat, cls: Class)
    requires i <= |s|
    ensures forall k :: i <= k < RunEnd(s, i, cls) ==> In(cls, s[k])
    decreases |s| - i
  {
    if i < |s| && In(cls, s[i]) {
      RunEndInClass(s, i + 1, cls);
    }
  }

  /** `\w+://` at position `i`, as the position after it. A word run shorter
      than the longest one is followed by a word character and not by `:`,
      so the longest run is the only candidate. */
  function SchemeEnd(s: string, i: nat): (r: Option<nat>)
    requires i <= |s|
    ensures r.Some? ==> i + 4 <= r.value <= |s|
    ensures r.Some? ==> s[r.value - 3] == ':' && s[r.value - 2] == '/' && s[r.value - 1] == '/'
    ensures r.Some? ==> IsWordChar(s[i]) && !IsWordChar(s[r.value - 3])
  {
    var w := RunEnd(s, i, Word);
    if i < w && w + 3 <= |s| && s[w] == ':' && s[w + 1] == '/' && s[w + 2] == '/'
    then Some(w + 3)
    else None
  }

  /** The scheme group, when it matches, is the longest word run at `i`
      followed by `://`: every character before the `://` is a word
      character, and the run cannot be extended. */
  lemma SchemeEndIsWordRun(s: string, i: nat)
    requires i <= |s|
    ensures SchemeEnd(s, i).Some? ==> SchemeEnd(s, i).value - 3 == RunEnd(s, i, Word)
    ensures SchemeEnd(s, i).Some? ==>
      forall k :: i <= k < SchemeEnd(s, i).value - 3 ==> IsWordChar(s[k])
  {
    RunEndInClass(s, i, Word);
  }

  /** Where the host group starts for a match attempted at `i`: after the
      scheme when a host character follows it, and otherwise at `i` itself,
      the optional scheme group being given up when no host can follow it. */
  function HostStart(s: string, i: nat): (h: nat)
    requires i <= |s|
    ensures i <= h <= |s|
    ensures h != i ==> SchemeEnd(s, i) == Some(h) && h < |s| && IsHostChar(s[h])
    ensures SchemeEnd(s, i).Some? && SchemeEnd(s, i).value < |s| && IsHostChar(s[SchemeEnd(s, i).value])
      ==> h == SchemeEnd(s, i).value
  {
    match SchemeEnd(s, i)
    case Some(k) => if k < |s| && IsHostChar(s[k]) then k else i
    case None => i
  }

  /** Where the port group starts once the host group ends at `he`: after
      the `:` when one follows the host. */
  function PortStart(s: string, he: nat): (ps: nat)
    requires he <= |s|
    ensures he <= ps <= he + 1 && ps <= |s|
    ensures ps == he + 1 <==> he < |s| && s[he] == ':'
  {
    if he < |s| && s[he] == ':' then he + 1 else he
  }

  /** `(?:\w+://)?([^:\s,;]+):?(\d*)` attempted at position `i`: it matches
      exactly when a host character stands at `i`, and then consumes at least
      that character. */
  function MatchAt(s: string, i: nat): (r: Option<Match>)
    requires i <= |s|
    ensures r.Some? <==> i < |s| && IsHostChar(s[i])
    ensures r.Some? ==> i < r.value.end <= |s|
  {
    var hs := HostStart(s, i);
    HostStartCanMatch(s, i);
    var he := RunEnd(s, hs, Host);
    if he == hs then None
    else
      var ps := PortStart(s, he);
      var pe := RunEnd(s, ps, Digit);
      Some(Match(Token(s[hs..he], s[ps..pe]), pe))
  }

  /** The host group can start where the match is attempted exactly when it
      can start where the scheme decision puts it. */
  lemma HostStartCanMatch(s: string, i: nat)
    requires i <= |s|
    ensures var hs := HostStart(s, i);
      (hs < |s| && IsHostChar(s[hs])) <==> (i < |s| && IsHostChar(s[i]))
  {
    if SchemeEnd(s, i).Some? {
      assert IsWordChar(s[i]);
    }
  }

  /** The groups of every match are well formed. */
  lemma MatchAtWellFormed(s: string, i: nat)
    requires i <= |s|
    ensures MatchAt(s, i).Some? ==> WellFormed(MatchAt(s, i).value.token)
  {
    var hs := HostStart(s, i);
    var he := RunEnd(s, hs, Host);
    if he != hs {
      var ps := PortStart(s, he);
      var pe := RunEnd(s, ps, Digit);
      RunEndInClass(s, hs, Host);
      RunEndInClass(s, ps, Digit);
      var t := Token(s[hs..he], s[ps..pe]);
      assert MatchAt(s, i).value.token == t;
      assert forall k :: 0 <= k < |t.host| ==> t.host[k] == s[hs + k];
      assert forall k :: 0 <= k < |t.port| ==> t.port[k] == s[ps + k];
    }
  }

  /** `re.search` from position `i`: the groups of the match at the first
      position from `i` on where one starts. */
  function SearchFrom(s: string, i: nat): (r: Option<Token>)
    requires i <= |s|
    ensures i < |s| && IsHostChar(s[i]) ==> r.Some?
    decreases |s| - i
  {
    match MatchAt(s, i)
    case Some(m) => Some(m.token)
    case None => if i == |s| then None else SearchFrom(s, i + 1)
  }

  /** The search is leftmost: it returns the match at the first position
      from `i` on where a host character stands. */
  lemma SearchFromLeftmost(s: string, i: nat, k: nat)
    requires i <= k < |s| && IsHostChar(s[k])
    requires forall j :: i <= j < k ==> !IsHostChar(s[j])
    ensures MatchAt(s, k).Some?
    ensures SearchFrom(s, i) == Some(MatchAt(s, k).value.token)
  {
    SearchFromSkipsTo(s, i, k);
    SearchFromAtHost(s, k);
  }

  /** A search moves over characters that cannot start a host. */
  lemma {:induction false} SearchFromSkipsTo(s: string, i: nat, k: nat)
    requires i <= k <= |s|
    requires forall j :: i <= j < k ==> !IsHostChar(s[j])
    ensures SearchFrom(s, i) == SearchFrom(s, k)
    decreases k - i
  {
    if i < k {
      var n := i + 1;
      SearchFromSkips(s, i, n);
      SearchFromSkipsTo(s, n, k);
    }
  }

  /** A search started at a host character matches there. */
  lemma SearchFromAtHost(s: string, k: nat)
    requires k < |s| && IsHostChar(s[k])
    ensures MatchAt(s, k).Some?
    ensures SearchFrom(s, k) == Some(MatchAt(s, k).value.token)
  {
  }

  /** A search started at a character that cannot start a host moves on. */
  lemma SearchFromSkips(s: string, i: nat, n: nat)
    requires i < |s| && !IsHostChar(s[i]) && n == i + 1
    ensures SearchFrom(s, i) == SearchFrom(s, n)
  {
  }

  /** The search from `i` finds nothing exactly when no character from `i`
      on can start a host, and what it finds is well formed. */
  lemma {:induction false} SearchFromSpec(s: string, i: nat)
    requires i <= |s|
    ensures SearchFrom(s, i).None? <==> forall k :: i <= k < |s| ==> !IsHostChar(s[k])
    ensures SearchFrom(s, i).Some? ==> WellFormed(SearchFrom(s, i).value)
    decreases |s| - i
  {
    MatchAtWellFormed(s, i);
    if i < |s| && !IsHostChar(s[i]) {
      SearchFromSpec(s, i + 1);
    }
  }

  /** `re.search` with the standalone pattern over the whole text. It finds
      nothing exactly when no character of the text can start a host. */
  function Search(s: string): (r: Option<Token>)
    ensures r.None? <==> forall k :: 0 <= k < |s| ==> !IsHostChar(s[k])
    ensures r.Some? ==> WellFormed(r.value)
  {
    SearchFromSpec(s, 0);
    SearchFrom(s, 0)
  }

  /** One `findall` attempt at position `i` with the cluster pattern: leading
      white space, a match, and trailing white space. */
  function NextAt(s: string, i: nat): (r: Option<Match>)
    requires i <= |s|
    ensures r.Some? <==> RunEnd(s, i, Space) < |s| && IsHostChar(s[RunEnd(s, i, Space)])
    ensures r.Some? ==> i < r.value.end <= |s|
    ensures r.Some? && r.value.end < |s| ==> !IsSpace(s[r.value.end])
  {
    match MatchAt(s, RunEnd(s, i, Space))
    case Some(m) => Some(Match(m.token, RunEnd(s, m.end, Space)))
    case None => None
  }

  /** `re.findall` from position `i`: the groups of every match, in order,
      each attempt starting where the previous match ended and moving one
      character on when no match starts at a position. Every match consumes
      a character, so there are no more pairs than characters left. */
  function FindAllFrom(s: string, i: nat): (r: seq<Token>)
    requires i <= |s|
    ensures |r| <= |s| - i
    decreases |s| - i
  {
    match NextAt(s, i)
    case Some(m) => [m.token] + FindAllFrom(s, m.end)
    case None => if i == |s| then [] else FindAllFrom(s, i + 1)
  }

  /** Every pair `findall` extracts from `i` on is well formed. */
  lemma {:induction false} FindAllFromWellFormed(s: string, i: nat)
    requires i <= |s|
    ensures forall n :: 0 <= n < |FindAllFrom(s, i)| ==> WellFormed(FindAllFrom(s, i)[n])
    decreases |s| - i
  {
    MatchAtWellFormed(s, RunEnd(s, i, Space));
    match NextAt(s, i)
    case Some(m) =>
      FindAllFromWellFormed(s, m.end);
    case None =>
      if i < |s| {
        FindAllFromWellFormed(s, i + 1);
      }
  }

  /** `re.findall` with the cluster pattern over the whole text. Every pair
      it extracts has a non-empty host of host characters and a port of
      decimal digits. */
  function FindAll(s: string): (r: seq<Token>)
    ensures forall n :: 0 <= n < |r| ==> WellFormed(r[n])
  {
    FindAllFromWellFormed(s, 0);
    FindAllFrom(s, 0)
  }

  /** `findall`, started at position `a` of `s`, extracts exactly `ts`. */
  predicate ExtractsFrom(s: string, a: nat, ts: seq<Token>) {
    a <= |s| && FindAllFrom(s, a) == ts
  }
}
