/** `normalize_uri`: a host and an optional port written as `host:port`,
    with MongoDB's default port when the port is empty or absent. */
module Endpoint {
  import opened Values
  import opened CharClass
  import opened HostPattern
  import opened PatternFacts

  /** MongoDB's default port, as the text it is formatted to. */
  const DefaultPort: string := "27017"

  /** `host:port`, the port being kept verbatim when it is truthy and
      replaced by the default port when it is empty or absent. */
  function NormalizeUri(host: string, port: Option<string>): (uri: string)
    ensures |uri| > |host| && uri[..|host|] == host && uri[|host|] == ':'
    ensures Truthy(port) ==> uri[|host| + 1..] == port.value
    ensures !Truthy(port) ==> uri[|host| + 1..] == DefaultPort
  {
    host + ":" + (if Truthy(port) then port.value else DefaultPort)
  }

  /** The default port is a run of decimal digits. */
  lemma DefaultPortIsDigits()
    ensures forall k :: 0 <= k < |DefaultPort| ==> IsDigit(DefaultPort[k])
  {
  }

  /** An extracted pair with the default port filled in: it is still well
      formed, never has an empty port, and is written exactly as the
      normalisation of its groups. */
  function Normalized(t: Token): (n: Token)
    ensures n.host == t.host && n.port != []
    ensures t.port != [] ==> n.port == t.port
    ensures WellFormed(t) ==> WellFormed(n)
    ensures Render(n) == NormalizeUri(t.host, Some(t.port))
  {
    DefaultPortIsDigits();
    if t.port == [] then Token(t.host, DefaultPort) else t
  }

  /** The normalised text of an extracted pair is read back, by either
      pattern, as the pair with its port filled in: normalising never
      changes the host and keeps a given port's digits verbatim. */
  lemma NormalizedReparses(t: Token)
    requires WellFormed(t)
    ensures Search(NormalizeUri(t.host, Some(t.port))) == Some(Normalized(t))
    ensures FindAll(NormalizeUri(t.host, Some(t.port))) == [Normalized(t)]
  {
    RenderReparses(Normalized(t));
  }

  /** Normalising is idempotent: the normalised pair, normalised again,
      gives the same text. */
  lemma NormalizeIdempotent(t: Token)
    requires WellFormed(t)
    ensures var n := Normalized(t);
      NormalizeUri(n.host, Some(n.port)) == NormalizeUri(t.host, Some(t.port))
  {
  }

  /** The normalised uri of an extracted pair holds no comma: the host has
      none, nor has the `:` or the port. */
  lemma NormalizedHasNoComma(t: Token)
    requires WellFormed(t)
    ensures ',' !in NormalizeUri(t.host, Some(t.port))
  {
  }
}
