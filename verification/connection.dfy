/** `get_connection` and the two constructor helpers it dispatches to. The
    MongoDB client constructors are not run: each outcome records the one
    constructor call that would be made, with its arguments, and the
    keyword arguments are an opaque value `options` carried through. */
module Connection {
  import opened Values
  import opened CharClass
  import opened HostPattern
  import opened PatternFacts
  import opened Endpoint

  /** The constructor call a connection helper makes. */
  datatype ClientCall<O> =
    | MongoClient(uri: string, options: O)
    | MongoReplicaSetClient(hostList: string, replicaSet: string, options: O)

  /** The errors `get_connection` raises. */
  datatype ConnectError =
      /** "Invalid cluster hosts list. We need at least 3 hosts." */
    | TooFewClusterHosts
      /** "Invalid standalone mongodb url." */
    | InvalidStandaloneUrl

  /** The fewest hosts a cluster list must name. */
  const MinClusterHosts: nat := 3

  /** `get_standalone_connection`: one standalone client call for `uri`. */
  function GetStandaloneConnection<O>(uri: string, options: O): (c: ClientCall<O>)
    ensures c.MongoClient? && c.uri == uri && c.options == options
  {
    MongoClient(uri, options)
  }

  /** `get_cluster_connection`: one replica-set client call for the hosts
      joined with commas, in order. No hosts give an empty host list, one
      host is passed as it is, and hosts without commas are exactly the
      pieces the host list splits into at its commas. */
  function GetClusterConnection<O>(hosts: seq<string>, replicaSet: string, options: O): (c: ClientCall<O>)
    ensures c.MongoReplicaSetClient? && c.replicaSet == replicaSet && c.options == options
    ensures hosts == [] ==> c.hostList == []
    ensures |hosts| == 1 ==> c.hostList == hosts[0]
    ensures |hosts| > 0 && (forall n :: 0 <= n < |hosts| ==> ',' !in hosts[n]) ==> Split(c.hostList, ',') == hosts
  {
    var hostList := Join(hosts, ",");
    assert |hosts| > 0 && (forall n :: 0 <= n < |hosts| ==> ',' !in hosts[n]) ==> Split(hostList, ',') == hosts by {
      if |hosts| > 0 && (forall n :: 0 <= n < |hosts| ==> ',' !in hosts[n]) {
        SplitJoin(hosts, ',');
      }
    }
    MongoReplicaSetClient(hostList, replicaSet, options)
  }

  /** `[normalize_uri(*parts) for parts in hosts]`. */
  function NormalizeAll(ts: seq<Token>): (uris: seq<string>)
    ensures |uris| == |ts|
    ensures forall n :: 0 <= n < |ts| ==> uris[n] == NormalizeUri(ts[n].host, Some(ts[n].port))
  {
    if ts == [] then [] else [NormalizeUri(ts[0].host, Some(ts[0].port))] + NormalizeAll(ts[1..])
  }

  /** Every extracted pair with its port filled in, in order. */
  function NormalizeTokens(ts: seq<Token>): (ns: seq<Token>)
    ensures |ns| == |ts|
    ensures forall n :: 0 <= n < |ts| ==> ns[n] == Normalized(ts[n])
  {
    if ts == [] then [] else [Normalized(ts[0])] + NormalizeTokens(ts[1..])
  }

  /** `get_connection`. With a truthy cluster name the text is read as a host
      list (`re.findall`), at least three pairs are required, and the cluster
      constructor is called with the normalised pairs; otherwise the first
      pair of the text (`re.search`) is normalised and the standalone
      constructor is called. An error records no call. */
  function GetConnection<O>(urlOrHosts: string, cluster: Option<string>, options: O): (r: Result<ClientCall<O>, ConnectError>)
    ensures Truthy(cluster) && r.Ok? ==> r.value.MongoReplicaSetClient?
    ensures Truthy(cluster) && r.Err? ==> r.error == TooFewClusterHosts
    ensures !Truthy(cluster) && r.Ok? ==> r.value.MongoClient?
    ensures !Truthy(cluster) && r.Err? ==> r.error == InvalidStandaloneUrl
    ensures r.Ok? ==> r.value.options == options
  {
    if Truthy(cluster) then
      var hosts := FindAll(urlOrHosts);
      if |hosts| < MinClusterHosts then Err(TooFewClusterHosts)
      else Ok(GetClusterConnection(NormalizeAll(hosts), cluster.value, options))
    else
      match Search(urlOrHosts)
      case None => Err(InvalidStandaloneUrl)
      case Some(t) => Ok(GetStandaloneConnection(NormalizeUri(t.host, Some(t.port)), options))
  }

  /** The normalised hosts are the normalised pairs written out: as each
      has a port, its shortest form is `host:port`. */
  lemma NormalizeAllRenders(ts: seq<Token>)
    ensures NormalizeAll(ts) == TextAll(NormalizeTokens(ts))
  {
    var xs, ys := NormalizeAll(ts), TextAll(NormalizeTokens(ts));
    forall n | 0 <= n < |xs|
      ensures xs[n] == ys[n]
    {
      assert ys[n] == Text(Normalized(ts[n]));
    }
  }

  /** The host list handed to the cluster constructor is read back by the
      cluster pattern as exactly the extracted pairs with their ports filled
      in, in input order. */
  lemma HostListReparses(ts: seq<Token>)
    requires forall n :: 0 <= n < |ts| ==> WellFormed(ts[n])
    ensures FindAll(Join(NormalizeAll(ts), ",")) == NormalizeTokens(ts)
  {
    NormalizeAllRenders(ts);
    JoinedListReparses(NormalizeTokens(ts));
  }

  /** The normalised uris of extracted pairs are the pieces their
      comma-joined host list splits into. */
  lemma HostListSplits(ts: seq<Token>)
    requires |ts| > 0
    requires forall n :: 0 <= n < |ts| ==> WellFormed(ts[n])
    ensures Split(Join(NormalizeAll(ts), ","), ',') == NormalizeAll(ts)
  {
    var uris := NormalizeAll(ts);
    forall n | 0 <= n < |uris|
      ensures ',' !in uris[n]
    {
      NormalizedHasNoComma(ts[n]);
    }
    SplitJoin(uris, ',');
  }

  /** Cluster mode: it fails exactly when the list names fewer than three
      pairs; otherwise it calls the cluster constructor with the cluster
      name as the replica set and a host list that splits at its commas
      into the normalised pairs, and reads back as the extracted pairs,
      normalised, in input order. */
  lemma ClusterDispatch<O>(urlOrHosts: string, cluster: Option<string>, options: O)
    requires Truthy(cluster)
    ensures var r := GetConnection(urlOrHosts, cluster, options);
      && (r.Err? <==> |FindAll(urlOrHosts)| < MinClusterHosts)
      && (r.Ok? ==> r.value.MongoReplicaSetClient? && r.value.replicaSet == cluster.value)
      && (r.Ok? ==> Split(r.value.hostList, ',') == NormalizeAll(FindAll(urlOrHosts)))
      && (r.Ok? ==> FindAll(r.value.hostList) == NormalizeTokens(FindAll(urlOrHosts)))
  {
    var ts := FindAll(urlOrHosts);
    HostListReparses(ts);
    if |ts| >= MinClusterHosts {
      HostListSplits(ts);
    }
  }

  /** Standalone mode: it fails exactly when no character of the text can
      start a host; otherwise it calls the standalone constructor with the
      normalisation of the first pair `findall` would extract as its uri,
      and that uri reads back as this one pair. */
  lemma StandaloneDispatch<O>(urlOrHosts: string, cluster: Option<string>, options: O)
    requires !Truthy(cluster)
    ensures var r := GetConnection(urlOrHosts, cluster, options);
      && (r.Err? <==> forall k :: 0 <= k < |urlOrHosts| ==> !IsHostChar(urlOrHosts[k]))
      && (r.Ok? ==> r.value.MongoClient? && |FindAll(urlOrHosts)| > 0)
      && (r.Ok? && |FindAll(urlOrHosts)| > 0 ==>
            Search(r.value.uri) == Some(Normalized(FindAll(urlOrHosts)[0])))
      && (r.Ok? && |FindAll(urlOrHosts)| > 0 ==>
            r.value.uri == NormalizeUri(FindAll(urlOrHosts)[0].host, Some(FindAll(urlOrHosts)[0].port)))
      && (r.Ok? && |FindAll(urlOrHosts)| > 0 ==>
            FindAll(r.value.uri) == [Normalized(FindAll(urlOrHosts)[0])])
  {
    SearchIsFirstOfFindAll(urlOrHosts);
    match Search(urlOrHosts)
    case Some(t) =>
      NormalizedReparses(t);
    case None =>
  }

  /** Standalone mode on a bare host: the default port is added. */
  lemma StandaloneBareHost<O>(host: string, options: O)
    requires WellFormed(Token(host, []))
    ensures GetConnection(host, None, options) == Ok(MongoClient(host + ":" + DefaultPort, options))
  {
    BareHostReparses(host);
  }

  /** Standalone mode on `host:port` with a port given: the text is handed
      to the constructor unchanged. */
  lemma StandaloneGivenPort<O>(t: Token, options: O)
    requires WellFormed(t) && t.port != []
    ensures GetConnection(Render(t), None, options) == Ok(MongoClient(Render(t), options))
  {
    RenderReparses(t);
  }

  /** Standalone mode on `scheme://host` or `scheme://host:port`: the scheme
      is dropped, a bare host gets the default port and a given port is
      kept. */
  lemma StandaloneDropsScheme<O>(scheme: string, t: Token, options: O)
    requires |scheme| > 0 && forall k :: 0 <= k < |scheme| ==> IsWordChar(scheme[k])
    requires WellFormed(t)
    ensures GetConnection(scheme + "://" + Text(t), None, options)
         == Ok(MongoClient(NormalizeUri(t.host, Some(t.port)), options))
  {
    SchemeTextIsDropped(scheme, t);
  }

  /** Cluster mode on a comma-separated list of pairs: the list is refused
      when it names fewer than three, and otherwise the constructor receives
      every pair normalised, in order, joined with commas. */
  lemma ClusterOfList<O>(ts: seq<Token>, cluster: Option<string>, options: O)
    requires Truthy(cluster)
    requires forall n :: 0 <= n < |ts| ==> WellFormed(ts[n])
    ensures var r := GetConnection(Join(TextAll(ts), ","), cluster, options);
      && (|ts| < MinClusterHosts ==> r == Err(TooFewClusterHosts))
      && (|ts| >= MinClusterHosts ==>
            r == Ok(MongoReplicaSetClient(Join(NormalizeAll(ts), ","), cluster.value, options)))
  {
    JoinedListReparses(ts);
  }

  /** Cluster mode on pairs in their shortest forms, with runs of `,`, `;`
      and white space before, between and after them: the list is refused
      when it names fewer than three pairs, and otherwise the constructor
      receives every pair normalised, in order, joined with commas. */
  lemma ClusterOfListed<O>(lead: string, ts: seq<Token>, gaps: seq<string>, cluster: Option<string>, options: O)
    requires Truthy(cluster)
    requires AllDelimiters(lead) && |gaps| == |ts| && Gaps(gaps)
    requires forall n :: 0 <= n < |ts| ==> WellFormed(ts[n])
    ensures var r := GetConnection(lead + Listed(ts, gaps), cluster, options);
      && (|ts| < MinClusterHosts ==> r == Err(TooFewClusterHosts))
      && (|ts| >= MinClusterHosts ==>
            r == Ok(MongoReplicaSetClient(Join(NormalizeAll(ts), ","), cluster.value, options)))
  {
    ListedReparses(lead, ts, gaps);
  }
}
