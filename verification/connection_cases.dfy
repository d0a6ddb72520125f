/** The calls `get_connection`'s documentation gives as examples, and the
    two ways each mode refuses its input, worked out on the model.

    Each example is an instance of a general lemma about `get_connection`.
    The facts about the literal texts involved (that a host is well formed,
    how a pair is written, what two literals concatenate to) are stated in
    small lemmas of their own, one or two facts each: the verifier settles
    such a fact cheaply alone, but not inside a proof that also holds the
    pattern functions applied to the whole literal. */
module ConnectionCases {
  import opened Values
  import opened CharClass
  import opened HostPattern
  import opened PatternFacts
  import opened Endpoint
  import opened Connection

  /** `localhost` with the default port, as text. */
  lemma LocalhostDefault()
    ensures "localhost" + ":" + DefaultPort == "localhost:27017"
  {
  }

  /** `localhost` is a host the patterns can extract. */
  lemma LocalhostWellFormed()
    ensures WellFormed(Token("localhost", []))
  {
  }

  /** `get_connection('localhost')` assumes the default port. */
  lemma LocalhostExample<O>(options: O)
    ensures GetConnection("localhost", None, options) == Ok(MongoClient("localhost:27017", options))
  {
    LocalhostWellFormed();
    StandaloneBareHost("localhost", options);
    LocalhostDefault();
  }

  /** `localhost:27018` is a well-formed pair, written and normalised as
      itself. */
  lemma LocalhostPortWellFormed()
    ensures WellFormed(Token("localhost", "27018"))
    ensures Render(Token("localhost", "27018")) == "localhost:27018"
    ensures Text(Token("localhost", "27018")) == "localhost:27018"
    ensures NormalizeUri("localhost", Some("27018")) == "localhost:27018"
  {
  }

  /** `get_connection('localhost:27018')` keeps the given port. */
  lemma LocalhostPortExample<O>(options: O)
    ensures GetConnection("localhost:27018", None, options) == Ok(MongoClient("localhost:27018", options))
  {
    LocalhostPortWellFormed();
    StandaloneGivenPort(Token("localhost", "27018"), options);
  }

  /** `mongodb` is a word run, so `mongodb://` can match the scheme group. */
  lemma MongodbScheme()
    ensures forall k :: 0 <= k < |"mongodb"| ==> IsWordChar("mongodb"[k])
    ensures "mongodb" + "://" + "localhost:27018" == "mongodb://localhost:27018"
  {
  }

  /** `get_connection('mongodb://localhost:27018')` accepts a fully
      qualified url and drops its scheme. */
  lemma QualifiedUrlExample<O>(options: O)
    ensures GetConnection("mongodb://localhost:27018", None, options) == Ok(MongoClient("localhost:27018", options))
  {
    LocalhostPortWellFormed();
    MongodbScheme();
    StandaloneDropsScheme("mongodb", Token("localhost", "27018"), options);
  }

  /** `get_connection('mongodb://localhost')`: a fully qualified url without
      a port gets the default port. */
  lemma QualifiedBareUrlExample<O>(options: O)
    ensures GetConnection("mongodb://localhost", None, options) == Ok(MongoClient("localhost:27017", options))
  {
    LocalhostWellFormed();
    MongodbScheme();
    assert "mongodb" + "://" + "localhost" == "mongodb://localhost";
    assert Text(Token("localhost", [])) == "localhost";
    StandaloneDropsScheme("mongodb", Token("localhost", []), options);
    LocalhostDefault();
  }

  /** Cluster mode on three pairs written in their shortest forms and
      separated by commas: each pair is normalised, in order. */
  lemma ClusterOfThree<O>(x: Token, y: Token, z: Token, cluster: Option<string>, options: O)
    requires Truthy(cluster) && WellFormed(x) && WellFormed(y) && WellFormed(z)
    ensures GetConnection(Text(x) + "," + Text(y) + "," + Text(z), cluster, options)
         == Ok(MongoReplicaSetClient(
              NormalizeUri(x.host, Some(x.port)) + "," + NormalizeUri(y.host, Some(y.port)) + ","
                + NormalizeUri(z.host, Some(z.port)),
              cluster.value, options))
  {
    var ts := [x, y, z];
    ClusterOfList(ts, cluster, options);
    assert TextAll(ts) == [Text(x), Text(y), Text(z)];
    assert NormalizeAll(ts)
        == [NormalizeUri(x.host, Some(x.port)), NormalizeUri(y.host, Some(y.port)), NormalizeUri(z.host, Some(z.port))];
    JoinThree(Text(x), Text(y), Text(z), ",");
    JoinThree(NormalizeUri(x.host, Some(x.port)), NormalizeUri(y.host, Some(y.port)), NormalizeUri(z.host, Some(z.port)), ",");
  }

  /** A leading space and the gap texts `; `, `,` followed by a tab, and a
      line feed are delimiters only, each but the last non-empty. */
  lemma MixedGaps()
    ensures AllDelimiters(" ")
    ensures Gaps(["; ", ",\t", "\n"])
  {
  }

  /** The list of three pairs with mixed gap texts, as one text. */
  lemma MixedListed(x: Token, y: Token, z: Token)
    ensures " " + Listed([x, y, z], ["; ", ",\t", "\n"])
         == " " + Text(x) + "; " + Text(y) + ",\t" + Text(z) + "\n"
  {
    var ts, gaps := [x, y, z], ["; ", ",\t", "\n"];
    assert ts[1..] == [y, z] && gaps[1..] == [",\t", "\n"];
    assert ts[1..][1..] == [z] && gaps[1..][1..] == ["\n"];
    assert Listed([z], ["\n"]) == Text(z) + "\n" + [];
  }

  /** Cluster mode on three pairs separated by `;`, `,` and white space,
      with white space around them: each pair is normalised, in order, and
      the constructor receives them joined with commas. */
  lemma ClusterOfThreeMixed<O>(x: Token, y: Token, z: Token, cluster: Option<string>, options: O)
    requires Truthy(cluster) && WellFormed(x) && WellFormed(y) && WellFormed(z)
    ensures GetConnection(" " + Text(x) + "; " + Text(y) + ",\t" + Text(z) + "\n", cluster, options)
         == Ok(MongoReplicaSetClient(
              NormalizeUri(x.host, Some(x.port)) + "," + NormalizeUri(y.host, Some(y.port)) + ","
                + NormalizeUri(z.host, Some(z.port)),
              cluster.value, options))
  {
    var ts := [x, y, z];
    MixedGaps();
    MixedListed(x, y, z);
    ClusterOfListed(" ", ts, ["; ", ",\t", "\n"], cluster, options);
    assert NormalizeAll(ts)
        == [NormalizeUri(x.host, Some(x.port)), NormalizeUri(y.host, Some(y.port)), NormalizeUri(z.host, Some(z.port))];
    JoinThree(NormalizeUri(x.host, Some(x.port)), NormalizeUri(y.host, Some(y.port)), NormalizeUri(z.host, Some(z.port)), ",");
  }

  /** The three pairs of the documented cluster list, each in its shortest
      form. */
  lemma ClusterExampleTextApart()
    ensures Text(Token("server1", [])) == "server1"
    ensures Text(Token("server2", "27018")) == "server2:27018"
    ensures Text(Token("server3", [])) == "server3"
  {
  }

  /** The documented cluster list is the three pairs joined with commas. */
  lemma ClusterExampleText()
    ensures Text(Token("server1", [])) + "," + Text(Token("server2", "27018")) + "," + Text(Token("server3", []))
         == "server1,server2:27018,server3"
  {
    ClusterExampleTextApart();
    assert "server1" + "," + "server2:27018" + "," + "server3" == "server1,server2:27018,server3";
  }

  /** The three pairs of the documented cluster list, each normalised. */
  lemma ClusterExampleHostsApart()
    ensures NormalizeUri("server1", Some([])) == "server1:27017"
    ensures NormalizeUri("server2", Some("27018")) == "server2:27018"
    ensures NormalizeUri("server3", Some([])) == "server3:27017"
  {
  }

  /** The normalised pairs joined with commas, as one literal. */
  lemma ClusterExampleHosts()
    ensures NormalizeUri("server1", Some([])) + "," + NormalizeUri("server2", Some("27018")) + ","
              + NormalizeUri("server3", Some([]))
         == "server1:27017,server2:27018,server3:27017"
  {
    ClusterExampleHostsApart();
    assert "server1:27017" + "," + "server2:27018" == "server1:27017,server2:27018";
    assert "server1:27017,server2:27018" + "," + "server3:27017" == "server1:27017,server2:27018,server3:27017";
  }

  /** `server1`, the first pair of the documented cluster list, is well
      formed; so are the other two. */
  lemma Server1WellFormed()
    ensures WellFormed(Token("server1", []))
  {
  }

  /** `server2:27018` is well formed. */
  lemma Server2WellFormed()
    ensures WellFormed(Token("server2", "27018"))
  {
  }

  /** `server3` is well formed. */
  lemma Server3WellFormed()
    ensures WellFormed(Token("server3", []))
  {
  }

  /** `get_connection('server1,server2:27018,server3', 'cluster_name')`
      calls the cluster constructor with every host normalised, in order. */
  lemma ClusterExample<O>(options: O)
    ensures GetConnection("server1,server2:27018,server3", Some("cluster_name"), options)
         == Ok(MongoReplicaSetClient("server1:27017,server2:27018,server3:27017", "cluster_name", options))
  {
    var x, y, z := Token("server1", []), Token("server2", "27018"), Token("server3", []);
    Server1WellFormed();
    Server2WellFormed();
    Server3WellFormed();
    ClusterOfThree(x, y, z, Some("cluster_name"), options);
    ClusterExampleText();
    ClusterExampleHosts();
  }

  /** An empty standalone url is refused. */
  lemma EmptyUrlRefused<O>(options: O)
    ensures GetConnection("", None, options) == Err(InvalidStandaloneUrl)
  {
    StandaloneDispatch("", None, options);
  }

  /** No character of `" ,;: "` can start a host. */
  lemma SeparatorsHaveNoHost()
    ensures forall k :: 0 <= k < |" ,;: "| ==> !IsHostChar(" ,;: "[k])
  {
  }

  /** A standalone url made only of white space and separators is refused. */
  lemma SeparatorsRefused<O>(options: O)
    ensures GetConnection(" ,;: ", None, options) == Err(InvalidStandaloneUrl)
  {
    SeparatorsHaveNoHost();
    StandaloneDispatch(" ,;: ", None, options);
  }

  /** Two bare hosts joined with a comma, as one literal. */
  lemma TwoServersText()
    ensures Text(Token("server1", [])) + "," + Text(Token("server2", [])) == "server1,server2"
  {
    assert Text(Token("server1", [])) == "server1";
    assert Text(Token("server2", [])) == "server2";
  }

  /** A cluster list naming two hosts is refused. */
  lemma TwoHostClusterRefused<O>(options: O)
    ensures GetConnection("server1,server2", Some("cluster_name"), options) == Err(TooFewClusterHosts)
  {
    var x, y := Token("server1", []), Token("server2", []);
    Server1WellFormed();
    assert WellFormed(y);
    var ts := [x, y];
    ClusterOfList(ts, Some("cluster_name"), options);
    assert TextAll(ts) == [Text(x), Text(y)];
    JoinTwo(Text(x), Text(y), ",");
    TwoServersText();
  }
}
