// Peer selection of the catalog cache's configuration: of the configured
// peer URLs, the node's own host name is filtered out, and exactly two
// peers must remain.
//
// URL and host parsing happen when the configuration is parsed and are not
// modelled: a URL is its text together with the host it was parsed to.

module CatalogCache {
  import opened Wrappers

  /** A parsed host: a domain name or an IP address. */
  datatype Host = Domain(name: string) | Ipv4(octets: seq<nat>) | Ipv6(pieces: seq<nat>)

  /** A parsed URL; `host` is absent for URLs such as `unix:/path`. */
  datatype Url = Url(text: string, host: Option<Host>)

  /** The part of the configuration peer selection reads. */
  datatype CatalogConfig = CatalogConfig(hostname: Option<Host>, peers: seq<Url>)

  /**
    The configuration errors. Only `InvalidPeers` comes from peer selection;
    the other three are raised while parsing URLs and host names, which this
    model does not include.
  */
  datatype Error =
    | NotAPrefix(host: string, prefix: string)
    | NotAValidHost(host: string)
    | InvalidUrl(source: string)
    | InvalidPeers

  /** A peer is dropped only when both it and this node have a host, and they are equal. */
  predicate KeepPeer(hostname: Option<Host>, peer: Url)
  {
    match (peer.host, hostname)
    case (Some(a), Some(r)) => a != r
    case _ => true
  }

  /** The peers that are kept, in their configured order. */
  function Filtered(hostname: Option<Host>, peers: seq<Url>): (r: seq<Url>)
    ensures |r| <= |peers|
  {
    if |peers| == 0 then []
    else if KeepPeer(hostname, peers[0]) then [peers[0]] + Filtered(hostname, peers[1..])
    else Filtered(hostname, peers[1..])
  }

  /** The two other catalog cache nodes, or `InvalidPeers` unless exactly two remain. */
  function Peers(config: CatalogConfig): (r: Result<(Url, Url), Error>)
    ensures r.Success? <==> |Filtered(config.hostname, config.peers)| == 2
    ensures r.Success? ==> [r.value.0, r.value.1] == Filtered(config.hostname, config.peers)
    ensures r.Failure? ==> r.error == InvalidPeers
  {
    var kept := Filtered(config.hostname, config.peers);
    if |kept| == 2 then Success((kept[0], kept[1])) else Failure(InvalidPeers)
  }

  /** A peer is kept exactly when it is configured and not this node. */
  lemma {:induction false} FilteredMembers(hostname: Option<Host>, peers: seq<Url>, u: Url)
    ensures u in Filtered(hostname, peers) <==> u in peers && KeepPeer(hostname, u)
  {
    if |peers| > 0 {
      FilteredMembers(hostname, peers[1..], u);
      assert peers == [peers[0]] + peers[1..];
    }
  }

  /** Filtering distributes over concatenation, so the kept peers stay in configured order. */
  lemma {:induction false} FilteredAppend(hostname: Option<Host>, a: seq<Url>, b: seq<Url>)
    ensures Filtered(hostname, a + b) == Filtered(hostname, a) + Filtered(hostname, b)
  {
    if |a| == 0 {
      assert a + b == b;
    } else {
      assert (a + b)[0] == a[0];
      assert (a + b)[1..] == a[1..] + b;
      FilteredAppend(hostname, a[1..], b);
    }
  }

  /** Without a host name every configured peer is kept. */
  lemma {:induction false} NoHostnameKeepsAll(peers: seq<Url>)
    ensures Filtered(None, peers) == peers
  {
    if |peers| > 0 {
      NoHostnameKeepsAll(peers[1..]);
    }
  }

  /** Peers without a host are never filtered out. */
  lemma {:induction false} HostlessPeersKept(hostname: Option<Host>, peers: seq<Url>)
    requires forall i :: 0 <= i < |peers| ==> peers[i].host.None?
    ensures Filtered(hostname, peers) == peers
  {
    if |peers| > 0 {
      HostlessPeersKept(hostname, peers[1..]);
    }
  }

  /** Exactly the peers whose host is the node's own are removed. */
  lemma {:induction false} FilteredCount(h: Host, peers: seq<Url>)
    ensures |Filtered(Some(h), peers)| + CountHost(h, peers) == |peers|
  {
    if |peers| > 0 {
      FilteredCount(h, peers[1..]);
    }
  }

  /** How many configured peers have host `h`. */
  function CountHost(h: Host, peers: seq<Url>): nat
  {
    if |peers| == 0 then 0
    else (if peers[0].host == Some(h) then 1 else 0) + CountHost(h, peers[1..])
  }

  // The configurations of the module's own test.

  const PEER1 := Url("http://peer1:8080", Some(Domain("peer1")))
  const PEER2 := Url("http://peer2:9090", Some(Domain("peer2")))
  const PEER3 := Url("http://peer3:9091", Some(Domain("peer3")))

  lemma TwoPeersSelected()
    ensures Peers(CatalogConfig(None, [PEER1, PEER2])) == Success((PEER1, PEER2))
  {
    NoHostnameKeepsAll([PEER1, PEER2]);
  }

  lemma ThreePeersRejected()
    ensures Peers(CatalogConfig(None, [PEER1, PEER2, PEER3])) == Failure(InvalidPeers)
  {
    var config := CatalogConfig(None, [PEER1, PEER2, PEER3]);
    NoHostnameKeepsAll(config.peers);
    assert |Filtered(config.hostname, config.peers)| == 3;
  }

  lemma OwnHostFilteredOut()
    ensures Peers(CatalogConfig(Some(Domain("peer3")), [PEER1, PEER2, PEER3])) == Success((PEER1, PEER2))
  {
    var own := Some(Domain("peer3"));
    assert "peer1"[4] != "peer3"[4] && "peer2"[4] != "peer3"[4];
    assert KeepPeer(own, PEER1) && KeepPeer(own, PEER2) && !KeepPeer(own, PEER3);
    var peers := [PEER1, PEER2, PEER3];
    assert peers[1..] == [PEER2, PEER3];
    assert peers[1..][1..] == [PEER3];
    assert Filtered(own, [PEER3]) == [] by {
      assert [PEER3][1..] == [];
    }
    assert Filtered(own, peers) == [PEER1, PEER2];
  }
}
