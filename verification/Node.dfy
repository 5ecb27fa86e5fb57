/** Nodes of the routing table and their status (`bip_dht/src/routing/node.rs`); times are in milliseconds. */
module Nodes {
  import opened Basics
  import opened NodeIds

  const MAX_LAST_SEEN: int := 15 * 60 * 1000
  const MAX_REFRESH_REQUESTS: nat := 2

  /** An address only matters up to equality. */
  type SocketAddr = nat

  datatype NodeStatus = Bad | Questionable | Good {
    /** The order of the variants. */
    function Rank(): nat {
      match this case Bad => 0 case Questionable => 1 case Good => 2
    }
  }

  datatype Node = Node(
    id: NodeId,
    addr: SocketAddr,
    lastRequest: Option<int>,
    lastResponse: Option<int>,
    refreshRequests: nat)
  {
    function Status(now: int): NodeStatus {
      match RecentlyResponded(now)
      case Questionable => RecentlyRequested(now)
      case decided => decided
    }

    function RecentlyResponded(now: int): NodeStatus {
      if lastResponse.None? then Bad
      else if now - lastResponse.value < MAX_LAST_SEEN then Good
      else Questionable
    }

    function RecentlyRequested(now: int): NodeStatus {
      if lastRequest.Some? && now - lastRequest.value < MAX_LAST_SEEN then Good
      else if refreshRequests < MAX_REFRESH_REQUESTS then Questionable
      else Bad
    }

    /** Node equality ignores everything that changes over time. */
    predicate Same(other: Node) {
      id == other.id && addr == other.addr
    }

    predicate Pingable(now: int) {
      Status(now).Good? || Status(now).Questionable?
    }

    /** It has responded to us at some time, unlike the nodes that fill an empty bucket. */
    predicate Real() {
      lastResponse.Some?
    }
  }

  /** The filler of an unused slot: zero id, 127.0.0.1:0, never heard of. */
  function Placeholder(): Node {
    Node(seq(SHA_HASH_LEN, _ => 0), 0, None, None, 0)
  }

  /** What can happen to a node while it sits in the table. */
  datatype Contact = LocalRequest | RemoteRequest | RemoteResponse

  function Contacted(n: Node, contact: Contact, now: int): Node {
    match contact
    case LocalRequest => if n.Status(now).Good? then n else n.(refreshRequests := n.refreshRequests + 1)
    case RemoteRequest => n.(lastRequest := Some(now))
    case RemoteResponse => n.(lastResponse := Some(now), refreshRequests := 0)
  }

  lemma BadUnlessReal(n: Node, now: int)
    ensures n.Pingable(now) <==> !n.Status(now).Bad?
    ensures n.Pingable(now) ==> n.Real()
  {
  }

  /** Contacts one after the other, none before `from` and none after `until`. */
  ghost predicate Clocked(contacts: seq<(Contact, int)>, from: int, until: int) {
    forall i :: 0 <= i < |contacts| ==> from <= contacts[i].1 <= until
  }

  ghost function ContactedAll(n: Node, contacts: seq<(Contact, int)>): Node {
    if contacts == [] then n
    else
      var last := contacts[|contacts| - 1];
      Contacted(ContactedAll(n, contacts[..|contacts| - 1]), last.0, last.1)
  }

  lemma {:induction false} ResponseStays(n: Node, contacts: seq<(Contact, int)>, from: int, until: int)
    requires n.lastResponse.Some? && from <= n.lastResponse.value && Clocked(contacts, from, until)
    ensures var r := ContactedAll(n, contacts); r.lastResponse.Some? && from <= r.lastResponse.value
  {
    if contacts != [] { ResponseStays(n, contacts[..|contacts| - 1], from, until); }
  }

  /** Whatever happens to it afterwards, a node that responds is Good for fifteen minutes. */
  lemma GoodAfterResponse(n: Node, at: int, contacts: seq<(Contact, int)>, now: int)
    requires at <= now < at + MAX_LAST_SEEN && Clocked(contacts, at, now)
    ensures ContactedAll(Contacted(n, RemoteResponse, at), contacts).Status(now).Good?
  {
    ResponseStays(Contacted(n, RemoteResponse, at), contacts, at, now);
  }

  /** A Questionable node that leaves two requests of ours unanswered is Bad from then on. */
  lemma BadAfterTwoRequests(n: Node, first: int, second: int, now: int)
    requires n.Status(first).Questionable? && first <= second <= now
    ensures Contacted(Contacted(n, LocalRequest, first), LocalRequest, second).Status(now).Bad?
  {
  }

  /** Not being heard of makes no node better. */
  lemma StatusOnlyFalls(n: Node, earlier: int, later: int)
    requires earlier <= later
    ensures n.Status(later).Rank() <= n.Status(earlier).Rank()
  {
  }
}
