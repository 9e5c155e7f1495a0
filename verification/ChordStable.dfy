/**
 The ring protocol and the lookup together: what a lookup tells a joining node, at any moment of any run, and that
 lookups are right wherever stabilisation has come to rest.
 */
module ChordStable {
  import opened Ring
  import opened ChordLookup
  import opened ChordRing

  /** The network `net` consists of the peers, each under one address; its fingers may be anything. */
  ghost predicate Shows(net: Net, peers: Peers) {
    DistinctIds(net) && forall a {:trigger ShowsAt(net, peers, a)} | a in net :: ShowsAt(net, peers, a)
  }

  ghost predicate ShowsAt(net: Net, peers: Peers, a: Address)
    requires a in net
  {
    && net[a].id in peers
    && net[a].successor in net
    && net[net[a].successor].id == peers[net[a].id].successor
  }

  /**
   A lookup always ends with an address, and the address is that of the successor of some member `c` for which the
   identifier lies between `c` and its successor. This is what a join builds on.
   */
  lemma {:induction false} LookupLocates(size: nat, net: Net, peers: Peers, at: Address, id: int) returns (c: int)
    requires NetOk(size, net) && Shows(net, peers) && Id(size, id) && at in net
    ensures var r := Lookup(size, net, at, id);
            && r.found && r.address.Some? && r.address.value in net
            && c in peers && Between(c, id, peers[c].successor, true)
            && net[r.address.value].id == peers[c].successor
    decreases Dist1(size, net[at].id, id)
  {
    assert ShowsAt(net, peers, at);
    if Between(net[at].id, id, net[net[at].successor].id, true) {
      c := net[at].id;
    } else {
      ForwardIsCloser(size, net, at, id);
      c := LookupLocates(size, net, peers, Forward(net, at, id), id);
    }
  }

  lemma IdealMeansRight(net: Net, peers: Peers)
    requires Shows(net, peers) && Ideal(peers)
    ensures RightSuccessors(net)
  {
    hide Between;
    forall a | a in net ensures RightSuccessor(net, a) {
      assert ShowsAt(net, peers, a);
      assert IdealAt(peers, net[a].id);
      forall b | b in net ensures !Between(net[a].id, net[b].id, net[net[a].successor].id, false) {
        assert ShowsAt(net, peers, b);
      }
    }
  }

  /**
   At the end of any run that has come to rest, a lookup from any node for any identifier gives the first member at
   or after that identifier, whatever the fingers are.
   */
  lemma QuietLookupsAreRight(size: nat, b: int, run: seq<State>, net: Net, at: Address, id: int)
    requires IsRun(size, b, run) && Quiet(run[|run| - 1].peers) && Shows(net, run[|run| - 1].peers)
    requires NetOk(size, net) && Id(size, id) && at in net
    ensures var r := Lookup(size, net, at, id);
            r.found && r.address.Some? && IsSuccessorOf(size, net, id, r.address.value)
  {
    hide Quiet, Shows, Ideal, Inv, IsSuccessorOf;
    RunKeepsInv(size, b, run);
    QuietIsIdeal(size, b, run[|run| - 1]);
    IdealMeansRight(net, run[|run| - 1].peers);
    LookupIsRight(size, net, at, id);
  }
}
