/** Assigning the bootstrap peers to quorums (`quorum_module.rs`, `consensus_module.rs`). */
module QuorumAssignment {
  import opened Options
  import opened Orders
  import Floats

  type NodeId = nat

  datatype NodeType = Full | Bootstrap | MinerNode | Validator | MasterNode

  datatype PeerData = PeerData(nodeId: NodeId, nodeType: NodeType, publicKey: nat, contact: nat)

  datatype QuorumKind = Harvester | Farmer | Miner

  datatype Assignment = Assignment(kind: QuorumKind, nodeId: NodeId, peers: seq<PeerData>)

  /** The peers known to the bootstrap quorum and whether they are online. */
  type PeerList = map<NodeId, (PeerData, bool)>

  // ---- One assignment -----------------------------------------------------

  function Others(peers: seq<PeerData>, id: NodeId): (r: seq<PeerData>)
    ensures forall p :: p in r <==> p in peers && p.nodeId != id
  {
    if peers == [] then []
    else
      var last := |peers| - 1;
      var before := Others(peers[..last], id);
      assert peers == peers[..last] + [peers[last]];
      if peers[last].nodeId != id then before + [peers[last]] else before
  }

  /** `assign_membership_to_quorum`. */
  function Assign(kind: QuorumKind, peer: PeerData, peers: seq<PeerData>): Assignment {
    Assignment(kind, peer.nodeId, Others(peers, peer.nodeId))
  }

  ghost predicate DistinctIds(peers: seq<PeerData>) {
    forall i, j :: 0 <= i < j < |peers| ==> peers[i].nodeId != peers[j].nodeId
  }

  function IdsOf(peers: seq<PeerData>): set<NodeId> {
    set p | p in peers :: p.nodeId
  }

  /** `r'` is `r` with an assignment of this kind for every target. */
  ghost predicate Each(
    r: map<NodeId, Assignment>, r': map<NodeId, Assignment>,
    kind: QuorumKind, targets: seq<PeerData>, peers: seq<PeerData>)
  {
    && r'.Keys == r.Keys + IdsOf(targets)
    && (forall i :: 0 <= i < |targets| ==>
          targets[i].nodeId in r' && r'[targets[i].nodeId] == Assign(kind, targets[i], peers))
    && (forall id <- r :: id !in IdsOf(targets) ==> r'[id] == r[id])
  }

  /** Later targets with other ids leave the assignments alone. */
  lemma KeepsEach(
    r: map<NodeId, Assignment>, r': map<NodeId, Assignment>, r'': map<NodeId, Assignment>,
    kind: QuorumKind, targets: seq<PeerData>, peers: seq<PeerData>, others: set<NodeId>)
    requires Each(r, r', kind, targets, peers) && IdsOf(targets) !! others
    requires r'.Keys <= r''.Keys && forall id <- r' :: id !in others ==> r''[id] == r'[id]
    ensures forall i :: 0 <= i < |targets| ==>
              targets[i].nodeId in r'' && r''[targets[i].nodeId] == Assign(kind, targets[i], peers)
  {
    forall i: nat | i < |targets|
      ensures targets[i].nodeId in r'' && r''[targets[i].nodeId] == Assign(kind, targets[i], peers)
    {
      IdIn(targets, i);
    }
  }

  /** One of the three loops: every target gets the kind, with the peers to talk to. */
  method AssignEach(r: map<NodeId, Assignment>, kind: QuorumKind, targets: seq<PeerData>, peers: seq<PeerData>)
    returns (r': map<NodeId, Assignment>)
    requires DistinctIds(targets)
    ensures Each(r, r', kind, targets, peers)
  {
    r' := r;
    for i := 0 to |targets|
      invariant r'.Keys == r.Keys + IdsOf(targets[..i])
      invariant forall k :: 0 <= k < i ==>
                  targets[k].nodeId in r' && r'[targets[k].nodeId] == Assign(kind, targets[k], peers)
      invariant forall id <- r :: id !in IdsOf(targets[..i]) ==> r'[id] == r[id]
    {
      r' := r'[targets[i].nodeId := Assign(kind, targets[i], peers)];
      assert targets[..i + 1] == targets[..i] + [targets[i]];
      assert IdsOf(targets[..i + 1]) == IdsOf(targets[..i]) + {targets[i].nodeId};
    }
    assert targets[..|targets|] == targets;
  }

  // ---- All peers ----------------------------------------------------------

  /** The peers of one type, in the iteration order of the peer list. */
  function OfType(peers: PeerList, order: seq<NodeId>, kind: NodeType): (r: seq<PeerData>)
    requires forall n <- order :: n in peers
    ensures forall p :: p in r <==> exists n :: n in order && peers[n].0 == p && p.nodeType == kind
  {
    if order == [] then []
    else
      var last := |order| - 1;
      var before := OfType(peers, order[..last], kind);
      assert order == order[..last] + [order[last]];
      if peers[order[last]].0.nodeType == kind then before + [peers[order[last]].0] else before
  }

  /** The peers of a type are taken in the iteration order: one met later comes last. */
  lemma OfTypeInOrder(peers: PeerList, order: seq<NodeId>, n: NodeId, kind: NodeType)
    requires (forall m <- order :: m in peers) && n in peers
    ensures peers[n].0.nodeType == kind ==>
              OfType(peers, order + [n], kind) == OfType(peers, order, kind) + [peers[n].0]
    ensures peers[n].0.nodeType != kind ==> OfType(peers, order + [n], kind) == OfType(peers, order, kind)
  {
    assert (order + [n])[..|order|] == order;
  }

  /** The peer list is keyed by the peers' own ids. */
  ghost predicate Keyed(peers: PeerList) {
    forall n <- peers :: peers[n].0.nodeId == n
  }

  lemma {:induction false} OfTypeDistinct(peers: PeerList, order: seq<NodeId>, kind: NodeType)
    requires Keyed(peers) && (forall n <- order :: n in peers)
    requires NoDuplicates(order)
    ensures DistinctIds(OfType(peers, order, kind))
  {
    if order != [] {
      var last := |order| - 1;
      OfTypeDistinct(peers, order[..last], kind);
      forall p | p in OfType(peers, order[..last], kind) ensures p.nodeId != order[last] { }
    }
  }

  /** 30 percent of the validators, computed in 64-bit floats and rounded up. */
  function HarvesterCount(n: nat): (h: nat)
    ensures h <= n
  {
    Floats.CeilAtMost(n, Floats.C30, Floats.SCALE64, Floats.F64);
    Floats.CeilOfProduct(n, Floats.C30, Floats.SCALE64, Floats.F64)
  }

  lemma ThirtyPercent(n: nat)
    requires n < 3377699720527877
    ensures HarvesterCount(n) == (3 * n + 9) / 10
  {
    Floats.Percent30(n);
  }

  /** What the assignment promises of its result, for validators `vs` and miners `ms`. */
  ghost predicate WellAssigned(r: map<NodeId, Assignment>, vs: seq<PeerData>, ms: seq<PeerData>) {
    var h := HarvesterCount(|vs|);
    && r.Keys == IdsOf(vs) + IdsOf(ms)
    && (forall i :: 0 <= i < h ==> vs[i].nodeId in r && r[vs[i].nodeId] == Assign(Harvester, vs[i], vs[..h]))
    && (forall i :: h <= i < |vs| ==> vs[i].nodeId in r && r[vs[i].nodeId] == Assign(Farmer, vs[i], vs))
    && (forall i :: 0 <= i < |ms| ==> ms[i].nodeId in r && r[ms[i].nodeId] == Assign(Miner, ms[i], ms))
  }

  lemma IdIn(peers: seq<PeerData>, i: nat)
    requires i < |peers|
    ensures peers[i].nodeId in IdsOf(peers)
  {
  }

  method AssignQuorums(vs: seq<PeerData>, ms: seq<PeerData>) returns (r: map<NodeId, Assignment>)
    requires DistinctIds(vs) && DistinctIds(ms) && IdsOf(vs) !! IdsOf(ms)
    ensures WellAssigned(r, vs, ms)
  {
    var h := HarvesterCount(|vs|);
    var hs, fs := vs[..h], vs[h..];
    SplitIds(vs, h);
    r := AssignEach(map[], Harvester, hs, hs);
    ghost var harvesters := r;
    r := AssignEach(r, Farmer, fs, vs);
    ghost var validators := r;
    r := AssignEach(r, Miner, ms, ms);
    KeepsEach(map[], harvesters, r, Harvester, hs, hs, IdsOf(fs) + IdsOf(ms));
    KeepsEach(harvesters, validators, r, Farmer, fs, vs, IdsOf(ms));
    forall i | h <= i < |vs| ensures vs[i].nodeId in r && r[vs[i].nodeId] == Assign(Farmer, vs[i], vs) {
      assert fs[i - h] == vs[i];
    }
  }

  /** `assign_peer_list_to_quorums`. */
  method AssignPeerListToQuorums(peers: PeerList, order: seq<NodeId>) returns (r: map<NodeId, Assignment>)
    requires Keyed(peers) && Enumerates(order, peers.Keys)
    ensures WellAssigned(r, OfType(peers, order, Validator), OfType(peers, order, MinerNode))
  {
    OfTypeDistinct(peers, order, MinerNode);
    OfTypeDistinct(peers, order, Validator);
    TypesApart(peers, order);
    r := AssignQuorums(OfType(peers, order, Validator), OfType(peers, order, MinerNode));
  }

  lemma SplitIds(peers: seq<PeerData>, h: nat)
    requires h <= |peers| && DistinctIds(peers)
    ensures IdsOf(peers) == IdsOf(peers[..h]) + IdsOf(peers[h..]) && IdsOf(peers[..h]) !! IdsOf(peers[h..])
    ensures DistinctIds(peers[..h]) && DistinctIds(peers[h..])
  {
    assert peers == peers[..h] + peers[h..];
  }

  lemma TypesApart(peers: PeerList, order: seq<NodeId>)
    requires Keyed(peers) && forall n <- order :: n in peers
    ensures IdsOf(OfType(peers, order, Validator)) !! IdsOf(OfType(peers, order, MinerNode))
  {
  }

  // ---- What an assignment means -------------------------------------------

  lemma AssignedValidator(r: map<NodeId, Assignment>, vs: seq<PeerData>, ms: seq<PeerData>, i: nat)
    requires WellAssigned(r, vs, ms) && i < |vs|
    ensures vs[i].nodeId in r
    ensures r[vs[i].nodeId].kind == if i < HarvesterCount(|vs|) then Harvester else Farmer
  {
  }

  /** Every validator is a Harvester or a Farmer, the first 30 percent being the
      Harvesters; every miner is a Miner; nobody else is assigned. */
  lemma EveryoneOnce(r: map<NodeId, Assignment>, vs: seq<PeerData>, ms: seq<PeerData>, id: NodeId)
    requires WellAssigned(r, vs, ms) && IdsOf(vs) !! IdsOf(ms)
    ensures id in r <==> id in IdsOf(vs) || id in IdsOf(ms)
    ensures id in r ==> r[id].nodeId == id
    ensures id in IdsOf(vs) ==> (r[id].kind == Harvester || r[id].kind == Farmer)
    ensures id in IdsOf(ms) ==> r[id].kind == Miner
    ensures id in r && r[id].kind == Harvester ==> id in IdsOf(vs[..HarvesterCount(|vs|)])
  {
    if id in IdsOf(vs) {
      var i: nat :| i < |vs| && vs[i].nodeId == id;
      AssignedValidator(r, vs, ms, i);
      if i < HarvesterCount(|vs|) {
        IdIn(vs[..HarvesterCount(|vs|)], i);
      }
    }
    if id in IdsOf(ms) {
      var i: nat :| i < |ms| && ms[i].nodeId == id;
    }
  }

  ghost predicate Knows(r: map<NodeId, Assignment>, a: NodeId, b: NodeId)
    requires a in r
  {
    exists p :: p in r[a].peers && p.nodeId == b
  }

  lemma KnowsExactly(r: map<NodeId, Assignment>, kind: QuorumKind, peer: PeerData, peers: seq<PeerData>, b: NodeId)
    requires peer.nodeId in r && r[peer.nodeId] == Assign(kind, peer, peers)
    ensures Knows(r, peer.nodeId, b) <==> b in IdsOf(peers) && b != peer.nodeId
  {
    if b in IdsOf(peers) && b != peer.nodeId {
      var p :| p in peers && p.nodeId == b;
      assert p in Others(peers, peer.nodeId);
    }
  }

  /** A Harvester knows the other Harvesters, a Miner the other Miners, and a Farmer
      all other validators. */
  lemma PeersExactly(r: map<NodeId, Assignment>, vs: seq<PeerData>, ms: seq<PeerData>, a: NodeId, b: NodeId)
    requires WellAssigned(r, vs, ms) && IdsOf(vs) !! IdsOf(ms) && a in r
    ensures Knows(r, a, b) <==> b != a && b in match r[a].kind
                                               case Harvester => IdsOf(vs[..HarvesterCount(|vs|)])
                                               case Farmer => IdsOf(vs)
                                               case Miner => IdsOf(ms)
  {
    var h := HarvesterCount(|vs|);
    if a in IdsOf(vs) {
      var i: nat :| i < |vs| && vs[i].nodeId == a;
      if i < h {
        KnowsExactly(r, Harvester, vs[i], vs[..h], b);
      } else {
        KnowsExactly(r, Farmer, vs[i], vs, b);
      }
    } else {
      var i: nat :| i < |ms| && ms[i].nodeId == a;
      KnowsExactly(r, Miner, ms[i], ms, b);
    }
  }

  /** No node is its own peer, and two Harvesters, or two Miners, know each other or
      neither does. */
  lemma PeersSymmetric(r: map<NodeId, Assignment>, vs: seq<PeerData>, ms: seq<PeerData>, a: NodeId, b: NodeId)
    requires WellAssigned(r, vs, ms) && IdsOf(vs) !! IdsOf(ms) && a in r && b in r
    ensures !Knows(r, a, a)
    ensures r[a].kind == r[b].kind && r[a].kind != Farmer ==> (Knows(r, a, b) <==> Knows(r, b, a))
    ensures r[a].kind == r[b].kind && a != b ==> Knows(r, a, b)
  {
    PeersExactly(r, vs, ms, a, a);
    PeersExactly(r, vs, ms, a, b);
    PeersExactly(r, vs, ms, b, a);
    EveryoneOnce(r, vs, ms, a);
    EveryoneOnce(r, vs, ms, b);
  }

  // ---- The consensus module -----------------------------------------------

  datatype Membership = Membership(kind: QuorumKind, members: map<NodeId, PeerData>)

  /** The peers of an assignment as quorum members, all of which count as validators. */
  function MembersOf(peers: seq<PeerData>): (r: map<NodeId, PeerData>)
    ensures r.Keys == IdsOf(peers)
    ensures forall n <- r :: exists p :: p in peers && p.nodeId == n && r[n] == p.(nodeType := Validator)
  {
    if peers == [] then map[]
    else
      var last := |peers| - 1;
      assert peers == peers[..last] + [peers[last]];
      MembersOf(peers[..last])[peers[last].nodeId := peers[last].(nodeType := Validator)]
  }

  /** No later peer has the id of peer `i`. */
  ghost predicate LastOfId(peers: seq<PeerData>, i: nat)
    requires i < |peers|
  {
    forall j :: i < j < |peers| ==> peers[j].nodeId != peers[i].nodeId
  }

  /** Of several peers with one id the last is the member, and the one that is tracked. */
  lemma {:induction false} LastPeerCounts(peers: seq<PeerData>, i: nat)
    requires i < |peers| && LastOfId(peers, i)
    ensures peers[i].nodeId in MembersOf(peers)
    ensures MembersOf(peers)[peers[i].nodeId] == peers[i].(nodeType := Validator)
    ensures Offline(peers)[peers[i].nodeId] == (peers[i], false)
  {
    if i < |peers| - 1 {
      LastPeerCounts(peers[..|peers| - 1], i);
    }
  }

  function MembershipOf(a: Assignment): (r: Membership)
    ensures r.kind == a.kind && r.members.Keys == IdsOf(a.peers)
  {
    Membership(a.kind, MembersOf(a.peers))
  }

  type IdOrder = set<NodeId> -> seq<NodeId>

  ghost predicate OrdersIds(iter: IdOrder) {
    forall keys :: Enumerates(iter(keys), keys)
  }

  /** `QuorumModule::new`: every configured member, not online yet. */
  function Offline(members: seq<PeerData>): (r: PeerList)
    ensures r.Keys == IdsOf(members)
    ensures forall n <- r :: r[n].0 in members && r[n].0.nodeId == n && !r[n].1
  {
    if members == [] then map[]
    else
      var last := |members| - 1;
      assert members == members[..last] + [members[last]];
      Offline(members[..last])[members[last].nodeId := (members[last], false)]
  }

  /** The membership after an assignment event: a bootstrap node takes none, and a
      node that has one keeps it. */
  function MembershipStep(nodeType: NodeType, m: Option<Membership>, a: Assignment): Option<Membership> {
    if nodeType == Bootstrap || m.Some? then m else Some(MembershipOf(a))
  }

  /** Exactly the configured members are tracked, and those that joined are online. */
  ghost predicate Tracked(available: PeerList, configured: set<NodeId>, joined: set<NodeId>) {
    && Keyed(available)
    && available.Keys == configured
    && (forall n <- available :: available[n].1 <==> n in joined)
  }

  lemma JoinTracked(available: PeerList, configured: set<NodeId>, joined: set<NodeId>, peer: PeerData)
    requires Tracked(available, configured, joined)
    ensures var now := if peer.nodeId in configured then available[peer.nodeId := (peer, true)] else available;
            Tracked(now, configured, joined + {peer.nodeId})
  {
  }

  function MembershipAfter(nodeType: NodeType, events: seq<Assignment>): Option<Membership> {
    if events == [] then None
    else MembershipStep(nodeType, MembershipAfter(nodeType, events[..|events| - 1]), events[|events| - 1])
  }

  class ConsensusModule {
    const nodeType: NodeType
    const members: Option<seq<PeerData>>
    var available: PeerList
    var membership: Option<Membership>
    var peerKeys: map<NodeId, nat>  // of the key generation
    ghost var joined: set<NodeId>
    ghost var events: seq<Assignment>

    function Configured(): set<NodeId> {
      if members.Some? then IdsOf(members.value) else {}
    }

    ghost predicate Valid()
      reads this
    {
      Tracked(available, Configured(), joined) && membership == MembershipAfter(nodeType, events)
    }

    constructor (nodeType: NodeType, members: Option<seq<PeerData>>)
      ensures Valid() && joined == {} && events == [] && peerKeys == map[]
      ensures this.nodeType == nodeType && this.members == members
    {
      this.nodeType, this.members, this.membership := nodeType, members, None;
      this.available := if members.Some? then Offline(members.value) else map[];
      this.peerKeys, this.joined, this.events := map[], {}, [];
    }

    method AssignIfAllOnline(iter: IdOrder) returns (r: Option<map<NodeId, Assignment>>)
      requires Valid() && OrdersIds(iter)
      ensures r.Some? <==> nodeType == Bootstrap && Configured() <= joined
      ensures r.Some? ==>
                var order := iter(available.Keys);
                && Enumerates(order, available.Keys)
                && WellAssigned(r.value, OfType(available, order, Validator), OfType(available, order, MinerNode))
    {
      r := None;
      var allOnline := forall n <- available :: available[n].1;
      if allOnline && nodeType == Bootstrap {
        var assignments := AssignPeerListToQuorums(available, iter(available.Keys));
        r := Some(assignments);
      }
    }

    /** Assignments are emitted exactly by a bootstrap node with a quorum
        configuration, once every configured member has joined. */
    method HandleNodeAddedToPeerList(peer: PeerData, iter: IdOrder) returns (r: Option<map<NodeId, Assignment>>)
      requires Valid() && OrdersIds(iter)
      modifies this`available, this`joined, this`peerKeys
      ensures Valid() && joined == old(joined) + {peer.nodeId}
      ensures r.Some? <==> nodeType == Bootstrap && members.Some? && Configured() <= joined
      ensures available ==
              if peer.nodeId in Configured() then old(available)[peer.nodeId := (peer, true)] else old(available)
      ensures peerKeys == if r.Some? then old(peerKeys) else old(peerKeys)[peer.nodeId := peer.publicKey]
      ensures r.Some? ==>
                var order := iter(available.Keys);
                && Enumerates(order, available.Keys)
                && WellAssigned(r.value, OfType(available, order, Validator), OfType(available, order, MinerNode))
    {
      JoinTracked(available, Configured(), joined, peer);
      joined := joined + {peer.nodeId};
      r := None;
      if members.Some? {
        if peer.nodeId in Configured() {
          available := available[peer.nodeId := (peer, true)];
        }
        r := AssignIfAllOnline(iter);
        if r.Some? {
          return;
        }
      }
      peerKeys := peerKeys[peer.nodeId := peer.publicKey];
    }

    method HandleQuorumMembershipAssignmentCreated(a: Assignment) returns (ok: bool)
      requires Valid()
      modifies this`membership, this`events
      ensures Valid() && events == old(events) + [a]
      ensures ok <==> nodeType != Bootstrap && old(membership).None?
      ensures membership == MembershipStep(nodeType, old(membership), a)
      ensures nodeType != Bootstrap ==> membership == Some(MembershipOf(events[0]))
    {
      events := events + [a];
      assert events[..|events| - 1] == old(events);
      FirstMembershipStays(nodeType, events);
      if nodeType == Bootstrap || membership.Some? {
        return false;
      }
      membership := Some(MembershipOf(a));
      ok := true;
    }
  }

  /** Over any run of assignment events a bootstrap node has no membership, and any
      other node has the one of the first event for ever. */
  lemma {:induction false} FirstMembershipStays(nodeType: NodeType, events: seq<Assignment>)
    ensures MembershipAfter(nodeType, events) ==
            if nodeType == Bootstrap || events == [] then None
            else Some(MembershipOf(events[0]))
  {
    if events != [] {
      FirstMembershipStays(nodeType, events[..|events| - 1]);
    }
  }
}
