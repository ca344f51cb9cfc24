/** The set of registered peers. A peer is named by the goroutine that handles it. */
module PeerSets {

  type PeerId = string

  datatype RegisterResult = Registered | PeerSetClosed | AlreadyRegistered

  datatype UnregisterResult = Removed | NotRegistered

  function RegisterOutcome(peers: map<PeerId, nat>, closed: bool, id: PeerId): RegisterResult {
    if closed then PeerSetClosed else if id in peers then AlreadyRegistered else Registered
  }

  /** The ids whose peer carries the useless mark. */
  function UselessIds(peers: map<PeerId, nat>, marked: set<nat>): set<PeerId> {
    set id | id in peers && peers[id] in marked
  }

  class PeerSet {
    var peers: map<PeerId, nat>
    var closed: bool
    var told: set<nat>   // the peers told to disconnect

    constructor ()
      ensures peers == map[] && !closed && told == {}
    {
      peers := map[];
      closed := false;
      told := {};
    }

    /** A second registration under an id is rejected and leaves the first in place. */
    method RegisterPeer(id: PeerId, p: nat) returns (result: RegisterResult)
      modifies this`peers
      ensures result == RegisterOutcome(old(peers), closed, id)
      ensures result == Registered <==> !closed && id !in old(peers)
      ensures result == PeerSetClosed <==> closed
      ensures peers == if result == Registered then old(peers)[id := p] else old(peers)
    {
      if closed {
        return PeerSetClosed;
      }
      if id in peers {
        return AlreadyRegistered;
      }
      peers := peers[id := p];
      return Registered;
    }

    method UnregisterPeer(id: PeerId) returns (result: UnregisterResult)
      modifies this`peers
      ensures result == if id in old(peers) then Removed else NotRegistered
      ensures peers == old(peers) - {id}
    {
      if id !in peers {
        return NotRegistered;
      }
      peers := peers - {id};
      return Removed;
    }

    method UselessNum(marked: set<nat>) returns (num: nat)
      ensures num == |UselessIds(peers, marked)|
    {
      num := 0;
      ghost var counted: set<PeerId> := {};
      var rest := peers.Keys;
      while rest != {}
        invariant rest <= peers.Keys
        invariant counted == UselessIds(peers, marked) - rest && num == |counted|
        decreases rest
      {
        var id :| id in rest;
        rest := rest - {id};
        if peers[id] in marked {
          num := num + 1;
          counted := counted + {id};
        }
      }
      assert counted == UselessIds(peers, marked);
    }

    /** Every peer in the set is told to disconnect, and the set is closed. */
    method Close()
      modifies this`closed, this`told
      ensures closed && told == old(told) + peers.Values
    {
      var rest := peers.Keys;
      ghost var done: set<PeerId> := {};
      while rest != {}
        invariant rest == peers.Keys - done && done <= peers.Keys
        invariant told == old(told) + (set id | id in done :: peers[id])
        invariant closed == old(closed)
        decreases rest
      {
        var id :| id in rest;
        told := told + {peers[id]};
        rest := rest - {id};
        done := done + {id};
      }
      assert done == peers.Keys;
      assert (set id | id in peers.Keys :: peers[id]) == peers.Values;
      closed := true;
    }
  }
}
