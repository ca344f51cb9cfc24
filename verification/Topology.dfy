/**
 The connection advisor: suggestions computed by ranging over a map that is pruned on the way.
 A range loop takes the keys in any order, which the methods report as a ghost result.
 */
module Topology {
  import opened Basics
  import opened Filters
  import opened Reservoir
  import opened Sums

  datatype Entry<+R> = Entry(peers: seq<R>, time: int)

  /** Everything a suggestion depends on: the neighborhood before the call and the clock reading. */
  datatype View<!I(==,!new), !R> = View(entries: map<I, Entry<R>>, now: int, maxAge: int, localId: I, getId: R -> I) {

    predicate Stale(peer: I)
      requires peer in entries
    {
      now - entries[peer].time > maxAge
    }

    /** What pruning leaves behind. */
    ghost function FreshEntries(): map<I, Entry<R>> {
      map peer | peer in entries && !Stale(peer) :: entries[peer]
    }

    /** The neighborhood once the keys in `visited` have been looked at. */
    ghost function Pruned(visited: seq<I>): map<I, Entry<R>> {
      map peer | peer in entries && !(peer in visited && Stale(peer)) :: entries[peer]
    }

    /** The listed peers that are neither local nor among the given keys, in order. */
    ghost function Unknown(peers: seq<R>, keys: set<I>): seq<R> {
      if peers == [] then []
      else
        var last := peers[|peers| - 1];
        Unknown(peers[..|peers| - 1], keys) +
        (if getId(last) == localId || getId(last) in keys then [] else [last])
    }

    /** The candidate occurrences met when the keys are visited in `order`. */
    ghost function Candidates(order: seq<I>): seq<R>
      requires forall k :: k in order ==> k in entries
    {
      if order == [] then []
      else
        var visited, peer := order[..|order| - 1], order[|order| - 1];
        assert peer in order && forall k :: k in visited ==> k in order;
        Candidates(visited) +
        (if Stale(peer) then [] else Unknown(entries[peer].peers, Pruned(visited).Keys))
    }

    ghost function Occurrences(peers: seq<R>, id: I): nat {
      if peers == [] then 0
      else Occurrences(peers[..|peers| - 1], id) + (if getId(peers[|peers| - 1]) == id then 1 else 0)
    }

    /** What the redundancy count of `id` is once the keys in `order` have been visited. */
    ghost function Counted(order: seq<I>, id: I): nat
      requires forall k :: k in order ==> k in entries
    {
      if order == [] then 0
      else
        var visited, peer := order[..|order| - 1], order[|order| - 1];
        assert peer in order && forall k :: k in visited ==> k in order;
        Counted(visited, id) +
        (if Stale(peer) || id !in Pruned(visited) then 0 else Occurrences(entries[peer].peers, id))
    }

    /** The strangers of a list are those it names with an id that is neither local nor a key, in order. */
    lemma {:induction false} UnknownIsFilter(peers: seq<R>, keys: set<I>)
      ensures Unknown(peers, keys) ==
              FilterAt(peers, i => 0 <= i < |peers| && getId(peers[i]) != localId && getId(peers[i]) !in keys)
    {
      if peers == [] {
      } else {
        var init := peers[..|peers| - 1];
        UnknownIsFilter(init, keys);
        FilterAtAgrees(init, i => 0 <= i < |init| && getId(init[i]) != localId && getId(init[i]) !in keys,
                       i => 0 <= i < |peers| && getId(peers[i]) != localId && getId(peers[i]) !in keys);
      }
    }

    /** The places at which a list names `id`. */
    ghost function Places(peers: seq<R>, id: I): set<nat> {
      set i: nat | i < |peers| && getId(peers[i]) == id
    }

    lemma {:induction false} OccurrencesMeans(peers: seq<R>, id: I)
      ensures Occurrences(peers, id) == |Places(peers, id)|
    {
      if peers == [] {
        assert Places(peers, id) == {};
      } else {
        var n := |peers| - 1;
        OccurrencesMeans(peers[..n], id);
        assert Places(peers, id) == Places(peers[..n], id) + (if getId(peers[n]) == id then {n} else {});
      }
    }

    lemma UnknownStep(peers: seq<R>, i: nat, keys: set<I>)
      requires i < |peers|
      ensures Unknown(peers[..i + 1], keys) ==
              Unknown(peers[..i], keys) +
              (if getId(peers[i]) == localId || getId(peers[i]) in keys then [] else [peers[i]])
    {
      assert peers[..i + 1][..i] == peers[..i];
    }

    lemma CandidatesStep(visited: seq<I>, peer: I)
      requires peer in entries && forall k :: k in visited ==> k in entries
      ensures Candidates(visited + [peer]) ==
              Candidates(visited) +
              (if Stale(peer) then [] else Unknown(entries[peer].peers, Pruned(visited).Keys))
    {
      var order := visited + [peer];
      assert order[..|order| - 1] == visited;
    }

    lemma CountedStep(visited: seq<I>, peer: I, id: I)
      requires peer in entries && forall k :: k in visited ==> k in entries
      ensures Counted(visited + [peer], id) ==
              Counted(visited, id) +
              (if Stale(peer) || id !in Pruned(visited) then 0 else Occurrences(entries[peer].peers, id))
    {
      var order := visited + [peer];
      assert order[..|order| - 1] == visited;
    }

    /** The same reading after a report of `peer` that came in at `time`. */
    ghost function With(peer: I, peers: seq<R>, time: int): View<I, R> {
      this.(entries := entries[peer := Entry(peers, time)])
    }

    lemma WithAges(peer: I, peers: seq<R>, time: int)
      ensures With(peer, peers, time).FreshEntries() ==
              if now - time > maxAge then FreshEntries() - {peer} else FreshEntries()[peer := Entry(peers, time)]
    {
      var after := With(peer, peers, time);
      assert forall k :: k in entries && k != peer ==> k in after.entries && after.Stale(k) == Stale(k);
      assert after.Stale(peer) <==> now - time > maxAge;
    }

    /** How often `id` is listed by the fresh entry of a peer. */
    ghost function Mentions(id: I): I -> nat {
      peer => if peer in entries && !Stale(peer) then Occurrences(entries[peer].peers, id) else 0
    }
  }

  function Get<I(==)>(count: map<I, nat>, id: I): nat {
    if id in count then count[id] else 0
  }

  class ConnectionAdvisor<I(==,!new), R> {
    var neighborhood: map<I, Entry<R>>
    const localId: I
    const maxPeerInfoAge: int
    const getId: R -> I

    constructor (localId: I, maxPeerInfoAge: int, getId: R -> I)
      ensures neighborhood == map[]
      ensures this.localId == localId && this.maxPeerInfoAge == maxPeerInfoAge && this.getId == getId
    {
      this.neighborhood := map[];
      this.localId := localId;
      this.maxPeerInfoAge := maxPeerInfoAge;
      this.getId := getId;
    }

    ghost function At(now: int): View<I, R>
      reads this
    {
      View(neighborhood, now, maxPeerInfoAge, localId, getId)
    }

    /** The peer's list replaces any earlier one, and every reading sees it until it is too old. */
    method UpdatePeers(peer: I, peers: seq<R>, now: int)
      modifies this`neighborhood
      ensures neighborhood == old(neighborhood)[peer := Entry(peers, now)]
      ensures forall later :: At(later).FreshEntries() ==
                if later - now > maxPeerInfoAge then old(At(later)).FreshEntries() - {peer}
                else old(At(later)).FreshEntries()[peer := Entry(peers, now)]
    {
      forall later
        ensures At(later).With(peer, peers, now).FreshEntries() ==
                if later - now > maxPeerInfoAge then At(later).FreshEntries() - {peer}
                else At(later).FreshEntries()[peer := Entry(peers, now)]
      {
        At(later).WithAges(peer, peers, now);
      }
      neighborhood := neighborhood[peer := Entry(peers, now)];
    }

    /** The inner loop over one fresh entry. */
    method SampleEntry(peers: seq<R>, candidate0: Option<R>, count0: nat,
                       ghost before: seq<R>, ghost draws0: seq<nat>, ghost view: View<I, R>)
      returns (candidate: Option<R>, count: nat, ghost draws: seq<nat>)
      requires view.localId == localId && view.getId == getId
      requires IsDrawing(draws0, |before|) && count0 == |before| && candidate0 == Pick(before, draws0)
      ensures var after := before + view.Unknown(peers, neighborhood.Keys);
              IsDrawing(draws, |after|) && count == |after| && candidate == Pick(after, draws)
    {
      candidate, count, draws := candidate0, count0, draws0;
      var i := 0;
      ghost var seen := before;
      assert view.Unknown([], neighborhood.Keys) == [];
      hide Pick, IsDrawing, View.Unknown;
      while i < |peers|
        invariant 0 <= i <= |peers|
        invariant seen == before + view.Unknown(peers[..i], neighborhood.Keys)
        invariant |draws| == |seen| == count
        invariant IsDrawing(draws, count) && candidate == Pick(seen, draws)
      {
        var p := peers[i];
        view.UnknownStep(peers, i, neighborhood.Keys);
        if getId(p) != localId && getId(p) !in neighborhood {
          var draw: nat :| draw < count + 1;
          PickOneMore(seen, draws, p, draw);
          count := count + 1;
          if draw == 0 {
            candidate := Some(p);
          }
          seen, draws := seen + [p], draws + [draw];
        }
        i := i + 1;
      }
      assert peers[..i] == peers;
    }

    /** The result is what the draws select among the candidates met in the order taken. */
    method GetNewPeerSuggestion(now: int)
      returns (suggestion: Option<R>, ghost order: seq<I>, ghost draws: seq<nat>)
      modifies this`neighborhood
      ensures IsOrderOf(order, old(neighborhood).Keys)
      ensures IsDrawing(draws, |old(At(now)).Candidates(order)|)
      ensures suggestion == Pick(old(At(now)).Candidates(order), draws)
      ensures neighborhood == old(At(now)).FreshEntries()
    {
      ghost var view := At(now);
      var candidate: Option<R> := None;
      var count := 0;
      order, draws := [], [];
      var rest := neighborhood.Keys;
      while rest != {}
        invariant rest <= view.entries.Keys
        invariant Distinct(order) && forall k :: k in order <==> k in view.entries && k !in rest
        invariant neighborhood == view.Pruned(order)
        invariant count == |draws| && IsDrawing(draws, |view.Candidates(order)|)
        invariant candidate == Pick(view.Candidates(order), draws)
        decreases rest
      {
        var peer :| peer in rest;
        var entry := neighborhood[peer];
        rest := rest - {peer};
        ghost var visited := order;
        order := order + [peer];
        assert order[..|order| - 1] == visited;
        if now - entry.time > maxPeerInfoAge {
          neighborhood := neighborhood - {peer};
          assert view.Candidates(order) == view.Candidates(visited);
        } else {
          candidate, count, draws :=
            SampleEntry(entry.peers, candidate, count, view.Candidates(visited), draws, view);
        }
      }
      suggestion := candidate;
    }

    method CountEntry(peers: seq<R>, count0: map<I, nat>, ghost view: View<I, R>)
      returns (count: map<I, nat>)
      requires view.getId == getId
      requires forall id :: id in count0 ==> count0[id] > 0
      ensures forall id :: id in count ==> count[id] > 0
      ensures forall id :: Get(count, id) ==
                Get(count0, id) + (if id in neighborhood then view.Occurrences(peers, id) else 0)
    {
      count := count0;
      var i := 0;
      while i < |peers|
        invariant 0 <= i <= |peers|
        invariant forall id :: id in count ==> count[id] > 0
        invariant forall id :: Get(count, id) ==
                    Get(count0, id) + (if id in neighborhood then view.Occurrences(peers[..i], id) else 0)
      {
        var id := getId(peers[i]);
        assert peers[..i + 1][..i] == peers[..i];
        if id in neighborhood {
          count := count[id := Get(count, id) + 1];
        }
        i := i + 1;
      }
      assert peers[..i] == peers;
    }

    /** The first loop: prunes, and counts the connections of every remaining neighbor. */
    method CountConnections(now: int) returns (count: map<I, nat>, ghost order: seq<I>)
      modifies this`neighborhood
      ensures IsOrderOf(order, old(neighborhood).Keys)
      ensures neighborhood == old(At(now)).FreshEntries()
      ensures forall id :: id in count ==> count[id] > 0
      ensures forall id :: Get(count, id) == old(At(now)).Counted(order, id)
    {
      ghost var view := At(now);
      count := map[];
      order := [];
      var rest := neighborhood.Keys;
      while rest != {}
        invariant rest <= view.entries.Keys
        invariant Distinct(order) && forall k :: k in order <==> k in view.entries && k !in rest
        invariant neighborhood == view.Pruned(order)
        invariant forall id :: id in count ==> count[id] > 0
        invariant forall id :: Get(count, id) == view.Counted(order, id)
        decreases rest
      {
        var peer :| peer in rest;
        var entry := neighborhood[peer];
        rest := rest - {peer};
        ghost var visited, before := order, count;
        order := order + [peer];
        if now - entry.time > maxPeerInfoAge {
          neighborhood := neighborhood - {peer};
        } else {
          count := CountEntry(entry.peers, count, view);
        }
        forall id
          ensures Get(count, id) == view.Counted(order, id)
        {
          view.CountedStep(visited, peer, id);
        }
      }
    }

    /** `ties` are the ids of the final tie list; any of them may be the one returned. */
    method GetRedundantPeerSuggestion(now: int)
      returns (suggestion: Option<I>, ghost order: seq<I>, ghost ties: seq<I>)
      modifies this`neighborhood
      ensures IsOrderOf(order, old(neighborhood).Keys)
      ensures neighborhood == old(At(now)).FreshEntries()
      ensures IsTieList(old(At(now)), order, ties)
      ensures if ties == [] then suggestion == None else suggestion.Some? && suggestion.value in ties
    {
      var count: map<I, nat>;
      count, order := CountConnections(now);
      ghost var counted := count;
      count := count - {localId};
      var maxPeers := MostCounted(count);
      ties := maxPeers;
      TiesAreExact(old(At(now)), order, counted, ties);
      if |maxPeers| == 0 {
        return None, order, ties;
      }
      var selected: nat :| selected < |maxPeers|;
      suggestion := Some(maxPeers[selected]);
    }
  }

  ghost predicate IsHighest<I(!new)>(count: map<I, nat>, id: I) {
    id in count && forall other :: other in count ==> count[other] <= count[id]
  }

  /** The second loop: the keys of `count` with the highest count, each once. */
  method MostCounted<I(==,!new)>(count: map<I, nat>) returns (maxPeers: seq<I>)
    requires forall id :: id in count ==> count[id] > 0
    ensures Distinct(maxPeers)
    ensures forall id :: id in maxPeers <==> IsHighest(count, id)
  {
    var maxCount := 0;
    maxPeers := [];
    var rest := count.Keys;
    while rest != {}
      invariant rest <= count.Keys
      invariant forall id :: id in count && id !in rest ==> count[id] <= maxCount
      invariant Distinct(maxPeers)
      invariant forall id :: id in maxPeers <==> id in count && id !in rest && count[id] == maxCount
      invariant maxPeers == [] <==> maxCount == 0
      invariant rest == count.Keys || maxCount > 0
      decreases rest
    {
      var peer :| peer in rest;
      rest := rest - {peer};
      var c := count[peer];
      if c > maxCount {
        maxCount := c;
        maxPeers := [peer];
      } else if c == maxCount && maxCount > 0 {
        maxPeers := maxPeers + [peer];
      }
    }
    assert maxPeers != [] ==> maxPeers[0] in maxPeers;
  }

  ghost predicate IsArgmax<I(!new), R>(view: View<I, R>, order: seq<I>, id: I)
    requires forall k :: k in order ==> k in view.entries
  {
    && id != view.localId && view.Counted(order, id) > 0
    && forall other :: other != view.localId ==> view.Counted(order, other) <= view.Counted(order, id)
  }

  /** The non-local ids with the highest positive count, each once. */
  ghost predicate IsTieList<I(!new), R>(view: View<I, R>, order: seq<I>, ties: seq<I>)
    requires forall k :: k in order ==> k in view.entries
  {
    Distinct(ties) && forall id :: id in ties <==> IsArgmax(view, order, id)
  }

  lemma TiesAreExact<I(!new), R>(view: View<I, R>, order: seq<I>, counted: map<I, nat>, ties: seq<I>)
    requires forall k :: k in order ==> k in view.entries
    requires forall id :: id in counted ==> counted[id] > 0
    requires forall id :: Get(counted, id) == view.Counted(order, id)
    requires Distinct(ties) && forall id :: id in ties <==> IsHighest(counted - {view.localId}, id)
    ensures IsTieList(view, order, ties)
  {
    var others := counted - {view.localId};
    forall x {:trigger view.Counted(order, x)}
      ensures x in others <==> x != view.localId && view.Counted(order, x) > 0
      ensures x in others ==> others[x] == view.Counted(order, x)
    {
      assert Get(counted, x) == view.Counted(order, x);
    }
    forall id
      ensures IsHighest(others, id) ==> IsArgmax(view, order, id)
      ensures IsArgmax(view, order, id) ==> IsHighest(others, id)
    {
      assert id in others <==> id != view.localId && view.Counted(order, id) > 0;
      if IsHighest(others, id) {
        forall other | other != view.localId
          ensures view.Counted(order, other) <= view.Counted(order, id)
        {
          assert other in others <==> view.Counted(order, other) > 0;
        }
      }
      if IsArgmax(view, order, id) {
        forall other | other in others
          ensures others[other] <= others[id]
        {
          assert others[other] == view.Counted(order, other);
        }
      }
    }
  }

  // What the suggestions mean, whatever the order of the keys.

  lemma {:induction false} UnknownMeans<I(!new), R>(view: View<I, R>, peers: seq<R>, keys: set<I>, p: R)
    ensures p in view.Unknown(peers, keys) <==>
            p in peers && view.getId(p) != view.localId && view.getId(p) !in keys
  {
    if peers == [] {
    } else {
      var init := peers[..|peers| - 1];
      UnknownMeans(view, init, keys, p);
      assert peers == init + [peers[|peers| - 1]];
    }
  }

  /** `p` is listed, as a stranger, by the fresh entry visited at position `n`. */
  ghost predicate ListedAt<I(!new), R>(view: View<I, R>, order: seq<I>, n: nat, p: R)
    requires n < |order| && order[n] in view.entries
  {
    && !view.Stale(order[n])
    && p in view.entries[order[n]].peers
    && view.getId(p) != view.localId
    && (view.getId(p) in view.entries ==> view.Stale(view.getId(p)) && view.getId(p) in order[..n])
  }

  ghost predicate Listed<I(!new), R>(view: View<I, R>, order: seq<I>, p: R)
    requires forall k :: k in order ==> k in view.entries
  {
    exists n :: 0 <= n < |order| && ListedAt(view, order, n, p)
  }

  lemma ListedGrows<I(!new), R>(view: View<I, R>, visited: seq<I>, peer: I, p: R)
    requires peer in view.entries && forall k :: k in visited ==> k in view.entries
    ensures Listed(view, visited + [peer], p) <==>
            Listed(view, visited, p) || ListedAt(view, visited + [peer], |visited|, p)
  {
    var order := visited + [peer];
    assert forall n :: 0 <= n < |visited| ==> order[..n] == visited[..n] && order[n] == visited[n];
    if Listed(view, visited, p) {
      var n :| 0 <= n < |visited| && ListedAt(view, visited, n, p);
      assert ListedAt(view, order, n, p);
    }
    if Listed(view, order, p) {
      var n :| 0 <= n < |order| && ListedAt(view, order, n, p);
      assert n < |visited| ==> ListedAt(view, visited, n, p);
    }
  }

  lemma CandidatesGrow<I(!new), R>(view: View<I, R>, visited: seq<I>, peer: I, p: R)
    requires peer in view.entries && forall k :: k in visited ==> k in view.entries
    ensures p in view.Candidates(visited + [peer]) <==>
            p in view.Candidates(visited) || ListedAt(view, visited + [peer], |visited|, p)
  {
    assert (visited + [peer])[..|visited|] == visited;
    view.CandidatesStep(visited, peer);
    UnknownMeans(view, view.entries[peer].peers, view.Pruned(visited).Keys, p);
    hide View.Candidates, View.Unknown;
  }

  /**
   Exactly which peers are candidates: those that a fresh entry lists, that are not local, and whose
   id is no key of the map, or is a stale key that was visited before that entry.
   */
  lemma {:induction false} CandidateIff<I(!new), R>(view: View<I, R>, order: seq<I>, p: R)
    requires forall k :: k in order ==> k in view.entries
    ensures p in view.Candidates(order) <==> Listed(view, order, p)
  {
    if order == [] {
    } else {
      var m := |order| - 1;
      var visited, peer := order[..m], order[m];
      assert peer in order && forall k :: k in visited ==> k in order;
      assert order == visited + [peer];
      hide Listed, ListedAt, View.Candidates;
      CandidateIff(view, visited, p);
      CandidatesGrow(view, visited, peer, p);
      ListedGrows(view, visited, peer, p);
    }
  }

  ghost function Pairs<K>(k: K, s: set<nat>): set<(K, nat)> {
    set i | i in s :: (k, i)
  }

  lemma {:induction false} PairsSize<K>(k: K, s: set<nat>)
    ensures |Pairs(k, s)| == |s|
  {
    if s == {} {
      assert Pairs(k, s) == {};
    } else {
      var i0 :| i0 in s;
      PairsSize(k, s - {i0});
      assert Pairs(k, s) == Pairs(k, s - {i0}) + {(k, i0)};
      assert (k, i0) !in Pairs(k, s - {i0});
    }
  }

  ghost function PlacesOf<R>(peers: seq<R>, p: R): set<nat> {
    set i: nat | i < |peers| && peers[i] == p
  }

  lemma {:induction false} UnknownOccurrences<I(!new), R>(view: View<I, R>, peers: seq<R>, keys: set<I>, p: R)
    ensures multiset(view.Unknown(peers, keys))[p] ==
            if view.getId(p) != view.localId && view.getId(p) !in keys then |PlacesOf(peers, p)| else 0
  {
    if peers == [] {
      assert PlacesOf(peers, p) == {};
    } else {
      var n := |peers| - 1;
      var last := peers[n];
      UnknownOccurrences(view, peers[..n], keys, p);
      PlacesOfGrow(peers, p);
      var added := if view.getId(last) == view.localId || view.getId(last) in keys then [] else [last];
      assert view.Unknown(peers, keys) == view.Unknown(peers[..n], keys) + added;
      hide PlacesOf, View.Unknown;
      assert multiset(added)[p] == if added != [] && last == p then 1 else 0;
    }
  }

  lemma PlacesOfGrow<R>(peers: seq<R>, p: R)
    requires peers != []
    ensures var n := |peers| - 1; |PlacesOf(peers, p)| == |PlacesOf(peers[..n], p)| + (if peers[n] == p then 1 else 0)
  {
    var n := |peers| - 1;
    assert PlacesOf(peers, p) == PlacesOf(peers[..n], p) + (if peers[n] == p then {n} else {});
  }

  /** The places at which `p` is met as a candidate: the turn of the entry, and the position in its list. */
  ghost function CandidatePlaces<I(!new), R>(view: View<I, R>, order: seq<I>, p: R): set<(nat, nat)>
    requires forall k :: k in order ==> k in view.entries
  {
    set n: nat, i: nat | n < |order| && ListedAt(view, order, n, p) && i in PlacesOf(view.entries[order[n]].peers, p)
      :: (n, i)
  }

  lemma CandidatePlacesGrow<I(!new), R>(view: View<I, R>, visited: seq<I>, peer: I, p: R)
    requires peer in view.entries && forall k :: k in visited ==> k in view.entries
    ensures var order := visited + [peer];
            var m: nat := |visited|;
            var added := if ListedAt(view, order, m, p) then Pairs(m, PlacesOf(view.entries[peer].peers, p)) else {};
            && CandidatePlaces(view, order, p) == CandidatePlaces(view, visited, p) + added
            && CandidatePlaces(view, visited, p) !! added
  {
    var order := visited + [peer];
    forall n: nat | n < |visited|
      ensures ListedAt(view, order, n, p) <==> ListedAt(view, visited, n, p)
    {
      assert order[..n] == visited[..n] && order[n] == visited[n];
    }
    hide ListedAt;
    var m: nat := |visited|;
    var added := if ListedAt(view, order, m, p) then Pairs(m, PlacesOf(view.entries[peer].peers, p)) else {};
    forall q | q in CandidatePlaces(view, order, p)
      ensures q in CandidatePlaces(view, visited, p) + added
    {
      assert q == (q.0, q.1);
    }
    forall q | q in added
      ensures q in CandidatePlaces(view, order, p) && q !in CandidatePlaces(view, visited, p)
    {
      assert q == (|visited|, q.1);
    }
  }

  /** The draws are held among all places at which a candidate is met: each of them is met once. */
  lemma {:induction false} CandidateOccurrences<I(!new), R>(view: View<I, R>, order: seq<I>, p: R)
    requires forall k :: k in order ==> k in view.entries
    ensures multiset(view.Candidates(order))[p] == |CandidatePlaces(view, order, p)|
  {
    if order == [] {
      assert CandidatePlaces(view, order, p) == {};
    } else {
      var m: nat := |order| - 1;
      var visited, peer := order[..m], order[m];
      assert peer in order && forall k :: k in visited ==> k in order;
      assert order == visited + [peer];
      CandidateOccurrences(view, visited, p);
      CandidatesStepCounted(view, visited, peer, p);
      CandidatePlacesGrow(view, visited, peer, p);
      PairsSize(m, PlacesOf(view.entries[peer].peers, p));
      hide ListedAt, View.Candidates, CandidatePlaces, Pairs, PlacesOf;
    }
  }

  lemma CandidatesStepCounted<I(!new), R>(view: View<I, R>, visited: seq<I>, peer: I, p: R)
    requires peer in view.entries && forall k :: k in visited ==> k in view.entries
    ensures multiset(view.Candidates(visited + [peer]))[p] ==
            multiset(view.Candidates(visited))[p] +
            (if ListedAt(view, visited + [peer], |visited|, p) then |PlacesOf(view.entries[peer].peers, p)| else 0)
  {
    assert (visited + [peer])[..|visited|] == visited;
    view.CandidatesStep(visited, peer);
    UnknownOccurrences(view, view.entries[peer].peers, view.Pruned(visited).Keys, p);
    hide View.Candidates, View.Unknown;
    if |PlacesOf(view.entries[peer].peers, p)| > 0 {
      var i :| i in PlacesOf(view.entries[peer].peers, p);
    }
    assert p !in view.entries[peer].peers ==> PlacesOf(view.entries[peer].peers, p) == {};
  }

  /**
   Sound and complete, for any order and any draws: a suggested peer comes from a fresh entry, is
   not the local node and no fresh neighbor; and when a fresh entry names a non-local id that was
   not a key before the call, a peer is suggested.
   */
  lemma NewPeerSuggestionIsRight<I(!new), R>(view: View<I, R>, order: seq<I>, draws: seq<nat>)
    requires IsOrderOf(order, view.entries.Keys) && IsDrawing(draws, |view.Candidates(order)|)
    ensures var suggestion := Pick(view.Candidates(order), draws);
            && (suggestion.Some? ==>
                  && view.getId(suggestion.value) != view.localId
                  && view.getId(suggestion.value) !in view.FreshEntries()
                  && exists peer :: peer in view.FreshEntries() && suggestion.value in view.FreshEntries()[peer].peers)
            && ((exists peer, p :: peer in view.FreshEntries() && p in view.FreshEntries()[peer].peers
                                   && view.getId(p) != view.localId && view.getId(p) !in view.entries)
                ==> suggestion.Some?)
  {
    PickIsChosen(view.Candidates(order), draws);
    var suggestion := Pick(view.Candidates(order), draws);
    if suggestion.Some? {
      var p := suggestion.value;
      CandidateIff(view, order, p);
      var n :| 0 <= n < |order| && ListedAt(view, order, n, p);
      assert order[n] in view.FreshEntries();
    }
    if peer, p :| peer in view.FreshEntries() && p in view.FreshEntries()[peer].peers
                  && view.getId(p) != view.localId && view.getId(p) !in view.entries {
      CandidateIff(view, order, p);
      ListedFindsPlace(view, order, peer, p);
    }
  }

  /**
   A report takes effect at once and for as long as it is fresh: whoever reported is no longer
   suggested, and if the report names a stranger, some peer is, for any order and any draws.
   */
  lemma ReportTakesEffect<I(!new), R>(before: View<I, R>, peer: I, peers: seq<R>, time: int, order: seq<I>,
                            draws: seq<nat>)
    requires before.now - time <= before.maxAge
    requires var view := before.With(peer, peers, time);
             IsOrderOf(order, view.entries.Keys) && IsDrawing(draws, |view.Candidates(order)|)
    ensures var suggestion := Pick(before.With(peer, peers, time).Candidates(order), draws);
            && (suggestion.Some? ==> before.getId(suggestion.value) != peer)
            && ((exists p :: p in peers && before.getId(p) !in {before.localId, peer} &&
                             before.getId(p) !in before.entries)
                ==> suggestion.Some?)
  {
    var view := before.With(peer, peers, time);
    before.WithAges(peer, peers, time);
    NewPeerSuggestionIsRight(view, order, draws);
    if p :| p in peers && before.getId(p) !in {before.localId, peer} && before.getId(p) !in before.entries {
      assert peer in view.FreshEntries() && p in view.FreshEntries()[peer].peers;
    }
  }

  /** How often each stranger is listed by the entry of a key, when nothing is pruned. */
  ghost function Listings<I(!new), R(!new)>(view: View<I, R>, p: R): I -> nat {
    (k: I) => if k in view.entries then multiset(view.Unknown(view.entries[k].peers, view.entries.Keys))[p] else 0
  }

  lemma {:induction false} CandidatesCounted<I(!new), R(!new)>(view: View<I, R>, order: seq<I>, p: R)
    requires forall k :: k in order ==> k in view.entries
    requires forall k :: k in view.entries ==> !view.Stale(k)
    ensures multiset(view.Candidates(order))[p] == Sum(order, Listings(view, p))
  {
    if order == [] {
    } else {
      var m := |order| - 1;
      var visited, peer := order[..m], order[m];
      assert peer in order && forall k :: k in visited ==> k in order;
      assert order == visited + [peer];
      CandidatesCounted(view, visited, p);
      view.CandidatesStep(visited, peer);
      SumAppend(visited, Listings(view, p), peer);
      assert view.Pruned(visited) == view.entries;
    }
  }

  /**
   Without stale entries the order of the keys matters neither to who is a candidate nor, since every
   occurrence has the same chance, to how likely each of them is.
   */
  lemma OccurrencesIgnoreOrder<I(!new), R(!new)>(view: View<I, R>, order: seq<I>, other: seq<I>)
    requires IsOrderOf(order, view.entries.Keys) && IsOrderOf(other, view.entries.Keys)
    requires forall k :: k in view.entries ==> !view.Stale(k)
    ensures multiset(view.Candidates(order)) == multiset(view.Candidates(other))
    ensures |view.Candidates(order)| == |view.Candidates(other)|
  {
    forall p: R
      ensures multiset(view.Candidates(order))[p] == multiset(view.Candidates(other))[p]
    {
      CandidatesCounted(view, order, p);
      CandidatesCounted(view, other, p);
      SumOfOrders(order, other, view.entries.Keys, Listings(view, p));
    }
    assert multiset(view.Candidates(order)) == multiset(view.Candidates(other));
    assert |multiset(view.Candidates(order))| == |view.Candidates(order)|;
    assert |multiset(view.Candidates(other))| == |view.Candidates(other)|;
  }

  /** Without stale entries the order of the keys cannot matter to who is a candidate. */
  lemma CandidatesIgnoreOrder<I(!new), R>(view: View<I, R>, order: seq<I>, other: seq<I>, p: R)
    requires IsOrderOf(order, view.entries.Keys) && IsOrderOf(other, view.entries.Keys)
    requires forall k :: k in view.entries ==> !view.Stale(k)
    ensures p in view.Candidates(order) ==> p in view.Candidates(other)
  {
    CandidateIff(view, order, p);
    CandidateIff(view, other, p);
    if Listed(view, order, p) {
      var n :| 0 <= n < |order| && ListedAt(view, order, n, p);
      assert order[n] in view.entries.Keys;
      ListedFindsPlace(view, other, order[n], p);
    }
  }

  lemma ListedFindsPlace<I(!new), R>(view: View<I, R>, order: seq<I>, peer: I, p: R)
    requires IsOrderOf(order, view.entries.Keys) && peer in view.entries && !view.Stale(peer)
    requires p in view.entries[peer].peers && view.getId(p) != view.localId
    requires view.getId(p) !in view.entries
    ensures Listed(view, order, p)
  {
    var n :| 0 <= n < |order| && order[n] == peer;
    assert ListedAt(view, order, n, p);
  }

  /**
   A key's count is at most the number of times that fresh entries list it, and exactly that number
   when the key is fresh; an id that is no key is not counted.
   */
  lemma {:induction false} CountedMeans<I(!new), R>(view: View<I, R>, order: seq<I>, id: I)
    requires forall k :: k in order ==> k in view.entries
    ensures view.Counted(order, id) <= Sum(order, view.Mentions(id))
    ensures id in view.FreshEntries() ==> view.Counted(order, id) == Sum(order, view.Mentions(id))
    ensures id !in view.entries ==> view.Counted(order, id) == 0
  {
    if order == [] {
    } else {
      var m := |order| - 1;
      assert order[m] in order && forall k :: k in order[..m] ==> k in order;
      assert order == order[..m] + [order[m]];
      CountedMeans(view, order[..m], id);
      SumAppend(order[..m], view.Mentions(id), order[m]);
      view.CountedStep(order[..m], order[m], id);
      hide View.Counted, View.Occurrences, Sum;
    }
  }

  /** The places at which fresh entries name `id`: the key of the entry, and the position in its list. */
  ghost function Namings<I(!new), R>(view: View<I, R>, keys: set<I>, id: I): set<(I, nat)> {
    set k, i: nat | k in keys && k in view.entries && view.now - view.entries[k].time <= view.maxAge &&
                    i < |view.entries[k].peers| && view.getId(view.entries[k].peers[i]) == id :: (k, i)
  }

  /** What one more entry adds. */
  lemma NamingsGrow<I(!new), R>(view: View<I, R>, keys: set<I>, k: I, id: I)
    requires k in view.entries && k !in keys
    ensures |Namings(view, keys + {k}, id)| == |Namings(view, keys, id)| + view.Mentions(id)(k)
  {
    var places := view.Places(view.entries[k].peers, id);
    view.OccurrencesMeans(view.entries[k].peers, id);
    PairsSize(k, places);
    NamingsSplit(view, keys, k, id);
    hide Namings, Pairs;
  }

  lemma NamingsSplit<I(!new), R>(view: View<I, R>, keys: set<I>, k: I, id: I)
    requires k in view.entries && k !in keys
    ensures var added := if view.Stale(k) then {} else Pairs(k, view.Places(view.entries[k].peers, id));
            Namings(view, keys + {k}, id) == Namings(view, keys, id) + added && Namings(view, keys, id) !! added
  {
    var added := if view.Stale(k) then {} else Pairs(k, view.Places(view.entries[k].peers, id));
    forall p | p in Namings(view, keys + {k}, id)
      ensures p in Namings(view, keys, id) + added
    {
      assert p == (p.0, p.1);
    }
    forall p | p in added
      ensures p in Namings(view, keys + {k}, id) && p !in Namings(view, keys, id)
    {
      assert p == (k, p.1);
    }
  }

  lemma {:induction false} MentionsCounted<I(!new), R>(view: View<I, R>, order: seq<I>, id: I)
    requires Distinct(order) && forall k :: k in order ==> k in view.entries
    ensures Sum(order, view.Mentions(id)) == |Namings(view, (set k | k in order), id)|
  {
    if order == [] {
      assert Namings(view, (set k | k in order), id) == {};
    } else {
      var m := |order| - 1;
      var init := order[..m];
      assert order == init + [order[m]];
      MentionsCounted(view, init, id);
      SumAppend(init, view.Mentions(id), order[m]);
      NamingsGrow(view, (set k | k in init), order[m], id);
      assert (set k | k in order) == (set k | k in init) + {order[m]};
    }
  }

  /**
   The counts in plain terms, for every order: a fresh key is counted once for each place at which a
   fresh entry names it, a stale key at most as often, and nobody else at all.
   */
  lemma CountedIsNamings<I(!new), R>(view: View<I, R>, order: seq<I>, id: I)
    requires IsOrderOf(order, view.entries.Keys)
    ensures view.Counted(order, id) <= |Namings(view, view.entries.Keys, id)|
    ensures id in view.entries && view.now - view.entries[id].time <= view.maxAge ==>
              view.Counted(order, id) == |Namings(view, view.entries.Keys, id)|
    ensures id !in view.entries ==> view.Counted(order, id) == 0
  {
    CountedMeans(view, order, id);
    MentionsCounted(view, order, id);
    assert (set k | k in order) == view.entries.Keys;
  }

  /** Exactly who may be suggested as redundant when nothing is stale: the keys named most often. */
  lemma TiesAreMostNamed<I(!new), R>(view: View<I, R>, order: seq<I>, ties: seq<I>, id: I)
    requires IsOrderOf(order, view.entries.Keys) && IsTieList(view, order, ties)
    requires forall k :: k in view.entries ==> view.now - view.entries[k].time <= view.maxAge
    ensures id in ties <==>
            && id != view.localId && id in view.entries
            && |Namings(view, view.entries.Keys, id)| > 0
            && forall other :: other in view.entries && other != view.localId ==>
                 |Namings(view, view.entries.Keys, other)| <= |Namings(view, view.entries.Keys, id)|
  {
    forall x
      ensures view.Counted(order, x) ==
              if x in view.entries then |Namings(view, view.entries.Keys, x)| else 0
    {
      CountedIsNamings(view, order, x);
    }
    hide View.Counted, Namings;
  }

  /** Without stale entries the counts, and so the tie list, do not depend on the order. */
  lemma TiesIgnoreOrder<I(!new), R>(view: View<I, R>, order: seq<I>, other: seq<I>, id: I)
    requires IsOrderOf(order, view.entries.Keys) && IsOrderOf(other, view.entries.Keys)
    requires forall k :: k in view.entries ==> !view.Stale(k)
    ensures view.Counted(order, id) == view.Counted(other, id)
    ensures IsArgmax(view, order, id) == IsArgmax(view, other, id)
  {
    forall x
      ensures view.Counted(order, x) == view.Counted(other, x)
    {
      CountedMeans(view, order, x);
      CountedMeans(view, other, x);
      SumOfOrders(order, other, view.entries.Keys, view.Mentions(x));
    }
  }
}
