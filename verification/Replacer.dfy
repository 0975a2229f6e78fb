/** LRU-K victim selection (buffer/replacer.rs). */
module Replacer {
  import opened Prelude

  type FrameId = nat

  const U64_MAX: nat := 0xFFFF_FFFF_FFFF_FFFF

  const HALF_RANGE: nat := 0x8000_0000_0000_0000

  /** `history` holds the times of the last k accesses, oldest first. */
  datatype LRUKNode = LRUKNode(history: seq<nat>, isEvictable: bool)

  // ---- the access log: `log[t]` is the frame accessed at time t ---------------------------------

  /** The times at or after `since` at which `frame` was accessed, oldest first. */
  ghost function Accesses(log: seq<FrameId>, frame: FrameId, since: nat): seq<nat> {
    if |log| <= since then []
    else
      var last := |log| - 1;
      Accesses(log[..last], frame, since) + if log[last] == frame then [last] else []
  }

  function LastK(times: seq<nat>, k: nat): seq<nat> {
    if |times| <= k then times else times[|times| - k..]
  }

  /** Exactly the access times. */
  lemma {:induction false} AccessesAre(log: seq<FrameId>, f: FrameId, since: nat)
    ensures forall t :: t in Accesses(log, f, since) <==> since <= t < |log| && log[t] == f
  {
    if since < |log| {
      AccessesAre(log[..|log| - 1], f, since);
    }
  }

  lemma LogGrows(log: seq<FrameId>, f: FrameId, g: FrameId, since: nat)
    requires since <= |log|
    ensures Accesses(log + [f], g, since) == Accesses(log, g, since) + if f == g then [|log|] else []
  {
    assert (log + [f])[..|log|] == log;
  }

  /** How a history holding the last k accesses takes in one more. */
  function Pushed(history: seq<nat>, t: nat, k: nat): seq<nat> {
    var h := history + [t];
    if |h| > k then h[1..] else h
  }

  lemma LastKPush(times: seq<nat>, t: nat, k: nat)
    requires k >= 1
    ensures LastK(times + [t], k) == Pushed(LastK(times, k), t, k)
  {
  }

  /** A frame's history is its last k accesses since it entered the replacer. */
  ghost predicate Tracked(log: seq<FrameId>, f: FrameId, since: nat, k: nat, history: seq<nat>) {
    && since < |log| && log[since] == f
    && history == LastK(Accesses(log, f, since), k)
  }

  /** Accessed fewer than k times since it entered the replacer. */
  ghost predicate Young(log: seq<FrameId>, f: FrameId, since: nat, k: nat) {
    |Accesses(log, f, since)| < k
  }

  /** When the k-th last access happened, or the first one if there were fewer. */
  ghost function Oldest(log: seq<FrameId>, f: FrameId, since: nat, k: nat): nat {
    var times := LastK(Accesses(log, f, since), k);
    if times == [] then 0 else times[0]
  }

  /** `a` has the greater backward k-distance: a young frame's is infinite, the oldest access breaks ties. */
  ghost predicate Sooner(log: seq<FrameId>, since: map<FrameId, nat>, k: nat, a: FrameId, b: FrameId)
    requires a in since && b in since
  {
    if Young(log, a, since[a], k) == Young(log, b, since[b], k)
    then Oldest(log, a, since[a], k) < Oldest(log, b, since[b], k)
    else Young(log, a, since[a], k)
  }

  lemma Front(log: seq<FrameId>, f: FrameId, since: nat, k: nat, history: seq<nat>)
    requires k >= 1 && Tracked(log, f, since, k, history)
    ensures history != [] && history[0] == Oldest(log, f, since, k) < |log| && log[history[0]] == f
    ensures |history| < k <==> Young(log, f, since, k)
  {
    AccessesAre(log, f, since);
    assert since in Accesses(log, f, since);
    assert history[0] in Accesses(log, f, since);
  }

  lemma TrackedGrows(log: seq<FrameId>, frame: FrameId, f: FrameId, since: nat, k: nat, history: seq<nat>)
    requires k >= 1 && Tracked(log, f, since, k, history)
    ensures Tracked(log + [frame], f, since, k, if f == frame then Pushed(history, |log|, k) else history)
  {
    LogGrows(log, frame, f, since);
    LastKPush(Accesses(log, f, since), |log|, k);
    assert Accesses(log, f, since) + [] == Accesses(log, f, since);
  }

  lemma TrackedFromNow(log: seq<FrameId>, f: FrameId, k: nat)
    requires k >= 1
    ensures Tracked(log + [f], f, |log|, k, [|log|])
  {
    LogGrows(log, f, f, |log|);
  }

  /** The number the search maximizes: distances of young frames start in the upper half of the range. */
  function KDistance(history: seq<nat>, k: nat, now: nat): nat
    requires history != [] && history[0] <= now <= U64_MAX
  {
    if |history| < k then U64_MAX - history[0] else now - history[0]
  }

  ghost predicate AllTracked(log: seq<FrameId>, since: map<FrameId, nat>, k: nat, nodes: map<FrameId, LRUKNode>) {
    since.Keys == nodes.Keys && forall f :: f in nodes ==> Tracked(log, f, since[f], k, nodes[f].history)
  }

  /** Comparing the numbers is comparing backward k-distances, and there are no ties. */
  lemma DistanceOrders(log: seq<FrameId>, since: map<FrameId, nat>, k: nat, nodes: map<FrameId, LRUKNode>,
      a: FrameId, b: FrameId)
    requires k >= 1 && |log| < HALF_RANGE && AllTracked(log, since, k, nodes) && a in nodes && b in nodes && a != b
    ensures nodes[a].history != [] && nodes[b].history != []
    ensures nodes[a].history[0] < |log| && nodes[b].history[0] < |log|
    ensures KDistance(nodes[a].history, k, |log|) > 0
    ensures KDistance(nodes[a].history, k, |log|) > KDistance(nodes[b].history, k, |log|) <==>
            Sooner(log, since, k, a, b)
    ensures KDistance(nodes[a].history, k, |log|) != KDistance(nodes[b].history, k, |log|)
  {
    hide Accesses, LastK, Young, Oldest, Tracked;
    Front(log, a, since[a], k, nodes[a].history);
    Front(log, b, since[b], k, nodes[b].history);
  }

  lemma SoonerTransitive(log: seq<FrameId>, since: map<FrameId, nat>, k: nat, a: FrameId, b: FrameId, c: FrameId)
    requires a in since && b in since && c in since
    requires Sooner(log, since, k, a, b) && Sooner(log, since, k, b, c)
    ensures Sooner(log, since, k, a, c)
  {
    hide Young, Oldest;
  }

  ghost function EvictablesOf(nodes: map<FrameId, LRUKNode>): set<FrameId> {
    set f | f in nodes && nodes[f].isEvictable
  }

  lemma FlagSet(nodes: map<FrameId, LRUKNode>, f: FrameId, flag: bool)
    requires f in nodes
    ensures var n := EvictablesOf(nodes[f := nodes[f].(isEvictable := flag)]);
            |n| == |EvictablesOf(nodes)| + (if flag then 1 else 0) - if nodes[f].isEvictable then 1 else 0
  {
    var e := EvictablesOf(nodes);
    assert EvictablesOf(nodes[f := nodes[f].(isEvictable := flag)]) == if flag then e + {f} else e - {f};
  }

  lemma FlagsKept(nodes: map<FrameId, LRUKNode>, f: FrameId, node: LRUKNode)
    requires node.isEvictable <==> f in nodes && nodes[f].isEvictable
    ensures EvictablesOf(nodes[f := node]) == EvictablesOf(nodes)
  {
  }

  lemma NodeRemoved(nodes: map<FrameId, LRUKNode>, f: FrameId)
    requires f in nodes && nodes[f].isEvictable
    ensures |EvictablesOf(nodes - {f})| == |EvictablesOf(nodes)| - 1
  {
    assert EvictablesOf(nodes - {f}) == EvictablesOf(nodes) - {f};
  }

  class LRUKReplacer {
    var currentSize: nat
    const replacerSize: nat
    const k: nat
    var nodeStore: map<FrameId, LRUKNode>
    var currentTimestamp: nat
    ghost var log: seq<FrameId>
    ghost var since: map<FrameId, nat>

    ghost predicate Valid()
      reads this
    {
      && k >= 1
      && currentTimestamp == |log|
      && AllTracked(log, since, k, nodeStore)
      && currentSize == |Evictables()|
    }

    ghost function Evictables(): set<FrameId>
      reads this
    {
      EvictablesOf(nodeStore)
    }

    constructor (numFrames: nat, k: nat)
      requires k >= 1
      ensures Valid() && nodeStore == map[] && replacerSize == numFrames && this.k == k && log == []
    {
      currentSize, replacerSize, this.k, nodeStore, currentTimestamp := 0, numFrames, k, map[], 0;
      log, since := [], map[];
    }

    /** The search of `evict`: the one evictable frame of greatest backward k-distance, in whatever order it walks. */
    method FindVictim() returns (result: Option<FrameId>)
      requires Valid() && currentTimestamp < HALF_RANGE
      ensures result.None? <==> Evictables() == {}
      ensures result.Some? ==>
                && result.value in Evictables()
                && forall g :: g in Evictables() && g != result.value ==> Sooner(log, since, k, result.value, g)
    {
      hide Tracked, Sooner;
      var maxKDistance := 0;
      result := None;
      var todo := nodeStore.Keys;
      while todo != {}
        invariant todo <= nodeStore.Keys
        invariant result.None? ==> maxKDistance == 0 && Evictables() <= todo
        invariant result.Some? ==>
                    && result.value in Evictables() - todo
                    && nodeStore[result.value].history != [] && nodeStore[result.value].history[0] < currentTimestamp
                    && maxKDistance == KDistance(nodeStore[result.value].history, k, currentTimestamp)
        invariant result.Some? ==>
                    forall g :: g in Evictables() - todo && g != result.value ==> Sooner(log, since, k, result.value, g)
        decreases |todo|
      {
        var frameId :| frameId in todo;
        todo := todo - {frameId};
        if !nodeStore[frameId].isEvictable {
          continue;
        }
        Front(log, frameId, since[frameId], k, nodeStore[frameId].history);
        var kDistance := KDistance(nodeStore[frameId].history, k, currentTimestamp);
        if result.Some? {
          NewMaximum(todo, result.value, frameId);
        }
        if kDistance > maxKDistance {
          maxKDistance := kDistance;
          result := Some(frameId);
        }
      }
    }

    lemma NewMaximum(todo: set<FrameId>, best: FrameId, frameId: FrameId)
      requires Valid() && currentTimestamp < HALF_RANGE && best in Evictables() && frameId in Evictables()
               && best != frameId
      requires forall g :: g in Evictables() - todo && g != best && g != frameId ==> Sooner(log, since, k, best, g)
      ensures nodeStore[best].history != [] && nodeStore[best].history[0] < currentTimestamp
      ensures nodeStore[frameId].history != [] && nodeStore[frameId].history[0] < currentTimestamp
      ensures var new_, old_ := KDistance(nodeStore[frameId].history, k, currentTimestamp),
                                KDistance(nodeStore[best].history, k, currentTimestamp);
              && (new_ > old_ ==>
                    forall g :: g in Evictables() - todo && g != frameId ==> Sooner(log, since, k, frameId, g))
              && (new_ <= old_ ==> Sooner(log, since, k, best, frameId))
    {
      hide Tracked, Sooner;
      DistanceOrders(log, since, k, nodeStore, frameId, best);
      DistanceOrders(log, since, k, nodeStore, best, frameId);
      if Sooner(log, since, k, frameId, best) {
        forall g | g in Evictables() - todo && g != frameId ensures Sooner(log, since, k, frameId, g) {
          if g != best {
            SoonerTransitive(log, since, k, frameId, best, g);
          }
        }
      }
    }

    /** Drops and returns the victim, if any frame is evictable. */
    method Evict() returns (result: Option<FrameId>)
      requires Valid() && currentTimestamp < HALF_RANGE
      modifies this`nodeStore, this`currentSize, this`since
      ensures Valid()
      ensures result.None? <==> old(currentSize) == 0
      ensures result.None? ==> nodeStore == old(nodeStore) && since == old(since)
      ensures result.Some? ==>
                var v := result.value;
                && v in old(Evictables()) && nodeStore == old(nodeStore) - {v} && since == old(since) - {v}
                && forall g :: g in old(Evictables()) && g != v ==> Sooner(log, old(since), k, v, g)
    {
      hide Tracked, Sooner;
      result := FindVictim();
      if result.Some? {
        Remove(result.value);
      }
    }

    method RecordAccess(frameId: FrameId) returns (r: Result<(), string>)
      requires Valid()
      modifies this`nodeStore, this`since, this`log, this`currentTimestamp
      ensures Valid()
      ensures r.Err? <==> frameId !in old(nodeStore) && |old(nodeStore)| >= replacerSize
      ensures r.Err? ==> nodeStore == old(nodeStore) && log == old(log) && since == old(since)
      ensures r.Ok? ==> log == old(log) + [frameId]
      ensures r.Ok? && frameId in old(nodeStore) ==>
                && since == old(since)
                && var node := old(nodeStore[frameId]);
                  nodeStore == old(nodeStore)[frameId := node.(history := Pushed(node.history, |old(log)|, k))]
      ensures r.Ok? && frameId !in old(nodeStore) ==>
                && since == old(since)[frameId := |old(log)|]
                && nodeStore == old(nodeStore)[frameId := LRUKNode([|old(log)|], false)]
    {
      hide Tracked;
      hide EvictablesOf, Pushed;
      forall f | f in nodeStore
        ensures Tracked(log + [frameId], f, since[f], k,
                        if f == frameId then Pushed(nodeStore[f].history, |log|, k) else nodeStore[f].history)
      {
        TrackedGrows(log, frameId, f, since[f], k, nodeStore[f].history);
      }
      TrackedFromNow(log, frameId, k);
      if frameId in nodeStore {
        var node := nodeStore[frameId];
        node := node.(history := Pushed(node.history, currentTimestamp, k));
        FlagsKept(nodeStore, frameId, node);
        nodeStore := nodeStore[frameId := node];
      } else {
        if |nodeStore| >= replacerSize {
          return Err("frame size exceeds the limit");
        }
        FlagsKept(nodeStore, frameId, LRUKNode([currentTimestamp], false));
        nodeStore := nodeStore[frameId := LRUKNode([currentTimestamp], false)];
        since := since[frameId := |log|];
      }
      log := log + [frameId];
      currentTimestamp := currentTimestamp + 1;
      r := Ok(());
    }

    method SetEvictable(frameId: FrameId, setEvictable: bool) returns (r: Result<(), string>)
      requires Valid()
      modifies this`nodeStore, this`currentSize
      ensures Valid()
      ensures r.Ok? <==> frameId in old(nodeStore)
      ensures r.Ok? ==> nodeStore == old(nodeStore)[frameId := old(nodeStore[frameId]).(isEvictable := setEvictable)]
      ensures r.Err? ==> nodeStore == old(nodeStore)
    {
      hide Tracked;
      if frameId !in nodeStore {
        return Err("frame not found");
      }
      hide EvictablesOf;
      FlagSet(nodeStore, frameId, setEvictable);
      var node := nodeStore[frameId];
      nodeStore := nodeStore[frameId := node.(isEvictable := setEvictable)];
      if setEvictable && !node.isEvictable {
        currentSize := currentSize + 1;
      } else if !setEvictable && node.isEvictable {
        currentSize := currentSize - 1;
      }
      r := Ok(());
    }

    /** The source asserts that a tracked frame is evictable. */
    method Remove(frameId: FrameId)
      requires Valid() && (frameId in nodeStore ==> nodeStore[frameId].isEvictable)
      modifies this`nodeStore, this`currentSize, this`since
      ensures Valid() && nodeStore == old(nodeStore) - {frameId} && since == old(since) - {frameId}
    {
      hide Tracked, EvictablesOf;
      if frameId in nodeStore {
        NodeRemoved(nodeStore, frameId);
        nodeStore := nodeStore - {frameId};
        since := since - {frameId};
        currentSize := currentSize - 1;
      }
    }

    method Size() returns (size: nat)
      requires Valid()
      ensures size == |Evictables()|
    {
      size := currentSize;
    }
  }
}
