/**
 * Reveal on view: every candidate (`.fade-up`, `.scale-in`) gains the
 * `revealed` class once and is then no longer observed. Without the
 * intersection-observer API, or with no candidates, everything is revealed
 * at set-up.
 */
module Reveal {
  import opened Page

  /** Candidates carrying `revealed`, and candidates the observer still watches. */
  datatype RevealState = RevealState(revealed: set<Elem>, observed: set<Elem>)

  /** Every candidate is either revealed or still watched, never both. */
  predicate Partition(s: RevealState, candidates: set<Elem>)
  {
    s.revealed + s.observed == candidates && s.revealed !! s.observed
  }

  /** The state right after set-up. */
  function Setup(candidates: set<Elem>, observerAvailable: bool): (r: RevealState)
    ensures Partition(r, candidates)
    ensures !observerAvailable ==> r.revealed == candidates && r.observed == {}
    ensures observerAvailable ==> r.revealed == {}
  {
    if !observerAvailable || candidates == {} then RevealState(candidates, {})
    else RevealState({}, candidates)
  }

  /** One observer callback batch: intersecting targets are revealed and unobserved. */
  function Deliver(s: RevealState, entries: seq<Entry>): RevealState
  {
    RevealState(s.revealed + IntersectingTargets(entries), s.observed - IntersectingTargets(entries))
  }

  /** A sequence of callback batches. */
  function DeliverAll(s: RevealState, batches: seq<seq<Entry>>): RevealState
  {
    if batches == [] then s else Deliver(DeliverAll(s, batches[..|batches| - 1]), batches[|batches| - 1])
  }

  // ---- properties ----

  /**
   * A batch reveals exactly its intersecting targets, never hides anything,
   * and stops watching what it reveals.
   */
  lemma DeliverRevealsOnce(s: RevealState, entries: seq<Entry>, e: Elem)
    ensures s.revealed <= Deliver(s, entries).revealed
    ensures Deliver(s, entries).observed <= s.observed
    ensures e in Deliver(s, entries).revealed <==>
            e in s.revealed ||
            exists k :: 0 <= k < |entries| && entries[k].target == e && entries[k].intersecting
    ensures e in Deliver(s, entries).revealed - s.revealed ==> e !in Deliver(s, entries).observed
  {
    IntersectingTargetsExactly(entries, e);
  }

  /** A batch whose targets are candidates keeps the candidates partitioned. */
  lemma DeliverKeepsPartition(s: RevealState, entries: seq<Entry>, candidates: set<Elem>)
    requires Partition(s, candidates)
    requires forall k :: 0 <= k < |entries| ==> entries[k].target in candidates
    ensures Partition(Deliver(s, entries), candidates)
  {
    IntersectingTargetsAreTargets(entries, candidates);
  }

  /** Over any sequence of batches, `revealed` only grows and the watched set only shrinks. */
  lemma {:induction false} DeliverAllMonotone(s: RevealState, batches: seq<seq<Entry>>)
    ensures s.revealed <= DeliverAll(s, batches).revealed
    ensures DeliverAll(s, batches).observed <= s.observed
  {
    if batches != [] {
      DeliverAllMonotone(s, batches[..|batches| - 1]);
    }
  }

  /** The reveal controller's live state. */
  class Revealer {
    const candidates: set<Elem>
    var revealed: set<Elem>
    var observed: set<Elem>

    function State(): RevealState
      reads this
    {
      RevealState(revealed, observed)
    }

    ghost predicate Valid()
      reads this
    {
      Partition(State(), candidates)
    }

    /** setupIntersectionReveals: mark everything at once, or start observing every candidate. */
    constructor (toReveal: seq<Elem>, observerAvailable: bool)
      ensures candidates == set k | 0 <= k < |toReveal| :: toReveal[k]
      ensures State() == Setup(candidates, observerAvailable)
      ensures Valid()
    {
      var all: set<Elem> := {};
      for k := 0 to |toReveal|
        invariant all == set j | 0 <= j < k :: toReveal[j]
      {
        all := all + {toReveal[k]};
      }
      candidates := all;
      if !observerAvailable || |toReveal| == 0 {
        revealed, observed := all, {};
      } else {
        revealed, observed := {}, all;
      }
    }

    /** The observer callback over one batch of entries. */
    method OnIntersect(entries: seq<Entry>)
      requires Valid()
      requires forall k :: 0 <= k < |entries| ==> entries[k].target in candidates
      modifies this
      ensures State() == Deliver(old(State()), entries)
      ensures Valid()
    {
      for k := 0 to |entries|
        invariant revealed == old(revealed) + IntersectingTargets(entries[..k])
        invariant observed == old(observed) - IntersectingTargets(entries[..k])
      {
        assert entries[..k + 1][..k] == entries[..k];
        if entries[k].intersecting {
          revealed := revealed + {entries[k].target};
          observed := observed - {entries[k].target};
        }
      }
      assert entries[..|entries|] == entries;
      DeliverKeepsPartition(old(State()), entries, candidates);
    }
  }
}
