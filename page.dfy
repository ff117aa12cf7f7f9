/**
 * Vocabulary shared by the page controllers: optional values, element
 * identities, and the entries an intersection observer hands to its callback.
 */
module Page {

  datatype Option<+T> = None | Some(value: T)

  /** A DOM element, known only by its identity. */
  type Elem = nat

  /**
   * One entry of an intersection-observer callback batch. The geometry that
   * decides `intersecting` (root margin, threshold) is left to the browser;
   * the model receives its verdict.
   */
  datatype Entry = Entry(target: Elem, intersecting: bool)

  /** The targets of the intersecting entries of a batch. */
  function IntersectingTargets(entries: seq<Entry>): (r: set<Elem>)
  {
    if entries == [] then {}
    else
      var last := entries[|entries| - 1];
      IntersectingTargets(entries[..|entries| - 1]) + (if last.intersecting then {last.target} else {})
  }

  /** An element is picked exactly when some entry names it and intersects. */
  lemma {:induction false} IntersectingTargetsExactly(entries: seq<Entry>, e: Elem)
    ensures e in IntersectingTargets(entries) <==>
            exists k :: 0 <= k < |entries| && entries[k].target == e && entries[k].intersecting
  {
    if entries != [] {
      var n := |entries| - 1;
      IntersectingTargetsExactly(entries[..n], e);
      if e in IntersectingTargets(entries[..n]) {
        var k :| 0 <= k < n && entries[..n][k].target == e && entries[..n][k].intersecting;
        assert entries[k] == entries[..n][k];
      }
      if exists k :: 0 <= k < |entries| && entries[k].target == e && entries[k].intersecting {
        var k :| 0 <= k < |entries| && entries[k].target == e && entries[k].intersecting;
        if k < n {
          assert entries[..n][k] == entries[k];
        }
      }
    }
  }

  /** Every picked element is the target of some entry of the batch. */
  lemma {:induction false} IntersectingTargetsAreTargets(entries: seq<Entry>, allowed: set<Elem>)
    requires forall k :: 0 <= k < |entries| ==> entries[k].target in allowed
    ensures IntersectingTargets(entries) <= allowed
  {
    if entries != [] {
      IntersectingTargetsAreTargets(entries[..|entries| - 1], allowed);
    }
  }
}
