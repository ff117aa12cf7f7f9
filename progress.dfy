/**
 * Skill progress bars: each `.fill` element's width is set to its
 * `data-value` clamped to [0, 100], once its `.skill` container first comes
 * into view, or at once when the intersection-observer API is missing.
 */
module ProgressBars {
  import opened Page

  const Full: int := 100

  /**
   * `Math.max(0, Math.min(100, Number(val || 0)))` over integers: an absent
   * or empty `data-value` counts as 0.
   */
  function Percent(value: Option<int>): (pct: int)
    ensures 0 <= pct <= Full
    ensures value.None? ==> pct == 0
    ensures value.Some? && 0 <= value.value <= Full ==> pct == value.value
    ensures value.Some? && value.value < 0 ==> pct == 0
    ensures value.Some? && value.value > Full ==> pct == Full
  {
    var v := if value.None? then 0 else value.value;
    var capped := if Full < v then Full else v;
    if 0 < capped then capped else 0
  }

  /** The clamp picks the point of [0, 100] nearest to the value. */
  lemma PercentIsNearest(v: int, q: int)
    requires 0 <= q <= Full
    ensures var d := Percent(Some(v)) - v; var e := q - v;
            (if d < 0 then -d else d) <= (if e < 0 then -e else e)
  {
  }

  /** The `data-value` of a fill: the map holds the fills that carry a non-empty one. */
  function DataValue(data: map<Elem, int>, fill: Elem): Option<int>
  {
    if fill in data then Some(data[fill]) else None
  }

  /** The fills below a skill container. */
  function FillsOf(fillsOf: map<Elem, seq<Elem>>, skill: Elem): seq<Elem>
  {
    if skill in fillsOf then fillsOf[skill] else []
  }

  /** `fills.forEach(trigger)`: each fill in turn gets its clamped width. */
  function TriggerAll(data: map<Elem, int>, width: map<Elem, int>, fills: seq<Elem>): map<Elem, int>
  {
    if fills == [] then width
    else
      var last := fills[|fills| - 1];
      TriggerAll(data, width, fills[..|fills| - 1])[last := Percent(DataValue(data, last))]
  }

  /** The widths after one observer callback batch. */
  function DeliverWidths(data: map<Elem, int>, fillsOf: map<Elem, seq<Elem>>,
                         width: map<Elem, int>, entries: seq<Entry>): map<Elem, int>
  {
    if entries == [] then width
    else
      var before := DeliverWidths(data, fillsOf, width, entries[..|entries| - 1]);
      var last := entries[|entries| - 1];
      if last.intersecting then TriggerAll(data, before, FillsOf(fillsOf, last.target)) else before
  }

  /** Every width in [0, 100]. */
  predicate InRange(width: map<Elem, int>)
  {
    forall f :: f in width ==> 0 <= width[f] <= Full
  }

  // ---- properties ----

  /**
   * Triggering a list of fills sets each of them to its clamped value and
   * leaves every other element's width as it was.
   */
  lemma {:induction false} TriggerAllSets(data: map<Elem, int>, width: map<Elem, int>, fills: seq<Elem>, f: Elem)
    ensures f in fills ==> f in TriggerAll(data, width, fills)
                           && TriggerAll(data, width, fills)[f] == Percent(DataValue(data, f))
    ensures f !in fills ==> (f in TriggerAll(data, width, fills) <==> f in width)
    ensures f !in fills && f in width ==> TriggerAll(data, width, fills)[f] == width[f]
  {
    if fills != [] {
      var n := |fills| - 1;
      TriggerAllSets(data, width, fills[..n], f);
      if f != fills[n] && f in fills {
        var k :| 0 <= k < |fills| && fills[k] == f;
        assert fills[..n][k] == f;
      }
      if f !in fills {
        assert f !in fills[..n];
      }
    }
  }

  /** Triggering keeps every width in range. */
  lemma TriggerAllInRange(data: map<Elem, int>, width: map<Elem, int>, fills: seq<Elem>)
    requires InRange(width)
    ensures InRange(TriggerAll(data, width, fills))
  {
    forall f | f in TriggerAll(data, width, fills)
      ensures 0 <= TriggerAll(data, width, fills)[f] <= Full
    {
      TriggerAllSets(data, width, fills, f);
    }
  }

  /**
   * After a batch, every fill of every intersecting skill shows its clamped
   * value, every width is either unchanged or its fill's own clamped value,
   * and an element below no intersecting skill keeps exactly the width it had.
   */
  lemma {:induction false} DeliverWidthsSets(data: map<Elem, int>, fillsOf: map<Elem, seq<Elem>>,
                                             width: map<Elem, int>, entries: seq<Entry>, f: Elem)
    ensures forall k :: 0 <= k < |entries| && entries[k].intersecting && f in FillsOf(fillsOf, entries[k].target) ==>
              f in DeliverWidths(data, fillsOf, width, entries)
              && DeliverWidths(data, fillsOf, width, entries)[f] == Percent(DataValue(data, f))
    ensures f in DeliverWidths(data, fillsOf, width, entries) ==>
              (f in width && DeliverWidths(data, fillsOf, width, entries)[f] == width[f])
              || DeliverWidths(data, fillsOf, width, entries)[f] == Percent(DataValue(data, f))
    ensures (forall k :: 0 <= k < |entries| && entries[k].intersecting ==> f !in FillsOf(fillsOf, entries[k].target)) ==>
              (f in DeliverWidths(data, fillsOf, width, entries) <==> f in width)
              && (f in width ==> DeliverWidths(data, fillsOf, width, entries)[f] == width[f])
  {
    if entries != [] {
      var n := |entries| - 1;
      var before := DeliverWidths(data, fillsOf, width, entries[..n]);
      DeliverWidthsSets(data, fillsOf, width, entries[..n], f);
      if entries[n].intersecting {
        TriggerAllSets(data, before, FillsOf(fillsOf, entries[n].target), f);
      }
      forall k | 0 <= k < |entries| && entries[k].intersecting && f in FillsOf(fillsOf, entries[k].target)
        ensures f in DeliverWidths(data, fillsOf, width, entries)
                && DeliverWidths(data, fillsOf, width, entries)[f] == Percent(DataValue(data, f))
      {
        if k < n {
          assert entries[..n][k] == entries[k];
        }
      }
      if forall k :: 0 <= k < |entries| && entries[k].intersecting ==> f !in FillsOf(fillsOf, entries[k].target) {
        forall k | 0 <= k < n && entries[..n][k].intersecting
          ensures f !in FillsOf(fillsOf, entries[..n][k].target)
        {
          assert entries[..n][k] == entries[k];
        }
      }
    }
  }

  /** Without the observer API every fill reaches its clamped width at set-up. */
  lemma FallbackAnimatesAll(data: map<Elem, int>, fills: seq<Elem>, f: Elem)
    requires f in fills
    ensures f in TriggerAll(data, map[], fills)
    ensures 0 <= TriggerAll(data, map[], fills)[f] == Percent(DataValue(data, f)) <= Full
  {
    TriggerAllSets(data, map[], fills, f);
  }

  /** The progress-bar controller: page data, widths written so far, skills still watched. */
  class Bars {
    const data: map<Elem, int>
    const fillsOf: map<Elem, seq<Elem>>
    var width: map<Elem, int>
    var observed: set<Elem>

    /** setupProgressBarsOnReveal. */
    constructor (fills: seq<Elem>, skills: seq<Elem>, observerAvailable: bool,
                 data: map<Elem, int>, fillsOf: map<Elem, seq<Elem>>)
      ensures this.data == data && this.fillsOf == fillsOf
      ensures |fills| == 0 ==> width == map[] && observed == {}
      ensures |fills| > 0 && !observerAvailable ==> width == TriggerAll(data, map[], fills) && observed == {}
      ensures |fills| > 0 && observerAvailable ==>
                width == map[] && observed == set k | 0 <= k < |skills| :: skills[k]
    {
      this.data := data;
      this.fillsOf := fillsOf;
      width := map[];
      observed := {};
      new;
      if |fills| == 0 {
        return;
      }
      if !observerAvailable {
        TriggerEach(fills);
        return;
      }
      for k := 0 to |skills|
        invariant width == map[]
        invariant observed == set j | 0 <= j < k :: skills[j]
      {
        observed := observed + {skills[k]};
      }
    }

    /** `trigger(el)`, with the next-frame deferral taken as immediate. */
    method Trigger(el: Elem)
      modifies this`width
      ensures width == old(width)[el := Percent(DataValue(data, el))]
    {
      var pct := Percent(DataValue(data, el));
      width := width[el := pct];
    }

    /** `forEach(trigger)` over a list of fills. */
    method TriggerEach(fills: seq<Elem>)
      modifies this`width
      ensures width == TriggerAll(data, old(width), fills)
    {
      for k := 0 to |fills|
        invariant width == TriggerAll(data, old(width), fills[..k])
      {
        assert fills[..k + 1][..k] == fills[..k];
        Trigger(fills[k]);
      }
      assert fills[..|fills|] == fills;
    }

    /** The observer callback: animate the fills of each intersecting skill, then unobserve it. */
    method OnIntersect(entries: seq<Entry>)
      modifies this
      ensures width == DeliverWidths(data, fillsOf, old(width), entries)
      ensures observed == old(observed) - IntersectingTargets(entries)
    {
      for k := 0 to |entries|
        invariant width == DeliverWidths(data, fillsOf, old(width), entries[..k])
        invariant observed == old(observed) - IntersectingTargets(entries[..k])
      {
        assert entries[..k + 1][..k] == entries[..k];
        if entries[k].intersecting {
          TriggerEach(FillsOf(fillsOf, entries[k].target));
          observed := observed - {entries[k].target};
        }
      }
      assert entries[..|entries|] == entries;
    }
  }
}
