/**
 * The hover sound's throttle: a play is attempted only when at least 220 ms
 * have passed since the last attempted play. `last` starts at 0, the page's
 * time origin.
 */
module HoverSound {

  const Cooldown: int := 220

  /** The gate `now - last >= cooldown`. */
  predicate Accepts(last: int, now: int)
  {
    now - last >= Cooldown
  }

  /** The times, among the call times `times`, at which a play is attempted, starting from `last`. */
  function Plays(last: int, times: seq<int>): seq<int>
  {
    if times == [] then []
    else
      var earlier := Plays(last, times[..|times| - 1]);
      var now := times[|times| - 1];
      if Accepts(LastPlay(last, earlier), now) then earlier + [now] else earlier
  }

  /** The value of `last` after the plays `plays`, starting from `last`. */
  function LastPlay(last: int, plays: seq<int>): int
  {
    if plays == [] then last else plays[|plays| - 1]
  }

  /** Any two attempted plays lie at least the cooldown apart. */
  predicate Spaced(plays: seq<int>)
  {
    forall i, j :: 0 <= i < j < |plays| ==> plays[j] - plays[i] >= Cooldown
  }

  // ---- properties ----

  /**
   * The attempted plays are spaced by the cooldown, each lies at least the
   * cooldown after the starting `last`, and each is one of the call times.
   */
  lemma {:induction false} PlaysSpaced(last: int, times: seq<int>)
    ensures Spaced(Plays(last, times))
    ensures forall k :: 0 <= k < |Plays(last, times)| ==> Plays(last, times)[k] - last >= Cooldown
    ensures forall k :: 0 <= k < |Plays(last, times)| ==> Plays(last, times)[k] in times
  {
    if times != [] {
      var n := |times| - 1;
      var earlier := Plays(last, times[..n]);
      PlaysSpaced(last, times[..n]);
      var p := Plays(last, times);
      forall k | 0 <= k < |p| ensures p[k] in times {
        if k < |earlier| {
          assert earlier[k] in times[..n];
        }
      }
      if Accepts(LastPlay(last, earlier), times[n]) {
        assert p == earlier + [times[n]];
        forall i, j | 0 <= i < j < |p| ensures p[j] - p[i] >= Cooldown {
          if j == |earlier| && i < |earlier| - 1 {
            assert earlier[|earlier| - 1] - earlier[i] >= Cooldown;
          }
        }
      }
    }
  }

  /** The sound player: `last`, and the times of every attempted play. */
  class Player {
    /** Hover-capable device and an Audio object could be built. */
    const enabled: bool
    var last: int
    var plays: seq<int>
    /** The times of every call to `play()`. */
    ghost var calls: seq<int>

    ghost predicate Valid()
      reads this
    {
      plays == Plays(0, calls) && last == LastPlay(0, plays)
    }

    constructor (enabled: bool)
      ensures this.enabled == enabled && last == 0 && plays == [] && Valid()
    {
      this.enabled := enabled;
      last := 0;
      plays := [];
      calls := [];
    }

    /** `play()` at time `now`. */
    method Play(now: int) returns (played: bool)
      requires Valid()
      modifies this
      ensures Valid()
      ensures played == Accepts(old(last), now)
      ensures last == if played then now else old(last)
      ensures plays == if played then old(plays) + [now] else old(plays)
      ensures calls == old(calls) + [now]
      ensures Spaced(plays) && forall k :: 0 <= k < |plays| ==> plays[k] >= Cooldown
    {
      calls := calls + [now];
      assert calls[..|calls| - 1] == old(calls);
      if now - last < Cooldown {
        played := false;
      } else {
        last := now;
        plays := plays + [now];
        played := true;
      }
      PlaysSpaced(0, calls);
    }

    /** A `mouseenter` caught on the document; `interactive` is whether the target is a button, card, nav link or burger. */
    method OnMouseEnter(interactive: bool, now: int) returns (played: bool)
      requires Valid()
      modifies this
      ensures Valid()
      ensures played == (enabled && interactive && Accepts(old(last), now))
      ensures plays == if played then old(plays) + [now] else old(plays)
      ensures last == if played then now else old(last)
      ensures Spaced(plays)
    {
      PlaysSpaced(0, calls);
      played := false;
      if enabled && interactive {
        played := Play(now);
      }
    }
  }
}
