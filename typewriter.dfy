/**
 * The typewriter effect: the element is cleared, then a self-rescheduling
 * timer writes ever longer prefixes of the source text, one every 40 ms,
 * until the whole text is shown; the timer chain then stops.
 */
module Typewriter {
  import opened Page

  /** Milliseconds between two ticks. */
  const Speed: nat := 40

  /** `data-text || textContent || ''`: an empty attribute falls back to the element's text. */
  function SourceText(dataText: Option<string>, textContent: string): string
  {
    if dataText.Some? && dataText.value != "" then dataText.value else textContent
  }

  /** Every prefix of `text`, shortest first. */
  function Prefixes(text: string): (r: seq<string>)
    ensures |r| == |text| + 1
    ensures forall k :: 0 <= k < |r| ==> r[k] == text[..k]
  {
    if text == [] then [""]
    else
      var shorter := text[..|text| - 1];
      assert forall k :: 0 <= k <= |shorter| ==> shorter[..k] == text[..k];
      Prefixes(shorter) + [text]
  }

  /** The documented scenario: "AI" is shown as "", then "A", then "AI". */
  lemma TwoLetters()
    ensures Prefixes("AI") == ["", "A", "AI"]
  {
    assert "AI"[..0] == "" && "AI"[..1] == "A" && "AI"[..2] == "AI";
  }

  /**
   * The typewriter element and its tick chain. Time is in milliseconds; a
   * timer set with `setTimeout(tick, 40)` runs no earlier than 40 ms after
   * it was set, and possibly later.
   */
  class Writer {
    const text: string
    /** When set-up ran and called the first tick. */
    const start: int
    /** The next prefix length to write. */
    var i: nat
    /** The element's textContent. */
    var content: string
    /** Every value tick has written to textContent, in order. */
    var writes: seq<string>
    /** The times at which those writes ran. */
    var writeTimes: seq<int>
    /** Whether a tick is still due. */
    var scheduled: bool
    /** The earliest time the pending tick may run. */
    var due: int

    ghost predicate Valid()
      reads this
    {
      && i <= |text| + 1
      && writes == Prefixes(text)[..i]
      && |writeTimes| == i
      && (forall k :: 0 <= k < i ==> writeTimes[k] >= start + k * Speed)
      && (forall k :: 0 < k < i ==> writeTimes[k] - writeTimes[k - 1] >= Speed)
      && due == (if i == 0 then start else writeTimes[i - 1] + Speed)
      && content == (if i == 0 then "" else text[..i - 1])
      && (!scheduled ==> i == |text| + 1)
    }

    /** setupTypewriter at time `now`: choose the text, clear the element, and make the first tick due at once. */
    constructor (dataText: Option<string>, textContent: string, now: int)
      ensures text == SourceText(dataText, textContent) && start == now
      ensures content == "" && writes == [] && scheduled && due == now
      ensures Valid()
    {
      text := SourceText(dataText, textContent);
      start := now;
      content := "";
      i := 0;
      writes := [];
      writeTimes := [];
      scheduled := true;
      due := now;
    }

    /** One run of `tick` at time `now`: write the next prefix and reschedule, or stop. */
    method Tick(now: int)
      requires Valid() && scheduled && now >= due
      modifies this
      ensures Valid()
      ensures old(i) <= |text| ==>
                i == old(i) + 1 && scheduled && content == text[..old(i)]
                && writes == old(writes) + [text[..old(i)]]
                && writeTimes == old(writeTimes) + [now] && due == now + Speed
      ensures old(i) > |text| ==>
                !scheduled && i == old(i) && content == old(content)
                && writes == old(writes) && writeTimes == old(writeTimes)
    {
      if i <= |text| {
        content := text[..i];
        writes := writes + [content];
        writeTimes := writeTimes + [now];
        i := i + 1;
        scheduled := true;
        due := now + Speed;
      } else {
        scheduled := false;
      }
    }

    /**
     * Let the timer chain run until it stops; the tick run while `i == k`
     * comes `late(k)` ms after it was due.
     */
    method RunToEnd(late: nat -> nat)
      requires Valid()
      modifies this
      ensures Valid() && !scheduled
      ensures writes == Prefixes(text) && content == text
      ensures |writeTimes| == |text| + 1
      ensures forall k :: 0 < k < |writeTimes| ==> writeTimes[k] - writeTimes[k - 1] >= Speed
      ensures writeTimes[|text|] >= start + |text| * Speed
    {
      while scheduled
        invariant Valid()
        decreases |text| + 1 - i, scheduled
      {
        Tick(due + late(i));
      }
      assert Prefixes(text)[..|text| + 1] == Prefixes(text);
    }
  }
}
