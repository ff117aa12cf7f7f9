/**
 * The console easter egg: a rolling buffer of the last two lower-cased key
 * characters; when it reads "ai" the page flashes and the buffer empties.
 */
module EasterEgg {

  const Target: string := "ai"

  /** Lower-casing of one character; only ASCII letters are mapped. */
  function LowerChar(c: char): (d: char)
    ensures !('A' <= d <= 'Z')
    ensures d != c ==> 'A' <= c <= 'Z' && d as int == c as int + 32
    ensures 'a' <= d <= 'z' <==> 'a' <= c <= 'z' || 'A' <= c <= 'Z'
  {
    if 'A' <= c <= 'Z' then (c as int + 32) as char else c
  }

  /** `toLowerCase()`, character by character. */
  function Lower(s: string): (r: string)
    ensures |r| == |s|
    ensures forall k :: 0 <= k < |s| ==> r[k] == LowerChar(s[k])
  {
    if s == [] then [] else Lower(s[..|s| - 1]) + [LowerChar(s[|s| - 1])]
  }

  /** Lower-casing twice is lower-casing once. */
  lemma LowerIdempotent(s: string)
    ensures Lower(Lower(s)) == Lower(s)
  {
  }

  /** `slice(-2)` once the string is longer than the target. */
  function LastTwo(s: string): (r: string)
    ensures |r| == if |s| < 2 then |s| else 2
    ensures r == s[|s| - |r|..]
  {
    if |s| > |Target| then s[|s| - |Target|..] else s
  }

  /** The buffer after a keydown, and whether the flash fires. */
  datatype KeyResult = KeyResult(buffer: string, flash: bool)

  /** What the buffer can hold between keydowns: at most two characters, never the target. */
  predicate Settled(buffer: string)
  {
    |buffer| <= |Target| && buffer != Target
  }

  function KeyStep(buffer: string, key: string): (r: KeyResult)
    ensures |r.buffer| <= 2 && Settled(r.buffer)
    ensures r.flash ==> r.buffer == ""
    ensures r.flash <==> LastTwo(buffer + Lower(key)) == Target
    ensures !r.flash ==> r.buffer == LastTwo(buffer + Lower(key))
  {
    var b := LastTwo(buffer + Lower(key));
    if b == Target then KeyResult("", true) else KeyResult(b, false)
  }

  // ---- properties ----

  /** A keydown event without a key leaves a settled buffer as it is. */
  lemma EmptyKeyNoFlash(buffer: string)
    requires Settled(buffer)
    ensures KeyStep(buffer, "") == KeyResult(buffer, false)
  {
    assert Lower("") == "";
    assert buffer + "" == buffer;
    assert LastTwo(buffer) == buffer;
  }

  /** A flash needs the key, lower-cased, to end in 'i'. */
  lemma FlashEndsWithI(buffer: string, key: string)
    requires Settled(buffer)
    requires KeyStep(buffer, key).flash
    ensures |key| > 0 && LowerChar(key[|key| - 1]) == 'i'
  {
    EmptyKeyNoFlash(buffer);
    assert key != "";
    var s := buffer + Lower(key);
    assert LastTwo(s) == "ai";
    assert s[|s| - 1] == 'i';
  }

  /**
   * For a one-character key the flash fires exactly when the key lowers to
   * 'i' and the buffer ends in 'a'.
   */
  lemma SingleKeyFlash(buffer: string, key: string)
    requires |key| == 1
    ensures KeyStep(buffer, key).flash <==>
            LowerChar(key[0]) == 'i' && |buffer| > 0 && buffer[|buffer| - 1] == 'a'
  {
    var s := buffer + Lower(key);
    assert s[|s| - 1] == LowerChar(key[0]);
    if |buffer| > 0 {
      assert s[|s| - 2] == buffer[|buffer| - 1];
      assert LastTwo(s) == [s[|s| - 2], s[|s| - 1]];
    } else {
      assert |LastTwo(s)| == 1;
    }
  }

  /** Typing `a` then `i`, in either case, always flashes, whatever the buffer held. */
  lemma TypingAiFlashes(buffer: string, a: string, i: string)
    requires a == "a" || a == "A"
    requires i == "i" || i == "I"
    ensures KeyStep(KeyStep(buffer, a).buffer, i).flash
  {
    var first := KeyStep(buffer, a);
    assert Lower(a) == "a";
    SingleKeyFlash(buffer, a);
    var s := buffer + Lower(a);
    assert s[|s| - 1] == 'a';
    assert first.buffer == LastTwo(s);
    assert |first.buffer| > 0 && first.buffer[|first.buffer| - 1] == 'a';
    SingleKeyFlash(first.buffer, i);
  }

  /** A named key such as "Shift" overwrites the buffer with its own last two letters. */
  lemma NamedKeyOverwrites(buffer: string)
    ensures KeyStep(buffer, "Shift") == KeyResult("ft", false)
  {
    var s := buffer + Lower("Shift");
    assert Lower("Shift") == "shift";
    assert s[|s| - 2..] == "ft";
  }

  /** The keydown handler's state. */
  class KeyBuffer {
    var buffer: string
    var flashes: nat

    constructor ()
      ensures buffer == "" && Settled(buffer) && flashes == 0
    {
      buffer := "";
      flashes := 0;
    }

    /** One keydown; `key` is `e.key`, or "" when the event has none. */
    method OnKeyDown(key: string) returns (flash: bool)
      modifies this
      ensures KeyResult(buffer, flash) == KeyStep(old(buffer), key)
      ensures flashes == old(flashes) + (if flash then 1 else 0)
    {
      buffer := buffer + Lower(key);
      if |buffer| > |Target| {
        buffer := buffer[|buffer| - |Target|..];
      }
      flash := buffer == Target;
      if flash {
        buffer := "";
        flashes := flashes + 1;
      }
    }
  }
}
