/** The key mapping of `handleKeyDown` and `handleKeyUp` in src/AsteroidDodger.jsx.

    A key matches "left" when it is "ArrowLeft" or lower-cases to "a", and
    "right" when it is "ArrowRight" or lower-cases to "d". A key press sets the
    matching flag, a release clears it, and any other key leaves both alone. */
module DodgerInput {
  import opened DodgerState

  /** `toLowerCase` on one character, for the ASCII letters. */
  function LowerChar(c: char): char {
    if 'A' <= c <= 'Z' then (c as int - 'A' as int + 'a' as int) as char else c
  }

  /** `toLowerCase` on a string, character by character. */
  function ToLower(s: string): (r: string)
    ensures |r| == |s|
    ensures forall i :: 0 <= i < |s| ==> r[i] == LowerChar(s[i])
  {
    if s == [] then [] else [LowerChar(s[0])] + ToLower(s[1..])
  }

  predicate IsLeftKey(key: string) {
    key == "ArrowLeft" || ToLower(key) == "a"
  }

  predicate IsRightKey(key: string) {
    key == "ArrowRight" || ToLower(key) == "d"
  }

  /** A one-letter key lower-cases to `lower` exactly when it is that letter or its capital. */
  lemma LowersTo(key: string, lower: char, upper: char)
    requires 'a' <= lower <= 'z' && upper as int == lower as int - 'a' as int + 'A' as int
    ensures ToLower(key) == [lower] <==> key == [lower] || key == [upper]
  {
    if ToLower(key) == [lower] {
      assert |key| == 1 && LowerChar(key[0]) == lower;
      assert key == [key[0]];
    }
    if key == [upper] {
      assert ToLower(key)[0] == LowerChar(upper) == lower;
    }
  }

  /** The left keys are exactly ArrowLeft, a and A. */
  lemma LeftKeys(key: string)
    ensures IsLeftKey(key) <==> key == "ArrowLeft" || key == "a" || key == "A"
  {
    LowersTo(key, 'a', 'A');
  }

  /** The right keys are exactly ArrowRight, d and D. */
  lemma RightKeys(key: string)
    ensures IsRightKey(key) <==> key == "ArrowRight" || key == "d" || key == "D"
  {
    LowersTo(key, 'd', 'D');
  }

  /** `handleKeyDown`: a left key sets `left`, a right key sets `right`, any other key changes nothing. */
  function KeyDown(keys: Keys, key: string): (r: Keys)
    ensures r.left == (keys.left || key == "ArrowLeft" || key == "a" || key == "A")
    ensures r.right == (keys.right || key == "ArrowRight" || key == "d" || key == "D")
  {
    LeftKeys(key);
    RightKeys(key);
    Keys(if IsLeftKey(key) then true else keys.left,
         if IsRightKey(key) then true else keys.right)
  }

  /** `handleKeyUp`: a left key clears `left`, a right key clears `right`, any other key changes nothing. */
  function KeyUp(keys: Keys, key: string): (r: Keys)
    ensures r.left == (keys.left && !(key == "ArrowLeft" || key == "a" || key == "A"))
    ensures r.right == (keys.right && !(key == "ArrowRight" || key == "d" || key == "D"))
  {
    LeftKeys(key);
    RightKeys(key);
    Keys(if IsLeftKey(key) then false else keys.left,
         if IsRightKey(key) then false else keys.right)
  }
}
