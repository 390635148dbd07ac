/**
 * The pieces of Go's language and standard library that the booking demo
 * depends on: the unsigned integer type `uint` (taken to be 64 bits wide,
 * as on every 64-bit platform), its wrap-around subtraction, and
 * `strings.Contains`.
 *
 * Go strings are byte strings and `len` counts bytes. Here a string is a
 * `seq<char>` and each element stands for one byte, so `|s|` is Go's `len(s)`.
 */
module GoBuiltins {

  /** 2^64: one past the largest value of Go's `uint` on a 64-bit platform. */
  const UINT_LIMIT: int := 0x1_0000_0000_0000_0000

  /** Go's `uint`. */
  type Uint = x: int | 0 <= x < UINT_LIMIT

  /** Go's `a - b` on `uint`, which wraps around modulo 2^64 instead of going negative. */
  function WrapSub(a: Uint, b: Uint): (r: Uint)
    ensures b <= a ==> r == a - b
    ensures a < b ==> r + b == a + UINT_LIMIT
  {
    (a - b) % UINT_LIMIT
  }

  /** `sub` appears in `s` starting at byte offset `i`. */
  ghost predicate OccursAt(s: string, sub: string, i: int)
  {
    0 <= i && i + |sub| <= |s| && s[i..i + |sub|] == sub
  }

  lemma OccursAtShift(s: string, sub: string)
    requires |s| > 0
    ensures forall i :: 0 <= i ==> (OccursAt(s[1..], sub, i) <==> OccursAt(s, sub, i + 1))
    ensures forall i :: 1 <= i ==> (OccursAt(s, sub, i) <==> OccursAt(s[1..], sub, i - 1))
  {
  }

  /**
   * Go's `strings.Contains(s, sub)`: whether `sub` occurs in `s` as a
   * contiguous run of bytes (an empty `sub` occurs everywhere).
   */
  function Contains(s: string, sub: string): (r: bool)
    ensures r <==> exists i :: OccursAt(s, sub, i)
    decreases |s|
  {
    if |s| < |sub| then false
    else if s[..|sub|] == sub then assert OccursAt(s, sub, 0); true
    else
      OccursAtShift(s, sub);
      assert !OccursAt(s, sub, 0);
      Contains(s[1..], sub)
  }

  /** Searching for a one-byte string is the same as asking whether that byte occurs. */
  lemma {:induction false} ContainsSingle(s: string, c: char)
    ensures Contains(s, [c]) <==> c in s
  {
    if c in s {
      var i :| 0 <= i < |s| && s[i] == c;
      assert s[i..i + 1] == [c];
      assert OccursAt(s, [c], i);
    } else {
      forall i | 0 <= i < |s|
        ensures !OccursAt(s, [c], i)
      {
        assert s[i..i + 1][0] == s[i];
      }
    }
  }
}
