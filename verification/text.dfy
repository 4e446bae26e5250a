/**
 * The few string operations the views apply to record fields: case mapping
 * (restricted to ASCII letters), upper-casing the first character, and
 * replacing the first occurrence of a character.
 */
module Text {

  predicate IsUpper(c: char) {
    'A' <= c <= 'Z'
  }

  predicate IsLower(c: char) {
    'a' <= c <= 'z'
  }

  /** `toLowerCase` of one character. */
  function LowerChar(c: char): (r: char)
    ensures !IsUpper(r)
    ensures IsUpper(c) ==> IsLower(r) && r as int - c as int == 32
    ensures !IsUpper(c) ==> r == c
  {
    if IsUpper(c) then (c as int + 32) as char else c
  }

  /** `toUpperCase` of one character. */
  function UpperChar(c: char): (r: char)
    ensures !IsLower(r)
    ensures IsLower(c) ==> IsUpper(r) && c as int - r as int == 32
    ensures !IsLower(c) ==> r == c
  {
    if IsLower(c) then (c as int - 32) as char else c
  }

  /** `s.toLowerCase()`: every upper-case letter mapped to its lower-case partner. */
  function Lower(s: string): (r: string)
    ensures |r| == |s|
    ensures forall i :: 0 <= i < |r| ==> !IsUpper(r[i])
    ensures forall i :: 0 <= i < |s| && !IsUpper(s[i]) ==> r[i] == s[i]
    ensures forall i :: 0 <= i < |s| && IsUpper(s[i]) ==> r[i] as int == s[i] as int + 32
  {
    seq(|s|, i requires 0 <= i < |s| => LowerChar(s[i]))
  }

  /** Lower-casing twice is lower-casing once. */
  lemma {:induction false} LowerIdempotent(s: string)
    ensures Lower(Lower(s)) == Lower(s)
  {
    var l := Lower(s);
    var ll := Lower(l);
    assert forall i :: 0 <= i < |l| ==> ll[i] == l[i];
  }

  /** `s.charAt(0).toUpperCase() + s.slice(1)`: the first character upper-cased, the rest unchanged. */
  function Capitalize(s: string): (r: string)
    ensures |r| == |s|
    ensures |s| > 0 ==> r[0] == UpperChar(s[0]) && r[1..] == s[1..]
  {
    if |s| == 0 then "" else [UpperChar(s[0])] + s[1..]
  }

  /** The position of the first `c` in `s`, or -1 when `c` does not occur (`indexOf`). */
  function IndexOf(s: string, c: char): (k: int)
    ensures -1 <= k < |s|
    ensures k == -1 <==> c !in s
    ensures k >= 0 ==> s[k] == c && c !in s[..k]
  {
    if |s| == 0 then -1
    else if s[0] == c then 0
    else
      var k := IndexOf(s[1..], c);
      assert s == [s[0]] + s[1..];
      if k == -1 then -1
      else
        assert s[..k + 1] == [s[0]] + s[1..][..k];
        k + 1
  }

  /**
   * `s.replace(from, to)` for a one-character pattern: only the FIRST
   * occurrence of `from` is replaced, every other character is kept.
   */
  function ReplaceFirst(s: string, from: char, to: char): (r: string)
    ensures |r| == |s|
    ensures forall i :: 0 <= i < |s| ==>
      r[i] == (if s[i] == from && from !in s[..i] then to else s[i])
  {
    var k := IndexOf(s, from);
    if k < 0 then s
    else
      var r := s[..k] + [to] + s[k + 1..];
      assert forall i :: 0 <= i < |s| && i != k ==> r[i] == s[i];
      assert forall i :: k < i < |s| ==> from in s[..i] by {
        forall i | k < i < |s| ensures from in s[..i] {
          assert s[..i][k] == from;
        }
      }
      r
  }

  /** Replacing the first occurrence touches at most one position. */
  lemma ReplaceFirstChangesOnePosition(s: string, from: char, to: char)
    ensures forall i, j :: 0 <= i < j < |s| && ReplaceFirst(s, from, to)[i] != s[i] ==> ReplaceFirst(s, from, to)[j] == s[j]
  {
    var r := ReplaceFirst(s, from, to);
    forall i, j | 0 <= i < j < |s| && r[i] != s[i] ensures r[j] == s[j] {
      assert s[i] == from;
      assert s[..j][i] == from;
    }
  }
}
