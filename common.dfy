/**
 * Shared vocabulary of the reservation core: an Option type for the values
 * JavaScript writes as `undefined`/`null`, the three-state fetch status of
 * every Redux slice, the ASCII case mapping behind `toLowerCase` and
 * `toUpperCase`, and `Array.prototype.find`/`findIndex` as one function.
 */
module Common {

  datatype Option<T> = None | Some(value: T)

  /** The `status` field shared by every slice. */
  datatype Status = Idle | Loading | Succeeded | Failed

  predicate IsUpperAscii(c: char) { 'A' <= c <= 'Z' }

  predicate IsLowerAscii(c: char) { 'a' <= c <= 'z' }

  predicate IsAsciiLetter(c: char) { IsUpperAscii(c) || IsLowerAscii(c) }

  /** `toLowerCase` on one character, restricted to ASCII letters. */
  function LowerChar(c: char): (r: char)
    ensures !IsUpperAscii(r)
    ensures IsAsciiLetter(r) <==> IsAsciiLetter(c)
    ensures !IsUpperAscii(c) ==> r == c
    ensures IsUpperAscii(c) ==> r as int == c as int + 32
  {
    if IsUpperAscii(c) then (c as int + 32) as char else c
  }

  /** `toUpperCase` on one character, restricted to ASCII letters. */
  function UpperChar(c: char): (r: char)
    ensures !IsLowerAscii(r)
    ensures IsAsciiLetter(r) <==> IsAsciiLetter(c)
    ensures !IsLowerAscii(c) ==> r == c
    ensures IsLowerAscii(c) ==> r as int == c as int - 32
  {
    if IsLowerAscii(c) then (c as int - 32) as char else c
  }

  /** `String.prototype.toLowerCase` over ASCII. */
  function ToLower(s: string): (r: string)
    ensures |r| == |s|
    ensures forall i :: 0 <= i < |r| ==> !IsUpperAscii(r[i])
    ensures forall i :: 0 <= i < |s| && !IsUpperAscii(s[i]) ==> r[i] == s[i]
  {
    seq(|s|, i requires 0 <= i < |s| => LowerChar(s[i]))
  }

  /** A string with no upper-case ASCII letter is its own lower-case form. */
  lemma ToLowerOfLower(s: string)
    requires forall i :: 0 <= i < |s| ==> !IsUpperAscii(s[i])
    ensures ToLower(s) == s
  {
  }

  /**
   * `Array.prototype.findIndex` (and `find`, which returns the element at the
   * same position): the first position whose element satisfies `p`.
   */
  function FindIndex<T>(s: seq<T>, p: T -> bool): (r: Option<nat>)
    ensures r.Some? ==> r.value < |s| && p(s[r.value])
    ensures r.Some? ==> forall j :: 0 <= j < r.value ==> !p(s[j])
    ensures r.None? <==> forall j :: 0 <= j < |s| ==> !p(s[j])
  {
    if |s| == 0 then None
    else if p(s[0]) then Some(0)
    else match FindIndex(s[1..], p)
      case None => None
      case Some(k) => Some(k + 1)
  }

  /** `Array.prototype.splice(i, 1)`: drop the element at position `i`. */
  function RemoveAt<T>(s: seq<T>, i: nat): (r: seq<T>)
    requires i < |s|
    ensures |r| == |s| - 1
    ensures forall j :: 0 <= j < i ==> r[j] == s[j]
    ensures forall j :: i <= j < |r| ==> r[j] == s[j + 1]
  {
    s[..i] + s[i + 1..]
  }

  /** The positions of the elements satisfying `p`, in increasing order. */
  function Positions<T>(s: seq<T>, p: T -> bool): (ps: seq<nat>)
    ensures forall j :: 0 <= j < |ps| ==> ps[j] < |s| && p(s[ps[j]])
    ensures forall j, j' :: 0 <= j < j' < |ps| ==> ps[j] < ps[j']
    ensures forall k :: 0 <= k < |s| && p(s[k]) ==> k in ps
    decreases |s|
  {
    if s == [] then []
    else
      var n := |s| - 1;
      var ps := Positions(s[..n], p);
      assert forall j :: 0 <= j < |ps| ==> s[..n][ps[j]] == s[ps[j]];
      assert forall k :: 0 <= k < n ==> s[..n][k] == s[k];
      ps + (if p(s[n]) then [n] else [])
  }

  /** Concatenation is associative; stated once so that long logs need no element-wise proof. */
  lemma AppendAssoc<T>(a: seq<T>, b: seq<T>, c: seq<T>)
    ensures a + b + c == a + (b + c)
  {
  }

  /** A subset is no larger than the set containing it. */
  lemma {:induction false} SubsetCardinality<T>(a: set<T>, b: set<T>)
    requires a <= b
    ensures |a| <= |b|
    decreases |b|
  {
    if a != {} {
      var x :| x in a;
      SubsetCardinality(a - {x}, b - {x});
    }
  }
}
