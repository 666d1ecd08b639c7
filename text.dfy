/**
 * The string operations the catalog search uses: `toLowerCase`, modelled on
 * ASCII letters, and `String.prototype.includes`.
 */
module Text {

  /** ASCII lower-casing of one character; every other character is left as it is. */
  function LowerChar(c: char): char
  {
    if 'A' <= c <= 'Z' then (c as int + 32) as char else c
  }

  /** `s.toLowerCase()` over ASCII. */
  function Lower(s: string): (r: string)
    ensures |r| == |s|
    ensures forall i :: 0 <= i < |s| ==> r[i] == LowerChar(s[i])
  {
    if s == [] then [] else [LowerChar(s[0])] + Lower(s[1..])
  }

  /** Lower-casing is idempotent, so lower-casing a search term twice changes nothing. */
  lemma LowerIdempotent(s: string)
    ensures Lower(Lower(s)) == Lower(s)
  {
  }

  /** `needle` occurs in `hay` starting at index `i`. */
  predicate OccursAt(hay: string, needle: string, i: int)
  {
    0 <= i <= |hay| - |needle| && hay[i..i + |needle|] == needle
  }

  /** `hay.includes(needle)`, by scanning the start positions of `hay` from the left. */
  function Includes(hay: string, needle: string): bool
  {
    if needle <= hay then true
    else if hay == [] then false
    else Includes(hay[1..], needle)
  }

  /** Dropping the first character of the haystack moves every later occurrence one place left. */
  lemma OccursShift(hay: string, needle: string, i: int)
    requires hay != [] && 1 <= i
    ensures OccursAt(hay, needle, i) <==> OccursAt(hay[1..], needle, i - 1)
  {
    if i <= |hay| - |needle| {
      var here, there := hay[i..i + |needle|], hay[1..][i - 1..i - 1 + |needle|];
      forall j | 0 <= j < |needle|
        ensures here[j] == there[j]
      {
        assert here[j] == hay[i + j];
        assert there[j] == hay[1..][i - 1 + j];
      }
      assert here == there;
    }
  }

  /** `Includes` holds exactly when the needle occurs at some position of the haystack. */
  lemma {:induction false} IncludesIffOccurs(hay: string, needle: string)
    ensures Includes(hay, needle) <==> exists i :: OccursAt(hay, needle, i)
  {
    if needle <= hay {
      assert OccursAt(hay, needle, 0);
    } else if hay == [] {
      assert forall i :: !OccursAt(hay, needle, i);
    } else {
      IncludesIffOccurs(hay[1..], needle);
      assert !OccursAt(hay, needle, 0);
      forall i | 1 <= i
        ensures OccursAt(hay, needle, i) ==> OccursAt(hay[1..], needle, i - 1)
      {
        OccursShift(hay, needle, i);
      }
      if Includes(hay, needle) {
        var j :| OccursAt(hay[1..], needle, j);
        OccursShift(hay, needle, j + 1);
      }
    }
  }
}
