/**
 * Small value types and sequence helpers shared by the other modules.
 */
module Common {

  datatype Option<+T> = None | Some(value: T)

  /** The escape character that starts every terminal control sequence. */
  const ESC: char := '\U{1B}'

  /** Python's `s.startswith(prefix)`. */
  predicate StartsWith(s: string, prefix: string)
  {
    |prefix| <= |s| && forall i :: 0 <= i < |prefix| ==> s[i] == prefix[i]
  }

  /** Python's `needle in haystack` for strings: `needle` occurs as a contiguous slice. */
  predicate Contains(haystack: string, needle: string)
    decreases |haystack|
  {
    needle <= haystack || (|haystack| > 0 && Contains(haystack[1..], needle))
  }

  /** A reference formulation of `Contains` by an explicit position. */
  ghost predicate OccursAt(haystack: string, needle: string, i: int)
  {
    0 <= i && i + |needle| <= |haystack| && haystack[i..i + |needle|] == needle
  }

  lemma {:induction false} ContainsIffOccurs(haystack: string, needle: string)
    ensures Contains(haystack, needle) <==> exists i :: OccursAt(haystack, needle, i)
    decreases |haystack|
  {
    if needle <= haystack {
      assert haystack[0..|needle|] == needle;
      assert OccursAt(haystack, needle, 0);
    } else if |haystack| > 0 {
      ContainsIffOccurs(haystack[1..], needle);
      if Contains(haystack[1..], needle) {
        var i :| OccursAt(haystack[1..], needle, i);
        assert haystack[1..][i..i + |needle|] == haystack[i + 1..i + 1 + |needle|];
        assert OccursAt(haystack, needle, i + 1);
      } else {
        forall i | OccursAt(haystack, needle, i) ensures OccursAt(haystack[1..], needle, i - 1) {
          if i == 0 {
            assert false;
          } else {
            assert haystack[1..][i - 1..i - 1 + |needle|] == haystack[i..i + |needle|];
          }
        }
      }
    }
  }

  /** A needle longer than the haystack does not occur in it. */
  lemma {:induction false} ContainsLonger(haystack: string, needle: string)
    requires |haystack| < |needle|
    ensures !Contains(haystack, needle)
    decreases |haystack|
  {
    if |haystack| > 0 {
      ContainsLonger(haystack[1..], needle);
    }
  }

  /** A string containing `needle + more` contains `needle`. */
  lemma {:induction false} ContainsExtended(haystack: string, needle: string, more: string)
    requires Contains(haystack, needle + more)
    ensures Contains(haystack, needle)
    decreases |haystack|
  {
    if needle + more <= haystack {
      assert needle <= haystack by {
        assert forall i :: 0 <= i < |needle| ==> (needle + more)[i] == needle[i];
      }
    } else {
      ContainsExtended(haystack[1..], needle, more);
    }
  }

  /** Index of the first occurrence of `c` in `s`, as Python's `s.index(c)`. */
  function IndexOf(s: string, c: char): (i: nat)
    requires c in s
    ensures i < |s| && s[i] == c && c !in s[..i]
  {
    if s[0] == c then 0 else
      assert s == [s[0]] + s[1..];
      var j := IndexOf(s[1..], c);
      assert s[..j + 1] == [s[0]] + s[1..][..j];
      1 + j
  }

  /** Python's `fill * n` for string repetition (empty for `n <= 0`). */
  function Repeat(fill: string, n: int): (r: string)
    ensures |r| == if n <= 0 then 0 else n * |fill|
    decreases if n <= 0 then 0 else n
  {
    if n <= 0 then [] else fill + Repeat(fill, n - 1)
  }

  lemma {:induction false} RepeatMembers(fill: string, n: int, c: char)
    requires c in Repeat(fill, n)
    ensures c in fill
    decreases if n <= 0 then 0 else n
  {
    if n > 0 {
      if c !in fill {
        assert c in Repeat(fill, n - 1);
        RepeatMembers(fill, n - 1, c);
      }
    }
  }

  function Max(a: int, b: int): int
  {
    if a >= b then a else b
  }

  function Min(a: int, b: int): int
  {
    if a <= b then a else b
  }

  /** Strictly increasing sequences of integers (list indices without duplicates, in order). */
  predicate StrictlyIncreasing(s: seq<int>)
  {
    forall i, j :: 0 <= i < j < |s| ==> s[i] < s[j]
  }

  /** Python's `s[i]` for `-len(s) <= i < len(s)`: negative indices count from the end. */
  function PyIndex<T>(s: seq<T>, i: int): (x: T)
    requires -|s| <= i < |s|
    ensures x in s
    ensures 0 <= i ==> x == s[i]
    ensures i < 0 ==> x == s[|s| + i]
  {
    if i < 0 then s[|s| + i] else s[i]
  }

  /**
   * The members of a set of indices below `n`, as a list. Python's `list(some_set)`
   * has an implementation-defined order; this model fixes ascending order.
   */
  function SortedElements(s: set<int>, n: int): (r: seq<int>)
    requires forall x :: x in s ==> 0 <= x < n
    ensures StrictlyIncreasing(r)
    ensures forall x :: x in r <==> x in s
    ensures forall k :: 0 <= k < |r| ==> 0 <= r[k] < n
    ensures |r| == |s|
  {
    var r := IndicesBelow(s, n);
    assert forall k :: 0 <= k < |r| ==> r[k] in r;
    IncreasingCardinality(r);
    assert (set x | x in r) == s;
    r
  }

  /** The members of `s` below `n`, ascending. */
  function IndicesBelow(s: set<int>, n: int): (r: seq<int>)
    ensures StrictlyIncreasing(r)
    ensures forall x :: x in r <==> x in s && 0 <= x < n
    decreases if n <= 0 then 0 else n
  {
    if n <= 0 then [] else
      var r := IndicesBelow(s, n - 1);
      assert forall i :: 0 <= i < |r| ==> r[i] in r;
      if n - 1 in s then r + [n - 1] else r
  }

  /** A strictly increasing list has as many distinct elements as entries. */
  lemma {:induction false} IncreasingCardinality(s: seq<int>)
    requires StrictlyIncreasing(s)
    ensures |set x | x in s| == |s|
  {
    if s != [] {
      var tail := s[1..];
      IncreasingCardinality(tail);
      assert s[0] !in tail by {
        forall j | 0 <= j < |tail| ensures tail[j] != s[0] {
          assert tail[j] == s[j + 1];
        }
      }
      assert (set x | x in s) == {s[0]} + (set x | x in tail);
    }
  }
}
