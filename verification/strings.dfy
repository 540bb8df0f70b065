/** String helpers used by the chat client: joining with the empty separator
    and substring search. Strings are sequences of characters. */
module Strings {

  /** `parts.join("")`: the parts, in order, with nothing between them. */
  function Concat(parts: seq<string>): string
  {
    if |parts| == 0 then "" else parts[0] + Concat(parts[1..])
  }

  /** Joining distributes over sequence concatenation, so order is preserved. */
  lemma {:induction false} ConcatAppend(a: seq<string>, b: seq<string>)
    ensures Concat(a + b) == Concat(a) + Concat(b)
    decreases |a|
  {
    if |a| == 0 {
      assert a + b == b;
    } else {
      assert (a + b)[1..] == a[1..] + b;
      ConcatAppend(a[1..], b);
    }
  }

  /** Joining a single part gives that part back unchanged. */
  lemma ConcatSingleton(s: string)
    ensures Concat([s]) == s
  {
    assert [s][1..] == [];
  }

  /** `needle` occurs in `s` starting at index `i`. */
  predicate OccursAt(s: string, needle: string, i: int)
  {
    0 <= i && i + |needle| <= |s| && s[i..i + |needle|] == needle
  }

  /** `s.contains(needle)`, by trying every start position from the left. */
  function Contains(s: string, needle: string): (b: bool)
    ensures b <==> exists i :: OccursAt(s, needle, i)
    decreases |s|
  {
    if |needle| <= |s| && s[..|needle|] == needle then
      assert OccursAt(s, needle, 0);
      true
    else if |s| == 0 then
      assert forall i :: !OccursAt(s, needle, i);
      false
    else
      var b := Contains(s[1..], needle);
      assert forall i :: OccursAt(s[1..], needle, i) <==> OccursAt(s, needle, i + 1) by {
        forall i ensures OccursAt(s[1..], needle, i) <==> OccursAt(s, needle, i + 1) {
          if 0 <= i && i + |needle| <= |s| - 1 {
            assert s[1..][i..i + |needle|] == s[i + 1..i + 1 + |needle|];
          }
        }
      }
      assert !OccursAt(s, needle, 0);
      assert (exists i :: OccursAt(s, needle, i)) ==> exists j :: OccursAt(s[1..], needle, j) by {
        if i :| OccursAt(s, needle, i) {
          assert OccursAt(s[1..], needle, i - 1);
        }
      }
      b
  }
}
