/** Splitting strings at a separator character, and strings that differ by their length. */
module Strings {

  function Filler(length: nat): (s: string)
    ensures |s| == length
  {
    seq(length, _ => 'x')
  }

  // The part after the last separator, and the part before it, are determined by the whole.
  lemma SplitAtLast(a: string, x: string, b: string, y: string, sep: char)
    requires a + [sep] + x == b + [sep] + y && sep !in x && sep !in y
    ensures a == b && x == y
  {
    var whole := a + [sep] + x;
    assert whole[|a|] == sep && whole[|b|] == sep;
    assert |a| == |b|;
    assert whole[..|a|] == a && whole[..|b|] == b && whole[|a| + 1..] == x && whole[|b| + 1..] == y;
  }
}
