/** Taking composed identifiers apart at a separator character. */
module Separators {

  /** Two strings composed with a separator that the last parts do not contain are equal only part by part. */
  lemma LastSeparator(c: char, a: string, x: string, b: string, y: string)
    requires c !in x && c !in y && a + [c] + x == b + [c] + y
    ensures a == b && x == y
  {
    var s := a + [c] + x;
    assert s[|a|] == c && s[|b|] == c;
    if |a| < |b| {
      assert false;
    } else if |b| < |a| {
      assert false;
    }
    assert s[..|a|] == a && s[..|b|] == b && s[|a| + 1..] == x && s[|b| + 1..] == y;
  }

  /** The same for a separator the first parts do not contain. */
  lemma FirstSeparator(c: char, a: string, x: string, b: string, y: string)
    requires c !in a && c !in b && a + [c] + x == b + [c] + y
    ensures a == b && x == y
  {
    var s := a + [c] + x;
    assert s[|a|] == c && s[|b|] == c;
    if |a| < |b| {
      assert false;
    } else if |b| < |a| {
      assert false;
    }
    assert s[..|a|] == a && s[..|b|] == b && s[|a| + 1..] == x && s[|b| + 1..] == y;
  }
}
