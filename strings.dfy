/** Substring search on block type identifiers, the model of String.includes. */
module Strings {

  predicate IsPrefix(pre: string, s: string)
  {
    |pre| <= |s| && s[..|pre|] == pre
  }

  /** sub occurs in s: it is a prefix of s or occurs in s without its head. */
  predicate Contains(s: string, sub: string)
    decreases |s|
  {
    IsPrefix(sub, s) || (|s| > 0 && Contains(s[1..], sub))
  }

  /** sub occurs in s starting at index i. */
  predicate OccursAt(s: string, sub: string, i: int)
  {
    0 <= i && i + |sub| <= |s| && s[i..i + |sub|] == sub
  }

  /** Contains agrees with the index-based meaning of "includes". */
  lemma {:induction false} ContainsIffOccurs(s: string, sub: string)
    ensures Contains(s, sub) <==> exists i :: OccursAt(s, sub, i)
    decreases |s|
  {
    if IsPrefix(sub, s) {
      assert OccursAt(s, sub, 0);
    } else if |s| == 0 {
    } else {
      ContainsIffOccurs(s[1..], sub);
      if Contains(s[1..], sub) {
        var j :| OccursAt(s[1..], sub, j);
        assert s[1..][j..j + |sub|] == s[j + 1..j + 1 + |sub|];
        assert OccursAt(s, sub, j + 1);
      }
      forall i | OccursAt(s, sub, i)
        ensures Contains(s[1..], sub)
      {
        assert i != 0;
        assert s[1..][i - 1..i - 1 + |sub|] == s[i..i + |sub|];
        assert OccursAt(s[1..], sub, i - 1);
      }
    }
  }

  /** The empty identifier contains nothing but the empty string. */
  lemma EmptyContainsOnlyEmpty(sub: string)
    ensures Contains([], sub) <==> sub == []
  {
  }

  /** An identifier contains every substring at any position in it. */
  lemma ContainsInfix(pre: string, sub: string, post: string)
    ensures Contains(pre + sub + post, sub)
  {
    var s := pre + sub + post;
    assert s[|pre|..|pre| + |sub|] == sub;
    assert OccursAt(s, sub, |pre|);
    ContainsIffOccurs(s, sub);
  }
}
