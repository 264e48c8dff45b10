/**
 * The two string operations of Go's `strings` package the extraction logic relies on:
 * `strings.ToLower` (restricted to ASCII letters) and `strings.Contains`.
 */
module Text {

  function LowerChar(c: char): char
  {
    if 'A' <= c <= 'Z' then (c as int + 32) as char else c
  }

  predicate HasNoUpper(s: string)
  {
    forall i :: 0 <= i < |s| ==> !('A' <= s[i] <= 'Z')
  }

  /** `c` and `d` are the same character, or the two cases of one ASCII letter. */
  predicate SameUpToCase(c: char, d: char)
  {
    c == d || ('A' <= c <= 'Z' && d as int == c as int + 32) || ('A' <= d <= 'Z' && c as int == d as int + 32)
  }

  /**
   * `strings.ToLower`: the result has the same length and no capital letters, every
   * character is its input character up to case, and every character that is not a
   * capital letter stays where it was.
   */
  function Lower(s: string): (r: string)
    ensures |r| == |s|
    ensures HasNoUpper(r)
    ensures forall i {:trigger r[i]} :: 0 <= i < |s| ==> SameUpToCase(s[i], r[i])
    ensures forall i :: 0 <= i < |s| && !('A' <= s[i] <= 'Z') ==> r[i] == s[i]
  {
    seq(|s|, i requires 0 <= i < |s| => LowerChar(s[i]))
  }

  /** Lowering twice is lowering once. */
  lemma LowerIdempotent(s: string)
    ensures Lower(Lower(s)) == Lower(s)
  {
    LowerOfLowercase(Lower(s));
  }

  /** Two texts lower to the same text exactly when they differ only in the case of their letters. */
  lemma LowerIgnoresCase(s: string, t: string)
    ensures Lower(s) == Lower(t) <==> |s| == |t| && forall i :: 0 <= i < |s| ==> SameUpToCase(s[i], t[i])
  {
    if Lower(s) == Lower(t) {
      forall i | 0 <= i < |s|
        ensures SameUpToCase(s[i], t[i])
      {
        assert Lower(s)[i] == Lower(t)[i];
      }
    }
  }

  /** Lowering text that has no capital letters leaves it as it is. */
  lemma LowerOfLowercase(s: string)
    requires HasNoUpper(s)
    ensures Lower(s) == s
  {
  }

  /** Lowering distributes over concatenation. */
  lemma LowerConcat(a: string, b: string)
    ensures Lower(a + b) == Lower(a) + Lower(b)
  {
  }

  /** A lowercase letter absent from `s` in both cases is absent from `Lower(s)`. */
  lemma LowerMissing(s: string, c: char)
    requires 'a' <= c <= 'z' && c !in s && (c as int - 32) as char !in s
    ensures c !in Lower(s)
  {
    forall i | 0 <= i < |s|
      ensures Lower(s)[i] != c
    {
      assert s[i] != c && s[i] != (c as int - 32) as char;
    }
  }

  /** `strings.Contains(s, sub)`: `sub` occurs somewhere in `s` (the empty string occurs everywhere). */
  function Contains(s: string, sub: string): (r: bool)
    ensures sub == [] ==> r
    ensures |sub| > |s| ==> !r
    ensures sub <= s ==> r
    decreases |s|
  {
    if sub <= s then true
    else if |s| <= |sub| then false
    else Contains(s[1..], sub)
  }

  /** Reference definition: `sub` occurs in `s` starting at index `i`. */
  ghost predicate OccursAt(s: string, sub: string, i: int)
  {
    0 <= i && i + |sub| <= |s| && s[i..i + |sub|] == sub
  }

  /** `Contains` agrees with the reference definition in both directions. */
  lemma {:induction false} ContainsIff(s: string, sub: string)
    ensures Contains(s, sub) <==> exists i :: OccursAt(s, sub, i)
    decreases |s|
  {
    if sub <= s {
      assert OccursAt(s, sub, 0);
    } else if |s| <= |sub| {
      assert forall i :: OccursAt(s, sub, i) ==> i == 0 && s[0..|s|] == s;
    } else {
      ContainsIff(s[1..], sub);
      if j :| OccursAt(s[1..], sub, j) {
        assert s[j + 1..j + 1 + |sub|] == s[1..][j..j + |sub|];
        assert OccursAt(s, sub, j + 1);
      }
      forall i | OccursAt(s, sub, i)
        ensures OccursAt(s[1..], sub, i - 1)
      {
        assert i != 0;
        assert s[1..][i - 1..i - 1 + |sub|] == s[i..i + |sub|];
      }
    }
  }

  /** Text that occurs in `s` still occurs once more text is appended to `s`. */
  lemma ContainsExtend(s: string, t: string, sub: string)
    requires Contains(s, sub)
    ensures Contains(s + t, sub)
  {
    ContainsIff(s, sub);
    var i :| OccursAt(s, sub, i);
    assert (s + t)[i..i + |sub|] == s[i..i + |sub|];
    assert OccursAt(s + t, sub, i);
    ContainsIff(s + t, sub);
  }

  /** Every character of an occurring text is a character of the text it occurs in. */
  lemma ContainsChar(s: string, sub: string, k: int)
    requires Contains(s, sub) && 0 <= k < |sub|
    ensures sub[k] in s
  {
    ContainsIff(s, sub);
    var i :| OccursAt(s, sub, i);
    assert s[i + k] == sub[k];
  }
}
