/** Texts put together out of parts, and what stands where in them. */
module Texts {
  predicate Digital(s: string) { forall i :: 0 <= i < |s| ==> '0' <= s[i] <= '9' }

  predicate SignText(s: string) { s == "" || s == "+" || s == "-" }

  predicate StartsWith(s: string, cs: set<char>) { s != "" && s[0] in cs }

  predicate StartsWithDigit(s: string) { s != "" && '0' <= s[0] <= '9' }

  /** From i on the text is x and then t. */
  predicate Stands(s: string, i: nat, x: string, t: string) { i <= |s| && s[i..] == x + t }

  lemma {:induction false} Over(s: string, i: nat, x: string, t: string, y: string, u: string)
    requires Stands(s, i, x, t) && t == y + u
    ensures i + |x| <= |s| && s[i..i + |x|] == x && s[i + |x|..] == t && Stands(s, i + |x|, y, u)
  {
    assert s[i..][..|x|] == s[i..i + |x|] && s[i..][|x|..] == s[i + |x|..];
  }

  lemma {:induction false} Begin(x: string, t: string)
    ensures Stands(x + t, 0, x, t)
  {
  }

  lemma {:induction false} StandsIs(s: string, i: nat, x: string, t: string)
    requires Stands(s, i, x, t)
    ensures i <= |s| && s[i..] == x + t
  {
  }

  lemma {:induction false} Mid(s: string, i: nat, x: string, t: string)
    requires i <= |s| && s[i..] == x + t
    ensures Stands(s, i, x, t)
  {
  }

  lemma {:induction false} Divide(s: string, i: nat, j: nat)
    requires i <= j <= |s|
    ensures s[i..] == s[i..j] + s[j..]
  {
  }
}
