/** The part of Go's `strings` package the templating code relies on:
    `strings.Replace(s, tok, rep, -1)` for a non-empty `tok`. */
module Strings {

  /** `tok` occurs in `s` starting at index `i`. */
  predicate OccursAt(s: string, tok: string, i: nat)
  {
    i + |tok| <= |s| && s[i..i + |tok|] == tok
  }

  predicate Contains(s: string, tok: string)
  {
    exists i: nat :: i <= |s| && OccursAt(s, tok, i)
  }

  /** Replace-all as one left-to-right scan: where `tok` starts, it is replaced by `rep`
      and the scan resumes after it (inserted text is never scanned again);
      elsewhere one character is copied. */
  function ReplaceAll(s: string, tok: string, rep: string): (r: string)
    requires tok != []
    ensures |tok| <= |rep| ==> |s| <= |r|
    ensures |rep| <= |tok| ==> |r| <= |s|
    decreases |s|
  {
    if |s| < |tok| then s
    else if s[..|tok|] == tok then rep + ReplaceAll(s[|tok|..], tok, rep)
    else [s[0]] + ReplaceAll(s[1..], tok, rep)
  }

  /** The number of occurrences the scan of `ReplaceAll` replaces (non-overlapping, leftmost first). */
  function Count(s: string, tok: string): (n: nat)
    requires tok != []
    ensures n <= |s|
    decreases |s|
  {
    if |s| < |tok| then 0
    else if s[..|tok|] == tok then
      1 + Count(s[|tok|..], tok)
    else Count(s[1..], tok)
  }

  lemma OccursAfterFirst(s: string, tok: string)
    requires s != []
    ensures forall i: nat :: 0 < i ==> (OccursAt(s, tok, i) <==> OccursAt(s[1..], tok, i - 1))
    ensures forall j: nat :: OccursAt(s[1..], tok, j) <==> OccursAt(s, tok, j + 1)
  {
  }

  /** The first index where `tok` occurs, or -1: Go's `strings.Index`. */
  function IndexOf(s: string, tok: string): (r: int)
    requires tok != []
    ensures -1 <= r
    ensures r == -1 <==> !Contains(s, tok)
    ensures r >= 0 ==> OccursAt(s, tok, r) && forall j: nat :: j < r ==> !OccursAt(s, tok, j)
    decreases |s|
  {
    if |s| < |tok| then -1
    else if s[..|tok|] == tok then assert OccursAt(s, tok, 0); 0
    else
      OccursAfterFirst(s, tok);
      assert !OccursAt(s, tok, 0);
      var k := IndexOf(s[1..], tok);
      if k < 0 then -1 else k + 1
  }

  /** Replace-all written the way Go's `strings.Replace` is: find the next occurrence
      with `Index`, copy what precedes it, emit `rep`, continue after the occurrence. */
  function ReplaceByIndex(s: string, tok: string, rep: string): (r: string)
    requires tok != []
    ensures !Contains(s, tok) ==> r == s
    decreases |s|
  {
    var i := IndexOf(s, tok);
    if i < 0 then s else s[..i] + rep + ReplaceByIndex(s[i + |tok|..], tok, rep)
  }

  /** Characters before the first occurrence are copied unchanged. */
  lemma {:induction false} CopyUntil(s: string, tok: string, rep: string, i: nat)
    requires tok != [] && i <= |s|
    requires forall j: nat :: j < i ==> !OccursAt(s, tok, j)
    ensures ReplaceAll(s, tok, rep) == s[..i] + ReplaceAll(s[i..], tok, rep)
    decreases i
  {
    if i == 0 {
      assert s[..0] == [] && s[0..] == s;
    } else {
      assert !OccursAt(s, tok, 0);
      if |s| < |tok| {
        assert s[..i] + s[i..] == s;
      } else {
        OccursAfterFirst(s, tok);
        CopyUntil(s[1..], tok, rep, i - 1);
        assert s[..i] == [s[0]] + s[1..][..i - 1];
        assert s[1..][i - 1..] == s[i..];
      }
    }
  }

  /** Content without the token is left unchanged. */
  lemma AbsentTokenUnchanged(s: string, tok: string, rep: string)
    requires tok != [] && !Contains(s, tok)
    ensures ReplaceAll(s, tok, rep) == s
  {
    CopyUntil(s, tok, rep, |s|);
    assert s[..|s|] == s && s[|s|..] == [];
  }

  /** The scan and the Index-driven loop of Go's implementation compute the same string. */
  lemma {:induction false} ReplaceAllIsIndexLoop(s: string, tok: string, rep: string)
    requires tok != []
    ensures ReplaceAll(s, tok, rep) == ReplaceByIndex(s, tok, rep)
    decreases |s|
  {
    var i := IndexOf(s, tok);
    if i < 0 {
      AbsentTokenUnchanged(s, tok, rep);
    } else {
      CopyUntil(s, tok, rep, i);
      var t := s[i..];
      assert t[..|tok|] == tok;
      assert t[|tok|..] == s[i + |tok|..];
      ReplaceAllIsIndexLoop(s[i + |tok|..], tok, rep);
    }
  }

  /** The scan replaces nothing exactly when the token does not occur. */
  lemma {:induction false} CountZeroIffAbsent(s: string, tok: string)
    requires tok != []
    ensures Count(s, tok) == 0 <==> !Contains(s, tok)
    decreases |s|
  {
    if |s| < |tok| {
    } else if s[..|tok|] == tok {
      assert OccursAt(s, tok, 0);
    } else {
      OccursAfterFirst(s, tok);
      assert !OccursAt(s, tok, 0);
      CountZeroIffAbsent(s[1..], tok);
    }
  }

  /** Every replaced occurrence changes the length by `|rep| - |tok|`. */
  lemma {:induction false} ReplaceAllLength(s: string, tok: string, rep: string)
    requires tok != []
    ensures |ReplaceAll(s, tok, rep)| == |s| + Count(s, tok) * (|rep| - |tok|)
    decreases |s|
  {
    if |s| < |tok| {
      assert Count(s, tok) == 0 && ReplaceAll(s, tok, rep) == s;
    } else if s[..|tok|] == tok {
      var t := s[|tok|..];
      ReplaceAllLength(t, tok, rep);
      assert ReplaceAll(s, tok, rep) == rep + ReplaceAll(t, tok, rep);
      assert Count(s, tok) == 1 + Count(t, tok);
      MulSucc(Count(t, tok), |rep| - |tok|);
    } else {
      ReplaceAllLength(s[1..], tok, rep);
      assert ReplaceAll(s, tok, rep) == [s[0]] + ReplaceAll(s[1..], tok, rep);
      assert Count(s, tok) == Count(s[1..], tok);
    }
  }

  lemma MulSucc(c: int, d: int)
    ensures (1 + c) * d == c * d + d
  {
  }

  /** Replacing the token by itself changes nothing. */
  lemma {:induction false} ReplaceBySelf(s: string, tok: string)
    requires tok != []
    ensures ReplaceAll(s, tok, tok) == s
    decreases |s|
  {
    if |s| < |tok| {
    } else if s[..|tok|] == tok {
      ReplaceBySelf(s[|tok|..], tok);
      assert s[..|tok|] + s[|tok|..] == s;
    } else {
      ReplaceBySelf(s[1..], tok);
      assert [s[0]] + s[1..] == s;
    }
  }

  /** Adjacent occurrences are both replaced: `${x}${x}` with x -> y is `yy`. */
  lemma AdjacentOccurrences()
    ensures ReplaceAll("${x}${x}", "${x}", "y") == "yy"
  {
  }

  /** One pass only: a token that the replacement forms with its neighbours stays. */
  lemma SinglePass()
    ensures ReplaceAll("${${x}x}", "${x}", "") == "${x}"
  {
  }

  /** `temp ${file}` with `${file}` -> `new` is `temp new`. */
  lemma PlaceholderExample()
    ensures ReplaceAll("temp ${file}", "${file}", "new") == "temp new"
  {
    var s, tok := "temp ${file}", "${file}";
    forall j: nat | j < 5
      ensures !OccursAt(s, tok, j)
    {
      assert s[j..j + |tok|][0] == s[j];
      assert s[j] != '$';
    }
    CopyUntil(s, tok, "new", 5);
    assert s[..5] == "temp " && s[5..] == tok;
    assert tok[..|tok|] == tok && tok[|tok|..] == [];
  }
}
