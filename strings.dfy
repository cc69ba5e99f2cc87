/**
 * The two pieces of java.lang / java.util string handling the mapper relies on:
 * String.trim() and a StringTokenizer over the delimiter ",".
 * Characters are Dafny chars; Java's UTF-16 code units are not modelled.
 */
module Strings {

  /** String.trim() strips every character whose code is at most that of the space. */
  predicate IsBlank(ch: char)
  {
    ch <= ' '
  }

  /** The index of the first non-blank character of s (|s| when there is none). */
  function TrimStart(s: string): (st: nat)
    ensures st <= |s|
    ensures forall i :: 0 <= i < st ==> IsBlank(s[i])
    ensures st == |s| || !IsBlank(s[st])
    decreases |s|
  {
    if s == [] || !IsBlank(s[0]) then 0 else 1 + TrimStart(s[1..])
  }

  /** The end of s once trailing blanks are stripped, never below st. */
  function TrimEnd(s: string, st: nat): (len: nat)
    requires st <= |s|
    ensures st <= len <= |s|
    ensures forall i :: len <= i < |s| ==> IsBlank(s[i])
    ensures len == st || !IsBlank(s[len - 1])
    decreases |s|
  {
    if |s| == st || !IsBlank(s[|s| - 1]) then |s| else TrimEnd(s[..|s| - 1], st)
  }

  /** String.trim(): s without its leading and trailing blanks. */
  function Trim(s: string): (t: string)
    ensures |t| <= |s|
    ensures t == [] || (!IsBlank(t[0]) && !IsBlank(t[|t| - 1]))
    // trim() is empty exactly when the whole string is blank
    ensures t == [] <==> forall i :: 0 <= i < |s| ==> IsBlank(s[i])
  {
    var st := TrimStart(s);
    var len := TrimEnd(s, st);
    s[st..len]
  }

  /** The stripped parts of trim() are blank and what is kept is a contiguous piece of s. */
  lemma TrimIsInfix(s: string)
    ensures exists st, len ::
              && 0 <= st <= len <= |s|
              && Trim(s) == s[st..len]
              && (forall i :: 0 <= i < st ==> IsBlank(s[i]))
              && (forall i :: len <= i < |s| ==> IsBlank(s[i]))
  {
    var st := TrimStart(s);
    var len := TrimEnd(s, st);
    assert Trim(s) == s[st..len];
  }

  /** A string with no blank at either end is its own trim. */
  lemma TrimKeepsUnpadded(s: string)
    requires s == [] || (!IsBlank(s[0]) && !IsBlank(s[|s| - 1]))
    ensures Trim(s) == s
  {
    assert TrimStart(s) == 0;
    assert TrimEnd(s, 0) == |s|;
    assert s[0..|s|] == s;
  }

  /** The token delimiter of the mapper's StringTokenizer. */
  const Comma: char := ','

  /** The length of the run of non-delimiters at the start of s. */
  function RunLength(s: string): (n: nat)
    ensures n <= |s|
    ensures forall i :: 0 <= i < n ==> s[i] != Comma
    ensures n == |s| || s[n] == Comma
    decreases |s|
  {
    if s == [] || s[0] == Comma then 0 else 1 + RunLength(s[1..])
  }

  /**
   * new StringTokenizer(s, ","): the maximal non-empty runs of non-delimiter
   * characters, in order; a run of delimiters yields no empty token.
   */
  function Tokens(s: string): (ts: seq<string>)
    ensures forall i :: 0 <= i < |ts| ==> ts[i] != [] && Comma !in ts[i]
    decreases |s|
  {
    if s == [] then []
    else if s[0] == Comma then Tokens(s[1..])
    else
      var n := RunLength(s);
      [s[..n]] + Tokens(s[n..])
  }

  /** A non-empty string without a delimiter is a single token. */
  lemma TokensOfUndelimited(s: string)
    requires s != [] && Comma !in s
    ensures Tokens(s) == [s]
  {
    assert forall i :: 0 <= i < |s| ==> s[i] != Comma;
    assert RunLength(s) == |s|;
    assert s[..|s|] == s;
    assert s[|s|..] == [];
  }

  /** Splitting at a delimiter splits the token sequence: tokens never span a delimiter. */
  lemma {:induction false} TokensSplit(a: string, b: string)
    ensures Tokens(a + [Comma] + b) == Tokens(a) + Tokens(b)
    decreases |a|
  {
    var s := a + [Comma] + b;
    if a == [] {
      assert s[1..] == b;
    } else if a[0] == Comma {
      assert s[1..] == a[1..] + [Comma] + b;
      TokensSplit(a[1..], b);
    } else {
      var n := RunLength(a);
      RunLengthPrefix(a, [Comma] + b);
      assert s == a + ([Comma] + b);
      assert s[..n] == a[..n];
      assert s[n..] == a[n..] + [Comma] + b;
      TokensSplit(a[n..], b);
    }
  }

  /** A run that ends inside a, or at a delimiter after it, is the same run in a + rest. */
  lemma {:induction false} RunLengthPrefix(a: string, rest: string)
    requires rest != [] && rest[0] == Comma
    ensures RunLength(a + rest) == RunLength(a)
    decreases |a|
  {
    if a != [] && a[0] != Comma {
      assert (a + rest)[1..] == a[1..] + rest;
      RunLengthPrefix(a[1..], rest);
    }
  }
}
