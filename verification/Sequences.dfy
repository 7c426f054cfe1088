/** Small shared notions about sequences and strings. */
module Sequences {
  predicate Distinct<T(==)>(s: seq<T>) {
    forall i, j :: 0 <= i < j < |s| ==> s[i] != s[j]
  }

  /** Length of the Python slice s[:k] of a list of length n; a negative k counts from the end. */
  function Cut(n: nat, k: int): (c: nat)
    ensures c <= n
  {
    if k >= 0 then (if k < n then k else n)
    else if n + k >= 0 then n + k else 0
  }

  /** s has this text at position i. */
  predicate TextAt(s: string, i: nat, text: string) {
    i + |text| <= |s| && forall k :: 0 <= k < |text| ==> s[i + k] == text[k]
  }

  lemma CharAt(s: string, i: nat, text: string, k: nat)
    requires TextAt(s, i, text) && k < |text|
    ensures s[i + k] == text[k]
  {
  }

  /** The same as a slice. */
  predicate Reads(s: string, i: nat, text: string) { i + |text| <= |s| && s[i..i + |text|] == text }

  lemma ReadsIsText(s: string, i: nat, text: string)
    ensures TextAt(s, i, text) <==> Reads(s, i, text)
  {
    if TextAt(s, i, text) {
      forall k | 0 <= k < |text| ensures s[i..i + |text|][k] == text[k] {
        CharAt(s, i, text, k);
      }
    }
    if Reads(s, i, text) {
      forall k | 0 <= k < |text| ensures s[i + k] == text[k] {
        assert s[i..i + |text|][k] == text[k];
      }
    }
  }
}
