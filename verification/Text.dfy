/** Searching in byte sequences, as std::find and std::search do. A byte is a `char`. */
module Text {
  import opened Options

  predicate CRLFAt(s: string, i: nat) {
    i + 1 < |s| && s[i] == '\r' && s[i + 1] == '\n'
  }

  /** The first "\r\n" at or after i. */
  function CRLFFrom(s: string, i: nat): (r: Option<nat>)
    requires i <= |s|
    ensures r.Some? ==> i <= r.value && CRLFAt(s, r.value) && forall j :: i <= j < r.value ==> !CRLFAt(s, j)
    ensures r.None? ==> forall j :: i <= j ==> !CRLFAt(s, j)
    decreases |s| - i
  {
    if i == |s| then None
    else if CRLFAt(s, i) then Some(i)
    else CRLFFrom(s, i + 1)
  }

  function FindCRLF(s: string): (r: Option<nat>)
    ensures r.Some? ==> CRLFAt(s, r.value) && forall j :: 0 <= j < r.value ==> !CRLFAt(s, j)
    ensures r.None? ==> forall j: nat :: !CRLFAt(s, j)
  {
    CRLFFrom(s, 0)
  }

  /** The first occurrence of c, or the length when there is none. */
  function FindChar(s: string, c: char): (r: nat)
    ensures r <= |s|
    ensures r < |s| ==> s[r] == c
    ensures forall j :: 0 <= j < r ==> s[j] != c
  {
    if s == [] || s[0] == c then 0 else 1 + FindChar(s[1..], c)
  }

  lemma FindCRLFIs(s: string, k: nat)
    requires CRLFAt(s, k) && forall j :: 0 <= j < k ==> !CRLFAt(s, j)
    ensures FindCRLF(s) == Some(k)
  {
  }

  /** Bytes that arrive later never move a line end that was already there. */
  lemma CRLFIsStable(s: string, t: string)
    requires FindCRLF(s).Some?
    ensures FindCRLF(s + t) == FindCRLF(s)
  {
    var k := FindCRLF(s).value;
    forall j | 0 <= j < k
      ensures !CRLFAt(s + t, j)
    {
      assert !CRLFAt(s, j);
    }
    assert CRLFAt(s + t, k);
  }

  lemma FindCharIs(s: string, c: char, k: nat)
    requires k <= |s| && (k < |s| ==> s[k] == c)
    requires forall j :: 0 <= j < k ==> s[j] != c
    ensures FindChar(s, c) == k
  {
  }
}
