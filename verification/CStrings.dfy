/**
 NUL-terminated strings as the C code reads them.
 */
module CStrings {
  const NUL := '\0'

  // An argument that may be NULL.
  datatype Arg = Null | Str(s: string)
  {
    predicate CString() { Str? ==> NUL !in s }
  }

  // What *(s + i) reads.
  function CharAt(s: string, i: nat): char { if i < |s| then s[i] else NUL }

  // A C string ends exactly at its NUL.
  lemma AtEnd(s: string, i: nat)
    requires NUL !in s && i <= |s|
    ensures CharAt(s, i) == NUL <==> i == |s|
  {
    if i < |s| {
      assert s[i] in s;
    }
  }

  lemma Step(s: string, i: nat)
    requires i < |s|
    ensures s[i..] != "" && s[i..][0] == s[i] && s[i..][1..] == s[i + 1..]
  {
  }

  // Up to the first `stop`, or to the end.
  function Skip(h: string, stop: char): (k: nat)
    ensures k <= |h| && (k < |h| ==> h[k] == stop) && forall i :: 0 <= i < k ==> h[i] != stop
  {
    if h == "" || h[0] == stop then 0 else 1 + Skip(h[1..], stop)
  }

  // The same from a position.
  function StopAt(s: string, from: nat, stop: char): (i: nat)
    requires from <= |s|
    ensures from <= i <= |s|
  {
    from + Skip(s[from..], stop)
  }

  predicate Lacks(s: string, c: char) { forall i :: 0 <= i < |s| ==> s[i] != c }

  lemma DropTwice(s: string, i: nat, k: nat)
    requires i + k <= |s|
    ensures s[i..][k..] == s[i + k..]
  {
  }
}
