/**
 * Wide-character buffers as the Win32 calls see them: NUL-terminated strings
 * stored in a std::wstring. A std::wstring keeps one more NUL just past its
 * last element, so a string that runs to the end of the buffer ends there.
 */
module WideStrings {

  /** A freshly sized or resized part of a buffer: all NUL. */
  function Zeros(n: nat): (r: seq<char>)
    ensures |r| == n
    ensures forall i :: 0 <= i < n ==> r[i] == '\0'
  {
    seq(n, _ => '\0')
  }

  /** `s` holds no NUL, so it reads back as one whole C string. */
  predicate NoNul(s: seq<char>)
  {
    forall i :: 0 <= i < |s| ==> s[i] != '\0'
  }

  /** wcslen applied at index `p`: the length of the run of non-NUL characters starting there. */
  function StrLen(s: seq<char>, p: nat): (n: nat)
    requires p <= |s|
    ensures p + n <= |s|
    decreases |s| - p
  {
    if p == |s| || s[p] == '\0' then 0 else 1 + StrLen(s, p + 1)
  }

  /** wcslen stops at the first NUL: none before it, and it is there unless the buffer ends first. */
  lemma {:induction false} StrLenStopsAtNul(s: seq<char>, p: nat)
    requires p <= |s|
    ensures forall i :: p <= i < p + StrLen(s, p) ==> s[i] != '\0'
    ensures p + StrLen(s, p) < |s| ==> s[p + StrLen(s, p)] == '\0'
    decreases |s| - p
  {
    if p < |s| && s[p] != '\0' {
      StrLenStopsAtNul(s, p + 1);
    }
  }

  /** The C string that starts at index `p` (what the conversion of `&buffer[p]` reads). */
  function CStringAt(s: seq<char>, p: nat): seq<char>
    requires p <= |s|
  {
    s[p..p + StrLen(s, p)]
  }

  /** The C string read at `p` has no NUL, and a NUL ends it unless the buffer does. */
  lemma CStringAtIsWord(s: seq<char>, p: nat)
    requires p <= |s|
    ensures NoNul(CStringAt(s, p)) && |CStringAt(s, p)| == StrLen(s, p)
    ensures p + StrLen(s, p) < |s| ==> s[p + StrLen(s, p)] == '\0'
  {
    StrLenStopsAtNul(s, p);
  }

  /** A NUL-free word placed at `p` and followed by a NUL (or by the end of the buffer) is the C string there. */
  lemma CStringOfWord(s: seq<char>, p: nat, w: seq<char>)
    requires NoNul(w)
    requires p + |w| <= |s| && s[p..p + |w|] == w
    requires p + |w| < |s| ==> s[p + |w|] == '\0'
    ensures StrLen(s, p) == |w|
    ensures CStringAt(s, p) == w
  {
    StrLenStopsAtNul(s, p);
  }

  /** A NUL at index `k` bounds the string read at any `p <= k`. */
  lemma StrLenBelowNul(s: seq<char>, p: nat, k: nat)
    requires p <= k < |s| && s[k] == '\0'
    ensures p + StrLen(s, p) <= k
  {
    StrLenStopsAtNul(s, p);
  }

  /** Helper: a plain sequence fact, stated once and called where a larger proof needs it. */
  lemma AppendAssociative<T>(a: seq<T>, b: seq<T>, c: seq<T>)
    ensures a + (b + c) == (a + b) + c
  {
  }

  /** Helper: a plain sequence fact, stated once and called where a larger proof needs it. */
  lemma SliceSplit<T>(s: seq<T>, a: nat, b: nat, c: nat)
    requires a <= b <= c <= |s|
    ensures s[a..c] == s[a..b] + s[b..c]
  {
  }

  /** Helper: a plain sequence fact, stated once and called where a larger proof needs it. */
  lemma TakeDrop<T>(s: seq<T>, n: nat)
    requires n <= |s|
    ensures s == s[..n] + s[n..]
  {
  }
}
