/**
 * The few `java.lang.String` operations the amount parser relies on:
 * `trim()`, `indexOf(String)` for a one-character needle,
 * `replace(CharSequence, CharSequence)` with an empty replacement, and
 * `endsWith(String)` for a one-character suffix.
 */
module JavaString {
  import opened Wrappers

  /** `trim()` drops every leading and trailing character whose code is at most U+0020. */
  predicate IsTrimmable(c: char) {
    c <= ' '
  }

  /** Drops the leading trimmable characters. */
  function TrimStart(s: string): (r: string)
    ensures |r| <= |s| && r == s[|s| - |r|..]
    ensures forall i :: 0 <= i < |s| - |r| ==> IsTrimmable(s[i])
    ensures r != [] ==> !IsTrimmable(r[0])
  {
    if s != [] && IsTrimmable(s[0]) then TrimStart(s[1..]) else s
  }

  /** Drops the trailing trimmable characters. */
  function TrimEnd(s: string): (r: string)
    ensures |r| <= |s| && r == s[..|r|]
    ensures forall i :: |r| <= i < |s| ==> IsTrimmable(s[i])
    ensures r != [] ==> !IsTrimmable(r[|r| - 1])
  {
    if s != [] && IsTrimmable(s[|s| - 1]) then TrimEnd(s[..|s| - 1]) else s
  }

  /** `String.trim()`: drop the trimmable characters at both ends. */
  function Trim(s: string): string {
    TrimEnd(TrimStart(s))
  }

  /**
   * The trimmed string is a slice of `s` that neither starts nor ends with a
   * trimmable character, and everything cut off is trimmable.
   */
  lemma {:induction false} TrimMeaning(s: string)
    ensures |s| - |TrimStart(s)| + |Trim(s)| <= |s|
    ensures Trim(s) == s[|s| - |TrimStart(s)|..|s| - |TrimStart(s)| + |Trim(s)|]
    ensures forall k :: 0 <= k < |s| - |TrimStart(s)| ==> IsTrimmable(s[k])
    ensures forall k :: |s| - |TrimStart(s)| + |Trim(s)| <= k < |s| ==> IsTrimmable(s[k])
    ensures Trim(s) != [] ==> !IsTrimmable(Trim(s)[0]) && !IsTrimmable(Trim(s)[|Trim(s)| - 1])
  {
    TrimSlice(s);
    TrimTail(s);
  }

  /** The trimmed string is the slice of `s` that starts where `TrimStart` cut. */
  lemma {:induction false} TrimSlice(s: string)
    ensures |s| - |TrimStart(s)| + |Trim(s)| <= |s|
    ensures Trim(s) == s[|s| - |TrimStart(s)|..|s| - |TrimStart(s)| + |Trim(s)|]
  {
    PrefixOfSuffix(s, TrimStart(s), Trim(s));
  }

  /** Everything after the trimmed string is trimmable. */
  lemma {:induction false} TrimTail(s: string)
    ensures forall k :: |s| - |TrimStart(s)| + |Trim(s)| <= k < |s| ==> IsTrimmable(s[k])
  {
    TailOfSuffix(s, TrimStart(s), Trim(s));
  }

  /** A prefix `r` of a suffix `t` of `s` is a slice of `s`. */
  lemma PrefixOfSuffix(s: string, t: string, r: string)
    requires |t| <= |s| && t == s[|s| - |t|..]
    requires |r| <= |t| && r == t[..|r|]
    ensures r == s[|s| - |t|..|s| - |t| + |r|]
  {
    var i := |s| - |t|;
    assert s[i..][..|r|] == s[i..i + |r|];
  }

  /** What a suffix `t` of `s` has trimmable after its prefix `r`, `s` has trimmable after the same characters. */
  lemma TailOfSuffix(s: string, t: string, r: string)
    requires |t| <= |s| && t == s[|s| - |t|..]
    requires |r| <= |t| && forall j :: |r| <= j < |t| ==> IsTrimmable(t[j])
    ensures forall k :: |s| - |t| + |r| <= k < |s| ==> IsTrimmable(s[k])
  {
    var i := |s| - |t|;
    forall k | i + |r| <= k < |s| ensures IsTrimmable(s[k]) {
      assert s[k] == t[k - i];
    }
  }

  /** A string that starts and ends with a non-trimmable character is left as it is. */
  lemma {:induction false} TrimKeeps(s: string)
    requires s == [] || (!IsTrimmable(s[0]) && !IsTrimmable(s[|s| - 1]))
    ensures Trim(s) == s
  {
  }

  /** `indexOf`: the position of the first occurrence of `c`, `None` where Java returns -1. */
  function IndexOf(s: string, c: char): (r: Option<nat>)
    ensures r.None? <==> c !in s
    ensures r.Some? ==> r.value < |s| && s[r.value] == c && c !in s[..r.value]
  {
    if s == [] then None
    else if s[0] == c then Some(0)
    else match IndexOf(s[1..], c)
      case None => None
      case Some(i) =>
        assert s[..i + 1] == [s[0]] + s[1..][..i];
        Some(i + 1)
  }

  /** `replace(String.valueOf(c), "")`: every occurrence of `c` removed, the rest kept in order. */
  function RemoveAll(s: string, c: char): (r: string)
    ensures c !in r
    ensures |r| <= |s|
  {
    if s == [] then []
    else if s[0] == c then RemoveAll(s[1..], c)
    else [s[0]] + RemoveAll(s[1..], c)
  }

  /** Removal drops exactly the occurrences of `c`: every other character keeps its count. */
  lemma {:induction false} RemoveAllContents(s: string, c: char)
    ensures multiset(RemoveAll(s, c)) == multiset(s)[c := 0]
  {
    if s != [] {
      assert s == [s[0]] + s[1..];
      RemoveAllContents(s[1..], c);
    }
  }

  /** Removing from a concatenation removes from each part. */
  lemma {:induction false} RemoveAllConcat(a: string, b: string, c: char)
    ensures RemoveAll(a + b, c) == RemoveAll(a, c) + RemoveAll(b, c)
  {
    if a == [] {
      assert a + b == b;
    } else {
      assert (a + b)[0] == a[0] && (a + b)[1..] == a[1..] + b;
      RemoveAllConcat(a[1..], b, c);
    }
  }

  /** A string free of `c` is unchanged by removing `c`. */
  lemma {:induction false} RemoveAllAbsent(s: string, c: char)
    requires c !in s
    ensures RemoveAll(s, c) == s
  {
    if s != [] {
      RemoveAllAbsent(s[1..], c);
    }
  }

  /** `endsWith(String.valueOf(c))`. */
  predicate EndsWith(s: string, c: char) {
    |s| > 0 && s[|s| - 1] == c
  }

  /** Only the last character counts: appending a non-empty piece leaves its ending as the whole string's. */
  lemma EndsWithSuffix(a: string, b: string, c: char)
    requires b != []
    ensures EndsWith(a + b, c) <==> EndsWith(b, c)
  {
    assert (a + b)[|a + b| - 1] == b[|b| - 1];
  }
}
