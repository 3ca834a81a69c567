/** The completion filter of internal/ssh/ssh_remote.go: binary search, then a bounded scan. */
module PrefixSearch {
  import opened Bytes

  const MAX_REMOTE_RESULTS := 100

  /** Byte-wise lexicographic order. */
  predicate Less(a: seq<byte>, b: seq<byte>) {
    if b == [] then false
    else if a == [] then true
    else if a[0] != b[0] then a[0] < b[0]
    else Less(a[1..], b[1..])
  }

  predicate AtMost(a: seq<byte>, b: seq<byte>) {
    !Less(b, a)
  }

  predicate Sorted(list: seq<seq<byte>>) {
    forall i, j :: 0 <= i <= j < |list| ==> AtMost(list[i], list[j])
  }

  /** The linear filter the search must agree with. */
  function WithPrefix(list: seq<seq<byte>>, prefix: seq<byte>): seq<seq<byte>> {
    if list == [] then []
    else
      var last := list[|list| - 1];
      WithPrefix(list[..|list| - 1], prefix) + if prefix <= last then [last] else []
  }

  function FirstResults(list: seq<seq<byte>>): seq<seq<byte>> {
    if |list| <= MAX_REMOTE_RESULTS then list else list[..MAX_REMOTE_RESULTS]
  }

  // ---- order and prefixes ----

  lemma {:induction false} AtMostTransitive(a: seq<byte>, b: seq<byte>, c: seq<byte>)
    requires AtMost(a, b) && AtMost(b, c)
    ensures AtMost(a, c)
  {
    if a != [] && b != [] && c != [] && a[0] == b[0] == c[0] {
      AtMostTransitive(a[1..], b[1..], c[1..]);
    }
  }

  /** Whatever starts with the prefix is not below it. */
  lemma {:induction false} PrefixAtMost(prefix: seq<byte>, s: seq<byte>)
    requires prefix <= s
    ensures AtMost(prefix, s)
  {
    if prefix != [] {
      PrefixAtMost(prefix[1..], s[1..]);
    }
  }

  /** Strings with the prefix are contiguous: nothing else lies between the prefix and one of them. */
  lemma {:induction false} PrefixInterval(prefix: seq<byte>, a: seq<byte>, b: seq<byte>)
    requires AtMost(prefix, a) && AtMost(a, b) && prefix <= b
    ensures prefix <= a
  {
    if prefix != [] {
      PrefixInterval(prefix[1..], a[1..], b[1..]);
      assert prefix == [prefix[0]] + prefix[1..] && a == [a[0]] + a[1..];
    }
  }

  // ---- the search ----

  /** sort.SearchStrings: the first index whose element is not below x. */
  method SearchStrings(list: seq<seq<byte>>, x: seq<byte>) returns (i: nat)
    requires Sorted(list)
    ensures i <= |list|
    ensures forall k :: 0 <= k < i ==> Less(list[k], x)
    ensures forall k :: i <= k < |list| ==> AtMost(x, list[k])
  {
    i := 0;
    var j := |list|;
    while i < j
      invariant i <= j <= |list|
      invariant forall k :: 0 <= k < i ==> Less(list[k], x)
      invariant forall k :: j <= k < |list| ==> AtMost(x, list[k])
    {
      var h := (i + j) / 2;
      if Less(list[h], x) {
        forall k | 0 <= k <= h ensures Less(list[k], x) {
          if !Less(list[k], x) {
            AtMostTransitive(x, list[k], list[h]);
          }
        }
        i := h + 1;
      } else {
        forall k | h <= k < |list| ensures AtMost(x, list[k]) {
          AtMostTransitive(x, list[h], list[k]);
        }
        j := h;
      }
    }
  }

  lemma {:induction false} NoneWithPrefix(list: seq<seq<byte>>, prefix: seq<byte>)
    requires forall k :: 0 <= k < |list| ==> !(prefix <= list[k])
    ensures WithPrefix(list, prefix) == []
  {
    if list != [] {
      NoneWithPrefix(list[..|list| - 1], prefix);
    }
  }

  lemma {:induction false} AllWithPrefix(list: seq<seq<byte>>, prefix: seq<byte>)
    requires forall k :: 0 <= k < |list| ==> prefix <= list[k]
    ensures WithPrefix(list, prefix) == list
  {
    if list != [] {
      AllWithPrefix(list[..|list| - 1], prefix);
    }
  }

  lemma {:induction false} WithPrefixConcat(a: seq<seq<byte>>, b: seq<seq<byte>>, prefix: seq<byte>)
    ensures WithPrefix(a + b, prefix) == WithPrefix(a, prefix) + WithPrefix(b, prefix)
  {
    if b == [] {
      assert a + b == a;
    } else {
      assert (a + b)[..|a + b| - 1] == a + b[..|b| - 1];
      WithPrefixConcat(a, b[..|b| - 1], prefix);
    }
  }

  /** A block of the list that starts at the search position and has the prefix throughout is the filter's start. */
  lemma BlockOfPrefix(list: seq<seq<byte>>, prefix: seq<byte>, from: nat, to: nat)
    requires from <= to <= |list|
    requires forall k :: 0 <= k < from ==> !(prefix <= list[k])
    requires forall k :: from <= k < to ==> prefix <= list[k]
    ensures WithPrefix(list, prefix) == list[from..to] + WithPrefix(list[to..], prefix)
  {
    hide *;
    NoneWithPrefix(list[..from], prefix);
    AllWithPrefix(list[from..to], prefix);
    ThreeParts(list, from, to);
    WithPrefixConcat(list[..from] + list[from..to], list[to..], prefix);
    WithPrefixConcat(list[..from], list[from..to], prefix);
    assert [] + list[from..to] == list[from..to];
  }

  lemma ThreeParts<T>(list: seq<T>, from: nat, to: nat)
    requires from <= to <= |list|
    ensures list == list[..from] + list[from..to] + list[to..]
  {
  }

  /** On a sorted list: the first MAX_REMOTE_RESULTS elements of the linear prefix filter. */
  method PrefixFilter(sorted: seq<seq<byte>>, prefix: seq<byte>) returns (result: seq<seq<byte>>)
    requires Sorted(sorted)
    ensures result == FirstResults(WithPrefix(sorted, prefix))
  {
    hide Less, AtMost, WithPrefix;
    if prefix == [] {
      AllWithPrefix(sorted, prefix);
      var n := |sorted|;
      if n > MAX_REMOTE_RESULTS {
        n := MAX_REMOTE_RESULTS;
      }
      return sorted[..n];
    }
    var idx := SearchStrings(sorted, prefix);
    NoneBefore(sorted, prefix, idx);
    result := [];
    var i := idx;
    while i < |sorted|
      invariant idx <= i <= |sorted| && result == sorted[idx..i] && |result| < MAX_REMOTE_RESULTS
      invariant forall k :: idx <= k < i ==> prefix <= sorted[k]
    {
      if !(prefix <= sorted[i]) {
        break;
      }
      result := result + [sorted[i]];
      if |result| >= MAX_REMOTE_RESULTS {
        BlockOfPrefix(sorted, prefix, idx, i + 1);
        return;
      }
      i := i + 1;
    }
    BlockOfPrefix(sorted, prefix, idx, i);
    NoneBehind(sorted, prefix, i);
    NoneWithPrefix(sorted[i..], prefix);
  }

  lemma NoneBefore(list: seq<seq<byte>>, prefix: seq<byte>, idx: nat)
    requires idx <= |list| && forall k :: 0 <= k < idx ==> Less(list[k], prefix)
    ensures forall k :: 0 <= k < idx ==> !(prefix <= list[k])
  {
    forall k | 0 <= k < idx ensures !(prefix <= list[k]) {
      if prefix <= list[k] {
        PrefixAtMost(prefix, list[k]);
      }
    }
  }

  /** From the first element behind the search position without the prefix on, none has it. */
  lemma NoneBehind(list: seq<seq<byte>>, prefix: seq<byte>, i: nat)
    requires Sorted(list) && i <= |list|
    requires i < |list| ==> AtMost(prefix, list[i]) && !(prefix <= list[i])
    ensures forall k :: i <= k < |list| ==> !(prefix <= list[k])
  {
    hide AtMost;
    forall k | i <= k < |list| ensures !(prefix <= list[k]) {
      if prefix <= list[k] {
        PrefixInterval(prefix, list[i], list[k]);
      }
    }
  }
}
