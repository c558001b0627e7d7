/**
 String helpers with the meaning of the Go functions the modelled code calls:
 strings.HasPrefix, Contains, TrimPrefix, TrimRight, IndexRune and Split.
 */
module Strings {

  predicate HasPrefix(s: string, prefix: string) {
    prefix <= s
  }

  /** sub occurs in s starting at position i. */
  predicate OccursAt(s: string, sub: string, i: nat) {
    i + |sub| <= |s| && s[i..i + |sub|] == sub
  }

  predicate Contains(s: string, sub: string) {
    exists i: nat :: i <= |s| && OccursAt(s, sub, i)
  }

  function TrimPrefix(s: string, prefix: string): string {
    if HasPrefix(s, prefix) then s[|prefix|..] else s
  }

  lemma PrefixMeans(s: string, prefix: string)
    ensures HasPrefix(s, prefix) <==> exists rest :: s == prefix + rest
  {
    if HasPrefix(s, prefix) {
      assert s == prefix + s[|prefix|..];
    }
  }

  /** A prefix is cut off once, and a text without it stays as it is. */
  lemma TrimPrefixMeans(s: string, prefix: string)
    ensures forall rest :: s == prefix + rest ==> TrimPrefix(s, prefix) == rest
    ensures (forall rest :: s != prefix + rest) ==> TrimPrefix(s, prefix) == s
  {
    PrefixMeans(s, prefix);
    forall rest | s == prefix + rest ensures TrimPrefix(s, prefix) == rest {
      assert (prefix + rest)[|prefix|..] == rest;
    }
  }

  lemma ContainsMeans(s: string, sub: string)
    ensures Contains(s, sub) <==> exists before, after :: s == before + sub + after
  {
    if i: nat :| i <= |s| && OccursAt(s, sub, i) {
      assert s == s[..i] + sub + s[i + |sub|..];
    }
    if before, after :| s == before + sub + after {
      assert OccursAt(s, sub, |before|);
    }
  }

  function TrimRight(s: string, c: char): string {
    if s != "" && s[|s| - 1] == c then TrimRight(s[..|s| - 1], c) else s
  }

  function Repeat(c: char, n: nat): string {
    seq(n, _ => c)
  }

  /** Position of the first c in s, or |s| when there is none. */
  function Index(s: string, c: char): (i: nat)
    ensures i <= |s|
  {
    if s == "" || s[0] == c then 0 else 1 + Index(s[1..], c)
  }

  /** The pieces of s between occurrences of c; always at least one piece. */
  function Split(s: string, c: char): (parts: seq<string>)
    ensures |parts| >= 1
    decreases |s|
  {
    var i := Index(s, c);
    if i == |s| then [s] else [s[..i]] + Split(s[i + 1..], c)
  }

  /** Inverse of Split. */
  function Join(parts: seq<string>, c: char): string
    requires |parts| >= 1
  {
    if |parts| == 1 then parts[0] else parts[0] + [c] + Join(parts[1..], c)
  }

  lemma {:induction false} JoinSplit(s: string, c: char)
    ensures Join(Split(s, c), c) == s
    decreases |s|
  {
    var i := Index(s, c);
    IndexSpec(s, c);
    if i < |s| {
      var rest := Split(s[i + 1..], c);
      JoinSplit(s[i + 1..], c);
      assert Split(s, c) == [s[..i]] + rest;
      hide Split, Index;
      assert ([s[..i]] + rest)[1..] == rest;
      assert s == s[..i] + [c] + s[i + 1..];
    }
  }

  /** No c before the index, and c at it. */
  lemma {:induction false} IndexSpec(s: string, c: char)
    ensures c !in s[..Index(s, c)]
    ensures Index(s, c) < |s| ==> s[Index(s, c)] == c
  {
    if s != "" && s[0] != c {
      IndexSpec(s[1..], c);
      assert s[..Index(s, c)] == [s[0]] + s[1..][..Index(s[1..], c)];
    }
  }

  /** Index is determined by that. */
  lemma {:induction false} IndexIs(s: string, c: char, i: nat)
    requires i <= |s| && c !in s[..i]
    requires i < |s| ==> s[i] == c
    ensures Index(s, c) == i
  {
    if i > 0 {
      assert s[0] == s[..i][0];
      assert s[1..][..i - 1] == s[..i][1..];
      IndexIs(s[1..], c, i - 1);
    }
  }

  /** The first c of a c-free text followed by c and anything is the one that was put there. */
  lemma IndexAfter(head: string, c: char, tail: string)
    requires c !in head
    ensures Index(head + [c] + tail, c) == |head|
  {
    assert (head + [c] + tail)[..|head|] == head;
    IndexIs(head + [c] + tail, c, |head|);
  }

  lemma IndexNone(s: string, c: char)
    requires c !in s
    ensures Index(s, c) == |s|
  {
    IndexSpec(s, c);
  }

  /** A prefix without c shifts the first c of what follows. */
  lemma IndexShift(head: string, tail: string, c: char)
    requires c !in head
    ensures Index(head + tail, c) == |head| + Index(tail, c)
  {
    var i := Index(tail, c);
    IndexSpec(tail, c);
    if i < |tail| {
      assert tail == tail[..i] + [c] + tail[i + 1..];
      assert head + tail == (head + tail[..i]) + [c] + tail[i + 1..];
      IndexAfter(head + tail[..i], c, tail[i + 1..]);
    } else {
      assert tail[..i] == tail;
      IndexNone(head + tail, c);
    }
  }
}
