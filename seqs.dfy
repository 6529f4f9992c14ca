/** Sequence helpers shared by the pages: distinct values in order of first
    occurrence (what `new Set(...)` and the key order of a JavaScript object
    give), and the chunked insertion loops that write imported records to
    the store `size` at a time. */
module Seqs {

  predicate Distinct<T(==)>(s: seq<T>) {
    forall i, j :: 0 <= i < j < |s| ==> s[i] != s[j]
  }

  /** The distinct elements of `s`, each at the position of its first
      occurrence. */
  function Dedup<T(==)>(s: seq<T>): (r: seq<T>)
    ensures Distinct(r)
    ensures forall i :: 0 <= i < |s| ==> s[i] in r
    ensures forall i :: 0 <= i < |r| ==> r[i] in s
    ensures |r| <= |s|
  {
    if s == [] then []
    else
      var init := Dedup(s[..|s| - 1]);
      if s[|s| - 1] in init then init else init + [s[|s| - 1]]
  }

  lemma {:induction false} DedupMember<T>(s: seq<T>, x: T)
    ensures x in Dedup(s) <==> x in s
  {
    if x in s {
      var i :| 0 <= i < |s| && s[i] == x;
    }
    if x in Dedup(s) {
      var j :| 0 <= j < |Dedup(s)| && Dedup(s)[j] == x;
    }
  }

  /** Putting a new element in front of a list of distinct elements keeps
      them distinct. */
  lemma {:induction false} DistinctCons<T>(x: T, s: seq<T>)
    requires Distinct(s) && x !in s
    ensures Distinct([x] + s)
  {
    var t := [x] + s;
    forall i, j | 0 <= i < j < |t|
      ensures t[i] != t[j]
    {
      if i > 0 {
        assert t[i] == s[i - 1] && t[j] == s[j - 1];
      } else {
        assert t[j] == s[j - 1];
      }
    }
  }

  lemma {:induction false} DedupOfAppend<T>(s: seq<T>, x: T)
    ensures Dedup(s + [x]) == if x in s then Dedup(s) else Dedup(s) + [x]
  {
    assert (s + [x])[..|s|] == s;
  }

  /** Dedup keeps the order of first occurrences: `x` comes before `y` in the
      result exactly when the first `x` in the input comes before the first
      `y`. */
  lemma {:induction false} DedupOrder<T>(s: seq<T>, i: nat, j: nat)
    requires i < j < |s|
    requires s[i] !in s[..i] && s[j] !in s[..j]
    ensures exists a, b :: 0 <= a < b < |Dedup(s)| && Dedup(s)[a] == s[i] && Dedup(s)[b] == s[j]
    decreases |s|
  {
    var init := s[..|s| - 1];
    if j < |s| - 1 {
      PrefixOfPrefix(s, |s| - 1, i);
      PrefixOfPrefix(s, |s| - 1, j);
      DedupOrder(init, i, j);
      var a, b :| 0 <= a < b < |Dedup(init)| && Dedup(init)[a] == s[i] && Dedup(init)[b] == s[j];
      DedupKeepsInit(s);
      assert Dedup(s)[a] == s[i] && Dedup(s)[b] == s[j];
    } else {
      assert s[i] in init;
      var a :| 0 <= a < |Dedup(init)| && Dedup(init)[a] == s[i];
      DedupNewLast(s);
      assert Dedup(s)[a] == s[i] && Dedup(s)[|Dedup(init)|] == s[j];
    }
  }

  /** Dedup of a longer list starts with Dedup of its first part. */
  lemma DedupKeepsInit<T>(s: seq<T>)
    requires s != []
    ensures var init := Dedup(s[..|s| - 1]);
      |init| <= |Dedup(s)| && forall a :: 0 <= a < |init| ==> Dedup(s)[a] == init[a]
  {
  }

  /** A last element not seen before is appended to Dedup of the rest. */
  lemma DedupNewLast<T>(s: seq<T>)
    requires s != [] && s[|s| - 1] !in s[..|s| - 1]
    ensures Dedup(s) == Dedup(s[..|s| - 1]) + [s[|s| - 1]]
  {
    DedupMember(s[..|s| - 1], s[|s| - 1]);
  }

  lemma PrefixOfPrefix<T>(s: seq<T>, m: nat, n: nat)
    requires n <= m <= |s|
    ensures s[..m][..n] == s[..n]
  {
  }

  function Take<T>(s: seq<T>, n: nat): (r: seq<T>)
    ensures |r| <= n && r <= s
    ensures |s| <= n ==> r == s
    ensures |s| > n ==> |r| == n
  {
    if |s| <= n then s else s[..n]
  }

  /** A prefix one longer is the prefix with the next element appended. */
  lemma PrefixStep<T>(s: seq<T>, i: nat)
    requires i < |s|
    ensures s[..i + 1] == s[..i] + [s[i]]
  {
  }

  /** A non-empty sequence is its first element followed by its tail. */
  lemma HeadThenTail<T>(s: seq<T>)
    requires s != []
    ensures s == [s[0]] + s[1..]
    ensures forall i :: 1 <= i < |s| ==> s[i] == s[1..][i - 1]
  {
  }

  /** An element of a non-empty sequence is in its first part or is its
      last element. */
  lemma MemberOfInitOrLast<T>(s: seq<T>, x: T)
    requires s != []
    ensures x in s <==> x in s[..|s| - 1] || x == s[|s| - 1]
  {
    assert s == s[..|s| - 1] + [s[|s| - 1]];
  }

  /** The position of the last occurrence of an element. */
  function LastIndex<T(==)>(s: seq<T>, x: T): (i: nat)
    requires x in s
    ensures i < |s| && s[i] == x && x !in s[i + 1..]
    decreases |s|
  {
    var n := |s| - 1;
    if s[n] == x then n
    else
      MemberOfInitOrLast(s, x);
      var i := LastIndex(s[..n], x);
      assert s[i + 1..] == s[..n][i + 1..] + [s[n]];
      i
  }

  /** A non-empty sequence is its first part followed by its last element. */
  lemma InitThenLast<T>(s: seq<T>)
    requires s != []
    ensures s == s[..|s| - 1] + [s[|s| - 1]]
  {
  }

  /** A suffix that starts with `x` followed by `rest` puts `x` at its
      start position and `rest` after it. */
  lemma SuffixCons<T>(all: seq<T>, k: nat, x: T, rest: seq<T>)
    requires k <= |all| && all[k..] == [x] + rest
    ensures k < |all| && all[k] == x && all[k + 1..] == rest
  {
    assert all[k..][0] == x;
    assert all[k + 1..] == all[k..][1..];
  }

  /** An empty suffix leaves the whole sequence as the prefix. */
  lemma EmptySuffix<T>(all: seq<T>, k: nat)
    requires k <= |all| && all[k..] == []
    ensures all[..k] == all
  {
  }

  lemma FullPrefix<T>(s: seq<T>)
    ensures s[..|s|] == s
  {
  }

  lemma AppendAssoc<T>(a: seq<T>, b: seq<T>, c: seq<T>)
    ensures (a + b) + c == a + (b + c)
  {
  }

  /** The kept elements, in order. */
  function Filter<T>(s: seq<T>, keep: T -> bool): (r: seq<T>)
    ensures |r| <= |s|
    ensures forall i :: 0 <= i < |r| ==> keep(r[i])
    decreases |s|
  {
    if s == [] then [] else (if keep(s[0]) then [s[0]] else []) + Filter(s[1..], keep)
  }

  lemma {:induction false} FilterMembers<T>(s: seq<T>, keep: T -> bool, x: T)
    ensures x in Filter(s, keep) <==> x in s && keep(x)
    decreases |s|
  {
    if s != [] {
      FilterMembers(s[1..], keep, x);
      assert x in s <==> x == s[0] || x in s[1..];
    }
  }

  /** The kept elements of `a + b` are the kept elements of `a` followed by
      those of `b`: a filter keeps the relative order of what it keeps. */
  lemma {:induction false} FilterAppend<T>(a: seq<T>, b: seq<T>, keep: T -> bool)
    ensures Filter(a + b, keep) == Filter(a, keep) + Filter(b, keep)
    decreases |a|
  {
    if a == [] {
      assert a + b == b;
    } else {
      assert (a + b)[0] == a[0];
      assert (a + b)[1..] == a[1..] + b;
      FilterAppend(a[1..], b, keep);
    }
  }

  /** A single element is kept exactly when `keep` holds of it. */
  lemma FilterSingle<T>(x: T, keep: T -> bool)
    ensures Filter([x], keep) == if keep(x) then [x] else []
  {
    assert [x][1..] == [];
  }

  /** A filter that keeps everything is the identity. */
  lemma {:induction false} FilterAll<T>(s: seq<T>, keep: T -> bool)
    requires forall i :: 0 <= i < |s| ==> keep(s[i])
    ensures Filter(s, keep) == s
    decreases |s|
  {
    if s != [] {
      FilterAll(s[1..], keep);
    }
  }

  /** A filter that rejects exactly the element at `k` removes that one
      element and keeps the order of the rest. */
  lemma {:induction false} FilterOne<T>(s: seq<T>, keep: T -> bool, k: nat)
    requires k < |s| && !keep(s[k])
    requires forall j :: 0 <= j < |s| && j != k ==> keep(s[j])
    ensures Filter(s, keep) == WithoutIndex(s, k)
    decreases |s|
  {
    if k == 0 {
      FilterAll(s[1..], keep);
    } else {
      FilterOne(s[1..], keep, k - 1);
      WithoutIndexCons(s, k);
    }
  }

  lemma WithoutIndexCons<T>(s: seq<T>, k: nat)
    requires 0 < k < |s|
    ensures WithoutIndex(s, k) == [s[0]] + WithoutIndex(s[1..], k - 1)
  {
    assert s[1..][..k - 1] == s[1..k];
    assert s[1..][k..] == s[k + 1..];
    assert s[..k] == [s[0]] + s[1..k];
  }

  /** The element at `i` removed, the others in order; an index past the
      end removes nothing. */
  function WithoutIndex<T>(s: seq<T>, i: nat): (r: seq<T>)
    ensures i < |s| ==> |r| == |s| - 1
    ensures i < |s| ==> forall j :: 0 <= j < |r| ==> r[j] == if j < i then s[j] else s[j + 1]
    ensures i >= |s| ==> r == s
  {
    if i < |s| then s[..i] + s[i + 1..] else s
  }

  /** Removing the entry at a valid index loses exactly that entry. */
  lemma WithoutIndexRemovesOne<T>(s: seq<T>, i: nat)
    requires i < |s|
    ensures multiset(WithoutIndex(s, i)) + multiset{s[i]} == multiset(s)
  {
    assert s == s[..i] + [s[i]] + s[i + 1..];
  }

  // ---------------------------------------------------------------------
  // Chunked insertion

  function Flatten<T>(chunks: seq<seq<T>>): seq<T>
  {
    if chunks == [] then [] else chunks[0] + Flatten(chunks[1..])
  }

  lemma {:induction false} FlattenAppend<T>(a: seq<seq<T>>, b: seq<seq<T>>)
    ensures Flatten(a + b) == Flatten(a) + Flatten(b)
    decreases |a|
  {
    if a == [] {
      assert a + b == b;
    } else {
      assert (a + b)[1..] == a[1..] + b;
      FlattenAppend(a[1..], b);
    }
  }

  /** The slices `s[i..i+size]` for `i = 0, size, 2*size, ...`, as the
      insertion loops `for (i = 0; i < n; i += size)` take them: every
      chunk is non-empty and at most `size` long, and together they are
      `s` in order. */
  function Chunks<T>(s: seq<T>, size: nat): (r: seq<seq<T>>)
    requires size > 0
    ensures Flatten(r) == s
    ensures forall k :: 0 <= k < |r| ==> 0 < |r[k]| <= size
    ensures s == [] <==> r == []
    decreases |s|
  {
    if s == [] then []
    else if |s| <= size then [s]
    else
      var rest := Chunks(s[size..], size);
      assert s == s[..size] + s[size..];
      [s[..size]] + rest
  }

  /** All chunks but the last are full. */
  lemma {:induction false} ChunksFull<T>(s: seq<T>, size: nat, k: nat)
    requires size > 0 && k + 1 < |Chunks(s, size)|
    ensures |Chunks(s, size)[k]| == size
    decreases |s|
  {
    if k > 0 {
      ChunksFull(s[size..], size, k - 1);
    }
  }

  /** The index of the first chunk, among the first `n`, whose insertion
      fails; `n` when none does. */
  function FirstFailure(n: nat, fails: nat -> bool): (k: nat)
    ensures k <= n
    ensures k < n ==> fails(k)
    ensures forall j :: 0 <= j < k ==> !fails(j)
  {
    if n == 0 then 0
    else
      var k := FirstFailure(n - 1, fails);
      if k < n - 1 then k else if fails(n - 1) then n - 1 else n
  }

  /** What a stop-on-first-error loop commits: the chunks before the first
      failing one. */
  function CommittedUntilError<T>(s: seq<T>, size: nat, fails: nat -> bool): seq<T>
    requires size > 0
  {
    var chunks := Chunks(s, size);
    Flatten(chunks[..FirstFailure(|chunks|, fails)])
  }

  /** What a log-and-continue loop commits: every chunk whose insertion
      succeeds, in order. */
  function CommittedSkippingErrors<T>(chunks: seq<seq<T>>, fails: nat -> bool, from: nat): (r: seq<T>)
    decreases |chunks|
  {
    if chunks == [] then []
    else (if fails(from) then [] else chunks[0]) + CommittedSkippingErrors(chunks[1..], fails, from + 1)
  }

  function CountFailures(n: nat, fails: nat -> bool, from: nat): (r: nat)
    ensures r <= n
    decreases n
  {
    if n == 0 then 0 else (if fails(from) then 1 else 0) + CountFailures(n - 1, fails, from + 1)
  }

  /** The committed records of a stop-on-error import are a prefix of the
      records, all of them when no chunk fails, and the chunk right after
      them is the one that failed. */
  lemma {:induction false} CommittedUntilErrorIsPrefix<T>(s: seq<T>, size: nat, fails: nat -> bool)
    requires size > 0
    ensures CommittedUntilError(s, size, fails) <= s
    ensures (forall j :: 0 <= j < |Chunks(s, size)| ==> !fails(j)) ==> CommittedUntilError(s, size, fails) == s
  {
    var chunks := Chunks(s, size);
    var k := FirstFailure(|chunks|, fails);
    assert chunks == chunks[..k] + chunks[k..];
    FlattenAppend(chunks[..k], chunks[k..]);
    if forall j :: 0 <= j < |chunks| ==> !fails(j) {
      assert chunks[..k] == chunks;
    }
  }

  /** With no failing chunk, log-and-continue commits everything. */
  lemma {:induction false} CommittedSkippingNoErrors<T>(chunks: seq<seq<T>>, fails: nat -> bool, from: nat)
    requires forall j :: from <= j < from + |chunks| ==> !fails(j)
    ensures CommittedSkippingErrors(chunks, fails, from) == Flatten(chunks)
    decreases |chunks|
  {
    if chunks != [] {
      CommittedSkippingNoErrors(chunks[1..], fails, from + 1);
    }
  }

  lemma {:induction false} CommittedSkippingAppend<T>(chunks: seq<seq<T>>, c: seq<T>, fails: nat -> bool, from: nat)
    ensures CommittedSkippingErrors(chunks + [c], fails, from)
         == CommittedSkippingErrors(chunks, fails, from) + (if fails(from + |chunks|) then [] else c)
    decreases |chunks|
  {
    if chunks == [] {
      assert ([] + [c])[1..] == [];
    } else {
      assert (chunks + [c])[1..] == chunks[1..] + [c];
      CommittedSkippingAppend(chunks[1..], c, fails, from + 1);
    }
  }

  lemma {:induction false} CountFailuresStep(n: nat, fails: nat -> bool, from: nat)
    ensures CountFailures(n + 1, fails, from) == CountFailures(n, fails, from) + (if fails(from + n) then 1 else 0)
    decreases n
  {
    if n > 0 {
      CountFailuresStep(n - 1, fails, from + 1);
    }
  }

  lemma {:induction false} ChunksStep<T>(s: seq<T>, size: nat, i: nat)
    requires size > 0 && i < |s|
    ensures Chunks(s[i..], size) == [s[i..if i + size < |s| then i + size else |s|]]
                                    + Chunks(s[if i + size < |s| then i + size else |s|..], size)
  {
    var t := s[i..];
    if |t| > size {
      assert t[size..] == s[i + size..];
      assert t[..size] == s[i..i + size];
    } else {
      assert s[i..|s|] == t;
      assert s[|s|..] == [];
    }
  }

  /** The insertion loop of a page that stops at the first failing chunk.
      `fails(k)` is the store's answer to the k-th chunk. */
  method InsertStoppingAtError<T>(s: seq<T>, size: nat, fails: nat -> bool)
    returns (committed: seq<T>, ok: bool)
    requires size > 0
    ensures committed == CommittedUntilError(s, size, fails)
    ensures ok <==> forall j :: 0 <= j < |Chunks(s, size)| ==> !fails(j)
  {
    var i := 0;
    var k := 0;
    committed := [];
    ok := true;
    ghost var all := Chunks(s, size);
    while i < |s|
      invariant 0 <= i <= |s| && 0 <= k <= |all|
      invariant all[k..] == Chunks(s[i..], size)
      invariant committed == Flatten(all[..k])
      invariant forall j :: 0 <= j < k ==> !fails(j)
      decreases |s| - i
    {
      ChunksStep(s, size, i);
      var end := if i + size < |s| then i + size else |s|;
      var chunk := s[i..end];
      SuffixCons(all, k, chunk, Chunks(s[end..], size));
      if fails(k) {
        ok := false;
        FirstFailureAt(|all|, fails, k);
        return;
      }
      FlattenPrefixStep(all, k);
      NoFailureStep(fails, k);
      committed := committed + chunk;
      i, k := end, k + 1;
    }
    EmptySuffix(all, k);
    FirstFailureNone(|all|, fails);
  }

  lemma {:induction false} FlattenPrefixStep<T>(all: seq<seq<T>>, k: nat)
    requires k < |all|
    ensures Flatten(all[..k + 1]) == Flatten(all[..k]) + all[k]
  {
    assert all[..k + 1] == all[..k] + [all[k]];
    FlattenAppend(all[..k], [all[k]]);
    assert Flatten([all[k]]) == all[k] + Flatten([]);
  }

  lemma NoFailureStep(fails: nat -> bool, k: nat)
    requires !fails(k) && forall j :: 0 <= j < k ==> !fails(j)
    ensures forall j :: 0 <= j < k + 1 ==> !fails(j)
  {
  }

  lemma {:induction false} FirstFailureAt(n: nat, fails: nat -> bool, k: nat)
    requires k < n && fails(k) && forall j :: 0 <= j < k ==> !fails(j)
    ensures FirstFailure(n, fails) == k
  {
  }

  lemma {:induction false} FirstFailureNone(n: nat, fails: nat -> bool)
    requires forall j :: 0 <= j < n ==> !fails(j)
    ensures FirstFailure(n, fails) == n
  {
  }

  /** The insertion loop of a page that logs a failing chunk and goes on
      with the next: every successful chunk is committed, in order, and the
      failures are counted. */
  method InsertSkippingErrors<T>(s: seq<T>, size: nat, fails: nat -> bool)
    returns (committed: seq<T>, failures: nat)
    requires size > 0
    ensures committed == CommittedSkippingErrors(Chunks(s, size), fails, 0)
    ensures failures == CountFailures(|Chunks(s, size)|, fails, 0)
  {
    var i := 0;
    var k := 0;
    committed, failures := [], 0;
    ghost var all := Chunks(s, size);
    while i < |s|
      invariant 0 <= i <= |s| && 0 <= k <= |all|
      invariant all[k..] == Chunks(s[i..], size)
      invariant committed == CommittedSkippingErrors(all[..k], fails, 0)
      invariant failures == CountFailures(k, fails, 0)
      decreases |s| - i
    {
      ChunksStep(s, size, i);
      var end := if i + size < |s| then i + size else |s|;
      var chunk := s[i..end];
      SuffixCons(all, k, chunk, Chunks(s[end..], size));
      SkippingPrefixStep(all, k, fails);
      CountFailuresStep(k, fails, 0);
      committed := committed + (if fails(k) then [] else chunk);
      failures := failures + (if fails(k) then 1 else 0);
      i, k := end, k + 1;
    }
    EmptySuffix(all, k);
  }

  lemma {:induction false} SkippingPrefixStep<T>(all: seq<seq<T>>, k: nat, fails: nat -> bool)
    requires k < |all|
    ensures CommittedSkippingErrors(all[..k + 1], fails, 0)
         == CommittedSkippingErrors(all[..k], fails, 0) + (if fails(k) then [] else all[k])
  {
    assert all[..k + 1] == all[..k] + [all[k]];
    CommittedSkippingAppend(all[..k], all[k], fails, 0);
  }
}
