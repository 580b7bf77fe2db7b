/**
 * `for i in range(0, len(ids), size): ids[i:i + size]`: splitting id lists into chunks,
 * the `batchModify` loop over them, and the progress percentages the jobs report.
 * Progress uses integer division where the source computes `int(x / total * 100)` in
 * floating point.
 */
module Chunking {
  import opened Wrappers

  /** The chunks of `range(0, len(xs), size)`. */
  function Chunks<T>(xs: seq<T>, size: nat): seq<seq<T>>
    requires size > 0
    decreases |xs|
  {
    if |xs| <= size then (if xs == [] then [] else [xs])
    else [xs[..size]] + Chunks(xs[size..], size)
  }

  function Flatten<T>(xss: seq<seq<T>>): seq<T>
  {
    if xss == [] then [] else xss[0] + Flatten(xss[1..])
  }

  lemma FlattenAppend<T>(a: seq<seq<T>>, b: seq<seq<T>>)
    ensures Flatten(a + b) == Flatten(a) + Flatten(b)
  {
    if a != [] {
      assert (a + b)[0] == a[0];
      assert (a + b)[1..] == a[1..] + b;
      FlattenAppend(a[1..], b);
      assert Flatten(a + b) == a[0] + Flatten(a[1..] + b);
    } else {
      assert a + b == b;
    }
  }

  /** Flattening ends with the last element. */
  lemma FlattenSnoc<T>(xss: seq<seq<T>>)
    requires xss != []
    ensures Flatten(xss) == Flatten(xss[..|xss| - 1]) + xss[|xss| - 1]
  {
    assert xss == xss[..|xss| - 1] + [xss[|xss| - 1]];
    FlattenAppend(xss[..|xss| - 1], [xss[|xss| - 1]]);
    assert Flatten([xss[|xss| - 1]]) == xss[|xss| - 1];
  }

  /** The chunks partition the list in order: together they are exactly `xs`, none is empty,
      none is longer than `size`, and all but the last are full. */
  lemma {:induction false} ChunksPartition<T>(xs: seq<T>, size: nat)
    requires size > 0
    ensures Flatten(Chunks(xs, size)) == xs
    ensures forall j :: 0 <= j < |Chunks(xs, size)| ==> 0 < |Chunks(xs, size)[j]| <= size
    ensures forall j :: 0 <= j < |Chunks(xs, size)| - 1 ==> |Chunks(xs, size)[j]| == size
    decreases |xs|
  {
    var cs := Chunks(xs, size);
    if |xs| > size {
      ChunksPartition(xs[size..], size);
      var rest := Chunks(xs[size..], size);
      assert cs == [xs[..size]] + rest;
      assert cs[1..] == rest;
      assert xs == xs[..size] + xs[size..];
      forall j | 1 <= j < |cs| ensures cs[j] == rest[j - 1] { }
    } else if xs != [] {
      assert cs == [xs];
      assert Flatten(cs) == xs + Flatten([]);
    }
  }

  /** There are `ceil(|xs| / size)` chunks. */
  lemma {:induction false} ChunksCount<T>(xs: seq<T>, size: nat)
    requires size > 0
    ensures |Chunks(xs, size)| == (|xs| + size - 1) / size
    decreases |xs|
  {
    if |xs| > size {
      ChunksCount(xs[size..], size);
      var m := |xs[size..]| + size - 1;
      assert |xs| + size - 1 == m + size;
      DivShift(m, size);
    } else if xs != [] {
      DivExact(size, 1);
      assert size <= |xs| + size - 1 < size * 2;
      DivAtLeast(|xs| + size - 1, size, 1);
      DivBelow(|xs| + size - 1, size, 2);
    } else {
      DivBelow(size - 1, size, 1);
    }
  }

  // ----- integer division facts -----

  lemma MulLtCancel(t: nat, s: nat, m: nat)
    requires t > 0 && t * s < t * m
    ensures s < m
  {
  }

  lemma MulLe(a: nat, b: nat, c: nat)
    requires a <= b
    ensures a * c <= b * c
  {
  }

  lemma DivBelow(a: nat, t: nat, s: nat)
    requires t > 0 && a < t * s
    ensures a / t < s
  {
  }

  lemma DivAtLeast(a: nat, t: nat, s: nat)
    requires t > 0 && t * s <= a
    ensures s <= a / t
  {
    var q := a / t;
    assert a < t * (q + 1);
    MulLtCancel(t, s, q + 1);
  }

  lemma DivExact(t: nat, s: nat)
    requires t > 0
    ensures t * s / t == s
  {
    DivAtLeast(t * s, t, s);
    assert t * s < t * (s + 1);
  }

  lemma DivLe(a: nat, b: nat, t: nat)
    requires a <= b && t > 0
    ensures a / t <= b / t
  {
    var qb := b / t;
    assert b < t * (qb + 1);
    DivBelow(a, t, qb + 1);
  }

  lemma DivShift(m: nat, t: nat)
    requires t > 0
    ensures (m + t) / t == m / t + 1
  {
    var q := m / t;
    assert t * q <= m < t * (q + 1);
    assert t * (q + 1) <= m + t < t * (q + 2);
    DivAtLeast(m + t, t, q + 1);
    DivBelow(m + t, t, q + 2);
  }

  /** A slice of the ids after the first chunk, shifted back by one chunk. */
  lemma SliceAfterFirstChunk<T>(xs: seq<T>, size: nat, j: nat)
    requires 0 < size < |xs| && j > 0 && (j - 1) * size < |xs| - size
    ensures j * size < |xs|
    ensures xs[size..][(j - 1) * size .. Min(j * size, |xs| - size)] == xs[j * size .. Min((j + 1) * size, |xs|)]
  {
    assert (j - 1) * size + size == j * size;
    assert j * size + size == (j + 1) * size;
  }

  /** Chunk `j` is the slice starting at `j * size`. */
  lemma {:induction false} ChunkAt<T>(xs: seq<T>, size: nat, j: nat)
    requires size > 0 && j < |Chunks(xs, size)|
    ensures j * size < |xs|
    ensures Chunks(xs, size)[j] == xs[j * size .. Min((j + 1) * size, |xs|)]
    decreases |xs|
  {
    if j > 0 {
      assert |xs| > size;
      var rest := Chunks(xs[size..], size);
      assert Chunks(xs, size) == [xs[..size]] + rest;
      ChunkAt(xs[size..], size, j - 1);
      SliceAfterFirstChunk(xs, size, j);
    }
  }

  /** Flattening a non-empty prefix starts with its first element. */
  lemma FlattenPrefixCons<T>(cs: seq<seq<T>>, n: nat)
    requires 0 < n <= |cs|
    ensures Flatten(cs[..n]) == cs[0] + Flatten(cs[1..][..n - 1])
  {
    assert cs[..n][1..] == cs[1..][..n - 1];
  }

  /** The first `min(n * size, |xs|)` ids are the first chunk and then the rest's share. */
  lemma PrefixAfterFirstChunk<T>(xs: seq<T>, size: nat, n: nat)
    requires 0 < size < |xs| && n > 0
    ensures xs[..Min(n * size, |xs|)] == xs[..size] + xs[size..][..Min((n - 1) * size, |xs| - size)]
  {
    assert (n - 1) * size + size == n * size;
  }

  /** The ids of the first `n` chunks make up the first `min(n * size, |xs|)` ids. */
  lemma {:induction false} ChunksPrefix<T>(xs: seq<T>, size: nat, n: nat)
    requires size > 0 && n <= |Chunks(xs, size)|
    ensures Flatten(Chunks(xs, size)[..n]) == xs[..Min(n * size, |xs|)]
    decreases |xs|
  {
    if n > 0 {
      var cs := Chunks(xs, size);
      FlattenPrefixCons(cs, n);
      if |xs| > size {
        assert cs[1..] == Chunks(xs[size..], size);
        ChunksPrefix(xs[size..], size, n - 1);
        PrefixAfterFirstChunk(xs, size, n);
      } else {
        assert cs == [xs];
      }
    }
  }

  // ----- batchModify -----

  datatype ModifyCall = ModifyCall(ids: seq<string>, addLabelIds: seq<string>, removeLabelIds: seq<string>)

  /** How the server takes `batchModify` calls: the first `accepted` succeed, the next one
      raises with `error`. */
  datatype ModifyOutcome = ModifyOutcome(accepted: nat, error: string)

  function CallsFor(chunks: seq<seq<string>>, add: seq<string>, remove: seq<string>): (r: seq<ModifyCall>)
    ensures |r| == |chunks|
    ensures forall j :: 0 <= j < |r| ==> r[j] == ModifyCall(chunks[j], add, remove)
  {
    seq(|chunks|, j requires 0 <= j < |chunks| => ModifyCall(chunks[j], add, remove))
  }

  function IdsOf(calls: seq<ModifyCall>): seq<string>
  {
    if calls == [] then [] else calls[0].ids + IdsOf(calls[1..])
  }

  lemma {:induction false} IdsOfCalls(chunks: seq<seq<string>>, add: seq<string>, remove: seq<string>)
    ensures IdsOf(CallsFor(chunks, add, remove)) == Flatten(chunks)
    decreases |chunks|
  {
    if chunks != [] {
      assert CallsFor(chunks, add, remove)[1..] == CallsFor(chunks[1..], add, remove);
      IdsOfCalls(chunks[1..], add, remove);
    }
  }

  /** Progress after `done` of `total` items, in the band `lo .. lo + span`:
      `lo + int(done / total * span)`. */
  function Percent(lo: nat, span: nat, done: nat, total: nat): nat
  {
    if total == 0 then lo else lo + done * span / total
  }

  lemma PercentBounds(lo: nat, span: nat, done: nat, total: nat)
    requires done <= total
    ensures lo <= Percent(lo, span, done, total) <= lo + span
    ensures total > 0 && done == total ==> Percent(lo, span, done, total) == lo + span
    ensures total > 0 && done < total && span > 0 ==> Percent(lo, span, done, total) < lo + span
  {
    if total > 0 {
      MulLe(done, total, span);
      assert total * span == span * total;
      DivLe(done * span, total * span, total);
      DivExact(total, span);
      if done < total && span > 0 {
        assert done * span < total * span;
        DivBelow(done * span, total, span);
      }
    }
  }

  lemma PercentMonotone(lo: nat, span: nat, d1: nat, d2: nat, total: nat)
    requires d1 <= d2
    ensures Percent(lo, span, d1, total) <= Percent(lo, span, d2, total)
  {
    if total > 0 {
      MulLe(d1, d2, span);
      DivLe(d1 * span, d2 * span, total);
    }
  }

  /** Phase one of the bulk delete: `int((i / total_senders) * 40)` while looking at
      sender `i`, which stays below 40. */
  lemma CollectPhaseBelow40(i: nat, n: nat)
    requires i < n
    ensures Percent(0, 40, i, n) < 40
  {
    PercentBounds(0, 40, i, n);
  }

  /** The `for` loop over the chunks: one `batchModify` per chunk, adding up the ids done
      after each call (`dones`), until a call raises. `calls` holds the accepted calls only:
      the call that raised is not in it, whereas a listing's requests include the one that
      raised. */
  method ModifyInChunks(ids: seq<string>, size: nat, add: seq<string>, remove: seq<string>, server: ModifyOutcome)
    returns (calls: seq<ModifyCall>, done: nat, dones: seq<nat>, error: Option<string>)
    requires size > 0
    ensures var cs := Chunks(ids, size);
            var n := Min(server.accepted, |cs|);
            && calls == CallsFor(cs[..n], add, remove)
            && done == |Flatten(cs[..n])|
            && (error.None? <==> server.accepted >= |cs|)
            && (error.Some? ==> error.value == server.error)
            && |dones| == n
            && (forall j :: 0 <= j < n ==> dones[j] == |Flatten(cs[..j + 1])|)
            && (n > 0 ==> dones[n - 1] == done)
  {
    var cs := Chunks(ids, size);
    calls, done, dones, error := [], 0, [], None;
    var i := 0;
    while i < |cs|
      invariant 0 <= i <= |cs| && i <= server.accepted
      invariant calls == CallsFor(cs[..i], add, remove)
      invariant done == |Flatten(cs[..i])|
      invariant |dones| == i
      invariant forall j :: 0 <= j < i ==> dones[j] == |Flatten(cs[..j + 1])|
    {
      if i == server.accepted {
        error := Some(server.error);
        return;
      }
      var batch := cs[i];
      calls := calls + [ModifyCall(batch, add, remove)];
      assert cs[..i + 1] == cs[..i] + [batch];
      FlattenAppend(cs[..i], [batch]);
      assert Flatten([batch]) == batch;
      done := done + |batch|;
      dones := dones + [done];
      i := i + 1;
    }
    assert cs[..|cs|] == cs;
  }

  /** The progress values a job records from the running counts, in the band `lo .. lo + span`. */
  function ProgressOf(dones: seq<nat>, lo: nat, span: nat, total: nat): (r: seq<nat>)
    ensures |r| == |dones| && forall j :: 0 <= j < |dones| ==> r[j] == Percent(lo, span, dones[j], total)
  {
    seq(|dones|, j requires 0 <= j < |dones| => Percent(lo, span, dones[j], total))
  }

  /** The progress after each of `chunks`, in the band `lo .. lo + span`. */
  function ChunkProgress<T>(chunks: seq<seq<T>>, lo: nat, span: nat, total: nat): (r: seq<nat>)
    ensures |r| == |chunks|
    ensures forall b :: 0 <= b < |chunks| ==> r[b] == Percent(lo, span, |Flatten(chunks[..b + 1])|, total)
  {
    seq(|chunks|, b requires 0 <= b < |chunks| => Percent(lo, span, |Flatten(chunks[..b + 1])|, total))
  }

  /** One more chunk adds one progress value. */
  lemma ChunkProgressSnoc<T>(chunks: seq<seq<T>>, c: seq<T>, lo: nat, span: nat, total: nat)
    ensures ChunkProgress(chunks + [c], lo, span, total)
         == ChunkProgress(chunks, lo, span, total) + [Percent(lo, span, |Flatten(chunks + [c])|, total)]
  {
    var longer := chunks + [c];
    forall k | 0 < k <= |chunks| ensures longer[..k] == chunks[..k] {
    }
    assert longer[..|chunks| + 1] == longer;
  }

  /** When every call is accepted, each id lands in exactly one call, in order. */
  lemma AllChunksApplied(ids: seq<string>, size: nat, add: seq<string>, remove: seq<string>)
    requires size > 0
    ensures IdsOf(CallsFor(Chunks(ids, size), add, remove)) == ids
  {
    ChunksPartition(ids, size);
    IdsOfCalls(Chunks(ids, size), add, remove);
  }

  /** Progress recorded after each chunk stays in its band, never goes back, and reaches the
      top of the band after the last chunk. */
  lemma ProgressClimbs(ids: seq<string>, size: nat, lo: nat, span: nat, progress: seq<nat>)
    requires size > 0
    requires |progress| <= |Chunks(ids, size)|
    requires forall j :: 0 <= j < |progress| ==> progress[j] == Percent(lo, span, |Flatten(Chunks(ids, size)[..j + 1])|, |ids|)
    ensures forall j :: 0 <= j < |progress| ==> lo <= progress[j] <= lo + span
    ensures forall i, j :: 0 <= i <= j < |progress| ==> progress[i] <= progress[j]
    ensures |progress| == |Chunks(ids, size)| && ids != [] ==> progress[|progress| - 1] == lo + span
  {
    var cs := Chunks(ids, size);
    forall j | 0 <= j < |progress| ensures lo <= progress[j] <= lo + span {
      PrefixDone(ids, size, j + 1);
      PercentBounds(lo, span, |Flatten(cs[..j + 1])|, |ids|);
    }
    forall i, j | 0 <= i <= j < |progress| ensures progress[i] <= progress[j] {
      PrefixDoneMonotone(ids, size, i + 1, j + 1);
      PercentMonotone(lo, span, |Flatten(cs[..i + 1])|, |Flatten(cs[..j + 1])|, |ids|);
    }
    if |progress| == |cs| && ids != [] {
      var n := |progress|;
      assert cs[..n] == cs;
      ChunksPartition(ids, size);
      PercentBounds(lo, span, |ids|, |ids|);
    }
  }

  /** After `n` chunks, `min(n * size, |xs|)` ids are done. */
  lemma PrefixDone<T>(xs: seq<T>, size: nat, n: nat)
    requires size > 0 && n <= |Chunks(xs, size)|
    ensures |Flatten(Chunks(xs, size)[..n])| == Min(n * size, |xs|) <= |xs|
  {
    ChunksPrefix(xs, size, n);
  }

  lemma PrefixDoneMonotone<T>(xs: seq<T>, size: nat, m: nat, n: nat)
    requires size > 0 && m <= n <= |Chunks(xs, size)|
    ensures |Flatten(Chunks(xs, size)[..m])| <= |Flatten(Chunks(xs, size)[..n])|
  {
    PrefixDone(xs, size, m);
    PrefixDone(xs, size, n);
    MulLe(m, n, size);
  }
}
