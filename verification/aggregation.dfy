/**
 * The `process_message` callbacks of the scans and what is done with their rows: the
 * batches of `messages().get` requests, the `defaultdict` the callbacks fold into (kept
 * here as a list of rows in insertion order, as a Python dict iterates), and the stable
 * `sorted(..., key=count, reverse=True)` of the rows.
 */
module Aggregation {
  import opened Wrappers
  import opened Headers
  import opened Chunking

  /** What one readable message adds to the row of `key`: its id, its subject and the
      fields the callback overwrites on every hit (link, type, sender name, ...). */
  datatype Contribution<I> = Contribution(key: string, id: string, subject: string, info: I)

  /** One entry of the accumulator: the hit count, the first subjects, the fields of the
      latest hit and the ids of all hits. */
  datatype Row<I> = Row(key: string, count: nat, subjects: seq<string>, latest: I, ids: seq<string>)

  function IndexOfKeyFrom<I>(rows: seq<Row<I>>, key: string, from: nat): (r: Option<nat>)
    requires from <= |rows|
    decreases |rows| - from
    ensures r.Some? ==> from <= r.value < |rows| && rows[r.value].key == key
    ensures r.None? ==> forall j :: from <= j < |rows| ==> rows[j].key != key
  {
    if from == |rows| then None
    else if rows[from].key == key then Some(from)
    else IndexOfKeyFrom(rows, key, from + 1)
  }

  function IndexOfKey<I>(rows: seq<Row<I>>, key: string): (r: Option<nat>)
    ensures r.Some? ==> r.value < |rows| && rows[r.value].key == key
    ensures r.None? ==> forall j :: 0 <= j < |rows| ==> rows[j].key != key
  {
    IndexOfKeyFrom(rows, key, 0)
  }

  /** `data[key]["count"] += 1`, the subject appended while fewer than `cap` are kept, the
      latest fields overwritten and the id appended; a new key gets a newRow row at the end. */
  function Step<I>(rows: seq<Row<I>>, c: Contribution<I>, cap: nat): seq<Row<I>>
  {
    match IndexOfKey(rows, c.key)
    case None => rows + [NewRow(c, cap)]
    case Some(j) =>
      rows[j := HitRow(rows[j], c, cap)]
  }

  /** The accumulator after the callbacks of `cs`, in order; `None` is a message that
      failed or that the callback skips. */
  function Fold<I>(cs: seq<Option<Contribution<I>>>, cap: nat): seq<Row<I>>
  {
    if cs == [] then []
    else
      var rows := Fold(cs[..|cs| - 1], cap);
      match cs[|cs| - 1]
      case None => rows
      case Some(c) => Step(rows, c, cap)
  }

  // ----- what the fold computes, stated independently -----

  /** The contributions to `key`, in order. */
  function Keyed<I>(cs: seq<Option<Contribution<I>>>, key: string): seq<Contribution<I>>
  {
    if cs == [] then []
    else
      var last := cs[|cs| - 1];
      Keyed(cs[..|cs| - 1], key) + (if last.Some? && last.value.key == key then [last.value] else [])
  }

  /** The keys, each once, in the order of their first contribution. */
  function FirstSeen<I>(cs: seq<Option<Contribution<I>>>): seq<string>
  {
    if cs == [] then []
    else
      var ks := FirstSeen(cs[..|cs| - 1]);
      match cs[|cs| - 1]
      case None => ks
      case Some(c) => if c.key in ks then ks else ks + [c.key]
  }

  function Take(s: seq<string>, n: nat): (r: seq<string>)
    ensures |r| <= n
  {
    if |s| <= n then s else s[..n]
  }

  function SubjectsIn<I>(ks: seq<Contribution<I>>): seq<string>
  {
    if ks == [] then [] else SubjectsIn(ks[..|ks| - 1]) + [ks[|ks| - 1].subject]
  }

  function IdsIn<I>(ks: seq<Contribution<I>>): seq<string>
  {
    if ks == [] then [] else IdsIn(ks[..|ks| - 1]) + [ks[|ks| - 1].id]
  }

  /** The row a key should end with: one hit per contribution, the first `cap` subjects,
      the fields of the last hit, and every id. */
  function Expected<I>(ks: seq<Contribution<I>>, key: string, cap: nat): Row<I>
    requires ks != []
  {
    Row(key, |ks|, Take(SubjectsIn(ks), cap), ks[|ks| - 1].info, IdsIn(ks))
  }

  predicate Distinct(ks: seq<string>)
  {
    forall i, j :: 0 <= i < j < |ks| ==> ks[i] != ks[j]
  }

  function KeysOf<I>(rows: seq<Row<I>>): (r: seq<string>)
    ensures |r| == |rows| && forall i :: 0 <= i < |rows| ==> r[i] == rows[i].key
  {
    seq(|rows|, i requires 0 <= i < |rows| => rows[i].key)
  }

  /** A row holds exactly what the contributions to its key give it. */
  ghost predicate RowMatches<I>(r: Row<I>, cs: seq<Option<Contribution<I>>>, cap: nat)
  {
    Keyed(cs, r.key) != [] && r == Expected(Keyed(cs, r.key), r.key, cap)
  }

  ghost predicate KeysExact<I>(cs: seq<Option<Contribution<I>>>)
  {
    forall k :: k in FirstSeen(cs) <==> Keyed(cs, k) != []
  }

  ghost predicate Summarises<I>(rows: seq<Row<I>>, cs: seq<Option<Contribution<I>>>, cap: nat)
  {
    && KeysOf(rows) == FirstSeen(cs)
    && Distinct(FirstSeen(cs))
    && KeysExact(cs)
    && (forall i :: 0 <= i < |rows| ==> RowMatches(rows[i], cs, cap))
  }

  lemma TakeSnoc(s: seq<string>, x: string, n: nat)
    ensures Take(s + [x], n) == if |Take(s, n)| < n then Take(s, n) + [x] else Take(s, n)
  {
    if |s| + 1 > n && |s| >= n {
      assert (s + [x])[..n] == s[..n];
    }
  }

  /** The fold keeps one row per key, in first-seen order, and each row holds exactly what
      its key's contributions give it. */
  lemma {:induction false} FoldSummarises<I>(cs: seq<Option<Contribution<I>>>, cap: nat)
    ensures Summarises(Fold(cs, cap), cs, cap)
  {
    if cs != [] {
      var p := cs[..|cs| - 1];
      FoldSummarises(p, cap);
      var rows := Fold(p, cap);
      match cs[|cs| - 1]
      case None =>
        forall k ensures Keyed(cs, k) == Keyed(p, k) { }
        forall i | 0 <= i < |rows| ensures RowMatches(rows[i], cs, cap) {
          assert RowMatches(rows[i], p, cap);
        }
      case Some(c) =>
        StepSummarises(rows, p, c, cap);
        assert cs == p + [Some(c)];
    }
  }

  lemma StepSummarises<I>(rows: seq<Row<I>>, p: seq<Option<Contribution<I>>>, c: Contribution<I>, cap: nat)
    requires Summarises(rows, p, cap)
    ensures Summarises(Step(rows, c, cap), p + [Some(c)], cap)
  {
    if IndexOfKey(rows, c.key).None? {
      StepNewKey(rows, p, c, cap);
    } else {
      StepKnownKey(rows, p, c, cap, IndexOfKey(rows, c.key).value);
    }
  }

  lemma KeyedSnoc<I>(p: seq<Option<Contribution<I>>>, c: Contribution<I>, k: string)
    ensures Keyed(p + [Some(c)], k) == Keyed(p, k) + (if k == c.key then [c] else [])
  {
    var cs := p + [Some(c)];
    assert cs[..|cs| - 1] == p;
  }

  lemma RowMatchesSnoc<I>(r: Row<I>, p: seq<Option<Contribution<I>>>, c: Contribution<I>, cap: nat)
    requires RowMatches(r, p, cap) && r.key != c.key
    ensures RowMatches(r, p + [Some(c)], cap)
  {
    KeyedSnoc(p, c, r.key);
    assert Keyed(p, r.key) + [] == Keyed(p, r.key);
  }

  lemma KeysExactSnoc<I>(p: seq<Option<Contribution<I>>>, c: Contribution<I>)
    requires KeysExact(p)
    requires FirstSeen(p + [Some(c)]) == FirstSeen(p) + (if c.key in FirstSeen(p) then [] else [c.key])
    ensures KeysExact(p + [Some(c)])
  {
    forall k ensures k in FirstSeen(p + [Some(c)]) <==> Keyed(p + [Some(c)], k) != [] {
      KeyedSnoc(p, c, k);
    }
  }

  /** The row a first contribution opens. */
  function NewRow<I>(c: Contribution<I>, cap: nat): Row<I>
  {
    Row(c.key, 1, if cap > 0 then [c.subject] else [], c.info, [c.id])
  }

  lemma StepNewKey<I>(rows: seq<Row<I>>, p: seq<Option<Contribution<I>>>, c: Contribution<I>, cap: nat)
    requires Summarises(rows, p, cap)
    requires IndexOfKey(rows, c.key).None?
    ensures Summarises(Step(rows, c, cap), p + [Some(c)], cap)
  {
    assert Step(rows, c, cap) == rows + [NewRow(c, cap)];
    NewKeyKeys(rows, p, c, cap);
    NewKeyRows(rows, p, c, cap);
  }

  lemma SingleIn<I>(c: Contribution<I>)
    ensures SubjectsIn([c]) == [c.subject] && IdsIn([c]) == [c.id]
  {
    assert [c][..0] == [];
  }

  lemma NewKeyKeys<I>(rows: seq<Row<I>>, p: seq<Option<Contribution<I>>>, c: Contribution<I>, cap: nat)
    requires Summarises(rows, p, cap)
    requires IndexOfKey(rows, c.key).None?
    ensures var cs := p + [Some(c)];
            KeysOf(rows + [NewRow(c, cap)]) == FirstSeen(cs) && Distinct(FirstSeen(cs)) && KeysExact(cs)
  {
    var cs := p + [Some(c)];
    assert cs[..|cs| - 1] == p;
    assert forall i :: 0 <= i < |FirstSeen(p)| ==> FirstSeen(p)[i] == KeysOf(rows)[i] != c.key;
    assert c.key !in FirstSeen(p);
    assert FirstSeen(cs) == FirstSeen(p) + [c.key];
    KeysExactSnoc(p, c);
    assert KeysOf(rows + [NewRow(c, cap)]) == KeysOf(rows) + [c.key];
  }

  lemma NewKeyRows<I>(rows: seq<Row<I>>, p: seq<Option<Contribution<I>>>, c: Contribution<I>, cap: nat)
    requires Summarises(rows, p, cap)
    requires IndexOfKey(rows, c.key).None?
    ensures forall i :: 0 <= i < |rows| + 1 ==> RowMatches((rows + [NewRow(c, cap)])[i], p + [Some(c)], cap)
  {
    var cs := p + [Some(c)];
    var rows' := rows + [NewRow(c, cap)];
    KeyedSnoc(p, c, c.key);
    assert Keyed(p, c.key) == [] by {
      assert c.key !in FirstSeen(p) by {
        assert forall i :: 0 <= i < |FirstSeen(p)| ==> FirstSeen(p)[i] == KeysOf(rows)[i] != c.key;
      }
    }
    assert Keyed(cs, c.key) == [c];
    SingleIn(c);
    assert RowMatches(NewRow(c, cap), cs, cap);
    forall i | 0 <= i < |rows'| ensures RowMatches(rows'[i], cs, cap) {
      if i < |rows| {
        assert rows'[i] == rows[i];
        assert KeysOf(rows)[i] != c.key;
        RowMatchesSnoc(rows[i], p, c, cap);
      }
    }
  }

  /** The row of `key` after one more hit. */
  function HitRow<I>(r: Row<I>, c: Contribution<I>, cap: nat): Row<I>
  {
    Row(r.key, r.count + 1, if |r.subjects| < cap then r.subjects + [c.subject] else r.subjects, c.info, r.ids + [c.id])
  }

  lemma StepKnownKey<I>(rows: seq<Row<I>>, p: seq<Option<Contribution<I>>>, c: Contribution<I>, cap: nat, j: nat)
    requires Summarises(rows, p, cap)
    requires IndexOfKey(rows, c.key) == Some(j)
    ensures Summarises(Step(rows, c, cap), p + [Some(c)], cap)
  {
    assert Step(rows, c, cap) == rows[j := HitRow(rows[j], c, cap)];
    KnownKeyKeys(rows, p, c, cap, j);
    KnownKeyHit(rows, p, c, cap, j);
    KnownKeyRows(rows, p, c, cap, j);
  }

  lemma KnownKeyKeys<I>(rows: seq<Row<I>>, p: seq<Option<Contribution<I>>>, c: Contribution<I>, cap: nat, j: nat)
    requires Summarises(rows, p, cap)
    requires IndexOfKey(rows, c.key) == Some(j)
    ensures var cs := p + [Some(c)];
            KeysOf(rows[j := HitRow(rows[j], c, cap)]) == FirstSeen(cs) && Distinct(FirstSeen(cs)) && KeysExact(cs)
  {
    var cs := p + [Some(c)];
    assert cs[..|cs| - 1] == p;
    assert KeysOf(rows)[j] == c.key;
    assert c.key in FirstSeen(p);
    assert FirstSeen(cs) == FirstSeen(p);
    KeysExactSnoc(p, c);
    assert KeysOf(rows[j := HitRow(rows[j], c, cap)]) == KeysOf(rows);
  }

  lemma KnownKeyHit<I>(rows: seq<Row<I>>, p: seq<Option<Contribution<I>>>, c: Contribution<I>, cap: nat, j: nat)
    requires Summarises(rows, p, cap)
    requires IndexOfKey(rows, c.key) == Some(j)
    ensures RowMatches(HitRow(rows[j], c, cap), p + [Some(c)], cap)
  {
    var r := rows[j];
    var ks := Keyed(p, c.key);
    assert RowMatches(r, p, cap);
    KeyedSnoc(p, c, c.key);
    assert Keyed(p + [Some(c)], c.key) == ks + [c];
    assert (ks + [c])[..|ks + [c]| - 1] == ks;
    assert SubjectsIn(ks + [c]) == SubjectsIn(ks) + [c.subject];
    assert IdsIn(ks + [c]) == IdsIn(ks) + [c.id];
    TakeSnoc(SubjectsIn(ks), c.subject, cap);
  }

  lemma KnownKeyRows<I>(rows: seq<Row<I>>, p: seq<Option<Contribution<I>>>, c: Contribution<I>, cap: nat, j: nat)
    requires Summarises(rows, p, cap)
    requires IndexOfKey(rows, c.key) == Some(j)
    ensures forall i :: 0 <= i < |rows| && i != j ==> RowMatches(rows[i], p + [Some(c)], cap)
  {
    forall i | 0 <= i < |rows| && i != j ensures RowMatches(rows[i], p + [Some(c)], cap) {
      assert KeysOf(rows)[i] != KeysOf(rows)[j];
      RowMatchesSnoc(rows[i], p, c, cap);
    }
  }

  // ----- totals -----

  function TotalCount<I>(rows: seq<Row<I>>): nat
  {
    if rows == [] then 0 else TotalCount(rows[..|rows| - 1]) + rows[|rows| - 1].count
  }

  function Hits<I>(cs: seq<Option<Contribution<I>>>): nat
  {
    if cs == [] then 0 else Hits(cs[..|cs| - 1]) + (if cs[|cs| - 1].Some? then 1 else 0)
  }

  lemma {:induction false} TotalAfterUpdate<I>(rows: seq<Row<I>>, j: nat, r: Row<I>)
    requires j < |rows|
    ensures TotalCount(rows[j := r]) + rows[j].count == TotalCount(rows) + r.count
    decreases |rows|
  {
    var n := |rows| - 1;
    var rows' := rows[j := r];
    assert rows'[..n] == if j == n then rows[..n] else rows[..n][j := r];
    if j < n {
      TotalAfterUpdate(rows[..n], j, r);
    }
  }

  /** No hit is lost or counted twice: the counts add up to the number of contributions. */
  lemma {:induction false} FoldCountsHits<I>(cs: seq<Option<Contribution<I>>>, cap: nat)
    ensures TotalCount(Fold(cs, cap)) == Hits(cs)
  {
    if cs != [] {
      var p := cs[..|cs| - 1];
      FoldCountsHits(p, cap);
      var rows := Fold(p, cap);
      match cs[|cs| - 1]
      case None =>
      case Some(c) =>
        match IndexOfKey(rows, c.key)
        case None =>
          var rows' := Step(rows, c, cap);
          assert rows'[..|rows'| - 1] == rows;
        case Some(j) =>
          var r := rows[j];
          TotalAfterUpdate(rows, j, Row(r.key, r.count + 1, if |r.subjects| < cap then r.subjects + [c.subject] else r.subjects,
                                        c.info, r.ids + [c.id]));
    }
  }

  // ----- `sorted(rows, key=lambda x: x["count"], reverse=True)` -----

  /** Insert `x` in front of the first row that does not count more than it: `x` comes
      before every row it is inserted among, so ties keep their order. */
  function Insert<I>(x: Row<I>, s: seq<Row<I>>): seq<Row<I>>
  {
    if s == [] || s[0].count <= x.count then [x] + s else [s[0]] + Insert(x, s[1..])
  }

  function SortByCount<I>(s: seq<Row<I>>): seq<Row<I>>
  {
    if s == [] then [] else Insert(s[0], SortByCount(s[1..]))
  }

  predicate Descending<I>(s: seq<Row<I>>)
  {
    forall i, j :: 0 <= i < j < |s| ==> s[i].count >= s[j].count
  }

  /** The rows with count `n`, in order. */
  function WithCount<I>(s: seq<Row<I>>, n: nat): seq<Row<I>>
  {
    if s == [] then [] else (if s[0].count == n then [s[0]] else []) + WithCount(s[1..], n)
  }

  lemma {:induction false} InsertMultiset<I>(x: Row<I>, s: seq<Row<I>>)
    ensures multiset(Insert(x, s)) == multiset(s) + multiset{x}
    decreases |s|
  {
    if s != [] && s[0].count > x.count {
      InsertMultiset(x, s[1..]);
      assert s == [s[0]] + s[1..];
    }
  }

  lemma {:induction false} InsertDescending<I>(x: Row<I>, s: seq<Row<I>>)
    requires Descending(s)
    ensures Descending(Insert(x, s))
    decreases |s|
  {
    if s != [] && s[0].count > x.count {
      var t := Insert(x, s[1..]);
      InsertDescending(x, s[1..]);
      InsertMultiset(x, s[1..]);
      forall j | 0 <= j < |t| ensures s[0].count >= t[j].count {
        assert t[j] in multiset(s[1..]) + multiset{x};
        if t[j] != x {
          assert t[j] in s[1..];
        }
      }
      assert Insert(x, s) == [s[0]] + t;
    }
  }

  lemma {:induction false} InsertWithCount<I>(x: Row<I>, s: seq<Row<I>>, n: nat)
    requires Descending(s)
    ensures WithCount(Insert(x, s), n) == if x.count == n then [x] + WithCount(s, n) else WithCount(s, n)
    decreases |s|
  {
    if s == [] || s[0].count <= x.count {
      assert ([x] + s)[1..] == s;
    } else {
      var t := Insert(x, s[1..]);
      InsertWithCount(x, s[1..], n);
      assert Insert(x, s) == [s[0]] + t;
      assert ([s[0]] + t)[1..] == t;
    }
  }

  /** The sort is a permutation into descending count order that keeps the relative order
      of rows with equal counts. */
  lemma {:induction false} SortByCountSpec<I>(s: seq<Row<I>>)
    ensures Descending(SortByCount(s))
    ensures multiset(SortByCount(s)) == multiset(s)
    ensures forall n :: WithCount(SortByCount(s), n) == WithCount(s, n)
  {
    SortByCountDescending(s);
    SortByCountPermutes(s);
    forall n ensures WithCount(SortByCount(s), n) == WithCount(s, n) {
      SortByCountStable(s, n);
    }
  }

  lemma {:induction false} SortByCountDescending<I>(s: seq<Row<I>>)
    ensures Descending(SortByCount(s))
    decreases |s|
  {
    if s != [] {
      SortByCountDescending(s[1..]);
      InsertDescending(s[0], SortByCount(s[1..]));
    }
  }

  lemma {:induction false} SortByCountPermutes<I>(s: seq<Row<I>>)
    ensures multiset(SortByCount(s)) == multiset(s)
    decreases |s|
  {
    if s != [] {
      SortByCountPermutes(s[1..]);
      InsertMultiset(s[0], SortByCount(s[1..]));
      assert s == [s[0]] + s[1..];
    }
  }

  lemma {:induction false} SortByCountStable<I>(s: seq<Row<I>>, n: nat)
    ensures WithCount(SortByCount(s), n) == WithCount(s, n)
    decreases |s|
  {
    if s != [] {
      SortByCountStable(s[1..], n);
      SortByCountDescending(s[1..]);
      InsertWithCount(s[0], SortByCount(s[1..]), n);
    }
  }

  /** The sorted rows: each holds exactly what its key's contributions give it, no two share
      a key, and every key with a contribution has a row. */
  lemma SortedSummary<I>(cs: seq<Option<Contribution<I>>>, cap: nat)
    ensures forall i :: 0 <= i < |SortByCount(Fold(cs, cap))| ==> RowMatches(SortByCount(Fold(cs, cap))[i], cs, cap)
    ensures Distinct(KeysOf(SortByCount(Fold(cs, cap))))
    ensures forall k :: Keyed(cs, k) != [] <==> k in KeysOf(SortByCount(Fold(cs, cap)))
  {
    var f := Fold(cs, cap);
    FoldSummarises(cs, cap);
    SortByCountSpec(f);
    SortedRowsMatch(f, SortByCount(f), cs, cap);
    SortedKeysDistinct(f, SortByCount(f), cs, cap);
    SortedKeysCover(f, SortByCount(f), cs, cap);
  }

  lemma SortedRowsMatch<I>(f: seq<Row<I>>, s: seq<Row<I>>, cs: seq<Option<Contribution<I>>>, cap: nat)
    requires multiset(s) == multiset(f)
    requires forall i :: 0 <= i < |f| ==> RowMatches(f[i], cs, cap)
    ensures forall i :: 0 <= i < |s| ==> RowMatches(s[i], cs, cap)
  {
    forall i | 0 <= i < |s| ensures RowMatches(s[i], cs, cap) {
      assert s[i] in multiset(f);
    }
  }

  lemma SortedKeysDistinct<I>(f: seq<Row<I>>, s: seq<Row<I>>, cs: seq<Option<Contribution<I>>>, cap: nat)
    requires multiset(s) == multiset(f) && Distinct(KeysOf(f))
    requires forall i :: 0 <= i < |s| ==> RowMatches(s[i], cs, cap)
    ensures Distinct(KeysOf(s))
  {
    forall i, j | 0 <= i < j < |s| ensures KeysOf(s)[i] != KeysOf(s)[j] {
      if s[i].key == s[j].key {
        assert RowMatches(s[i], cs, cap) && RowMatches(s[j], cs, cap);
        TwoPositions(s, i, j);
        DistinctKeysOnce(f, s[i]);
        assert false;
      }
    }
  }

  lemma SortedKeysCover<I>(f: seq<Row<I>>, s: seq<Row<I>>, cs: seq<Option<Contribution<I>>>, cap: nat)
    requires multiset(s) == multiset(f) && KeysOf(f) == FirstSeen(cs) && KeysExact(cs)
    requires forall i :: 0 <= i < |s| ==> RowMatches(s[i], cs, cap)
    ensures forall k :: Keyed(cs, k) != [] <==> k in KeysOf(s)
  {
    forall k ensures Keyed(cs, k) != [] <==> k in KeysOf(s) {
      if Keyed(cs, k) != [] {
        assert k in KeysOf(f);
        var m :| 0 <= m < |f| && KeysOf(f)[m] == k;
        assert f[m] in multiset(s);
        var i :| 0 <= i < |s| && s[i] == f[m];
        assert KeysOf(s)[i] == k;
      }
      if k in KeysOf(s) {
        var i :| 0 <= i < |s| && KeysOf(s)[i] == k;
        assert RowMatches(s[i], cs, cap);
      }
    }
  }

  /** A row that appears twice is counted twice by the multiset. */
  lemma TwoPositions<I>(s: seq<Row<I>>, i: nat, j: nat)
    requires i < j < |s| && s[i] == s[j]
    ensures multiset(s)[s[i]] >= 2
  {
    assert s == s[..j] + [s[j]] + s[j + 1..];
    assert s[i] in s[..j];
  }

  /** Rows with distinct keys are each in the multiset at most once. */
  lemma {:induction false} DistinctKeysOnce<I>(f: seq<Row<I>>, x: Row<I>)
    requires Distinct(KeysOf(f))
    ensures multiset(f)[x] <= 1
    decreases |f|
  {
    if f != [] {
      var p := f[..|f| - 1];
      assert f == p + [f[|f| - 1]];
      assert Distinct(KeysOf(p)) by {
        forall i, j | 0 <= i < j < |p| ensures KeysOf(p)[i] != KeysOf(p)[j] {
          assert KeysOf(f)[i] != KeysOf(f)[j];
        }
      }
      DistinctKeysOnce(p, x);
      if f[|f| - 1] == x {
        forall i | 0 <= i < |p| ensures p[i] != x {
          assert KeysOf(f)[i] != KeysOf(f)[|f| - 1];
        }
        assert x !in p;
      }
    }
  }

  // ----- the batches of `messages().get` -----

  /** The response to the `i`-th request: the headers, or `None` when the callback got an
      exception (a missing entry is a failed request). */
  function ResponseAt(responses: seq<Option<HeaderSet>>, i: nat): Option<HeaderSet>
  {
    if i < |responses| then responses[i] else None
  }

  /** What each message contributes: nothing when its request failed, else what the
      callback `read` makes of its id and headers. */
  function Contributions<I>(ids: seq<string>, responses: seq<Option<HeaderSet>>,
                            read: (string, HeaderSet) -> Option<Contribution<I>>): (r: seq<Option<Contribution<I>>>)
    ensures |r| == |ids|
    ensures forall i :: 0 <= i < |ids| && (i >= |responses| || responses[i].None?) ==> r[i].None?
    ensures forall i :: 0 <= i < |ids| && i < |responses| && responses[i].Some? ==> r[i] == read(ids[i], responses[i].value)
  {
    var r := seq(|ids|, i requires 0 <= i < |ids| =>
      match ResponseAt(responses, i)
      case None => None
      case Some(hs) => read(ids[i], hs));
    assert forall i :: 0 <= i < |ids| && ResponseAt(responses, i).None? ==> r[i].None?;
    r
  }

  /** `batch.execute()`: the callback runs once per request of the batch, in order, on the
      messages `start ..` of the id list. */
  method ExecuteBatch<I>(ghost ids: seq<string>, batch: seq<string>, start: nat, responses: seq<Option<HeaderSet>>,
                         read: (string, HeaderSet) -> Option<Contribution<I>>, cap: nat,
                         rows0: seq<Row<I>>, processed0: nat)
    returns (rows: seq<Row<I>>, processed: nat)
    requires start + |batch| <= |ids| && batch == ids[start..start + |batch|]
    requires rows0 == Fold(Contributions(ids, responses, read)[..start], cap) && processed0 == start
    ensures rows == Fold(Contributions(ids, responses, read)[..start + |batch|], cap)
    ensures processed == start + |batch|
  {
    ghost var cs := Contributions(ids, responses, read);
    rows, processed := rows0, processed0;
    while processed < start + |batch|
      invariant start <= processed <= start + |batch|
      invariant rows == Fold(cs[..processed], cap)
    {
      var id := batch[processed - start];
      var response := ResponseAt(responses, processed);
      ghost var before := rows;
      if response.Some? {
        var c := read(id, response.value);
        if c.Some? {
          rows := Step(rows, c.value, cap);
        }
      }
      assert rows == Absorb(before, response, id, read, cap);
      FoldNext(ids, responses, read, cap, processed);
      processed := processed + 1;
    }
  }

  /** What one callback does to the rows. */
  function Absorb<I>(rows: seq<Row<I>>, response: Option<HeaderSet>, id: string,
                     read: (string, HeaderSet) -> Option<Contribution<I>>, cap: nat): seq<Row<I>>
  {
    match response
    case None => rows
    case Some(hs) => match read(id, hs) case None => rows case Some(c) => Step(rows, c, cap)
  }

  /** The fold over one more message is the previous fold with its callback absorbed. */
  lemma FoldNext<I>(ids: seq<string>, responses: seq<Option<HeaderSet>>,
                    read: (string, HeaderSet) -> Option<Contribution<I>>, cap: nat, n: nat)
    requires n < |ids|
    ensures Fold(Contributions(ids, responses, read)[..n + 1], cap)
         == Absorb(Fold(Contributions(ids, responses, read)[..n], cap), ResponseAt(responses, n), ids[n], read, cap)
  {
    var cs := Contributions(ids, responses, read);
    FoldSnoc(cs, n, cap);
  }

  /** The fold of one more element. */
  lemma FoldSnoc<I>(cs: seq<Option<Contribution<I>>>, n: nat, cap: nat)
    requires n < |cs|
    ensures Fold(cs[..n + 1], cap) == if cs[n].None? then Fold(cs[..n], cap) else Step(Fold(cs[..n], cap), cs[n].value, cap)
  {
    assert cs[..n + 1][..n] == cs[..n];
  }

  /** The loop over `range(0, len(ids), size)`: one batch of requests per chunk, every
      callback counted in `processed`, and the progress `int((i + len(batch)) / total * 100)`
      recorded after each batch. */
  method RunBatches<I>(ids: seq<string>, responses: seq<Option<HeaderSet>>,
                       read: (string, HeaderSet) -> Option<Contribution<I>>, cap: nat, size: nat)
    returns (rows: seq<Row<I>>, processed: nat, batches: seq<seq<string>>, progress: seq<nat>)
    requires size > 0
    ensures rows == Fold(Contributions(ids, responses, read), cap)
    ensures processed == |ids|
    ensures batches == Chunks(ids, size)
    ensures progress == ChunkProgress(batches, 0, 100, |ids|)
  {
    var chunks := Chunks(ids, size);
    ghost var cs := Contributions(ids, responses, read);
    rows, processed, batches, progress := [], 0, [], [];
    while |batches| < |chunks|
      invariant |batches| <= |chunks| && batches == chunks[..|batches|]
      invariant processed == |Flatten(batches)| <= |ids|
      invariant rows == Fold(cs[..processed], cap)
      invariant progress == ChunkProgress(batches, 0, 100, |ids|)
    {
      var b := |batches|;
      var batch := chunks[b];
      ChunkSlice(ids, size, b);
      BatchesGrow(chunks, b);
      rows, processed := ExecuteBatch(ids, batch, processed, responses, read, cap, rows, processed);
      assert batches + [batch] == chunks[..b + 1];
      assert processed == |Flatten(batches + [batch])|;
      ChunkProgressSnoc(batches, batch, 0, 100, |ids|);
      batches := batches + [batch];
      progress := progress + [Percent(0, 100, processed, |ids|)];
    }
    assert chunks[..|chunks|] == chunks;
    ChunksPartition(ids, size);
    assert cs[..processed] == cs;
  }

  /** Chunk `b` is the slice of the ids that follows the first `b` chunks. */
  lemma ChunkSlice(ids: seq<string>, size: nat, b: nat)
    requires size > 0 && b < |Chunks(ids, size)|
    ensures var chunks := Chunks(ids, size);
            var start := |Flatten(chunks[..b])|;
            && |Flatten(chunks[..b + 1])| == start + |chunks[b]| <= |ids|
            && chunks[b] == ids[start..start + |chunks[b]|]
  {
    var chunks := Chunks(ids, size);
    ChunksPrefix(ids, size, b);
    ChunksPrefix(ids, size, b + 1);
    BatchesGrow(chunks, b);
    FlattenAppend(chunks[..b], [chunks[b]]);
    assert Flatten([chunks[b]]) == chunks[b] + Flatten([]);
    var start := |Flatten(chunks[..b])|;
    var f := Flatten(chunks[..b + 1]);
    assert |f| <= |ids|;
    assert f == ids[..|f|];
    assert f[start..] == chunks[b];
  }

  lemma BatchesGrow(chunks: seq<seq<string>>, b: nat)
    requires b < |chunks|
    ensures chunks[..b + 1] == chunks[..b] + [chunks[b]]
    ensures |Flatten(chunks[..b + 1])| == |Flatten(chunks[..b])| + |chunks[b]|
  {
    assert chunks[..b + 1] == chunks[..b] + [chunks[b]];
    FlattenAppend(chunks[..b], [chunks[b]]);
    assert Flatten([chunks[b]]) == chunks[b] + Flatten([]);
  }
}
