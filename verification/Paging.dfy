/** Bounded paging: batches that resume just past the last key, and prefix scans under record and byte budgets. */
module Paging {
  import opened Bytes
  import opened Leaves
  import opened LeafAccess

  // ---------------------------------------------------------------------
  // Cursors
  // ---------------------------------------------------------------------

  /** The records a scan from `cursor` can meet. */
  function AtOrAfter(rs: seq<Record>, cursor: seq<byte>): seq<Record>
  {
    rs[Below(rs, cursor)..]
  }

  function Take(rs: seq<Record>, n: nat): seq<Record>
  {
    if |rs| <= n then rs else rs[..n]
  }

  /** The batch reader's contract: the first `limit` records at or after `cursor`. */
  function BatchFrom(rs: seq<Record>, cursor: seq<byte>, limit: nat): seq<Record>
  {
    Take(AtOrAfter(rs, cursor), limit)
  }

  /** `key ‖ 0x00` resumes exactly after the record with that key. */
  lemma ResumesAfter(rs: seq<Record>, i: nat)
    requires Sorted(rs) && i < |rs|
    ensures Below(rs, rs[i].key + [0]) == i + 1
  {
    hide Below, Lt;
    var k := rs[i].key;
    SuccessorIsExact(k, k + [0]);
    forall j | 0 <= j < i + 1 ensures Lt(rs[j].key, k + [0]) {
      if j < i { LtTransitive(rs[j].key, k, k + [0]); }
    }
    if i + 1 < |rs| { SuccessorIsExact(k, rs[i + 1].key); }
    BelowIs(rs, k + [0], i + 1);
  }

  lemma EmptyCursor(rs: seq<Record>)
    requires Sorted(rs)
    ensures Below(rs, []) == 0
  {
    hide Below;
    BelowIs(rs, [], 0);
  }

  // ---------------------------------------------------------------------
  // Prefix ranges
  // ---------------------------------------------------------------------

  /** The leading records that carry `prefix`. */
  function Leading(rs: seq<Record>, prefix: seq<byte>): (run: seq<Record>)
    ensures run <= rs
    ensures forall i :: 0 <= i < |run| ==> prefix <= run[i].key
    ensures |run| < |rs| ==> !(prefix <= rs[|run|].key)
  {
    if rs == [] || !(prefix <= rs[0].key) then []
    else
      var rest := Leading(rs[1..], prefix);
      assert rs == [rs[0]] + rs[1..];
      [rs[0]] + rest
  }

  function Filter(rs: seq<Record>, keep: seq<byte> -> bool): seq<Record>
  {
    if rs == [] then []
    else Filter(rs[..|rs| - 1], keep) + (if keep(rs[|rs| - 1].key) then [rs[|rs| - 1]] else [])
  }

  lemma {:induction false} FilterAll(rs: seq<Record>, keep: seq<byte> -> bool)
    requires forall i :: 0 <= i < |rs| ==> keep(rs[i].key)
    ensures Filter(rs, keep) == rs
  {
    if rs != [] { FilterAll(rs[..|rs| - 1], keep); }
  }

  lemma {:induction false} FilterNone(rs: seq<Record>, keep: seq<byte> -> bool)
    requires forall i :: 0 <= i < |rs| ==> !keep(rs[i].key)
    ensures Filter(rs, keep) == []
  {
    if rs != [] { FilterNone(rs[..|rs| - 1], keep); }
  }

  lemma {:induction false} FilterConcat(a: seq<Record>, b: seq<Record>, keep: seq<byte> -> bool)
    ensures Filter(a + b, keep) == Filter(a, keep) + Filter(b, keep)
  {
    if b == [] {
      assert a + b == a;
    } else {
      FilterConcat(a, b[..|b| - 1], keep);
      assert (a + b)[..|a + b| - 1] == a + b[..|b| - 1];
      Associative(Filter(a, keep), Filter(b[..|b| - 1], keep), if keep(b[|b| - 1].key) then [b[|b| - 1]] else []);
    }
  }

  /** In a sorted range at or above the prefix, the first key without it ends the matches. */
  lemma NoneAfterLeading(rs: seq<Record>, prefix: seq<byte>, j: nat)
    requires Sorted(rs) && (forall i :: 0 <= i < |rs| ==> Le(prefix, rs[i].key))
    requires |Leading(rs, prefix)| <= j < |rs|
    ensures !(prefix <= rs[j].key)
  {
    hide Lt, Leading;
    var n := |Leading(rs, prefix)|;
    if prefix <= rs[j].key && n < j {
      BetweenSharesPrefix(prefix, prefix, rs[n].key, rs[j].key);
    }
  }

  /** Stopping at the first key without the prefix loses no record that has it. */
  lemma LeadingIsAll(rs: seq<Record>, prefix: seq<byte>, start: seq<byte>)
    requires Sorted(rs) && Le(prefix, start)
    ensures Leading(AtOrAfter(rs, start), prefix) == Filter(rs, k => Le(start, k) && prefix <= k)
  {
    hide Lt, Leading, Below, Filter, AtOrAfter;
    var keep := k => Le(start, k) && prefix <= k;
    var from, tail := Below(rs, start), AtOrAfter(rs, start);
    NoneBelow(rs, prefix, start);
    FilterNone(rs[..from], keep);
    TailAtLeast(rs, start);
    LeadingOfSorted(tail, prefix, start);
    CutTail(rs, start);
    FilterConcat(rs[..from], tail, keep);
  }

  lemma CutTail(rs: seq<Record>, start: seq<byte>)
    ensures rs == rs[..Below(rs, start)] + AtOrAfter(rs, start)
  {
    hide Below;
  }

  lemma NoneBelow(rs: seq<Record>, prefix: seq<byte>, start: seq<byte>)
    requires Sorted(rs)
    ensures forall i :: 0 <= i < |rs[..Below(rs, start)]| ==> !Le(start, rs[..Below(rs, start)][i].key)
  {
    hide Lt, Below;
    BelowParts(rs, start);
    var front := rs[..Below(rs, start)];
    forall i | 0 <= i < |front| ensures !Le(start, front[i].key) { NotLt(front[i].key, start); }
  }

  lemma LeadingOfSorted(tail: seq<Record>, prefix: seq<byte>, start: seq<byte>)
    requires Sorted(tail) && Le(prefix, start) && forall i :: 0 <= i < |tail| ==> Le(start, tail[i].key)
    ensures Leading(tail, prefix) == Filter(tail, k => Le(start, k) && prefix <= k)
  {
    hide Lt, Leading, Filter;
    var keep := k => Le(start, k) && prefix <= k;
    forall i | 0 <= i < |tail| ensures Le(prefix, tail[i].key) { LeTransitive(prefix, start, tail[i].key); }
    var n := |Leading(tail, prefix)|;
    FilterAll(tail[..n], keep);
    forall j | 0 <= j < |tail[n..]| ensures !keep(tail[n..][j].key) { NoneAfterLeading(tail, prefix, n + j); }
    FilterNone(tail[n..], keep);
    assert tail == tail[..n] + tail[n..];
    FilterConcat(tail[..n], tail[n..], keep);
  }

  lemma {:induction false} FilterSame(rs: seq<Record>, f: seq<byte> -> bool, g: seq<byte> -> bool)
    requires forall k :: f(k) == g(k)
    ensures Filter(rs, f) == Filter(rs, g)
  {
    if rs != [] { FilterSame(rs[..|rs| - 1], f, g); }
  }

  /** The leading run is determined by where it stops. */
  lemma LeadingIs(rs: seq<Record>, prefix: seq<byte>, n: nat)
    requires n <= |rs| && (forall i :: 0 <= i < n ==> prefix <= rs[i].key)
    requires n < |rs| ==> !(prefix <= rs[n].key)
    ensures Leading(rs, prefix) == rs[..n]
  {
    hide Leading;
    var m := |Leading(rs, prefix)|;
  }

  /** A batch cut at the first foreign key is the next part of the whole run. */
  lemma LeadingBatch(tail: seq<Record>, prefix: seq<byte>, k: nat, n: nat)
    requires k <= |Leading(tail, prefix)|
    ensures Leading(Take(tail[k..], n), prefix) == Take(Leading(tail, prefix)[k..], n)
  {
    hide Leading;
    var run := Leading(tail, prefix);
    var m := if |run| - k < n then |run| - k else n;
    assert forall i :: 0 <= i < m ==> Take(tail[k..], n)[i] == run[k + i];
    LeadingIs(Take(tail[k..], n), prefix, m);
  }

  lemma TailAtLeast(rs: seq<Record>, start: seq<byte>)
    requires Sorted(rs)
    ensures forall i :: 0 <= i < |AtOrAfter(rs, start)| ==> Le(start, AtOrAfter(rs, start)[i].key)
    ensures Sorted(AtOrAfter(rs, start))
  {
    hide Lt, Below;
    BelowParts(rs, start);
  }

  // ---------------------------------------------------------------------
  // Streaming a whole tree
  // ---------------------------------------------------------------------

  /** The repack's paging loop, for any batch size: every record once, in order, kept or dropped by its key. */
  method StreamDenseTree(source: seq<Record>, batchSize: nat, keep: seq<byte> -> bool) returns (loaded: seq<Record>)
    requires Sorted(source) && batchSize >= 1
    ensures loaded == Filter(source, keep)
  {
    hide Below, Lt, Filter;
    loaded := [];
    var cursor: seq<byte> := [];
    ghost var done := 0;
    EmptyCursor(source);
    FilterNone([], keep);
    while true
      invariant done <= |source| && Below(source, cursor) == done
      invariant loaded == Filter(source[..done], keep)
      decreases |source| - done
    {
      var batch := BatchFrom(source, cursor, batchSize);
      if batch == [] { break; }
      ghost var upTo := done + |batch|;
      cursor := batch[|batch| - 1].key + [0];
      ResumesAfter(source, upTo - 1);
      FilterConcat(source[..done], batch, keep);
      assert source[..done] + batch == source[..upTo];
      loaded := loaded + Filter(batch, keep);
      done := upTo;
      if |batch| < batchSize { break; }
    }
    assert source[..done] == source;
  }

  // ---------------------------------------------------------------------
  // Walking rows that are rewritten on the way
  // ---------------------------------------------------------------------

  /** `rows` with those in `[from, to)` rewritten under their own keys. */
  ghost function Rewritten(rows: seq<Record>, from: nat, to: nat, rewrite: Record -> LeafValue): (later: seq<Record>)
    ensures |later| == |rows|
    ensures forall j :: 0 <= j < |rows| ==>
              later[j] == if from <= j < to then Record(rows[j].key, rewrite(rows[j])) else rows[j]
  {
    seq(|rows|, j requires 0 <= j < |rows| =>
      if from <= j < to then Record(rows[j].key, rewrite(rows[j])) else rows[j])
  }

  lemma {:induction false} SameKeysSameRank(rows: seq<Record>, later: seq<Record>, cursor: seq<byte>)
    requires |later| == |rows| && forall j :: 0 <= j < |rows| ==> later[j].key == rows[j].key
    ensures Below(later, cursor) == Below(rows, cursor)
  {
    if rows != [] { SameKeysSameRank(rows[..|rows| - 1], later[..|later| - 1], cursor); }
  }

  lemma RankOfOwnKey(rs: seq<Record>, i: nat)
    requires Sorted(rs) && i < |rs|
    ensures Below(rs, rs[i].key) == i
  {
    hide Below, Lt;
    BelowIs(rs, rs[i].key, i);
  }

  /** What a read at the cursor returns although earlier rows changed. */
  lemma BatchUnchanged(rows: seq<Record>, first: nat, done: nat, rewrite: Record -> LeafValue, prefix: seq<byte>,
                       cursor: seq<byte>, n: nat)
    requires first <= done <= |rows| && Below(rows, cursor) == done && Below(rows, prefix) == first
    requires done - first <= |Leading(AtOrAfter(rows, prefix), prefix)|
    ensures var run := Leading(AtOrAfter(rows, prefix), prefix);
            Leading(BatchFrom(Rewritten(rows, first, done, rewrite), cursor, n), prefix) == Take(run[done - first..], n)
  {
    hide Below, Leading;
    var later := Rewritten(rows, first, done, rewrite);
    SameKeysSameRank(rows, later, cursor);
    assert later[done..] == rows[done..] == AtOrAfter(rows, prefix)[done - first..];
    LeadingBatch(AtOrAfter(rows, prefix), prefix, done - first, n);
  }

  lemma NoneRewritten(rows: seq<Record>, first: nat, rewrite: Record -> LeafValue)
    ensures Rewritten(rows, first, first, rewrite) == rows
  {
  }

  /** A batch extends the visited part of the run; a short or empty one completes it. */
  lemma NextPart(rows: seq<Record>, prefix: seq<byte>, run: seq<Record>, k: nat, n: nat, batch: seq<Record>)
    requires run == Leading(AtOrAfter(rows, prefix), prefix) && k <= |run| && n >= 1 && batch == Take(run[k..], n)
    ensures k + |batch| <= |run| && run[..k] + batch == run[..k + |batch|]
    ensures |batch| < n ==> k + |batch| == |run|
    ensures var done := Below(rows, prefix) + k;
            done + |batch| <= |rows| && batch == rows[done..done + |batch|]
  {
    hide Below, Leading;
    var first, tail, done := Below(rows, prefix), AtOrAfter(rows, prefix), Below(rows, prefix) + k;
    assert forall i :: 0 <= i < |batch| ==> batch[i] == run[k + i] == tail[k + i] == rows[first + (k + i)];
    assert run[..k] + batch == run[..k + |batch|];
    assert batch == rows[done..done + |batch|];
  }

  lemma RewriteNext(rows: seq<Record>, from: nat, to: nat, rewrite: Record -> LeafValue)
    requires from <= to < |rows|
    ensures Rewritten(rows, from, to, rewrite)[to := Record(rows[to].key, rewrite(rows[to]))]
         == Rewritten(rows, from, to + 1, rewrite)
  {
  }

  /** Catalog rows whose values change under their own keys. */
  class CatalogRows {
    var rows: seq<Record>

    /** Rewrites every row of one batch, each found again by its key. */
    method RewriteBatch(batch: seq<Record>, rewrite: Record -> LeafValue, ghost was: seq<Record>, ghost first: nat,
                        ghost done: nat)
      requires Sorted(was) && first <= done && done + |batch| <= |was| && batch == was[done..done + |batch|]
      requires rows == Rewritten(was, first, done, rewrite)
      modifies this
      ensures rows == Rewritten(was, first, done + |batch|, rewrite)
    {
      hide Below, Lt, Rewritten;
      var i := 0;
      while i < |batch|
        invariant 0 <= i <= |batch| && rows == Rewritten(was, first, done + i, rewrite)
      {
        SameKeysSameRank(was, rows, batch[i].key);
        RankOfOwnKey(was, done + i);
        RewriteNext(was, first, done + i, rewrite);
        rows := rows[Below(rows, batch[i].key) := Record(batch[i].key, rewrite(batch[i]))];
        i := i + 1;
      }
    }

    /** Visits the rows with `prefix` in bounded batches, rewriting each as it goes: every one once, in order. */
    method Walk(prefix: seq<byte>, batchSize: nat, rewrite: Record -> LeafValue) returns (visited: seq<Record>)
      requires Sorted(rows) && batchSize >= 1
      modifies this
      ensures visited == Filter(old(rows), k => prefix <= k)
      ensures rows == Rewritten(old(rows), Below(old(rows), prefix), Below(old(rows), prefix) + |visited|, rewrite)
    {
      hide Below, Lt, Filter, Leading, BatchFrom, AtOrAfter, Rewritten, Take;
      ghost var was, first := rows, Below(rows, prefix);
      ghost var run := Leading(AtOrAfter(rows, prefix), prefix);
      var cursor := prefix;
      visited := [];
      NoneRewritten(was, first, rewrite);
      while true
        invariant |visited| <= |run| && visited == run[..|visited|]
        invariant Below(was, cursor) == first + |visited|
        invariant rows == Rewritten(was, first, first + |visited|, rewrite)
        decreases |run| - |visited|
      {
        ghost var done := first + |visited|;
        BatchUnchanged(was, first, done, rewrite, prefix, cursor, batchSize);
        var batch := Leading(BatchFrom(rows, cursor, batchSize), prefix);
        NextPart(was, prefix, run, |visited|, batchSize, batch);
        if batch == [] { break; }
        cursor := batch[|batch| - 1].key + [0];
        ResumesAfter(was, done + |batch| - 1);
        RewriteBatch(batch, rewrite, was, first, done);
        visited := visited + batch;
        if |batch| < batchSize { break; }
      }
      assert visited == run;
      PrefixRun(was, prefix);
    }
  }

  lemma PrefixRun(rs: seq<Record>, prefix: seq<byte>)
    requires Sorted(rs)
    ensures Leading(AtOrAfter(rs, prefix), prefix) == Filter(rs, k => prefix <= k)
  {
    hide Lt, Leading, Filter, AtOrAfter;
    LeadingIsAll(rs, prefix, prefix);
    var f, g := (k => Le(prefix, k) && prefix <= k), (k => prefix <= k);
    forall k ensures f(k) == g(k) { if prefix <= k { PrefixIsLe(prefix, k); } }
    FilterSame(rs, f, g);
  }
}
