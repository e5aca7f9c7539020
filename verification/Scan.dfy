/** Scans over a tree's leaves, left to right. */
module Scans {
  import opened Bytes
  import opened Leaves
  import opened LeafAccess
  import opened Internals
  import opened Trees
  import opened Paging

  // ---------------------------------------------------------------------
  // A tree as a row of leaves
  // ---------------------------------------------------------------------

  function Flat(ls: seq<seq<Record>>): seq<Record>
  {
    if ls == [] then [] else Flat(ls[..|ls| - 1]) + ls[|ls| - 1]
  }

  ghost function LeavesOf(t: Tree): seq<seq<Record>>
    decreases t, 1, 0
  {
    match t
    case LeafTree(rs) => [rs]
    case InnerTree(node) => LeavesIn(t, 0, |node.entries| + 1)
  }

  /** The leaves of children `i` up to but not including `j`. */
  ghost function LeavesIn(t: Tree, i: nat, j: nat): seq<seq<Record>>
    requires t.InnerTree? && i <= j <= |t.node.entries| + 1
    decreases t, 0, j
  {
    if i == j then [] else LeavesIn(t, i, j - 1) + LeavesOf(ChildAt(t.node, j - 1))
  }

  /** Which leaf a descent for `q` reaches. */
  ghost function StartLeaf(t: Tree, q: seq<byte>): nat
  {
    match t
    case LeafTree(_) => 0
    case InnerTree(node) =>
      var r := Rank(node.entries, q);
      |LeavesIn(t, 0, r)| + StartLeaf(ChildAt(node, r), q)
  }

  lemma {:induction false} LeavesInSplit(t: Tree, i: nat, k: nat, j: nat)
    requires t.InnerTree? && i <= k <= j <= |t.node.entries| + 1
    ensures LeavesIn(t, i, j) == LeavesIn(t, i, k) + LeavesIn(t, k, j)
    decreases j
  {
    if k < j {
      LeavesInSplit(t, i, k, j - 1);
      Associative(LeavesIn(t, i, k), LeavesIn(t, k, j - 1), LeavesOf(ChildAt(t.node, j - 1)));
    }
  }

  /** The row of leaves around child `r`. */
  lemma AroundChild(t: Tree, r: nat)
    requires t.InnerTree? && r <= |t.node.entries|
    ensures LeavesOf(t) == LeavesIn(t, 0, r) + LeavesOf(ChildAt(t.node, r)) + LeavesIn(t, r + 1, |t.node.entries| + 1)
  {
    LeavesInSplit(t, 0, r + 1, |t.node.entries| + 1);
  }

  lemma {:induction false} FlatConcat(a: seq<seq<Record>>, b: seq<seq<Record>>)
    ensures Flat(a + b) == Flat(a) + Flat(b)
  {
    if b == [] {
      assert a + b == a;
    } else {
      FlatConcat(a, b[..|b| - 1]);
      assert (a + b)[..|a + b| - 1] == a + b[..|b| - 1];
      Associative(Flat(a), Flat(b[..|b| - 1]), b[|b| - 1]);
    }
  }

  /** A sorted row of records inside its bounds. */
  ghost predicate Within(rs: seq<Record>, lo: Bound, hi: Bound)
  {
    Sorted(rs) && forall i :: 0 <= i < |rs| ==> AtLeast(lo, rs[i].key) && Under(rs[i].key, hi)
  }

  lemma JoinWithin(a: seq<Record>, k: seq<byte>, b: seq<Record>, lo: Bound, hi: Bound)
    requires Within(a, lo, Some(k)) && Within(b, Some(k), hi) && Over(lo, k) && Under(k, hi)
    ensures Within(a + b, lo, hi)
  {
    hide Lt;
    var s := a + b;
    forall i, j | 0 <= i < j < |s| ensures Lt(s[i].key, s[j].key) {
      if i < |a| <= j { LtLeTransitive(s[i].key, k, s[j].key); }
    }
    forall i | 0 <= i < |s| ensures AtLeast(lo, s[i].key) && Under(s[i].key, hi) {
      if i < |a| {
        if hi.Some? { LtTransitive(s[i].key, k, hi.value); }
      } else {
        if lo.Some? { LtLeTransitive(lo.value, k, s[i].key); }
      }
    }
  }

  lemma {:induction false} LeavesWithin(t: Tree, lo: Bound, hi: Bound)
    requires Ordered(t, lo, hi)
    ensures Within(Flat(LeavesOf(t)), lo, hi)
    decreases t, 1, 0
  {
    match t
    case LeafTree(rs) => FlatOne(rs);
    case InnerTree(node) => LeavesInWithin(t, 0, |node.entries| + 1, lo, hi);
  }

  lemma FlatOne(rs: seq<Record>)
    ensures Flat([rs]) == rs
  {
    assert [rs][..0] == [];
  }

  lemma {:induction false} LeavesInWithin(t: Tree, i: nat, j: nat, lo: Bound, hi: Bound)
    requires Ordered(t, lo, hi) && t.InnerTree? && i < j <= |t.node.entries| + 1
    ensures Within(Flat(LeavesIn(t, i, j)), LowerOf(t.node.entries, lo, i), UpperOf(t.node.entries, hi, j - 1))
    decreases t, 0, j
  {
    hide Lt, Within;
    var es := t.node.entries;
    var child := ChildAt(t.node, j - 1);
    var bottom, top := LowerOf(es, lo, i), UpperOf(es, hi, j - 1);
    LeavesWithin(child, LowerOf(es, lo, j - 1), top);
    FlatConcat(LeavesIn(t, i, j - 1), LeavesOf(child));
    if i == j - 1 {
      assert LeavesIn(t, i, j) == [] + LeavesOf(child) == LeavesOf(child);
    } else {
      LeavesInWithin(t, i, j - 1, lo, hi);
      JoinWithin(Flat(LeavesIn(t, i, j - 1)), es[j - 2].key, Flat(LeavesOf(child)), bottom, top);
    }
  }

  ghost predicate AllBelow(rs: seq<Record>, q: seq<byte>)
  {
    forall i :: 0 <= i < |rs| ==> Lt(rs[i].key, q)
  }

  ghost predicate AllAbove(rs: seq<Record>, q: seq<byte>)
  {
    forall i :: 0 <= i < |rs| ==> Lt(q, rs[i].key)
  }

  lemma UnderIsBelow(rs: seq<Record>, lo: Bound, k: seq<byte>, q: seq<byte>)
    requires Within(rs, lo, Some(k)) && Le(k, q)
    ensures AllBelow(rs, q)
  {
    hide Lt;
    forall i | 0 <= i < |rs| ensures Lt(rs[i].key, q) { LtLeTransitive(rs[i].key, k, q); }
  }

  lemma OverIsAbove(rs: seq<Record>, k: seq<byte>, hi: Bound, q: seq<byte>)
    requires Within(rs, Some(k), hi) && Lt(q, k)
    ensures AllAbove(rs, q)
  {
    hide Lt;
    forall i | 0 <= i < |rs| ensures Lt(q, rs[i].key) { LtLeTransitive(q, k, rs[i].key); }
  }

  /** Every record left of the child a key routes to sorts before the key, and every one right of it after. */
  lemma Beside(t: Tree, q: seq<byte>, lo: Bound, hi: Bound)
    requires Ordered(t, lo, hi) && t.InnerTree?
    ensures var r, n := Rank(t.node.entries, q), |t.node.entries| + 1;
            && AllBelow(Flat(LeavesIn(t, 0, r)), q)
            && AllAbove(Flat(LeavesIn(t, r + 1, n)), q)
  {
    hide Lt, Rank, LeavesIn, Within, Flat;
    var es := t.node.entries;
    var r, n := Rank(es, q), |es| + 1;
    RankParts(es, q);
    if r > 0 {
      LeavesInWithin(t, 0, r, lo, hi);
      UnderIsBelow(Flat(LeavesIn(t, 0, r)), lo, es[r - 1].key, q);
    } else {
      NoLeaves(t, 0);
    }
    if r + 1 < n {
      LeavesInWithin(t, r + 1, n, lo, hi);
      OverIsAbove(Flat(LeavesIn(t, r + 1, n)), es[r].key, hi, q);
    } else {
      NoLeaves(t, n);
    }
  }

  lemma NoLeaves(t: Tree, i: nat)
    requires t.InnerTree? && i <= |t.node.entries| + 1
    ensures Flat(LeavesIn(t, i, i)) == []
  {
  }

  lemma Append3(a: seq<seq<Record>>, b: seq<seq<Record>>, c: seq<seq<Record>>)
    ensures Flat(a + b + c) == Flat(a) + Flat(b) + Flat(c)
  {
    hide Flat;
    FlatConcat(a + b, c);
    FlatConcat(a, b);
  }

  /** A full scan and a descent agree on every key. */
  lemma {:induction false} LookupIsScan(t: Tree, q: seq<byte>, lo: Bound, hi: Bound)
    requires Ordered(t, lo, hi)
    ensures Lookup(t, q) == InMap(Flat(LeavesOf(t)), q)
    decreases t
  {
    hide Lt, Rank, LeavesIn, AsMap, Flat, LeavesOf;
    match t
    case LeafTree(rs) => LeafScan(rs);
    case InnerTree(node) =>
      var r, n := Rank(node.entries, q), |node.entries| + 1;
      var child := ChildAt(node, r);
      LookupIsScan(child, q, LowerOf(node.entries, lo, r), UpperOf(node.entries, hi, r));
      AroundChild(t, r);
      Append3(LeavesIn(t, 0, r), LeavesOf(child), LeavesIn(t, r + 1, n));
      Beside(t, q, lo, hi);
      var a, b, c := Flat(LeavesIn(t, 0, r)), Flat(LeavesOf(child)), Flat(LeavesIn(t, r + 1, n));
      MapAround(a, c, q);
      AsMapConcat(a + b, c);
      AsMapConcat(a, b);
  }

  lemma LeafScan(rs: seq<Record>)
    ensures Flat(LeavesOf(LeafTree(rs))) == rs
  {
    FlatOne(rs);
  }

  /** A scan may start at the leaf a descent for `q` reaches: everything before it sorts before `q`. */
  lemma {:induction false} StartLeafIsEarlyEnough(t: Tree, q: seq<byte>, lo: Bound, hi: Bound)
    requires Ordered(t, lo, hi)
    ensures StartLeaf(t, q) < |LeavesOf(t)|
    ensures AllBelow(Flat(LeavesOf(t)[..StartLeaf(t, q)]), q)
    decreases t
  {
    hide Lt, Rank, LeavesIn, Flat;
    match t
    case LeafTree(rs) => EmptyFront(LeavesOf(t));
    case InnerTree(node) =>
      var r, n := Rank(node.entries, q), |node.entries| + 1;
      var child := ChildAt(node, r);
      StartLeafIsEarlyEnough(child, q, LowerOf(node.entries, lo, r), UpperOf(node.entries, hi, r));
      AroundChild(t, r);
      Beside(t, q, lo, hi);
      var s, before := StartLeaf(child, q), LeavesIn(t, 0, r);
      assert LeavesOf(t)[..|before| + s] == before + LeavesOf(child)[..s];
      FlatConcat(before, LeavesOf(child)[..s]);
  }

  lemma EmptyFront(ls: seq<seq<Record>>)
    ensures Flat(ls[..0]) == []
  {
  }

  // ---------------------------------------------------------------------
  // Batches read off the leaves
  // ---------------------------------------------------------------------

  lemma CutSorted(a: seq<Record>, b: seq<Record>)
    requires Sorted(a + b)
    ensures Sorted(a) && Sorted(b)
  {
    hide Lt;
    var s := a + b;
    assert forall i :: 0 <= i < |a| ==> s[i] == a[i];
    assert forall i :: 0 <= i < |b| ==> s[|a| + i] == b[i];
  }

  /** What a scan meets in two adjoining stretches. */
  lemma AtOrAfterConcat(a: seq<Record>, b: seq<Record>, start: seq<byte>)
    requires Sorted(a + b)
    ensures AtOrAfter(a + b, start) == AtOrAfter(a, start) + AtOrAfter(b, start)
  {
    hide Lt, Below;
    CutSorted(a, b);
    var i, j := Below(a, start), Below(b, start);
    BelowParts(a, start);
    BelowParts(b, start);
    if i < |a| {
      TailAtLeast(a, start);
      assert Le(start, AtOrAfter(a, start)[0].key);
      BelowIs(a + b, start, i);
      forall k | 0 <= k < |b| ensures Lt(start, b[k].key) {
        assert (a + b)[i] == a[i] && (a + b)[|a| + k] == b[k];
        LtLeTransitive(start, a[i].key, b[k].key);
      }
      if b != [] { BelowIs(b, start, 0); }
      assert (a + b)[i..] == a[i..] + b[0..];
    } else {
      if j < |b| { TailAtLeast(b, start); assert Le(start, AtOrAfter(b, start)[0].key); }
      BelowIs(a + b, start, |a| + j);
      assert (a + b)[|a| + j..] == a[|a|..] + b[j..];
    }
  }

  lemma LeadingConcat(a: seq<Record>, b: seq<Record>, prefix: seq<byte>)
    ensures Leading(a + b, prefix) == if Leading(a, prefix) == a then a + Leading(b, prefix) else Leading(a, prefix)
  {
    hide Leading;
    var x, y := Leading(a, prefix), Leading(b, prefix);
    if x == a {
      assert forall i :: 0 <= i < |b| ==> (a + b)[|a| + i] == b[i];
      LeadingIs(a + b, prefix, |a| + |y|);
    } else {
      LeadingIs(a + b, prefix, |x|);
    }
  }

  /** One leaf's part of a batch; `full` as soon as `limit` records are out. */
  method TakeFromLeaf(rs: seq<Record>, start: seq<byte>, limit: nat, out: seq<Record>)
    returns (more: seq<Record>, full: bool)
    requires Sorted(rs) && |out| <= limit
    ensures more == Take(out + AtOrAfter(rs, start), limit)
    ensures full ==> |more| == limit
    ensures !full ==> more == out + AtOrAfter(rs, start)
  {
    hide Lt, Below;
    BelowParts(rs, start);
    TailAtLeast(rs, start);
    ghost var b := Below(rs, start);
    more := out;
    var i := 0;
    while i < |rs|
      invariant 0 <= i <= |rs| && |more| <= limit
      invariant more == out + (if i <= b then [] else rs[b..i])
    {
      NotLt(rs[i].key, start);
      assert i >= b ==> Le(start, AtOrAfter(rs, start)[i - b].key);
      if !Lt(rs[i].key, start) {
        if |more| == limit { return more, true; }
        more := more + [rs[i]];
      }
      i := i + 1;
    }
    full := false;
  }

  /** The batch reader over the leaves meets its contract wherever the descent started early enough. */
  method CollectBatchFrom(leaves: seq<seq<Record>>, first: nat, start: seq<byte>, limit: nat) returns (out: seq<Record>)
    requires first < |leaves| && Sorted(Flat(leaves)) && AllBelow(Flat(leaves[..first]), start)
    ensures out == BatchFrom(Flat(leaves), start, limit)
  {
    hide Lt, Flat, AtOrAfter;
    if limit == 0 { return []; }
    ghost var rest := Rest(leaves, first, start);
    out := [];
    var at, full := first, false;
    while at < |leaves|
      invariant first <= at <= |leaves| && |out| <= limit
      invariant out + AtOrAfter(Flat(leaves[at..]), start) == AtOrAfter(Flat(leaves), start)
      invariant Sorted(Flat(leaves[at..]))
    {
      NextLeaf(leaves, at, start);
      ghost var before := out;
      out, full := TakeFromLeaf(leaves[at], start, limit, out);
      Associative(before, AtOrAfter(leaves[at], start), AtOrAfter(Flat(leaves[at + 1..]), start));
      if full || |out| == limit { return out; }
      at := at + 1;
    }
    NoLeavesLeft(leaves, start);
  }

  /** Skipping leaves that hold only smaller keys skips nothing a scan meets. */
  lemma Rest(leaves: seq<seq<Record>>, first: nat, start: seq<byte>) returns (rest: seq<Record>)
    requires first < |leaves| && Sorted(Flat(leaves)) && AllBelow(Flat(leaves[..first]), start)
    ensures rest == Flat(leaves[first..]) && Sorted(rest)
    ensures AtOrAfter(rest, start) == AtOrAfter(Flat(leaves), start)
    ensures [] + AtOrAfter(rest, start) == AtOrAfter(Flat(leaves), start)
  {
    hide Lt, Flat, Below;
    assert leaves == leaves[..first] + leaves[first..];
    FlatConcat(leaves[..first], leaves[first..]);
    rest := Flat(leaves[first..]);
    var front := Flat(leaves[..first]);
    AtOrAfterConcat(front, rest, start);
    CutSorted(front, rest);
    BelowIs(front, start, |front|);
  }

  lemma NextLeaf(leaves: seq<seq<Record>>, at: nat, start: seq<byte>)
    requires at < |leaves| && Sorted(Flat(leaves[at..]))
    ensures Sorted(leaves[at]) && Sorted(Flat(leaves[at + 1..]))
    ensures Flat(leaves[at..]) == leaves[at] + Flat(leaves[at + 1..])
    ensures AtOrAfter(Flat(leaves[at..]), start)
         == AtOrAfter(leaves[at], start) + AtOrAfter(Flat(leaves[at + 1..]), start)
  {
    hide Lt, Flat, AtOrAfter;
    assert leaves[at..] == [leaves[at]] + leaves[at + 1..];
    FlatConcat([leaves[at]], leaves[at + 1..]);
    FlatOne(leaves[at]);
    CutSorted(leaves[at], Flat(leaves[at + 1..]));
    AtOrAfterConcat(leaves[at], Flat(leaves[at + 1..]), start);
  }

  lemma NoLeavesLeft(leaves: seq<seq<Record>>, start: seq<byte>)
    ensures AtOrAfter(Flat(leaves[|leaves|..]), start) == []
  {
  }

  // ---------------------------------------------------------------------
  // Prefix scans under budgets
  // ---------------------------------------------------------------------

  datatype ScanLimit = RecordLimit | ByteLimit
  datatype ScanEntry = ScanEntry(key: seq<byte>, value: seq<byte>)
  datatype ScanBatch = ScanBatch(entries: seq<ScanEntry>, limit: Option<ScanLimit>)

  /** Key and value bytes, the value at its full length wherever it is stored. */
  function PayloadSize(r: Record): nat
  {
    |r.key| + if r.value.Inline? then |r.value.bytes| else r.value.totalLen
  }

  function Payload(rs: seq<Record>): nat
  {
    if rs == [] then 0 else Payload(rs[..|rs| - 1]) + PayloadSize(rs[|rs| - 1])
  }

  /** `n` records of `run` are within both budgets and one more is not. */
  ghost predicate StopsAt(run: seq<Record>, n: nat, maxRecords: nat, maxBytes: nat)
  {
    && n <= |run| && n <= maxRecords && Payload(run[..n]) <= maxBytes
    && (n < |run| ==> n == maxRecords || Payload(run[..n + 1]) > maxBytes)
  }

  /** Which budget stopped the batch, if any. */
  ghost predicate LimitIs(limit: Option<ScanLimit>, run: seq<Record>, n: nat, maxRecords: nat)
  {
    && (limit.None? <==> n == |run|)
    && (limit == Some(RecordLimit) <==> n < |run| && n == maxRecords)
  }

  ghost predicate Resolved(entries: seq<ScanEntry>, rs: seq<Record>, resolve: LeafValue -> Option<seq<byte>>)
  {
    && |entries| == |rs|
    && forall i :: 0 <= i < |rs| ==> entries[i].key == rs[i].key && resolve(rs[i].value) == Some(entries[i].value)
  }

  lemma {:induction false} PayloadGrows(run: seq<Record>, m: nat, n: nat)
    requires m <= n <= |run|
    ensures Payload(run[..m]) <= Payload(run[..n])
    decreases n
  {
    if m < n {
      PayloadGrows(run, m, n - 1);
      assert run[..n][..n - 1] == run[..n - 1];
    }
  }

  /** The batch is the longest initial run both budgets allow. */
  lemma StopsAtLongest(run: seq<Record>, n: nat, m: nat, maxRecords: nat, maxBytes: nat)
    requires StopsAt(run, n, maxRecords, maxBytes)
    requires m <= |run| && m <= maxRecords && Payload(run[..m]) <= maxBytes
    ensures m <= n
  {
    if n < m { PayloadGrows(run, n + 1, m); }
  }

  /** How one leaf leaves a bounded scan. */
  datatype LeafScanEnd = GoOn | Done(limit: Option<ScanLimit>) | Unreadable

  /** What a leaf's part of a bounded scan amounts to: `n` of its records are out. */
  ghost predicate LeafOutcome(here: seq<Record>, prefix: seq<byte>, maxRecords: nat, maxBytes: nat,
                              resolve: LeafValue -> Option<seq<byte>>, met: seq<Record>, more: seq<ScanEntry>,
                              total: nat, end: LeafScanEnd, n: nat)
  {
    var run := Leading(here, prefix);
    && n <= |run| && |met| + n <= maxRecords
    && Resolved(more, met + run[..n], resolve) && total == Payload(met + run[..n]) <= maxBytes
    && match end
       case GoOn => n == |run| && run == here
       case Done(None) => n == |run| && run != here
       case Done(Some(RecordLimit)) => n < |run| && |met| + n == maxRecords
       case Done(Some(ByteLimit)) => n < |run| && |met| + n < maxRecords && Payload(met + run[..n + 1]) > maxBytes
       case Unreadable =>
         && n < |run| && |met| + n < maxRecords && Payload(met + run[..n + 1]) <= maxBytes
         && resolve(run[n].value).None?
  }

  /** One leaf of a bounded scan: `met` records are out already. */
  method ScanLeaf(rs: seq<Record>, prefix: seq<byte>, start: seq<byte>, maxRecords: nat, maxBytes: nat,
                  resolve: LeafValue -> Option<seq<byte>>, entries: seq<ScanEntry>, used: nat, ghost met: seq<Record>)
    returns (more: seq<ScanEntry>, total: nat, end: LeafScanEnd, ghost n: nat)
    requires Sorted(rs) && Resolved(entries, met, resolve) && used == Payload(met)
    requires |met| <= maxRecords && used <= maxBytes
    ensures LeafOutcome(AtOrAfter(rs, start), prefix, maxRecords, maxBytes, resolve, met, more, total, end, n)
  {
    hide Lt, Below, Leading, Payload;
    BelowParts(rs, start);
    TailAtLeast(rs, start);
    ghost var b, here := Below(rs, start), AtOrAfter(rs, start);
    ghost var run := Leading(here, prefix);
    more, total, n := entries, used, 0;
    assert met + run[..0] == met;
    var i := 0;
    while i < |rs|
      invariant 0 <= i <= |rs| && n == (if i <= b then 0 else i - b) <= |run| && |met| + n <= maxRecords
      invariant Resolved(more, met + run[..n], resolve) && total == Payload(met + run[..n]) <= maxBytes
    {
      var r := rs[i];
      NotLt(r.key, start);
      assert i >= b ==> Le(start, here[i - b].key);
      if !Lt(r.key, start) {
        assert r == here[n];
        if !(prefix <= r.key) { return more, total, Done(None), n; }
        assert n < |run| && run[n] == r;
        if |more| == maxRecords { return more, total, Done(Some(RecordLimit)), n; }
        OneMorePayload(met, run, n);
        var next := total + PayloadSize(r);
        if next > maxBytes { return more, total, Done(Some(ByteLimit)), n; }
        var value := resolve(r.value);
        if value.None? { return more, total, Unreadable, n; }
        more, total, n := more + [ScanEntry(r.key, value.value)], next, n + 1;
      }
      i := i + 1;
    }
    return more, total, GoOn, n;
  }

  lemma OneMorePayload(met: seq<Record>, run: seq<Record>, n: nat)
    requires n < |run|
    ensures met + run[..n + 1] == met + run[..n] + [run[n]]
    ensures Payload(met + run[..n + 1]) == Payload(met + run[..n]) + PayloadSize(run[n])
  {
    assert (met + run[..n] + [run[n]])[..|met| + n] == met + run[..n];
  }

  function LaterOf(a: seq<byte>, b: seq<byte>): seq<byte>
  {
    if Lt(a, b) then b else a
  }

  /** The records a prefix scan from `start` is about. */
  ghost function PrefixRange(rs: seq<Record>, prefix: seq<byte>, start: seq<byte>): seq<Record>
  {
    Filter(rs, k => Le(start, k) && prefix <= k)
  }

  /** Starting at the prefix when `start` sorts before it, and stopping at the first foreign key, loses nothing. */
  lemma RunIsPrefixRange(rs: seq<Record>, prefix: seq<byte>, start: seq<byte>)
    requires Sorted(rs)
    ensures Leading(AtOrAfter(rs, LaterOf(start, prefix)), prefix) == PrefixRange(rs, prefix, start)
  {
    hide Lt, Leading, Filter, AtOrAfter;
    var from := LaterOf(start, prefix);
    NotLt(start, prefix);
    LeadingIsAll(rs, prefix, from);
    var f, g := (k => Le(from, k) && prefix <= k), (k => Le(start, k) && prefix <= k);
    forall k ensures f(k) == g(k) {
      if prefix <= k {
        PrefixIsLe(prefix, k);
        if Lt(start, prefix) { LeTransitive(start, prefix, k); }
      }
    }
    FilterSame(rs, f, g);
  }

  /** The whole run, seen from a leaf: what is out already, this leaf's part, and the rest only if no foreign key came. */
  lemma RunFromLeaf(met: seq<Record>, here: seq<Record>, rest: seq<Record>, prefix: seq<byte>)
    requires Leading(met, prefix) == met
    ensures var part := Leading(here, prefix);
            && met + part <= Leading(met + (here + rest), prefix)
            && (part != here ==> Leading(met + (here + rest), prefix) == met + part)
            && (part == here ==> Leading(met + here, prefix) == met + here)
  {
    hide Leading;
    LeadingConcat(met, here + rest, prefix);
    LeadingConcat(here, rest, prefix);
    LeadingConcat(met, here, prefix);
  }

  lemma FrontOfRun(met: seq<Record>, part: seq<Record>, run: seq<Record>, n: nat)
    requires met + part <= run && n <= |part|
    ensures |met| + n <= |run| && run[..|met| + n] == met + part[..n]
    ensures n < |part| ==> |met| + n < |run| && run[|met| + n] == part[n] && run[..|met| + n + 1] == met + part[..n + 1]
  {
  }

  /** The longest run within both budgets, resolved, and the budget that ended it if one did. */
  ghost predicate BoundedBatch(batch: ScanBatch, run: seq<Record>, maxRecords: nat, maxBytes: nat,
                               resolve: LeafValue -> Option<seq<byte>>)
  {
    var n := |batch.entries|;
    && StopsAt(run, n, maxRecords, maxBytes)
    && Resolved(batch.entries, run[..n], resolve)
    && LimitIs(batch.limit, run, n, maxRecords)
  }

  /** Some record within both budgets has a value that cannot be read. */
  ghost predicate UnreadableWithin(run: seq<Record>, maxRecords: nat, maxBytes: nat,
                                   resolve: LeafValue -> Option<seq<byte>>)
  {
    exists n: nat :: n < |run| && n < maxRecords && Payload(run[..n + 1]) <= maxBytes && resolve(run[n].value).None?
  }

  lemma LeafEnds(met: seq<Record>, here: seq<Record>, rest: seq<Record>, prefix: seq<byte>, maxRecords: nat,
                 maxBytes: nat, resolve: LeafValue -> Option<seq<byte>>, more: seq<ScanEntry>, total: nat,
                 end: LeafScanEnd, n: nat)
    requires LeafOutcome(here, prefix, maxRecords, maxBytes, resolve, met, more, total, end, n)
    requires Leading(met, prefix) == met
    ensures var run := Leading(met + (here + rest), prefix);
            match end
            case GoOn =>
              && Leading(met + here, prefix) == met + here && |met + here| <= maxRecords
              && Leading((met + here) + rest, prefix) == run
              && Resolved(more, met + here, resolve) && total == Payload(met + here) <= maxBytes
            case Done(limit) => BoundedBatch(ScanBatch(more, limit), run, maxRecords, maxBytes, resolve)
            case Unreadable => UnreadableWithin(run, maxRecords, maxBytes, resolve)
  {
    hide Leading, Payload;
    var run, part := Leading(met + (here + rest), prefix), Leading(here, prefix);
    RunFromLeaf(met, here, rest, prefix);
    FrontOfRun(met, part, run, n);
    Associative(met, here, rest);
    if end.GoOn? { assert part[..n] == here; }
    if end.Unreadable? {
      var k := |met| + n;
      assert k < |run| && k < maxRecords && Payload(run[..k + 1]) <= maxBytes && resolve(run[k].value).None?;
    }
  }

  lemma AllRead(met: seq<Record>, prefix: seq<byte>, maxRecords: nat, maxBytes: nat,
                resolve: LeafValue -> Option<seq<byte>>, entries: seq<ScanEntry>)
    requires Leading(met, prefix) == met && Resolved(entries, met, resolve)
    requires |met| <= maxRecords && Payload(met) <= maxBytes
    ensures BoundedBatch(ScanBatch(entries, None), Leading(met + [], prefix), maxRecords, maxBytes, resolve)
  {
    hide Leading, Payload;
    assert met + [] == met && met[..|met|] == met;
  }

  /** `None` when a value in the batch could not be read. */
  method CollectPrefixBatchBounded(leaves: seq<seq<Record>>, first: nat, prefix: seq<byte>, start: seq<byte>,
                                   maxRecords: nat, maxBytes: nat, resolve: LeafValue -> Option<seq<byte>>)
    returns (r: Option<ScanBatch>)
    requires Sorted(Flat(leaves))
    requires leaves != [] ==> first < |leaves| && AllBelow(Flat(leaves[..first]), LaterOf(start, prefix))
    ensures r.Some? ==>
              BoundedBatch(r.value, PrefixRange(Flat(leaves), prefix, start), maxRecords, maxBytes, resolve)
    ensures r.Some? && ReadsWhole(resolve) ==> EntryBytes(r.value.entries) <= maxBytes
    ensures r.None? ==> UnreadableWithin(PrefixRange(Flat(leaves), prefix, start), maxRecords, maxBytes, resolve)
  {
    hide Lt, Flat, AtOrAfter, Leading, Payload, PrefixRange, LaterOf, BoundedBatch, UnreadableWithin;
    hide LeafOutcome, Resolved, Sorted, EntryBytes, ReadsWhole;
    ghost var run := PrefixRange(Flat(leaves), prefix, start);
    RunIsPrefixRange(Flat(leaves), prefix, start);
    var from := LaterOf(start, prefix);
    var entries: seq<ScanEntry>, used := [], 0;
    ghost var met: seq<Record> := [];
    NothingMet(prefix, resolve);
    if leaves == [] {
      NoLeavesLeft(leaves, from);
      AllRead(met, prefix, maxRecords, maxBytes, resolve, entries);
      Weighed(ScanBatch(entries, None), run, maxRecords, maxBytes, resolve);
      return Some(ScanBatch(entries, None));
    }
    ghost var tail := Rest(leaves, first, from);
    var at := first;
    while at < |leaves|
      invariant first <= at <= |leaves| && |met| <= maxRecords && Leading(met, prefix) == met
      invariant Resolved(entries, met, resolve) && used == Payload(met) <= maxBytes
      invariant Leading(met + AtOrAfter(Flat(leaves[at..]), from), prefix) == run
      invariant Sorted(Flat(leaves[at..]))
    {
      NextLeaf(leaves, at, from);
      ghost var here, rest := AtOrAfter(leaves[at], from), AtOrAfter(Flat(leaves[at + 1..]), from);
      var end: LeafScanEnd;
      ghost var n: nat;
      entries, used, end, n := ScanLeaf(leaves[at], prefix, from, maxRecords, maxBytes, resolve, entries, used, met);
      LeafEnds(met, here, rest, prefix, maxRecords, maxBytes, resolve, entries, used, end, n);
      match end
      case Done(limit) =>
        Weighed(ScanBatch(entries, limit), run, maxRecords, maxBytes, resolve);
        return Some(ScanBatch(entries, limit));
      case Unreadable =>
        return None;
      case GoOn =>
        met := met + here;
        at := at + 1;
    }
    NoLeavesLeft(leaves, from);
    AllRead(met, prefix, maxRecords, maxBytes, resolve, entries);
    Weighed(ScanBatch(entries, None), run, maxRecords, maxBytes, resolve);
    return Some(ScanBatch(entries, None));
  }

  lemma Weighed(batch: ScanBatch, run: seq<Record>, maxRecords: nat, maxBytes: nat,
                resolve: LeafValue -> Option<seq<byte>>)
    requires BoundedBatch(batch, run, maxRecords, maxBytes, resolve)
    ensures ReadsWhole(resolve) ==> EntryBytes(batch.entries) <= maxBytes
  {
    if ReadsWhole(resolve) { BatchBytes(batch, run, maxRecords, maxBytes, resolve); }
  }

  // ---------------------------------------------------------------------
  // The byte budget, over the bytes returned
  // ---------------------------------------------------------------------

  /** Key and value bytes of the entries a caller receives. */
  function EntryBytes(es: seq<ScanEntry>): nat
  {
    if es == [] then 0 else EntryBytes(es[..|es| - 1]) + |es[|es| - 1].key| + |es[|es| - 1].value|
  }

  /** `resolve` reads inline values as they are and overflow values at the length their leaf declares. */
  ghost predicate ReadsWhole(resolve: LeafValue -> Option<seq<byte>>)
  {
    forall v :: resolve(v).Some? ==>
      match v
      case Inline(bytes) => resolve(v).value == bytes
      case Overflow(totalLen, _) => |resolve(v).value| == totalLen
  }

  lemma {:induction false} EntriesWeigh(es: seq<ScanEntry>, rs: seq<Record>, resolve: LeafValue -> Option<seq<byte>>)
    requires Resolved(es, rs, resolve) && ReadsWhole(resolve)
    ensures EntryBytes(es) == Payload(rs)
  {
    if es != [] {
      var n := |es| - 1;
      EntriesWeigh(es[..n], rs[..n], resolve);
      assert resolve(rs[n].value) == Some(es[n].value);
    }
  }

  lemma NextPayload(run: seq<Record>, n: nat)
    requires n < |run|
    ensures Payload(run[..n + 1]) == Payload(run[..n]) + PayloadSize(run[n])
  {
    assert run[..n + 1][..n] == run[..n];
  }

  /** What a batch returns stays inside the byte budget, and if that budget ended it, one more record would not have. */
  lemma BatchBytes(batch: ScanBatch, run: seq<Record>, maxRecords: nat, maxBytes: nat,
                   resolve: LeafValue -> Option<seq<byte>>)
    requires BoundedBatch(batch, run, maxRecords, maxBytes, resolve) && ReadsWhole(resolve)
    ensures |batch.entries| <= maxRecords && EntryBytes(batch.entries) <= maxBytes
    ensures batch.limit == Some(RecordLimit) ==> |batch.entries| == maxRecords < |run|
    ensures batch.limit == Some(ByteLimit) ==>
              && |batch.entries| < |run|
              && var next := run[|batch.entries|];
                 var valueBytes := if next.value.Inline? then |next.value.bytes| else next.value.totalLen;
                 EntryBytes(batch.entries) + |next.key| + valueBytes > maxBytes
  {
    hide Payload, EntryBytes, ReadsWhole, Resolved;
    var n := |batch.entries|;
    EntriesWeigh(batch.entries, run[..n], resolve);
    if n < |run| { NextPayload(run, n); }
  }

  lemma NothingMet(prefix: seq<byte>, resolve: LeafValue -> Option<seq<byte>>)
    ensures Payload([]) == 0 && Leading([], prefix) == [] && Resolved([], [], resolve)
  {
  }
}
