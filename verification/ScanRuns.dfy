/** Paged prefix scans of a tree that a run of operations built, against the run's map. */
module ScanRuns {
  import opened Bytes
  import opened NodeLayout
  import opened Leaves
  import opened LeafAccess
  import opened Trees
  import opened Paging
  import opened Scans
  import opened LeafWalk

  type Contents = map<seq<byte>, LeafValue>

  // ---------------------------------------------------------------------
  // The records of a run
  // ---------------------------------------------------------------------

  /** The leaves of a run's tree, left to right, hold its map in key order. */
  lemma RunRecords(ops: seq<Op>, cap: nat)
    requires LegalCapacity(cap) && Run(ops, cap).Ok?
    ensures var t := Run(ops, cap).value;
            Ordered(t, None, None) && Sorted(Flat(LeavesOf(t))) && AsMap(Flat(LeavesOf(t))) == MapOf(ops, cap)
  {
    hide Run, MapOf, AsMap, LeavesOf, Flat, Lookup, Ordered, Sorted;
    var t, m := Run(ops, cap).value, MapOf(ops, cap);
    var h: nat :| Sound(t, None, None, h, cap);
    SoundIsOrdered(t, h, cap);
    LeavesWithin(t, None, None);
    var all := AsMap(Flat(LeavesOf(t)));
    forall q: seq<byte> ensures (q in all <==> q in m) && (q in m ==> all[q] == m[q]) {
      LookupIsScan(t, q, None, None);
      assert Lookup(t, q) == if q in m then Some(m[q]) else None;
    }
  }

  // ---------------------------------------------------------------------
  // Resuming
  // ---------------------------------------------------------------------

  /** Past the first `n` records of a run, the run goes on with the rest. */
  lemma LeadingDrop(rs: seq<Record>, prefix: seq<byte>, n: nat)
    requires n <= |Leading(rs, prefix)|
    ensures Leading(rs[n..], prefix) == Leading(rs, prefix)[n..]
  {
    hide Leading;
    LeadingIs(rs[n..], prefix, |Leading(rs, prefix)| - n);
  }

  lemma TailAfter(rs: seq<Record>, prefix: seq<byte>, n: nat)
    requires Sorted(rs) && 0 < n <= |AtOrAfter(rs, prefix)|
    ensures var tail := AtOrAfter(rs, prefix);
            AtOrAfter(rs, tail[n - 1].key + [0]) == tail[n..]
  {
    hide Lt, Below;
    var first := Below(rs, prefix);
    assert AtOrAfter(rs, prefix)[n - 1] == rs[first + n - 1];
    ResumesAfter(rs, first + n - 1);
  }

  /** A scan resumed just past record `n - 1` of its range is about the rest of that range. */
  lemma ResumedRange(rs: seq<Record>, prefix: seq<byte>, n: nat)
    requires Sorted(rs) && 0 < n <= |PrefixRange(rs, prefix, prefix)|
    ensures var run := PrefixRange(rs, prefix, prefix);
            PrefixRange(rs, prefix, run[n - 1].key + [0]) == run[n..]
  {
    hide Lt, Leading, PrefixRange, AtOrAfter, LaterOf, Sorted;
    RunIsPrefixRange(rs, prefix, prefix);
    LaterOfSelf(prefix);
    var tail := AtOrAfter(rs, prefix);
    var last := Leading(tail, prefix)[n - 1].key;
    TailAfter(rs, prefix, n);
    RunIsPrefixRange(rs, prefix, last + [0]);
    NotBefore(prefix, last + [0]);
    LeadingDrop(tail, prefix, n);
  }

  lemma LaterOfSelf(prefix: seq<byte>)
    ensures LaterOf(prefix, prefix) == prefix
  {
  }

  lemma NotBefore(prefix: seq<byte>, k: seq<byte>)
    requires prefix <= k
    ensures LaterOf(k, prefix) == k
  {
    hide Lt;
    PrefixIsLe(prefix, k);
    NotLt(k, prefix);
  }

  /** Starting at the leaf a descent reaches changes nothing about the range. */
  lemma SameRange(leaves: seq<seq<Record>>, first: nat, prefix: seq<byte>, start: seq<byte>)
    requires first < |leaves| && Sorted(Flat(leaves)) && AllBelow(Flat(leaves[..first]), LaterOf(start, prefix))
    ensures Sorted(Flat(leaves[first..])) && AllBelow(Flat(leaves[first..][..0]), LaterOf(start, prefix))
    ensures PrefixRange(Flat(leaves[first..]), prefix, start) == PrefixRange(Flat(leaves), prefix, start)
  {
    hide Lt, Leading, PrefixRange, AtOrAfter, LaterOf, Flat;
    var rest := Rest(leaves, first, LaterOf(start, prefix));
    RunIsPrefixRange(Flat(leaves), prefix, start);
    RunIsPrefixRange(rest, prefix, start);
    EmptyFront(leaves[first..]);
  }

  // ---------------------------------------------------------------------
  // The paged scan
  // ---------------------------------------------------------------------

  /** A record no batch can get past. */
  ghost predicate Blocks(r: Record, maxRecords: nat, maxBytes: nat, resolve: LeafValue -> Option<seq<byte>>)
  {
    || maxRecords == 0 || resolve(r.value).None?
    || |r.key| + (if r.value.Inline? then |r.value.bytes| else r.value.totalLen) > maxBytes
  }

  /** Some record of the range stops the scan for good. */
  ghost predicate Blocked(run: seq<Record>, maxRecords: nat, maxBytes: nat, resolve: LeafValue -> Option<seq<byte>>)
  {
    exists i :: 0 <= i < |run| && Blocks(run[i], maxRecords, maxBytes, resolve)
  }

  lemma BlockedBatch(run: seq<Record>, k: nat, maxRecords: nat, maxBytes: nat, resolve: LeafValue -> Option<seq<byte>>)
    requires k <= |run|
    requires UnreadableWithin(run[k..], maxRecords, maxBytes, resolve)
             || (k < |run| && StopsAt(run[k..], 0, maxRecords, maxBytes))
    ensures Blocked(run, maxRecords, maxBytes, resolve)
  {
    var tail := run[k..];
    if UnreadableWithin(tail, maxRecords, maxBytes, resolve) {
      var n: nat :| n < |tail| && n < maxRecords && Payload(tail[..n + 1]) <= maxBytes && resolve(tail[n].value).None?;
      assert Blocks(run[k + n], maxRecords, maxBytes, resolve);
    } else {
      assert tail[..1] == [run[k]] && tail[..1][..0] == [];
      assert Blocks(run[k], maxRecords, maxBytes, resolve);
    }
  }

  /** A record that came out of a batch did not block it. */
  lemma BatchPasses(tail: seq<Record>, batch: ScanBatch, i: nat, maxRecords: nat, maxBytes: nat,
                    resolve: LeafValue -> Option<seq<byte>>)
    requires BoundedBatch(batch, tail, maxRecords, maxBytes, resolve) && i < |batch.entries| <= |tail|
    ensures !Blocks(tail[i], maxRecords, maxBytes, resolve)
  {
    var out := tail[..|batch.entries|];
    PayloadGrows(out, i + 1, |out|);
    assert out[..|out|] == out && out[..i + 1][..i] == out[..i] && out[..i + 1][i] == tail[i];
    assert Payload(out[..i + 1]) == Payload(out[..i]) + PayloadSize(tail[i]);
    assert out[i] == tail[i] && resolve(out[i].value).Some?;
  }

  lemma PassedSoFar(run: seq<Record>, k: nat, batch: ScanBatch, maxRecords: nat, maxBytes: nat,
                    resolve: LeafValue -> Option<seq<byte>>)
    requires k + |batch.entries| <= |run| && BoundedBatch(batch, run[k..], maxRecords, maxBytes, resolve)
    requires !Blocked(run[..k], maxRecords, maxBytes, resolve)
    ensures !Blocked(run[..k + |batch.entries|], maxRecords, maxBytes, resolve)
  {
    hide BoundedBatch, Blocks;
    var n := k + |batch.entries|;
    forall i | 0 <= i < n ensures !Blocks(run[..n][i], maxRecords, maxBytes, resolve) {
      if i < k {
        assert run[..k][i] == run[..n][i];
      } else {
        BatchPasses(run[k..], batch, i - k, maxRecords, maxBytes, resolve);
        assert run[k..][i - k] == run[..n][i];
      }
    }
  }

  lemma NextBatch(run: seq<Record>, k: nat, batch: ScanBatch, entries: seq<ScanEntry>, maxRecords: nat, maxBytes: nat,
                  resolve: LeafValue -> Option<seq<byte>>)
    requires k <= |run| && Resolved(entries, run[..k], resolve)
    requires BoundedBatch(batch, run[k..], maxRecords, maxBytes, resolve)
    ensures var n := k + |batch.entries|;
            && n <= |run| && Resolved(entries + batch.entries, run[..n], resolve)
            && (batch.limit.None? <==> n == |run|)
            && (batch.entries != [] ==> batch.entries[|batch.entries| - 1].key == run[n - 1].key)
            && (batch.entries == [] ==> StopsAt(run[k..], 0, maxRecords, maxBytes))
  {
    hide Payload;
    var n := |batch.entries|;
    assert run[..k + n] == run[..k] + run[k..][..n];
  }

  /** The paged scan of one tree: descend, read a bounded batch off the leaves, resume just past its last key. `None`
      when a batch could not be read or came back empty with matches left. */
  method ScanPrefix(t: Tree, prefix: seq<byte>, maxRecords: nat, maxBytes: nat, resolve: LeafValue -> Option<seq<byte>>)
    returns (r: Option<seq<ScanEntry>>)
    requires Ordered(t, None, None) && Sorted(Flat(LeavesOf(t)))
    ensures var run := PrefixRange(Flat(LeavesOf(t)), prefix, prefix);
            && (r.None? <==> Blocked(run, maxRecords, maxBytes, resolve))
            && (r.Some? ==> Resolved(r.value, run, resolve))
  {
    hide *;
    ghost var rs := Flat(LeavesOf(t));
    ghost var run, k := PrefixRange(rs, prefix, prefix), 0;
    var entries: seq<ScanEntry>, start := [], prefix;
    NoEntries(run, maxRecords, maxBytes, resolve);
    while true
      invariant k <= |run| && PrefixRange(rs, prefix, start) == run[k..]
      invariant Resolved(entries, run[..k], resolve) && !Blocked(run[..k], maxRecords, maxBytes, resolve)
      decreases |run| - k
    {
      var from := LaterOf(start, prefix);
      DescentIsStart(t, from);
      StartLeafIsEarlyEnough(t, from, None, None);
      var leaves := LeavesFrom(t, Descent(t, from));
      SameRange(LeavesOf(t), StartLeaf(t, from), prefix, start);
      var batch := CollectPrefixBatchBounded(leaves, 0, prefix, start, maxRecords, maxBytes, resolve);
      if batch.None? {
        BlockedBatch(run, k, maxRecords, maxBytes, resolve);
        return None;
      }
      var more := batch.value.entries;
      NextBatch(run, k, batch.value, entries, maxRecords, maxBytes, resolve);
      PassedSoFar(run, k, batch.value, maxRecords, maxBytes, resolve);
      entries, k := entries + more, k + |more|;
      if batch.value.limit.None? { break; }
      if more == [] {
        BlockedBatch(run, k, maxRecords, maxBytes, resolve);
        return None;
      }
      start := more[|more| - 1].key + [0];
      ResumedRange(rs, prefix, k);
    }
    assert run[..k] == run;
    return Some(entries);
  }

  lemma NoEntries(run: seq<Record>, maxRecords: nat, maxBytes: nat, resolve: LeafValue -> Option<seq<byte>>)
    ensures run[0..] == run && Resolved([], run[..0], resolve) && !Blocked(run[..0], maxRecords, maxBytes, resolve)
  {
  }

  // ---------------------------------------------------------------------
  // Against the map
  // ---------------------------------------------------------------------

  /** `entries` lists the keys of `m` with `prefix` in order, each with its value read. */
  ghost predicate Lists(entries: seq<ScanEntry>, m: Contents, prefix: seq<byte>, resolve: LeafValue -> Option<seq<byte>>)
  {
    && (forall i, j :: 0 <= i < j < |entries| ==> Lt(entries[i].key, entries[j].key))
    && (forall i :: 0 <= i < |entries| ==>
          && entries[i].key in m && prefix <= entries[i].key
          && resolve(m[entries[i].key]) == Some(entries[i].value))
    && (forall k :: k in m && prefix <= k ==> exists i :: 0 <= i < |entries| && entries[i].key == k)
  }

  lemma {:induction false} FilterMember(rs: seq<Record>, keep: seq<byte> -> bool, r: Record)
    ensures r in Filter(rs, keep) <==> r in rs && keep(r.key)
  {
    if rs != [] {
      var init, last := rs[..|rs| - 1], rs[|rs| - 1];
      FilterMember(init, keep, r);
      assert rs == init + [last];
    }
  }

  lemma {:induction false} FilterSorted(rs: seq<Record>, keep: seq<byte> -> bool)
    requires Sorted(rs)
    ensures Sorted(Filter(rs, keep))
  {
    hide Lt;
    if rs != [] {
      var init, last := rs[..|rs| - 1], rs[|rs| - 1];
      FilterSorted(init, keep);
      var fs := Filter(init, keep);
      forall i | 0 <= i < |fs| ensures Lt(fs[i].key, last.key) {
        FilterMember(init, keep, fs[i]);
        var j :| 0 <= j < |init| && init[j] == fs[i];
        assert init[j] == rs[j];
      }
    }
  }

  lemma RangeLists(rs: seq<Record>, prefix: seq<byte>, entries: seq<ScanEntry>, resolve: LeafValue -> Option<seq<byte>>)
    requires Sorted(rs) && Resolved(entries, PrefixRange(rs, prefix, prefix), resolve)
    ensures Lists(entries, AsMap(rs), prefix, resolve)
  {
    hide Lt, AsMap, Filter;
    var run, m := PrefixRange(rs, prefix, prefix), AsMap(rs);
    RangeRecords(rs, prefix);
    forall k | k in m && prefix <= k ensures exists i :: 0 <= i < |entries| && entries[i].key == k {
      KeyIsSome(rs, k);
      var r :| r in rs && r.key == k;
      var i :| 0 <= i < |run| && run[i] == r;
      assert entries[i].key == k;
    }
  }

  /** The range holds exactly the records of the map with the prefix, in order. */
  lemma RangeRecords(rs: seq<Record>, prefix: seq<byte>)
    requires Sorted(rs)
    ensures var run := PrefixRange(rs, prefix, prefix);
            && Sorted(run)
            && (forall i :: 0 <= i < |run| ==>
                  prefix <= run[i].key && run[i].key in AsMap(rs) && AsMap(rs)[run[i].key] == run[i].value)
            && (forall r :: r in rs && prefix <= r.key ==> r in run)
  {
    hide Lt, AsMap, Filter;
    var run, keep := PrefixRange(rs, prefix, prefix), (k => Le(prefix, k) && prefix <= k);
    FilterSorted(rs, keep);
    forall i | 0 <= i < |run|
      ensures prefix <= run[i].key && run[i].key in AsMap(rs) && AsMap(rs)[run[i].key] == run[i].value
    {
      FilterMember(rs, keep, run[i]);
      var j :| 0 <= j < |rs| && rs[j] == run[i];
      RecordIsIn(rs, j);
    }
    forall r | r in rs && prefix <= r.key ensures r in run {
      PrefixIsLe(prefix, r.key);
      FilterMember(rs, keep, r);
    }
  }

  /** Some entry of the map with the prefix is past a batch's budget or unreadable. */
  ghost predicate EntryBlocks(m: Contents, prefix: seq<byte>, maxRecords: nat, maxBytes: nat,
                              resolve: LeafValue -> Option<seq<byte>>)
  {
    exists k :: k in m && prefix <= k && Blocks(Record(k, m[k]), maxRecords, maxBytes, resolve)
  }

  lemma BlockedIff(rs: seq<Record>, prefix: seq<byte>, maxRecords: nat, maxBytes: nat,
                   resolve: LeafValue -> Option<seq<byte>>)
    requires Sorted(rs)
    ensures Blocked(PrefixRange(rs, prefix, prefix), maxRecords, maxBytes, resolve) <==>
            EntryBlocks(AsMap(rs), prefix, maxRecords, maxBytes, resolve)
  {
    hide Lt, AsMap, Filter, PrefixRange, Blocks, Sorted;
    var run, m := PrefixRange(rs, prefix, prefix), AsMap(rs);
    RangeRecords(rs, prefix);
    if Blocked(run, maxRecords, maxBytes, resolve) {
      var i :| 0 <= i < |run| && Blocks(run[i], maxRecords, maxBytes, resolve);
      assert run[i] == Record(run[i].key, m[run[i].key]);
    }
    if EntryBlocks(m, prefix, maxRecords, maxBytes, resolve) {
      var k :| k in m && prefix <= k && Blocks(Record(k, m[k]), maxRecords, maxBytes, resolve);
      KeyIsSome(rs, k);
      var j :| 0 <= j < |rs| && rs[j].key == k;
      RecordIsIn(rs, j);
      assert rs[j] in run && rs[j] == Record(k, m[k]);
    }
  }

  /** For every run of operations: the paged prefix scan of its tree lists exactly the map's entries with the prefix, and
      gives up exactly when some such entry is past a batch's budget or unreadable. */
  method ScanRun(ghost ops: seq<Op>, ghost cap: nat, t: Tree, prefix: seq<byte>, maxRecords: nat, maxBytes: nat,
                 resolve: LeafValue -> Option<seq<byte>>)
    returns (r: Option<seq<ScanEntry>>)
    requires LegalCapacity(cap) && Run(ops, cap) == Ok(t)
    ensures r.None? <==> EntryBlocks(MapOf(ops, cap), prefix, maxRecords, maxBytes, resolve)
    ensures r.Some? ==> Lists(r.value, MapOf(ops, cap), prefix, resolve)
  {
    hide *;
    RunRecords(ops, cap);
    r := ScanPrefix(t, prefix, maxRecords, maxBytes, resolve);
    ghost var rs := Flat(LeavesOf(t));
    BlockedIff(rs, prefix, maxRecords, maxBytes, resolve);
    if r.Some? { RangeLists(rs, prefix, r.value, resolve); }
  }
}
