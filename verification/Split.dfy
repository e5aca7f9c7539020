/** Leaf splitting: where the split loop goes, when it stops, and what it hands back. */
module Splitting {
  import opened Bytes
  import opened NodeLayout
  import opened Leaves

  predicate LeftFits(rs: seq<Record>, cap: nat, i: nat)
    requires i <= |rs|
  {
    SliceFits(rs[..i], cap)
  }

  predicate RightFits(rs: seq<Record>, cap: nat, i: nat)
    requires i <= |rs|
  {
    SliceFits(rs[i..], cap)
  }

  /** A split point both of whose halves encode. */
  predicate GoodPoint(rs: seq<Record>, cap: nat, i: nat)
  {
    1 <= i < |rs| && LeftFits(rs, cap, i) && RightFits(rs, cap, i)
  }

  ghost predicate Splittable(rs: seq<Record>, cap: nat)
  {
    exists i: nat :: GoodPoint(rs, cap, i)
  }

  lemma FewerOnTheLeft(rs: seq<Record>, cap: nat, i: nat, j: nat)
    requires Sorted(rs) && j <= i <= |rs| && LeftFits(rs, cap, i)
    ensures LeftFits(rs, cap, j)
  {
    hide NeededBytes;
    SizeIsMonotone(rs[..i], 0, j);
    assert rs[..i][0..j] == rs[..j];
  }

  lemma FewerOnTheRight(rs: seq<Record>, cap: nat, i: nat, j: nat)
    requires Sorted(rs) && i <= j <= |rs| && RightFits(rs, cap, i)
    ensures RightFits(rs, cap, j)
  {
    hide NeededBytes;
    SizeIsMonotone(rs[i..], j - i, |rs| - i);
    assert rs[i..][j - i..|rs| - i] == rs[j..];
  }

  // ---------------------------------------------------------------------
  // The loop as a walk
  // ---------------------------------------------------------------------

  function Clamp(i: nat, n: nat): nat
    requires n >= 2
  {
    var low := if i < n - 1 then i else n - 1;
    if low < 1 then 1 else low
  }

  /** The first guess: nine tenths on the left for appends, half otherwise. */
  function Guess(n: nat, monotonic: bool): nat
    requires n >= 2
  {
    if monotonic then Clamp(n * 9 / 10, n) else n / 2
  }

  /** Where one turn of the loop goes from `i`; `i` itself when it breaks. */
  function Turn(rs: seq<Record>, cap: nat, i: nat): nat
    requires 1 <= i < |rs|
  {
    if LeftFits(rs, cap, i) && RightFits(rs, cap, i) then i
    else if !LeftFits(rs, cap, i) && i > 1 then i - 1
    else if !RightFits(rs, cap, i) && i < |rs| - 1 then i + 1
    else i
  }

  function After(rs: seq<Record>, cap: nat, start: nat, turns: nat): (i: nat)
    requires 1 <= start < |rs|
    ensures 1 <= i < |rs|
  {
    if turns == 0 then start else Turn(rs, cap, After(rs, cap, start, turns - 1))
  }

  ghost predicate StopsFrom(rs: seq<Record>, cap: nat, start: nat)
    requires 1 <= start < |rs|
  {
    exists turns: nat :: Turn(rs, cap, After(rs, cap, start, turns)) == After(rs, cap, start, turns)
  }

  /** The exact condition under which the loop ever breaks. */
  ghost predicate Settles(rs: seq<Record>, cap: nat)
    requires |rs| >= 2
  {
    |rs| == 2 || RightFits(rs, cap, 1) || LeftFits(rs, cap, |rs| - 1) || Splittable(rs, cap)
  }

  /** Turns left, at most, before the walk breaks. */
  function Distance(rs: seq<Record>, cap: nat, i: nat): nat
    requires 1 <= i < |rs|
  {
    if Turn(rs, cap, i) == i then 0 else if !LeftFits(rs, cap, i) then i else |rs| - i
  }

  /** No walk oscillates while a stopping place exists: each move gets closer. */
  lemma TurnGetsCloser(rs: seq<Record>, cap: nat, i: nat)
    requires Sorted(rs) && 1 <= i < |rs| && Settles(rs, cap) && Turn(rs, cap, i) != i
    ensures Distance(rs, cap, Turn(rs, cap, i)) < Distance(rs, cap, i)
  {
    hide SliceFits;
    var n, j := |rs|, Turn(rs, cap, i);
    if Splittable(rs, cap) {
      var g: nat :| GoodPoint(rs, cap, g);
      if g <= i { FewerOnTheRight(rs, cap, g, i); FewerOnTheRight(rs, cap, g, if g <= j then j else g); }
      if i <= g { FewerOnTheLeft(rs, cap, g, i); FewerOnTheLeft(rs, cap, g, if j <= g then j else g); }
    } else {
      assert !GoodPoint(rs, cap, 1) && !GoodPoint(rs, cap, n - 1);
      if RightFits(rs, cap, 1) {
        FewerOnTheRight(rs, cap, 1, i);
        if LeftFits(rs, cap, j) { FewerOnTheLeft(rs, cap, j, 1); }
      } else {
        FewerOnTheLeft(rs, cap, n - 1, i);
        FewerOnTheLeft(rs, cap, n - 1, j);
      }
    }
  }

  lemma {:induction false} StopsAfter(rs: seq<Record>, cap: nat, start: nat, turns: nat)
    requires Sorted(rs) && 1 <= start < |rs| && Settles(rs, cap)
    ensures StopsFrom(rs, cap, start)
    decreases Distance(rs, cap, After(rs, cap, start, turns))
  {
    hide Settles, Distance;
    var i := After(rs, cap, start, turns);
    if Turn(rs, cap, i) != i {
      TurnGetsCloser(rs, cap, i);
      assert After(rs, cap, start, turns + 1) == Turn(rs, cap, i);
      StopsAfter(rs, cap, start, turns + 1);
    }
  }

  /** Where the walk from `i` breaks. */
  function StopFrom(rs: seq<Record>, cap: nat, i: nat): (stop: nat)
    requires Sorted(rs) && 1 <= i < |rs| && Settles(rs, cap)
    ensures 1 <= stop < |rs| && Turn(rs, cap, stop) == stop
    decreases Distance(rs, cap, i)
  {
    if Turn(rs, cap, i) == i then i
    else
      TurnGetsCloser(rs, cap, i);
      StopFrom(rs, cap, Turn(rs, cap, i))
  }

  /** From every start the loop breaks if and only if `Settles` holds; otherwise it turns forever. */
  lemma LoopStopsIff(rs: seq<Record>, cap: nat, start: nat)
    requires Sorted(rs) && 1 <= start < |rs|
    ensures StopsFrom(rs, cap, start) <==> Settles(rs, cap)
  {
    hide SliceFits;
    if Settles(rs, cap) {
      StopsAfter(rs, cap, start, 0);
    } else {
      forall i: nat | 1 <= i < |rs| ensures Turn(rs, cap, i) != i {
        assert !GoodPoint(rs, cap, i);
      }
    }
  }

  /** When the first cut is good it stands: nine tenths of the records stay left of an append, half of them otherwise. */
  lemma FirstCutStands(rs: seq<Record>, cap: nat, monotonic: bool)
    requires Sorted(rs) && |rs| >= 2
    requires GoodPoint(rs, cap, if monotonic then |rs| * 9 / 10 else |rs| / 2)
    ensures Settles(rs, cap)
    ensures StopFrom(rs, cap, Guess(|rs|, monotonic)) == if monotonic then |rs| * 9 / 10 else |rs| / 2
  {
    hide SliceFits;
  }

  /** Cuts a leaf where the walk from the initial guess breaks. */
  method SplitLeaf(leaf: Leaf, monotonic: bool, cap: nat) returns (left: Leaf, right: Leaf, separator: seq<byte>)
    requires Sorted(leaf.records) && |leaf.records| >= 2 && Settles(leaf.records, cap)
    ensures left.records + right.records == leaf.records
    ensures |left.records| == StopFrom(leaf.records, cap, Guess(|leaf.records|, monotonic))
    ensures left.records != [] && right.records != [] && separator == right.records[0].key
    ensures SliceFits(left.records, cap) && SliceFits(right.records, cap) <==> Splittable(leaf.records, cap)
    ensures left.leftSibling == leaf.leftSibling && left.rightSibling == 0
    ensures right.leftSibling == 0 && right.rightSibling == 0
  {
    hide SliceFits;
    var rs, total := leaf.records, |leaf.records|;
    var splitAt := Guess(total, monotonic);
    var done := false;
    while !done
      invariant 1 <= splitAt < total
      invariant done ==> Turn(rs, cap, splitAt) == splitAt
      invariant StopFrom(rs, cap, splitAt) == StopFrom(rs, cap, Guess(total, monotonic))
      decreases if done then 0 else 1, Distance(rs, cap, splitAt)
    {
      splitAt := Clamp(splitAt, total);
      var leftFits, rightFits := SliceFits(rs[..splitAt], cap), SliceFits(rs[splitAt..], cap);
      if Turn(rs, cap, splitAt) != splitAt { TurnGetsCloser(rs, cap, splitAt); }
      if leftFits && rightFits {
        done := true;
      } else if !leftFits && splitAt > 1 {
        splitAt := splitAt - 1;
      } else if !rightFits && splitAt < total - 1 {
        splitAt := splitAt + 1;
      } else {
        done := true;
      }
    }
    StopIsGood(rs, cap, splitAt);
    left := Leaf(leaf.leftSibling, 0, rs[..splitAt]);
    right := Leaf(0, 0, rs[splitAt..]);
    separator := right.records[0].key;
  }

  /** Where the walk breaks, both halves fit as soon as any split point would do. */
  lemma StopIsGood(rs: seq<Record>, cap: nat, i: nat)
    requires Sorted(rs) && 1 <= i < |rs| && Turn(rs, cap, i) == i
    ensures LeftFits(rs, cap, i) && RightFits(rs, cap, i) <==> Splittable(rs, cap)
  {
    hide SliceFits;
    if Splittable(rs, cap) {
      var g: nat :| GoodPoint(rs, cap, g);
      if g <= i { FewerOnTheRight(rs, cap, g, i); } else { FewerOnTheLeft(rs, cap, g, i); }
    } else {
      assert !GoodPoint(rs, cap, i);
    }
  }

  function Gap(a: nat, b: nat): nat { if a < b then b - a else a - b }

  /** As long as some cut is good, the loop ends at the good cut nearest to its first guess. */
  lemma {:induction false} NearestGoodCut(rs: seq<Record>, cap: nat, i: nat, g: nat)
    requires Sorted(rs) && 1 <= i < |rs| && GoodPoint(rs, cap, g)
    ensures Settles(rs, cap) && GoodPoint(rs, cap, StopFrom(rs, cap, i))
    ensures Gap(StopFrom(rs, cap, i), i) <= Gap(g, i)
    decreases if Settles(rs, cap) then Distance(rs, cap, i) else 0
  {
    hide SliceFits, Sorted;
    assert Splittable(rs, cap);
    StopIsGood(rs, cap, StopFrom(rs, cap, i));
    var j := Turn(rs, cap, i);
    if j != i {
      TurnGetsCloser(rs, cap, i);
      NearestGoodCut(rs, cap, j, g);
      if i <= g { FewerOnTheLeft(rs, cap, g, i); }
      if g <= i { FewerOnTheRight(rs, cap, g, i); }
      var stop := StopFrom(rs, cap, i);
      if i <= stop { FewerOnTheLeft(rs, cap, stop, i); }
      if stop <= i { FewerOnTheRight(rs, cap, stop, i); }
    }
  }

  // ---------------------------------------------------------------------
  // Splits that follow one upsert into a fitting leaf
  // ---------------------------------------------------------------------

  /** The record's own cost: slot, suffix length, key and value, uncompressed. */
  function Cost(r: Record): nat
  {
    4 + |r.key| + r.value.EncodedSize()
  }

  function Usable(cap: nat): int
  {
    cap - HEADER_LEN
  }

  lemma AloneFits(x: Record, cap: nat)
    ensures SliceFits([x], cap) <==> Cost(x) <= Usable(cap)
  {
    CommonLenIsLongest(x.key, x.key, x.key);
    assert LcpLen([x]) == |x.key|;
    assert RecordsSize([x], |x.key|) == RecordsSize([], |x.key|) + RecordSize(x, |x.key|);
  }

  /** The preflight every put passes: the record fits alone in a leaf, and its key alone as a separator. */
  predicate SizesAccepted(keyLen: nat, encodedValue: nat, cap: nat)
  {
    && keyLen < U16_LIMIT
    && HEADER_LEN + keyLen + 2 + 2 + encodedValue <= cap
    && HEADER_LEN + keyLen + 12 <= cap
  }

  /** The same from the value's own length; a value over a quarter page goes to an overflow chain. */
  predicate PutAccepted(keyLen: nat, valueLen: nat, pageSize: nat)
    requires LegalPageSize(pageSize)
  {
    SizesAccepted(keyLen, if valueLen > pageSize / 4 then 18 else 2 + valueLen, BodyCapacity(pageSize))
  }

  predicate Accepted(x: Record, cap: nat)
  {
    SizesAccepted(|x.key|, x.value.EncodedSize(), cap)
  }

  /** A record is accepted exactly when it fits alone and its key leaves room for a separator. */
  lemma AcceptedFits(x: Record, cap: nat)
    requires LegalCapacity(cap)
    ensures Accepted(x, cap) <==> SliceFits([x], cap) && |x.key| + 12 <= Usable(cap)
  {
    hide SliceFits;
    AloneFits(x, cap);
  }

  /** The upserted record may join whichever neighbours it fits with; nothing else is possible. */
  ghost predicate JoinsASide(a: seq<Record>, x: Record, b: seq<Record>, cap: nat)
  {
    a == [] || b == [] || SliceFits(a + [x], cap) || SliceFits([x] + b, cap)
  }

  lemma CutAt(a: seq<Record>, x: Record, b: seq<Record>)
    ensures var rs := a + [x] + b;
            && rs[..|a|] == a && rs[|a|..] == [x] + b
            && rs[..|a| + 1] == a + [x] && rs[|a| + 1..] == b
  {
  }

  /** After one upsert into a fitting leaf, the loop stops iff the record joins a side, and then both halves fit. */
  lemma SplitAfterUpsert(a: seq<Record>, x: Record, b: seq<Record>, cap: nat, start: nat)
    requires Sorted(a + [x] + b) && 1 <= start <= |a| + |b|
    requires SliceFits(a, cap) && SliceFits(b, cap) && SliceFits([x], cap)
    ensures StopsFrom(a + [x] + b, cap, start) <==> JoinsASide(a, x, b, cap)
    ensures Splittable(a + [x] + b, cap) <==> JoinsASide(a, x, b, cap)
  {
    hide SliceFits;
    var rs := a + [x] + b;
    CutAt(a, x, b);
    LoopStopsIff(rs, cap, start);
    if JoinsASide(a, x, b, cap) {
      if a != [] && (b == [] || SliceFits([x] + b, cap)) {
        assert b == [] ==> [x] + b == [x];
        assert GoodPoint(rs, cap, |a|);
      } else {
        assert a == [] ==> a + [x] == [x];
        assert GoodPoint(rs, cap, |a| + 1);
      }
    } else {
      NoSplit(rs, |a|, cap);
    }
  }

  /** If neither side takes record `k`, no larger slice around it fits. */
  lemma NoSplit(rs: seq<Record>, k: nat, cap: nat)
    requires Sorted(rs) && 0 < k < |rs| - 1 && !LeftFits(rs, cap, k + 1) && !RightFits(rs, cap, k)
    ensures !Settles(rs, cap)
  {
    hide SliceFits;
    forall i: nat | 1 <= i < |rs| ensures !(LeftFits(rs, cap, i) && RightFits(rs, cap, i)) {
      if i <= k && RightFits(rs, cap, i) { FewerOnTheRight(rs, cap, i, k); }
      if k < i && LeftFits(rs, cap, i) { FewerOnTheLeft(rs, cap, i, k + 1); }
    }
    if RightFits(rs, cap, 1) { FewerOnTheRight(rs, cap, 1, k); }
    if LeftFits(rs, cap, |rs| - 1) { FewerOnTheLeft(rs, cap, |rs| - 1, k + 1); }
  }

  /** A slice without the record between two others is no larger: first and last keys stay. */
  lemma WithoutMiddle(a: seq<Record>, r: Record, b: seq<Record>)
    requires a != [] && b != []
    ensures LcpLen(a + b) == LcpLen(a + [r] + b)
    ensures NeededBytes(a + b) <= NeededBytes(a + [r] + b)
  {
    hide LcpLen, RecordsSize;
    SameEnds(a, r, b);
    var p := LcpLen(a + b);
    SizeOfThree(a, r, b, p);
    RecordsSizeSplit(a + b, |a|, p);
    assert (a + b)[..|a|] == a && (a + b)[|a|..] == b;
  }

  lemma SameEnds(a: seq<Record>, r: Record, b: seq<Record>)
    requires a != [] && b != []
    ensures LcpLen(a + b) == LcpLen(a + [r] + b)
  {
    hide CommonLen;
    var s, t := a + b, a + [r] + b;
    assert s[0] == t[0] && s[|s| - 1] == t[|t| - 1];
  }

  lemma SizeOfThree(a: seq<Record>, x: Record, b: seq<Record>, p: nat)
    ensures RecordsSize(a + [x] + b, p) == RecordsSize(a, p) + RecordSize(x, p) + RecordsSize(b, p)
    ensures RecordsSize(a + [x], p) == RecordsSize(a, p) + RecordSize(x, p)
    ensures RecordsSize([x] + b, p) == RecordSize(x, p) + RecordsSize(b, p)
  {
    var rs := a + [x] + b;
    CutAt(a, x, b);
    hide RecordSize;
    RecordsSizeSplit(rs, |a| + 1, p);
    assert (a + [x])[..|a|] == a;
    RecordsSizeSplit([x] + b, 1, p);
    assert ([x] + b)[..1] == [x] && ([x] + b)[1..] == b && [x][..0] == [];
  }

  /** A record of at most half the usable body always joins a side of the leaf it went into. */
  lemma HalfSizedRecordJoins(a: seq<Record>, x: Record, b: seq<Record>, cap: nat)
    requires Sorted(a + [x] + b) && 2 * Cost(x) <= Usable(cap)
    requires SliceFits(a + b, cap)
    ensures JoinsASide(a, x, b, cap)
  {
    if a != [] && b != [] {
      hide LcpLen, RecordsSize;
      var rs := a + [x] + b;
      CutAt(a, x, b);
      SameEnds(a, x, b);
      var p := LcpLen(rs);
      LcpIsSharedByAll(rs, |a|);
      SubSliceSharesMore(rs, 0, |a| + 1);
      SubSliceSharesMore(rs, |a|, |rs|);
      assert rs[0..|a| + 1] == a + [x] && rs[|a|..|rs|] == [x] + b;
      SizeAtSharedPrefix(a + [x], p);
      SizeAtSharedPrefix([x] + b, p);
      SizeOfThree(a, x, b, p);
      RecordsSizeSplit(a + b, |a|, p);
      assert (a + b)[..|a|] == a && (a + b)[|a|..] == b;
    }
  }

  /** Whatever the bias, inserting or replacing with a half-sized record ends in two halves that fit. */
  lemma HalfSizedUpsertSplits(a: seq<Record>, was: Option<Record>, x: Record, b: seq<Record>, cap: nat, monotonic: bool)
    requires Sorted(a + [x] + b) && |a| + |b| >= 1 && 2 * Cost(x) <= Usable(cap)
    requires was.None? ==> SliceFits(a + b, cap)
    requires was.Some? ==> was.value.key == x.key && SliceFits(a + [was.value] + b, cap)
    ensures Splittable(a + [x] + b, cap) && Settles(a + [x] + b, cap)
    ensures StopsFrom(a + [x] + b, cap, Guess(|a| + 1 + |b|, monotonic))
  {
    hide NeededBytes, Lt, Settles;
    var rs := a + [x] + b;
    CutAt(a, x, b);
    assert Sorted(a + b) by { WithoutMiddleSorted(a, x, b); }
    if was.Some? {
      SidesFit(a, was.value, b, x, cap);
    } else {
      assert (a + b)[0..|a|] == a && (a + b)[|a|..|a + b|] == b;
      SizeIsMonotone(a + b, 0, |a|);
      SizeIsMonotone(a + b, |a|, |a + b|);
    }
    AloneFits(x, cap);
    if a != [] && b != [] { HalfSizedRecordJoins(a, x, b, cap); }
    SplitAfterUpsert(a, x, b, cap, Guess(|rs|, monotonic));
    LoopStopsIff(rs, cap, Guess(|rs|, monotonic));
  }

  lemma WithoutMiddleSorted(a: seq<Record>, x: Record, b: seq<Record>)
    requires Sorted(a + [x] + b)
    ensures Sorted(a + b)
  {
    hide Lt;
    var rs, s := a + [x] + b, a + b;
    assert forall i :: 0 <= i < |a| ==> s[i] == rs[i];
    assert forall i :: |a| <= i < |s| ==> s[i] == rs[i + 1];
  }

  /** Around a replaced record, each side of a fitting leaf fits, and so do both sides without it. */
  lemma SidesFit(a: seq<Record>, r: Record, b: seq<Record>, x: Record, cap: nat)
    requires Sorted(a + [x] + b) && r.key == x.key && SliceFits(a + [r] + b, cap)
    ensures SliceFits(a, cap) && SliceFits(b, cap)
    ensures a != [] && b != [] ==> SliceFits(a + b, cap)
  {
    hide NeededBytes;
    var rs, t := a + [x] + b, a + [r] + b;
    CutAt(a, r, b);
    assert Sorted(t) by {
      hide Lt;
      assert forall i :: 0 <= i < |t| ==> t[i].key == rs[i].key;
    }
    SizeIsMonotone(t, 0, |a|);
    SizeIsMonotone(t, |a| + 1, |t|);
    assert t[0..|a|] == a && t[|a| + 1..|t|] == b;
    if a != [] && b != [] { WithoutMiddle(a, r, b); }
  }

  // ---------------------------------------------------------------------
  // A reachable leaf on which the loop never stops
  // ---------------------------------------------------------------------

  function WideRecord(first: byte, keyLen: nat): Record
    requires keyLen >= 1
  {
    Record([first] + Zeros(keyLen - 1), Inline([]))
  }

  /** Three accepted puts with empty values, in a 4096-byte page, leave `split_leaf` turning forever. */
  lemma AcceptedPutsCanSpin(start: nat)
    requires 1 <= start <= 2
    ensures var a, x, b := WideRecord(1, 1900), WideRecord(2, 3000), WideRecord(3, 1900);
            && PutAccepted(1900, 0, 4096) && PutAccepted(3000, 0, 4096)
            && Sorted([a] + [b]) && SliceFits([a] + [b], BodyCapacity(4096))
            && Sorted([a] + [x] + [b])
            && !StopsFrom([a] + [x] + [b], BodyCapacity(4096), start)
  {
    hide NeededBytes, StopsFrom;
    var a, x, b, cap := WideRecord(1, 1900), WideRecord(2, 3000), WideRecord(3, 1900), BodyCapacity(4096);
    PairSize(a, b);
    PairSize(a, x);
    PairSize(x, b);
    AloneFits(a, cap);
    AloneFits(x, cap);
    AloneFits(b, cap);
    SplitAfterUpsert([a], x, [b], cap, start);
  }

  lemma PairSize(a: Record, b: Record)
    requires |a.key| > 0 && |b.key| > 0 && a.key[0] != b.key[0]
    ensures NeededBytes([a] + [b]) == HEADER_LEN + Cost(a) + Cost(b)
  {
    var rs := [a] + [b];
    assert rs[..1] == [a];
    assert LcpLen(rs) == 0;
    assert RecordsSize([a], 0) == RecordsSize([], 0) + RecordSize(a, 0);
    assert RecordsSize(rs, 0) == RecordsSize([a], 0) + RecordSize(b, 0);
  }
}
