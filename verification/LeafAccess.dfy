/** Reading and updating leaves: the zero-copy accessor on page bytes, and the decoded record vector. */
module LeafAccess {
  import opened Bytes
  import opened NodeLayout
  import opened Leaves
  import opened LeafCodec

  datatype Ordering = Less | Equal | Greater

  /** The three-way byte-string comparison. */
  function Compare(a: seq<byte>, b: seq<byte>): Ordering
  {
    if a == b then Equal else if Lt(a, b) then Less else Greater
  }

  // ---------------------------------------------------------------------
  // Leaves as maps
  // ---------------------------------------------------------------------

  /** What a leaf means: its keys and their values. */
  ghost function AsMap(rs: seq<Record>): map<seq<byte>, LeafValue>
  {
    if rs == [] then map[]
    else AsMap(rs[..|rs| - 1])[rs[|rs| - 1].key := rs[|rs| - 1].value]
  }

  lemma {:induction false} KeyIsSome(rs: seq<Record>, k: seq<byte>)
    requires k in AsMap(rs)
    ensures exists i :: 0 <= i < |rs| && rs[i].key == k
  {
    var n := |rs| - 1;
    if rs[n].key != k {
      KeyIsSome(rs[..n], k);
      var i :| 0 <= i < n && rs[..n][i].key == k;
      assert rs[i].key == k;
    }
  }

  lemma {:induction false} RecordIsIn(rs: seq<Record>, i: nat)
    requires Sorted(rs) && i < |rs|
    ensures rs[i].key in AsMap(rs) && AsMap(rs)[rs[i].key] == rs[i].value
    decreases |rs|
  {
    var n := |rs| - 1;
    if i < n {
      RecordIsIn(rs[..n], i);
      LtTotal(rs[i].key, rs[n].key);
    }
  }

  lemma {:induction false} AsMapConcat(a: seq<Record>, b: seq<Record>)
    ensures AsMap(a + b) == AsMap(a) + AsMap(b)
  {
    if b == [] {
      assert a + b == a;
    } else {
      AsMapConcat(a, b[..|b| - 1]);
      assert (a + b)[..|a + b| - 1] == a + b[..|b| - 1];
    }
  }

  // ---------------------------------------------------------------------
  // The zero-copy accessor
  // ---------------------------------------------------------------------

  datatype LeafValueLoc = InlineAt(start: nat, end: nat) | OverflowAt(totalLen: u64, rootPageId: u64)

  datatype LeafAccessor = LeafAccessor(body: seq<byte>, prefixLen: nat, slotCount: nat) {

    /** What holds of every accessor made from a validated page. */
    ghost predicate Valid()
    {
      && WellFormedLeaf(body)
      && prefixLen == ReadHeader(body).value.prefixLen
      && slotCount == ReadHeader(body).value.slotCount
    }

    ghost function Records(): seq<Record>
      requires Valid()
    {
      DecodedLeaf(body).records
    }

    function Prefix(): seq<byte>
      requires Valid()
    {
      body[HEADER_LEN..HEADER_LEN + prefixLen]
    }

    function Suffix(idx: nat): seq<byte>
      requires Valid() && idx < slotCount
    {
      var off := SlotOffset(body, prefixLen, idx);
      body[off + 2..off + 2 + U16At(body, off)]
    }

    /** Compares the stored key with `query` without joining prefix and suffix. */
    function CmpSlotToQuery(idx: nat, query: seq<byte>): Ordering
      requires Valid() && idx < slotCount
    {
      var prefix, suffix := Prefix(), Suffix(idx);
      var n := if |prefix| < |query| then |prefix| else |query|;
      match Compare(prefix[..n], query[..n])
      case Equal =>
        if |query| <= |prefix| then
          if |query| < |prefix| || suffix != [] then Greater else Equal
        else Compare(suffix, query[|prefix|..])
      case Less => Less
      case Greater => Greater
    }

    /** Where the value lies, without reading it. */
    function ValueLoc(idx: nat): LeafValueLoc
      requires Valid() && idx < slotCount
    {
      var off := SlotOffset(body, prefixLen, idx);
      var afterKey := off + 2 + U16At(body, off);
      var valueLen := U16At(body, afterKey);
      if valueLen == OVERFLOW_SENTINEL
      then OverflowAt(U64At(body, afterKey + 2), U64At(body, afterKey + 10))
      else InlineAt(afterKey + 2, afterKey + 2 + valueLen)
    }

    /** Binary search over the page bytes. */
    method Find(query: seq<byte>) returns (r: Option<nat>)
      requires Valid()
      ensures r.Some? ==> r.value < slotCount && Records()[r.value].key == query
      ensures r.None? && Sorted(Records()) ==> query !in AsMap(Records())
    {
      hide AsMap, DecodedLeaf, CmpSlotToQuery;
      var lo, hi := 0, slotCount;
      while lo < hi
        invariant 0 <= lo <= hi <= slotCount
        invariant Sorted(Records()) ==> forall i :: 0 <= i < lo ==> Lt(Records()[i].key, query)
        invariant Sorted(Records()) ==> forall i :: hi <= i < slotCount ==> Lt(query, Records()[i].key)
      {
        var mid := lo + (hi - lo) / 2;
        CmpIsKeyOrder(this, mid, query);
        LtTotal(Records()[mid].key, query);
        match CmpSlotToQuery(mid, query)
        case Less =>
          if Sorted(Records()) { KeysUpTo(Records(), mid, query); }
          lo := mid + 1;
        case Greater =>
          if Sorted(Records()) { KeysFrom(Records(), mid, query); }
          hi := mid;
        case Equal =>
          return Some(mid);
      }
      if Sorted(Records()) && query in AsMap(Records()) {
        KeyIsSome(Records(), query);
        LtIrreflexive(query);
      }
      return None;
    }

    /** Point lookup on the page bytes: what `AsMap` of the decoded records holds for the key. */
    method Get(query: seq<byte>) returns (r: Option<LeafValue>)
      requires Valid()
      ensures Sorted(Records()) ==> (r.Some? <==> query in AsMap(Records()))
      ensures Sorted(Records()) && r.Some? ==> r.value == AsMap(Records())[query]
    {
      hide AsMap;
      var slot := Find(query);
      if slot.None? { return None; }
      if Sorted(Records()) { RecordIsIn(Records(), slot.value); }
      ValueLocIsValue(this, slot.value);
      match ValueLoc(slot.value)
      case InlineAt(start, end) => return Some(Inline(body[start..end]));
      case OverflowAt(total, root) => return Some(Overflow(total, root));
    }
  }

  method AccessorOf(body: seq<byte>) returns (r: Result<LeafAccessor, NodeError>)
    ensures r.Ok? <==> WellFormedLeaf(body)
    ensures r.Ok? ==> r.value.Valid() && r.value.body == body
  {
    var header := ValidateNodeBody(body);
    if header.Err? { return Err(Malformed); }
    if header.value.kind != LeafNode { return Err(KindMismatch); }
    return Ok(LeafAccessor(body, header.value.prefixLen, header.value.slotCount));
  }

  lemma KeysUpTo(rs: seq<Record>, mid: nat, query: seq<byte>)
    requires Sorted(rs) && mid < |rs| && Lt(rs[mid].key, query)
    ensures forall i :: 0 <= i <= mid ==> Lt(rs[i].key, query)
  {
    forall i | 0 <= i < mid ensures Lt(rs[i].key, query) { LtTransitive(rs[i].key, rs[mid].key, query); }
  }

  lemma KeysFrom(rs: seq<Record>, mid: nat, query: seq<byte>)
    requires Sorted(rs) && mid < |rs| && Lt(query, rs[mid].key)
    ensures forall i :: mid <= i < |rs| ==> Lt(query, rs[i].key)
  {
    forall i | mid < i < |rs| ensures Lt(query, rs[i].key) { LtTransitive(query, rs[mid].key, rs[i].key); }
  }

  /** Order against a key cut in two, decided by the front alone when the fronts differ. */
  lemma {:induction false} CompareFronts(a: seq<byte>, b: seq<byte>, n: nat)
    requires n <= |a| && n <= |b|
    ensures a[..n] != b[..n] ==> Compare(a, b) == Compare(a[..n], b[..n])
    ensures a[..n] == b[..n] ==> Compare(a, b) == Compare(a[n..], b[n..])
  {
    if a[..n] == b[..n] {
      assert a == a[..n] + a[n..] && b == b[..n] + b[n..];
      LtCommonPrefix(a[..n], a[n..], b[n..]);
    } else if a[0] != b[0] {
      assert a[..n][0] == a[0] && b[..n][0] == b[0];
    } else {
      CompareFronts(a[1..], b[1..], n - 1);
      assert a[..n] == [a[0]] + a[1..][..n - 1] && b[..n] == [b[0]] + b[1..][..n - 1];
      assert a[..n][1..] == a[1..][..n - 1] && b[..n][1..] == b[1..][..n - 1];
    }
  }

  /** Comparing in pieces is comparing the whole stored key. */
  lemma CmpIsKeyOrder(acc: LeafAccessor, idx: nat, query: seq<byte>)
    requires acc.Valid() && idx < acc.slotCount
    ensures acc.CmpSlotToQuery(idx, query) == Compare(acc.Records()[idx].key, query)
  {
    hide Lt, U16At, ValueAt;
    var prefix, suffix := acc.Prefix(), acc.Suffix(idx);
    var key := prefix + suffix;
    assert acc.Records()[idx].key == key;
    ComparePieces(prefix, suffix, query);
  }

  lemma ComparePieces(prefix: seq<byte>, suffix: seq<byte>, query: seq<byte>)
    ensures var n := if |prefix| < |query| then |prefix| else |query|;
            Compare(prefix + suffix, query) ==
            match Compare(prefix[..n], query[..n])
            case Equal =>
              if |query| <= |prefix| then
                if |query| < |prefix| || suffix != [] then Greater else Equal
              else Compare(suffix, query[|prefix|..])
            case Less => Less
            case Greater => Greater
  {
    var key := prefix + suffix;
    var n := if |prefix| < |query| then |prefix| else |query|;
    CompareFronts(key, query, n);
    assert key[..n] == prefix[..n];
    if |query| <= |prefix| {
      assert query[n..] == [];
      assert query[..n] == query;
    } else {
      assert key[n..] == suffix && prefix[..n] == prefix;
    }
  }

  /** The location names exactly the decoded value's bytes, or its overflow reference. */
  lemma ValueLocIsValue(acc: LeafAccessor, idx: nat)
    requires acc.Valid() && idx < acc.slotCount
    ensures match acc.ValueLoc(idx)
            case InlineAt(start, end) =>
              start <= end <= |acc.body| && acc.Records()[idx].value == Inline(acc.body[start..end])
            case OverflowAt(total, root) => acc.Records()[idx].value == Overflow(total, root)
  {
    hide U16At, U64At;
  }

  /** Lookup on an encoded page is lookup in the leaf that was encoded. */
  method GetFromEncoded(ghost leaf: Leaf, ghost cap: nat, body: seq<byte>, query: seq<byte>)
    returns (r: Option<LeafValue>)
    requires Fitting(leaf, cap) && body == EncodedBody(leaf, cap)
    ensures r.Some? <==> query in AsMap(leaf.records)
    ensures r.Some? ==> r.value == AsMap(leaf.records)[query]
  {
    hide EncodedBody, AsMap, DecodedLeaf;
    LeafRoundTrip(leaf, cap);
    var acc := AccessorOf(body);
    r := acc.value.Get(query);
  }

  // ---------------------------------------------------------------------
  // The decoded record vector
  // ---------------------------------------------------------------------

  /** Index where `key` is, or where it would be inserted. */
  method Position(rs: seq<Record>, key: seq<byte>) returns (found: bool, i: nat)
    requires Sorted(rs)
    ensures i <= |rs| && (found ==> i < |rs| && rs[i].key == key)
    ensures forall j :: 0 <= j < i ==> Lt(rs[j].key, key)
    ensures forall j :: i <= j < |rs| ==> Lt(key, rs[j].key) || (found && j == i)
  {
    var lo, hi := 0, |rs|;
    while lo < hi
      invariant 0 <= lo <= hi <= |rs|
      invariant forall j :: 0 <= j < lo ==> Lt(rs[j].key, key)
      invariant forall j :: hi <= j < |rs| ==> Lt(key, rs[j].key)
    {
      var mid := lo + (hi - lo) / 2;
      LtTotal(rs[mid].key, key);
      match Compare(rs[mid].key, key)
      case Less =>
        KeysUpTo(rs, mid, key);
        lo := mid + 1;
      case Greater =>
        KeysFrom(rs, mid, key);
        hi := mid;
      case Equal =>
        return true, mid;
    }
    return false, lo;
  }

  /** How many keys sort before `key`. */
  function Below(rs: seq<Record>, key: seq<byte>): (n: nat)
    ensures n <= |rs|
  {
    if rs == [] then 0
    else if Lt(rs[|rs| - 1].key, key) then |rs|
    else Below(rs[..|rs| - 1], key)
  }

  /** How many keys sort before or at `key`. */
  function Through(rs: seq<Record>, key: seq<byte>): (n: nat)
    ensures Below(rs, key) <= n <= |rs|
  {
    var b := Below(rs, key);
    if b < |rs| && rs[b].key == key then b + 1 else b
  }

  /** Insert in order, or overwrite. */
  function Upserted(rs: seq<Record>, x: Record): seq<Record>
  {
    rs[..Below(rs, x.key)] + [x] + rs[Through(rs, x.key)..]
  }

  function Removed(rs: seq<Record>, key: seq<byte>): seq<Record>
  {
    rs[..Below(rs, key)] + rs[Through(rs, key)..]
  }

  lemma {:induction false} BelowParts(rs: seq<Record>, key: seq<byte>)
    requires Sorted(rs)
    ensures forall j :: 0 <= j < Below(rs, key) ==> Lt(rs[j].key, key)
    ensures forall j :: Through(rs, key) <= j < |rs| ==> Lt(key, rs[j].key)
  {
    if rs != [] {
      var n := |rs| - 1;
      LtTotal(rs[n].key, key);
      if Lt(rs[n].key, key) {
        KeysUpTo(rs, n, key);
      } else {
        BelowParts(rs[..n], key);
        forall j | Through(rs, key) <= j < |rs| ensures Lt(key, rs[j].key) {
          assert j < n ==> rs[..n][j] == rs[j];
        }
      }
    }
  }

  /** The insertion point is unique. */
  lemma BelowIs(rs: seq<Record>, key: seq<byte>, i: nat)
    requires Sorted(rs) && i <= |rs|
    requires forall j :: 0 <= j < i ==> Lt(rs[j].key, key)
    requires i < |rs| ==> Le(key, rs[i].key)
    ensures Below(rs, key) == i
  {
    hide Below, Lt;
    BelowParts(rs, key);
    var b := Below(rs, key);
    if b < i {
      LtTotal(rs[b].key, key);
    } else if i < b {
      NotLt(rs[i].key, key);
    }
  }

  /** Where the two halves of a sorted vector meet around `key`, the map splits too. */
  lemma MapAround(below: seq<Record>, above: seq<Record>, key: seq<byte>)
    requires forall j :: 0 <= j < |below| ==> Lt(below[j].key, key)
    requires forall j :: 0 <= j < |above| ==> Lt(key, above[j].key)
    ensures key !in AsMap(below) && key !in AsMap(above)
  {
    hide AsMap;
    LtIrreflexive(key);
    if key in AsMap(below) { KeyIsSome(below, key); }
    if key in AsMap(above) { KeyIsSome(above, key); }
  }

  lemma SortedAround(below: seq<Record>, r: Record, above: seq<Record>)
    requires Sorted(below) && Sorted(above)
    requires forall j :: 0 <= j < |below| ==> Lt(below[j].key, r.key)
    requires forall j :: 0 <= j < |above| ==> Lt(r.key, above[j].key)
    ensures Sorted(below + [r] + above) && Sorted(below + above)
  {
    forall i, j | 0 <= i < |below| && 0 <= j < |above| ensures Lt(below[i].key, above[j].key) {
      LtTransitive(below[i].key, r.key, above[j].key);
    }
  }

  lemma MapOfThree(below: seq<Record>, r: Record, above: seq<Record>)
    ensures AsMap(below + [r] + above) == AsMap(below)[r.key := r.value] + AsMap(above)
  {
    AsMapConcat(below + [r], above);
    AsMapConcat(below, [r]);
    assert AsMap([r]) == map[][r.key := r.value] by { assert [r][..0] == []; }
  }

  lemma MapAlgebra<K, V>(a: map<K, V>, b: map<K, V>, k: K, v: V)
    requires k !in a && k !in b
    ensures (a[k := v] + b) - {k} == a + b
    ensures (a + b)[k := v] == a[k := v] + b
    ensures (a + b) - {k} == a + b
  {
  }

  /** What surrounds `key`: smaller keys, at most one record with the key itself, larger keys. */
  lemma Surroundings(rs: seq<Record>, key: seq<byte>)
    requires Sorted(rs)
    ensures var b, t := Below(rs, key), Through(rs, key);
            && Sorted(rs[..b]) && Sorted(rs[t..])
            && (forall j :: 0 <= j < |rs[..b]| ==> Lt(rs[..b][j].key, key))
            && (forall j :: 0 <= j < |rs[t..]| ==> Lt(key, rs[t..][j].key))
            && key !in AsMap(rs[..b]) && key !in AsMap(rs[t..])
  {
    hide AsMap, Lt, Below, Through;
    BelowParts(rs, key);
    MapAround(rs[..Below(rs, key)], rs[Through(rs, key)..], key);
  }

  /** The map around `key`, with and without a record in the middle. */
  lemma MapInPieces(rs: seq<Record>, key: seq<byte>)
    requires Sorted(rs)
    ensures var b, t := Below(rs, key), Through(rs, key);
            && var m := AsMap(rs[..b]) + AsMap(rs[t..]);
            && AsMap(Removed(rs, key)) == m
            && AsMap(rs) == if b < t then AsMap(rs[..b])[key := rs[b].value] + AsMap(rs[t..]) else m
  {
    hide AsMap, Lt, Below;
    var b, t := Below(rs, key), Through(rs, key);
    AsMapConcat(rs[..b], rs[t..]);
    if b < t {
      MapOfThree(rs[..b], rs[b], rs[t..]);
      assert rs == rs[..b] + [rs[b]] + rs[t..];
    } else {
      assert rs == rs[..b] + rs[t..];
    }
  }

  /** Upserting adds one binding to the map and keeps the order. */
  lemma UpsertedIsPut(rs: seq<Record>, x: Record)
    requires Sorted(rs)
    ensures Sorted(Upserted(rs, x))
    ensures AsMap(Upserted(rs, x)) == AsMap(rs)[x.key := x.value]
  {
    hide AsMap, Lt, Below, Through;
    var below, above := rs[..Below(rs, x.key)], rs[Through(rs, x.key)..];
    Surroundings(rs, x.key);
    MapInPieces(rs, x.key);
    SortedAround(below, x, above);
    MapOfThree(below, x, above);
    MapAlgebra(AsMap(below), AsMap(above), x.key, x.value);
  }

  /** Removing drops exactly one binding. */
  lemma RemovedIsDelete(rs: seq<Record>, key: seq<byte>)
    requires Sorted(rs)
    ensures Sorted(Removed(rs, key))
    ensures AsMap(Removed(rs, key)) == AsMap(rs) - {key}
    ensures key in AsMap(rs) <==> Below(rs, key) < Through(rs, key)
    ensures key in AsMap(rs) ==> AsMap(rs)[key] == rs[Below(rs, key)].value
  {
    hide AsMap, Lt, Below, Through;
    var b, t := Below(rs, key), Through(rs, key);
    Surroundings(rs, key);
    MapInPieces(rs, key);
    SortedAround(rs[..b], Record(key, Inline([])), rs[t..]);
    MapAlgebra(AsMap(rs[..b]), AsMap(rs[t..]), key, if b < t then rs[b].value else Inline([]));
  }

  /** The mutable leaf. */
  class LeafNodeBuffer {
    var records: seq<Record>

    ghost predicate Valid()
      reads this
    {
      Sorted(records)
    }

    constructor ()
      ensures Valid() && records == []
    {
      records := [];
    }

    /** Insert or overwrite: the map gains exactly this binding, and the old value comes back. */
    method Upsert(key: seq<byte>, value: LeafValue) returns (isNew: bool, previous: Option<LeafValue>)
      requires Valid()
      modifies this
      ensures Valid() && records == Upserted(old(records), Record(key, value))
      ensures AsMap(records) == old(AsMap(records))[key := value]
      ensures isNew <==> key !in old(AsMap(records))
      ensures previous == if isNew then None else Some(old(AsMap(records))[key])
    {
      hide AsMap, Lt, Below;
      UpsertedIsPut(records, Record(key, value));
      RemovedIsDelete(records, key);
      var found, i := Position(records, key);
      BelowIs(records, key, i);
      LtIrreflexive(key);
      if found {
        previous := Some(records[i].value);
        records := records[i := Record(records[i].key, value)];
        return false, previous;
      } else {
        records := records[..i] + [Record(key, value)] + records[i..];
        return true, None;
      }
    }

    /** Removes exactly the binding of `key`, and returns the value it had. */
    method Remove(key: seq<byte>) returns (removed: Option<LeafValue>)
      requires Valid()
      modifies this
      ensures Valid() && records == Removed(old(records), key)
      ensures AsMap(records) == old(AsMap(records)) - {key}
      ensures removed == if key in old(AsMap(records)) then Some(old(AsMap(records))[key]) else None
    {
      hide AsMap, Lt, Below;
      RemovedIsDelete(records, key);
      var found, i := Position(records, key);
      BelowIs(records, key, i);
      LtIrreflexive(key);
      if found {
        removed := Some(records[i].value);
        records := records[..i] + records[i + 1..];
      } else {
        removed := None;
        assert records[..i] + records[i..] == records;
      }
    }
  }
}
