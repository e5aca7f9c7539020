/** The 96-bit AEAD nonce and the generators that hand out its counter. */
module Nonces {
  import opened Arithmetic
  import opened Bytes

  const COUNTER_MAX: u64 := 0xFFFF_FFFF_FFFF
  const MAX_ANCHOR_BUDGET: u64 := 0x10_0000
  const U64_MAX: u64 := U64_LIMIT - 1

  datatype NonceError = Exhausted | Aborted

  /** `file_id[0..6] ‖ counter_le_u48`; a counter past 48 bits is truncated. */
  function FromParts(fileId6: seq<byte>, counter: u64): (n: seq<byte>)
    requires |fileId6| == 6
  {
    fileId6 + LE(counter, 6)
  }

  lemma {:induction false} LEIgnoresHighBits(v: nat, n: nat)
    ensures LE(v, n) == LE(v % Pow256(n), n)
  {
    if n > 0 {
      LEIgnoresHighBits(v / 256, n - 1);
      DropLowByte(v, Pow256(n - 1));
    }
  }

  lemma DropLowByte(v: nat, p: nat)
    requires p > 0
    ensures v % (256 * p) % 256 == v % 256
    ensures (v % (256 * p)) / 256 == (v / 256) % p
  {
    var w := v / 256;
    var q, r := w / p, w % p;
    assert w == q * p + r;
    assert v == (256 * p) * q + (256 * r + v % 256);
    RemainderIsUnique(v, 256 * p, q, 256 * r + v % 256);
  }

  lemma RemainderIsUnique(v: nat, p: nat, q: nat, r: nat)
    requires r < p && v == p * q + r
    ensures v % p == r
  {
    DivIs(v, p, q, r);
  }

  /** The prefix first, then the counter modulo 2^48, least significant byte first. */
  lemma NonceLayout(fileId6: seq<byte>, counter: u64, i: nat)
    requires |fileId6| == 6 && i < 6
    ensures var n := FromParts(fileId6, counter);
            |n| == 12 && n[..6] == fileId6 && n[6 + i] == (counter / Pow256(i)) % 256
  {
    hide LE;
    var n := FromParts(fileId6, counter);
    LEAt(counter, 6, i);
    assert n[6 + i] == LE(counter, 6)[i];
  }

  /** Two nonces are equal exactly when prefix and counter modulo 2^48 are. */
  lemma NonceIdentity(p1: seq<byte>, c1: u64, p2: seq<byte>, c2: u64)
    requires |p1| == 6 && |p2| == 6
    ensures FromParts(p1, c1) == FromParts(p2, c2) <==> p1 == p2 && c1 % (COUNTER_MAX + 1) == c2 % (COUNTER_MAX + 1)
  {
    PowersOf256();
    var n1, n2 := FromParts(p1, c1), FromParts(p2, c2);
    assert n1[..6] == p1 && n2[..6] == p2;
    assert n1[6..] == LE(c1, 6) && n2[6..] == LE(c2, 6);
    LEIgnoresHighBits(c1, 6);
    LEIgnoresHighBits(c2, 6);
    FromLEOfLE(c1 % Pow256(6), 6);
    FromLEOfLE(c2 % Pow256(6), 6);
  }

  // ---------------------------------------------------------------------
  // The main.db generator as a value
  // ---------------------------------------------------------------------

  function SatAdd(a: nat, b: nat): u64
  {
    if a + b > U64_MAX then U64_MAX else a + b
  }

  function SatSub(a: u64, b: u64): u64
  {
    if a < b then 0 else a - b
  }

  datatype Gen = Gen(next: u64, durable: u64, budget: u64) {

    predicate CanIssue() {
      next <= COUNTER_MAX && next <= SatAdd(durable, budget)
    }

    function Issue(): (g: Gen)
      requires CanIssue()
    {
      this.(next := next + 1)
    }

    /** The anchor the next header write persists: the largest counter handed out. */
    function Pending(): u64 { SatSub(next, 1) }

    function Window(): u64 { SatSub(SatAdd(durable, budget), Pending()) }

    predicate CanCommit(persisted: u64) {
      durable <= persisted <= Pending()
    }

    /** What every generator keeps: the counter is above its durable anchor, inside one window of it. */
    predicate WellFormed() {
      durable < next && budget <= MAX_ANCHOR_BUDGET
    }
  }

  function FreshGen(budget: u64): Gen {
    Gen(1, 0, Min(budget, MAX_ANCHOR_BUDGET))
  }

  function RecoveredGen(anchor: u64, budget: u64): Gen {
    Gen(SatAdd(SatAdd(anchor, MAX_ANCHOR_BUDGET), 1), anchor, Min(budget, MAX_ANCHOR_BUDGET))
  }

  /** `k` nonces issued back to back, or the error that stopped the run. */
  function IssueMany(g: Gen, k: nat): Result<Gen, NonceError>
    decreases k
  {
    if k == 0 then Ok(g)
    else if g.next > COUNTER_MAX then Err(Exhausted)
    else if !g.CanIssue() then Err(Aborted)
    else IssueMany(g.Issue(), k - 1)
  }

  /** `window_remaining` is exact: that many issues succeed and the next is refused for the anchor. */
  lemma {:induction false} WindowIsExact(g: Gen, k: nat)
    requires g.WellFormed() && g.next + k <= COUNTER_MAX
    ensures IssueMany(g, k).Ok? <==> k <= g.Window()
    ensures k <= g.Window() ==> IssueMany(g, k) == Ok(g.(next := g.next + k))
    ensures k > g.Window() ==> IssueMany(g, k) == Err(Aborted)
    decreases k
  {
    if k > 0 && g.CanIssue() {
      WindowIsExact(g.Issue(), k - 1);
    }
  }

  /** Committing the pending anchor restores the whole budget without issuing anything. */
  lemma CommitRestoresWindow(g: Gen)
    requires g.WellFormed() && g.next + g.budget <= U64_MAX
    ensures g.CanCommit(g.Pending())
    ensures g.(durable := g.Pending()).Window() == g.budget
  {
  }

  /** A fresh generator may issue as many counters as its budget, and never more than 2^20. */
  lemma FreshWindow(budget: u64)
    ensures FreshGen(budget).WellFormed() && FreshGen(budget).next == 1 && FreshGen(budget).durable == 0
    ensures FreshGen(budget).Window() == if budget < 0x10_0000 then budget else 0x10_0000
  {
  }

  /** A recovered one may too, once its first header is durable, up to the end of the 64-bit counters. */
  lemma RecoveredWindow(anchor: u64, budget: u64)
    ensures var g, pending := RecoveredGen(anchor, budget), Min(anchor + 0x10_0000, U64_MAX - 1);
            && g.Pending() == pending
            && g.(durable := pending).Window() ==
               Min(if budget < 0x10_0000 then budget else 0x10_0000, U64_MAX - pending)
  {
  }

  /** An open's window starts empty whatever budget any run used, so its first flush must write a header. */
  lemma RecoveredWindowIsEmpty(anchor: u64, budget: u64)
    requires anchor < U64_MAX
    ensures RecoveredGen(anchor, budget).WellFormed()
    ensures anchor + MAX_ANCHOR_BUDGET < U64_MAX ==> RecoveredGen(anchor, budget).Window() == 0
    ensures !RecoveredGen(anchor, budget).CanIssue()
    ensures RecoveredGen(anchor, budget).Pending() == Min(anchor + MAX_ANCHOR_BUDGET, U64_MAX - 1)
  {
  }

  // ---------------------------------------------------------------------
  // The generators as the objects the pager updates
  // ---------------------------------------------------------------------

  class MainDbNonceGen {
    var prefix: seq<byte>
    var next: u64
    var durableAnchor: u64
    const budget: u64

    function State(): Gen
      reads this
    {
      Gen(next, durableAnchor, budget)
    }

    constructor Fresh(fileId: seq<byte>, budget: u64)
      requires |fileId| == 16
      ensures prefix == fileId[..6]
      ensures State() == FreshGen(budget) && State().WellFormed()
    {
      prefix := fileId[..6];
      next := 1;
      durableAnchor := 0;
      this.budget := Min(budget, MAX_ANCHOR_BUDGET);
    }

    constructor Recover(fileId: seq<byte>, recoveredAnchor: u64, budget: u64)
      requires |fileId| == 16
      ensures prefix == fileId[..6]
      ensures State() == RecoveredGen(recoveredAnchor, budget)
      ensures recoveredAnchor < U64_MAX ==> State().WellFormed()
    {
      prefix := fileId[..6];
      next := SatAdd(SatAdd(recoveredAnchor, MAX_ANCHOR_BUDGET), 1);
      durableAnchor := recoveredAnchor;
      this.budget := Min(budget, MAX_ANCHOR_BUDGET);
    }

    /** Issues inside `(durable, durable + budget]` and never past 2^48 - 1; an error changes nothing. */
    method NextNonce() returns (r: Result<seq<byte>, NonceError>)
      requires |prefix| == 6
      modifies this`next
      ensures r.Ok? <==> old(State()).CanIssue()
      ensures r.Ok? ==> r.value == FromParts(prefix, old(next)) && State() == old(State()).Issue()
      ensures r.Ok? && old(State()).WellFormed() ==>
                State().WellFormed() && durableAnchor < old(next) <= durableAnchor + budget && old(next) <= COUNTER_MAX
      ensures r.Err? ==> State() == old(State())
      ensures r == Err(Exhausted) <==> old(next) > COUNTER_MAX
    {
      if next > COUNTER_MAX {
        return Err(Exhausted);
      }
      if next > SatAdd(durableAnchor, budget) {
        return Err(Aborted);
      }
      var n := FromParts(prefix, next);
      next := next + 1;
      return Ok(n);
    }

    /** Accepts an anchor between the durable one and the last issued counter, and only ever raises it. */
    method CommitAnchor(persisted: u64) returns (r: Result<(), NonceError>)
      modifies this`durableAnchor
      ensures r == if old(State()).CanCommit(persisted) then Ok(()) else Err(Aborted)
      ensures State() == if r.Ok? then old(State()).(durable := persisted) else old(State())
      ensures durableAnchor >= old(durableAnchor)
      ensures old(State()).WellFormed() ==> State().WellFormed()
    {
      if persisted < durableAnchor || persisted > SatSub(next, 1) {
        return Err(Aborted);
      }
      durableAnchor := persisted;
      return Ok(());
    }
  }
}
