/**
 * The order in which transport/sender.rs interleaves the symbols of a group of blocks:
 * symbol by symbol, and within one symbol index block by block, skipping exhausted blocks.
 */
module Interleave {
  import opened Prelude
  import opened Fec

  datatype Slot = Slot(blk: nat, sym: nat)

  /** Row `s` (symbol index `s` of every block that has one), up to block `b`. */
  function Row(lens: seq<nat>, s: nat, b: nat): seq<Slot>
    requires b <= |lens|
  {
    if b == 0 then [] else Row(lens, s, b - 1) + if s < lens[b - 1] then [Slot(b - 1, s)] else []
  }

  function Rows(lens: seq<nat>, s: nat): seq<Slot> {
    if s == 0 then [] else Rows(lens, s - 1) + Row(lens, s - 1, |lens|)
  }

  /** `iter().map(len).max().unwrap_or(0)` */
  function Longest(lens: seq<nat>): (m: nat)
    ensures forall i :: 0 <= i < |lens| ==> lens[i] <= m
    ensures lens != [] ==> m in lens
  {
    if lens == [] then 0
    else if |lens| == 1 then lens[0]
    else Max(Longest(lens[..|lens| - 1]), lens[|lens| - 1])
  }

  function Schedule(lens: seq<nat>): seq<Slot> {
    Rows(lens, Longest(lens))
  }

  /** The index in the schedule of symbol `s` of block `b`. */
  function Pos(lens: seq<nat>, b: nat, s: nat): nat
    requires b < |lens|
  {
    |Rows(lens, s)| + |Row(lens, s, b)|
  }

  ghost predicate ValidSlot(lens: seq<nat>, t: Slot) {
    t.blk < |lens| && t.sym < lens[t.blk]
  }

  ghost predicate Before(t: Slot, u: Slot) {
    t.sym < u.sym || (t.sym == u.sym && t.blk < u.blk)
  }

  // ---- A permutation of all symbols, in lexicographic order ----

  lemma {:induction false} RowPrefix(lens: seq<nat>, s: nat, b: nat, c: nat)
    requires b <= c <= |lens|
    ensures Row(lens, s, b) <= Row(lens, s, c)
  {
    if b < c {
      RowPrefix(lens, s, b, c - 1);
    }
  }

  lemma {:induction false} RowsPrefix(lens: seq<nat>, s: nat, t: nat)
    requires s <= t
    ensures Rows(lens, s) <= Rows(lens, t)
  {
    if s < t {
      RowsPrefix(lens, s, t - 1);
    }
  }

  /** Every symbol of every block is scheduled, at the position `Pos` says. */
  lemma EverySymbolScheduled(lens: seq<nat>, b: nat, s: nat)
    requires b < |lens| && s < lens[b]
    ensures Pos(lens, b, s) < |Schedule(lens)|
    ensures Schedule(lens)[Pos(lens, b, s)] == Slot(b, s)
  {
    RowPrefix(lens, s, b + 1, |lens|);
    RowsPrefix(lens, s + 1, Longest(lens));
    assert Row(lens, s, b + 1) == Row(lens, s, b) + [Slot(b, s)];
    assert Row(lens, s, |lens|)[|Row(lens, s, b)|] == Slot(b, s);
    assert Rows(lens, s + 1)[Pos(lens, b, s)] == Slot(b, s);
  }

  lemma {:induction false} RowEntries(lens: seq<nat>, s: nat, b: nat, i: nat)
    requires b <= |lens|
    requires i < |Row(lens, s, b)|
    ensures var t := Row(lens, s, b)[i]; t.sym == s && t.blk < b && s < lens[t.blk] && |Row(lens, s, t.blk)| == i
  {
    if i < |Row(lens, s, b - 1)| {
      RowEntries(lens, s, b - 1, i);
    }
  }

  lemma {:induction false} RowsEntries(lens: seq<nat>, s: nat, i: nat)
    requires i < |Rows(lens, s)|
    ensures var t := Rows(lens, s)[i]; ValidSlot(lens, t) && t.sym < s && Pos(lens, t.blk, t.sym) == i
  {
    var before := Rows(lens, s - 1);
    if i < |before| {
      RowsEntries(lens, s - 1, i);
    } else {
      RowEntries(lens, s - 1, |lens|, i - |before|);
    }
  }

  /** Nothing else is scheduled, and nothing twice: an entry determines its own index. */
  lemma ScheduleSound(lens: seq<nat>, i: nat)
    requires i < |Schedule(lens)|
    ensures ValidSlot(lens, Schedule(lens)[i])
    ensures Pos(lens, Schedule(lens)[i].blk, Schedule(lens)[i].sym) == i
  {
    RowsEntries(lens, Longest(lens), i);
  }

  lemma PosMonotone(lens: seq<nat>, t: Slot, u: Slot)
    requires ValidSlot(lens, t) && ValidSlot(lens, u)
    requires Before(t, u)
    ensures Pos(lens, t.blk, t.sym) < Pos(lens, u.blk, u.sym)
  {
    assert Row(lens, t.sym, t.blk + 1) == Row(lens, t.sym, t.blk) + [t];
    if t.sym < u.sym {
      RowPrefix(lens, t.sym, t.blk + 1, |lens|);
      RowsPrefix(lens, t.sym + 1, u.sym);
    } else {
      RowPrefix(lens, t.sym, t.blk + 1, u.blk);
    }
  }

  /** The schedule is in lexicographic order of (symbol, block). */
  lemma ScheduleOrdered(lens: seq<nat>, i: nat, j: nat)
    requires i < j < |Schedule(lens)|
    ensures Before(Schedule(lens)[i], Schedule(lens)[j])
  {
    var t, u := Schedule(lens)[i], Schedule(lens)[j];
    ScheduleSound(lens, i);
    ScheduleSound(lens, j);
    if Before(u, t) {
      PosMonotone(lens, u, t);
    }
  }

  function Sum(lens: seq<nat>): nat {
    if lens == [] then 0 else Sum(lens[..|lens| - 1]) + lens[|lens| - 1]
  }

  /** How many symbols the first `b` blocks have below symbol index `s`. */
  function Scheduled(lens: seq<nat>, s: nat, b: nat): nat
    requires b <= |lens|
  {
    if b == 0 then 0 else Scheduled(lens, s, b - 1) + Min(lens[b - 1], s)
  }

  lemma {:induction false} RowAddsOneEach(lens: seq<nat>, s: nat, b: nat)
    requires b <= |lens|
    ensures Scheduled(lens, s + 1, b) == Scheduled(lens, s, b) + |Row(lens, s, b)|
  {
    if b > 0 {
      RowAddsOneEach(lens, s, b - 1);
    }
  }

  lemma {:induction false} RowsCount(lens: seq<nat>, s: nat)
    ensures |Rows(lens, s)| == Scheduled(lens, s, |lens|)
  {
    if s > 0 {
      RowsCount(lens, s - 1);
      RowAddsOneEach(lens, s - 1, |lens|);
    } else {
      NothingBelowZero(lens, |lens|);
    }
  }

  lemma {:induction false} NothingBelowZero(lens: seq<nat>, b: nat)
    requires b <= |lens|
    ensures Scheduled(lens, 0, b) == 0
  {
    if b > 0 {
      NothingBelowZero(lens, b - 1);
    }
  }

  lemma {:induction false} ScheduledAll(lens: seq<nat>, s: nat, b: nat)
    requires b <= |lens|
    requires forall i :: 0 <= i < |lens| ==> lens[i] <= s
    ensures Scheduled(lens, s, b) == Sum(lens[..b])
  {
    if b > 0 {
      ScheduledAll(lens, s, b - 1);
      assert lens[..b][..b - 1] == lens[..b - 1];
    }
  }

  /** As many packets as the blocks have symbols. */
  lemma ScheduleLength(lens: seq<nat>)
    ensures |Schedule(lens)| == Sum(lens)
  {
    RowsCount(lens, Longest(lens));
    ScheduledAll(lens, Longest(lens), |lens|);
    assert lens[..|lens|] == lens;
  }

  // ---- Burst tolerance ----

  /** How many of the first `b` blocks have at least `m` symbols. */
  function LongBlocks(lens: seq<nat>, m: nat, b: nat): nat
    requires b <= |lens|
  {
    if b == 0 then 0 else LongBlocks(lens, m, b - 1) + if lens[b - 1] >= m then 1 else 0
  }

  lemma {:induction false} BlockIsItsOwnPeer(lens: seq<nat>, b: nat, k: nat)
    requires k < b <= |lens|
    ensures LongBlocks(lens, lens[k], b) > 0
  {
    if k < b - 1 {
      BlockIsItsOwnPeer(lens, b - 1, k);
    }
  }

  /** The number of blocks of a group with at least as many symbols as block `b`, itself included. */
  function Peers(lens: seq<nat>, b: nat): (n: nat)
    requires b < |lens|
    ensures n > 0
  {
    BlockIsItsOwnPeer(lens, |lens|, b);
    LongBlocks(lens, lens[b], |lens|)
  }

  /** Every block of at least `m` symbols takes part in each of the first `m` rows, whatever the other blocks do. */
  lemma {:induction false} RowHoldsLongBlocks(lens: seq<nat>, s: nat, m: nat, b: nat, c: nat)
    requires b <= c <= |lens|
    requires s < m
    ensures |Row(lens, s, c)| - |Row(lens, s, b)| >= LongBlocks(lens, m, c) - LongBlocks(lens, m, b)
  {
    if b < c {
      RowHoldsLongBlocks(lens, s, m, b, c - 1);
    }
  }

  lemma RowGap(lens: seq<nat>, b: nat, s: nat, m: nat)
    requires b < |lens| && s + 1 < m
    ensures Pos(lens, b, s + 1) >= Pos(lens, b, s) + LongBlocks(lens, m, |lens|)
  {
    RowHoldsLongBlocks(lens, s, m, b, |lens|);
    RowHoldsLongBlocks(lens, s + 1, m, 0, b);
    assert |Rows(lens, s + 1)| == |Rows(lens, s)| + |Row(lens, s, |lens|)|;
  }

  /** Consecutive symbols of one block are at least as far apart as there are blocks as long as it. */
  lemma Gap(lens: seq<nat>, b: nat, s: nat)
    requires b < |lens| && s + 1 < lens[b]
    ensures Pos(lens, b, s + 1) >= Pos(lens, b, s) + Peers(lens, b)
  {
    RowGap(lens, b, s, lens[b]);
  }

  lemma {:induction false} GapMany(lens: seq<nat>, b: nat, lo: nat, d: nat)
    requires b < |lens| && lo + d < lens[b]
    ensures Pos(lens, b, lo + d) >= Pos(lens, b, lo) + Times(d, Peers(lens, b))
  {
    hide Pos, LongBlocks;
    if d > 0 {
      GapMany(lens, b, lo, d - 1);
      Gap(lens, b, lo + d - 1);
    }
  }

  /** The symbols of block `b` among the `len` consecutive packets from index `a`. */
  ghost function Hit(lens: seq<nat>, b: nat, a: nat, len: nat): set<nat>
    requires b < |lens|
  {
    set s: nat | s < lens[b] && a <= Pos(lens, b, s) < a + len
  }

  lemma {:induction false} WindowCard(s: set<nat>, lo: nat, n: nat)
    requires forall x :: x in s ==> lo <= x < lo + n
    ensures |s| <= n
  {
    if n == 0 {
      assert s == {};
    } else {
      WindowCard(s - {lo + n - 1}, lo, n - 1);
      if lo + n - 1 in s {
        assert s == (s - {lo + n - 1}) + {lo + n - 1};
      } else {
        assert s == s - {lo + n - 1};
      }
    }
  }

  lemma {:induction false} LeastElement(s: set<nat>) returns (lo: nat)
    requires s != {}
    ensures lo in s && forall x :: x in s ==> lo <= x
  {
    var x :| x in s;
    if s == {x} {
      lo := x;
    } else {
      var rest := s - {x};
      var y := LeastElement(rest);
      lo := if x <= y then x else y;
      assert s == rest + {x};
    }
  }

  lemma HitSpan(lens: seq<nat>, b: nat, a: nat, len: nat, lo: nat, d: nat, c: nat)
    requires b < |lens|
    requires len <= Times(c, Peers(lens, b))
    requires lo in Hit(lens, b, a, len) && lo + d in Hit(lens, b, a, len)
    ensures d < c
  {
    GapMany(lens, b, lo, d);
    if c <= d {
      TimesMono(c, d, Peers(lens, b));
    }
  }

  lemma HitCard(lens: seq<nat>, b: nat, a: nat, len: nat, c: nat)
    requires b < |lens|
    requires len <= Times(c, Peers(lens, b))
    ensures |Hit(lens, b, a, len)| <= c
  {
    var hit := Hit(lens, b, a, len);
    if hit != {} {
      var lo := LeastElement(hit);
      forall x | x in hit
        ensures lo <= x < lo + c
      {
        var d := x - lo;
        assert lo + d in hit;
        HitSpan(lens, b, a, len, lo, d, c);
      }
      WindowCard(hit, lo, c);
    }
  }

  lemma CeilDivCovers(a: nat, b: nat)
    requires b > 0
    ensures a <= Times(CeilDiv(a, b), b)
  {
    DivModFacts(a + b - 1, b);
    TimesIsProduct(CeilDiv(a, b), b);
  }

  /**
   * For blocks of arbitrary unequal symbol counts: with `m` blocks at least as long as block `b`, any
   * `len` consecutive packets contain at most ceil(len / m) symbols of block `b`.
   */
  lemma BurstBound(lens: seq<nat>, b: nat, a: nat, len: nat)
    requires b < |lens|
    ensures |Hit(lens, b, a, len)| <= CeilDiv(len, Peers(lens, b))
  {
    var m := Peers(lens, b);
    CeilDivCovers(len, m);
    HitCard(lens, b, a, len, CeilDiv(len, m));
  }

  lemma {:induction false} EqualBlocksAllPeers(lens: seq<nat>, n: nat, b: nat)
    requires b <= |lens|
    requires forall i :: 0 <= i < |lens| ==> lens[i] == n
    ensures LongBlocks(lens, n, b) == b
  {
    if b > 0 {
      EqualBlocksAllPeers(lens, n, b - 1);
    }
  }

  /** The symbol counts of a group of blocks. */
  function GroupCounts(c: Codec, group: seq<Bytes>, ratio: real): (r: seq<nat>)
    ensures |r| == |group|
  {
    seq(|group|, i requires 0 <= i < |group| => |Encoded(c, group[i], ratio)|)
  }

  /**
   * With an ideal code, a burst of `len` consecutive lost packets leaves block `b` of the group
   * decodable whenever ceil(len / number of blocks at least as long) is at most its repair symbol count.
   */
  lemma BurstTolerated(c: Codec, group: seq<Bytes>, ratio: real, b: nat, a: nat, len: nat)
    requires Ideal(c)
    requires b < |group| && group[b] != []
    requires forall z: nat :: z < c.blocks(|group[b]|) ==>
      CeilDiv(len, Peers(GroupCounts(c, group, ratio), b)) <= NumRepair(c.k(|group[b]|, z), ratio)
    ensures c.decode(|group[b]|, Surviving(Encoded(c, group[b], ratio), Hit(GroupCounts(c, group, ratio), b, a, len)))
      == Some(group[b])
  {
    var lens := GroupCounts(c, group, ratio);
    BurstBound(lens, b, a, len);
    FewLostRepairable(c, group[b], ratio, Hit(lens, b, a, len));
    LossTolerated(c, group[b], ratio, Hit(lens, b, a, len));
  }

  /**
   * The case of equal blocks: a burst of up to (number of blocks) * (repair symbols) packets
   * leaves every block of the group decodable.
   */
  lemma EqualBlocksBurst(c: Codec, group: seq<Bytes>, ratio: real, a: nat, repair: nat, b: nat)
    requires Ideal(c)
    requires b < |group| && group[0] != []
    requires forall i :: 0 <= i < |group| ==> |group[i]| == |group[0]|
    requires forall z: nat :: z < c.blocks(|group[0]|) ==> repair <= NumRepair(c.k(|group[0]|, z), ratio)
    ensures c.decode(|group[b]|, Surviving(Encoded(c, group[b], ratio), Hit(GroupCounts(c, group, ratio), b, a, |group| * repair)))
      == Some(group[b])
  {
    var lens := GroupCounts(c, group, ratio);
    var n := |Encoded(c, group[0], ratio)|;
    forall i | 0 <= i < |lens|
      ensures lens[i] == n
    {
      SameLengthSameCount(c, group[i], group[0], ratio, c.blocks(|group[0]|));
    }
    assert lens[b] == n;
    EqualBlocksAllPeers(lens, n, |lens|);
    CeilDivExact(|group|, repair);
    BurstTolerated(c, group, ratio, b, a, |group| * repair);
  }

  lemma {:induction false} SameLengthSameCount(c: Codec, x: Bytes, y: Bytes, ratio: real, n: nat)
    requires |x| == |y|
    ensures |EncodeUpTo(c, x, ratio, n)| == |EncodeUpTo(c, y, ratio, n)|
  {
    if n > 0 {
      SameLengthSameCount(c, x, y, ratio, n - 1);
    }
  }

  lemma CeilDivExact(n: nat, k: nat)
    requires n > 0
    ensures CeilDiv(n * k, n) == k
  {
    DivUnique(n * k + n - 1, n, k);
  }
}
