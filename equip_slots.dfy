/**
 * What `EquipSet::Add` and `EquipSet::Remove` do to one slot: walk it in
 * index order and overwrite the first `quota` entries equal to `from` with
 * `to`. `Add(e, num)` is the case `from == NONE, to == e`; `Remove(e, num)`
 * the case `from == e, to == NONE`. Neither loop can stop on a negative
 * count, so a negative quota means "every such entry".
 */
module EquipSlots {

  /** The first `quota` entries equal to `from` (all of them if `quota < 0`) replaced by `to`. */
  function ReplaceFirst<T(==)>(xs: seq<T>, from: T, to: T, quota: int): (ys: seq<T>)
    ensures |ys| == |xs|
  {
    if xs == [] || quota == 0 then xs
    else if xs[0] == from then [to] + ReplaceFirst(xs[1..], from, to, quota - 1)
    else [xs[0]] + ReplaceFirst(xs[1..], from, to, quota)
  }

  /** How many entries `ReplaceFirst` overwrites: the loops' `numDone`. */
  function ReplacedCount<T(==)>(xs: seq<T>, from: T, quota: int): (n: nat)
    ensures n <= |xs|
  {
    if xs == [] || quota == 0 then 0
    else if xs[0] == from then 1 + ReplacedCount(xs[1..], from, quota - 1)
    else ReplacedCount(xs[1..], from, quota)
  }

  /** The number overwritten is the quota, capped by the number of entries equal to `from`. */
  lemma {:induction false} ReplacedCountIsCapped<T>(xs: seq<T>, from: T, quota: int)
    ensures ReplacedCount(xs, from, quota) ==
      if quota < 0 || multiset(xs)[from] <= quota then multiset(xs)[from] else quota
  {
    if xs != [] && quota != 0 {
      assert xs == [xs[0]] + xs[1..];
      if xs[0] == from {
        ReplacedCountIsCapped(xs[1..], from, quota - 1);
      } else {
        ReplacedCountIsCapped(xs[1..], from, quota);
      }
    }
  }

  /**
   * Walking `xs + ys` is walking `xs`, then walking `ys` with what is left
   * of the quota: the step the loops of `Add` and `Remove` take.
   */
  lemma {:induction false} ReplaceFirstAppend<T>(xs: seq<T>, ys: seq<T>, from: T, to: T, quota: int)
    ensures ReplaceFirst(xs + ys, from, to, quota) ==
      ReplaceFirst(xs, from, to, quota) + ReplaceFirst(ys, from, to, quota - ReplacedCount(xs, from, quota))
    ensures ReplacedCount(xs + ys, from, quota) ==
      ReplacedCount(xs, from, quota) + ReplacedCount(ys, from, quota - ReplacedCount(xs, from, quota))
  {
    if xs == [] {
      assert xs + ys == ys;
    } else if quota != 0 {
      assert (xs + ys)[0] == xs[0] && (xs + ys)[1..] == xs[1..] + ys;
      if xs[0] == from {
        ReplaceFirstAppend(xs[1..], ys, from, to, quota - 1);
      } else {
        ReplaceFirstAppend(xs[1..], ys, from, to, quota);
      }
    }
  }

  /**
   * Which entries change: entry `j` becomes `to` exactly when it equals
   * `from` and fewer than `quota` entries before it equal `from`; every
   * other entry keeps its value. So the replaced entries are the first ones
   * in index order.
   */
  lemma {:induction false} ReplaceFirstAt<T>(xs: seq<T>, from: T, to: T, quota: int, j: nat)
    requires j < |xs|
    ensures ReplaceFirst(xs, from, to, quota)[j] ==
      if xs[j] == from && (quota < 0 || multiset(xs[..j])[from] < quota) then to else xs[j]
  {
    if quota != 0 && j > 0 {
      assert xs[..j] == [xs[0]] + xs[1..][..j - 1];
      if xs[0] == from {
        ReplaceFirstAt(xs[1..], from, to, quota - 1, j - 1);
      } else {
        ReplaceFirstAt(xs[1..], from, to, quota, j - 1);
      }
    }
  }

  /**
   * The counts: with `from != to`, `to` gains and `from` loses exactly the
   * number replaced, and every other value keeps its count.
   */
  lemma {:induction false} ReplaceFirstCounts<T>(xs: seq<T>, from: T, to: T, quota: int, v: T)
    requires from != to
    ensures multiset(ReplaceFirst(xs, from, to, quota))[v] ==
      multiset(xs)[v] + (if v == to then ReplacedCount(xs, from, quota) else 0)
                      - (if v == from then ReplacedCount(xs, from, quota) else 0)
  {
    if xs != [] && quota != 0 {
      assert xs == [xs[0]] + xs[1..];
      if xs[0] == from {
        ReplaceFirstCounts(xs[1..], from, to, quota - 1, v);
      } else {
        ReplaceFirstCounts(xs[1..], from, to, quota, v);
      }
    }
  }

  /** Replacing a value by itself changes nothing, whatever the count says. */
  lemma {:induction false} ReplaceFirstSame<T>(xs: seq<T>, x: T, quota: int)
    ensures ReplaceFirst(xs, x, x, quota) == xs
  {
    if xs != [] && quota != 0 {
      assert xs == [xs[0]] + xs[1..];
      if xs[0] == x {
        ReplaceFirstSame(xs[1..], x, quota - 1);
      } else {
        ReplaceFirstSame(xs[1..], x, quota);
      }
    }
  }

  /**
   * One iteration of the loops in `Add` and `Remove` while quota is left:
   * entry `i` is overwritten if it equals `from`, and the prefix walked so
   * far grows by one.
   */
  lemma ReplaceStep<T>(slot: seq<T>, cur: seq<T>, i: nat, from: T, to: T, quota: int)
    requires i < |slot| && ReplacedCount(slot[..i], from, quota) != quota
    requires cur == ReplaceFirst(slot[..i], from, to, quota) + slot[i..]
    ensures i < |cur| && cur[i] == slot[i]
    ensures (if slot[i] == from then cur[i := to] else cur) == ReplaceFirst(slot[..i + 1], from, to, quota) + slot[i + 1..]
    ensures ReplacedCount(slot[..i + 1], from, quota) == ReplacedCount(slot[..i], from, quota) + if slot[i] == from then 1 else 0
  {
    ReplaceFirstAppend(slot[..i], [slot[i]], from, to, quota);
    assert slot[..i + 1] == slot[..i] + [slot[i]];
    var q := quota - ReplacedCount(slot[..i], from, quota);
    assert ReplaceFirst([slot[i]], from, to, q) == if slot[i] == from then [to] else [slot[i]];
    assert ReplacedCount([slot[i]], from, q) == if slot[i] == from then 1 else 0;
  }

  /** Where the loops in `Add` and `Remove` stop early: the quota is used up and the rest of the slot is untouched. */
  lemma ReplaceStop<T>(slot: seq<T>, i: nat, from: T, to: T, quota: int)
    requires i <= |slot| && ReplacedCount(slot[..i], from, quota) == quota
    ensures ReplaceFirst(slot, from, to, quota) == ReplaceFirst(slot[..i], from, to, quota) + slot[i..]
    ensures ReplacedCount(slot, from, quota) == quota
  {
    ReplaceFirstAppend(slot[..i], slot[i..], from, to, quota);
    assert slot[..i] + slot[i..] == slot;
  }
}
