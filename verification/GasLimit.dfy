/** The gas limit of the next block: CalcGasLimit of core/block_validator.go, on 64-bit words. */
module GasLimits {
  import opened Words

  const GAS_LIMIT_BOUND_DIVISOR: u64 := 1024
  const MIN_GAS_LIMIT: u64 := 5000
  const MAX_GAS_LIMIT: u64 := 0x7fff_ffff_ffff_ffff

  function CalcGasLimit(parent: u64, desired: u64): u64 {
    var delta := Wrap64(parent / GAS_LIMIT_BOUND_DIVISOR - 1);
    var target := if desired < MIN_GAS_LIMIT then MIN_GAS_LIMIT else desired;
    if parent < target then
      var limit := Wrap64(parent + delta);
      if limit > target then target else limit
    else if parent > target then
      var limit := Wrap64(parent - delta);
      if limit < target then target else limit
    else parent
  }

  function Target(desired: u64): u64 { Max(desired, MIN_GAS_LIMIT) }

  ghost predicate Between(a: int, x: int, b: int) { a <= x <= b || b <= x <= a }

  // ----- One block -----

  // A step of less than a 1024th part, toward the target and not past it.
  ghost predicate Bounded(parent: u64, desired: u64) {
    var next := CalcGasLimit(parent, desired);
    -(parent / 1024) < next - parent < parent / 1024 && Between(parent, next, Target(desired))
  }

  // Exactly the parents below the divisor, whose step wraps to minus one, and the increases beyond 64 bits fail.
  lemma BoundedIff(parent: u64, desired: u64)
    ensures Bounded(parent, desired) <==>
      parent >= 1024 && !(parent < Target(desired) && parent + parent / 1024 - 1 >= TWO_64)
  {
    if parent >= 1024 {
      Wrap64Small(parent / 1024 - 1);
    } else {
      assert Wrap64(-1) == TWO_64 - 1;
    }
  }

  // How far a step goes: to the target if it is less than a 1024th part away, and otherwise by that part less one.
  lemma StepExact(parent: u64, desired: u64)
    requires parent >= 1024 && parent + parent / 1024 - 1 < TWO_64
    ensures var next, target, step := CalcGasLimit(parent, desired), if desired < 5000 then 5000 else desired, parent / 1024 - 1;
            && (target > parent + step ==> next == parent + step)
            && (target < parent - step ==> next == parent - step)
            && (parent - step <= target <= parent + step ==> next == target)
  {
    var q := parent / 1024;
    assert 1 <= q <= parent;
    hide Wrap64;
    Wrap64Small(q - 1);
    Wrap64Small(parent + (q - 1));
    Wrap64Small(parent - (q - 1));
  }

  // The steps of the limits that the protocol allows, which also stay allowed.
  lemma Allowed(parent: u64, desired: u64)
    requires MIN_GAS_LIMIT <= parent <= MAX_GAS_LIMIT && desired <= MAX_GAS_LIMIT
    ensures Bounded(parent, desired) && MIN_GAS_LIMIT <= CalcGasLimit(parent, desired) <= MAX_GAS_LIMIT
  {
    BoundedIff(parent, desired);
  }

  // ----- A chain of blocks -----

  function After(parent: u64, desired: u64, blocks: nat): u64
    decreases blocks
  {
    if blocks == 0 then parent else After(CalcGasLimit(parent, desired), desired, blocks - 1)
  }

  lemma {:induction false} AfterSum(parent: u64, desired: u64, a: nat, b: nat)
    ensures After(parent, desired, a + b) == After(After(parent, desired, a), desired, b)
    decreases a
  {
    if a > 0 {
      AfterSum(CalcGasLimit(parent, desired), desired, a - 1, b);
    }
  }

  // The target is kept.
  lemma {:induction false} Stays(desired: u64, blocks: nat)
    ensures After(Target(desired), desired, blocks) == Target(desired)
    decreases blocks
  {
    if blocks > 0 {
      Stays(desired, blocks - 1);
    }
  }

  // A step from 2048 or more moves, and moves closer.
  lemma Closer(parent: u64, desired: u64)
    requires 2048 <= parent && desired <= MAX_GAS_LIMIT && parent != Target(desired)
    ensures var next := CalcGasLimit(parent, desired);
      2048 <= next && Between(parent, next, Target(desired)) && next != parent
  {
    Wrap64Small(parent / 1024 - 1);
  }

  function Distance(a: int, b: int): nat { if a < b then b - a else a - b }

  // The limits approach the target in order: a later one lies between an earlier one and the target.
  lemma {:induction false} Approaches(parent: u64, desired: u64, i: nat, j: nat)
    requires 2048 <= parent && desired <= MAX_GAS_LIMIT && i <= j
    ensures 2048 <= After(parent, desired, i)
    ensures Between(After(parent, desired, i), After(parent, desired, j), Target(desired))
    decreases j
  {
    if parent == Target(desired) {
      Stays(desired, i);
      Stays(desired, j);
    } else if j > 0 {
      Closer(parent, desired);
      var next := CalcGasLimit(parent, desired);
      if i > 0 {
        Approaches(next, desired, i - 1, j - 1);
      } else {
        Approaches(next, desired, 0, j - 1);
      }
    }
  }

  // The target is reached, in no more blocks than it is away.
  lemma {:induction false} Reaches(parent: u64, desired: u64, blocks: nat)
    requires 2048 <= parent && desired <= MAX_GAS_LIMIT && Distance(parent, Target(desired)) <= blocks
    ensures After(parent, desired, blocks) == Target(desired)
    decreases blocks
  {
    if parent == Target(desired) {
      Stays(desired, blocks);
    } else {
      Closer(parent, desired);
      Reaches(CalcGasLimit(parent, desired), desired, blocks - 1);
    }
  }

  // Parents from 1024 to 2047 never move.
  lemma {:induction false} Stuck(parent: u64, desired: u64, blocks: nat)
    requires 1024 <= parent < 2048
    ensures After(parent, desired, blocks) == parent
    decreases blocks
  {
    if blocks > 0 {
      assert parent / 1024 == 1 && Wrap64(parent) == parent;
      Stuck(parent, desired, blocks - 1);
    }
  }

  // Smaller parents count down to zero, and from there jump to the target.
  lemma {:induction false} CountsDown(parent: u64, desired: u64)
    requires parent < 1024
    ensures After(parent, desired, parent + 1) == Target(desired)
  {
    assert parent / 1024 == 0 && Wrap64(-1) == TWO_64 - 1;
    if parent > 0 {
      assert Wrap64(parent + (TWO_64 - 1)) == parent - 1;
      assert CalcGasLimit(parent, desired) == parent - 1;
      CountsDown(parent - 1, desired);
    } else {
      assert CalcGasLimit(parent, desired) == Target(desired);
      Stays(desired, 0);
    }
  }

  // For every parent: the target is reached for good exactly if the parent is not one that is stuck.
  lemma Converges(parent: u64, desired: u64)
    requires desired <= MAX_GAS_LIMIT
    ensures (exists n: nat :: Settled(parent, desired, n)) <==> !(1024 <= parent < 2048)
  {
    if 1024 <= parent < 2048 {
      forall n: nat
        ensures !Settled(parent, desired, n)
      {
        Stuck(parent, desired, n);
      }
    } else {
      var n := if parent < 1024 then parent + 1 else Distance(parent, Target(desired));
      if parent < 1024 {
        CountsDown(parent, desired);
      } else {
        Reaches(parent, desired, n);
      }
      forall m: nat | n <= m
        ensures After(parent, desired, m) == Target(desired)
      {
        AfterSum(parent, desired, n, m - n);
        Stays(desired, m - n);
      }
      assert Settled(parent, desired, n);
    }
  }

  // From block n on, every limit is the target.
  ghost predicate Settled(parent: u64, desired: u64, n: nat) {
    forall m: nat :: n <= m ==> After(parent, desired, m) == Target(desired)
  }
}
