/**
 The checked i64 fold (src/fold.vendored.ts) and the column it folds (src/fold-column.ts). The kernel
 adds with wrap-around and tests signs with xor and and; the reference adds exactly and compares.
 */
module Fold {
  import opened Money
  import opened Text

  // ---- Two's complement words ------------------------------------------------------------

  const WORD: nat := 0x1_0000_0000_0000_0000
  const SIGN: nat := 0x8000_0000_0000_0000

  type Word = w: nat | w < 0x1_0000_0000_0000_0000

  function ToWord(v: int): Word {
    v % WORD
  }

  function FromWord(w: Word): (v: int)
    ensures InI64(v)
  {
    if w < SIGN then w else w - WORD
  }

  /** What a 64-bit column stores of a value: the value itself when it fits. */
  function AsI64(v: int): int {
    FromWord(ToWord(v))
  }

  lemma I64Survives(v: int)
    requires InI64(v)
    ensures AsI64(v) == v
  {
  }

  /** `i64.add`. */
  function AddWrapped(a: Word, b: Word): Word {
    (a + b) % WORD
  }

  /** `i64.lt_s` against zero: the top bit. */
  predicate Negative(w: Word) {
    w >= SIGN
  }

  predicate TopBit(a: nat, half: nat) {
    a >= half
  }

  function LowBits(a: nat, half: nat): nat {
    if a >= half then a - half else a
  }

  /** Bit by bit from the top; `half` is the weight of the top bit. */
  function Xor(a: nat, b: nat, half: nat): (r: nat)
    ensures half == 0 ==> r == 0
    ensures half > 0 ==> r < 2 * half
    decreases half
  {
    if half == 0 then 0
    else
      (if TopBit(a, half) != TopBit(b, half) then half else 0) +
      Xor(LowBits(a, half), LowBits(b, half), half / 2)
  }

  function And(a: nat, b: nat, half: nat): (r: nat)
    ensures half == 0 ==> r == 0
    ensures half > 0 ==> r < 2 * half
    decreases half
  {
    if half == 0 then 0
    else
      (if TopBit(a, half) && TopBit(b, half) then half else 0) +
      And(LowBits(a, half), LowBits(b, half), half / 2)
  }

  /** `i64.xor` and `i64.and`. */
  function Xor64(a: Word, b: Word): Word {
    Xor(a, b, SIGN)
  }

  function And64(a: Word, b: Word): Word {
    And(a, b, SIGN)
  }

  /** The sign of each result comes from the two signs alone. */
  lemma SignsOnly(a: Word, b: Word)
    ensures Negative(Xor64(a, b)) <==> Negative(a) != Negative(b)
    ensures Negative(And64(a, b)) <==> Negative(a) && Negative(b)
  {
    assert Xor(LowBits(a, SIGN), LowBits(b, SIGN), SIGN / 2) < SIGN;
    assert And(LowBits(a, SIGN), LowBits(b, SIGN), SIGN / 2) < SIGN;
  }

  predicate PowerOfTwo(n: nat) {
    n == 1 || (n > 1 && n % 2 == 0 && PowerOfTwo(n / 2))
  }

  /**
   Bitwise throughout, not only in the sign: where the operands differ the xor has the bit, where both
   have it the carry does, and the two account for the whole sum.
   */
  lemma {:induction false} XorAndAdd(a: nat, b: nat, half: nat)
    requires PowerOfTwo(half) && a < 2 * half && b < 2 * half
    ensures Xor(a, b, half) + 2 * And(a, b, half) == a + b
    ensures And(a, b, half) <= a && And(a, b, half) <= b
    ensures a == b ==> And(a, b, half) == a
  {
    if half > 1 {
      XorAndAdd(LowBits(a, half), LowBits(b, half), half / 2);
    }
  }

  /** The kernel's test: both operands disagree in sign with the wrapped sum. */
  predicate TrapTest(sum: Word, v: Word) {
    var s := AddWrapped(sum, v);
    Negative(And64(Xor64(sum, s), Xor64(v, s)))
  }

  /** It fires exactly when the exact sum leaves i64; otherwise the wrapped sum is exact. */
  lemma TrapTestIsOverflow(sum: Word, v: Word)
    ensures TrapTest(sum, v) <==> !InI64(FromWord(sum) + FromWord(v))
    ensures !TrapTest(sum, v) ==> FromWord(AddWrapped(sum, v)) == FromWord(sum) + FromWord(v)
  {
    hide Xor64, And64;
    var s := AddWrapped(sum, v);
    SignsOnly(sum, s);
    SignsOnly(v, s);
    SignsOnly(Xor64(sum, s), Xor64(v, s));
  }

  // ---- The two folds ---------------------------------------------------------------------

  function Sum(values: seq<int>): int {
    if values == [] then 0 else Sum(values[..|values| - 1]) + values[|values| - 1]
  }

  /** Some running total is not a storable amount, whatever the final one is. */
  ghost predicate Overflows(values: seq<int>) {
    exists k: nat :: k <= |values| && !InI64(Sum(values[..k]))
  }

  lemma SumStep(values: seq<int>, k: nat)
    requires k < |values|
    ensures Sum(values[..k + 1]) == Sum(values[..k]) + values[k]
  {
    PrefixStep(values, k);
  }

  function Words(values: seq<int>): (r: seq<Word>)
    ensures |r| == |values|
  {
    seq(|values|, i requires 0 <= i < |values| => ToWord(values[i]))
  }

  /** The WebAssembly loop over linear memory, eight bytes a step; None is the trap. */
  method Kernel(memory: array<Word>, ptr: nat, len: nat, ghost values: seq<int>) returns (total: Option<Word>)
    requires ptr + len <= memory.Length && |values| == len && memory[ptr..ptr + len] == Words(values)
    requires forall i :: 0 <= i < len ==> InI64(values[i])
    ensures total == None <==> Overflows(values)
    ensures total.Some? ==> FromWord(total.value) == Sum(values)
  {
    hide TrapTest;
    var at, end, sum := ptr, ptr + len, 0;
    assert values[..0] == [];
    while at < end
      invariant ptr <= at <= end
      invariant FromWord(sum) == Sum(values[..at - ptr])
      invariant forall k: nat :: k <= at - ptr ==> InI64(Sum(values[..k]))
    {
      var v := memory[at];
      assert v == memory[ptr..ptr + len][at - ptr] == ToWord(values[at - ptr]);
      I64Survives(values[at - ptr]);
      TrapTestIsOverflow(sum, v);
      SumStep(values, at - ptr);
      var s := AddWrapped(sum, v);
      if TrapTest(sum, v) {
        assert !InI64(Sum(values[..at - ptr + 1]));
        return None;
      }
      sum := s;
      at := at + 1;
    }
    assert values[..len] == values;
    return Some(sum);
  }

  /** The reference: exact addition, every value and every running total compared. */
  method FoldRef(values: seq<int>) returns (total: Option<int>)
    ensures total == None <==> Overflows(values) || exists i :: 0 <= i < |values| && !InI64(values[i])
    ensures total.Some? ==> total.value == Sum(values)
  {
    var sum := 0;
    assert values[..0] == [];
    for k := 0 to |values|
      invariant sum == Sum(values[..k])
      invariant forall j: nat :: j <= k ==> InI64(Sum(values[..j]))
      invariant forall i :: 0 <= i < k ==> InI64(values[i])
    {
      if !InI64(values[k]) {
        return None;
      }
      SumStep(values, k);
      sum := sum + values[k];
      if !InI64(sum) {
        assert !InI64(Sum(values[..k + 1]));
        return None;
      }
    }
    assert values[..|values|] == values;
    return Some(sum);
  }

  // ---- The column ------------------------------------------------------------------------

  const FOLD_MIN_LEGS: nat := 256

  class I64Column {
    var buffer: array<int>
    var size: nat

    ghost predicate Valid()
      reads this, buffer
    {
      buffer.Length > 0 && size <= buffer.Length && forall i :: 0 <= i < size ==> InI64(buffer[i])
    }

    ghost function Contents(): seq<int>
      reads this, buffer
      requires Valid()
    {
      buffer[..size]
    }

    constructor (capacity: nat)
      requires capacity > 0
      ensures Valid() && fresh(buffer) && Contents() == []
    {
      buffer := new int[capacity](_ => 0);
      size := 0;
    }

    /** Doubles the buffer when it is full, keeping what it holds. */
    method Push(value: int)
      requires Valid()
      modifies this, buffer
      ensures Valid() && Contents() == old(Contents()) + [AsI64(value)]
      ensures buffer == old(buffer) || fresh(buffer)
    {
      if size == buffer.Length {
        var prior := buffer;
        var grown :=
          new int[buffer.Length * 2](i requires 0 <= i reads prior => if i < prior.Length then prior[i] else 0);
        assert grown[..size] == buffer[..size];
        buffer := grown;
      }
      buffer[size] := AsI64(value);
      size := size + 1;
      assert buffer[..size] == buffer[..size - 1] + [AsI64(value)];
    }

    /** Shrinks the live length only; on an empty column it does nothing. */
    method Pop()
      requires Valid()
      modifies this`size
      ensures Valid() && buffer == old(buffer)
      ensures Contents() == if old(Contents()) == [] then [] else old(Contents())[..|old(Contents())| - 1]
    {
      if size > 0 {
        size := size - 1;
      }
    }

    method View() returns (live: seq<int>)
      requires Valid()
      ensures live == Contents()
    {
      live := buffer[..size];
    }
  }

  /** A loop below the threshold, the kernel above it; None is AMOUNT_OVERFLOW. */
  method FoldColumn(column: I64Column, wasm: bool) returns (total: Option<int>)
    requires column.Valid()
    ensures total == None <==> |column.Contents()| >= FOLD_MIN_LEGS && Overflows(column.Contents())
    ensures total.Some? ==> total.value == Sum(column.Contents())
  {
    var view := column.View();
    if |view| < FOLD_MIN_LEGS {
      var sum := 0;
      for i := 0 to |view|
        invariant sum == Sum(view[..i])
      {
        SumStep(view, i);
        sum := sum + view[i];
      }
      assert view[..|view|] == view;
      return Some(sum);
    }
    if wasm {
      var memory := new Word[|view|](i requires 0 <= i < |view| => ToWord(view[i]));
      assert memory[0..|view|] == Words(view);
      var word := Kernel(memory, 0, |view|, view);
      return if word == None then None else Some(FromWord(word.value));
    }
    total := FoldRef(view);
  }

  /** Below the threshold nothing is checked: two legs whose sum is past the last i64 value, and no throw. */
  method SmallColumnOverflows() returns (total: Option<int>)
    ensures total == Some(I64_MAX + 1) && !InI64(total.value)
  {
    var column := new I64Column(2);
    column.Push(I64_MAX);
    column.Push(1);
    TwoValues(I64_MAX, 1);
    assert column.Contents() == [] + [I64_MAX] + [1];
    total := FoldColumn(column, false);
  }

  lemma TwoValues(x: int, y: int)
    requires InI64(x) && InI64(y)
    ensures Sum([] + [x] + [y]) == x + y && AsI64(x) == x && AsI64(y) == y
  {
    I64Survives(x);
    I64Survives(y);
    var xs, both := [] + [x], [] + [x] + [y];
    assert xs[..0] == [] && both[..1] == xs;
    assert Sum(xs) == x && both[1] == y;
  }
}
