/** The element-wise reduction, in place, and what Sum, Min and Max mean for integers. */
module Reduction {
  import opened Base
  import opened Transport
  import opened Terms
  import opened Ring
  import opened RecursiveDoubling
  import opened Allreduce
  import opened Int32Sums

  /** The operators an element type brings. Nothing is assumed of them: for floats `plus`
      rounds, and `less` is false whenever an operand is not a number. */
  datatype Arith<!T> = Arith(plus: (T, T) -> T, less: (T, T) -> bool)

  /** std::min keeps its first argument unless the second is less, std::max unless the
      first is less; this settles ties between distinguishable values. */
  function Combine<T>(arith: Arith<T>, op: ReduceOp, dst: T, src: T): T {
    match op
    case Sum => arith.plus(dst, src)
    case Min => if arith.less(src, dst) then src else dst
    case Max => if arith.less(dst, src) then src else dst
  }

  function Combiner<T>(arith: Arith<T>): (ReduceOp, T, T) -> T {
    (op, dst, src) => Combine(arith, op, dst, src)
  }

  /** What element i of the destination becomes: for Sum the sum, otherwise one of the two, and
      the source's only if it is strictly the smaller, or the greater, one. */
  ghost predicate ReducedAt<T>(arith: Arith<T>, x: Fold, was: seq<T>, now: seq<T>, i: nat)
    requires i < x.len && FoldInRange(Some(x), |was|) && |now| == |was|
  {
    var dst, src, out := was[x.dst + i], was[x.src + i], now[x.dst + i];
    && (x.op == Sum ==> out == arith.plus(dst, src))
    && (x.op == Min ==> (arith.less(src, dst) ==> out == src) && (!arith.less(src, dst) ==> out == dst))
    && (x.op == Max ==> (arith.less(dst, src) ==> out == src) && (!arith.less(dst, src) ==> out == dst))
  }

  /** Every element of the destination is reduced, and no other element changes. */
  ghost predicate ReducedInto<T>(arith: Arith<T>, x: Fold, was: seq<T>, now: seq<T>)
    requires FoldInRange(Some(x), |was|)
  {
    && |now| == |was|
    && (forall i {:trigger ReducedAt(arith, x, was, now, i)} :: 0 <= i < x.len ==> ReducedAt(arith, x, was, now, i))
    && (forall k :: 0 <= k < |was| && !FoldsInto(Some(x), k) ==> now[k] == was[k])
  }

  lemma {:induction false} FoldReduces<T>(arith: Arith<T>, x: Fold, mem: seq<T>)
    requires FoldInRange(Some(x), |mem|) && Disjoint(Slice(x.dst, x.len), Slice(x.src, x.len))
    ensures ReducedInto(arith, x, mem, FoldN(Combiner(arith), x, mem, x.len))
  {
    var now := FoldN(Combiner(arith), x, mem, x.len);
    forall i | 0 <= i < x.len ensures ReducedAt(arith, x, mem, now, i) {
      FoldNElement(Combiner(arith), x, mem, x.len, x.dst + i);
    }
    forall k | 0 <= k < |mem| && !FoldsInto(Some(x), k) ensures now[k] == mem[k] {
      FoldNKeeps(Combiner(arith), x, mem, x.len, k);
    }
  }

  /** One loop per operator, over the destination in place. */
  method ReduceInplaceTyped<T>(arith: Arith<T>, mem: array<T>, dst: nat, src: nat, count: nat, op: ReduceOp)
    requires dst + count <= mem.Length && src + count <= mem.Length
    modifies mem
    ensures mem[..] == FoldMem(Combiner(arith), Some(Fold(dst, src, count, op)), old(mem[..]))
  {
    ghost var x, was := Fold(dst, src, count, op), mem[..];
    match op
    case Sum =>
      for i := 0 to count
        invariant mem[..] == FoldN(Combiner(arith), x, was, i)
      {
        mem[dst + i] := arith.plus(mem[dst + i], mem[src + i]);
      }
    case Min =>
      for i := 0 to count
        invariant mem[..] == FoldN(Combiner(arith), x, was, i)
      {
        mem[dst + i] := if arith.less(mem[src + i], mem[dst + i]) then mem[src + i] else mem[dst + i];
      }
    case Max =>
      for i := 0 to count
        invariant mem[..] == FoldN(Combiner(arith), x, was, i)
      {
        mem[dst + i] := if arith.less(mem[dst + i], mem[src + i]) then mem[src + i] else mem[dst + i];
      }
  }

  /** The reduction of one buffer into another, which it does not overlap. */
  method ReduceInplace<T>(arith: Arith<T>, mem: array<T>, dst: nat, src: nat, count: nat, op: ReduceOp)
    requires dst + count <= mem.Length && src + count <= mem.Length
    modifies mem
    ensures mem[..] == FoldMem(Combiner(arith), Some(Fold(dst, src, count, op)), old(mem[..]))
    ensures Disjoint(Slice(dst, count), Slice(src, count)) ==>
              ReducedInto(arith, Fold(dst, src, count, op), old(mem[..]), mem[..])
  {
    ghost var x, was := Fold(dst, src, count, op), mem[..];
    ReduceInplaceTyped(arith, mem, dst, src, count, op);
    if Disjoint(Slice(dst, count), Slice(src, count)) {
      FoldReduces(arith, x, was);
    }
  }

  // ----- integers

  ghost predicate OrdersInts(arith: Arith<int>) {
    forall a, b :: arith.less(a, b) <==> a < b
  }

  /** Signed addition is exact unless it overflows; what it does then is left open. */
  ghost predicate AddsInts(arith: Arith<int>) {
    forall a, b :: InInt32(a) && InInt32(b) && InInt32(a + b) ==> arith.plus(a, b) == a + b
  }

  lemma {:induction false} CombinerSums(arith: Arith<int>)
    requires AddsInts(arith)
    ensures SumsInRange(Combiner(arith))
  {
    forall a, b {:trigger Combiner(arith)(Sum, a, b)} | InInt32(a) && InInt32(b) && InInt32(a + b)
      ensures Combiner(arith)(Sum, a, b) == a + b
    {
      assert arith.plus(a, b) == a + b;
    }
  }

  /** After an Int32 Sum by ring, every rank holds the exact sum of all ranks' elements. */
  lemma {:induction false} RingSum(call: ReduceCall, arith: Arith<int>, before: seq<seq<int>>, after: seq<seq<int>>,
                                   i: nat, r: nat)
    requires RingOutcome(call, Combiner(arith), before, after) && AddsInts(arith) && call.op == Sum
    requires i < call.count && r < |before| && Modest(before, call.dataAt, i)
    ensures DataIs(call, after, r, i, SerialFold(Plus, Sum, Column(before, call.dataAt, i)))
  {
    CombinerSums(arith);
    RingInt32Sum(call, Combiner(arith), before, after, i, r);
  }

  /** Likewise by recursive doubling. */
  lemma {:induction false} DoublingSum(call: ReduceCall, steps: nat, arith: Arith<int>, before: seq<seq<int>>,
                                       after: seq<seq<int>>, i: nat, r: nat)
    requires RdOutcome(call, steps, Combiner(arith), before, after) && AddsInts(arith) && call.op == Sum
    requires i < call.count && r < |before| && Modest(before, call.dataAt, i)
    ensures DataIs(call, after, r, i, SerialFold(Plus, Sum, Column(before, call.dataAt, i)))
  {
    CombinerSums(arith);
    DoublingInt32Sum(call, steps, Combiner(arith), before, after, i, r);
  }

  /** x is the least, or the greatest, of xs. */
  ghost predicate Extreme(op: ReduceOp, x: int, xs: seq<int>) {
    x in xs && forall i :: 0 <= i < |xs| ==> if op.Min? then x <= xs[i] else xs[i] <= x
  }

  function Pick(op: ReduceOp, a: int, b: int): int {
    if (op.Min? && a <= b) || (!op.Min? && b <= a) then a else b
  }

  ghost predicate Picks(f: (ReduceOp, int, int) -> int, op: ReduceOp) {
    forall a, b :: f(op, a, b) == Pick(op, a, b)
  }

  lemma {:induction false} CombinerPicks(arith: Arith<int>, op: ReduceOp)
    requires OrdersInts(arith) && !op.Sum?
    ensures Picks(Combiner(arith), op)
  {
    forall a, b ensures Combiner(arith)(op, a, b) == Pick(op, a, b) {
      assert arith.less(b, a) <==> b < a;
      assert arith.less(a, b) <==> a < b;
    }
  }

  lemma {:induction false} ExtremeAlgebra(f: (ReduceOp, int, int) -> int, op: ReduceOp)
    requires Picks(f, op)
    ensures Associative(f, op) && Commutative(f, op)
  {
    forall a, b ensures f(op, a, b) == f(op, b, a) {
      assert f(op, a, b) == Pick(op, a, b) == Pick(op, b, a);
    }
    forall a, b, c ensures f(op, f(op, a, b), c) == f(op, a, f(op, b, c)) {
      assert f(op, f(op, a, b), c) == Pick(op, Pick(op, a, b), c);
      assert f(op, a, f(op, b, c)) == Pick(op, a, Pick(op, b, c));
    }
  }

  lemma {:induction false} ExtremeStep(op: ReduceOp, x: int, y: int, xs: seq<int>)
    requires Extreme(op, x, xs)
    ensures Extreme(op, Pick(op, x, y), xs + [y])
  {
    var k :| 0 <= k < |xs| && xs[k] == x;
    assert (xs + [y])[k] == x && (xs + [y])[|xs|] == y;
  }

  lemma {:induction false} SerialExtreme(f: (ReduceOp, int, int) -> int, op: ReduceOp, n: nat, xs: seq<int>)
    requires Picks(f, op) && 0 < n <= |xs|
    ensures Below(Upto(n), |xs|) && Extreme(op, Serial(f, op, Upto(n), xs), xs[..n])
  {
    if n == 1 {
      assert xs[..1] == [xs[0]];
    } else {
      SerialExtreme(f, op, n - 1, xs);
      SerialLast(f, op, Upto(n - 1), n - 1, xs);
      var x := Serial(f, op, Upto(n - 1), xs);
      assert f(op, x, xs[n - 1]) == Pick(op, x, xs[n - 1]);
      ExtremeStep(op, x, xs[n - 1], xs[..n - 1]);
      assert xs[..n] == xs[..n - 1] + [xs[n - 1]];
    }
  }

  /** After an Int32 Min or Max by ring, every rank holds the extreme of all ranks' elements. */
  lemma {:induction false} RingExtreme(call: ReduceCall, arith: Arith<int>, before: seq<seq<int>>, after: seq<seq<int>>,
                                       i: nat, r: nat, v: int)
    requires RingOutcome(call, Combiner(arith), before, after) && OrdersInts(arith) && !call.op.Sum?
    requires i < call.count && r < |before| && DataIs(call, after, r, i, v)
    ensures HasData(before, call.dataAt, i) && Extreme(call.op, v, Column(before, call.dataAt, i))
  {
    CombinerPicks(arith, call.op);
    ExtremeAlgebra(Combiner(arith), call.op);
    RingIsSerialFold(call, Combiner(arith), before, after, i, r);
    var xs := Column(before, call.dataAt, i);
    SerialExtreme(Combiner(arith), call.op, |xs|, xs);
    assert xs[..|xs|] == xs;
  }

  /** Likewise by recursive doubling. */
  lemma {:induction false} DoublingExtreme(call: ReduceCall, steps: nat, arith: Arith<int>, before: seq<seq<int>>,
                                           after: seq<seq<int>>, i: nat, r: nat, v: int)
    requires RdOutcome(call, steps, Combiner(arith), before, after) && OrdersInts(arith) && !call.op.Sum?
    requires i < call.count && r < |before| && DataIs(call, after, r, i, v)
    ensures HasData(before, call.dataAt, i) && Extreme(call.op, v, Column(before, call.dataAt, i))
  {
    CombinerPicks(arith, call.op);
    ExtremeAlgebra(Combiner(arith), call.op);
    DoublingIsSerialFold(call, steps, Combiner(arith), before, after, i, r);
    var xs := Column(before, call.dataAt, i);
    SerialExtreme(Combiner(arith), call.op, |xs|, xs);
    assert xs[..|xs|] == xs;
  }
}
