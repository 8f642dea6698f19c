/**
 Which ranks' contributions a reduced element combines, and in which order: a binary
 tree whose leaves are ranks. Rounding makes the order matter for floats, so results
 are stated as trees; algebraic laws are assumed only where a lemma says so.
 */
module Terms {
  import opened Base

  datatype Term = Leaf(rank: nat) | Node(left: Term, right: Term)

  /** Every leaf is one of the first n ranks. */
  predicate Over(t: Term, n: nat) {
    match t
    case Leaf(r) => r < n
    case Node(a, b) => Over(a, n) && Over(b, n)
  }

  /** The ranks of a term from left to right, with repetitions. */
  function Ranks(t: Term): (rs: seq<nat>)
    ensures rs != []
  {
    match t
    case Leaf(r) => [r]
    case Node(a, b) => Ranks(a) + Ranks(b)
  }

  /** How often rank v contributes to a term. */
  function Occurs(t: Term, v: nat): nat {
    match t
    case Leaf(r) => if r == v then 1 else 0
    case Node(a, b) => Occurs(a, v) + Occurs(b, v)
  }

  /** Each of the first n ranks contributes exactly once, and no other does. */
  ghost predicate CountsOnce(t: Term, n: nat) {
    forall v: nat :: Occurs(t, v) == if v < n then 1 else 0
  }

  /** The value of a term where rank r contributes xs[r]; the left operand is the
      destination of the reduction. */
  function Eval<T>(f: (ReduceOp, T, T) -> T, op: ReduceOp, t: Term, xs: seq<T>): T
    requires Over(t, |xs|)
  {
    match t
    case Leaf(r) => xs[r]
    case Node(a, b) => f(op, Eval(f, op, a, xs), Eval(f, op, b, xs))
  }

  ghost predicate Commutative<T(!new)>(f: (ReduceOp, T, T) -> T, op: ReduceOp) {
    forall a, b :: f(op, a, b) == f(op, b, a)
  }

  ghost predicate Associative<T(!new)>(f: (ReduceOp, T, T) -> T, op: ReduceOp) {
    forall a, b, c :: f(op, f(op, a, b), c) == f(op, a, f(op, b, c))
  }

  // ----- the serial specification

  predicate Below(rs: seq<nat>, n: nat) {
    forall i :: 0 <= i < |rs| ==> rs[i] < n
  }

  /** Combine the contributions of the listed ranks one after the other. */
  function Serial<T>(f: (ReduceOp, T, T) -> T, op: ReduceOp, rs: seq<nat>, xs: seq<T>): T
    requires rs != [] && Below(rs, |xs|)
  {
    var n := |rs| - 1;
    if n == 0 then xs[rs[0]]
    else f(op, Serial(f, op, rs[..n], xs), xs[rs[n]])
  }

  function Upto(n: nat): (rs: seq<nat>)
    ensures |rs| == n && Below(rs, n) && forall i :: 0 <= i < n ==> rs[i] == i
  {
    if n == 0 then [] else Upto(n - 1) + [n - 1]
  }

  /** The specification of an allreduce at one index: x0 op x1 op ... op x(P-1). */
  function SerialFold<T>(f: (ReduceOp, T, T) -> T, op: ReduceOp, xs: seq<T>): T
    requires xs != []
  {
    Serial(f, op, Upto(|xs|), xs)
  }

  lemma {:induction false} UptoCounts(n: nat, v: nat)
    ensures multiset(Upto(n))[v] == if v < n then 1 else 0
  {
    if n > 0 {
      UptoCounts(n - 1, v);
    }
  }

  lemma {:induction false} OccursInRanks(t: Term, v: nat)
    ensures multiset(Ranks(t))[v] == Occurs(t, v)
  {
    if t.Node? {
      OccursInRanks(t.left, v);
      OccursInRanks(t.right, v);
    }
  }

  lemma {:induction false} CountsOncePermutes(t: Term, n: nat)
    requires CountsOnce(t, n)
    ensures multiset(Ranks(t)) == multiset(Upto(n))
  {
    forall v: nat ensures multiset(Ranks(t))[v] == multiset(Upto(n))[v] {
      OccursInRanks(t, v);
      UptoCounts(n, v);
      assert Occurs(t, v) == if v < n then 1 else 0;
    }
  }

  lemma {:induction false} RanksBelow(t: Term, n: nat)
    ensures Over(t, n) <==> Below(Ranks(t), n)
  {
    match t
    case Leaf(r) =>
      assert Ranks(t)[0] == r;
    case Node(a, b) =>
      RanksBelow(a, n);
      RanksBelow(b, n);
      var ra, rb := Ranks(a), Ranks(b);
      assert forall i :: 0 <= i < |ra| ==> ra[i] == Ranks(t)[i];
      assert forall i :: 0 <= i < |rb| ==> rb[i] == Ranks(t)[|ra| + i];
  }

  lemma {:induction false} SerialConcat<T(!new)>(f: (ReduceOp, T, T) -> T, op: ReduceOp, a: seq<nat>, b: seq<nat>,
                                                 xs: seq<T>)
    requires Associative(f, op) && a != [] && b != [] && Below(a, |xs|) && Below(b, |xs|)
    ensures Below(a + b, |xs|) && Serial(f, op, a + b, xs) == f(op, Serial(f, op, a, xs), Serial(f, op, b, xs))
  {
    var n := |b| - 1;
    if n == 0 {
      assert (a + b)[..|a + b| - 1] == a;
    } else {
      SerialConcat(f, op, a, b[..n], xs);
      assert (a + b)[..|a + b| - 1] == a + b[..n];
    }
  }

  /** Associativity alone lets a term be evaluated left to right. */
  lemma {:induction false} EvalIsSerial<T(!new)>(f: (ReduceOp, T, T) -> T, op: ReduceOp, t: Term, xs: seq<T>)
    requires Associative(f, op) && Over(t, |xs|)
    ensures Below(Ranks(t), |xs|) && Eval(f, op, t, xs) == Serial(f, op, Ranks(t), xs)
  {
    RanksBelow(t, |xs|);
    if t.Node? {
      EvalIsSerial(f, op, t.left, xs);
      EvalIsSerial(f, op, t.right, xs);
      SerialConcat(f, op, Ranks(t.left), Ranks(t.right), xs);
    }
  }

  /** The contribution at position i can be moved to the end. */
  lemma {:induction false} MoveToEnd<T(!new)>(f: (ReduceOp, T, T) -> T, op: ReduceOp, rs: seq<nat>, i: nat, xs: seq<T>)
    requires Associative(f, op) && Commutative(f, op) && i < |rs| && Below(rs, |xs|)
    ensures var moved := rs[..i] + rs[i + 1..] + [rs[i]];
            Below(moved, |xs|) && Serial(f, op, moved, xs) == Serial(f, op, rs, xs)
  {
    var a, x, b := rs[..i], [rs[i]], rs[i + 1..];
    assert rs == a + x + b;
    assert Below(a, |xs|) && Below(x, |xs|) && Below(b, |xs|);
    if b == [] {
      assert a + b + x == rs;
    } else if a == [] {
      assert rs == x + b && a + b + x == b + x;
      SerialConcat(f, op, x, b, xs);
      SerialConcat(f, op, b, x, xs);
    } else {
      SerialConcat(f, op, a, x, xs);
      SerialConcat(f, op, a + x, b, xs);
      SerialConcat(f, op, a, b, xs);
      SerialConcat(f, op, a + b, x, xs);
    }
  }

  /** Where the last of `a` stands in a permutation of it, and what is left without it. */
  lemma {:induction false} RemoveLast(a: seq<nat>, b: seq<nat>) returns (i: nat)
    requires a != [] && multiset(a) == multiset(b)
    ensures i < |b| == |a| && b[i] == a[|a| - 1]
    ensures multiset(b[..i] + b[i + 1..]) == multiset(a[..|a| - 1])
  {
    assert |multiset(a)| == |a| && |multiset(b)| == |b|;
    var n := |a| - 1;
    assert a[n] in multiset(b);
    i :| 0 <= i < |b| && b[i] == a[n];
    assert b == b[..i] + [b[i]] + b[i + 1..];
    assert a == a[..n] + [a[n]];
    assert multiset(b[..i] + b[i + 1..]) == multiset(b) - multiset{a[n]};
  }

  lemma {:induction false} PermutationBelow(a: seq<nat>, b: seq<nat>, n: nat)
    requires multiset(a) == multiset(b) && Below(a, n)
    ensures Below(b, n)
  {
    forall i | 0 <= i < |b| ensures b[i] < n {
      assert b[i] in multiset(a);
    }
  }

  lemma {:induction false} SerialLast<T>(f: (ReduceOp, T, T) -> T, op: ReduceOp, rs: seq<nat>, x: nat, xs: seq<T>)
    requires rs != [] && Below(rs, |xs|) && x < |xs|
    ensures Below(rs + [x], |xs|) && Serial(f, op, rs + [x], xs) == f(op, Serial(f, op, rs, xs), xs[x])
  {
    assert (rs + [x])[..|rs|] == rs;
  }

  /** With associativity and commutativity only the multiset of contributions matters. */
  lemma {:induction false} SerialPermutation<T(!new)>(f: (ReduceOp, T, T) -> T, op: ReduceOp, a: seq<nat>, b: seq<nat>,
                                                      xs: seq<T>)
    requires Associative(f, op) && Commutative(f, op)
    requires a != [] && multiset(a) == multiset(b) && Below(a, |xs|)
    ensures b != [] && Below(b, |xs|) && Serial(f, op, a, xs) == Serial(f, op, b, xs)
    decreases |a|
  {
    PermutationBelow(a, b, |xs|);
    var i := RemoveLast(a, b);
    var n := |a| - 1;
    if n == 0 {
      assert a == b;
    } else {
      MoveToEnd(f, op, b, i, xs);
      SerialPermutation(f, op, a[..n], b[..i] + b[i + 1..], xs);
      SameLast(f, op, a, b[..i] + b[i + 1..], xs);
    }
  }

  lemma {:induction false} SameLast<T>(f: (ReduceOp, T, T) -> T, op: ReduceOp, a: seq<nat>, rest: seq<nat>, xs: seq<T>)
    requires |a| > 1 && Below(a, |xs|) && rest != [] && Below(rest, |xs|)
    requires Serial(f, op, a[..|a| - 1], xs) == Serial(f, op, rest, xs)
    ensures Below(rest + [a[|a| - 1]], |xs|) && Serial(f, op, a, xs) == Serial(f, op, rest + [a[|a| - 1]], xs)
  {
    SerialLast(f, op, a[..|a| - 1], a[|a| - 1], xs);
    SerialLast(f, op, rest, a[|a| - 1], xs);
    assert a == a[..|a| - 1] + [a[|a| - 1]];
  }

  /** A term that counts every rank exactly once has the serial value. */
  lemma {:induction false} EvalIsSerialFold<T(!new)>(f: (ReduceOp, T, T) -> T, op: ReduceOp, t: Term, xs: seq<T>)
    requires Associative(f, op) && Commutative(f, op)
    requires xs != [] && CountsOnce(t, |xs|)
    ensures Over(t, |xs|) && Eval(f, op, t, xs) == SerialFold(f, op, xs)
  {
    CountsOncePermutes(t, |xs|);
    SerialPermutation(f, op, Upto(|xs|), Ranks(t), xs);
    RanksBelow(t, |xs|);
    EvalIsSerial(f, op, t, xs);
  }

  // ----- Int32 sums

  const INT32_MAX: int := 0x7FFF_FFFF

  predicate InInt32(v: int) {
    -INT32_MAX - 1 <= v <= INT32_MAX
  }

  /** Signed overflow is undefined: nothing is assumed of the sum outside the range. */
  ghost predicate SumsInRange(f: (ReduceOp, int, int) -> int) {
    forall a, b {:trigger f(Sum, a, b)} :: InInt32(a) && InInt32(b) && InInt32(a + b) ==> f(Sum, a, b) == a + b
  }

  function Plus(op: ReduceOp, a: int, b: int): int {
    a + b
  }

  function Abs(v: int): nat {
    if v < 0 then -v else v
  }

  function Magnitudes(xs: seq<int>): (ys: seq<int>)
    ensures |ys| == |xs| && forall i :: 0 <= i < |xs| ==> ys[i] == Abs(xs[i])
  {
    seq(|xs|, i requires 0 <= i < |xs| => Abs(xs[i]))
  }

  /** No addition anywhere in the term leaves the Int32 range. */
  predicate NoOverflow(t: Term, xs: seq<int>)
    requires Over(t, |xs|)
  {
    && InInt32(Eval(Plus, Sum, t, xs))
    && (t.Node? ==> NoOverflow(t.left, xs) && NoOverflow(t.right, xs))
  }

  lemma {:induction false} BoundedTerm(f: (ReduceOp, int, int) -> int, t: Term, xs: seq<int>)
    requires SumsInRange(f) && Over(t, |xs|) && Eval(Plus, Sum, t, Magnitudes(xs)) <= INT32_MAX
    ensures NoOverflow(t, xs) && Eval(f, Sum, t, xs) == Eval(Plus, Sum, t, xs)
    ensures Abs(Eval(Plus, Sum, t, xs)) <= Eval(Plus, Sum, t, Magnitudes(xs))
  {
    match t
    case Leaf(r) =>
    case Node(a, b) =>
      var ms := Magnitudes(xs);
      NonNegative(a, ms);
      NonNegative(b, ms);
      assert Eval(Plus, Sum, t, ms) == Eval(Plus, Sum, a, ms) + Eval(Plus, Sum, b, ms);
      BoundedTerm(f, a, xs);
      BoundedTerm(f, b, xs);
      var x, y := Eval(Plus, Sum, a, xs), Eval(Plus, Sum, b, xs);
      assert Eval(Plus, Sum, t, xs) == x + y;
      assert f(Sum, x, y) == x + y;
  }

  lemma {:induction false} NonNegative(t: Term, xs: seq<int>)
    requires Over(t, |xs|) && forall i :: 0 <= i < |xs| ==> xs[i] >= 0
    ensures Eval(Plus, Sum, t, xs) >= 0
  {
    if t.Node? {
      NonNegative(t.left, xs);
      NonNegative(t.right, xs);
    }
  }

  lemma {:induction false} PlusIsSerialFold(t: Term, xs: seq<int>)
    requires xs != [] && CountsOnce(t, |xs|)
    ensures Over(t, |xs|) && Eval(Plus, Sum, t, xs) == SerialFold(Plus, Sum, xs)
  {
    EvalIsSerialFold(Plus, Sum, t, xs);
  }

  /** If the magnitudes of all contributions total at most 2^31 - 1, a term that counts every
      rank once never overflows and is the exact sum, whatever its association. */
  lemma {:induction false} Int32SumExact(f: (ReduceOp, int, int) -> int, t: Term, xs: seq<int>)
    requires SumsInRange(f) && xs != [] && CountsOnce(t, |xs|)
    requires SerialFold(Plus, Sum, Magnitudes(xs)) <= INT32_MAX
    ensures Over(t, |xs|) && NoOverflow(t, xs) && Eval(f, Sum, t, xs) == SerialFold(Plus, Sum, xs)
  {
    PlusIsSerialFold(t, Magnitudes(xs));
    PlusIsSerialFold(t, xs);
    BoundedTerm(f, t, xs);
  }

  /** An operator that is exact in range evaluates a term without overflow to its exact sum. */
  lemma {:induction false} NoOverflowExact(f: (ReduceOp, int, int) -> int, t: Term, xs: seq<int>)
    requires SumsInRange(f) && Over(t, |xs|) && NoOverflow(t, xs)
    ensures Eval(f, Sum, t, xs) == Eval(Plus, Sum, t, xs) && InInt32(Eval(f, Sum, t, xs))
  {
    if t.Node? {
      NoOverflowExact(f, t.left, xs);
      NoOverflowExact(f, t.right, xs);
      assert f(Sum, Eval(Plus, Sum, t.left, xs), Eval(Plus, Sum, t.right, xs)) == Eval(Plus, Sum, t, xs);
    }
  }

  /** The two operands of the addition at the root of such a term, and their sum, are in range. */
  lemma {:induction false} OperandsInRange(f: (ReduceOp, int, int) -> int, a: Term, b: Term, xs: seq<int>)
    requires SumsInRange(f) && Over(a, |xs|) && Over(b, |xs|) && NoOverflow(Node(a, b), xs)
    ensures var x, y := Eval(f, Sum, a, xs), Eval(f, Sum, b, xs);
            InInt32(x) && InInt32(y) && InInt32(x + y)
  {
    NoOverflowExact(f, a, xs);
    NoOverflowExact(f, b, xs);
  }
}
