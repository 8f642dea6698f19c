/** Types shared by every layer, and the flat element memory a rank owns. */
module Base {

  datatype Option<+T> = None | Some(value: T)

  /** The outcome of a call whose source throws: a value, or the failure. */
  datatype Result<+T> = Ok(value: T) | Err

  datatype ReduceOp = Sum | Min | Max

  /** `len` consecutive elements starting at address `off` of one rank's memory. */
  datatype Slice = Slice(off: nat, len: nat)

  predicate Within(s: Slice, size: nat) {
    s.off + s.len <= size
  }

  predicate Disjoint(a: Slice, b: Slice) {
    a.len == 0 || b.len == 0 || a.off + a.len <= b.off || b.off + b.len <= a.off
  }

  predicate InSlice(i: int, s: Slice) {
    s.off <= i < s.off + s.len
  }

  function Read<T>(mem: seq<T>, s: Slice): (xs: seq<T>)
    requires Within(s, |mem|)
    ensures |xs| == s.len
  {
    mem[s.off..s.off + s.len]
  }

  /** `mem` with `xs` stored from address `off` on. */
  function Write<T>(mem: seq<T>, off: nat, xs: seq<T>): (out: seq<T>)
    requires off + |xs| <= |mem|
    ensures |out| == |mem|
    decreases |xs|
  {
    if xs == [] then mem else Write(mem[off := xs[0]], off + 1, xs[1..])
  }

  lemma {:induction false} WriteElement<T>(mem: seq<T>, off: nat, xs: seq<T>, i: nat)
    requires off + |xs| <= |mem| && i < |mem|
    ensures Write(mem, off, xs)[i] == if off <= i < off + |xs| then xs[i - off] else mem[i]
    decreases |xs|
  {
    if xs != [] {
      WriteElement(mem[off := xs[0]], off + 1, xs[1..], i);
    }
  }

  /** A write does not disturb a disjoint slice. */
  lemma {:induction false} ReadAfterWrite<T>(mem: seq<T>, off: nat, xs: seq<T>, s: Slice)
    requires off + |xs| <= |mem| && Within(s, |mem|)
    requires Disjoint(Slice(off, |xs|), s)
    ensures Read(Write(mem, off, xs), s) == Read(mem, s)
  {
    var out := Write(mem, off, xs);
    forall k | 0 <= k < s.len ensures Read(out, s)[k] == Read(mem, s)[k] {
      WriteElement(mem, off, xs, s.off + k);
    }
  }

  /** Quotient and remainder are unique. */
  lemma {:induction false} DivModUnique(x: nat, n: nat, q: nat, m: nat)
    requires n > 0 && x == n * q + m && m < n
    ensures x / n == q && x % n == m
  {
    var d := x / n - q;
    assert x == n * (x / n) + x % n;
    assert n * d == m - x % n;
    assert d >= 1 ==> n * d >= n;
    assert d <= -1 ==> n * d + n <= 0;
  }
}
