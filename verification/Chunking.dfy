/** How a buffer is split into one chunk per rank. */
module Chunking {
  import opened Base

  datatype Chunk = Chunk(offset: nat, count: nat)

  function Min(a: int, b: int): int {
    if a < b then a else b
  }

  /** The number of elements of chunk i. */
  function Count(total: nat, n: nat, i: nat): nat
    requires n > 0
  {
    total / n + if i < total % n then 1 else 0
  }

  function Ceil(total: nat, n: nat): nat
    requires n > 0
  {
    total / n + if total % n > 0 then 1 else 0
  }

  /** The split in closed form. */
  function Chunks(total: nat, n: nat): (chunks: seq<Chunk>)
    requires n > 0
    ensures |chunks| == n
  {
    seq(n, i requires 0 <= i < n => Chunk(i * (total / n) + Min(i, total % n), Count(total, n, i)))
  }

  /** The chunks lie side by side, in order, from 0 to `total`, without gap or overlap. */
  ghost predicate Tiles(chunks: seq<Chunk>, total: nat) {
    && (forall i {:trigger EndsBy(chunks, i, total)} :: 0 <= i < |chunks| ==> EndsBy(chunks, i, total))
    && (forall i, j {:trigger Precedes(chunks, i, j)} :: 0 <= i < j < |chunks| ==> Precedes(chunks, i, j))
    && (forall x :: 0 <= x < total ==> Covered(chunks, x))
  }

  predicate EndsBy(chunks: seq<Chunk>, i: nat, total: nat)
    requires i < |chunks|
  {
    chunks[i].offset + chunks[i].count <= total
  }

  predicate Precedes(chunks: seq<Chunk>, i: nat, j: nat)
    requires i < |chunks| && j < |chunks|
  {
    chunks[i].offset + chunks[i].count <= chunks[j].offset
  }

  /** Different chunks of a tiling share no element. */
  lemma {:induction false} TilesDisjoint(chunks: seq<Chunk>, total: nat, i: nat, j: nat)
    requires Tiles(chunks, total) && i < |chunks| && j < |chunks| && i != j
    ensures Disjoint(Slice(chunks[i].offset, chunks[i].count), Slice(chunks[j].offset, chunks[j].count))
    ensures forall x :: Holds(chunks[i], x) ==> !Holds(chunks[j], x)
  {
    assert if i < j then Precedes(chunks, i, j) else Precedes(chunks, j, i);
  }

  ghost predicate Covered(chunks: seq<Chunk>, x: int) {
    exists i :: 0 <= i < |chunks| && Holds(chunks[i], x)
  }

  predicate Holds(c: Chunk, x: int) {
    c.offset <= x < c.offset + c.count
  }

  method ComputeChunks(total: nat, n: nat) returns (res: Result<seq<Chunk>>)
    ensures res.Err? <==> n == 0
    ensures res.Ok? ==> res.value == Chunks(total, n) && Tiles(res.value, total)
  {
    if n == 0 {
      return Err;
    }
    var base, remainder := total / n, total % n;
    var chunks: seq<Chunk> := [];
    var offset := 0;
    ChunkStep(total, n, 0);
    for i := 0 to n
      invariant chunks == Chunks(total, n)[..i]
      invariant offset == if i < n then Chunks(total, n)[i].offset else total
    {
      var count := base + if i < remainder then 1 else 0;
      ChunkStep(total, n, i);
      chunks := chunks + [Chunk(offset, count)];
      offset := offset + count;
    }
    ChunksTile(total, n);
    assert Chunks(total, n)[..n] == Chunks(total, n);
    res := Ok(chunks);
  }

  lemma {:induction false} ChunkStep(total: nat, n: nat, i: nat)
    requires i < n
    ensures var c := Chunks(total, n)[i];
            && (i == 0 ==> c.offset == 0)
            && (i + 1 < n ==> Chunks(total, n)[i + 1].offset == c.offset + c.count)
            && (i + 1 == n ==> c.offset + c.count == total)
  {
    var base := total / n;
    assert (i + 1) * base == i * base + base;
    assert n * base + total % n == total;
    if i + 1 == n {
      assert (i + 1) * base == n * base;
    }
  }

  lemma {:induction false} ChunkOrder(total: nat, n: nat, i: nat, j: nat)
    requires i < j < n
    ensures Chunks(total, n)[i].offset + Chunks(total, n)[i].count <= Chunks(total, n)[j].offset
    decreases j - i
  {
    ChunkStep(total, n, i);
    if i + 1 < j {
      ChunkOrder(total, n, i + 1, j);
    }
  }

  lemma {:induction false} ChunkEnd(total: nat, n: nat, i: nat)
    requires i < n
    ensures Chunks(total, n)[i].offset + Chunks(total, n)[i].count <= total
    decreases n - i
  {
    ChunkStep(total, n, i);
    if i + 1 < n {
      ChunkEnd(total, n, i + 1);
    }
  }

  lemma {:induction false} ChunkOf(total: nat, n: nat, x: nat, i: nat)
    requires i < n && Chunks(total, n)[i].offset <= x < total
    ensures Covered(Chunks(total, n), x)
    decreases n - i
  {
    ChunkStep(total, n, i);
    if !Holds(Chunks(total, n)[i], x) {
      ChunkOf(total, n, x, i + 1);
    }
  }

  /** The split covers the buffer exactly. */
  lemma {:induction false} ChunksTile(total: nat, n: nat)
    requires n > 0
    ensures Tiles(Chunks(total, n), total)
  {
    var cs := Chunks(total, n);
    forall i | 0 <= i < n ensures EndsBy(cs, i, total) {
      ChunkEnd(total, n, i);
    }
    forall i, j | 0 <= i < j < n ensures Precedes(cs, i, j) {
      ChunkOrder(total, n, i, j);
    }
    forall x | 0 <= x < total ensures Covered(cs, x) {
      ChunkStep(total, n, 0);
      ChunkOf(total, n, x, 0);
    }
  }

  /** Chunk sizes differ by at most one, larger ones first, and the largest is the
      ceiling of the quotient. */
  lemma {:induction false} ChunksBalanced(total: nat, n: nat, i: nat, j: nat)
    requires i <= j < n
    ensures var cs := Chunks(total, n);
            && cs[j].count <= cs[i].count <= cs[j].count + 1
            && cs[0].count == Ceil(total, n)
            && (cs[i].count == 0 <==> total <= i)
  {
    var q, m := total / n, total % n;
    assert total == n * q + m;
    if q > 0 {
      assert n * q >= n;
    }
  }

  /** The ring's scratch guard: the loop over the chunks finds the largest one, so the
      guard passes exactly when the scratch buffer holds ceil(total / n) elements. */
  method MaxChunk(chunks: seq<Chunk>, ghost total: nat, ghost n: nat) returns (largest: nat)
    requires n > 0 && chunks == Chunks(total, n)
    ensures largest == Ceil(total, n)
    ensures forall c :: 0 <= c < n ==> chunks[c].count <= largest
    ensures exists c :: 0 <= c < n && chunks[c].count == largest
  {
    largest := 0;
    for k := 0 to |chunks|
      invariant largest == if k == 0 then 0 else Ceil(total, n)
    {
      ChunksBalanced(total, n, 0, k);
      if largest < chunks[k].count {
        largest := chunks[k].count;
      }
    }
    forall c | 0 <= c < n ensures chunks[c].count <= largest {
      ChunksBalanced(total, n, 0, c);
    }
    assert chunks[0].count == largest;
  }

  /** One more element enlarges exactly one chunk, by one. */
  lemma {:induction false} OneMoreElement(total: nat, n: nat, i: nat)
    requires i < n
    ensures Count(total + 1, n, i) == Count(total, n, i) + if i == total % n then 1 else 0
  {
    var q, m := total / n, total % n;
    assert total == n * q + m;
    if m + 1 < n {
      DivModUnique(total + 1, n, q, m + 1);
    } else {
      assert n * (q + 1) == n * q + n;
      DivModUnique(total + 1, n, q + 1, 0);
    }
  }
}
