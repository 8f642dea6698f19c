/** How rank 0 files the connections it accepts under the ranks they announce. */
module Rendezvous {
  import opened Base
  import opened Wire

  /** The last connection that announced rank r. */
  function LastAt(announced: seq<U32>, r: nat): Option<nat> {
    if announced == [] then None
    else if announced[|announced| - 1] == r then Some(|announced| - 1)
    else LastAt(announced[..|announced| - 1], r)
  }

  /** Connection i announced rank r, and no later one did. */
  ghost predicate IsLast(announced: seq<U32>, r: int, i: nat) {
    i < |announced| && announced[i] == r && forall j :: i < j < |announced| ==> announced[j] != r
  }

  lemma {:induction false} LastAtIsLast(announced: seq<U32>, r: nat, i: nat)
    ensures LastAt(announced, r) == Some(i) <==> IsLast(announced, r, i)
  {
    if announced != [] {
      var n := |announced| - 1;
      LastAtIsLast(announced[..n], r, i);
      assert announced[n] != r ==> (IsLast(announced, r, i) <==> IsLast(announced[..n], r, i));
    }
  }

  predicate ValidRank(r: U32, ranks: nat) {
    0 < r < ranks
  }

  /** The accept loop: connection i announces a rank and is filed under it; an impossible
      rank is refused, a repeated one silently replaces its predecessor. */
  method AcceptPeers(ranks: nat, announced: seq<U32>) returns (res: Result<seq<Option<nat>>>)
    requires ranks > 0 && |announced| == ranks - 1
    ensures res.Err? <==> exists i :: 0 <= i < |announced| && (announced[i] == 0 || announced[i] >= ranks)
    ensures res.Ok? ==> |res.value| == ranks && forall r :: 0 <= r < ranks ==> res.value[r] == LastAt(announced, r)
    ensures res.Ok? ==> forall r, i: nat {:trigger IsLast(announced, r, i)} ::
              0 <= r < ranks ==> (res.value[r] == Some(i) <==> IsLast(announced, r, i))
  {
    var fds := seq(ranks, _ => None);
    for i := 0 to ranks - 1
      invariant |fds| == ranks && forall r :: 0 <= r < ranks ==> fds[r] == LastAt(announced[..i], r)
      invariant forall k :: 0 <= k < i ==> ValidRank(announced[k], ranks)
    {
      if !ValidRank(announced[i], ranks) {
        return Err;
      }
      assert announced[..i + 1][..i] == announced[..i];
      fds := fds[announced[i] := Some(i)];
    }
    assert announced[..ranks - 1] == announced;
    forall r, i: nat {:trigger IsLast(announced, r, i)} | 0 <= r < ranks
      ensures fds[r] == Some(i) <==> IsLast(announced, r, i)
    {
      LastAtIsLast(announced, r, i);
    }
    res := Ok(fds);
  }

  ghost predicate AllDifferent(xs: seq<U32>) {
    forall i, j :: 0 <= i < j < |xs| ==> xs[i] != xs[j]
  }

  ghost function Values(xs: seq<U32>): set<int> {
    if xs == [] then {} else Values(xs[..|xs| - 1]) + {xs[|xs| - 1]}
  }

  lemma {:induction false} ValueAt(xs: seq<U32>, i: nat)
    requires i < |xs|
    ensures xs[i] in Values(xs)
  {
    if i < |xs| - 1 {
      ValueAt(xs[..|xs| - 1], i);
    }
  }

  lemma {:induction false} ValuesIn(xs: seq<U32>, n: nat)
    requires forall i :: 0 <= i < |xs| ==> 0 < xs[i] <= n
    ensures Values(xs) <= Positions(n)
  {
    if xs != [] {
      ValuesIn(xs[..|xs| - 1], n);
    }
  }

  lemma {:induction false} DifferentStep(xs: seq<U32>, n: nat)
    requires n == |xs| - 1
    ensures AllDifferent(xs) <==> AllDifferent(xs[..n]) && xs[n] !in Values(xs[..n])
  {
    if xs[n] in Values(xs[..n]) {
      LastAtSome(xs[..n], xs[n]);
    } else {
      forall i | 0 <= i < n ensures xs[i] != xs[n] {
        ValueAt(xs[..n], i);
      }
    }
  }

  lemma {:induction false} ValuesCount(xs: seq<U32>)
    ensures |Values(xs)| <= |xs| && (|Values(xs)| == |xs| <==> AllDifferent(xs))
  {
    if xs != [] {
      ValuesCount(xs[..|xs| - 1]);
      DifferentStep(xs, |xs| - 1);
    }
  }

  ghost function Positions(n: nat): (vs: set<int>)
    ensures |vs| == n && forall v :: v in vs <==> 0 < v <= n
  {
    if n == 0 then {} else Positions(n - 1) + {n}
  }

  lemma {:induction false} LastAtSome(announced: seq<U32>, r: nat)
    ensures LastAt(announced, r).Some? <==> r in Values(announced)
    ensures LastAt(announced, r).Some? ==>
              LastAt(announced, r).value < |announced| && announced[LastAt(announced, r).value] == r
  {
    if announced != [] {
      var n := |announced| - 1;
      LastAtSome(announced[..n], r);
    }
  }

  lemma {:induction false} EqualSize(a: set<int>, b: set<int>)
    requires a <= b
    ensures |a| <= |b| && (|a| == |b| <==> a == b)
  {
    assert b == a + (b - a);
  }

  /** Every peer gets a connection exactly if all announced ranks differ. The root does not
      check this: with a repeated rank some slot stays empty. */
  lemma {:induction false} EveryPeerFiled(ranks: nat, announced: seq<U32>)
    requires ranks > 0 && |announced| == ranks - 1
    requires forall i :: 0 <= i < |announced| ==> ValidRank(announced[i], ranks)
    ensures (forall r :: 0 < r < ranks ==> LastAt(announced, r).Some?) <==> AllDifferent(announced)
  {
    ValuesCount(announced);
    ValuesIn(announced, ranks - 1);
    EqualSize(Values(announced), Positions(ranks - 1));
    if AllDifferent(announced) {
      forall r | 0 < r < ranks ensures LastAt(announced, r).Some? {
        LastAtSome(announced, r);
      }
    } else {
      var r :| r in Positions(ranks - 1) - Values(announced);
      LastAtSome(announced, r);
    }
  }

  /** Then connection i serves exactly the rank it announced, whatever the order of arrival. */
  lemma {:induction false} FiledUnderOwnRank(announced: seq<U32>, i: nat)
    requires AllDifferent(announced) && i < |announced|
    ensures LastAt(announced, announced[i]) == Some(i)
  {
    LastAtSome(announced, announced[i]);
    ValueAt(announced, i);
  }

  /** Three ranks, and rank 1 announced twice: the accept loop succeeds, keeps the second
      connection for rank 1, drops the first, and has none for rank 2. */
  lemma {:induction false} RepeatedRankIsLost(announced: seq<U32>)
    requires announced == [1, 1]
    ensures forall i :: 0 <= i < |announced| ==> ValidRank(announced[i], 3)
    ensures LastAt(announced, 1) == Some(1) && LastAt(announced, 2).None?
  {
    assert announced[..1] == [1] && announced[..1][..0] == [];
    assert LastAt(announced[..1], 2) == LastAt(announced[..1][..0], 2);
  }
}
