/**
 * extrapolate_u, extrapolate_v and extrapolate_w of the 3D engine: one routine
 * over a face buffer and its visited flags. The loops run over k, then j, then
 * i; each visited face hands its value to each of its six axis neighbours
 * inside the buffer that is not visited, and the neighbour keeps the running
 * average of what it received, with a counter of how many values that was.
 * Visited faces are never written, so the values handed on are the ones the
 * buffer held before the routine started (the snapshot u0).
 */
module Extrapolation3d {
  import opened Common
  import opened Mac3dGrid

  /** Entry (a,b,c) of a snapshot, 0 outside it. */
  function At(s: seq<seq<seq<real>>>, a: int, b: int, c: int): real
  {
    if 0 <= a < |s| && 0 <= b < |s[a]| && 0 <= c < |s[a][b]| then s[a][b][c] else 0.0
  }

  predicate InBox(vis: array3<bool>, a: int, b: int, c: int)
  {
    0 <= a < vis.Length0 && 0 <= b < vis.Length1 && 0 <= c < vis.Length2
  }

  /** Face (a,b,c) is a visited face the loop has already processed when it
      stands at (i,j,k). */
  predicate Done(vis: array3<bool>, a: int, b: int, c: int, i: int, j: int, k: int)
    reads vis
  {
    InBox(vis, a, b, c) && vis[a, b, c] && Before3(a, b, c, i, j, k)
  }

  /** Faces (a,b,c) and (i,j,k) differ by one along exactly one axis. */
  predicate Adjacent(a: int, b: int, c: int, i: int, j: int, k: int)
  {
    || (a == i - 1 && b == j && c == k) || (a == i + 1 && b == j && c == k)
    || (a == i && b == j - 1 && c == k) || (a == i && b == j + 1 && c == k)
    || (a == i && b == j && c == k - 1) || (a == i && b == j && c == k + 1)
  }

  /** How many values face (a,b,c) has received at loop position (i,j,k): its
      processed visited neighbours. */
  function NbrCount(vis: array3<bool>, a: int, b: int, c: int, i: int, j: int, k: int): int
    reads vis
  {
    B2I(Done(vis, a - 1, b, c, i, j, k)) + B2I(Done(vis, a + 1, b, c, i, j, k))
    + B2I(Done(vis, a, b - 1, c, i, j, k)) + B2I(Done(vis, a, b + 1, c, i, j, k))
    + B2I(Done(vis, a, b, c - 1, i, j, k)) + B2I(Done(vis, a, b, c + 1, i, j, k))
  }

  function Term(vis: array3<bool>, u0: seq<seq<seq<real>>>, a: int, b: int, c: int, i: int, j: int, k: int): real
    reads vis
  {
    if Done(vis, a, b, c, i, j, k) then At(u0, a, b, c) else 0.0
  }

  /** The sum of the values face (a,b,c) has received at loop position (i,j,k). */
  function NbrSum(vis: array3<bool>, u0: seq<seq<seq<real>>>, a: int, b: int, c: int, i: int, j: int, k: int): real
    reads vis
  {
    Term(vis, u0, a - 1, b, c, i, j, k) + Term(vis, u0, a + 1, b, c, i, j, k)
    + Term(vis, u0, a, b - 1, c, i, j, k) + Term(vis, u0, a, b + 1, c, i, j, k)
    + Term(vis, u0, a, b, c - 1, i, j, k) + Term(vis, u0, a, b, c + 1, i, j, k)
  }

  /** The value of an unvisited face at loop position (i,j,k): the mean of what
      it has received, or its own value while it has received nothing. */
  function Extrapolated(vis: array3<bool>, u0: seq<seq<seq<real>>>, a: int, b: int, c: int, i: int, j: int, k: int): real
    reads vis
  {
    var n := NbrCount(vis, a, b, c, i, j, k);
    if n == 0 then At(u0, a, b, c) else NbrSum(vis, u0, a, b, c, i, j, k) / n as real
  }

  predicate SameBox(field: array3<real>, counter: array3<nat>, vis: array3<bool>)
  {
    && field.Length0 == vis.Length0 && field.Length1 == vis.Length1 && field.Length2 == vis.Length2
    && counter.Length0 == vis.Length0 && counter.Length1 == vis.Length1 && counter.Length2 == vis.Length2
  }

  /** The state of the buffer and the counters when the loop stands at (i,j,k):
      visited faces hold their snapshot value; every other face holds the mean
      of the values received so far and counts them. */
  ghost predicate ExtrapolatedUpTo(field: array3<real>, counter: array3<nat>, vis: array3<bool>,
                             u0: seq<seq<seq<real>>>, i: int, j: int, k: int)
    reads field, counter, vis
    requires SameBox(field, counter, vis)
  {
    forall a, b, c | InBox(vis, a, b, c) ::
      (vis[a, b, c] ==> field[a, b, c] == At(u0, a, b, c))
      && (!vis[a, b, c] ==> counter[a, b, c] == NbrCount(vis, a, b, c, i, j, k)
                            && field[a, b, c] == Extrapolated(vis, u0, a, b, c, i, j, k))
  }

  /** Moving the loop from (i,j,k) to (i+1,j,k): a face receives one more value,
      that of (i,j,k), exactly when (i,j,k) is a visited neighbour. */
  lemma CountStep(vis: array3<bool>, u0: seq<seq<seq<real>>>, a: int, b: int, c: int, i: int, j: int, k: int)
    ensures NbrCount(vis, a, b, c, i + 1, j, k) == NbrCount(vis, a, b, c, i, j, k)
      + B2I(InBox(vis, i, j, k) && vis[i, j, k] && Adjacent(a, b, c, i, j, k))
    ensures NbrSum(vis, u0, a, b, c, i + 1, j, k) == NbrSum(vis, u0, a, b, c, i, j, k)
      + (if InBox(vis, i, j, k) && vis[i, j, k] && Adjacent(a, b, c, i, j, k) then At(u0, i, j, k) else 0.0)
  {
  }

  /** The end of a row is the start of the next one. */
  lemma RowWrap(vis: array3<bool>, u0: seq<seq<seq<real>>>, a: int, b: int, c: int, j: int, k: int)
    ensures NbrCount(vis, a, b, c, vis.Length0, j, k) == NbrCount(vis, a, b, c, 0, j + 1, k)
    ensures NbrSum(vis, u0, a, b, c, vis.Length0, j, k) == NbrSum(vis, u0, a, b, c, 0, j + 1, k)
  {
  }

  /** The end of a plane is the start of the next one. */
  lemma PlaneWrap(vis: array3<bool>, u0: seq<seq<seq<real>>>, a: int, b: int, c: int, k: int)
    ensures NbrCount(vis, a, b, c, 0, vis.Length1, k) == NbrCount(vis, a, b, c, 0, 0, k + 1)
    ensures NbrSum(vis, u0, a, b, c, 0, vis.Length1, k) == NbrSum(vis, u0, a, b, c, 0, 0, k + 1)
  {
  }

  /** One more value x in a running average of n values with sum s. */
  lemma RunningMean(cur: real, n: int, s: real, x: real, own: real)
    requires 0 <= n && cur == (if n == 0 then own else s / n as real) && (n == 0 ==> s == 0.0)
    ensures (cur * n as real + x) / (n + 1) as real == (s + x) / (n + 1) as real
  {
    if n > 0 {
      assert cur * n as real == s;
    }
  }

  /** Nothing received, nothing summed. */
  lemma NoCountNoSum(vis: array3<bool>, u0: seq<seq<seq<real>>>, a: int, b: int, c: int, i: int, j: int, k: int)
    requires NbrCount(vis, a, b, c, i, j, k) == 0
    ensures NbrSum(vis, u0, a, b, c, i, j, k) == 0.0
  {
  }

  /** The running average of n values, cur, after one more value x. */
  function AddToMean(cur: real, n: nat, x: real): real
  {
    (cur * n as real + x) / (n + 1) as real
  }

  /** Face (a,b,c) receives the value of face (i,j,k) when the loop reaches
      (i,j,k): (i,j,k) is visited, (a,b,c) is an unvisited axis neighbour. */
  predicate Receives(vis: array3<bool>, a: int, b: int, c: int, i: int, j: int, k: int)
    reads vis
  {
    InBox(vis, i, j, k) && vis[i, j, k] && InBox(vis, a, b, c) && !vis[a, b, c] && Adjacent(a, b, c, i, j, k)
  }

  /** One branch of the face body: the unvisited neighbour (a,b,c) of face
      (i,j,k) adds the value of (i,j,k) to its running average. */
  method Receive(field: array3<real>, counter: array3<nat>, vis: array3<bool>,
                 a: int, b: int, c: int, i: int, j: int, k: int)
    requires SameBox(field, counter, vis) && InBox(vis, a, b, c) && InBox(vis, i, j, k)
    requires (a, b, c) != (i, j, k)
    modifies field, counter
    ensures forall a', b', c' | InBox(vis, a', b', c') ::
      if (a', b', c') == (a, b, c)
      then counter[a', b', c'] == old(counter[a', b', c']) + 1
        && field[a', b', c'] == AddToMean(old(field[a', b', c']), old(counter[a', b', c']), old(field[i, j, k]))
      else field[a', b', c'] == old(field[a', b', c']) && counter[a', b', c'] == old(counter[a', b', c'])
  {
    var tmp := field[a, b, c] * counter[a, b, c] as real;
    counter[a, b, c] := counter[a, b, c] + 1;
    field[a, b, c] := (tmp + field[i, j, k]) / counter[a, b, c] as real;
  }

  /** The body of the loops for face (i,j,k): when it is visited, every
      unvisited axis neighbour inside the buffer receives its value; nothing
      else changes. */
  method ExtrapolateFace(field: array3<real>, counter: array3<nat>, vis: array3<bool>, i: int, j: int, k: int)
    requires SameBox(field, counter, vis) && InBox(vis, i, j, k)
    modifies field, counter
    ensures forall a, b, c | InBox(vis, a, b, c) ::
      if Receives(vis, a, b, c, i, j, k)
      then counter[a, b, c] == old(counter[a, b, c]) + 1
        && field[a, b, c] == AddToMean(old(field[a, b, c]), old(counter[a, b, c]), old(field[i, j, k]))
      else field[a, b, c] == old(field[a, b, c]) && counter[a, b, c] == old(counter[a, b, c])
  {
    if vis[i, j, k] {
      ExtrapolateLower(field, counter, vis, i, j, k);
      ExtrapolateUpper(field, counter, vis, i, j, k);
      ReceivesBySide(vis, i, j, k);
    }
  }

  /** The neighbours that receive the value of a visited face are its
      unvisited lower neighbours and its unvisited upper neighbours. */
  lemma ReceivesBySide(vis: array3<bool>, i: int, j: int, k: int)
    requires InBox(vis, i, j, k) && vis[i, j, k]
    ensures forall a, b, c | InBox(vis, a, b, c) ::
      Receives(vis, a, b, c, i, j, k) <==>
        !vis[a, b, c] && (((a, b, c) == (i - 1, j, k) || (a, b, c) == (i, j - 1, k) || (a, b, c) == (i, j, k - 1))
                          || ((a, b, c) == (i + 1, j, k) || (a, b, c) == (i, j + 1, k) || (a, b, c) == (i, j, k + 1)))
  {
  }

  /** The three branches toward i-1, j-1 and k-1. */
  method ExtrapolateLower(field: array3<real>, counter: array3<nat>, vis: array3<bool>, i: int, j: int, k: int)
    requires SameBox(field, counter, vis) && InBox(vis, i, j, k) && vis[i, j, k]
    modifies field, counter
    ensures forall a, b, c | InBox(vis, a, b, c) ::
      var hit := !vis[a, b, c] && ((a, b, c) == (i - 1, j, k) || (a, b, c) == (i, j - 1, k) || (a, b, c) == (i, j, k - 1));
      counter[a, b, c] == old(counter[a, b, c]) + B2I(hit)
      && field[a, b, c] == if hit then AddToMean(old(field[a, b, c]), old(counter[a, b, c]), old(field[i, j, k]))
                           else old(field[a, b, c])
  {
    Offer(field, counter, vis, i != 0, i - 1, j, k, i, j, k);
    Offer(field, counter, vis, j != 0, i, j - 1, k, i, j, k);
    Offer(field, counter, vis, k != 0, i, j, k - 1, i, j, k);
  }

  /** The three branches toward i+1, j+1 and k+1, the last index of each axis excluded. */
  method ExtrapolateUpper(field: array3<real>, counter: array3<nat>, vis: array3<bool>, i: int, j: int, k: int)
    requires SameBox(field, counter, vis) && InBox(vis, i, j, k) && vis[i, j, k]
    modifies field, counter
    ensures forall a, b, c | InBox(vis, a, b, c) ::
      var hit := !vis[a, b, c] && ((a, b, c) == (i + 1, j, k) || (a, b, c) == (i, j + 1, k) || (a, b, c) == (i, j, k + 1));
      counter[a, b, c] == old(counter[a, b, c]) + B2I(hit)
      && field[a, b, c] == if hit then AddToMean(old(field[a, b, c]), old(counter[a, b, c]), old(field[i, j, k]))
                           else old(field[a, b, c])
  {
    Offer(field, counter, vis, i != vis.Length0 - 1, i + 1, j, k, i, j, k);
    Offer(field, counter, vis, j != vis.Length1 - 1, i, j + 1, k, i, j, k);
    Offer(field, counter, vis, k != vis.Length2 - 1, i, j, k + 1, i, j, k);
  }

  /** One branch with its index guard: when the guard passes, the neighbour
      (a,b,c) receives the value of (i,j,k) unless it is visited itself; no
      other face changes. */
  method Offer(field: array3<real>, counter: array3<nat>, vis: array3<bool>, guard: bool,
               a: int, b: int, c: int, i: int, j: int, k: int)
    requires SameBox(field, counter, vis) && InBox(vis, i, j, k) && vis[i, j, k]
    requires guard ==> InBox(vis, a, b, c) && Adjacent(a, b, c, i, j, k)
    modifies field, counter
    ensures forall a', b', c' | InBox(vis, a', b', c') ::
      var hit := guard && (a', b', c') == (a, b, c) && !vis[a', b', c'];
      counter[a', b', c'] == old(counter[a', b', c']) + B2I(hit)
      && field[a', b', c'] == if hit then AddToMean(old(field[a', b', c']), old(counter[a', b', c']), old(field[i, j, k]))
                              else old(field[a', b', c'])
  {
    if guard && !vis[a, b, c] {
      Receive(field, counter, vis, a, b, c, i, j, k);
    }
  }

  /** The loop state of one unvisited face (a,b,c) carries over from (i,j,k)
      to (i+1,j,k): it received the value of (i,j,k) exactly when Receives. */
  lemma FaceStep(vis: array3<bool>, u0: seq<seq<seq<real>>>, a: int, b: int, c: int, i: int, j: int, k: int,
                 cOld: nat, fOld: real, cNew: nat, fNew: real)
    requires InBox(vis, a, b, c) && !vis[a, b, c]
    requires cOld == NbrCount(vis, a, b, c, i, j, k) && fOld == Extrapolated(vis, u0, a, b, c, i, j, k)
    requires Receives(vis, a, b, c, i, j, k) ==> cNew == cOld + 1 && fNew == AddToMean(fOld, cOld, At(u0, i, j, k))
    requires !Receives(vis, a, b, c, i, j, k) ==> cNew == cOld && fNew == fOld
    ensures cNew == NbrCount(vis, a, b, c, i + 1, j, k) && fNew == Extrapolated(vis, u0, a, b, c, i + 1, j, k)
  {
    CountStep(vis, u0, a, b, c, i, j, k);
    if Receives(vis, a, b, c, i, j, k) {
      if cOld == 0 {
        NoCountNoSum(vis, u0, a, b, c, i, j, k);
      }
      RunningMean(fOld, cOld, NbrSum(vis, u0, a, b, c, i, j, k), At(u0, i, j, k), At(u0, a, b, c));
    }
  }

  /** One iteration keeps the loop state: from position (i,j,k) to (i+1,j,k). */
  method ExtrapolateStep(field: array3<real>, counter: array3<nat>, vis: array3<bool>,
                         ghost u0: seq<seq<seq<real>>>, i: int, j: int, k: int)
    requires SameBox(field, counter, vis) && InBox(vis, i, j, k)
    requires ExtrapolatedUpTo(field, counter, vis, u0, i, j, k)
    modifies field, counter
    ensures ExtrapolatedUpTo(field, counter, vis, u0, i + 1, j, k)
  {
    ghost var x := field[i, j, k];
    assert vis[i, j, k] ==> x == At(u0, i, j, k);
    ExtrapolateFace(field, counter, vis, i, j, k);
    forall a, b, c | InBox(vis, a, b, c) && !vis[a, b, c]
      ensures counter[a, b, c] == NbrCount(vis, a, b, c, i + 1, j, k)
           && field[a, b, c] == Extrapolated(vis, u0, a, b, c, i + 1, j, k)
    {
      FaceStep(vis, u0, a, b, c, i, j, k, old(counter[a, b, c]), old(field[a, b, c]), counter[a, b, c], field[a, b, c]);
    }
  }

  lemma UpToRowWrap(field: array3<real>, counter: array3<nat>, vis: array3<bool>,
                    u0: seq<seq<seq<real>>>, j: int, k: int)
    requires SameBox(field, counter, vis)
    requires ExtrapolatedUpTo(field, counter, vis, u0, vis.Length0, j, k)
    ensures ExtrapolatedUpTo(field, counter, vis, u0, 0, j + 1, k)
  {
    forall a, b, c | InBox(vis, a, b, c) && !vis[a, b, c]
      ensures counter[a, b, c] == NbrCount(vis, a, b, c, 0, j + 1, k)
           && field[a, b, c] == Extrapolated(vis, u0, a, b, c, 0, j + 1, k)
    {
      RowWrap(vis, u0, a, b, c, j, k);
    }
  }

  lemma UpToPlaneWrap(field: array3<real>, counter: array3<nat>, vis: array3<bool>,
                      u0: seq<seq<seq<real>>>, k: int)
    requires SameBox(field, counter, vis)
    requires ExtrapolatedUpTo(field, counter, vis, u0, 0, vis.Length1, k)
    ensures ExtrapolatedUpTo(field, counter, vis, u0, 0, 0, k + 1)
  {
    forall a, b, c | InBox(vis, a, b, c) && !vis[a, b, c]
      ensures counter[a, b, c] == NbrCount(vis, a, b, c, 0, 0, k + 1)
           && field[a, b, c] == Extrapolated(vis, u0, a, b, c, 0, 0, k + 1)
    {
      PlaneWrap(vis, u0, a, b, c, k);
    }
  }

  /** The loops over i for row j of plane k. */
  method ExtrapolateRow(field: array3<real>, counter: array3<nat>, vis: array3<bool>,
                        ghost u0: seq<seq<seq<real>>>, j: int, k: int)
    requires SameBox(field, counter, vis) && 0 <= j < vis.Length1 && 0 <= k < vis.Length2
    requires ExtrapolatedUpTo(field, counter, vis, u0, 0, j, k)
    modifies field, counter
    ensures ExtrapolatedUpTo(field, counter, vis, u0, 0, j + 1, k)
  {
    var i := 0;
    while i < vis.Length0
      invariant 0 <= i <= vis.Length0
      invariant ExtrapolatedUpTo(field, counter, vis, u0, i, j, k)
    {
      ExtrapolateStep(field, counter, vis, u0, i, j, k);
      i := i + 1;
    }
    UpToRowWrap(field, counter, vis, u0, j, k);
  }

  /** The loops over j and i for plane k. */
  method ExtrapolatePlane(field: array3<real>, counter: array3<nat>, vis: array3<bool>,
                          ghost u0: seq<seq<seq<real>>>, k: int)
    requires SameBox(field, counter, vis) && 0 <= k < vis.Length2
    requires ExtrapolatedUpTo(field, counter, vis, u0, 0, 0, k)
    modifies field, counter
    ensures ExtrapolatedUpTo(field, counter, vis, u0, 0, 0, k + 1)
  {
    var j := 0;
    while j < vis.Length1
      invariant 0 <= j <= vis.Length1
      invariant ExtrapolatedUpTo(field, counter, vis, u0, 0, j, k)
    {
      ExtrapolateRow(field, counter, vis, u0, j, k);
      j := j + 1;
    }
    UpToPlaneWrap(field, counter, vis, u0, k);
  }

  /** The value extrapolation gives an unvisited face (a,b,c) of snapshot u0:
      the mean of its visited axis neighbours inside the buffer, or its own
      value when it has none. */
  function NeighbourMean(vis: array3<bool>, u0: seq<seq<seq<real>>>, a: int, b: int, c: int): real
    reads vis
  {
    Extrapolated(vis, u0, a, b, c, 0, 0, vis.Length2)
  }

  /** Once the loops are over, every visited face has been processed. */
  lemma AllProcessed(vis: array3<bool>, a: int, b: int, c: int)
    ensures Done(vis, a, b, c, 0, 0, vis.Length2) <==> InBox(vis, a, b, c) && vis[a, b, c]
  {
  }

  /** When all visited neighbours of a face carry values within [lo, hi], so
      does the mean the face receives. */
  lemma NeighbourMeanBounded(vis: array3<bool>, u0: seq<seq<seq<real>>>, a: int, b: int, c: int, lo: real, hi: real)
    requires 0 < NbrCount(vis, a, b, c, 0, 0, vis.Length2)
    requires forall a', b', c' | Done(vis, a', b', c', 0, 0, vis.Length2) && Adjacent(a', b', c', a, b, c) ::
      lo <= At(u0, a', b', c') <= hi
    ensures lo <= NeighbourMean(vis, u0, a, b, c) <= hi
  {
    var D := vis.Length2;
    var d1, d2, d3 := Done(vis, a - 1, b, c, 0, 0, D), Done(vis, a + 1, b, c, 0, 0, D), Done(vis, a, b - 1, c, 0, 0, D);
    var d4, d5, d6 := Done(vis, a, b + 1, c, 0, 0, D), Done(vis, a, b, c - 1, 0, 0, D), Done(vis, a, b, c + 1, 0, 0, D);
    var n := NbrCount(vis, a, b, c, 0, 0, D);
    assert n == B2I(d1) + B2I(d2) + B2I(d3) + B2I(d4) + B2I(d5) + B2I(d6);
    TermFacts(vis, u0, a - 1, b, c, a, b, c, lo, hi);
    TermFacts(vis, u0, a + 1, b, c, a, b, c, lo, hi);
    TermFacts(vis, u0, a, b - 1, c, a, b, c, lo, hi);
    TermFacts(vis, u0, a, b + 1, c, a, b, c, lo, hi);
    TermFacts(vis, u0, a, b, c - 1, a, b, c, lo, hi);
    TermFacts(vis, u0, a, b, c + 1, a, b, c, lo, hi);
    var t1, t2, t3 := Term(vis, u0, a - 1, b, c, 0, 0, D), Term(vis, u0, a + 1, b, c, 0, 0, D), Term(vis, u0, a, b - 1, c, 0, 0, D);
    var t4, t5, t6 := Term(vis, u0, a, b + 1, c, 0, 0, D), Term(vis, u0, a, b, c - 1, 0, 0, D), Term(vis, u0, a, b, c + 1, 0, 0, D);
    var s := NbrSum(vis, u0, a, b, c, 0, 0, D);
    assert s == t1 + t2 + t3 + t4 + t5 + t6;
    SumBounded(n, B2I(d1), B2I(d2), B2I(d3), B2I(d4), B2I(d5), B2I(d6), t1, t2, t3, t4, t5, t6, lo, hi);
    MeanBounded(s, n, lo, hi);
  }

  lemma TermFacts(vis: array3<bool>, u0: seq<seq<seq<real>>>, a': int, b': int, c': int,
                  a: int, b: int, c: int, lo: real, hi: real)
    requires Adjacent(a', b', c', a, b, c)
    requires forall a'', b'', c'' | Done(vis, a'', b'', c'', 0, 0, vis.Length2) && Adjacent(a'', b'', c'', a, b, c) ::
      lo <= At(u0, a'', b'', c'') <= hi
    ensures B2I(Done(vis, a', b', c', 0, 0, vis.Length2)) == 0 ==> Term(vis, u0, a', b', c', 0, 0, vis.Length2) == 0.0
    ensures B2I(Done(vis, a', b', c', 0, 0, vis.Length2)) == 1 ==> lo <= Term(vis, u0, a', b', c', 0, 0, vis.Length2) <= hi
  {
  }

  /** Six terms t_i each 0 (when its flag f_i is 0) or within [lo, hi] (when it
      is 1) sum to between n*lo and n*hi, n the number of flags set. */
  lemma SumBounded(n: int, f1: int, f2: int, f3: int, f4: int, f5: int, f6: int,
                   t1: real, t2: real, t3: real, t4: real, t5: real, t6: real, lo: real, hi: real)
    requires n == f1 + f2 + f3 + f4 + f5 + f6
    requires f1 == 0 || f1 == 1
    requires f2 == 0 || f2 == 1
    requires f3 == 0 || f3 == 1
    requires f4 == 0 || f4 == 1
    requires f5 == 0 || f5 == 1
    requires f6 == 0 || f6 == 1
    requires f1 == 0 ==> t1 == 0.0
    requires f2 == 0 ==> t2 == 0.0
    requires f3 == 0 ==> t3 == 0.0
    requires f4 == 0 ==> t4 == 0.0
    requires f5 == 0 ==> t5 == 0.0
    requires f6 == 0 ==> t6 == 0.0
    requires f1 == 1 ==> lo <= t1 <= hi
    requires f2 == 1 ==> lo <= t2 <= hi
    requires f3 == 1 ==> lo <= t3 <= hi
    requires f4 == 1 ==> lo <= t4 <= hi
    requires f5 == 1 ==> lo <= t5 <= hi
    requires f6 == 1 ==> lo <= t6 <= hi
    ensures n as real * lo <= t1 + t2 + t3 + t4 + t5 + t6 <= n as real * hi
  {
    assert n as real * lo == f1 as real * lo + f2 as real * lo + f3 as real * lo + f4 as real * lo + f5 as real * lo + f6 as real * lo;
    assert n as real * hi == f1 as real * hi + f2 as real * hi + f3 as real * hi + f4 as real * hi + f5 as real * hi + f6 as real * hi;
  }

  lemma MeanBounded(s: real, n: int, lo: real, hi: real)
    requires 0 < n && n as real * lo <= s <= n as real * hi
    ensures lo <= s / n as real <= hi
  {
    assert s / n as real * n as real == s;
  }

  /** Counters at 0 and the buffer equal to the snapshot: the state before the loops. */
  lemma UpToStart(field: array3<real>, counter: array3<nat>, vis: array3<bool>, u0: seq<seq<seq<real>>>)
    requires SameBox(field, counter, vis) && u0 == Contents(field)
    requires forall a, b, c | InBox(vis, a, b, c) :: counter[a, b, c] == 0
    ensures ExtrapolatedUpTo(field, counter, vis, u0, 0, 0, 0)
  {
    forall a, b, c | InBox(vis, a, b, c)
      ensures field[a, b, c] == At(u0, a, b, c) && NbrCount(vis, a, b, c, 0, 0, 0) == 0
    {
    }
  }

  /** extrapolate_u/v/w for one face buffer and its visited flags: the
      counters start at 0; afterwards every visited face keeps its value and
      every other face holds the mean of its visited axis neighbours (its old
      value if it has none). */
  method Extrapolate(field: array3<real>, vis: array3<bool>)
    requires field.Length0 == vis.Length0 && field.Length1 == vis.Length1 && field.Length2 == vis.Length2
    modifies field
    ensures forall a, b, c | InBox(vis, a, b, c) ::
      field[a, b, c] == if vis[a, b, c] then old(field[a, b, c]) else NeighbourMean(vis, old(Contents(field)), a, b, c)
  {
    ghost var u0 := Contents(field);
    assert forall a, b, c | InBox(vis, a, b, c) :: At(u0, a, b, c) == old(field[a, b, c]);
    var counter := new nat[vis.Length0, vis.Length1, vis.Length2]((i, j, k) => 0);
    UpToStart(field, counter, vis, u0);
    ExtrapolatePlanes(field, counter, vis, u0);
    ExtrapolationFinished(field, counter, vis, u0);
  }

  /** The outer loop over the planes k. */
  method ExtrapolatePlanes(field: array3<real>, counter: array3<nat>, vis: array3<bool>, ghost u0: seq<seq<seq<real>>>)
    requires SameBox(field, counter, vis)
    requires ExtrapolatedUpTo(field, counter, vis, u0, 0, 0, 0)
    modifies field, counter
    ensures ExtrapolatedUpTo(field, counter, vis, u0, 0, 0, vis.Length2)
  {
    var k := 0;
    while k < vis.Length2
      invariant 0 <= k <= vis.Length2
      invariant ExtrapolatedUpTo(field, counter, vis, u0, 0, 0, k)
    {
      ExtrapolatePlane(field, counter, vis, u0, k);
      k := k + 1;
    }
  }

  /** After the last plane every visited face holds its old value and every
      other face the mean of its visited neighbours. */
  lemma ExtrapolationFinished(field: array3<real>, counter: array3<nat>, vis: array3<bool>, u0: seq<seq<seq<real>>>)
    requires SameBox(field, counter, vis)
    requires ExtrapolatedUpTo(field, counter, vis, u0, 0, 0, vis.Length2)
    ensures forall a, b, c | InBox(vis, a, b, c) ::
      field[a, b, c] == if vis[a, b, c] then At(u0, a, b, c) else NeighbourMean(vis, u0, a, b, c)
  {
  }
}
