/** Rank counters of one set against the textbook picture: a recency list, most recent first. */
module LruOrder {
  import opened MemTypes

  /** A list of all ways, each once. */
  ghost predicate IsOrder(order: seq<nat>, ways: nat) {
    && |order| == ways
    && (forall k :: 0 <= k < ways ==> order[k] < ways)
    && (forall j, k :: 0 <= j < k < ways ==> order[j] != order[k])
  }

  /** The rank counter of every way is its position in the list. */
  ghost predicate Ranks(rank: seq<nat>, order: seq<nat>) {
    && IsOrder(order, |rank|)
    && forall k :: 0 <= k < |order| ==> rank[order[k]] == k
  }

  function Without(order: seq<nat>, w: nat): seq<nat> {
    if order == [] then [] else if order[0] == w then order[1..] else [order[0]] + Without(order[1..], w)
  }

  function MoveToFront(order: seq<nat>, w: nat): seq<nat> { [w] + Without(order, w) }

  lemma {:induction false} WithoutAt(order: seq<nat>, w: nat, p: nat)
    requires p < |order| && order[p] == w
    requires forall k :: 0 <= k < p ==> order[k] != w
    ensures Without(order, w) == order[..p] + order[p + 1..]
  {
    if p > 0 {
      WithoutAt(order[1..], w, p - 1);
      assert order[1..][..p - 1] == order[1..p];
      assert order[1..][p..] == order[p + 1..];
      assert order[..p] == [order[0]] + order[1..p];
    } else {
      assert order[..0] + order[1..] == order[1..];
    }
  }

  /** Every way occurs in the list: its position is its rank. */
  lemma {:induction false} AllOccur(order: seq<nat>, ways: nat, w: nat)
    requires IsOrder(order, ways) && w < ways
    ensures w in order
  {
    var all := Below(ways);
    var seen := set k | 0 <= k < |order| :: order[k];
    DistinctSize(order, |order|);
    if w !in order {
      assert seen <= all - {w};
      SubsetSize(seen, all - {w});
    }
  }

  ghost function Below(n: nat): (s: set<nat>)
    ensures |s| == n && forall k: nat :: k in s <==> k < n
  {
    if n == 0 then {} else Below(n - 1) + {n - 1}
  }

  lemma {:induction false} DistinctSize(s: seq<nat>, n: nat)
    requires n <= |s| && forall j, k :: 0 <= j < k < |s| ==> s[j] != s[k]
    ensures |set k | 0 <= k < n :: s[k]| == n
  {
    if n > 0 {
      DistinctSize(s, n - 1);
      var before := set k | 0 <= k < n - 1 :: s[k];
      assert (set k | 0 <= k < n :: s[k]) == before + {s[n - 1]};
      assert s[n - 1] !in before;
    }
  }

  lemma {:induction false} SubsetSize<T>(a: set<T>, b: set<T>)
    requires a <= b
    ensures |a| <= |b|
  {
    if a != {} {
      var x :| x in a;
      SubsetSize(a - {x}, b - {x});
    }
  }

  /** Where the elements of the list end up. */
  ghost predicate Shifted(order: seq<nat>, order': seq<nat>, w: nat, p: nat)
    requires p < |order| && |order'| == |order|
  {
    && order[p] == w && order'[0] == w
    && (forall k :: 0 < k <= p ==> order'[k] == order[k - 1])
    && forall k :: p < k < |order| ==> order'[k] == order[k]
  }

  lemma ShiftedOrder(order: seq<nat>, order': seq<nat>, w: nat, p: nat)
    requires IsOrder(order, |order|) && p < |order| && |order'| == |order| && Shifted(order, order', w, p)
    ensures IsOrder(order', |order|)
  {
    forall j, k | 0 <= j < k < |order|
      ensures order'[j] != order'[k]
    {
      var jj := if j == 0 then p else if j <= p then j - 1 else j;
      var kk := if k <= p then k - 1 else k;
      assert order'[j] == order[jj] && order'[k] == order[kk] && jj != kk;
      assert if jj < kk then order[jj] != order[kk] else order[kk] != order[jj];
    }
  }

  lemma MoveToFrontOrder(order: seq<nat>, ways: nat, w: nat) returns (p: nat)
    requires IsOrder(order, ways) && w < ways
    ensures p < ways && |MoveToFront(order, w)| == ways
    ensures Shifted(order, MoveToFront(order, w), w, p) && IsOrder(MoveToFront(order, w), ways)
  {
    AllOccur(order, ways, w);
    p :| 0 <= p < |order| && order[p] == w;
    WithoutAt(order, w, p);
    ShiftedOrder(order, MoveToFront(order, w), w, p);
  }

  /** The general rank update, and the two-way toggle, are move-to-front. */
  lemma TouchIsMoveToFront(rank: seq<nat>, rank': seq<nat>, order: seq<nat>, w: nat)
    requires Ranks(rank, order) && w < |rank| && |rank'| == |rank|
    requires forall v :: 0 <= v < |rank| ==>
      rank'[v] == if |rank| == 2 then (if v == w then 0 else 1)
                  else if v == w then 0 else if rank[v] < rank[w] then rank[v] + 1 else rank[v]
    ensures Ranks(rank', MoveToFront(order, w))
  {
    var p := MoveToFrontOrder(order, |rank|, w);
    var order' := MoveToFront(order, w);
    assert rank[w] == p;
    forall k | 0 <= k < |order'|
      ensures rank'[order'[k]] == k
    {
      if 0 < k <= p {
        assert rank[order[k - 1]] == k - 1;
      }
    }
  }

  // ---------------------------------------------------------------------------------------
  // Recency: the order in which ways were last touched

  function OrderAfter(order: seq<nat>, touches: seq<nat>): seq<nat> {
    if touches == [] then order else MoveToFront(OrderAfter(order, touches[..|touches| - 1]), touches[|touches| - 1])
  }

  /** When a way was last touched: 0 if never, else its 1-based position in the history. */
  function LastTouch(touches: seq<nat>, w: nat): nat {
    if touches == [] then 0
    else if touches[|touches| - 1] == w then |touches|
    else LastTouch(touches[..|touches| - 1], w)
  }

  lemma {:induction false} LastTouchBound(touches: seq<nat>, w: nat)
    ensures LastTouch(touches, w) <= |touches|
  {
    if touches != [] {
      LastTouchBound(touches[..|touches| - 1], w);
    }
  }

  /** An earlier way was touched more recently than a later one, unless the later one never was. */
  ghost predicate ByRecency(order: seq<nat>, touches: seq<nat>) {
    forall j, k :: 0 <= j < k < |order| ==>
      LastTouch(touches, order[j]) > LastTouch(touches, order[k]) || LastTouch(touches, order[k]) == 0
  }

  lemma RecencyStep(o: seq<nat>, o': seq<nat>, p: nat, before: seq<nat>, w: nat)
    requires ByRecency(o, before) && |o'| == |o| && p < |o|
    requires forall j, k :: 0 <= j < k < |o'| ==> o'[j] != o'[k]
    requires Shifted(o, o', w, p)
    ensures ByRecency(o', before + [w])
  {
    var touches := before + [w];
    assert touches[..|touches| - 1] == before;
    forall j, k | 0 <= j < k < |o'|
      ensures LastTouch(touches, o'[j]) > LastTouch(touches, o'[k]) || LastTouch(touches, o'[k]) == 0
    {
      assert o'[0] != o'[k];
      LastTouchBound(before, o'[k]);
      if j > 0 {
        assert o'[0] != o'[j];
        var jj, kk := if j <= p then j - 1 else j, if k <= p then k - 1 else k;
        assert o'[j] == o[jj] && o'[k] == o[kk];
      }
    }
  }

  /** The recency list is sorted by recency. */
  lemma {:induction false} OrderIsRecency(order: seq<nat>, touches: seq<nat>, ways: nat)
    requires IsOrder(order, ways) && forall k :: 0 <= k < |touches| ==> touches[k] < ways
    ensures IsOrder(OrderAfter(order, touches), ways)
    ensures ByRecency(OrderAfter(order, touches), touches)
    decreases |touches|
  {
    if touches != [] {
      var before, w := touches[..|touches| - 1], touches[|touches| - 1];
      OrderIsRecency(order, before, ways);
      var o := OrderAfter(order, before);
      var p := MoveToFrontOrder(o, ways, w);
      RecencyStep(o, MoveToFront(o, w), p, before, w);
      assert before + [w] == touches;
    }
  }

  /** The last way of a list sorted by recency is one that was touched least recently. */
  lemma LastIsLeastRecent(o: seq<nat>, touches: seq<nat>, w: nat)
    requires ByRecency(o, touches) && w in o
    ensures LastTouch(touches, o[|o| - 1]) <= LastTouch(touches, w)
  {
    var k :| 0 <= k < |o| && o[k] == w;
  }
}
