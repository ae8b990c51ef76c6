/** The two queue orders of the schedulers and the array heap they are kept in (multiverse/scheduler.go). */
module Heaps {
  import opened Messages

  /** `PriorityQueue` sorts by burnt mana and then by time, `IssuerQueue` by time alone. */
  datatype Order = ByBurn | ByTime

  predicate Less(o: Order, a: Message, b: Message) {
    match o
    case ByTime => a.Nanosecond() < b.Nanosecond()
    case ByBurn =>
      a.manaBurnValue > b.manaBurnValue || (a.manaBurnValue == b.manaBurnValue && a.Nanosecond() < b.Nanosecond())
  }

  lemma LessIsAnOrder(o: Order, a: Message, b: Message, c: Message)
    ensures !Less(o, a, a)
    ensures Less(o, a, b) ==> !Less(o, b, a)
    ensures !Less(o, a, b) && !Less(o, b, c) ==> !Less(o, a, c)
  {
  }

  /** The one comes no later than the other: it burns more, or as much and has no larger offset in its second. */
  ghost predicate NoLater(o: Order, a: Message, b: Message) {
    var earlier := a.issuanceTime % 1_000_000_000 <= b.issuanceTime % 1_000_000_000;
    match o
    case ByTime => earlier
    case ByBurn => a.manaBurnValue > b.manaBurnValue || (a.manaBurnValue == b.manaBurnValue && earlier)
  }

  lemma NoLaterIff(o: Order, a: Message, b: Message)
    ensures NoLater(o, a, b) <==> !Less(o, b, a)
  {
  }

  lemma NoLaterIsTransitive(o: Order, a: Message, b: Message, c: Message)
    requires NoLater(o, a, b) && NoLater(o, b, c)
    ensures NoLater(o, a, c)
  {
  }

  function Parent(i: nat): nat
    requires i > 0
  {
    (i - 1) / 2
  }

  /** The message at `i` does not come before the one above it. */
  predicate Placed(o: Order, q: seq<Message>, i: nat)
    requires 0 < i < |q|
  {
    !Less(o, q[i], q[Parent(i)])
  }

  ghost predicate IsHeap(o: Order, q: seq<Message>) {
    forall i :: 0 < i < |q| ==> Placed(o, q, i)
  }

  lemma {:induction false} RootComesFirst(o: Order, q: seq<Message>, i: nat)
    requires IsHeap(o, q) && i < |q|
    ensures NoLater(o, q[0], q[i])
  {
    NoLaterIff(o, q[0], q[i]);
    LessIsAnOrder(o, q[0], q[0], q[0]);
    if i > 0 {
      RootComesFirst(o, q, Parent(i));
      NoLaterIff(o, q[0], q[Parent(i)]);
      assert Placed(o, q, i);
      LessIsAnOrder(o, q[i], q[Parent(i)], q[0]);
    }
  }

  // ----- repairing a heap that is wrong at one place -----

  /** All of the first `n` messages are placed, except perhaps `i` and those right below it. */
  ghost predicate HeapAround(o: Order, q: seq<Message>, n: nat, i: nat)
    requires n <= |q|
  {
    && (forall k :: 0 < k < n && k != i && Parent(k) != i ==> Placed(o, q, k))
    && (forall k :: 0 < k < n && i > 0 && Parent(k) == i ==> !Less(o, q[k], q[Parent(i)]))
  }

  function Swap(q: seq<Message>, i: nat, j: nat): (r: seq<Message>)
    requires i < |q| && j < |q|
    ensures |r| == |q| && multiset(r) == multiset(q)
  {
    SwapKeepsMessages(q, i, j);
    q[i := q[j]][j := q[i]]
  }

  lemma SwapKeepsMessages(q: seq<Message>, i: nat, j: nat)
    requires i < |q| && j < |q|
    ensures multiset(q[i := q[j]][j := q[i]]) == multiset(q)
  {
  }

  method Up(o: Order, q: seq<Message>, start: nat) returns (r: seq<Message>)
    requires start < |q| && HeapAround(o, q, |q|, start)
    requires forall k :: 0 < k < |q| && Parent(k) == start ==> Placed(o, q, k)
    ensures IsHeap(o, r) && multiset(r) == multiset(q) && |r| == |q|
  {
    r := q;
    var j: nat := start;
    while j > 0 && Less(o, r[j], r[Parent(j)])
      invariant j < |r| == |q| && multiset(r) == multiset(q)
      invariant HeapAround(o, r, |r|, j)
      invariant forall k :: 0 < k < |r| && Parent(k) == j ==> Placed(o, r, k)
    {
      ghost var before := r;
      r := Swap(r, Parent(j), j);
      StepUp(o, before, j);
      j := Parent(j);
    }
  }

  lemma StepUp(o: Order, q: seq<Message>, j: nat)
    requires 0 < j < |q| && Less(o, q[j], q[Parent(j)])
    requires HeapAround(o, q, |q|, j) && forall k :: 0 < k < |q| && Parent(k) == j ==> Placed(o, q, k)
    ensures HeapAround(o, Swap(q, Parent(j), j), |q|, Parent(j))
    ensures forall k :: 0 < k < |q| && Parent(k) == Parent(j) ==> Placed(o, Swap(q, Parent(j), j), k)
  {
    var i, r := Parent(j), Swap(q, Parent(j), j);
    forall k | 0 < k < |q| && k != i
      ensures Placed(o, r, k)
      ensures i > 0 && Parent(k) == i ==> !Less(o, r[k], r[Parent(i)])
    {
      if k != j && Parent(k) != j {
        assert Placed(o, q, k);
      }
      if i > 0 {
        assert Placed(o, q, i);
      }
    }
  }

  /** Sinks the message at `start` among the first `n`. */
  method Down(o: Order, q: seq<Message>, start: nat, n: nat) returns (r: seq<Message>, moved: bool)
    requires start < n <= |q| && HeapAround(o, q, n, start)
    ensures |r| == |q| && multiset(r) == multiset(q) && r[n..] == q[n..]
    ensures forall k :: 0 < k < n && (moved || k != start) ==> Placed(o, r, k)
    ensures !moved ==> r == q
  {
    hide Less, Placed, HeapAround, BetterChild;
    r := q;
    var i := start;
    while 2 * i + 1 < n
      invariant start <= i < n <= |r| == |q|
      invariant multiset(r) == multiset(q) && r[n..] == q[n..]
      invariant HeapAround(o, r, n, i) && (i == start ==> r == q)
      invariant i != start ==> Placed(o, r, i)
      decreases n - i
    {
      var j := 2 * i + 1;
      if j + 1 < n && Less(o, r[j + 1], r[j]) {
        j := j + 1;
      }
      BetterOfTwo(o, r, n, i, j);
      if !Less(o, r[j], r[i]) {
        Settled(o, r, n, i, j);
        return r, i > start;
      }
      StepDown(o, r, n, i, j);
      r := Swap(r, i, j);
      i := j;
    }
    NothingBelow(o, r, n, i);
    moved := i > start;
  }

  /** `j` is the better of the two messages right below `i`. */
  ghost predicate BetterChild(o: Order, q: seq<Message>, n: nat, i: nat, j: nat)
    requires n <= |q|
  {
    0 < j < n && Parent(j) == i && forall k :: 0 < k < n && Parent(k) == i ==> !Less(o, q[k], q[j])
  }

  lemma BetterOfTwo(o: Order, q: seq<Message>, n: nat, i: nat, j: nat)
    requires 2 * i + 1 < n <= |q|
    requires j == if 2 * i + 2 < n && Less(o, q[2 * i + 2], q[2 * i + 1]) then 2 * i + 2 else 2 * i + 1
    ensures BetterChild(o, q, n, i, j)
  {
  }

  lemma NothingBelow(o: Order, q: seq<Message>, n: nat, i: nat)
    requires i < n <= |q| && n <= 2 * i + 1 && HeapAround(o, q, n, i)
    ensures forall k :: 0 < k < n && k != i ==> Placed(o, q, k)
  {
  }

  lemma Settled(o: Order, q: seq<Message>, n: nat, i: nat, j: nat)
    requires i < n <= |q| && HeapAround(o, q, n, i) && BetterChild(o, q, n, i, j) && !Less(o, q[j], q[i])
    ensures forall k :: 0 < k < n && k != i ==> Placed(o, q, k)
  {
    forall k | 0 < k < n && Parent(k) == i
      ensures Placed(o, q, k)
    {
      LessIsAnOrder(o, q[k], q[j], q[i]);
    }
  }

  lemma StepDown(o: Order, q: seq<Message>, n: nat, i: nat, j: nat)
    requires i < n <= |q| && HeapAround(o, q, n, i) && BetterChild(o, q, n, i, j) && Less(o, q[j], q[i])
    ensures HeapAround(o, Swap(q, i, j), n, j) && Placed(o, Swap(q, i, j), j)
  {
    var r := Swap(q, i, j);
    forall k | 0 < k < n && k != j && Parent(k) != j
      ensures Placed(o, r, k)
    {
      assert k != i && Parent(k) != i ==> Placed(o, q, k);
    }
    forall k | 0 < k < n && Parent(k) == j
      ensures !Less(o, r[k], r[Parent(j)])
    {
      assert Placed(o, q, k);
    }
  }

  // ----- the queue operations -----

  lemma SamePlaces(o: Order, q: seq<Message>, r: seq<Message>, n: nat)
    requires n <= |q| && n <= |r| && q[..n] == r[..n]
    ensures forall k :: 0 < k < n ==> (Placed(o, q, k) <==> Placed(o, r, k))
  {
    assert forall k :: 0 <= k < n ==> q[k] == q[..n][k] == r[..n][k] == r[k];
  }

  method Push(o: Order, q: seq<Message>, m: Message) returns (r: seq<Message>)
    requires IsHeap(o, q)
    ensures IsHeap(o, r) && multiset(r) == multiset(q) + multiset{m} && |r| == |q| + 1
  {
    SamePlaces(o, q, q + [m], |q|);
    r := Up(o, q + [m], |q|);
  }

  /** Takes out a message that no other comes before. */
  method Pop(o: Order, q: seq<Message>) returns (m: Message, r: seq<Message>)
    requires IsHeap(o, q) && q != []
    ensures m == q[0] && IsHeap(o, r) && multiset(q) == multiset(r) + multiset{m} && |r| == |q| - 1
    ensures forall x :: x in q ==> NoLater(o, m, x)
  {
    var n := |q| - 1;
    m, r := RemoveAt(o, q, 0);
    forall x | x in q
      ensures NoLater(o, m, x)
    {
      var i :| 0 <= i < |q| && q[i] == x;
      RootComesFirst(o, q, i);
    }
  }

  /** Takes out the message at `i`: the last one fills the gap and moves to where it belongs. */
  method RemoveAt(o: Order, q: seq<Message>, i: nat) returns (m: Message, r: seq<Message>)
    requires IsHeap(o, q) && i < |q|
    ensures m == q[i] && IsHeap(o, r) && multiset(q) == multiset(r) + multiset{m} && |r| == |q| - 1
  {
    hide Placed, HeapAround;
    var n := |q| - 1;
    if n == i {
      m, r := Drop(q);
      SamePlaces(o, q, r, n);
    } else {
      FilledGap(o, q, i);
      var sunk, moved := Down(o, Swap(q, i, n), i, n);
      SameEnd(sunk, Swap(q, i, n), n);
      Shrunk(o, sunk, i, moved);
      m, r := Drop(sunk);
      if !moved {
        r := Up(o, r, i);
      }
    }
  }

  lemma SameEnd(q: seq<Message>, r: seq<Message>, n: nat)
    requires |q| == |r| == n + 1 && q[n..] == r[n..]
    ensures q[n] == r[n]
  {
    assert q[n] == q[n..][0];
  }

  /** Without its last message the queue is a heap, or wrong only above `i`. */
  lemma Shrunk(o: Order, q: seq<Message>, i: nat, moved: bool)
    requires i < |q| - 1 && forall k :: 0 < k < |q| - 1 && (moved || k != i) ==> Placed(o, q, k)
    requires !moved ==> HeapAround(o, q, |q| - 1, i)
    ensures var r := q[..|q| - 1];
      && (moved ==> IsHeap(o, r))
      && (!moved ==> HeapAround(o, r, |r|, i) && forall k :: 0 < k < |r| && Parent(k) == i ==> Placed(o, r, k))
  {
    SamePlaces(o, q, q[..|q| - 1], |q| - 1);
  }

  lemma FilledGap(o: Order, q: seq<Message>, i: nat)
    requires IsHeap(o, q) && i < |q| - 1
    ensures HeapAround(o, Swap(q, i, |q| - 1), |q| - 1, i)
  {
    var n, r := |q| - 1, Swap(q, i, |q| - 1);
    forall k | 0 < k < n && k != i
      ensures Parent(k) != i ==> Placed(o, r, k)
      ensures i > 0 && Parent(k) == i ==> !Less(o, r[k], r[Parent(i)])
    {
      assert Placed(o, q, k);
      if i > 0 {
        assert Placed(o, q, i);
        LessIsAnOrder(o, q[k], q[i], q[Parent(i)]);
      }
    }
  }

  method Drop(q: seq<Message>) returns (m: Message, r: seq<Message>)
    requires q != []
    ensures m == q[|q| - 1] && r == q[..|q| - 1] && multiset(q) == multiset(r) + multiset{m}
  {
    m, r := q[|q| - 1], q[..|q| - 1];
    assert q == r + [m];
  }

  /** The position of a message that comes before no other. */
  method Tail(o: Order, q: seq<Message>) returns (tail: nat)
    requires q != []
    ensures tail < |q| && forall k :: 0 <= k < |q| ==> NoLater(o, q[k], q[tail])
  {
    tail := 0;
    for i := 0 to |q|
      invariant tail < |q|
      invariant forall k :: 0 <= k < i ==> !Less(o, q[tail], q[k])
    {
      if !Less(o, q[i], q[tail]) {
        forall k | 0 <= k <= i
          ensures !Less(o, q[i], q[k])
        {
          if k < i {
            LessIsAnOrder(o, q[i], q[tail], q[k]);
          }
        }
        tail := i;
      }
    }
    forall k | 0 <= k < |q|
      ensures NoLater(o, q[k], q[tail])
    {
      NoLaterIff(o, q[k], q[tail]);
    }
  }
}
