/** Dividing transactions, events and requests into messages. */
module Batching {
  import opened Basics
  import opened Sums

  const SOFT_RESPONSE_LIMIT_SIZE: nat := 2 * 1024 * 1024
  const SOFT_LIMIT_ITEMS: nat := 250
  const HARD_LIMIT_ITEMS: nat := SOFT_LIMIT_ITEMS * 4

  datatype LenError = EmptyMessage | MsgTooLarge | LenOk

  /** The receiver's check of a decoded list. */
  function CheckLenLimits(size: int): (e: LenError)
    ensures e == LenOk <==> 1 <= size <= 1000
    ensures e == EmptyMessage <==> size <= 0
  {
    if size <= 0 then EmptyMessage
    else if size > HARD_LIMIT_ITEMS then MsgTooLarge
    else LenOk
  }

  /** What the splitter charges for a list of elements. */
  function Weight<T>(items: seq<T>, size: T -> nat): nat {
    if items == [] then 0 else Weight(items[..|items| - 1], size) + size(items[|items| - 1]) + 1024
  }

  /** The charge in bytes: what the elements take, and 1024 for each of them. */
  lemma {:induction false} WeightMeans<T>(items: seq<T>, size: T -> nat)
    ensures Weight(items, size) == Sum(items, size) + 1024 * |items|
  {
    if items == [] {
    } else {
      var n := |items| - 1;
      WeightMeans(items[..n], size);
      SumAppend(items[..n], size, items[n]);
      assert items == items[..n] + [items[n]];
    }
  }

  function Concat<T>(batches: seq<seq<T>>): seq<T> {
    if batches == [] then [] else batches[0] + Concat(batches[1..])
  }

  /** Small enough to send as one message: only the last element may reach the soft size limit. */
  ghost predicate Sendable<T>(batch: seq<T>, size: T -> nat) {
    && 1 <= |batch| <= SOFT_LIMIT_ITEMS
    && forall k :: 0 <= k < |batch| ==> Weight(batch[..k], size) < SOFT_RESPONSE_LIMIT_SIZE
  }

  /** A batch that cannot take another element. */
  ghost predicate Complete<T>(batch: seq<T>, size: T -> nat) {
    |batch| >= SOFT_LIMIT_ITEMS || Weight(batch, size) >= SOFT_RESPONSE_LIMIT_SIZE
  }

  ghost predicate IsSplit<T>(batches: seq<seq<T>>, items: seq<T>, size: T -> nat) {
    && Concat(batches) == items
    && forall b :: b in batches ==> Sendable(b, size)
  }

  /** A split in which every batch but the last was closed only when it was complete. */
  ghost predicate IsGreedy<T>(batches: seq<seq<T>>, items: seq<T>, size: T -> nat) {
    && IsSplit(batches, items, size)
    && forall i :: 0 <= i < |batches| - 1 ==> Complete(batches[i], size)
  }

  /** The inner loop: the longest prefix that may go into one message. */
  method NextBatch<T>(items: seq<T>, size: T -> nat) returns (batch: seq<T>)
    requires items != []
    ensures batch <= items && Sendable(batch, size)
    ensures batch == items || Complete(batch, size)
    ensures 1 <= |batch| <= 250
    ensures forall k :: 0 <= k < |batch| ==> Sum(batch[..k], size) + 1024 * k < 2097152
    ensures batch == items || |batch| == 250 || Sum(batch, size) + 1024 * |batch| >= 2097152
  {
    var batchSize := 0;
    batch := [];
    var i := 0;
    assert items[..0] == [];
    while i < |items|
      invariant 0 <= i <= |items| && batch == items[..i]
      invariant batchSize == Weight(batch, size)
      invariant i < SOFT_LIMIT_ITEMS && batchSize < SOFT_RESPONSE_LIMIT_SIZE
      invariant forall k :: 0 <= k <= i ==> Weight(items[..k], size) < SOFT_RESPONSE_LIMIT_SIZE
    {
      hide Sum, Sendable;
      WeightGrows(items, i, size);
      PrefixSendable(items, i + 1, size);
      hide Weight;
      batchSize := batchSize + size(items[i]) + 1024;
      batch := items[..i + 1];
      if batchSize >= SOFT_RESPONSE_LIMIT_SIZE || i + 1 >= SOFT_LIMIT_ITEMS {
        SendableInBytes(batch, size);
        return;
      }
      i := i + 1;
    }
    hide Sum, Weight, Sendable;
    assert batch == items;
    PrefixSendable(items, i, size);
    SendableInBytes(batch, size);
  }

  lemma WeightGrows<T>(items: seq<T>, i: nat, size: T -> nat)
    requires i < |items|
    ensures Weight(items[..i + 1], size) == Weight(items[..i], size) + size(items[i]) + 1024
  {
    assert items[..i + 1][..i] == items[..i];
  }

  lemma PrefixSendable<T>(items: seq<T>, n: nat, size: T -> nat)
    requires 1 <= n <= |items| && n <= SOFT_LIMIT_ITEMS
    requires forall k :: 0 <= k < n ==> Weight(items[..k], size) < SOFT_RESPONSE_LIMIT_SIZE
    ensures Sendable(items[..n], size)
  {
    assert forall k :: 0 <= k < n ==> items[..n][..k] == items[..k];
    hide Weight;
  }

  lemma SendableInBytes<T>(batch: seq<T>, size: T -> nat)
    requires Sendable(batch, size)
    ensures 1 <= |batch| <= 250
    ensures forall k :: 0 <= k < |batch| ==> Sum(batch[..k], size) + 1024 * k < 2097152
    ensures Complete(batch, size) ==> |batch| == 250 || Sum(batch, size) + 1024 * |batch| >= 2097152
  {
    WeightMeans(batch, size);
    forall k | 0 <= k < |batch|
      ensures Sum(batch[..k], size) + 1024 * k < 2097152
    {
      WeightMeans(batch[..k], size);
    }
  }

  /**
   What a greedy split is, in bytes: the input cut into batches of 1 to 250 elements; within a batch
   no proper prefix has reached 2 MiB, each element counted with 1024 bytes more than its size; and no
   batch but the last was closed before it held 250 elements or had reached 2 MiB.
   */
  ghost predicate IsCutInBytes<T>(batches: seq<seq<T>>, items: seq<T>, size: T -> nat) {
    && Concat(batches) == items
    && (forall b :: b in batches ==> 1 <= |b| <= 250)
    && (forall b, k :: b in batches && 0 <= k < |b| ==> Sum(b[..k], size) + 1024 * k < 2097152)
    && (forall i :: 0 <= i < |batches| - 1 ==>
          |batches[i]| == 250 || Sum(batches[i], size) + 1024 * |batches[i]| >= 2097152)
  }

  lemma GreedyInBytes<T>(batches: seq<seq<T>>, items: seq<T>, size: T -> nat)
    requires IsGreedy(batches, items, size)
    ensures IsCutInBytes(batches, items, size)
  {
    forall b | b in batches
      ensures 1 <= |b| <= 250 && forall k :: 0 <= k < |b| ==> Sum(b[..k], size) + 1024 * k < 2097152
      ensures Complete(b, size) ==> |b| == 250 || Sum(b, size) + 1024 * |b| >= 2097152
    {
      SendableInBytes(b, size);
    }
    hide Sendable, Complete, Sum, Concat;
  }

  function Length<T>(batch: seq<T>): nat { |batch| }

  /** Concatenation, element by element: each has its place after all batches before its own. */
  lemma {:induction false} ConcatMeans<T>(batches: seq<seq<T>>, k: nat, i: nat)
    requires k < |batches| && i < |batches[k]|
    ensures Sum(batches[..k], Length) + i < |Concat(batches)|
    ensures Concat(batches)[Sum(batches[..k], Length) + i] == batches[k][i]
  {
    if k == 0 {
    } else {
      assert batches[..k][1..] == batches[1..][..k - 1];
      ConcatMeans(batches[1..], k - 1, i);
    }
  }

  lemma {:induction false} ConcatLength<T>(batches: seq<seq<T>>)
    ensures |Concat(batches)| == Sum(batches, Length)
  {
    if batches == [] {
    } else {
      ConcatLength(batches[1..]);
    }
  }

  /** SplitTransactions and SplitEvents: the batches handed to the callback, in order. */
  method Split<T>(items: seq<T>, size: T -> nat) returns (batches: seq<seq<T>>)
    ensures IsGreedy(batches, items, size)
    ensures IsCutInBytes(batches, items, size)
  {
    batches := [];
    var rest := items;
    while |rest| > 0
      invariant items == Concat(batches) + rest
      invariant forall b :: b in batches ==> Sendable(b, size)
      invariant forall i :: 0 <= i < |batches| - 1 ==> Complete(batches[i], size)
      invariant rest != [] && batches != [] ==> Complete(batches[|batches| - 1], size)
      decreases |rest|
    {
      var batch := NextBatch(rest, size);
      hide Sum;
      ConcatAppend(batches, batch);
      rest := rest[|batch|..];
      batches := batches + [batch];
    }
    GreedyInBytes(batches, items, size);
  }

  lemma {:induction false} ConcatAppend<T>(batches: seq<seq<T>>, batch: seq<T>)
    ensures Concat(batches + [batch]) == Concat(batches) + batch
  {
    if batches == [] {
      assert [batch][1..] == [];
    } else {
      assert (batches + [batch])[1..] == batches[1..] + [batch];
      ConcatAppend(batches[1..], batch);
    }
  }

  /** Every batch passes the receiver's length check. */
  lemma BatchesAreLegal<T>(batches: seq<seq<T>>, items: seq<T>, size: T -> nat)
    requires IsSplit(batches, items, size)
    ensures forall b :: b in batches ==> CheckLenLimits(|b|) == LenOk
  {
  }

  // Greedy is optimal.

  lemma {:induction false} WeightConcat<T>(a: seq<T>, b: seq<T>, size: T -> nat)
    ensures Weight(a + b, size) == Weight(a, size) + Weight(b, size)
  {
    if b == [] {
      assert a + b == a;
    } else {
      var m := |b| - 1;
      assert (a + b)[..|a + b| - 1] == a + b[..m];
      WeightConcat(a, b[..m], size);
    }
  }

  /** Any non-empty end of a sendable batch is sendable. */
  lemma SuffixSendable<T>(batch: seq<T>, n: nat, size: T -> nat)
    requires Sendable(batch, size) && n < |batch|
    ensures Sendable(batch[n..], size)
  {
    forall k | 0 <= k < |batch| - n
      ensures Weight(batch[n..][..k], size) < SOFT_RESPONSE_LIMIT_SIZE
    {
      assert batch[..n + k] == batch[..n] + batch[n..][..k];
      WeightConcat(batch[..n], batch[n..][..k], size);
    }
  }

  /** A complete batch is at least as long as any sendable batch with the same start. */
  lemma CompleteIsLongest<T>(batch: seq<T>, other: seq<T>, size: T -> nat)
    requires Complete(batch, size) && Sendable(other, size) && (batch <= other || other <= batch)
    ensures other <= batch
  {
    assert batch <= other ==> other[..|batch|] == batch;
  }

  /**
   Greedy needs no more batches for a suffix of the elements than any split needs for all of them.
   */
  lemma {:induction false} GreedyStaysAhead<T>(greedy: seq<seq<T>>, other: seq<seq<T>>, skipped: seq<T>,
                                               items: seq<T>, size: T -> nat)
    requires IsGreedy(greedy, items, size) && IsSplit(other, skipped + items, size)
    ensures |greedy| <= |other|
    decreases |other|
  {
    if greedy == [] {
    } else {
      assert greedy[0] in greedy;
      assert items != [];
      assert other != [];
      assert other[0] in other;
      var batch, first := greedy[0], other[0];
      assert Concat(other[1..]) == (skipped + items)[|first|..];
      assert IsSplit(other[1..], (skipped + items)[|first|..], size);
      if |first| <= |skipped| {
        assert (skipped + items)[|first|..] == skipped[|first|..] + items;
        GreedyStaysAhead(greedy, other[1..], skipped[|first|..], items, size);
        return;
      }
      // `first` reaches into `items`; greedy's first batch reaches at least as far.
      var reach := first[|skipped|..];
      SuffixSendable(first, |skipped|, size);
      assert reach == items[..|reach|] by {
        assert first == (skipped + items)[..|first|];
      }
      assert batch == items[..|batch|];
      if |greedy| > 1 {
        CompleteIsLongest(batch, reach, size);
        assert (skipped + items)[|first|..] == items[|reach|..];
        assert items[|reach|..] == items[|reach|..|batch|] + items[|batch|..];
        assert IsGreedy(greedy[1..], items[|batch|..], size);
        GreedyStaysAhead(greedy[1..], other[1..], items[|reach|..|batch|], items[|batch|..], size);
      }
    }
  }

  /** No other split into sendable batches has fewer of them. */
  lemma GreedyIsOptimal<T>(greedy: seq<seq<T>>, other: seq<seq<T>>, items: seq<T>, size: T -> nat)
    requires IsGreedy(greedy, items, size) && IsSplit(other, items, size)
    ensures |greedy| <= |other|
  {
    assert [] + items == items;
    GreedyStaysAhead(greedy, other, [], items, size);
  }

  /** How many of the batches hold the full number of elements. */
  function FullOnes<T>(batches: seq<seq<T>>): nat {
    if batches == [] then 0 else (if |batches[0]| >= SOFT_LIMIT_ITEMS then 1 else 0) + FullOnes(batches[1..])
  }

  /** How many of the batches are complete by their weight alone. */
  function HeavyOnes<T>(batches: seq<seq<T>>): nat {
    if batches == [] then 0 else (if |batches[0]| >= SOFT_LIMIT_ITEMS then 0 else 1) + HeavyOnes(batches[1..])
  }

  lemma {:induction false} FullOnesFill<T>(batches: seq<seq<T>>)
    ensures 250 * FullOnes(batches) <= |Concat(batches)|
    ensures |batches| == FullOnes(batches) + HeavyOnes(batches)
  {
    if batches == [] {
    } else {
      FullOnesFill(batches[1..]);
    }
  }

  lemma {:induction false} HeavyOnesWeigh<T>(batches: seq<seq<T>>, size: T -> nat)
    requires forall b :: b in batches ==> Complete(b, size)
    ensures 2097152 * HeavyOnes(batches) <= Weight(Concat(batches), size)
  {
    if batches == [] {
    } else {
      var first, rest := batches[0], Concat(batches[1..]);
      assert Complete(first, size);
      HeavyOnesWeigh(batches[1..], size);
      WeightConcat(first, rest, size);
      hide Weight, Concat;
    }
  }

  lemma Quotients(n: nat, w: nat, full: nat, heavy: nat)
    requires 250 * full <= n && 2097152 * heavy <= w
    ensures full <= n / SOFT_LIMIT_ITEMS && heavy <= w / SOFT_RESPONSE_LIMIT_SIZE
  {
  }

  /** The number of batches is at most 1 + n / 250 + W / limit for n elements of total weight W. */
  lemma BatchCountBound<T>(batches: seq<seq<T>>, items: seq<T>, size: T -> nat)
    requires IsGreedy(batches, items, size)
    ensures |batches| <= 1 + |items| / SOFT_LIMIT_ITEMS + Weight(items, size) / SOFT_RESPONSE_LIMIT_SIZE
  {
    if batches != [] {
      var m := |batches| - 1;
      var full := batches[..m];
      forall b | b in full
        ensures Complete(b, size)
      {
        var i :| 0 <= i < m && full[i] == b;
        assert batches[i] == b;
      }
      FullOnesFill(full);
      HeavyOnesWeigh(full, size);
      assert batches == full + [batches[m]];
      ConcatAppend(full, batches[m]);
      WeightConcat(Concat(full), batches[m], size);
      hide *;
      Quotients(|items|, Weight(items, size), FullOnes(full), HeavyOnes(full));
    }
  }

  // Requests.

  datatype SendResult = Sent | Failed

  /**
   `sent` are the requests attempted for `ids`, of 250 ids each but the last; `outcomes` says how the
   i-th send ends, and the first to fail is the last attempted.
   */
  ghost predicate IsRequested<T>(ids: seq<T>, outcomes: nat -> SendResult, sent: seq<seq<T>>, result: SendResult) {
    && Concat(sent) <= ids
    && (forall b :: b in sent ==> 1 <= |b| <= SOFT_LIMIT_ITEMS)
    && (forall i :: 0 <= i < |sent| - 1 ==> |sent[i]| == SOFT_LIMIT_ITEMS && outcomes(i) == Sent)
    && (result == Sent ==> Concat(sent) == ids && (sent != [] ==> outcomes(|sent| - 1) == Sent))
    && (result == Failed ==> sent != [] && outcomes(|sent| - 1) == Failed)
    && (Concat(sent) != ids && sent != [] ==> |sent[|sent| - 1]| == SOFT_LIMIT_ITEMS)
  }

  /** RequestEvents and RequestTransactions. */
  method Request<T>(ids: seq<T>, outcomes: nat -> SendResult) returns (sent: seq<seq<T>>, result: SendResult)
    ensures IsRequested(ids, outcomes, sent, result)
    ensures forall b :: b in sent ==> CheckLenLimits(|b|) == LenOk
  {
    sent := [];
    var start := 0;
    NothingAsked(ids, outcomes);
    hide AllSent, IsRequested;
    while start < |ids|
      invariant 0 <= start
      invariant AllSent(ids, outcomes, sent, start)
    {
      var end := |ids|;
      if end > start + SOFT_LIMIT_ITEMS {
        end := start + SOFT_LIMIT_ITEMS;
      }
      OneMoreRequest(ids, outcomes, sent, start, end);
      var batch := ids[start..end];
      sent := sent + [batch];
      if outcomes(|sent| - 1) == Failed {
        RequestsAreLegal(ids, outcomes, sent, Failed);
        return sent, Failed;
      }
      start := start + SOFT_LIMIT_ITEMS;
    }
    result := Sent;
    AllAsked(ids, outcomes, sent, start);
    RequestsAreLegal(ids, outcomes, sent, Sent);
  }

  /** The ids before `start` have been asked for, and no send has failed. */
  ghost predicate AllSent<T>(ids: seq<T>, outcomes: nat -> SendResult, sent: seq<seq<T>>, start: nat) {
    && Concat(sent) == ids[..Min(start, |ids|)]
    && (forall b :: b in sent ==> 1 <= |b| <= SOFT_LIMIT_ITEMS)
    && (forall i :: 0 <= i < |sent| ==> outcomes(i) == Sent)
    && (forall i :: 0 <= i < |sent| - 1 ==> |sent[i]| == SOFT_LIMIT_ITEMS)
    && (start < |ids| && sent != [] ==> |sent[|sent| - 1]| == SOFT_LIMIT_ITEMS)
  }

  lemma NothingAsked<T>(ids: seq<T>, outcomes: nat -> SendResult)
    ensures AllSent(ids, outcomes, [], 0)
  {
  }

  lemma AllAsked<T>(ids: seq<T>, outcomes: nat -> SendResult, sent: seq<seq<T>>, start: nat)
    requires AllSent(ids, outcomes, sent, start) && start >= |ids|
    ensures IsRequested(ids, outcomes, sent, Sent)
  {
    assert ids[..|ids|] == ids;
  }

  /** One more request has been attempted: the ids before `end` have been asked for. */
  lemma OneMoreRequest<T>(ids: seq<T>, outcomes: nat -> SendResult, sent: seq<seq<T>>, start: nat, end: nat)
    requires AllSent(ids, outcomes, sent, start) && start < |ids|
    requires end == if |ids| > start + SOFT_LIMIT_ITEMS then start + SOFT_LIMIT_ITEMS else |ids|
    ensures outcomes(|sent|) == Sent ==> AllSent(ids, outcomes, sent + [ids[start..end]], start + SOFT_LIMIT_ITEMS)
    ensures outcomes(|sent|) == Failed ==> IsRequested(ids, outcomes, sent + [ids[start..end]], Failed)
  {
    var longer := sent + [ids[start..end]];
    ConcatAppend(sent, ids[start..end]);
    assert Concat(longer) == ids[..end] by {
      assert ids[..end] == ids[..start] + ids[start..end];
    }
    hide Concat;
    assert forall i :: 0 <= i < |sent| ==> longer[i] == sent[i];
    assert longer[|sent|] == ids[start..end];
    assert forall i :: 0 <= i < |longer| - 1 ==> |longer[i]| == SOFT_LIMIT_ITEMS;
    assert forall b :: b in longer ==> b in sent || b == ids[start..end];
  }

  lemma RequestsAreLegal<T>(ids: seq<T>, outcomes: nat -> SendResult, sent: seq<seq<T>>, result: SendResult)
    requires IsRequested(ids, outcomes, sent, result)
    ensures forall b :: b in sent ==> CheckLenLimits(|b|) == LenOk
  {
  }

  lemma {:induction false} FullBatchesCount<T>(batches: seq<seq<T>>)
    requires forall i :: 0 <= i < |batches| - 1 ==> |batches[i]| == SOFT_LIMIT_ITEMS
    requires forall b :: b in batches ==> 1 <= |b| <= SOFT_LIMIT_ITEMS
    ensures batches != [] ==>
              |Concat(batches)| == SOFT_LIMIT_ITEMS * (|batches| - 1) + |batches[|batches| - 1]|
    ensures batches == [] ==> Concat(batches) == []
  {
    if |batches| <= 1 {
    } else {
      FullBatchesCount(batches[1..]);
    }
  }

  /** How many requests it takes to ask for `n` ids. */
  function RequestsFor(n: nat): nat {
    (n + SOFT_LIMIT_ITEMS - 1) / SOFT_LIMIT_ITEMS
  }

  /** The first 250 ids are asked for with every request attempted. */
  lemma RequestedSoFar<T>(ids: seq<T>, outcomes: nat -> SendResult, sent: seq<seq<T>>, result: SendResult)
    requires IsRequested(ids, outcomes, sent, result)
    ensures Concat(sent) == ids[..Min(SOFT_LIMIT_ITEMS * |sent|, |ids|)]
    ensures |sent| <= RequestsFor(|ids|) && (Concat(sent) == ids ==> |sent| == RequestsFor(|ids|))
  {
    FullBatchesCount(sent);
    var asked := Concat(sent);
    assert asked == ids[..|asked|];
    var n, last := |sent|, if sent == [] then 0 else |sent[|sent| - 1]|;
    if n > 0 {
      assert sent[n - 1] in sent;
    }
    assert |asked| == |ids| ==> asked == ids;
    hide *;
    RequestsCount(|ids|, |asked|, n, last);
  }

  /**
   Exactly when all is asked for: if and only if each of the requests it takes can be sent.
   */
  lemma RequestedIff<T>(ids: seq<T>, outcomes: nat -> SendResult, sent: seq<seq<T>>, result: SendResult)
    requires IsRequested(ids, outcomes, sent, result)
    ensures result == Sent <==> forall i: nat :: i < RequestsFor(|ids|) ==> outcomes(i) == Sent
  {
    RequestedSoFar(ids, outcomes, sent, result);
    hide RequestsFor, Concat;
  }

  lemma RequestsCount(all: nat, asked: nat, n: nat, last: nat)
    requires asked == if n == 0 then 0 else 250 * (n - 1) + last
    requires n > 0 ==> 1 <= last <= 250
    requires asked <= all && (asked < all && n > 0 ==> last == 250)
    ensures asked == Min(250 * n, all) && n <= RequestsFor(all)
    ensures asked == all ==> n == RequestsFor(all)
  {
  }
}
