/** How many peers get full bodies: the arithmetic of decideBroadcastAggressiveness on 64 bits. */
module Recipients {
  import opened Basics
  import opened Filters

  const TWO_63: int := 0x8000_0000_0000_0000
  const TWO_64: int := 0x1_0000_0000_0000_0000

  predicate Fits64(x: int) {
    -TWO_63 <= x < TWO_63
  }

  /** Two's complement wrap-around. */
  function Wrap(x: int): (w: int)
    ensures Fits64(w)
    ensures Fits64(x) ==> w == x
  {
    (x + TWO_63) % TWO_64 - TWO_63
  }

  /** The source's division truncates toward zero. */
  function Div(x: int, y: int): int
    requires y != 0
  {
    if (x >= 0) == (y > 0) then Abs(x) / Abs(y) else -(Abs(x) / Abs(y))
  }

  function Abs(x: int): nat { if x < 0 then -x else x }

  const PERCENTS: int := 100
  const MAX_PERCENTS: int := 1000000 * PERCENTS
  const MILLISECOND: int := 1_000_000

  /** Floor of the square root. */
  function Sqrt(n: nat): (r: nat)
    ensures r * r <= n < (r + 1) * (r + 1)
  {
    if n == 0 then 0
    else
      var r := Sqrt(n - 1);
      if (r + 1) * (r + 1) <= n then r + 1 else r
  }

  /** latencyVsThroughputTradeoff. */
  function Tradeoff(latency: int, throughput: int): int {
    if throughput == 0 then MAX_PERCENTS else Wrap(Div(Wrap(latency * PERCENTS), throughput))
  }

  /** Neither cost target overflows on a branch that uses it. */
  lemma TargetsFit(tradeoff: int)
    requires 0 < tradeoff < MAX_PERCENTS
    ensures Fits64(tradeoff * (700 * MILLISECOND))
    ensures Div(Wrap(tradeoff * (700 * MILLISECOND)), PERCENTS) == tradeoff * 7_000_000
    ensures Fits64(tradeoff * 7_000_000 * 10)
  {
    assert tradeoff * (700 * MILLISECOND) == 100 * (tradeoff * 7_000_000);
  }

  lemma CostFits(size: nat, passed: nat)
    requires passed * (128 + size) < TWO_63
    ensures Div(Wrap(passed * (128 + size)), 128) == passed * (128 + size) / 128
  {
  }

  /** With `passed` positive the sum 128 + size cannot overflow; with `passed` 0 it does not matter. */
  lemma CostWraps(size: nat, passed: nat)
    requires passed * (128 + size) < TWO_63 && Fits64(size)
    ensures passed * Wrap(128 + size) == passed * (128 + size)
  {
    if passed > 0 {
      MulMonotone(1, passed, 128 + size, 128 + size);
      assert Wrap(128 + size) == 128 + size;
    }
  }

  /** The share of latency in percent: what the tradeoff is when the product does not overflow. */
  lemma TradeoffMeans(latency: int, throughput: int)
    requires throughput != 0 && Fits64(latency * 100)
    ensures var q := Abs(latency) * 100 / Abs(throughput);
            Tradeoff(latency, throughput) == if (latency >= 0) == (throughput > 0) then q else -q
  {
    hide Wrap;
    var x := latency * 100;
    assert Wrap(latency * PERCENTS) == x;
    DivMeans(x, throughput);
    hide Div;
    assert Abs(x) == Abs(latency) * 100;
    assert Fits64(Div(x, throughput));
  }

  /** Truncation toward zero: the quotient of the magnitudes, with the sign of the exact quotient. */
  lemma DivMeans(x: int, y: int)
    requires y != 0 && Fits64(x) && Abs(x) < TWO_63
    ensures Div(x, y) == if (x >= 0) == (y > 0) then Abs(x) / Abs(y) else -(Abs(x) / Abs(y))
    ensures Fits64(Div(x, y))
  {
    QuotientFits(Abs(x), Abs(y));
  }

  lemma QuotientFits(a: nat, b: nat)
    requires b > 0
    ensures a / b <= a
  {
    assert a / b <= a by {
      if a / b > a {
        MulMonotone(a + 1, a / b, 1, b);
      }
    }
  }

  /** When the weights agree in sign, the maximum is reached at a ratio of a million. */
  lemma RatioMeans(latency: nat, throughput: nat)
    requires throughput > 0
    ensures latency * 100 / throughput >= 100_000_000 <==> latency >= 1_000_000 * throughput
    ensures latency * 100 / throughput > 0 <==> latency * 100 >= throughput
  {
    var q, m := latency * 100 / throughput, latency * 100 % throughput;
    assert latency * 100 == q * throughput + m;
    if q >= 100_000_000 {
      MulMonotone(100_000_000, q, throughput, throughput);
    } else {
      MulMonotone(q, 99_999_999, throughput, throughput);
    }
    if q > 0 {
      MulMonotone(1, q, throughput, throughput);
    }
  }

  /**
   The answer in the inputs alone, for a cost in nanoseconds and a latency share in percent: with
   no weight on throughput, or the ratio of the weights at a million or more, all peers; with weights
   of opposite signs or a share under one percent, none; otherwise all up to 7 ms of cost for each
   percent, the root of their number but at least four up to ten times that, and none beyond.
   */
  ghost predicate IsAnswer(latency: int, throughput: int, size: nat, passed: nat, peersNum: nat, answer: int) {
    IsAnswerForCost(latency, throughput, passed * (128 + size) / 128, peersNum, answer)
  }

  ghost predicate IsAnswerForCost(latency: int, throughput: int, cost: nat, peersNum: nat, answer: int) {
    if throughput == 0 then answer == peersNum
    else if (latency > 0) != (throughput > 0) || Abs(latency) * 100 < Abs(throughput) then answer == 0
    else if Abs(latency) >= 1_000_000 * Abs(throughput) then answer == peersNum
    else
      var percent := Abs(latency) * 100 / Abs(throughput);
      if cost <= percent * 7_000_000 then answer == peersNum
      else if cost <= percent * 70_000_000 then
        exists root: nat :: IsRoot(root, peersNum) && answer == Min(peersNum, Max(4, root))
      else answer == 0
  }

  predicate IsRoot(root: nat, n: nat) {
    root * root <= n < (root + 1) * (root + 1)
  }

  lemma FullRecipientsMeans(latency: int, throughput: int, size: nat, passed: nat, peersNum: nat)
    requires throughput != 0 ==> Fits64(latency * 100)
    ensures IsAnswer(latency, throughput, size, passed, peersNum,
                     FullRecipients(Tradeoff(latency, throughput), size, passed, peersNum))
  {
    AnswerForCost(latency, throughput, passed * (128 + size) / 128, peersNum);
  }

  lemma AnswerForCost(latency: int, throughput: int, cost: nat, peersNum: nat)
    requires throughput != 0 ==> Fits64(latency * 100)
    ensures IsAnswerForCost(latency, throughput, cost, peersNum,
                            RecipientsForCost(Tradeoff(latency, throughput), cost, peersNum))
  {
    hide Tradeoff, IsRoot, RecipientsForCost, IsAnswerForCost;
    if throughput == 0 {
      NoWeightOnThroughput(latency, cost, peersNum);
    } else {
      TradeoffMeans(latency, throughput);
      RatioMeans(Abs(latency), Abs(throughput));
      AnswerForShare(latency, throughput, Abs(latency) * 100 / Abs(throughput), cost, peersNum,
                     Tradeoff(latency, throughput));
    }
  }

  lemma NoWeightOnThroughput(latency: int, cost: nat, peersNum: nat)
    ensures IsAnswerForCost(latency, 0, cost, peersNum, RecipientsForCost(Tradeoff(latency, 0), cost, peersNum))
  {
  }

  lemma AnswerForShare(latency: int, throughput: int, percent: nat, cost: nat, peersNum: nat, tradeoff: int)
    requires throughput != 0 && percent == Abs(latency) * 100 / Abs(throughput)
    requires percent >= 100_000_000 <==> Abs(latency) >= 1_000_000 * Abs(throughput)
    requires percent > 0 <==> Abs(latency) * 100 >= Abs(throughput)
    requires (latency >= 0) == (throughput > 0) ==> tradeoff == percent
    requires (latency >= 0) != (throughput > 0) ==> tradeoff + percent == 0
    ensures IsAnswerForCost(latency, throughput, cost, peersNum, RecipientsForCost(tradeoff, cost, peersNum))
  {
    assert IsRoot(Sqrt(peersNum), peersNum);
    hide Sqrt, IsRoot;
  }

  method DecideBroadcastAggressiveness(latency: int, throughput: int, size: int, passed: int, peersNum: nat)
    returns (fullRecipients: int)
    requires Fits64(latency) && Fits64(throughput) && Fits64(size) && Fits64(passed)
    ensures 0 <= fullRecipients <= peersNum
    ensures size >= 0 && passed >= 0 && passed * (128 + size) < TWO_63 ==>
              fullRecipients == FullRecipients(Tradeoff(latency, throughput), size, passed, peersNum)
    ensures throughput == 0 ==> fullRecipients == peersNum
    ensures throughput != 0 && Fits64(latency * 100) && size >= 0 && passed >= 0 && passed * (128 + size) < TWO_63 ==>
              IsAnswer(latency, throughput, size, passed, peersNum, fullRecipients)
  {
    var tradeoff := MAX_PERCENTS;
    if throughput != 0 {
      tradeoff := Wrap(Div(Wrap(latency * PERCENTS), throughput));
    }
    var broadcastCost := Div(Wrap(passed * Wrap(128 + size)), 128);
    var broadcastAllCostTarget := Div(Wrap(tradeoff * (700 * MILLISECOND)), PERCENTS);
    var broadcastSqrtCostTarget := Wrap(broadcastAllCostTarget * 10);

    if 0 < tradeoff < MAX_PERCENTS {
      TargetsFit(tradeoff);
    }
    if size >= 0 && passed >= 0 && passed * (128 + size) < TWO_63 {
      CostWraps(size, passed);
      CostFits(size, passed);
      if throughput != 0 && Fits64(latency * 100) {
        FullRecipientsMeans(latency, throughput, size, passed, peersNum);
      }
    }
    hide Wrap, Div, IsAnswer;

    fullRecipients := 0;
    if tradeoff >= MAX_PERCENTS {
      fullRecipients := peersNum;
    } else if tradeoff <= 0 {
      fullRecipients := 0;
    } else if broadcastCost <= broadcastAllCostTarget {
      fullRecipients := peersNum;
    } else if broadcastCost <= broadcastSqrtCostTarget || passed == 0 {
      fullRecipients := Sqrt(peersNum);
      if fullRecipients < 4 {
        fullRecipients := 4;
      }
    }
    if fullRecipients > peersNum {
      fullRecipients := peersNum;
    }
  }

  /** The intended answer, on unbounded numbers. */
  function FullRecipients(tradeoff: int, size: nat, passed: nat, peersNum: nat): (r: nat) {
    RecipientsForCost(tradeoff, passed * (128 + size) / 128, peersNum)
  }

  function RecipientsForCost(tradeoff: int, cost: nat, peersNum: nat): nat {
    if tradeoff >= MAX_PERCENTS then peersNum
    else if tradeoff <= 0 then 0
    else if cost <= tradeoff * 7_000_000 then peersNum
    else if cost <= tradeoff * 70_000_000 then Min(peersNum, Max(4, Sqrt(peersNum)))
    else 0
  }

  /** A larger or older payload never goes to more peers. */
  lemma LessForLargerOrOlder(tradeoff: int, size: nat, size': nat, passed: nat, passed': nat, peersNum: nat)
    requires size <= size' && passed <= passed'
    ensures FullRecipients(tradeoff, size', passed', peersNum) <= FullRecipients(tradeoff, size, passed, peersNum)
  {
    assert passed * (128 + size) <= passed' * (128 + size') by {
      MulMonotone(passed, passed', 128 + size, 128 + size');
    }
  }

  lemma MulMonotone(a: nat, b: nat, c: nat, d: nat)
    requires a <= b && c <= d
    ensures a * c <= b * d
  {
    assert a * c <= a * d <= b * d;
  }

  lemma SqrtMonotone(n: nat, m: nat)
    requires n <= m
    ensures Sqrt(n) <= Sqrt(m)
  {
    var a, b := Sqrt(n), Sqrt(m);
    if a > b {
      MulMonotone(b + 1, a, b + 1, a);
    }
  }

  /** More peers never mean fewer full recipients. */
  lemma {:induction false} MoreForMorePeers(tradeoff: int, size: nat, passed: nat, n: nat, m: nat)
    requires n <= m
    ensures FullRecipients(tradeoff, size, passed, n) <= FullRecipients(tradeoff, size, passed, m)
  {
    SqrtMonotone(n, m);
    hide Sqrt;
  }

  /** Where the intended answer is promised: the product fits up to exactly this size. */
  lemma CostFitsIff(size: nat, passed: nat)
    ensures passed * (128 + size) < TWO_63 <==> passed == 0 || 128 + size <= (TWO_63 - 1) / passed
  {
    if passed > 0 {
      var limit := (TWO_63 - 1) / passed;
      assert passed * limit <= TWO_63 - 1 < passed * (limit + 1);
      if 128 + size <= limit {
        MulMonotone(passed, passed, 128 + size, limit);
      } else {
        MulMonotone(passed, passed, limit + 1, 128 + size);
      }
    }
  }

  // Events.

  /** The peers without the useless mark, in order. */
  function Good<P>(peers: seq<P>, useless: P -> bool): seq<P> {
    if peers == [] then []
    else
      var last := peers[|peers| - 1];
      Good(peers[..|peers| - 1], useless) + (if useless(last) then [] else [last])
  }

  /**
   Who gets an event in full: the first peers without the useless mark, as many as there is need; all
   others get its hash.
   */
  method DivideRecipients<P>(peers: seq<P>, useless: P -> bool, fullRecipients: nat)
    returns (fullBroadcast: seq<P>, hashBroadcast: seq<P>)
    ensures fullBroadcast == Good(peers, useless)[..Min(fullRecipients, |Good(peers, useless)|)]
    ensures multiset(fullBroadcast) + multiset(hashBroadcast) == multiset(peers)
  {
    fullBroadcast, hashBroadcast := [], [];
    NobodyDivided(useless, fullRecipients);
    hide *;
    var i := 0;
    while i < |peers|
      invariant 0 <= i <= |peers|
      invariant IsDivided(peers[..i], useless, fullRecipients, fullBroadcast, hashBroadcast)
    {
      DivideOneMore(peers[..i], useless, fullRecipients, fullBroadcast, hashBroadcast, peers[i]);
      assert peers[..i + 1] == peers[..i] + [peers[i]];
      if !useless(peers[i]) && |fullBroadcast| < fullRecipients {
        fullBroadcast := fullBroadcast + [peers[i]];
      } else {
        hashBroadcast := hashBroadcast + [peers[i]];
      }
      i := i + 1;
    }
    assert peers[..i] == peers;
    DividedMeans(peers, useless, fullRecipients, fullBroadcast, hashBroadcast);
  }

  lemma DividedMeans<P>(peers: seq<P>, useless: P -> bool, n: nat, full: seq<P>, hashes: seq<P>)
    requires IsDivided(peers, useless, n, full, hashes)
    ensures full == Good(peers, useless)[..Min(n, |Good(peers, useless)|)]
    ensures multiset(full) + multiset(hashes) == multiset(peers)
  {
  }

  /** `full` are the first `n` peers without the mark, in order, and `hashes` all the others. */
  ghost predicate IsDivided<P>(peers: seq<P>, useless: P -> bool, n: nat, full: seq<P>, hashes: seq<P>) {
    && full == Good(peers, useless)[..Min(n, |Good(peers, useless)|)]
    && multiset(full) + multiset(hashes) == multiset(peers)
  }

  lemma NobodyDivided<P>(useless: P -> bool, n: nat)
    ensures IsDivided([], useless, n, [], [])
  {
  }

  lemma DivideOneMore<P>(peers: seq<P>, useless: P -> bool, n: nat, full: seq<P>, hashes: seq<P>, p: P)
    requires IsDivided(peers, useless, n, full, hashes)
    ensures if !useless(p) && |full| < n then IsDivided(peers + [p], useless, n, full + [p], hashes)
            else IsDivided(peers + [p], useless, n, full, hashes + [p])
  {
    GoodGrows(peers, p, useless);
    hide Good;
  }

  lemma GoodGrows<P>(peers: seq<P>, p: P, useless: P -> bool)
    ensures Good(peers + [p], useless) == Good(peers, useless) + (if useless(p) then [] else [p])
  {
    assert (peers + [p])[..|peers|] == peers;
  }

  /** The peers that may get the event in full: those of the list without the mark, in its order. */
  lemma {:induction false} GoodIsFilter<P>(peers: seq<P>, useless: P -> bool)
    ensures Good(peers, useless) == FilterAt(peers, i => 0 <= i < |peers| && !useless(peers[i]))
  {
    if peers == [] {
    } else {
      var init := peers[..|peers| - 1];
      GoodIsFilter(init, useless);
      FilterAtAgrees(init, i => 0 <= i < |init| && !useless(init[i]), i => 0 <= i < |peers| && !useless(peers[i]));
    }
  }
}
