/**
 The analysis loop of `main`: one pass over the loaded packets that
 counts them, adds up their sizes and tallies each under its protocol
 bucket (TCP, UDP, ICMP, or Others for any other protocol).

 The C++ loop runs under OpenMP: the two totals are `reduction(+)`
 variables, each worker summing its own range, and the shared bucket map
 is bumped inside a critical section, one packet at a time in whatever
 order the workers reach it.  The model is the sequential loop; the
 lemmas show why the parallel run gives the same result: the result on
 a concatenation is the merge of the results on its parts (any split
 into worker ranges), merging is commutative and associative (any order
 of combining), and the result does not depend on the order of the
 packets at all (any interleaving of the critical sections).
 */
module TrafficAnalysis {
  import opened Packets
  import opened Sequences

  /** The protocols that have a bucket of their own. */
  const Known: set<string> := {"TCP", "UDP", "ICMP"}

  /** The bucket every other protocol falls into. */
  const Others: string := "Others"

  /** The keys of the protocol map, all set to 0 before the loop. */
  const Buckets: set<string> := Known + {Others}

  /** The bucket a protocol is counted under. */
  function Classify(protocol: string): (bucket: string)
    ensures bucket in Buckets
    ensures protocol in Known ==> bucket == protocol
    ensures protocol !in Known ==> bucket == Others
  {
    if protocol != "TCP" && protocol != "UDP" && protocol != "ICMP" then Others else protocol
  }

  /** The analysis results: `totalPackets`, `totalDataTransferred` and `protocolCount`. */
  datatype Stats = Stats(totalPackets: int, totalDataTransferred: int, protocolCount: map<string, int>)

  /** The count `m[k]` reads, where `operator[]` inserts a missing key with value 0. */
  function Count(m: map<string, int>, k: string): int {
    if k in m then m[k] else 0
  }

  /** The state before the loop: no packets, no bytes, every bucket at 0. */
  const Initial: Stats := Stats(0, 0, map["TCP" := 0, "UDP" := 0, "ICMP" := 0, "Others" := 0])

  /** The four assignments before the loop build the initial map. */
  lemma InitialCounts()
    ensures map[]["TCP" := 0]["UDP" := 0]["ICMP" := 0]["Others" := 0] == Initial.protocolCount
  {
  }

  /** Before the loop every count reads 0. */
  lemma InitialCountsZero()
    ensures forall k :: Count(Initial.protocolCount, k) == 0
  {
  }

  /** One iteration of the loop body, for packet `p`. */
  function Tally(s: Stats, p: Packet): Stats {
    var bucket := Classify(p.protocol);
    Stats(
      s.totalPackets + 1,
      s.totalDataTransferred + p.packetSize,
      s.protocolCount[bucket := Count(s.protocolCount, bucket) + 1])
  }

  /** The results of the loop over `packets`, one iteration per packet in order. */
  function Aggregate(packets: seq<Packet>): Stats {
    if packets == [] then Initial
    else Tally(Aggregate(packets[..|packets| - 1]), packets[|packets| - 1])
  }

  /**
   The analysis loop of `main`, run on one worker.  Its results are those
   of `Aggregate`; see the lemmas below for what they are.
   */
  method AnalyzePackets(packets: seq<Packet>)
    returns (totalPackets: int, totalDataTransferred: int, protocolCount: map<string, int>)
    ensures Stats(totalPackets, totalDataTransferred, protocolCount) == Aggregate(packets)
    ensures protocolCount.Keys == Buckets
    ensures totalPackets == |packets|
    ensures totalDataTransferred == TotalSize(packets)
    ensures forall k :: k in Buckets ==> protocolCount[k] == Occurrences(packets, k)
  {
    totalPackets := 0;
    protocolCount := map[];
    totalDataTransferred := 0;

    protocolCount := protocolCount["TCP" := 0];
    protocolCount := protocolCount["UDP" := 0];
    protocolCount := protocolCount["ICMP" := 0];
    protocolCount := protocolCount["Others" := 0];

    InitialCounts();
    assert packets[..0] == [];
    for i := 0 to |packets|
      invariant Stats(totalPackets, totalDataTransferred, protocolCount) == Aggregate(packets[..i])
    {
      ghost var count, bytes, counts := totalPackets, totalDataTransferred, protocolCount;
      totalPackets := totalPackets + 1;

      var protocol := packets[i].protocol;
      if protocol != "TCP" && protocol != "UDP" && protocol != "ICMP" {
        protocol := "Others";
      }
      protocolCount := protocolCount[protocol := Count(protocolCount, protocol) + 1];

      totalDataTransferred := totalDataTransferred + packets[i].packetSize;

      AggregateStep(packets, i, count, bytes, counts, protocol);
    }
    TakeAll(packets);
    AggregateMeaning(packets);
  }

  // ---------------------------------------------------------------------
  // What the results mean
  // ---------------------------------------------------------------------

  /** The sum of the packets' sizes, from the first packet on. */
  function TotalSize(packets: seq<Packet>): int {
    if packets == [] then 0 else packets[0].packetSize + TotalSize(packets[1..])
  }

  /** The buckets of the packets, in order. */
  function BucketsOf(packets: seq<Packet>): (bs: seq<string>)
    ensures |bs| == |packets|
    ensures forall i :: 0 <= i < |packets| ==> bs[i] == Classify(packets[i].protocol)
  {
    seq(|packets|, i requires 0 <= i < |packets| => Classify(packets[i].protocol))
  }

  /** How many of the packets fall into bucket `k`. */
  function Occurrences(packets: seq<Packet>, k: string): nat {
    multiset(BucketsOf(packets))[k]
  }

  /** The sum of the four bucket counts: the sum of all the map's values, as its keys are exactly the buckets. */
  function BucketSum(m: map<string, int>): int {
    Count(m, "TCP") + Count(m, "UDP") + Count(m, "ICMP") + Count(m, "Others")
  }

  lemma {:induction false} TotalSizeAppend(packets: seq<Packet>, p: Packet)
    ensures TotalSize(packets + [p]) == TotalSize(packets) + p.packetSize
  {
    if packets != [] {
      TotalSizeAppend(packets[1..], p);
      assert (packets + [p])[1..] == packets[1..] + [p];
    }
  }

  lemma BucketsOfAppend(packets: seq<Packet>, p: Packet)
    ensures BucketsOf(packets + [p]) == BucketsOf(packets) + [Classify(p.protocol)]
  {
  }

  lemma OccurrencesAppend(packets: seq<Packet>, p: Packet, k: string)
    ensures Occurrences(packets + [p], k) == Occurrences(packets, k) + if Classify(p.protocol) == k then 1 else 0
  {
    BucketsOfAppend(packets, p);
    assert multiset(BucketsOf(packets + [p])) == multiset(BucketsOf(packets)) + multiset{Classify(p.protocol)};
  }

  /** The result of the loop on `packets` is one iteration past its result on all but the last packet. */
  lemma AggregateLast(packets: seq<Packet>, n: nat)
    requires n < |packets|
    ensures Aggregate(packets[..n + 1]) == Tally(Aggregate(packets[..n]), packets[n])
  {
    assert packets[..n + 1][..n] == packets[..n];
  }

  /** One iteration of the loop, with the bucket computed inline, extends its result by one packet. */
  lemma AggregateStep(packets: seq<Packet>, n: nat, count: int, bytes: int, counts: map<string, int>, bucket: string)
    requires n < |packets|
    requires Stats(count, bytes, counts) == Aggregate(packets[..n])
    requires bucket == Classify(packets[n].protocol)
    ensures Stats(count + 1, bytes + packets[n].packetSize, counts[bucket := Count(counts, bucket) + 1])
      == Aggregate(packets[..n + 1])
  {
    AggregateLast(packets, n);
    TallyInto(Stats(count, bytes, counts), packets[n], bucket);
  }

  /** The loop body's update, with the bucket it computes inline. */
  lemma TallyInto(s: Stats, p: Packet, bucket: string)
    requires bucket == Classify(p.protocol)
    ensures Tally(s, p) == Stats(
      s.totalPackets + 1,
      s.totalDataTransferred + p.packetSize,
      s.protocolCount[bucket := Count(s.protocolCount, bucket) + 1])
  {
  }

  /** The result of the loop with one more packet at the end. */
  lemma AggregateSnoc(packets: seq<Packet>, p: Packet)
    ensures Aggregate(packets + [p]) == Tally(Aggregate(packets), p)
  {
    assert (packets + [p])[..|packets|] == packets;
  }

  /** One iteration adds one to the packet's bucket and leaves every other count alone. */
  lemma TallyCount(s: Stats, p: Packet, k: string)
    ensures Tally(s, p).protocolCount.Keys == s.protocolCount.Keys + {Classify(p.protocol)}
    ensures Count(Tally(s, p).protocolCount, k) == Count(s.protocolCount, k) + if Classify(p.protocol) == k then 1 else 0
  {
  }

  /** The map's keys are the four buckets, and each key holds the number of packets classified to it. */
  lemma {:induction false} AggregateCounts(packets: seq<Packet>)
    ensures Aggregate(packets).protocolCount.Keys == Buckets
    ensures forall k :: Count(Aggregate(packets).protocolCount, k) == Occurrences(packets, k)
  {
    if packets != [] {
      var n := |packets| - 1;
      var init, p := packets[..n], packets[n];
      AggregateCounts(init);
      SplitLast(packets);
      forall k
        ensures Count(Aggregate(packets).protocolCount, k) == Occurrences(packets, k)
      {
        TallyCount(Aggregate(init), p, k);
        OccurrencesAppend(init, p, k);
      }
      TallyCount(Aggregate(init), p, Others);
    }
  }

  lemma {:induction false} AggregateTotals(packets: seq<Packet>)
    ensures Aggregate(packets).totalPackets == |packets|
    ensures Aggregate(packets).totalDataTransferred == TotalSize(packets)
  {
    if packets != [] {
      var n := |packets| - 1;
      AggregateTotals(packets[..n]);
      SplitLast(packets);
      TotalSizeAppend(packets[..n], packets[n]);
    }
  }

  /** The bucket counts add up to the number of packets. */
  lemma {:induction false} BucketSumIsPacketCount(packets: seq<Packet>)
    ensures BucketSum(Aggregate(packets).protocolCount) == |packets|
  {
    if packets != [] {
      var n := |packets| - 1;
      BucketSumIsPacketCount(packets[..n]);
      var before, p := Aggregate(packets[..n]), packets[n];
      TallyCount(before, p, "TCP");
      TallyCount(before, p, "UDP");
      TallyCount(before, p, "ICMP");
      TallyCount(before, p, Others);
    }
  }

  /**
   After the loop: the map's keys are exactly the four buckets, each
   bucket holds the number of packets classified to it, the bucket counts
   add up to `totalPackets`, which is the number of packets, and
   `totalDataTransferred` is the sum of their sizes.
   */
  lemma AggregateMeaning(packets: seq<Packet>)
    ensures var s := Aggregate(packets);
      && s.protocolCount.Keys == Buckets
      && (forall k :: k in Buckets ==> s.protocolCount[k] == Occurrences(packets, k))
      && BucketSum(s.protocolCount) == s.totalPackets == |packets|
      && s.totalDataTransferred == TotalSize(packets)
  {
    AggregateCounts(packets);
    AggregateTotals(packets);
    BucketSumIsPacketCount(packets);
    var m := Aggregate(packets).protocolCount;
    forall k | k in Buckets
      ensures m[k] == Occurrences(packets, k)
    {
      assert Count(m, k) == Occurrences(packets, k);
    }
  }

  // ---------------------------------------------------------------------
  // Why the parallel loop computes the same results
  // ---------------------------------------------------------------------

  /** Key-wise sum of two bucket maps; a key missing from one map counts as 0 there. */
  function MergeCounts(m1: map<string, int>, m2: map<string, int>): (m: map<string, int>)
    ensures m.Keys == m1.Keys + m2.Keys
    ensures forall k :: Count(m, k) == Count(m1, k) + Count(m2, k)
  {
    map k | k in m1.Keys + m2.Keys :: Count(m1, k) + Count(m2, k)
  }

  /** Combining two partial results: the totals add, and the maps add key by key. */
  function Merge(a: Stats, b: Stats): Stats {
    Stats(
      a.totalPackets + b.totalPackets,
      a.totalDataTransferred + b.totalDataTransferred,
      MergeCounts(a.protocolCount, b.protocolCount))
  }

  /** Two maps with the same keys and the same counts are equal. */
  lemma SameCounts(m1: map<string, int>, m2: map<string, int>)
    requires m1.Keys == m2.Keys
    requires forall k :: Count(m1, k) == Count(m2, k)
    ensures m1 == m2
  {
    forall k | k in m1
      ensures m1[k] == m2[k]
    {
      assert Count(m1, k) == Count(m2, k);
    }
  }

  lemma MergeCommutes(a: Stats, b: Stats)
    ensures Merge(a, b) == Merge(b, a)
  {
    SameCounts(Merge(a, b).protocolCount, Merge(b, a).protocolCount);
  }

  lemma MergeAssociates(a: Stats, b: Stats, c: Stats)
    ensures Merge(Merge(a, b), c) == Merge(a, Merge(b, c))
  {
    SameCounts(Merge(Merge(a, b), c).protocolCount, Merge(a, Merge(b, c)).protocolCount);
  }

  /** Merging with the initial state changes nothing once the four buckets are present. */
  lemma MergeInitial(a: Stats)
    requires Buckets <= a.protocolCount.Keys
    ensures Merge(a, Initial) == a
  {
    SameCounts(Merge(a, Initial).protocolCount, a.protocolCount);
  }

  /** Tallying one packet after a merge is tallying it into the second part. */
  lemma MergeTally(a: Stats, b: Stats, p: Packet)
    ensures Merge(a, Tally(b, p)) == Tally(Merge(a, b), p)
  {
    var l := Merge(a, Tally(b, p)).protocolCount;
    var r := Tally(Merge(a, b), p).protocolCount;
    forall k
      ensures Count(l, k) == Count(r, k)
    {
      TallyCount(b, p, k);
      TallyCount(Merge(a, b), p, k);
    }
    TallyCount(b, p, Others);
    TallyCount(Merge(a, b), p, Others);
    SameCounts(l, r);
  }

  /**
   The results on `a + b` are the merge of the results on `a` and on `b`:
   two workers on the two ranges, combined afterwards, compute what one
   worker computes on the whole.
   */
  lemma {:induction false} AggregateConcat(a: seq<Packet>, b: seq<Packet>)
    ensures Aggregate(a + b) == Merge(Aggregate(a), Aggregate(b))
  {
    if b == [] {
      assert a + b == a;
      AggregateCounts(a);
      MergeInitial(Aggregate(a));
    } else {
      var n := |b| - 1;
      AggregateConcat(a, b[..n]);
      ConcatSplitLast(a, b);
      AggregateSnoc(a + b[..n], b[n]);
      MergeTally(Aggregate(a), Aggregate(b[..n]), b[n]);
    }
  }

  /** All the ranges, in order. */
  function Flatten(ranges: seq<seq<Packet>>): seq<Packet> {
    if ranges == [] then [] else Flatten(ranges[..|ranges| - 1]) + ranges[|ranges| - 1]
  }

  /** The workers' partial results on `ranges`, combined one after another. */
  function CombineWorkers(ranges: seq<seq<Packet>>): Stats {
    if ranges == [] then Initial
    else Merge(CombineWorkers(ranges[..|ranges| - 1]), Aggregate(ranges[|ranges| - 1]))
  }

  /**
   However the packets are split into consecutive ranges, one per worker,
   combining the workers' results gives the single-worker results: the
   outcome does not depend on the number of workers.
   */
  lemma {:induction false} AnyWorkerCountSameResult(ranges: seq<seq<Packet>>)
    ensures CombineWorkers(ranges) == Aggregate(Flatten(ranges))
  {
    if ranges != [] {
      var n := |ranges| - 1;
      AnyWorkerCountSameResult(ranges[..n]);
      AggregateConcat(Flatten(ranges[..n]), ranges[n]);
    }
  }

  /** Moving one packet to the end does not change the results. */
  lemma MoveToEnd(b1: seq<Packet>, p: Packet, b2: seq<Packet>)
    ensures Aggregate(b1 + [p] + b2) == Aggregate(b1 + b2 + [p])
  {
    var x, y, z := Aggregate(b1), Aggregate([p]), Aggregate(b2);
    AggregateConcat(b1 + [p], b2);
    AggregateConcat(b1, [p]);
    MergeAssociates(x, y, z);
    MergeCommutes(y, z);
    MergeAssociates(x, z, y);
    AggregateConcat(b1, b2);
    AggregateConcat(b1 + b2, [p]);
  }

  /** An occurrence of `p` in `b` splits `b` around it. */
  lemma SplitAround(b: seq<Packet>, p: Packet) returns (b1: seq<Packet>, b2: seq<Packet>)
    requires p in multiset(b)
    ensures b == b1 + [p] + b2
    ensures multiset(b1 + b2) == multiset(b) - multiset{p}
  {
    assert p in b;
    var j :| 0 <= j < |b| && b[j] == p;
    b1, b2 := b[..j], b[j + 1..];
    assert b == b1 + [p] + b2;
    assert multiset(b) == multiset(b1) + multiset{p} + multiset(b2);
  }

  /**
   The results depend only on which packets there are, not on their
   order: the critical sections may bump the map in any interleaving.
   */
  lemma {:induction false} AggregateOrderIndependent(a: seq<Packet>, b: seq<Packet>)
    requires multiset(a) == multiset(b)
    ensures Aggregate(a) == Aggregate(b)
    decreases |a|
  {
    if a == [] {
      assert b == [] by {
        assert |multiset(b)| == 0;
      }
    } else {
      var n := |a| - 1;
      var p := a[n];
      SplitLast(a);
      assert multiset(a[..n]) == multiset(a) - multiset{p};
      var b1, b2 := SplitAround(b, p);
      AggregateOrderIndependent(a[..n], b1 + b2);
      MoveToEnd(b1, p, b2);
      AggregateSnoc(b1 + b2, p);
    }
  }

  /**
   The C++ accumulators are an `int` count, `int` bucket counts and a
   `long long` byte total; with fewer packets than the largest `int`,
   none of them can overflow, so the unbounded results here are the
   values the program computes.
   */
  lemma {:induction false} ResultsFitSourceTypes(packets: seq<Packet>)
    requires |packets| <= IntMax
    ensures var s := Aggregate(packets);
      && 0 <= s.totalPackets <= IntMax
      && (forall k :: k in s.protocolCount ==> 0 <= s.protocolCount[k] <= IntMax)
      && LongMin <= s.totalDataTransferred <= LongMax
  {
    AggregateMeaning(packets);
    TotalSizeBound(packets);
    var s := Aggregate(packets);
    forall k | k in s.protocolCount
      ensures s.protocolCount[k] <= |packets|
    {
      assert k in Buckets;
      OccurrencesBound(packets, k);
    }
    assert |packets| * (-IntMin) <= IntMax * (-IntMin);
  }

  lemma OccurrencesBound(packets: seq<Packet>, k: string)
    ensures Occurrences(packets, k) <= |packets|
  {
    var bs := BucketsOf(packets);
    assert multiset(bs)[k] <= |multiset(bs)|;
  }

  lemma {:induction false} TotalSizeBound(packets: seq<Packet>)
    ensures |packets| * IntMin <= TotalSize(packets) <= |packets| * IntMax
  {
    if packets != [] {
      TotalSizeBound(packets[1..]);
    }
  }
}
