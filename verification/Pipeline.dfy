/**
 `main` without its clock readings and console output: the lines of the
 traffic file are loaded into packets, and the analysis loop runs over
 the loaded packets.
 */
module Pipeline {
  import opened Packets
  import opened StreamExtraction
  import opened PacketParser
  import opened PacketLoader
  import opened TrafficAnalysis
  import opened Sequences

  /**
   Loads `lines` and analyses the packets: the results are those of the
   analysis loop over the accepted lines' packets, `totalPackets` is the
   number of accepted lines, the bucket counts add up to it, and one
   diagnostic is written per rejected line.
   */
  method RunAnalysis(lines: seq<string>) returns (result: Stats, diagnostics: nat)
    ensures result == Aggregate(Loaded(lines))
    ensures result.totalPackets == |Positions(lines, Accepted)|
    ensures BucketSum(result.protocolCount) == result.totalPackets
    ensures result.totalDataTransferred == TotalSize(Loaded(lines))
    ensures diagnostics == |Positions(lines, Rejected)|
  {
    var packets;
    packets, diagnostics := LoadPackets(lines);
    var totalPackets, totalDataTransferred, protocolCount := AnalyzePackets(packets);
    result := Stats(totalPackets, totalDataTransferred, protocolCount);
    LoadedFollowsAcceptedLines(lines);
    DiagnosticsCountRejectedLines(lines);
    AggregateMeaning(packets);
  }

  /** Two records, a line of one word and a third record load as the three records with one diagnostic. */
  lemma LoadExample(p1: Packet, p2: Packet, bad: string, p3: Packet)
    requires WordFields(p1) && WordFields(p2) && WordFields(p3) && IsWord(bad)
    ensures Loaded([FormatPacket(p1), FormatPacket(p2), bad, FormatPacket(p3)]) == [p1, p2, p3]
    ensures Diagnostics([FormatPacket(p1), FormatPacket(p2), bad, FormatPacket(p3)]) == 1
  {
    var l0, l1, l3 := FormatPacket(p1), FormatPacket(p2), FormatPacket(p3);
    Displays(l0, l1, bad, l3);
    Displays(p1, p2, p3, p3);
    FormattedAccepted(p1);
    LoadConcat([], [l0]);
    LoadOne(l0);
    assert Loaded([l0]) == [p1];
    FormattedAccepted(p2);
    LoadConcat([l0], [l1]);
    LoadOne(l1);
    assert Loaded([l0, l1]) == [p1, p2];
    OneWordFails(bad);
    LoadConcat([l0, l1], [bad]);
    LoadOne(bad);
    assert Loaded([l0, l1, bad]) == [p1, p2];
    FormattedAccepted(p3);
    LoadConcat([l0, l1, bad], [l3]);
    LoadOne(l3);
  }

  /**
   The file
     t1 10.0.0.1 10.0.0.2 TCP 100
     t2 10.0.0.3 10.0.0.4 UDP 200
     badline
     t3 10.0.0.5 10.0.0.6 TCP 50
   stated for any single-word text fields: three packets of 350 bytes in
   all, two TCP, one UDP, none ICMP or Others, and one diagnostic, for
   the third line.
   */
  lemma ExampleFile(p1: Packet, p2: Packet, bad: string, p3: Packet)
    requires WordFields(p1) && WordFields(p2) && WordFields(p3) && IsWord(bad)
    requires p1.protocol == "TCP" && p2.protocol == "UDP" && p3.protocol == "TCP"
    requires p1.packetSize == 100 && p2.packetSize == 200 && p3.packetSize == 50
    ensures var lines := [FormatPacket(p1), FormatPacket(p2), bad, FormatPacket(p3)];
      && Aggregate(Loaded(lines)) == Stats(3, 350, map["TCP" := 2, "UDP" := 1, "ICMP" := 0, "Others" := 0])
      && Diagnostics(lines) == 1
  {
    LoadExample(p1, p2, bad, p3);
    AggregateExample(p1, p2, p3);
  }

  /** The analysis of two TCP packets and one UDP packet of 100, 200 and 50 bytes. */
  lemma AggregateExample(p1: Packet, p2: Packet, p3: Packet)
    requires p1.protocol == "TCP" && p2.protocol == "UDP" && p3.protocol == "TCP"
    requires p1.packetSize == 100 && p2.packetSize == 200 && p3.packetSize == 50
    ensures Aggregate([p1, p2, p3]) == Stats(3, 350, map["TCP" := 2, "UDP" := 1, "ICMP" := 0, "Others" := 0])
  {
    var s1 := Tally(Initial, p1);
    var s2 := Tally(s1, p2);
    var s3 := Tally(s2, p3);
    Displays(p1, p2, p3, p3);
    AggregateSnoc([], p1);
    AggregateSnoc([p1], p2);
    AggregateSnoc([p1, p2], p3);
    assert Aggregate([p1, p2, p3]) == s3;
    InitialCountsZero();
    var expected := map["TCP" := 2, "UDP" := 1, "ICMP" := 0, "Others" := 0];
    forall k
      ensures Count(s3.protocolCount, k) == Count(expected, k)
    {
      TallyCount(Initial, p1, k);
      TallyCount(s1, p2, k);
      TallyCount(s2, p3, k);
    }
    TallyCount(Initial, p1, Others);
    TallyCount(s1, p2, Others);
    TallyCount(s2, p3, Others);
    SameCounts(s3.protocolCount, expected);
  }
}
