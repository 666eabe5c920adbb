# Network traffic analyser, modelled in Dafny

The program reads a traffic log. Each line holds one packet record:
`<timestamp> <srcIP> <destIP> <protocol> <packetSize>`, separated by
whitespace. The program computes:

- the number of packets;
- the total bytes;
- a count per protocol bucket: `TCP`, `UDP`, `ICMP`, and `Others` for any
  other protocol.

This model covers the three parts of `main.cpp` that do this work:

- **Parsing one record** (`parsePacket`). The record is read by a chain of
  C++ stream extractions in the classic "C" locale, modelled in
  `StreamExtraction`. A string extraction skips whitespace and reads a
  maximal run of non-whitespace. An `int` extraction skips whitespace and
  reads an optional sign and at least one digit. It stops at the first
  non-digit, and it fails when the value does not fit in 32 bits.
  `PacketParser` chains four string extractions and one `int` extraction.
  The throw is modelled as `None`. `Words` is an independent
  character-by-character definition of a line's words. It is used to
  state the parser's behaviour exactly: a line is accepted iff it has at
  least five words and the fifth begins with an in-range integer. The
  fields are then the first four words and that integer. `FormatPacket`
  writes a record back as a line. Every parsed record has text fields
  that are single words (non-empty, no whitespace). Parsing a formatted
  record whose four text fields are single words gives the record back,
  so formatting any parsed record and parsing it again gives the same
  record.
- **Loading the file** (`loadPackets`). `PacketLoader.LoadPackets` is the
  line loop over the file's lines, given in order:
  - A line of length zero is skipped silently.
  - Every other line goes to the parser, including one made only of
    whitespace.
  - A line the parser accepts adds its packet to the result.
  - A line the parser rejects adds one diagnostic.
- **Analysis** (the loop in `main`). `TrafficAnalysis.AnalyzePackets` is
  the loop, run on one worker. The lemmas then show that any split of the
  packets into worker ranges gives the same results. They also show that
  merging partial results is commutative and associative, and that the
  packets' order does not matter. These are what the OpenMP reductions and
  the critical section depend on.
  `Pipeline.RunAnalysis` runs the loader and then the analysis, as `main`
  does.

The model follows the code's stream semantics. A size field that starts
with digits and continues with other characters is accepted. For
example, `100abc` and `1.5` read as 100 and 1. Only a field with no
leading integer, or an out-of-range one, rejects the line. Tokens after
the fifth are ignored.

## Model

| member | source | states |
|---|---|---|
| StreamExtraction.ExtractWord | main.cpp:27 | `ss >> str` fails exactly when only whitespace is left. Otherwise the text skipped is whitespace, the word read is non-empty and free of whitespace, and what follows is empty or starts with whitespace (so the word is maximal). |
| StreamExtraction.ExtractWordReadsFirstWord | main.cpp:27 | A string extraction fails iff the text has no words. Otherwise it reads the first word of the text, and the rest holds exactly the remaining words. |
| StreamExtraction.ExtractWordOfWord | main.cpp:27 | A word followed by whitespace or the end is read as that word, and what follows is left unread. |
| StreamExtraction.ExtractWordAfterSpace | main.cpp:27 | A leading space is skipped before a word is read. |
| StreamExtraction.Words | main.cpp:27 | A text starting with a non-whitespace character has a first word that starts with that character. |
| StreamExtraction.WordsAreWords | main.cpp:27 | Every word of a text is non-empty and contains no whitespace. |
| StreamExtraction.WordsOfLeadingWord | main.cpp:27 | A text that begins with a maximal run of non-whitespace has that run as its first word, followed by the words of the rest. |
| StreamExtraction.Span | main.cpp:27 | The length of the longest prefix in a character class: every character before it is in the class, and the one at it is not. |
| StreamExtraction.DigitsValue | main.cpp:27 | The decimal digits of a natural number read back as that number. |
| StreamExtraction.IntPrefixOfDigits | main.cpp:27 | An `int` prefix is a sign plus the value of the maximal digit run, when it fits in 32 bits. |
| StreamExtraction.IntPrefixOfDecimal | main.cpp:27 | `>> int` on a decimal numeral followed by a non-digit gives the numeral's value when it fits in an `int`, and fails otherwise. Trailing text is ignored. |
| StreamExtraction.IntPrefixStopsAtSpace | main.cpp:27 | An `int` extraction stops at whitespace: what follows the word does not change it. |
| StreamExtraction.ExtractIntReadsFirstWord | main.cpp:27 | `>> int` fails on a text with no words. Otherwise it reads the integer prefix of the first word. |
| StreamExtraction.ExtractIntOfDecimal | main.cpp:27 | `>> int` on a space, a numeral and a non-digit tail round-trips the value, or fails if it is out of range. |
| PacketParser.ExtractFieldsReadsWords | main.cpp:27-29 | The extraction chain, from any point after some words are read, succeeds iff the words read plus the words left number at least five and the fifth has an integer prefix. The packet is then those words and that integer. |
| PacketParser.ParsePacketReadsWords | main.cpp:23-32 | `parsePacket` returns without throwing iff the line has at least five words and the fifth begins with an in-range integer. The packet's fields are then the first four words and the size is that integer. Anything after it is ignored. |
| PacketParser.FewerThanFiveWordsFails | main.cpp:27-28 | A line with fewer than five words throws. |
| PacketParser.NonNumericSizeFails | main.cpp:27-28 | A line whose fifth word has no digit after its optional sign (`abc`, `+`, `-x`) throws. |
| PacketParser.BlankLineFails | main.cpp:27-28 | A line of only whitespace throws. |
| PacketParser.OutOfRangeSizeFails | main.cpp:27-28 | A line whose fifth word is an optional sign (`+` or `-`), a run of digits (leading zeros allowed) whose signed value lies outside the range of an `int`, and then a non-digit or the end, throws, however the words are spaced. |
| PacketParser.OneWordFails | main.cpp:27-28 | A one-word line throws at the second extraction. |
| PacketParser.ExtractFieldsOfSpaced | main.cpp:27 | The rest of the chain over space-separated words and a numeral gives the packet of those words when the numeral is in range, and fails otherwise. |
| PacketParser.ParseSpacedFields | main.cpp:23-32 | A line of four single-word fields and a numeral parses to the packet of those fields and that value, or fails if the value is out of range. |
| PacketParser.ParseFormatted | main.cpp:23-32 | Round trip: parsing a formatted record whose four text fields are single words (non-empty, no whitespace) gives the record back, whatever non-digit text follows it. |
| PacketParser.ParsedFieldsAreWords | main.cpp:27 | The four text fields of every parsed packet are single words. |
| PacketParser.ReformatParsed | main.cpp:23-32 | A packet parsed from any line, formatted and parsed again, gives the same packet. |
| PacketLoader.LoadPackets | main.cpp:44-52 | The loop returns exactly the packets of the accepted lines, in order, and writes one diagnostic per rejected line. |
| PacketLoader.Positions | main.cpp:44-52 | The positions of the lines with a property: in range, strictly increasing, and complete. |
| PacketLoader.LoadedFollowsAcceptedLines | main.cpp:44-52 | The j-th loaded packet is the parse of the j-th accepted line, and there are as many packets as accepted lines. |
| PacketLoader.DiagnosticsCountRejectedLines | main.cpp:45-50 | The number of diagnostics is the number of non-empty lines the parser rejects. |
| PacketLoader.LoadConcat | main.cpp:44-52 | Loading `a + b` is loading `a` and then `b`: no state carries from one line to the next. |
| PacketLoader.EveryLineAccountedFor | main.cpp:44-52 | Loaded packets plus diagnostics plus empty lines equals the number of lines. |
| PacketLoader.EmptyLineIsSilent | main.cpp:45 | An empty line anywhere changes neither the packets nor the diagnostics. |
| PacketLoader.LoadOne | main.cpp:44-52 | A one-line file loads that line's packet if it is accepted, and gives one diagnostic if it is rejected. |
| PacketLoader.RejectedLineIsSkipped | main.cpp:46-50 | A rejected line gives one diagnostic. The lines around it load as if it were absent. |
| PacketLoader.WhitespaceLineIsDiagnosed | main.cpp:45-50 | A non-empty whitespace-only line is not skipped silently: it gives one diagnostic and no packet. |
| PacketLoader.FormattedAccepted | main.cpp:44-50 | A formatted record with single-word fields is an accepted line holding that record. |
| TrafficAnalysis.Classify | main.cpp:93-96 | TCP, UDP and ICMP map to themselves. Every other protocol maps to Others. The result is always one of the four buckets. |
| TrafficAnalysis.AnalyzePackets | main.cpp:75-106 | The loop's results are those of `Aggregate`. The keys are exactly the four buckets, and each bucket's value is the number of packets classified to it. `totalPackets` is the number of packets and `totalDataTransferred` is the sum of their sizes. |
| TrafficAnalysis.AggregateStep | main.cpp:89-105 | One iteration of the loop body extends the results by its packet. |
| TrafficAnalysis.TallyCount | main.cpp:99-102 | One iteration adds its packet's bucket as a key, adds 1 to that bucket, and leaves every other count unchanged. |
| TrafficAnalysis.AggregateCounts | main.cpp:80-102 | After the loop the map's keys are exactly the four buckets, and each key counts the packets classified to it. |
| TrafficAnalysis.AggregateTotals | main.cpp:88-106 | `totalPackets` is the number of packets and `totalDataTransferred` is the sum of their sizes. |
| TrafficAnalysis.BucketSumIsPacketCount | main.cpp:88-102 | The sum of the four bucket counts is the number of packets. |
| TrafficAnalysis.AggregateMeaning | main.cpp:75-106 | All of the above together, and the sum of the map's values equals `totalPackets`. |
| TrafficAnalysis.TotalSizeAppend | main.cpp:105 | Adding a packet at the end adds its size to the byte total. |
| TrafficAnalysis.OccurrencesAppend | main.cpp:93-102 | Adding a packet at the end adds 1 to its bucket's occurrences and nothing to the other buckets. |
| TrafficAnalysis.MergeCounts | main.cpp:99-102 | Merging two bucket maps adds them key by key over the union of their keys. |
| TrafficAnalysis.MergeCommutes | main.cpp:87 | Combining partial results is commutative. |
| TrafficAnalysis.MergeAssociates | main.cpp:87 | Combining partial results is associative. |
| TrafficAnalysis.MergeInitial | main.cpp:79-87 | The initial state is a unit for combining, once the four buckets exist. |
| TrafficAnalysis.MergeTally | main.cpp:87-105 | Tallying a packet after a merge is the same as tallying it into the second part. |
| TrafficAnalysis.AggregateConcat | main.cpp:87-106 | The results on `a + b` are the merge of the results on `a` and on `b`: two workers on two ranges compute what one worker computes. |
| TrafficAnalysis.AnyWorkerCountSameResult | main.cpp:87-106 | For any split into consecutive worker ranges, combining the workers' results gives the single-worker results. |
| TrafficAnalysis.MoveToEnd | main.cpp:99-102 | Moving one packet to the end does not change the results. |
| TrafficAnalysis.AggregateOrderIndependent | main.cpp:99-102 | The results depend only on the multiset of packets, so any interleaving of the critical sections gives the same map. |
| TrafficAnalysis.ResultsFitSourceTypes | main.cpp:75-77 | With at most 2^31-1 packets, the count and the bucket counts fit in `int` and the byte total fits in `long long`. The unbounded model is therefore exact. |
| TrafficAnalysis.OccurrencesBound | main.cpp:101 | No bucket counts more packets than there are. |
| TrafficAnalysis.TotalSizeBound | main.cpp:105 | The byte total lies between the packet count times the smallest `int` and the packet count times the largest. |
| Pipeline.RunAnalysis | main.cpp:63-106 | Load, then analyse. The results are the analysis of the accepted lines' packets. `totalPackets` is the number of accepted lines and equals the sum of the bucket counts. The byte total is the sum of the loaded sizes. There is one diagnostic per rejected line. |
| Pipeline.LoadExample | main.cpp:44-52 | Two records, a one-word line and a third record load as the three records, with one diagnostic. |
| Pipeline.AggregateExample | main.cpp:75-106 | Two TCP packets and one UDP packet of 100, 200 and 50 bytes give totalPackets 3, 350 bytes, TCP 2, UDP 1, ICMP 0 and Others 0. |
| Pipeline.ExampleFile | main.cpp:63-106 | The four-line example file gives those results and one diagnostic. |

## Left out

- The file itself is not modelled. This covers opening it, the open-failure exception and its message, and `file.close()` (main.cpp:37-42, 54, 64-69). The loader receives the file's lines as a sequence. Splitting the file into lines (`getline`) is also not modelled.
- OpenMP is not modelled: the threads, the `reduction` clause and the `critical` section. The analysis is the sequential loop. The merge, split and reorder lemmas state why the parallel schedule gives the same results. A data race is not modelled because the critical section excludes it.
- Time measurement (`high_resolution_clock`, `duration_cast`) is not modelled. It does not affect the results.
- Console output is not modelled: the report lines, the text of the diagnostics, and the fact that the map is printed in key order. Diagnostics are counted, not printed.
- Only the classic "C" locale is modelled. Under another locale the whitespace classes and digit grouping would differ.
- A line is a `std::string` of bytes; here each byte is one Dafny `char`. Only ASCII whitespace and ASCII digits are ever classified, so every other byte, multi-byte encodings included, simply counts as part of a word.
- The partial writes into `packet` before a failed extraction are not modelled. The record is discarded when `parsePacket` throws, so they have no effect.
- PacketParser.ParsePacket is the extraction chain written as a recursion over the fields already read (`ExtractFields`), not as five nested steps. The order of the extractions and where they fail are the same.
- TrafficAnalysis.AnalyzePackets: the counters are unbounded integers rather than `int` and `long long`. `ResultsFitSourceTypes` shows they cannot overflow while there are at most 2^31-1 packets. Overflow beyond that is not modelled.
- Pipeline.ExampleFile: the example lines are stated as formatted records with any single-word text fields, rather than as the literal strings.
