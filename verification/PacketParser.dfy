/**
 `parsePacket`: one log line becomes a `Packet` by five chained
 extractions from a string stream, `ss >> timestamp >> srcIP >> destIP
 >> protocol >> packetSize`: four words, then an `int`.  Once one
 extraction fails the stream is in a failed state and the chain as a
 whole fails, which the C++ code reports by throwing; here it is `None`.
 */
module PacketParser {
  import opened Packets
  import opened StreamExtraction
  import opened Sequences

  /** The number of string fields read before the size. */
  const TextFields: nat := 4

  /**
   The extraction chain after the words `read` have been extracted and
   `rest` is still unread: read further words until four are read, then
   the size.
   */
  function ExtractFields(read: seq<string>, rest: string): Option<Packet>
    requires |read| <= TextFields
    decreases TextFields - |read|
  {
    if |read| == TextFields then
      var packetSize :- ExtractInt(rest);
      Some(Packet(read[0], read[1], read[2], read[3], packetSize))
    else
      var word :- ExtractWord(rest);
      ExtractFields(read + [word.0], word.1)
  }

  /** Parses `<timestamp> <srcIP> <destIP> <protocol> <packetSize>`; None where `parsePacket` throws. */
  function ParsePacket(line: string): Option<Packet>
  {
    ExtractFields([], line)
  }

  lemma {:induction false} ExtractFieldsReadsWords(read: seq<string>, rest: string)
    requires |read| <= TextFields
    decreases TextFields - |read|
    ensures var ws := read + Words(rest);
      ExtractFields(read, rest).Some? <==> |ws| > TextFields && IntPrefix(ws[TextFields]).Some?
    ensures var ws := read + Words(rest);
      ExtractFields(read, rest).Some? ==>
        ExtractFields(read, rest).value == Packet(ws[0], ws[1], ws[2], ws[3], IntPrefix(ws[4]).value)
  {
    ExtractWordReadsFirstWord(rest);
    if |read| == TextFields {
      ExtractIntReadsFirstWord(rest);
    } else if ExtractWord(rest).Some? {
      var (w, rest') := ExtractWord(rest).value;
      ExtractFieldsReadsWords(read + [w], rest');
      AppendAssoc(read, [w], Words(rest'));
    }
  }

  /**
   A line parses exactly when it has at least five words and the fifth
   begins with an `int` (optional sign, at least one digit, a value in
   range).  The packet's text fields are then the first four words, in
   order, and its size is the integer at the start of the fifth word;
   whatever follows that integer, in the fifth word or after it, is ignored.
   */
  lemma ParsePacketReadsWords(line: string)
    ensures var ws := Words(line);
      ParsePacket(line).Some? <==> |ws| >= 5 && IntPrefix(ws[4]).Some?
    ensures var ws := Words(line);
      ParsePacket(line).Some? ==>
        ParsePacket(line).value == Packet(ws[0], ws[1], ws[2], ws[3], IntPrefix(ws[4]).value)
  {
    ExtractFieldsReadsWords([], line);
    assert [] + Words(line) == Words(line);
  }

  /** A line of fewer than five words is rejected, whatever those words are. */
  lemma FewerThanFiveWordsFails(line: string)
    requires |Words(line)| < 5
    ensures ParsePacket(line).None?
  {
    ParsePacketReadsWords(line);
  }

  /**
   A line whose fifth word has no digit after its optional sign (`abc`,
   `-x`, `+`, `.5`) is rejected.
   */
  lemma NonNumericSizeFails(line: string)
    requires |Words(line)| >= 5
    requires var w := Words(line)[4];
      w[SignLength(w)..] == [] || !IsDigit(w[SignLength(w)..][0])
    ensures ParsePacket(line).None?
  {
    ParsePacketReadsWords(line);
  }

  /** A line holding nothing but whitespace is rejected. */
  lemma BlankLineFails(line: string)
    requires AllSpace(line)
    ensures ParsePacket(line).None?
  {
  }

  /** The words `ws`, each preceded by one space. */
  function Spaced(ws: seq<string>): string {
    if ws == [] then "" else " " + ws[0] + Spaced(ws[1..])
  }

  /** The record as a log line: its five fields separated by single spaces, the size in decimal. */
  function FormatPacket(p: Packet): string {
    p.timestamp + Spaced([p.srcIP, p.destIP, p.protocol]) + " " + Decimal(p.packetSize)
  }

  /** One step of the chain over a space and a word. */
  lemma ExtractFieldsStep(read: seq<string>, w: string, rest: string)
    requires |read| < TextFields
    requires IsWord(w)
    requires rest == [] || IsSpace(rest[0])
    ensures ExtractFields(read, " " + w + rest) == ExtractFields(read + [w], rest)
  {
    ExtractWordAfterSpace(w, rest);
  }

  /** The packet of four text fields and a size, when the size fits in an `int`. */
  function PacketOf(fields: seq<string>, n: int): Option<Packet>
    requires |fields| == TextFields
  {
    if IntMin <= n <= IntMax then Some(Packet(fields[0], fields[1], fields[2], fields[3], n)) else None
  }

  lemma {:induction false} ExtractFieldsOfSpaced(read: seq<string>, ws: seq<string>, n: int, tail: string)
    requires |read| + |ws| == TextFields
    requires forall i :: 0 <= i < |ws| ==> IsWord(ws[i])
    requires tail == [] || !IsDigit(tail[0])
    decreases |ws|
    ensures ExtractFields(read, Spaced(ws) + (" " + Decimal(n) + tail)) == PacketOf(read + ws, n)
  {
    var last := " " + Decimal(n) + tail;
    if ws == [] {
      assert read + ws == read;
      assert Spaced(ws) + last == last;
      ExtractIntOfDecimal(n, tail);
    } else {
      var rest := Spaced(ws[1..]) + last;
      assert Spaced(ws) + last == " " + ws[0] + rest;
      assert rest[0] == ' ' by {
        if ws[1..] == [] { assert rest == last; }
      }
      ExtractFieldsStep(read, ws[0], rest);
      ExtractFieldsOfSpaced(read + [ws[0]], ws[1..], n, tail);
      ShiftFirst(read, ws);
    }
  }

  /**
   Parsing a formatted record gives the record back, when its text fields
   are single words; anything appended that does not begin with a digit
   (further fields, or letters glued to the size) does not change it.
   */
  lemma ParseFormatted(p: Packet, tail: string)
    requires IsWord(p.timestamp) && IsWord(p.srcIP) && IsWord(p.destIP) && IsWord(p.protocol)
    requires tail == [] || !IsDigit(tail[0])
    ensures ParsePacket(FormatPacket(p) + tail) == Some(p)
  {
    var ws := [p.srcIP, p.destIP, p.protocol];
    var fields := [p.timestamp] + ws;
    ParseSpacedFields(p.timestamp, ws, p.packetSize, tail);
    assert fields[0] == p.timestamp && fields[1] == p.srcIP && fields[2] == p.destIP && fields[3] == p.protocol;
  }

  /**
   A line whose fifth word begins with an optional sign and a run of
   digits whose value lies outside the range of an `int` (leading zeros
   and a `+` allowed, followed by anything that does not continue the
   digits) is rejected.
   */
  lemma OutOfRangeSizeFails(line: string, sign: string, ds: string, rest: string)
    requires sign == "" || sign == "+" || sign == "-"
    requires ds != [] && AllDigits(ds)
    requires rest == [] || !IsDigit(rest[0])
    requires |Words(line)| >= 5 && Words(line)[4] == sign + ds + rest
    requires Signed(sign == "-", DecimalValue(ds)).None?
    ensures ParsePacket(line).None?
  {
    var w := sign + ds + rest;
    assert SignLength(w) == |sign|;
    DropAppend(sign + ds, rest, |sign|);
    assert (sign + ds)[|sign|..] == ds;
    IntPrefixOfDigits(w, ds, rest);
    ParsePacketReadsWords(line);
  }

  /** A line of one word fails at the second extraction. */
  lemma OneWordFails(w: string)
    requires IsWord(w)
    ensures ParsePacket(w).None?
  {
    ParseFirstWord(w, "");
    assert w + "" == w;
  }

  /** The four text fields of `p` are single words, as they are after a parse. */
  predicate WordFields(p: Packet) {
    IsWord(p.timestamp) && IsWord(p.srcIP) && IsWord(p.destIP) && IsWord(p.protocol)
  }

  /** Every packet a parse produces has single-word text fields. */
  lemma ParsedFieldsAreWords(line: string)
    ensures ParsePacket(line).Some? ==> WordFields(ParsePacket(line).value)
  {
    ParsePacketReadsWords(line);
    WordsAreWords(line);
  }

  /**
   Round trip from the other side: a packet read from any line, formatted
   again, reads back as the same packet.
   */
  lemma ReformatParsed(line: string)
    ensures ParsePacket(line).Some? ==>
      ParsePacket(FormatPacket(ParsePacket(line).value)) == ParsePacket(line)
  {
    if ParsePacket(line).Some? {
      ParsedFieldsAreWords(line);
      ParseFormatted(ParsePacket(line).value, "");
      assert FormatPacket(ParsePacket(line).value) + "" == FormatPacket(ParsePacket(line).value);
    }
  }

  lemma ParseSpacedFields(first: string, ws: seq<string>, n: int, tail: string)
    requires |ws| == TextFields - 1
    requires IsWord(first) && forall i :: 0 <= i < |ws| ==> IsWord(ws[i])
    requires tail == [] || !IsDigit(tail[0])
    ensures ParsePacket(first + Spaced(ws) + " " + Decimal(n) + tail) == PacketOf([first] + ws, n)
  {
    var rest := Spaced(ws) + (" " + Decimal(n) + tail);
    Regroup(first, Spaced(ws), " ", Decimal(n), tail);
    assert Spaced(ws) == " " + ws[0] + Spaced(ws[1..]);
    ParseFirstWord(first, rest);
    ExtractFieldsOfSpaced([first], ws, n, tail);
  }

  /** The first extraction of the chain on a word followed by whitespace. */
  lemma ParseFirstWord(first: string, rest: string)
    requires IsWord(first)
    requires rest == [] || IsSpace(rest[0])
    ensures ParsePacket(first + rest) == ExtractFields([first], rest)
  {
    ExtractWordOfWord(first, rest);
    assert [] + [first] == [first];
  }

}
