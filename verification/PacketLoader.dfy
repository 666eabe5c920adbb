/**
 `loadPackets`: the line loop of the loader.  Opening and reading the
 file are left to the caller, which hands over the file's lines in
 order.  A line of length zero is skipped without a word; every other
 line, including one of nothing but whitespace, goes to `parsePacket`.
 A line that parses is appended to the result, and a line that does not
 produces one diagnostic on the error stream and is otherwise skipped.
 */
module PacketLoader {
  import opened Packets
  import opened StreamExtraction
  import opened PacketParser

  /** A line that is handed to the parser and accepted. */
  predicate Accepted(line: string) {
    line != [] && ParsePacket(line).Some?
  }

  /** A line that is handed to the parser and rejected: it earns one diagnostic. */
  predicate Rejected(line: string) {
    line != [] && ParsePacket(line).None?
  }

  /** The packets loaded from `lines`: the parse of every accepted line, in file order. */
  function Loaded(lines: seq<string>): seq<Packet>
  {
    if lines == [] then []
    else
      var last := lines[|lines| - 1];
      Loaded(lines[..|lines| - 1]) + if Accepted(last) then [ParsePacket(last).value] else []
  }

  /** The number of diagnostics loading `lines` writes: one per rejected line. */
  function Diagnostics(lines: seq<string>): nat
  {
    if lines == [] then 0
    else Diagnostics(lines[..|lines| - 1]) + if Rejected(lines[|lines| - 1]) then 1 else 0
  }

  /**
   The loop of `loadPackets` over the file's lines: returns the loaded
   packets and the number of diagnostics written.
   */
  method LoadPackets(lines: seq<string>) returns (packets: seq<Packet>, diagnostics: nat)
    ensures packets == Loaded(lines)
    ensures diagnostics == Diagnostics(lines)
  {
    packets := [];
    diagnostics := 0;
    var i := 0;
    while i < |lines|
      invariant 0 <= i <= |lines|
      invariant packets == Loaded(lines[..i])
      invariant diagnostics == Diagnostics(lines[..i])
    {
      var line := lines[i];
      if line != [] {
        match ParsePacket(line)
        case Some(packet) =>
          packets := packets + [packet];
        case None =>
          diagnostics := diagnostics + 1;
      }
      assert lines[..i + 1][..i] == lines[..i];
      i := i + 1;
    }
    assert lines[..i] == lines;
  }

  /**
   The positions in `lines` of the lines satisfying `keep`, in increasing
   order: an independent statement of "which lines, in which order".
   */
  function Positions(lines: seq<string>, keep: string -> bool): (ps: seq<nat>)
    ensures forall j :: 0 <= j < |ps| ==> ps[j] < |lines| && keep(lines[ps[j]])
    ensures forall j, k :: 0 <= j < k < |ps| ==> ps[j] < ps[k]
    ensures forall i :: 0 <= i < |lines| && keep(lines[i]) ==> i in ps
  {
    if lines == [] then []
    else
      var n := |lines| - 1;
      var init := Positions(lines[..n], keep);
      assert forall j :: 0 <= j < |init| ==> lines[init[j]] == lines[..n][init[j]];
      init + if keep(lines[n]) then [n] else []
  }

  /**
   Loading keeps exactly the accepted lines, in file order: the j-th
   loaded packet is the parse of the j-th accepted line.
   */
  lemma {:induction false} LoadedFollowsAcceptedLines(lines: seq<string>)
    ensures var ps := Positions(lines, Accepted);
      && |Loaded(lines)| == |ps|
      && forall j :: 0 <= j < |ps| ==> Loaded(lines)[j] == ParsePacket(lines[ps[j]]).value
  {
    if lines != [] {
      var n := |lines| - 1;
      LoadedFollowsAcceptedLines(lines[..n]);
      var ps := Positions(lines[..n], Accepted);
      forall j | 0 <= j < |ps|
        ensures lines[ps[j]] == lines[..n][ps[j]]
      {
      }
    }
  }

  /** The diagnostics are exactly one per rejected line. */
  lemma {:induction false} DiagnosticsCountRejectedLines(lines: seq<string>)
    ensures Diagnostics(lines) == |Positions(lines, Rejected)|
  {
    if lines != [] {
      DiagnosticsCountRejectedLines(lines[..|lines| - 1]);
    }
  }

  /** Loading the lines of `a` and then those of `b` is loading `a + b`: the loader keeps no state between lines. */
  lemma {:induction false} LoadConcat(a: seq<string>, b: seq<string>)
    ensures Loaded(a + b) == Loaded(a) + Loaded(b)
    ensures Diagnostics(a + b) == Diagnostics(a) + Diagnostics(b)
  {
    if b == [] {
      assert a + b == a;
    } else {
      var n := |b| - 1;
      LoadConcat(a, b[..n]);
      assert (a + b)[..|a + b| - 1] == a + b[..n];
      assert (a + b)[|a + b| - 1] == b[n];
    }
  }

  /** Every line is accounted for: loaded, diagnosed, or of length zero. */
  lemma {:induction false} EveryLineAccountedFor(lines: seq<string>)
    ensures |Loaded(lines)| + Diagnostics(lines) + |Positions(lines, EmptyLine)| == |lines|
  {
    if lines != [] {
      EveryLineAccountedFor(lines[..|lines| - 1]);
    }
  }

  predicate EmptyLine(line: string) {
    line == []
  }

  /** A line of length zero anywhere in the file changes neither the packets nor the diagnostics. */
  lemma EmptyLineIsSilent(a: seq<string>, b: seq<string>)
    ensures Loaded(a + [""] + b) == Loaded(a + b)
    ensures Diagnostics(a + [""] + b) == Diagnostics(a + b)
  {
    LoadConcat(a + [""], b);
    LoadConcat(a, [""]);
    LoadConcat(a, b);
    assert [""][..0] == [];
  }

  /**
   A rejected line anywhere in the file earns one diagnostic and nothing
   else: the lines before and after it are loaded as without it.
   */
  lemma RejectedLineIsSkipped(a: seq<string>, line: string, b: seq<string>)
    requires Rejected(line)
    ensures Loaded(a + [line] + b) == Loaded(a + b)
    ensures Diagnostics(a + [line] + b) == Diagnostics(a + b) + 1
  {
    LoadConcat(a + [line], b);
    LoadConcat(a, [line]);
    LoadConcat(a, b);
    LoadOne(line);
    assert Loaded(a + [line]) == Loaded(a);
  }

  /** Loading a file of one line. */
  lemma LoadOne(line: string)
    ensures Loaded([line]) == if Accepted(line) then [ParsePacket(line).value] else []
    ensures Diagnostics([line]) == if Rejected(line) then 1 else 0
  {
    assert [line][..0] == [];
  }

  /** A non-empty line of nothing but whitespace is not skipped silently: it is rejected and diagnosed. */
  lemma WhitespaceLineIsDiagnosed(a: seq<string>, line: string, b: seq<string>)
    requires line != [] && AllSpace(line)
    ensures Loaded(a + [line] + b) == Loaded(a + b)
    ensures Diagnostics(a + [line] + b) == Diagnostics(a + b) + 1
  {
    BlankLineFails(line);
    RejectedLineIsSkipped(a, line, b);
  }

  /** A formatted record with single-word fields is an accepted line holding that record. */
  lemma FormattedAccepted(p: Packet)
    requires WordFields(p)
    ensures Accepted(FormatPacket(p)) && ParsePacket(FormatPacket(p)).value == p
  {
    ParseFormatted(p, "");
    assert FormatPacket(p) + "" == FormatPacket(p);
  }
}
