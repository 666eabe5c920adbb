/**
 The two C++ stream extractions `parsePacket` relies on, for a
 `std::stringstream` in the classic "C" locale:

 - `ss >> str` into a `std::string` skips leading whitespace and then
   takes the longest run of non-whitespace characters; it fails when the
   stream holds nothing but whitespace.
 - `ss >> n` into an `int` skips leading whitespace, reads an optional
   `+` or `-` and then one or more decimal digits, stopping at the first
   non-digit; it fails when there is no digit or when the value does not
   fit in an `int`.

 Each extraction is a function from the unread text to its result and
 the text left unread.  `Words` is an independent, character-by-character
 definition of the whitespace-separated words of a text; the lemmas tie
 the extractions to it, and `Decimal` (the decimal numeral of an integer)
 is the inverse the integer extraction is proved against.
 */
module StreamExtraction {
  import opened Packets
  import opened Sequences

  /** Whitespace of the classic locale: space, tab, newline, vertical tab, form feed, carriage return. */
  predicate IsSpace(c: char) {
    c == ' ' || c == '\t' || c == '\n' || c == '\U{B}' || c == '\U{C}' || c == '\r'
  }

  predicate IsWordChar(c: char) {
    !IsSpace(c)
  }

  predicate IsDigit(c: char) {
    '0' <= c <= '9'
  }

  /** A non-empty text without whitespace: what a string extraction yields. */
  predicate IsWord(w: string) {
    w != [] && forall i :: 0 <= i < |w| ==> IsWordChar(w[i])
  }

  predicate AllSpace(s: string) {
    forall i :: 0 <= i < |s| ==> IsSpace(s[i])
  }

  predicate AllDigits(s: string) {
    forall i :: 0 <= i < |s| ==> IsDigit(s[i])
  }

  /** The classes of characters the extractions scan runs of. */
  datatype CharClass = Whitespace | NonWhitespace | DecimalDigit

  predicate InClass(c: char, p: CharClass) {
    match p
    case Whitespace => IsSpace(c)
    case NonWhitespace => IsWordChar(c)
    case DecimalDigit => IsDigit(c)
  }

  /** The length of the longest prefix of `s` whose characters all belong to class `p`. */
  function Span(s: string, p: CharClass): (n: nat)
    ensures n <= |s|
    ensures forall i :: 0 <= i < n ==> InClass(s[i], p)
    ensures n == |s| || !InClass(s[n], p)
  {
    if s == [] || !InClass(s[0], p) then 0 else 1 + Span(s[1..], p)
  }

  /** The three conditions of Span's contract determine it. */
  lemma SpanUnique(s: string, p: CharClass, n: nat)
    requires n <= |s|
    requires forall i :: 0 <= i < n ==> InClass(s[i], p)
    requires n == |s| || !InClass(s[n], p)
    ensures Span(s, p) == n
  {
  }

  /** A span that stops inside `a`, or at its end when `b` cannot continue it, ignores `b`. */
  lemma SpanAppend(a: string, b: string, p: CharClass)
    requires Span(a, p) < |a| || b == [] || !InClass(b[0], p)
    ensures Span(a + b, p) == Span(a, p)
  {
    var n := Span(a, p);
    assert forall i :: 0 <= i < n ==> (a + b)[i] == a[i];
    if n < |a| {
      assert (a + b)[n] == a[n];
    } else if b != [] {
      assert (a + b)[n] == b[0];
    }
    SpanUnique(a + b, p, n);
  }

  // ---------------------------------------------------------------------
  // String extraction
  // ---------------------------------------------------------------------

  /**
   `ss >> str`: None when the stream holds only whitespace; otherwise the
   word read and the unread rest.  The text read past is whitespace, the
   word is a maximal run of non-whitespace, and the rest is empty or
   begins with whitespace.
   */
  function ExtractWord(s: string): (r: Option<(string, string)>)
    ensures r.None? <==> AllSpace(s)
    ensures r.Some? ==>
      var skipped := |s| - |r.value.0| - |r.value.1|;
      && 0 <= skipped
      && AllSpace(s[..skipped])
      && s[skipped..] == r.value.0 + r.value.1
      && IsWord(r.value.0)
      && (r.value.1 == [] || IsSpace(r.value.1[0]))
  {
    var skip := Span(s, Whitespace);
    var n := Span(s[skip..], NonWhitespace);
    if n == 0 then
      None
    else
      assert s[skip..] == s[skip..][..n] + s[skip..][n..];
      Some((s[skip..][..n], s[skip..][n..]))
  }

  /**
   The whitespace-separated words of `s`, defined one character at a time:
   whitespace separates, and a non-whitespace character either begins the
   word of the character after it or, before whitespace or the end, forms
   a word of its own.
   */
  function Words(s: string): (ws: seq<string>)
    ensures s != [] && IsWordChar(s[0]) ==> ws != [] && ws[0] != [] && ws[0][0] == s[0]
  {
    if s == [] then []
    else if IsSpace(s[0]) then Words(s[1..])
    else if |s| == 1 || IsSpace(s[1]) then [[s[0]]] + Words(s[1..])
    else
      var ws := Words(s[1..]);
      [[s[0]] + ws[0]] + ws[1..]
  }

  /** A text that begins with a word of length `Span(s, NonWhitespace)` splits into that word and the words after it. */
  lemma {:induction false} WordsOfLeadingWord(s: string)
    requires s != [] && IsWordChar(s[0])
    ensures Words(s) == [s[..Span(s, NonWhitespace)]] + Words(s[Span(s, NonWhitespace)..])
  {
    var n := Span(s, NonWhitespace);
    if |s| == 1 || IsSpace(s[1]) {
      assert Span(s[1..], NonWhitespace) == 0;
      assert s[..n] == [s[0]];
    } else {
      WordsOfLeadingWord(s[1..]);
      assert Span(s[1..], NonWhitespace) == n - 1;
      assert s[1..][..n - 1] == s[1..n];
      assert s[1..][n - 1..] == s[n..];
      assert [s[0]] + s[1..n] == s[..n];
    }
  }

  /** Every word of a text is non-empty and free of whitespace. */
  lemma {:induction false} WordsAreWords(s: string)
    ensures forall i :: 0 <= i < |Words(s)| ==> IsWord(Words(s)[i])
  {
    if s == [] {
    } else if IsSpace(s[0]) {
      WordsAreWords(s[1..]);
    } else if |s| == 1 || IsSpace(s[1]) {
      WordsAreWords(s[1..]);
      assert Words(s) == [[s[0]]] + Words(s[1..]);
    } else {
      WordsAreWords(s[1..]);
      var ws := Words(s[1..]);
      assert IsWord(ws[0]);
      assert Words(s) == [[s[0]] + ws[0]] + ws[1..];
    }
  }

  /** The string extraction reads exactly the first of the text's words. */
  lemma {:induction false} ExtractWordReadsFirstWord(s: string)
    ensures ExtractWord(s).None? <==> Words(s) == []
    ensures ExtractWord(s).Some? ==> Words(s) == [ExtractWord(s).value.0] + Words(ExtractWord(s).value.1)
  {
    if s == [] {
    } else if IsSpace(s[0]) {
      ExtractWordReadsFirstWord(s[1..]);
      assert Span(s, Whitespace) == 1 + Span(s[1..], Whitespace);
      assert s[Span(s, Whitespace)..] == s[1..][Span(s[1..], Whitespace)..];
    } else {
      WordsOfLeadingWord(s);
      assert Span(s, Whitespace) == 0;
    }
  }

  /** Reading a word followed by whitespace or the end yields that word and leaves what follows. */
  lemma ExtractWordOfWord(w: string, rest: string)
    requires IsWord(w)
    requires rest == [] || IsSpace(rest[0])
    ensures ExtractWord(w + rest) == Some((w, rest))
  {
    var s := w + rest;
    SpanUnique(s, Whitespace, 0);
    SpanAppend(w, rest, NonWhitespace);
    SpanUnique(w, NonWhitespace, |w|);
    assert s[..|w|] == w && s[|w|..] == rest;
  }

  /** Reading after one space character: the space is skipped like any other whitespace. */
  lemma ExtractWordAfterSpace(w: string, rest: string)
    requires IsWord(w)
    requires rest == [] || IsSpace(rest[0])
    ensures ExtractWord(" " + w + rest) == Some((w, rest))
  {
    var s := " " + w + rest;
    ExtractWordOfWord(w, rest);
    assert Span(s, Whitespace) == 1 + Span(w + rest, Whitespace);
    assert s[1..] == w + rest;
  }

  // ---------------------------------------------------------------------
  // Integer extraction
  // ---------------------------------------------------------------------

  function DigitValue(c: char): (d: nat)
    requires IsDigit(c)
    ensures d < 10
  {
    (c as int) - ('0' as int)
  }

  function DigitChar(d: nat): (c: char)
    requires d < 10
    ensures IsDigit(c) && DigitValue(c) == d
  {
    ('0' as int + d) as char
  }

  /** The value of a string of decimal digits, most significant first. */
  function DecimalValue(ds: string): nat
    requires AllDigits(ds)
  {
    if ds == [] then 0 else 10 * DecimalValue(ds[..|ds| - 1]) + DigitValue(ds[|ds| - 1])
  }

  /** 1 when `s` begins with a sign character, else 0. */
  function SignLength(s: string): (k: nat)
    ensures k <= |s|
  {
    if s != [] && (s[0] == '+' || s[0] == '-') then 1 else 0
  }

  /**
   The `int` at the very start of `s`: an optional sign and then the
   longest run of digits.  None when there is no digit or when the value
   lies outside the range of a C++ `int`.
   */
  function IntPrefix(s: string): Option<Int32>
  {
    var k := SignLength(s);
    var d := Span(s[k..], DecimalDigit);
    if d == 0 then None else Signed(k == 1 && s[0] == '-', DecimalValue(s[k..][..d]))
  }

  /** The value of a sign and a magnitude, when it fits in an `int`. */
  function Signed(negative: bool, magnitude: nat): (r: Option<Int32>)
    ensures r.Some? <==> (if negative then magnitude <= -IntMin else magnitude <= IntMax)
    ensures r.Some? ==> r.value == if negative then -(magnitude as int) else magnitude
  {
    var v: int := if negative then -(magnitude as int) else magnitude;
    if IntMin <= v <= IntMax then Some(v) else None
  }

  /** The integer prefix of a text whose sign is followed by the digits `ds` and then a non-digit or the end. */
  lemma IntPrefixOfDigits(s: string, ds: string, tail: string)
    requires ds != [] && AllDigits(ds)
    requires s[SignLength(s)..] == ds + tail
    requires tail == [] || !IsDigit(tail[0])
    ensures IntPrefix(s) == Signed(SignLength(s) == 1 && s[0] == '-', DecimalValue(ds))
  {
    SpanUnique(ds, DecimalDigit, |ds|);
    SpanAppend(ds, tail, DecimalDigit);
    TakeAppend(ds, tail, |ds|);
  }

  /** `ss >> n` for an `int`: skip whitespace, then read an integer prefix. */
  function ExtractInt(s: string): Option<Int32>
  {
    IntPrefix(s[Span(s, Whitespace)..])
  }

  /** The decimal digits of `m`, most significant first, without leading zeros. */
  function Digits(m: nat): (ds: string)
    ensures ds != [] && AllDigits(ds)
  {
    if m < 10 then [DigitChar(m)] else Digits(m / 10) + [DigitChar(m % 10)]
  }

  /** The decimal numeral of `n`, as `operator<<` writes it: a `-` for a negative value, then its digits. */
  function Decimal(n: int): string {
    if n < 0 then "-" + Digits(-n) else Digits(n)
  }

  lemma {:induction false} DigitsValue(m: nat)
    ensures DecimalValue(Digits(m)) == m
  {
    if m >= 10 {
      DigitsValue(m / 10);
      var ds := Digits(m);
      assert ds[..|ds| - 1] == Digits(m / 10);
    }
  }

  /**
   Reading an integer from a numeral followed by anything that does not
   begin with a digit gives back the numeral's value when it fits in an
   `int` and fails when it does not: the trailing text is ignored, so
   "100abc" reads as 100.
   */
  lemma IntPrefixOfDecimal(n: int, tail: string)
    requires tail == [] || !IsDigit(tail[0])
    ensures IntPrefix(Decimal(n) + tail) == if IntMin <= n <= IntMax then Some(n) else None
  {
    var m: nat := if n < 0 then -n else n;
    var ds := Digits(m);
    DigitsValue(m);
    assert ds[0] != '+' && ds[0] != '-';
    if n < 0 {
      var s := "-" + ds + tail;
      assert SignLength(s) == 1;
      DropAppend("-" + ds, tail, 1);
      assert s[1..] == ds + tail;
      IntPrefixOfDigits(s, ds, tail);
    } else {
      var s := ds + tail;
      assert SignLength(s) == 0;
      IntPrefixOfDigits(s, ds, tail);
    }
  }

  /** An integer extraction from a word followed by whitespace or the end reads that word's integer prefix. */
  lemma IntPrefixStopsAtSpace(w: string, rest: string)
    requires rest == [] || IsSpace(rest[0])
    ensures IntPrefix(w + rest) == IntPrefix(w)
  {
    if w == [] {
      assert w + rest == rest;
      if rest != [] {
        assert Span(rest, DecimalDigit) == 0;
      }
    } else {
      var k := SignLength(w);
      assert SignLength(w + rest) == k;
      DropAppend(w, rest, k);
      SpanAppend(w[k..], rest, DecimalDigit);
      TakeAppend(w[k..], rest, Span(w[k..], DecimalDigit));
    }
  }

  /** The integer extraction reads the integer prefix of the text's first word, and fails when there is none. */
  lemma ExtractIntReadsFirstWord(s: string)
    ensures ExtractWord(s).None? ==> ExtractInt(s).None?
    ensures ExtractWord(s).Some? ==> ExtractInt(s) == IntPrefix(ExtractWord(s).value.0)
  {
    var skip := Span(s, Whitespace);
    match ExtractWord(s)
    case None =>
      SpanUnique(s, Whitespace, |s|);
    case Some((w, rest)) =>
      var skipped := |s| - |w| - |rest|;
      SpanAppend(s[..skipped], w + rest, Whitespace);
      SpanUnique(s[..skipped], Whitespace, skipped);
      assert s == s[..skipped] + (w + rest);
      IntPrefixStopsAtSpace(w, rest);
  }

  /** `ss >> n` on a space, a numeral and a tail that does not continue the numeral. */
  lemma ExtractIntOfDecimal(n: int, tail: string)
    requires tail == [] || !IsDigit(tail[0])
    ensures ExtractInt(" " + Decimal(n) + tail) == if IntMin <= n <= IntMax then Some(n) else None
  {
    var d := Decimal(n);
    var s := " " + (d + tail);
    assert " " + d + tail == s;
    assert d[0] == '-' || IsDigit(d[0]);
    SpanUnique(s, Whitespace, 1);
    assert s[1..] == d + tail;
    IntPrefixOfDecimal(n, tail);
  }
}
