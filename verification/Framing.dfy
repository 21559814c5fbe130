/**
 Newline-delimited framing: what bufio.Scanner makes of a byte stream, and what survives it.
 */
module Framing {
  import opened Envelope

  /** The index of the first line feed, or the length when there is none. */
  function LineEnd(input: bytes): (n: nat)
    ensures n <= |input|
    ensures n < |input| ==> input[n] == LF
    ensures LF !in input[..n]
  {
    if input == [] || input[0] == LF then 0
    else
      var n := LineEnd(input[1..]);
      assert input[..n + 1] == [input[0]] + input[1..][..n];
      n + 1
  }

  function DropCR(line: bytes): bytes {
    if line != [] && line[|line| - 1] == CR then line[..|line| - 1] else line
  }

  /** One call of Scan: a line and what is left, the end of the stream, or a line over the limit. */
  datatype Scan = Line(text: bytes, rest: bytes) | End | TooLong(rest: bytes)

  function ScanLine(limit: nat, input: bytes): (s: Scan)
    ensures s.Line? ==> |s.rest| < |input|
  {
    if input == [] then End
    else
      var n := LineEnd(input);
      if n >= limit then TooLong(input)
      else Line(DropCR(input[..n]), if n < |input| then input[n + 1..] else [])
  }

  /** The next line that is not blank. */
  function NextText(limit: nat, input: bytes): (s: Scan)
    ensures s.Line? ==> |s.rest| < |input| && s.text != []
    decreases |input|
  {
    var s := ScanLine(limit, input);
    if s.Line? && s.text == [] then NextText(limit, s.rest) else s
  }

  /** Everything a reader gets out of a stream, and how it ends. */
  datatype Texts = Texts(lines: seq<bytes>, complete: bool)

  function AllTexts(limit: nat, input: bytes): Texts
    decreases |input|
  {
    match NextText(limit, input)
    case End => Texts([], true)
    case TooLong(_) => Texts([], false)
    case Line(text, rest) =>
      var more := AllTexts(limit, rest);
      Texts([text] + more.lines, more.complete)
  }

  lemma Across<T>(a: seq<T>, moved: seq<T>, b: seq<T>)
    ensures a + moved + b == a + (moved + b)
    ensures a + [] == a && [] + b == b
  {
  }

  /** The bytes of complete records. */
  function Frame(lines: seq<bytes>): bytes {
    if lines == [] then [] else lines[0] + [LF] + Frame(lines[1..])
  }

  lemma {:induction false} FrameAppend(a: seq<bytes>, b: seq<bytes>)
    ensures Frame(a + b) == Frame(a) + Frame(b)
  {
    if a == [] {
      assert a + b == b;
    } else {
      assert (a + b)[1..] == a[1..] + b;
      FrameAppend(a[1..], b);
    }
  }

  lemma FrameSnoc(a: seq<bytes>, line: bytes)
    ensures Frame(a + [line]) == Frame(a) + line + [LF]
  {
    FrameAppend(a, [line]);
    assert [line][1..] == [];
    assert Frame([line]) == line + [LF];
    assert Frame(a) + (line + [LF]) == Frame(a) + line + [LF];
  }

  lemma {:induction false} LineEndIs(line: bytes, rest: bytes)
    requires LF !in line
    ensures LineEnd(line + [LF] + rest) == |line|
  {
    var input := line + [LF] + rest;
    if line == [] {
    } else {
      assert input[1..] == line[1..] + [LF] + rest;
      assert input[0] == line[0];
      LineEndIs(line[1..], rest);
    }
  }

  lemma ScanRecord(limit: nat, line: bytes, rest: bytes)
    requires LF !in line && |line| < limit
    ensures ScanLine(limit, line + [LF] + rest) == Line(DropCR(line), rest)
  {
    var input := line + [LF] + rest;
    LineEndIs(line, rest);
    assert input[..|line|] == line;
    assert input[|line| + 1..] == rest;
  }

  lemma ScanClean(limit: nat, line: bytes, rest: bytes)
    requires Clean(line) && |line| < limit
    ensures ScanLine(limit, line + [LF] + rest) == Line(line, rest)
    ensures NextText(limit, line + [LF] + rest) == Line(line, rest)
  {
    ScanRecord(limit, line, rest);
  }

  // ----- Round trip -------------------------------------------------------------------------

  /** Any number of blank lines, each ended by LF or by CR LF. */
  predicate Blank(pad: bytes) {
    pad == []
    || (pad[0] == LF && Blank(pad[1..]))
    || (|pad| >= 2 && pad[0] == CR && pad[1] == LF && Blank(pad[2..]))
  }

  lemma {:induction false} BlankIsSkipped(limit: nat, pad: bytes, rest: bytes)
    requires Blank(pad) && limit > 1
    ensures NextText(limit, pad + rest) == NextText(limit, rest)
    decreases |pad|
  {
    if pad == [] {
      assert pad + rest == rest;
    } else if pad[0] == LF {
      assert pad + rest == [] + [LF] + (pad[1..] + rest);
      ScanRecord(limit, [], pad[1..] + rest);
      BlankIsSkipped(limit, pad[1..], rest);
    } else {
      assert pad + rest == [CR] + [LF] + (pad[2..] + rest);
      ScanRecord(limit, [CR], pad[2..] + rest);
      BlankIsSkipped(limit, pad[2..], rest);
    }
  }

  /** Records with padding before each of them and after the last. */
  function Padded(pads: seq<bytes>, lines: seq<bytes>): bytes
    requires |pads| == |lines| + 1
  {
    if lines == [] then pads[0]
    else pads[0] + (lines[0] + [LF] + Padded(pads[1..], lines[1..]))
  }

  predicate Fitting(limit: nat, line: bytes) {
    Clean(line) && |line| < limit
  }

  lemma TextsNext(limit: nat, input: bytes, text: bytes, rest: bytes)
    requires NextText(limit, input) == Line(text, rest)
    ensures AllTexts(limit, input) ==
            Texts([text] + AllTexts(limit, rest).lines, AllTexts(limit, rest).complete)
  {
    hide NextText;
  }

  lemma PadsOnly(limit: nat, pad: bytes)
    requires Blank(pad) && limit > 1
    ensures AllTexts(limit, pad) == Texts([], true)
  {
    BlankIsSkipped(limit, pad, []);
    assert pad + [] == pad;
    hide Blank;
  }

  lemma FittingIs(limit: nat, line: bytes)
    requires Fitting(limit, line)
    ensures Clean(line) && |line| < limit
  {
  }

  lemma PaddedIs(pads: seq<bytes>, lines: seq<bytes>)
    requires |pads| == |lines| + 1
    ensures lines == [] ==> Padded(pads, lines) == pads[0]
    ensures lines != [] ==> Padded(pads, lines) == pads[0] + (lines[0] + [LF] + Padded(pads[1..], lines[1..]))
  {
  }

  /** Reading back any padded sequence of records yields exactly that sequence, then the end. */
  lemma {:induction false} RoundTrip(limit: nat, pads: seq<bytes>, lines: seq<bytes>)
    requires limit > 1
    requires |pads| == |lines| + 1 && forall i :: 0 <= i < |pads| ==> Blank(pads[i])
    requires forall i :: 0 <= i < |lines| ==> Fitting(limit, lines[i])
    ensures AllTexts(limit, Padded(pads, lines)) == Texts(lines, true)
    decreases |lines|
  {
    hide *;
    PaddedIs(pads, lines);
    if lines == [] {
      PadsOnly(limit, pads[0]);
    } else {
      var rest := Padded(pads[1..], lines[1..]);
      FittingIs(limit, lines[0]);
      BlankIsSkipped(limit, pads[0], lines[0] + [LF] + rest);
      ScanClean(limit, lines[0], rest);
      TextsNext(limit, Padded(pads, lines), lines[0], rest);
      RoundTrip(limit, pads[1..], lines[1..]);
      assert [lines[0]] + lines[1..] == lines;
    }
  }

  lemma LastLine(limit: nat, last: bytes)
    requires Fitting(limit, last)
    ensures AllTexts(limit, last) == Texts([last], true)
  {
    assert ScanLine(limit, last) == Line(last, []);
    assert NextText(limit, last) == Line(last, []);
    TextsNext(limit, last, last, []);
    assert AllTexts(limit, []) == Texts([], true);
  }

  lemma FrameFirst(lines: seq<bytes>, rest: bytes)
    requires lines != []
    ensures Frame(lines) + rest == lines[0] + [LF] + (Frame(lines[1..]) + rest)
  {
    Across(lines[0] + [LF], Frame(lines[1..]), rest);
  }

  lemma FrameNone(rest: bytes)
    ensures Frame([]) + rest == rest
  {
  }

  /** A last line needs no line feed. */
  lemma {:induction false} LastLineUnended(limit: nat, lines: seq<bytes>, last: bytes)
    requires Fitting(limit, last) && forall i :: 0 <= i < |lines| ==> Fitting(limit, lines[i])
    ensures AllTexts(limit, Frame(lines) + last) == Texts(lines + [last], true)
    decreases |lines|
  {
    hide *;
    if lines == [] {
      FrameNone(last);
      LastLine(limit, last);
      Across([], [last], []);
    } else {
      FittingIs(limit, lines[0]);
      var rest := Frame(lines[1..]) + last;
      FrameFirst(lines, last);
      ScanClean(limit, lines[0], rest);
      TextsNext(limit, Frame(lines) + last, lines[0], rest);
      LastLineUnended(limit, lines[1..], last);
      assert [lines[0]] + (lines[1..] + [last]) == lines + [last];
    }
  }

  /** One carriage return in front of the line feed belongs to the end of the line. */
  lemma CarriageReturnDropped(limit: nat, line: bytes, rest: bytes)
    requires LF !in line && |line| + 1 < limit
    ensures ScanLine(limit, line + [CR] + [LF] + rest) == Line(line, rest)
  {
    ScanRecord(limit, line + [CR], rest);
    assert DropCR(line + [CR]) == line;
  }

  /** No other line survives: framing keeps a line if and only if it is clean and within the limit. */
  lemma SurvivesIff(limit: nat, line: bytes)
    requires limit > 1
    ensures AllTexts(limit, line + [LF]) == Texts([line], true) <==> Fitting(limit, line)
  {
    var input := line + [LF];
    assert line + [LF] + [] == input;
    if AllTexts(limit, input) == Texts([line], true) {
      NextTextIsClean(limit, input);
      var s := NextText(limit, input);
      assert s.Line? && AllTexts(limit, input).lines[0] == s.text;
      assert LF !in line && |line| < limit;
      ScanRecord(limit, line, []);
      assert DropCR(line) == line;
    }
    if Fitting(limit, line) {
      ScanClean(limit, line, []);
    }
  }

  /** The scanner only ever returns text without a line feed and shorter than the limit. */
  lemma {:induction false} NextTextIsClean(limit: nat, input: bytes)
    ensures NextText(limit, input).Line? ==>
              var text := NextText(limit, input).text; text != [] && LF !in text && |text| < limit
    decreases |input|
  {
    var s := ScanLine(limit, input);
    if s.Line? && s.text == [] {
      NextTextIsClean(limit, s.rest);
    }
  }
}
