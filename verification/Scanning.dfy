/**
 Go's bufio.Scanner with the one-mebibyte buffer that both line readers give it: lines are delivered
 until one does not fit the buffer.
 */
module Scanning {
  import opened Text

  const MAX_LINE: nat := 0x10_0000

  /** The length of a text in UTF-8. */
  function Bytes(s: string): nat {
    if s == "" then 0
    else
      var c := s[|s| - 1] as int;
      Bytes(s[..|s| - 1]) + if c < 0x80 then 1 else if c < 0x800 then 2 else if c < 0x1_0000 then 3 else 4
  }

  predicate Fits(line: string) {
    Bytes(line) < MAX_LINE
  }

  function DropCR(line: string): string {
    if line != "" && line[|line| - 1] == '\r' then line[..|line| - 1] else line
  }

  /** The text cut at its newlines; nothing follows a last newline. */
  function RawLines(text: string): seq<string> {
    if text == "" then []
    else
      var i := FirstIndex(text, '\n');
      if i < 0 then [text] else [text[..i]] + RawLines(text[i + 1..])
  }

  datatype Scan = Scan(lines: seq<string>, tooLong: bool)

  /** One line at a time, less a carriage return at its end, up to the first that does not fit. */
  function ScanLines(text: string): Scan {
    if text == "" then Scan([], false)
    else
      var i := FirstIndex(text, '\n');
      var raw := if i < 0 then text else text[..i];
      if !Fits(raw) then Scan([], true)
      else if i < 0 then Scan([DropCR(raw)], false)
      else
        var rest := ScanLines(text[i + 1..]);
        Scan([DropCR(raw)] + rest.lines, rest.tooLong)
  }

  /** What is delivered is the longest run of lines, from the first on, that all fit; it is all of them unless the scan fails. */
  lemma {:induction false} ScanStopsAtTheFirstTooLong(text: string)
    ensures var s, raw := ScanLines(text), RawLines(text);
            && |s.lines| <= |raw|
            && (forall i :: 0 <= i < |s.lines| ==> s.lines[i] == DropCR(raw[i]) && Fits(raw[i]))
            && (s.tooLong <==> |s.lines| < |raw|)
            && (s.tooLong ==> !Fits(raw[|s.lines|]))
  {
    hide Fits, DropCR, FirstIndex;
    if text != "" {
      var i := FirstIndex(text, '\n');
      if i >= 0 {
        ScanStopsAtTheFirstTooLong(text[i + 1..]);
      }
    }
  }

  lemma NothingToScan()
    ensures ScanLines("") == Scan([], false)
  {
  }

  lemma FirstLine(line: string, rest: string)
    requires '\n' !in line
    ensures ScanLines(line + ['\n'] + rest)
         == if !Fits(line) then Scan([], true) else Scan([DropCR(line)] + ScanLines(rest).lines, ScanLines(rest).tooLong)
  {
    hide FirstIndex, DropCR, Fits;
    var text := line + ['\n'] + rest;
    FirstIndexSplit(line, '\n', rest);
    assert text[..|line|] == line && text[|line| + 1..] == rest;
  }

  /** A line may end in a carriage return and a newline: neither is part of it. */
  lemma ReturnIsDropped(line: string, rest: string)
    requires '\n' !in line && Fits(line + "\r")
    ensures ScanLines(line + "\r\n" + rest) == Scan([line] + ScanLines(rest).lines, ScanLines(rest).tooLong)
  {
    hide Fits, ScanLines;
    var raw := line + "\r";
    assert line + "\r\n" + rest == raw + ['\n'] + rest;
    FirstLine(raw, rest);
    assert raw[..|line|] == line;
  }

  /** Two scans after one another, the second unless the first failed. */
  function Then(a: Scan, b: Scan): Scan {
    if a.tooLong then a else Scan(a.lines + b.lines, b.tooLong)
  }

  /** A text cut after a newline scans as its two parts do. */
  lemma {:induction false} CutAfterNewline(a: string, b: string)
    ensures ScanLines(a + ['\n'] + b) == Then(ScanLines(a + ['\n']), ScanLines(b))
    decreases |a|
  {
    FirstIndexIsFirst(a, '\n');
    var i := FirstIndex(a, '\n');
    hide FirstIndex, DropCR, Fits, ScanLines;
    NothingToScan();
    if i < 0 {
      FirstLine(a, b);
      FirstLine(a, "");
      assert a + ['\n'] + "" == a + ['\n'];
    } else {
      var line, rest := a[..i], a[i + 1..];
      assert a == line + ['\n'] + rest;
      assert a + ['\n'] + b == line + ['\n'] + (rest + ['\n'] + b);
      assert a + ['\n'] == line + ['\n'] + (rest + ['\n']);
      FirstLine(line, rest + ['\n'] + b);
      FirstLine(line, rest + ['\n']);
      CutAfterNewline(rest, b);
    }
  }

  // ---------- how much fits ----------

  lemma {:induction false} BytesBound(s: string)
    ensures |s| <= Bytes(s) <= 4 * |s|
    ensures (forall i :: 0 <= i < |s| ==> s[i] as int < 128) ==> Bytes(s) == |s|
  {
    if s != "" {
      BytesBound(s[..|s| - 1]);
    }
  }

  /** A line of ASCII fits if and only if it has fewer than 1048576 characters; any of a quarter of that does. */
  lemma FitsIff(line: string)
    ensures (forall i :: 0 <= i < |line| ==> line[i] as int < 128) ==> (Fits(line) <==> |line| < 1_048_576)
    ensures |line| >= 1_048_576 ==> !Fits(line)
    ensures |line| < 262_144 ==> Fits(line)
  {
    BytesBound(line);
    hide Bytes;
  }
}
