/**
 * The hand-written, simplified quoted-printable decoder of the mail gateway
 * (`decodeQuotedPrintable`, internal/smtp/handler.go). It follows the code, not
 * section 6.7 of RFC 2045:
 *  - the input is cut after every line feed, and the segment after the last line
 *    feed is decoded too, even when it is empty;
 *  - every trailing CR and LF of a segment is dropped;
 *  - a line that then ends in `=` loses that `=` (a soft line break); any other
 *    line gets a line feed appended BEFORE escapes are scanned;
 *  - `=` followed by at least two more bytes of the line consumes three bytes and
 *    emits the byte `fmt.Sscanf("%02X")` reads from the two; every other byte is
 *    copied.
 * What `Sscanf` yields for two bytes that are not both hex digits is library
 * behaviour, so the scanner is a parameter `scan`; `ScansHex(scan)` says it reads
 * a pair of hex digits correctly.
 */
module QuotedPrintable {
  import opened Octets

  /** A hex digit as `%X` scans it: 0-9, A-F and a-f. */
  predicate IsHexDigit(c: Byte) {
    '0' as int <= c <= '9' as int || 'A' as int <= c <= 'F' as int || 'a' as int <= c <= 'f' as int
  }

  function HexValue(c: Byte): (v: nat)
    requires IsHexDigit(c)
    ensures v < 16
  {
    if c <= '9' as int then c - '0' as int
    else if c <= 'F' as int then c - 'A' as int + 10
    else c - 'a' as int + 10
  }

  /** The byte scanner reads a pair of hex digits as their value. */
  ghost predicate ScansHex(scan: (Byte, Byte) -> Byte) {
    forall a, b :: IsHexDigit(a) && IsHexDigit(b) ==> scan(a, b) == HexValue(a) * 16 + HexValue(b)
  }

  /** End of the segment that `ReadString('\n')` returns from `pos`: its line feed, or the end of input. */
  function LineEnd(s: seq<Byte>, pos: nat): (e: nat)
    requires pos <= |s|
    ensures pos <= e <= |s|
    ensures e < |s| ==> s[e] == LF
    decreases |s| - pos
  {
    if pos == |s| || s[pos] == LF then pos else LineEnd(s, pos + 1)
  }

  /** `strings.TrimRight(line, "\r\n")`. */
  function TrimLineEnd(line: seq<Byte>): (t: seq<Byte>)
    ensures |t| <= |line|
    ensures |line| > 0 && (line[|line| - 1] == CR || line[|line| - 1] == LF) ==> |t| < |line|
  {
    if |line| > 0 && (line[|line| - 1] == CR || line[|line| - 1] == LF)
    then TrimLineEnd(line[..|line| - 1])
    else line
  }

  /** A segment after trimming: the soft break `=` removed, or a line feed appended. */
  function PrepareLine(segment: seq<Byte>): seq<Byte> {
    var t := TrimLineEnd(segment);
    if |t| > 0 && t[|t| - 1] == EQ then t[..|t| - 1] else t + [LF]
  }

  /** The escape scan over one prepared line. */
  function Unescape(line: seq<Byte>, scan: (Byte, Byte) -> Byte): seq<Byte> {
    if |line| >= 3 && line[0] == EQ then [scan(line[1], line[2])] + Unescape(line[3..], scan)
    else if |line| == 0 then []
    else [line[0]] + Unescape(line[1..], scan)
  }

  /** The bytes one segment decodes to: prepared, then scanned for escapes. */
  function SegmentBytes(segment: seq<Byte>, scan: (Byte, Byte) -> Byte): seq<Byte> {
    Unescape(PrepareLine(segment), scan)
  }

  function Decoder(scan: (Byte, Byte) -> Byte): seq<Byte> -> seq<Byte> {
    segment => SegmentBytes(segment, scan)
  }

  /**
   * The segments `ReadString('\n')` returns from `pos` on, each turned into
   * bytes by `f`, concatenated. A segment runs up to and including a line
   * feed; the last one runs to the end of input and may be empty.
   */
  function MapSegments(s: seq<Byte>, pos: nat, f: seq<Byte> -> seq<Byte>): seq<Byte>
    requires pos <= |s|
    decreases |s| - pos
  {
    var e := LineEnd(s, pos);
    if e == |s| then f(s[pos..]) else f(s[pos..e + 1]) + MapSegments(s, e + 1, f)
  }

  /** What `decodeQuotedPrintable(s)` returns. */
  function Decode(s: seq<Byte>, scan: (Byte, Byte) -> Byte): seq<Byte> {
    MapSegments(s, 0, Decoder(scan))
  }

  /** A first line feed at `e` (or none, `e == |s|`) is where `LineEnd` stops. */
  lemma {:induction false} LineEndAt(s: seq<Byte>, pos: nat, e: nat)
    requires pos <= e <= |s| && (e < |s| ==> s[e] == LF)
    requires forall j :: pos <= j < e ==> s[j] != LF
    ensures LineEnd(s, pos) == e
    decreases e - pos
  {
    if pos < e {
      LineEndAt(s, pos + 1, e);
    }
  }

  /** Trimming stops at `n` when everything after `n` is CR or LF and the byte before it is not. */
  lemma {:induction false} TrimLineEndAt(line: seq<Byte>, n: nat)
    requires n <= |line|
    requires n == 0 || (line[n - 1] != CR && line[n - 1] != LF)
    requires forall j :: n <= j < |line| ==> line[j] == CR || line[j] == LF
    ensures TrimLineEnd(line) == line[..n]
    decreases |line|
  {
    if n < |line| {
      var shorter := line[..|line| - 1];
      TrimLineEndAt(shorter, n);
      assert shorter[..n] == line[..n];
    }
  }

  /** `reader.ReadString('\n')`: scans from `pos` to the next line feed or the end of input. */
  method ReadString(s: seq<Byte>, pos: nat) returns (end: nat)
    requires pos <= |s|
    ensures end == LineEnd(s, pos)
  {
    end := pos;
    while end < |s| && s[end] != LF
      invariant pos <= end <= |s|
      invariant forall j :: pos <= j < end ==> s[j] != LF
    {
      end := end + 1;
    }
    LineEndAt(s, pos, end);
  }

  /** `strings.TrimRight(line, "\r\n")` as a loop from the end. */
  method TrimRight(line: seq<Byte>) returns (t: seq<Byte>)
    ensures t == TrimLineEnd(line)
  {
    var n: nat := |line|;
    while n > 0 && (line[n - 1] == CR || line[n - 1] == LF)
      invariant n <= |line|
      invariant forall j :: n <= j < |line| ==> line[j] == CR || line[j] == LF
    {
      n := n - 1;
    }
    TrimLineEndAt(line, n);
    t := line[..n];
  }

  /** Trims a segment, then drops a soft-break `=` or appends a line feed. */
  method PrepareSegment(segment: seq<Byte>) returns (line: seq<Byte>)
    ensures line == PrepareLine(segment)
  {
    line := TrimRight(segment);
    if |line| > 0 && line[|line| - 1] == EQ {
      line := line[..|line| - 1];
    } else {
      line := line + [LF];
    }
  }

  /** The escape loop over one prepared line, writing to the buffer `buf`. */
  method WriteUnescaped(buf: seq<Byte>, line: seq<Byte>, scan: (Byte, Byte) -> Byte) returns (out: seq<Byte>)
    ensures out == buf + Unescape(line, scan)
  {
    out := buf;
    var i := 0;
    while i < |line|
      invariant i <= |line|
      invariant out + Unescape(line[i..], scan) == buf + Unescape(line, scan)
    {
      if line[i] == EQ && i + 2 < |line| {
        assert line[i..][3..] == line[i + 3..];
        out := out + [scan(line[i + 1], line[i + 2])];
        i := i + 3;
      } else {
        assert line[i..][1..] == line[i + 1..];
        out := out + [line[i]];
        i := i + 1;
      }
    }
    assert line[i..] == [];
  }

  /** Regrouping a three-way concatenation; stated apart so the loop's proof does not have to find it. */
  lemma AppendAssociates(a: seq<Byte>, b: seq<Byte>, c: seq<Byte>)
    ensures a + (b + c) == a + b + c
  {
  }

  /** One turn of the decoding loop: read a segment from `pos`, prepare it and scan it into `buf`. */
  method DecodeNextSegment(s: seq<Byte>, pos: nat, buf: seq<Byte>, scan: (Byte, Byte) -> Byte) returns (end: nat, out: seq<Byte>)
    requires pos <= |s|
    ensures end == LineEnd(s, pos)
    ensures end < |s| ==> out == buf + SegmentBytes(s[pos..end + 1], scan)
    ensures end == |s| ==> out == buf + SegmentBytes(s[pos..], scan)
  {
    end := ReadString(s, pos);
    var segment := if end < |s| then s[pos..end + 1] else s[pos..];
    var line := PrepareSegment(segment);
    out := WriteUnescaped(buf, line, scan);
  }

  /** `decodeQuotedPrintable`: reads segments, prepares them and scans escapes into a buffer until the end of input. */
  method DecodeQuotedPrintable(s: seq<Byte>, scan: (Byte, Byte) -> Byte) returns (buf: seq<Byte>)
    ensures buf == Decode(s, scan)
  {
    buf := [];
    var pos := 0;
    var eof := false;
    ghost var f := Decoder(scan);
    ghost var whole := Decode(s, scan);
    ghost var pending := whole;
    while !eof
      invariant pos <= |s|
      invariant !eof ==> pending == MapSegments(s, pos, f)
      invariant buf + pending == whole
      invariant eof ==> |pending| == 0
      decreases |s| - pos, !eof
    {
      ghost var before := buf;
      var end;
      end, buf := DecodeNextSegment(s, pos, buf, scan);
      if end < |s| {
        ghost var piece := f(s[pos..end + 1]);
        ghost var next := MapSegments(s, end + 1, f);
        assert pending == piece + next;
        AppendAssociates(before, piece, next);
        pending := next;
        pos := end + 1;
      } else {
        assert buf + [] == buf;
        pending := [];
        pos := |s|;
        eof := true;
      }
    }
    assert buf + pending == buf;
  }

  /** Scanning never lengthens a line: each escape turns three bytes into one. */
  lemma {:induction false} UnescapeLength(line: seq<Byte>, scan: (Byte, Byte) -> Byte)
    ensures |Unescape(line, scan)| <= |line|
    decreases |line|
  {
    if |line| >= 3 && line[0] == EQ {
      UnescapeLength(line[3..], scan);
    } else if |line| > 0 {
      UnescapeLength(line[1..], scan);
    }
  }

  /** A line without `=` is copied unchanged. */
  lemma {:induction false} UnescapeCopiesPlainBytes(line: seq<Byte>, scan: (Byte, Byte) -> Byte)
    requires forall j :: 0 <= j < |line| ==> line[j] != EQ
    ensures Unescape(line, scan) == line
    decreases |line|
  {
    if |line| > 0 {
      UnescapeCopiesPlainBytes(line[1..], scan);
    }
  }

  /** Scanning a line whose head holds no `=` copies the head and scans the rest. */
  lemma {:induction false} UnescapeAppendPlain(head: seq<Byte>, rest: seq<Byte>, scan: (Byte, Byte) -> Byte)
    requires forall j :: 0 <= j < |head| ==> head[j] != EQ
    ensures Unescape(head + rest, scan) == head + Unescape(rest, scan)
    decreases |head|
  {
    if |head| > 0 {
      assert (head + rest)[1..] == head[1..] + rest;
      UnescapeAppendPlain(head[1..], rest, scan);
      assert head == [head[0]] + head[1..];
    } else {
      assert head + rest == rest;
    }
  }

  /** An escape with two following bytes emits the scanned byte; two hex digits give their value. */
  lemma EscapeConsumesThree(a: Byte, b: Byte, rest: seq<Byte>, scan: (Byte, Byte) -> Byte)
    ensures Unescape([EQ, a, b] + rest, scan) == [scan(a, b)] + Unescape(rest, scan)
    ensures ScansHex(scan) && IsHexDigit(a) && IsHexDigit(b) ==>
              Unescape([EQ, a, b] + rest, scan) == [HexValue(a) * 16 + HexValue(b)] + Unescape(rest, scan)
  {
    assert ([EQ, a, b] + rest)[3..] == rest;
  }

  /** An `=` with fewer than two bytes after it on its line is copied like any other byte. */
  lemma ShortEscapeCopied(tail: seq<Byte>, scan: (Byte, Byte) -> Byte)
    requires |tail| < 2
    ensures Unescape([EQ] + tail, scan) == [EQ] + tail
  {
    assert ([EQ] + tail)[1..] == tail;
    if |tail| > 0 {
      assert tail[1..] == [];
    }
  }

  /** A prepared line is at most one byte longer than its segment, and no longer when the segment ends in a line feed. */
  lemma PrepareLineLength(segment: seq<Byte>)
    ensures |PrepareLine(segment)| <= |segment| + 1
    ensures |segment| > 0 && segment[|segment| - 1] == LF ==> |PrepareLine(segment)| <= |segment|
  {
  }

  /** When `f` adds at most one byte per segment, and none to a segment ending in a line feed, the output is at most one byte longer than the input. */
  lemma {:induction false} MapSegmentsLength(s: seq<Byte>, pos: nat, f: seq<Byte> -> seq<Byte>)
    requires pos <= |s|
    requires forall segment :: |f(segment)| <= |segment| + 1
    requires forall segment :: |segment| > 0 && segment[|segment| - 1] == LF ==> |f(segment)| <= |segment|
    ensures |MapSegments(s, pos, f)| <= |s| - pos + 1
    decreases |s| - pos
  {
    var e := LineEnd(s, pos);
    if e < |s| {
      var segment := s[pos..e + 1];
      assert segment[e - pos] == s[e];
      MapSegmentsLength(s, e + 1, f);
      assert MapSegments(s, pos, f) == f(segment) + MapSegments(s, e + 1, f);
    }
  }

  /** A segment decodes to at most one byte more than its length, and to no more than its length when it ends in a line feed. */
  lemma SegmentBytesLength(segment: seq<Byte>, scan: (Byte, Byte) -> Byte)
    ensures |SegmentBytes(segment, scan)| <= |segment| + 1
    ensures |segment| > 0 && segment[|segment| - 1] == LF ==> |SegmentBytes(segment, scan)| <= |segment|
  {
    PrepareLineLength(segment);
    UnescapeLength(PrepareLine(segment), scan);
  }

  /** The decoded output is at most one byte longer than the input. */
  lemma DecodeLength(s: seq<Byte>, scan: (Byte, Byte) -> Byte)
    ensures |Decode(s, scan)| <= |s| + 1
  {
    var f := Decoder(scan);
    forall segment
      ensures |f(segment)| <= |segment| + 1
      ensures |segment| > 0 && segment[|segment| - 1] == LF ==> |f(segment)| <= |segment|
    {
      SegmentBytesLength(segment, scan);
    }
    MapSegmentsLength(s, 0, f);
  }

  /** Line splitting after a prefix `p` is line splitting of what follows it. */
  lemma {:induction false} LineEndShift(p: seq<Byte>, q: seq<Byte>, i: nat)
    requires i <= |q|
    ensures LineEnd(p + q, |p| + i) == |p| + LineEnd(q, i)
    decreases |q| - i
  {
    if i < |q| && q[i] != LF {
      assert (p + q)[|p| + i] == q[i];
      LineEndShift(p, q, i + 1);
    } else if i < |q| {
      assert (p + q)[|p| + i] == q[i];
    }
  }

  /** The last segment of `p + q` after `p` is the last segment of `q`. */
  lemma MapSegmentsShiftLast(p: seq<Byte>, q: seq<Byte>, i: nat, f: seq<Byte> -> seq<Byte>)
    requires i <= |q| && LineEnd(q, i) == |q| && LineEnd(p + q, |p| + i) == |p| + |q|
    ensures MapSegments(p + q, |p| + i, f) == MapSegments(q, i, f)
  {
    assert (p + q)[|p| + i..] == q[i..];
  }

  /** A segment of `p + q` after `p` that ends in a line feed is the same segment of `q`. */
  lemma MapSegmentsShiftMid(p: seq<Byte>, q: seq<Byte>, i: nat, e: nat, f: seq<Byte> -> seq<Byte>)
    requires i <= e < |q| && LineEnd(q, i) == e && LineEnd(p + q, |p| + i) == |p| + e
    requires MapSegments(p + q, |p| + e + 1, f) == MapSegments(q, e + 1, f)
    ensures MapSegments(p + q, |p| + i, f) == MapSegments(q, i, f)
  {
    assert (p + q)[|p| + i..|p| + e + 1] == q[i..e + 1];
  }

  /** The segments of `p + q` after `p` are the segments of `q`. */
  lemma {:induction false} MapSegmentsShift(p: seq<Byte>, q: seq<Byte>, i: nat, f: seq<Byte> -> seq<Byte>)
    requires i <= |q|
    ensures MapSegments(p + q, |p| + i, f) == MapSegments(q, i, f)
    decreases |q| - i
  {
    var e := LineEnd(q, i);
    LineEndShift(p, q, i);
    if e == |q| {
      MapSegmentsShiftLast(p, q, i, f);
    } else {
      MapSegmentsShift(p, q, e + 1, f);
      MapSegmentsShiftMid(p, q, i, e, f);
    }
  }

  /** A line holding neither CR nor LF. */
  predicate IsBareLine(line: seq<Byte>) {
    forall j :: 0 <= j < |line| ==> line[j] != LF && line[j] != CR
  }

  /** Trailing CRs and LFs after a bare line are exactly what trimming removes. */
  lemma TrimBareLine(line: seq<Byte>, eol: seq<Byte>)
    requires IsBareLine(line)
    requires forall j :: 0 <= j < |eol| ==> eol[j] == CR || eol[j] == LF
    ensures TrimLineEnd(line + eol) == line
  {
    TrimLineEndAt(line + eol, |line|);
    assert (line + eol)[..|line|] == line;
  }

  /** The first line feed of a bare line followed by its line ending is the last byte of the line ending. */
  lemma FirstLineEnd(line: seq<Byte>, eol: seq<Byte>, rest: seq<Byte>)
    requires IsBareLine(line)
    requires eol == [LF] || eol == [CR, LF]
    ensures LineEnd(line + eol + rest, 0) == |line + eol| - 1
  {
    var s := line + eol + rest;
    assert forall j :: 0 <= j < |line| ==> s[j] == line[j];
    LineEndAt(s, 0, |line + eol| - 1);
  }

  /** A bare line and its line ending form the first segment; the segments of what follows come after it. */
  lemma MapSegmentsSplit(line: seq<Byte>, eol: seq<Byte>, rest: seq<Byte>, f: seq<Byte> -> seq<Byte>)
    requires IsBareLine(line)
    requires eol == [LF] || eol == [CR, LF]
    ensures MapSegments(line + eol + rest, 0, f) == f(line + eol) + MapSegments(rest, 0, f)
  {
    var head := line + eol;
    FirstLineEnd(line, eol, rest);
    MapSegmentsShift(head, rest, 0, f);
    assert (head + rest)[0..|head|] == head;
  }

  /** So decoding goes segment by segment: the first one, then what follows. */
  lemma SplitAtLineEnd(line: seq<Byte>, eol: seq<Byte>, rest: seq<Byte>, scan: (Byte, Byte) -> Byte)
    requires IsBareLine(line)
    requires eol == [LF] || eol == [CR, LF]
    ensures Decode(line + eol + rest, scan) == SegmentBytes(line + eol, scan) + Decode(rest, scan)
  {
    MapSegmentsSplit(line, eol, rest, Decoder(scan));
  }

  /** A line ending in `=` before its line end is a soft break: the `=` goes and no line feed is produced. */
  lemma SoftLineBreak(line: seq<Byte>, eol: seq<Byte>, rest: seq<Byte>, scan: (Byte, Byte) -> Byte)
    requires IsBareLine(line) && |line| > 0 && line[|line| - 1] == EQ
    requires eol == [LF] || eol == [CR, LF]
    ensures Decode(line + eol + rest, scan) == Unescape(line[..|line| - 1], scan) + Decode(rest, scan)
  {
    SplitAtLineEnd(line, eol, rest, scan);
    TrimBareLine(line, eol);
  }

  /** Any other line is scanned with a line feed already appended, then decoding goes on after its line end. */
  lemma HardLineBreak(line: seq<Byte>, eol: seq<Byte>, rest: seq<Byte>, scan: (Byte, Byte) -> Byte)
    requires IsBareLine(line) && (|line| == 0 || line[|line| - 1] != EQ)
    requires eol == [LF] || eol == [CR, LF]
    ensures Decode(line + eol + rest, scan) == Unescape(line + [LF], scan) + Decode(rest, scan)
  {
    SplitAtLineEnd(line, eol, rest, scan);
    TrimBareLine(line, eol);
  }

  /** A line without `=` followed by `=` and one byte is a bare line that does not end in `=`. */
  lemma {:induction false} ShortEscapeLine(head: seq<Byte>, x: Byte)
    requires IsBareLine(head)
    requires x != LF && x != CR && x != EQ
    ensures IsBareLine(head + [EQ, x]) && (head + [EQ, x])[|head| + 1] != EQ
  {
    var line := head + [EQ, x];
    forall j | 0 <= j < |line|
      ensures line[j] != LF && line[j] != CR
    {
      if j < |head| {
        assert line[j] == head[j];
      }
    }
  }

  /** Scanning such a line with its appended line feed: the escape takes `x` and the line feed. */
  lemma {:induction false} ShortEscapeScan(head: seq<Byte>, x: Byte, scan: (Byte, Byte) -> Byte)
    requires forall j :: 0 <= j < |head| ==> head[j] != EQ
    ensures Unescape(head + [EQ, x] + [LF], scan) == head + [scan(x, LF)]
  {
    assert head + [EQ, x] + [LF] == head + [EQ, x, LF];
    EscapeConsumesThree(x, LF, [], scan);
    assert [EQ, x, LF] + [] == [EQ, x, LF];
    UnescapeAppendPlain(head, [EQ, x, LF], scan);
  }

  /**
   * An `=` followed by a single byte at the end of a line is not copied: the
   * line feed appended to the line becomes the escape's second byte, so the
   * line ends in the scanned byte and no line feed is produced.
   */
  lemma EscapeSwallowsLineFeed(head: seq<Byte>, x: Byte, eol: seq<Byte>, rest: seq<Byte>, scan: (Byte, Byte) -> Byte)
    requires IsBareLine(head) && forall j :: 0 <= j < |head| ==> head[j] != EQ
    requires x != LF && x != CR && x != EQ
    requires eol == [LF] || eol == [CR, LF]
    ensures Decode(head + [EQ, x] + eol + rest, scan) == head + [scan(x, LF)] + Decode(rest, scan)
  {
    ShortEscapeLine(head, x);
    ShortEscapeScan(head, x, scan);
    HardLineBreak(head + [EQ, x], eol, rest, scan);
  }

  /** The same at the end of the input: the final line feed is swallowed too. */
  lemma EscapeSwallowsFinalLineFeed(head: seq<Byte>, x: Byte, scan: (Byte, Byte) -> Byte)
    requires IsBareLine(head) && forall j :: 0 <= j < |head| ==> head[j] != EQ
    requires x != LF && x != CR && x != EQ
    ensures Decode(head + [EQ, x], scan) == head + [scan(x, LF)]
  {
    ShortEscapeLine(head, x);
    ShortEscapeScan(head, x, scan);
    FinalSegment(head + [EQ, x], scan);
  }

  /** Input without a line feed is one segment. */
  lemma MapSegmentsSingle(s: seq<Byte>, f: seq<Byte> -> seq<Byte>)
    requires forall j :: 0 <= j < |s| ==> s[j] != LF
    ensures MapSegments(s, 0, f) == f(s)
  {
    LineEndAt(s, 0, |s|);
    assert s[0..] == s;
  }

  /** The segment after the last line feed is decoded too, and gets a line feed of its own. */
  lemma FinalSegment(line: seq<Byte>, scan: (Byte, Byte) -> Byte)
    requires IsBareLine(line) && (|line| == 0 || line[|line| - 1] != EQ)
    ensures Decode(line, scan) == Unescape(line + [LF], scan)
  {
    MapSegmentsSingle(line, Decoder(scan));
    TrimBareLine(line, []);
    assert line + [] == line;
  }

  /** Empty input decodes to a single line feed. */
  lemma EmptyInput(scan: (Byte, Byte) -> Byte)
    ensures Decode([], scan) == [LF]
  {
    FinalSegment([], scan);
    assert [] + [LF] == [LF];
    UnescapeCopiesPlainBytes([LF], scan);
  }

  /** A plain line ending in a line feed comes out with a second line feed. */
  lemma TrailingLineFeed(line: seq<Byte>, scan: (Byte, Byte) -> Byte)
    requires IsBareLine(line) && forall j :: 0 <= j < |line| ==> line[j] != EQ
    ensures Decode(line + [LF], scan) == line + [LF, LF]
  {
    HardLineBreak(line, [LF], [], scan);
    assert line + [LF] + [] == line + [LF];
    EmptyInput(scan);
    UnescapeCopiesPlainBytes(line + [LF], scan);
    assert line + [LF] + [LF] == line + [LF, LF];
  }

  /** The escape scan of "Caf=C3=A9" with its appended line feed. */
  lemma CafeUnescaped(scan: (Byte, Byte) -> Byte)
    requires ScansHex(scan)
    ensures Unescape(['C' as int, 'a' as int, 'f' as int, EQ, 'C' as int, '3' as int, EQ, 'A' as int, '9' as int, LF], scan)
            == ['C' as int, 'a' as int, 'f' as int, 0xC3, 0xA9, LF]
  {
    var tail: seq<Byte> := [EQ, 'A' as int, '9' as int] + [LF];
    EscapeConsumesThree('A' as int, '9' as int, [LF], scan);
    EscapeConsumesThree('C' as int, '3' as int, tail, scan);
    UnescapeCopiesPlainBytes([LF], scan);
    var plain: seq<Byte> := ['C' as int, 'a' as int, 'f' as int];
    assert plain + ([EQ, 'C' as int, '3' as int] + tail)
           == ['C' as int, 'a' as int, 'f' as int, EQ, 'C' as int, '3' as int, EQ, 'A' as int, '9' as int, LF];
    UnescapeAppendPlain(plain, [EQ, 'C' as int, '3' as int] + tail, scan);
  }

  /** "Caf=C3=A9" decodes to the UTF-8 bytes of "Café" followed by the appended line feed. */
  lemma CafeExample(scan: (Byte, Byte) -> Byte)
    requires ScansHex(scan)
    ensures Decode(['C' as int, 'a' as int, 'f' as int, EQ, 'C' as int, '3' as int, EQ, 'A' as int, '9' as int], scan)
            == ['C' as int, 'a' as int, 'f' as int, 0xC3, 0xA9, LF]
  {
    var line: seq<Byte> := ['C' as int, 'a' as int, 'f' as int, EQ, 'C' as int, '3' as int, EQ, 'A' as int, '9' as int];
    FinalSegment(line, scan);
    assert line + [LF] == ['C' as int, 'a' as int, 'f' as int, EQ, 'C' as int, '3' as int, EQ, 'A' as int, '9' as int, LF];
    CafeUnescaped(scan);
  }
}
