/**
 * Body extraction of the mail gateway (`extractBody` and `extractMultipartBody`,
 * internal/smtp/handler.go). Go's `mime.ParseMediaType`, `multipart.Reader`,
 * `io.ReadAll` and `base64.StdEncoding` are foreign code: their results arrive
 * as data (a parsed media type, a stream of parts, a read that may fail) or as
 * the function `Codecs.base64`.
 */
module MimeBody {
  import opened Wrappers
  import opened Octets
  import QP = QuotedPrintable

  /** The library decoders the extractor calls. */
  datatype Codecs = Codecs(base64: seq<Byte> -> Option<seq<Byte>>, scanHex: (Byte, Byte) -> Byte)

  /** One part as `multipart.Reader.NextPart` yields it: the media type `mime.ParseMediaType` returns for its Content-Type (empty when there is none to return), its transfer encoding header, and its bytes or a read failure. `NextPart` itself already decodes a quoted-printable part and removes its encoding header, so such a part arrives decoded with an empty `encoding`, or as a read failure when malformed. */
  datatype Part = Part(mediaType: string, encoding: string, content: Option<seq<Byte>>)

  /** How the part stream stops: cleanly (`io.EOF`) or with a `NextPart` error. */
  datatype StreamEnd = EndOfParts | NextPartFailed

  datatype PartStream = PartStream(parts: seq<Part>, end: StreamEnd)

  /**
   * A parsed message body: the media type `mime.ParseMediaType` found in
   * Content-Type (`None` when that fails, which includes a missing header), the
   * Content-Transfer-Encoding header, the whole body as `io.ReadAll` returns it
   * (`None` on a read error), and the parts a multipart reader would yield.
   */
  datatype MessageBody = MessageBody(mediaType: Option<string>, encoding: string, raw: Option<seq<Byte>>, parts: PartStream)

  datatype Extracted = Extracted(text: seq<Byte>, isHTML: bool)

  datatype ExtractError = BodyReadFailed | PartStreamFailed | NoBodyFound

  /** Simple case folding of a rune onto its lower-case ASCII partner, where it has one. */
  function FoldRune(c: char): (f: char)
    ensures 'a' <= f <= 'z' ==> 'a' <= c <= 'z' || 'A' <= c <= 'Z' || c == 'ſ' || c == 'K'
    ensures !('a' <= f <= 'z') ==> f == c
    ensures 'A' <= c <= 'Z' ==> f as int == c as int + 32
    ensures c == 'ſ' ==> f == 's'
    ensures c == 'K' ==> f == 'k'
    ensures !('A' <= c <= 'Z') && c != 'ſ' && c != 'K' ==> f == c
  {
    if 'A' <= c <= 'Z' then (c as int + 32) as char
    else if c == 'ſ' then 's'     // LATIN SMALL LETTER LONG S folds to s
    else if c == 'K' then 'k'     // KELVIN SIGN folds to k
    else c
  }

  /** `strings.EqualFold(s, word)` for a word of lower-case ASCII. */
  predicate EqualFold(s: string, word: string) {
    |s| == |word| && forall i :: 0 <= i < |s| ==> FoldRune(s[i]) == word[i]
  }

  /** The transfer decoding both extractors apply: base64 (kept raw when it does not decode), the quoted-printable decoder, or nothing. */
  function TransferDecode(encoding: string, raw: seq<Byte>, codecs: Codecs): seq<Byte> {
    if EqualFold(encoding, "base64") then
      match codecs.base64(raw)
      case Some(decoded) => decoded
      case None => raw
    else if EqualFold(encoding, "quoted-printable") then QP.Decode(raw, codecs.scanHex)
    else raw
  }

  /** The transfer decoding, calling the decoder loop. */
  method DecodeTransfer(encoding: string, raw: seq<Byte>, codecs: Codecs) returns (text: seq<Byte>)
    ensures text == TransferDecode(encoding, raw, codecs)
  {
    text := raw;
    if EqualFold(encoding, "base64") {
      var decoded := codecs.base64(raw);
      if decoded.Some? {
        text := decoded.value;
      }
    } else if EqualFold(encoding, "quoted-printable") {
      text := QP.DecodeQuotedPrintable(raw, codecs.scanHex);
    }
  }

  /** A part the loop stores under `prefix`: it was read, and its media type starts with `prefix`. */
  predicate Counts(p: Part, prefix: string) {
    p.content.Some? && prefix <= p.mediaType
  }

  function PartText(p: Part, codecs: Codecs): seq<Byte>
    requires p.content.Some?
  {
    TransferDecode(p.encoding, p.content.value, codecs)
  }

  /**
   * What the loop holds for the kind `prefix` after the parts: the text of the
   * LAST part that counts (even an empty one), or nothing.
   */
  function Captured(parts: seq<Part>, prefix: string, codecs: Codecs): seq<Byte>
    decreases |parts|
  {
    if |parts| == 0 then []
    else
      var last := parts[|parts| - 1];
      if Counts(last, prefix) then PartText(last, codecs)
      else Captured(parts[..|parts| - 1], prefix, codecs)
  }

  /** No media type starts with both "text/plain" and "text/html". */
  lemma PlainIsNotHtml(mediaType: string)
    requires "text/plain" <= mediaType
    ensures !("text/html" <= mediaType)
  {
    assert mediaType[5] == 'p';
  }

  /** One more part: it replaces what was held when it counts, and changes nothing otherwise. */
  lemma CapturedSnoc(parts: seq<Part>, p: Part, prefix: string, codecs: Codecs)
    ensures Captured(parts + [p], prefix, codecs) == if Counts(p, prefix) then PartText(p, codecs) else Captured(parts, prefix, codecs)
  {
    assert (parts + [p])[..|parts|] == parts;
  }

  /** `extractMultipartBody`: a `NextPart` error fails; then a non-empty HTML part wins, then a non-empty plain part. */
  function MultipartSelect(stream: PartStream, codecs: Codecs): Result<Extracted, ExtractError> {
    if stream.end == NextPartFailed then Failure(PartStreamFailed)
    else
      var html := Captured(stream.parts, "text/html", codecs);
      var plain := Captured(stream.parts, "text/plain", codecs);
      if |html| > 0 then Success(Extracted(html, true))
      else if |plain| > 0 then Success(Extracted(plain, false))
      else Failure(NoBodyFound)
  }

  /** `extractMultipartBody`: walks the parts, keeping the latest plain and HTML texts. */
  method ExtractMultipartBody(stream: PartStream, codecs: Codecs) returns (r: Result<Extracted, ExtractError>)
    ensures r == MultipartSelect(stream, codecs)
  {
    var textPart: seq<Byte> := [];
    var htmlPart: seq<Byte> := [];
    var i := 0;
    while true
      invariant i <= |stream.parts|
      invariant textPart == Captured(stream.parts[..i], "text/plain", codecs)
      invariant htmlPart == Captured(stream.parts[..i], "text/html", codecs)
      decreases |stream.parts| - i
    {
      if i == |stream.parts| {
        if stream.end == NextPartFailed {
          return Failure(PartStreamFailed);
        }
        break;
      }
      var part := stream.parts[i];
      assert stream.parts[..i + 1] == stream.parts[..i] + [part];
      CapturedSnoc(stream.parts[..i], part, "text/plain", codecs);
      CapturedSnoc(stream.parts[..i], part, "text/html", codecs);
      i := i + 1;
      if part.content.None? {
        continue;
      }
      var partText := DecodeTransfer(part.encoding, part.content.value, codecs);
      if "text/plain" <= part.mediaType {
        PlainIsNotHtml(part.mediaType);
        textPart := partText;
      } else if "text/html" <= part.mediaType {
        htmlPart := partText;
      } else if "multipart/" <= part.mediaType {
        continue;
      }
    }
    assert stream.parts[..i] == stream.parts;
    if |htmlPart| > 0 {
      return Success(Extracted(htmlPart, true));
    }
    if |textPart| > 0 {
      return Success(Extracted(textPart, false));
    }
    return Failure(NoBodyFound);
  }

  /** `extractBody`: the whole body when Content-Type does not parse, the multipart selection, or the decoded single part. */
  function Extraction(body: MessageBody, codecs: Codecs): Result<Extracted, ExtractError> {
    match body.mediaType
    case None =>
      if body.raw.None? then Failure(BodyReadFailed) else Success(Extracted(body.raw.value, false))
    case Some(mediaType) =>
      if "multipart/" <= mediaType then MultipartSelect(body.parts, codecs)
      else if body.raw.None? then Failure(BodyReadFailed)
      else Success(Extracted(TransferDecode(body.encoding, body.raw.value, codecs), "text/html" <= mediaType))
  }

  /** `extractBody`. */
  method ExtractBody(body: MessageBody, codecs: Codecs) returns (r: Result<Extracted, ExtractError>)
    ensures r == Extraction(body, codecs)
  {
    if body.mediaType.None? {
      if body.raw.None? {
        return Failure(BodyReadFailed);
      }
      return Success(Extracted(body.raw.value, false));
    }
    var mediaType := body.mediaType.value;
    if "multipart/" <= mediaType {
      r := ExtractMultipartBody(body.parts, codecs);
      return;
    }
    if body.raw.None? {
      return Failure(BodyReadFailed);
    }
    var text := DecodeTransfer(body.encoding, body.raw.value, codecs);
    return Success(Extracted(text, "text/html" <= mediaType));
  }

  /** With no part of the kind, nothing is captured. */
  lemma {:induction false} CapturedNone(parts: seq<Part>, prefix: string, codecs: Codecs)
    requires forall j :: 0 <= j < |parts| ==> !Counts(parts[j], prefix)
    ensures Captured(parts, prefix, codecs) == []
    decreases |parts|
  {
    if |parts| > 0 {
      CapturedNone(parts[..|parts| - 1], prefix, codecs);
    }
  }

  /** The last part of the kind is what is captured, whatever its text, empty or not. */
  lemma {:induction false} CapturedLast(parts: seq<Part>, j: nat, prefix: string, codecs: Codecs)
    requires j < |parts| && Counts(parts[j], prefix)
    requires forall k :: j < k < |parts| ==> !Counts(parts[k], prefix)
    ensures Captured(parts, prefix, codecs) == PartText(parts[j], codecs)
    decreases |parts|
  {
    if j < |parts| - 1 {
      CapturedLast(parts[..|parts| - 1], j, prefix, codecs);
    }
  }

  /** A part that does not count for the kind, inserted anywhere, leaves the captured text alone. */
  lemma {:induction false} CapturedInsert(parts: seq<Part>, i: nat, p: Part, prefix: string, codecs: Codecs)
    requires i <= |parts| && !Counts(p, prefix)
    ensures Captured(parts[..i] + [p] + parts[i..], prefix, codecs) == Captured(parts, prefix, codecs)
    decreases |parts|
  {
    var inserted := parts[..i] + [p] + parts[i..];
    if i == |parts| {
      assert inserted == parts + [p];
      CapturedSnoc(parts, p, prefix, codecs);
    } else {
      var init := parts[..|parts| - 1];
      CapturedInsert(init, i, p, prefix, codecs);
      assert inserted == (init[..i] + [p] + init[i..]) + [parts[|parts| - 1]];
      assert parts == init + [parts[|parts| - 1]];
      CapturedSnoc(init[..i] + [p] + init[i..], parts[|parts| - 1], prefix, codecs);
      CapturedSnoc(init, parts[|parts| - 1], prefix, codecs);
    }
  }

  /** A part that failed to read, or whose media type is neither plain text nor HTML (a nested multipart part included), never changes the selection. */
  lemma IgnoredPartChangesNothing(parts: seq<Part>, i: nat, p: Part, end: StreamEnd, codecs: Codecs)
    requires i <= |parts|
    requires p.content.None? || (!("text/plain" <= p.mediaType) && !("text/html" <= p.mediaType))
    ensures MultipartSelect(PartStream(parts[..i] + [p] + parts[i..], end), codecs) == MultipartSelect(PartStream(parts, end), codecs)
  {
    CapturedInsert(parts, i, p, "text/plain", codecs);
    CapturedInsert(parts, i, p, "text/html", codecs);
  }

  /** A later HTML part that decodes to nothing hides an earlier HTML part, and the plain text is chosen instead. */
  lemma EmptyLaterHtmlFallsBack(parts: seq<Part>, p: Part, codecs: Codecs)
    requires Counts(p, "text/html") && PartText(p, codecs) == []
    requires |Captured(parts, "text/plain", codecs)| > 0
    ensures MultipartSelect(PartStream(parts + [p], EndOfParts), codecs)
            == Success(Extracted(Captured(parts, "text/plain", codecs), false))
  {
    CapturedSnoc(parts, p, "text/html", codecs);
    CapturedSnoc(parts, p, "text/plain", codecs);
    assert !("text/plain" <= p.mediaType) by {
      if "text/plain" <= p.mediaType {
        PlainIsNotHtml(p.mediaType);
      }
    }
  }

  /** The selection: a failed `NextPart` aborts, a non-empty HTML text wins with `isHTML`, then a non-empty plain text, else no body. */
  lemma SelectionOutcomes(stream: PartStream, codecs: Codecs)
    ensures stream.end == NextPartFailed ==> MultipartSelect(stream, codecs) == Failure(PartStreamFailed)
    ensures MultipartSelect(stream, codecs).Success? && MultipartSelect(stream, codecs).value.isHTML
            <==> stream.end == EndOfParts && |Captured(stream.parts, "text/html", codecs)| > 0
    ensures MultipartSelect(stream, codecs).Success? && !MultipartSelect(stream, codecs).value.isHTML
            <==> stream.end == EndOfParts && |Captured(stream.parts, "text/html", codecs)| == 0
                 && |Captured(stream.parts, "text/plain", codecs)| > 0
    ensures MultipartSelect(stream, codecs) == Failure(NoBodyFound)
            <==> stream.end == EndOfParts && |Captured(stream.parts, "text/html", codecs)| == 0
                 && |Captured(stream.parts, "text/plain", codecs)| == 0
    ensures MultipartSelect(stream, codecs).Success? ==> |MultipartSelect(stream, codecs).value.text| > 0
  {
  }

  /** An unparseable Content-Type gives back the whole body, undecoded, as plain text. */
  lemma UnparseableContentType(body: MessageBody, codecs: Codecs)
    requires body.mediaType.None? && body.raw.Some?
    ensures Extraction(body, codecs) == Success(Extracted(body.raw.value, false))
  {
  }

  /** A single part is decoded and is HTML exactly when its media type starts with "text/html"; a read error fails. */
  lemma SinglePart(body: MessageBody, codecs: Codecs)
    requires body.mediaType.Some? && !("multipart/" <= body.mediaType.value)
    ensures body.raw.None? ==> Extraction(body, codecs) == Failure(BodyReadFailed)
    ensures body.raw.Some? ==> Extraction(body, codecs).Success?
                               && Extraction(body, codecs).value.text == TransferDecode(body.encoding, body.raw.value, codecs)
                               && (Extraction(body, codecs).value.isHTML <==> "text/html" <= body.mediaType.value)
  {
  }

  /** Transfer decoding: base64 in any letter case, kept raw when it does not decode; quoted-printable through the decoder; anything else unchanged. */
  lemma TransferDecodeCases(encoding: string, raw: seq<Byte>, codecs: Codecs)
    ensures EqualFold(encoding, "base64") && codecs.base64(raw).None? ==> TransferDecode(encoding, raw, codecs) == raw
    ensures EqualFold(encoding, "base64") && codecs.base64(raw).Some? ==> TransferDecode(encoding, raw, codecs) == codecs.base64(raw).value
    ensures EqualFold(encoding, "quoted-printable") ==> TransferDecode(encoding, raw, codecs) == QP.Decode(raw, codecs.scanHex)
    ensures !EqualFold(encoding, "base64") && !EqualFold(encoding, "quoted-printable") ==> TransferDecode(encoding, raw, codecs) == raw
  {
  }

  /** The comparison ignores ASCII letter case, and the long s folds onto `s`. */
  lemma Base64Spellings()
    ensures EqualFold("BASE64", "base64") && EqualFold("Base64", "base64") && EqualFold("baſe64", "base64")
  {
    assert FoldRune('B') == 'b' && FoldRune('A') == 'a' && FoldRune('S') == 's' && FoldRune('E') == 'e';
  }

  lemma QuotedPrintableSpellings()
    ensures EqualFold("Quoted-Printable", "quoted-printable")
  {
    assert FoldRune('Q') == 'q' && FoldRune('P') == 'p';
  }

  /** Other names, such as a hyphenated spelling or `7bit`, are not base64. */
  lemma OtherSpellings()
    ensures !EqualFold("base-64", "base64") && !EqualFold("7bit", "base64")
  {
    assert FoldRune("base-64"[0]) == 'b';
  }
}
