# m3bridge core, modelled in Dafny

m3bridge is a local SMTP gateway. A mail client talks SMTP to it, and it forwards each
message through the Microsoft Graph mail API. The account's access token comes from an
OAuth 2.0 authorization-code flow with PKCE (RFC 7636) and is cached in a JSON file.
This project models the three files at the core of the gateway and proves properties of
the model.

- `wrappers.dfy`: `Option`/`Result`, and bytes (`Octets`).
- `quoted_printable.dfy`: the hand-written quoted-printable decoder (`decodeQuotedPrintable`).
  - `Decode` is the specification: the input is cut after every line feed, and each segment is
    decoded in turn.
  - The method `DecodeQuotedPrintable` keeps the source's loop, with its `ReadString`,
    `TrimRight` and escape-scanning steps.
- `mime_body.dfy`: body extraction (`extractBody`, `extractMultipartBody`).
  - A multipart body is a stream of already-parsed parts that ends cleanly or with a `NextPart`
    error.
  - The loop that keeps the latest plain-text and HTML parts is proved equal to `MultipartSelect`.
- `smtp_session.dfy`: the SMTP session.
  - A session is a class with the source's `from`, `to` and `authenticated` fields.
  - It covers `Reset`, `Mail`, `Rcpt`, the PLAIN check and `Data`.
  - The mail client records every send call it receives.
- `token_cache.dfy`: `TokenResponse` with `IsExpired` and `RemainingValidity`, and the
  `TokenCacheManager`. The manager's file is a field holding what a later read would find.
- `base64url.dfy`: unpadded base64url encoding (section 5 of RFC 4648), which PKCE uses.
  - It comes with a reference decoder.
  - A proof shows that decoding undoes encoding.
- `oauth.dfy`: the `Authenticator`. It covers PKCE generation, the authorization URL, the callback
  handler, the wait for the code, the code-for-token exchange, `acquireNewToken` and
  `GetAccessToken`.

Instants are integers counting nanoseconds from Go's zero time, so an unset `CachedAt` is 0.

Everything the source gets from libraries or the outside world arrives as a parameter.
That covers the clock, `crypto/rand` bytes, SHA-256, `url.Parse`, `http.PostForm`'s reply,
`json.Unmarshal`, `mail.ReadMessage`, `mime.ParseMediaType`, the multipart reader,
`mime.WordDecoder`, `mail.ParseAddressList`, standard base64 decoding and
`fmt.Sscanf("%02X")`. Whether a write, a removal or a send fails is also an input, as is the
sequence of callback requests that arrive before the five-minute timer fires.

The model follows the code wherever the code and its documentation differ:
- The quoted-printable decoder appends a line feed to the segment after the last line feed, even
  an empty one. So "Caf=C3=A9" decodes to "Café" followed by a line feed, not to "Café" alone
  (`QuotedPrintable.CafeExample`), and the empty input decodes to a single line feed.
- A line ending is removed together with every other trailing CR and LF. The line feed is
  appended before escapes are scanned. So a line ending in `=` and one more byte loses its line
  feed to that escape (`QuotedPrintable.EscapeSwallowsLineFeed`).
- The multipart loop keeps the LAST part of each kind, even an empty one. So a later empty HTML
  part hides an earlier non-empty one (`MimeBody.EmptyLaterHtmlFallsBack`).
- `Data` does not check that the session authenticated and does not use the sender.
- With a CC list it sends to all recipients; without one it sends only to the first.

## Model

| member | source | states |
|---|---|---|
| Octets.AsciiBytes | internal/auth/auth.go:112 | `[]byte(verifier)` of an ASCII string: same length, each byte the character's code |
| QuotedPrintable.HexValue | internal/smtp/handler.go:294-296 | a hex digit's value fits in four bits |
| QuotedPrintable.LineEnd | internal/smtp/handler.go:277 | `ReadString('\n')` stops at a line feed at or after the position, or at the end of the input |
| QuotedPrintable.TrimLineEnd | internal/smtp/handler.go:283 | `TrimRight(line, "\r\n")` never lengthens a line, and shortens one that ends in CR or LF |
| QuotedPrintable.ReadString | internal/smtp/handler.go:277-280 | the scan loop finds exactly `LineEnd` |
| QuotedPrintable.TrimRight | internal/smtp/handler.go:283 | the trimming loop yields exactly `TrimLineEnd` |
| QuotedPrintable.PrepareLine | internal/smtp/handler.go:283-288 | no ensures; the trimmed line loses a final `=` or gains a line feed, characterised by `PrepareLineLength`, `SoftLineBreak` and `HardLineBreak` |
| QuotedPrintable.Unescape | internal/smtp/handler.go:291-302 | no ensures; the escape scan, characterised by `UnescapeLength`, `UnescapeCopiesPlainBytes`, `UnescapeAppendPlain`, `EscapeConsumesThree` and `ShortEscapeCopied` |
| QuotedPrintable.MapSegments | internal/smtp/handler.go:276-307 | no ensures; the `ReadString` loop's segments, each decoded and concatenated, characterised by `MapSegmentsLength`, `MapSegmentsShift`, `MapSegmentsSplit` and `MapSegmentsSingle` |
| QuotedPrintable.Decode | internal/smtp/handler.go:272-310 | no ensures; the decoder's specification, which the loop `DecodeQuotedPrintable` computes and `DecodeLength`, `SplitAtLineEnd`, `SoftLineBreak`, `HardLineBreak`, `FinalSegment` and `EmptyInput` characterise |
| QuotedPrintable.PrepareSegment | internal/smtp/handler.go:283-289 | soft break drops the `=`; any other line gets a line feed appended |
| QuotedPrintable.WriteUnescaped | internal/smtp/handler.go:291-302 | the escape loop appends `Unescape(line)` to the buffer |
| QuotedPrintable.DecodeNextSegment | internal/smtp/handler.go:276-306 | one iteration consumes one segment and appends its decoding |
| QuotedPrintable.DecodeQuotedPrintable | internal/smtp/handler.go:272-310 | the whole loop computes `Decode(s)`, segment by segment to the end of the input |
| QuotedPrintable.UnescapeLength | internal/smtp/handler.go:291-302 | escape scanning never lengthens a line |
| QuotedPrintable.UnescapeCopiesPlainBytes | internal/smtp/handler.go:298-301 | a line without `=` is copied unchanged |
| QuotedPrintable.UnescapeAppendPlain | internal/smtp/handler.go:298-301 | a head without `=` is copied, then scanning goes on with the rest |
| QuotedPrintable.EscapeConsumesThree | internal/smtp/handler.go:293-297 | `=XY` emits one scanned byte; with two hex digits it is their value 16·X+Y |
| QuotedPrintable.ShortEscapeCopied | internal/smtp/handler.go:293-301 | an `=` with fewer than two bytes after it is copied literally |
| QuotedPrintable.PrepareLineLength | internal/smtp/handler.go:283-289 | a prepared line grows by at most the appended line feed |
| QuotedPrintable.MapSegmentsLength | internal/smtp/handler.go:276-306 | segment-wise decoding adds at most one byte overall |
| QuotedPrintable.SegmentBytesLength | internal/smtp/handler.go:283-302 | a segment decodes to at most one more byte than it has |
| QuotedPrintable.DecodeLength | internal/smtp/handler.go:272-310 | decoding output is at most one byte longer than the input |
| QuotedPrintable.LineEndShift | internal/smtp/handler.go:277 | line splitting after a prefix is line splitting of what follows |
| QuotedPrintable.MapSegmentsShift | internal/smtp/handler.go:276-306 | the segments after a prefix are the segments of the suffix |
| QuotedPrintable.TrimBareLine | internal/smtp/handler.go:283 | trimming a line followed by CR/LF bytes gives the line back |
| QuotedPrintable.FirstLineEnd | internal/smtp/handler.go:277 | a line plus LF or CRLF ends at that line feed |
| QuotedPrintable.MapSegmentsSplit | internal/smtp/handler.go:276-306 | a line and its line ending form the first segment |
| QuotedPrintable.SplitAtLineEnd | internal/smtp/handler.go:276-306 | decoding a line and its ending, then the rest, is decoding each in turn |
| QuotedPrintable.SoftLineBreak | internal/smtp/handler.go:284-285 | a line ending in `=` joins the next with neither the `=` nor a line break |
| QuotedPrintable.HardLineBreak | internal/smtp/handler.go:286-287 | any other line, LF- or CRLF-terminated, is scanned with one line feed appended, then decoding goes on after its line end; an `=` and a single byte at the end of the line consume that line feed (`EscapeSwallowsLineFeed`) |
| QuotedPrintable.MapSegmentsSingle | internal/smtp/handler.go:276-306 | input without a line feed is one segment |
| QuotedPrintable.FinalSegment | internal/smtp/handler.go:286-306 | the text after the last line feed is still decoded, scanned with one line feed appended, which an `=` and a single final byte consume (`EscapeSwallowsFinalLineFeed`) |
| QuotedPrintable.EscapeSwallowsLineFeed | internal/smtp/handler.go:287-297 | an `=` and one byte ending a line take the appended line feed as the escape's second byte: the line yields its head and `scan(x, LF)`, and no line feed |
| QuotedPrintable.EscapeSwallowsFinalLineFeed | internal/smtp/handler.go:287-306 | the same for the text after the last line feed: no final line feed is produced |
| QuotedPrintable.EmptyInput | internal/smtp/handler.go:272-310 | the empty string decodes to one line feed |
| QuotedPrintable.TrailingLineFeed | internal/smtp/handler.go:276-306 | a plain line ending in a line feed comes out followed by two line feeds |
| QuotedPrintable.CafeUnescaped | internal/smtp/handler.go:291-302 | the escapes of "Caf=C3=A9" give the UTF-8 bytes of "Café" |
| QuotedPrintable.CafeExample | internal/smtp/handler.go:272-310 | "Caf=C3=A9" decodes to the bytes of "Café" and a line feed |
| MimeBody.FoldRune | internal/smtp/handler.go:200 | an upper-case ASCII letter folds to its lower-case partner, `ſ` to `s`, the Kelvin sign to `k`, and every other rune to itself |
| MimeBody.EqualFold | internal/smtp/handler.go:200-205 | no ensures; `strings.EqualFold` against a lower-case word, characterised by `Base64Spellings`, `QuotedPrintableSpellings` and `OtherSpellings` |
| MimeBody.TransferDecode | internal/smtp/handler.go:197-207 | no ensures; the transfer decoding, characterised case by case by `TransferDecodeCases` and computed by `DecodeTransfer` |
| MimeBody.Captured | internal/smtp/handler.go:217-257 | no ensures; the text the loop last stored for a kind, characterised by `CapturedSnoc`, `CapturedNone`, `CapturedLast` and `CapturedInsert` |
| MimeBody.MultipartSelect | internal/smtp/handler.go:214-269 | no ensures; the multipart selection, computed by `ExtractMultipartBody` and characterised by `SelectionOutcomes`, `IgnoredPartChangesNothing` and `EmptyLaterHtmlFallsBack` |
| MimeBody.Extraction | internal/smtp/handler.go:174-211 | no ensures; the extraction, computed by `ExtractBody` and characterised by `UnparseableContentType`, `SinglePart` and `SelectionOutcomes` |
| MimeBody.DecodeTransfer | internal/smtp/handler.go:197-207 | the transfer decoding of a single-part body is `TransferDecode` |
| MimeBody.PlainIsNotHtml | internal/smtp/handler.go:250-257 | no part counts as both plain and HTML |
| MimeBody.CapturedSnoc | internal/smtp/handler.go:250-257 | a counting part replaces what was held; any other part changes nothing |
| MimeBody.ExtractMultipartBody | internal/smtp/handler.go:214-269 | the part loop computes `MultipartSelect` |
| MimeBody.ExtractBody | internal/smtp/handler.go:174-211 | the extraction computes `Extraction` |
| MimeBody.CapturedNone | internal/smtp/handler.go:216-257 | with no part of a kind, that kind's text stays empty |
| MimeBody.CapturedLast | internal/smtp/handler.go:250-257 | the last part of a kind is what is kept, empty or not |
| MimeBody.CapturedInsert | internal/smtp/handler.go:250-257 | a non-counting part inserted anywhere changes nothing |
| MimeBody.IgnoredPartChangesNothing | internal/smtp/handler.go:228-257 | an unreadable part, or one neither text/plain nor text/html, leaves the selection unchanged |
| MimeBody.EmptyLaterHtmlFallsBack | internal/smtp/handler.go:250-268 | a later empty HTML part hides an earlier one, and the plain text is sent |
| MimeBody.SelectionOutcomes | internal/smtp/handler.go:220-268 | a `NextPart` error fails; non-empty HTML wins; else non-empty plain; else no body; a chosen text is non-empty |
| MimeBody.UnparseableContentType | internal/smtp/handler.go:175-183 | an unparseable Content-Type returns the whole raw body as plain text |
| MimeBody.SinglePart | internal/smtp/handler.go:190-210 | a single part fails on a read error, else is decoded and is HTML iff its type starts with text/html |
| MimeBody.TransferDecodeCases | internal/smtp/handler.go:197-207 | base64 in any case, raw on a decode error; quoted-printable through the decoder; anything else unchanged |
| MimeBody.Base64Spellings | internal/smtp/handler.go:200 | "BASE64", "Base64" and "baſe64" all select base64 |
| MimeBody.QuotedPrintableSpellings | internal/smtp/handler.go:205 | "Quoted-Printable" selects the quoted-printable decoder |
| MimeBody.OtherSpellings | internal/smtp/handler.go:200 | "base-64" and "7bit" are not base64 |
| SmtpSession.GraphClient.Send | internal/smtp/handler.go:145-151 | each send call is recorded once, in order; its failure is the service's answer |
| SmtpSession.Backend.constructor | internal/smtp/handler.go:30-37 | the backend holds the client and the configured credentials |
| SmtpSession.Addresses | internal/smtp/handler.go:126-128 | one address per parsed CC entry, in order |
| SmtpSession.DecodeHeader | internal/smtp/handler.go:164-171 | no ensures; characterised by `SubjectFallback`: the decoded header, or the raw header on a decoding error |
| SmtpSession.CcAddresses | internal/smtp/handler.go:122-130 | no ensures; no CC for an empty or unparseable header, else `Addresses` of the parsed list; characterised by `UnparseableCcIsNoCc` |
| SmtpSession.Dispatch | internal/smtp/handler.go:142-152 | no ensures; the choice of send call, characterised by `CcSendsToWholeList`, `NoRecipientsNoSend` and `SingleSendUsesFirst` |
| SmtpSession.Outcome | internal/smtp/handler.go:117-152 | no ensures; what `Data` sends for a parsed message, characterised by `NoAuthGate`, `CallNamesOnlyKnownAddresses`, `ExtractionFailureSendsPlaceholder` and the dispatch lemmas |
| SmtpSession.BodyToSend | internal/smtp/handler.go:133-138 | no ensures; the extracted body, or the placeholder as plain text when extraction fails, characterised by `ExtractionFailureSendsPlaceholder` |
| SmtpSession.CollectAddresses | internal/smtp/handler.go:122-130 | the CC loop collects exactly `Addresses` |
| SmtpSession.Session.constructor | internal/smtp/handler.go:40-46 | a new session has no sender, no recipients and is not authenticated |
| SmtpSession.Session.Reset | internal/smtp/handler.go:58-62 | sender and recipients cleared, authentication kept |
| SmtpSession.Session.Mail | internal/smtp/handler.go:93-97 | the sender is set and nothing else changes |
| SmtpSession.Session.Rcpt | internal/smtp/handler.go:100-104 | the recipient is appended, order and duplicates kept, nothing else changes |
| SmtpSession.Session.Auth | internal/smtp/handler.go:76-80 | a mechanism is accepted iff it is PLAIN |
| SmtpSession.Session.PlainCallback | internal/smtp/handler.go:81-89 | succeeds iff username and password both match; success sets `authenticated`, failure leaves it |
| SmtpSession.Session.Data | internal/smtp/handler.go:107-161 | parse failure: error, no send; else `Outcome`'s error with no send, or exactly one recorded send call whose failure is the result |
| SmtpSession.NoAuthGate | internal/smtp/handler.go:107-161 | the outcome depends only on the recipients, not on sender or authentication |
| SmtpSession.CcSendsToWholeList | internal/smtp/handler.go:144-145 | with CC, the multi-recipient send gets all recipients and the CC list |
| SmtpSession.NoRecipientsNoSend | internal/smtp/handler.go:147-149 | without CC or recipients, the result is the no-recipients error |
| SmtpSession.SingleSendUsesFirst | internal/smtp/handler.go:150-151 | without CC, only the first recipient is sent to |
| SmtpSession.UnparseableCcIsNoCc | internal/smtp/handler.go:123-129 | an unparseable Cc header behaves as no Cc |
| SmtpSession.CallNamesOnlyKnownAddresses | internal/smtp/handler.go:142-152 | every address in a send call is a session recipient or a parsed CC address |
| SmtpSession.ExtractionFailureSendsPlaceholder | internal/smtp/handler.go:133-138 | a failed extraction sends the placeholder text as plain text |
| SmtpSession.SubjectFallback | internal/smtp/handler.go:164-171 | the subject is the decoded header, or the raw header when decoding fails |
| TokenCache.TokenResponse.RemainingValidity | internal/auth/token.go:39-52 | never negative, zero when never cached, else the time until expiration |
| TokenCache.TokenResponse.IsExpired | internal/auth/token.go:28-36 | no ensures; characterised by `NeverCachedIsExpired`, `ExpiredExactly`, `ExpiredStaysExpired` and `ValidTokenKeepsBuffer` |
| TokenCache.NeverCachedIsExpired | internal/auth/token.go:28-31 | a never-cached token is expired and has no validity |
| TokenCache.ExpiredExactly | internal/auth/token.go:28-36 | expired iff now plus 300 s is strictly after CachedAt plus ExpiresIn seconds |
| TokenCache.ExpiredStaysExpired | internal/auth/token.go:28-36 | expiry is monotone in time |
| TokenCache.RemainingIsClamped | internal/auth/token.go:44-51 | remaining validity is max(0, expiration − now) |
| TokenCache.ValidTokenKeepsBuffer | internal/auth/token.go:14 | a token not expired has at least the 300-second buffer left |
| TokenCache.LoadedIsStoredAndFresh | internal/auth/token.go:70-94 | a load succeeds iff the file holds an unexpired token, and yields it; read and parse errors otherwise |
| TokenCache.Loaded | internal/auth/token.go:70-94 | no ensures; what a load returns, computed by `TokenCacheManager.LoadToken` and characterised by `LoadedIsStoredAndFresh` and `SaveThenLoad` |
| TokenCache.Stamped | internal/auth/token.go:101-102 | saving stamps the current instant and changes no other field |
| TokenCache.SaveThenLoad | internal/auth/token.go:97-118 | a token saved at a nonzero instant loads back while outside the buffer |
| TokenCache.TokenCacheManager.constructor | internal/auth/token.go:62-67 | the manager starts on the given file |
| TokenCache.TokenCacheManager.LoadToken | internal/auth/token.go:70-94 | the load returns exactly `Loaded(file, now)` |
| TokenCache.TokenCacheManager.SaveToken | internal/auth/token.go:97-118 | returns the stamped token; success writes it to the file, failure reports an error |
| TokenCache.TokenCacheManager.ClearCache | internal/auth/token.go:121-132 | the file is gone afterwards; an already-missing file is success; a failed removal keeps it and errors |
| Base64Url.Char | internal/auth/auth.go:109 | every 6-bit value maps into the URL-safe alphabet |
| Base64Url.Value | internal/auth/auth.go:109 | the value of an alphabet character is below 64 and maps back to it |
| Base64Url.Encode | internal/auth/auth.go:109-113 | no ensures; `base64.RawURLEncoding.EncodeToString`, characterised by `EncodeLength`, `EncodeAlphabet` and `RoundTrip` |
| Base64Url.Decode | internal/auth/auth.go:109-113 | no ensures; the reference decoder of unpadded base64url, the inverse in `RoundTrip` and `ChallengeShape` |
| Base64Url.EncodeLength | internal/auth/auth.go:109 | unpadded length is ⌈4n/3⌉ |
| Base64Url.EncodeAlphabet | internal/auth/auth.go:109 | every encoded character is URL-safe |
| Base64Url.GroupRoundTrip | internal/auth/auth.go:109 | three bytes come back from their four characters |
| Base64Url.RoundTripOne | internal/auth/auth.go:109 | a final single byte round-trips |
| Base64Url.RoundTripTwo | internal/auth/auth.go:109 | a final pair of bytes round-trips |
| Base64Url.RoundTripGroup | internal/auth/auth.go:109 | a leading group round-trips in front of the rest |
| Base64Url.RoundTrip | internal/auth/auth.go:109 | decoding undoes encoding for every byte sequence |
| OAuth.Set | internal/auth/auth.go:128-135 | `Values.Set` makes the key hold exactly one value and keeps every other key |
| OAuth.AuthorizationQuery | internal/auth/auth.go:127-135 | no ensures; the query over the base URL, characterised by `AuthorizationParameters` and `AuthorizationKeepsBase` |
| OAuth.AuthorizationParameters | internal/auth/auth.go:127-135 | the eight authorization parameters each hold one value, with method S256, the fixed scope and prompt |
| OAuth.AuthorizationKeepsBase | internal/auth/auth.go:127-137 | the URL's own other query parameters are kept unchanged |
| OAuth.ExchangeFormFields | internal/auth/auth.go:192-197 | the token form holds exactly client, grant type, code, redirect URI and verifier, one value each |
| OAuth.ExchangeForm | internal/auth/auth.go:192-197 | no ensures; the posted form, characterised by `ExchangeFormFields` |
| OAuth.Verifier | internal/auth/auth.go:107-109 | no ensures; the code verifier, characterised by `VerifierIsAscii` and `VerifierShape` |
| OAuth.Challenge | internal/auth/auth.go:111-113 | no ensures; the S256 challenge, characterised by `ChallengeShape` |
| OAuth.VerifierIsAscii | internal/auth/auth.go:109 | the verifier is ASCII and made of unreserved characters |
| OAuth.VerifierShape | internal/auth/auth.go:107-109 | 32 random bytes give a 43-character verifier, within RFC 7636's 43..128 |
| OAuth.ChallengeShape | internal/auth/auth.go:111-113 | a 32-byte digest gives a 43-character challenge that decodes back to the digest |
| OAuth.HandleCallback | internal/auth/auth.go:172-185 | delivered iff the code is non-empty, with status 200; otherwise status 400 |
| OAuth.FirstCode | internal/auth/auth.go:91-102 | no ensures; the code the wait receives, computed by `AwaitCode` and characterised by `FirstCodeIsFirstDelivered`, `NoCodeTimesOut` and `FirstCodeNonEmpty` |
| OAuth.FirstCodeIsFirstDelivered | internal/auth/auth.go:91-92 | error callbacks do not end the wait; the first code delivered is used |
| OAuth.NoCodeTimesOut | internal/auth/auth.go:100-101 | with no code delivered the wait times out |
| OAuth.AwaitCode | internal/auth/auth.go:91-102 | the wait returns exactly `FirstCode` |
| OAuth.ExchangeClassification | internal/auth/auth.go:199-218 | a token only for status 200 with a parsable body, which is the token; other statuses and bad JSON are errors |
| OAuth.ExchangeOutcome | internal/auth/auth.go:199-218 | no ensures; the reply classification, characterised by `ExchangeClassification` |
| OAuth.Acquisition | internal/auth/auth.go:73-103 | no ensures; one acquisition's result, computed by `AcquireNewToken` and characterised by `TokenNeedsDeliveredCode` |
| OAuth.TokenNeedsDeliveredCode | internal/auth/auth.go:73-103 | a token is obtained only by posting a delivered non-empty code with the verifier and a 200 reply |
| OAuth.FirstCodeNonEmpty | internal/auth/auth.go:174-183 | a delivered code is never empty |
| OAuth.Authenticator.constructor | internal/auth/auth.go:36-45 | no PKCE values, no server, nothing shown |
| OAuth.Authenticator.GeneratePkce | internal/auth/auth.go:106-116 | from the 32 random bytes: the verifier is their encoding, 43 ASCII characters; the challenge is its S256 transform, 43 characters for a 32-byte digest; server and shown URLs unchanged |
| OAuth.Authenticator.AuthorizationUrl | internal/auth/auth.go:119-139 | none when the base URL does not parse, else the authorization query over it |
| OAuth.Authenticator.StartCallbackServer | internal/auth/auth.go:142-159 | the server is serving; nothing else changes |
| OAuth.Authenticator.StopCallbackServer | internal/auth/auth.go:162-169 | a started server is shut down; none started stays none |
| OAuth.Authenticator.ExchangeCodeForToken | internal/auth/auth.go:188-219 | posts the code with the current verifier and classifies the reply |
| OAuth.Authenticator.AcquireNewToken | internal/auth/auth.go:73-103 | new PKCE values from 32 random bytes; without a parsable URL nothing is shown or started; otherwise the URL is shown and the server is shut down on every exit; the result is `Acquisition` |
| OAuth.Authenticator.GetAccessToken | internal/auth/auth.go:48-70 | a cached token that loads and is still valid is returned with the authenticator unchanged (no PKCE values, no URL shown, no server); otherwise the acquisition's PKCE values, URL and server state, then either the stamped token saved (save failure ignored) or an empty token with the file untouched |

## Left out

- Concurrency is left out: the callback goroutine, the unbuffered code channel, the `select` with its five-minute timer, and the cache mutex. The callbacks that arrive before the timer are a sequence; running out of them is the timeout. A second callback that would block on the full channel is not modelled.
- The go-smtp server loop, `Logout` and `AuthMechanisms` are left out; they only log or return a constant list.
- Logging and printing the URL are left out. The shown URL is recorded as its query in a ghost sequence.
- `os.ReadFile`, `os.WriteFile` with mode 0600, and `os.Remove` are left out. The cache file is a value: missing, garbled or holding a token. A failed write leaves whatever the caller says.
- `json.MarshalIndent` failing is left out; it cannot fail for this record. JSON encoding of the token is taken to round-trip, `CachedAt` included.
- `TokenCache.TokenCacheManager.SaveToken` returns the stamped token instead of updating the caller's record through a pointer.
- `TokenCache.TokenResponse.RemainingValidity` and `IsExpired` use unbounded integers. They do not model `int64` overflow of `ExpiresIn * time.Second`, nor the monotonic clock reading.
- `QuotedPrintable.DecodeQuotedPrintable` takes the result of `fmt.Sscanf("%02X")` as a parameter. Only for two hex digits is it pinned down (`ScansHex`); for other bytes it is library behaviour.
- `QuotedPrintable.ReadString` does not model a reader error other than `io.EOF`, which a `strings.Reader` never returns.
- `MimeBody.SelectionOutcomes` does not model the detail of `mime.ErrInvalidMediaParameter`. A part's media type is whatever `ParseMediaType` returns, empty when none.
- `MimeBody.TransferDecode` is also applied to multipart parts, as the source does. But Go's `multipart.Reader` decodes a quoted-printable part itself and removes its encoding header. So a part never reaches the quoted-printable branch; a malformed one arrives as a read failure.
- `TokenCache.TokenCacheManager.ClearCache` treats `Missing` as no file at the path. A file that exists but cannot be read is not a separate state, so a read failure whose removal also fails is not modelled.
- `MimeBody.FoldRune` folds only the characters that can fold onto the letters of "base64" and "quoted-printable". These are ASCII letters, U+017F and U+212A; it is not a full Unicode simple fold.
- `OAuth.Authenticator.ExchangeCodeForToken` ignores an error reading the reply body, as the source does; the body is whatever was read.
- `OAuth.Authenticator.GeneratePkce` takes SHA-256 as a parameter. Its 32-byte output is a hypothesis of the PKCE methods, not something the model proves.
- `OAuth.Authenticator.StopCallbackServer` does not model the five-second shutdown deadline.
- The rest of the repository is not part of this model: the Graph client, configuration, commands, the bearer-token provider and the static credential.
