/**
 * The SMTP side of the gateway (internal/smtp/handler.go): the per-connection
 * session record, the PLAIN credential check, and the `DATA` command that
 * turns a received message into one call of the mail-sending client.
 *
 * The go-smtp and go-sasl libraries, `mail.ReadMessage`, `mime.WordDecoder`
 * and `mail.ParseAddressList` are foreign code: the parsed message and the two
 * header decoders arrive as inputs. The client is a sink that records, in a
 * ghost sequence, every call it receives; whether the call fails is an input.
 */
module SmtpSession {
  import opened Wrappers
  import opened Octets
  import MimeBody

  /** One call to the mail-sending client: the CC-capable send, or the single-recipient one. */
  datatype SendCall =
    | SendWithCc(to: seq<string>, cc: seq<string>, subject: string, body: seq<Byte>, isHTML: bool)
    | SendSingle(recipient: string, subject: string, body: seq<Byte>, isHTML: bool)

  /** The mail-sending client, seen only through the calls it receives. */
  class GraphClient {
    ghost var sent: seq<SendCall>

    constructor()
      ensures sent == []
    {
      sent := [];
    }

    /** Hands one call to the service; `fails` is the service's answer. */
    method Send(call: SendCall, fails: bool) returns (ok: bool)
      modifies this
      ensures sent == old(sent) + [call]
      ensures ok == !fails
    {
      sent := sent + [call];
      ok := !fails;
    }
  }

  /** The backend every session shares: the client and the configured credentials. */
  class Backend {
    const client: GraphClient
    const username: string
    const password: string

    constructor(client: GraphClient, username: string, password: string)
      ensures this.client == client && this.username == username && this.password == password
    {
      this.client := client;
      this.username := username;
      this.password := password;
    }
  }

  /** The SASL mechanism name of PLAIN (RFC 4616), the only one offered. */
  const Plain: string := "PLAIN"

  /** An address as `mail.ParseAddressList` yields it; only its address part is used. */
  datatype MailAddress = MailAddress(name: string, address: string)

  /** The two header decoders `Data` relies on: RFC 2047 encoded words, and address lists. */
  datatype HeaderCodecs = HeaderCodecs(decodeWords: string -> Option<string>,
                                       parseAddresses: string -> Option<seq<MailAddress>>)

  /**
   * A message as `mail.ReadMessage` returns it: the raw Subject and Cc header
   * values ("" when absent, as `Header.Get` gives) and the parsed body.
   */
  datatype Message = Message(subject: string, cc: string, body: MimeBody.MessageBody)

  datatype DataError = MessageParseFailed | NoRecipients | SendFailed

  /** The session fields, as one value. */
  datatype Envelope = Envelope(from: string, to: seq<string>, authenticated: bool)

  /** The body sent when extraction fails: "（本文を抽出できませんでした）" in UTF-8. */
  const Placeholder: seq<Byte> := [
    0xEF, 0xBC, 0x88, 0xE6, 0x9C, 0xAC, 0xE6, 0x96, 0x87, 0xE3, 0x82, 0x92,
    0xE6, 0x8A, 0xBD, 0xE5, 0x87, 0xBA, 0xE3, 0x81, 0xA7, 0xE3, 0x81, 0x8D,
    0xE3, 0x81, 0xBE, 0xE3, 0x81, 0x9B, 0xE3, 0x82, 0x93, 0xE3, 0x81, 0xA7,
    0xE3, 0x81, 0x97, 0xE3, 0x81, 0x9F, 0xEF, 0xBC, 0x89]

  /** `decodeHeader`: the decoded header, or the header itself when decoding fails. */
  function DecodeHeader(header: string, decodeWords: string -> Option<string>): string {
    match decodeWords(header)
    case Some(decoded) => decoded
    case None => header
  }

  /** The address part of each parsed address, in order. */
  function Addresses(list: seq<MailAddress>): (out: seq<string>)
    ensures |out| == |list|
    ensures forall i :: 0 <= i < |list| ==> out[i] == list[i].address
  {
    seq(|list|, i requires 0 <= i < |list| => list[i].address)
  }

  /** The CC recipients: none for an absent or unparseable header, else the parsed addresses. */
  function CcAddresses(header: string, parseAddresses: string -> Option<seq<MailAddress>>): seq<string> {
    if header == "" then []
    else match parseAddresses(header)
      case Some(list) => Addresses(list)
      case None => []
  }

  /** The body and HTML flag to send: the extracted text, or the placeholder as plain text. */
  function BodyToSend(body: MimeBody.MessageBody, codecs: MimeBody.Codecs): MimeBody.Extracted {
    match MimeBody.Extraction(body, codecs)
    case Success(extracted) => extracted
    case Failure(_) => MimeBody.Extracted(Placeholder, false)
  }

  /** The dispatch: the CC-capable send when there is any CC, else the single send to the first recipient, else no recipients. */
  function Dispatch(to: seq<string>, cc: seq<string>, subject: string, content: MimeBody.Extracted): Result<SendCall, DataError> {
    if |cc| > 0 then Success(SendWithCc(to, cc, subject, content.text, content.isHTML))
    else if |to| == 0 then Failure(NoRecipients)
    else Success(SendSingle(to[0], subject, content.text, content.isHTML))
  }

  /** What `Data` does with a parsed message in a session: the call it makes, or the error it returns before sending. */
  function Outcome(envelope: Envelope, msg: Message, codecs: MimeBody.Codecs, headers: HeaderCodecs): Result<SendCall, DataError> {
    Dispatch(envelope.to,
             CcAddresses(msg.cc, headers.parseAddresses),
             DecodeHeader(msg.subject, headers.decodeWords),
             BodyToSend(msg.body, codecs))
  }

  /** The loop that collects the address of every parsed CC entry. */
  method CollectAddresses(list: seq<MailAddress>) returns (out: seq<string>)
    ensures out == Addresses(list)
  {
    out := [];
    for i := 0 to |list|
      invariant out == Addresses(list[..i])
    {
      assert Addresses(list[..i + 1]) == Addresses(list[..i]) + [list[i].address];
      out := out + [list[i].address];
    }
    assert list[..|list|] == list;
  }

  /** A connection's session. */
  class Session {
    const backend: Backend
    var from: string
    var to: seq<string>
    var authenticated: bool

    function Fields(): Envelope
      reads this
    {
      Envelope(from, to, authenticated)
    }

    /** `NewSession`: a fresh, unauthenticated session with no sender and no recipients. */
    constructor(backend: Backend)
      ensures this.backend == backend
      ensures from == "" && to == [] && !authenticated
    {
      this.backend := backend;
      from := "";
      to := [];
      authenticated := false;
    }

    /** `Reset`: forgets the sender and the recipients, but not the authentication. */
    method Reset()
      modifies this
      ensures from == "" && to == []
      ensures authenticated == old(authenticated)
    {
      from := "";
      to := [];
    }

    /** `Mail`: sets the sender, nothing else. */
    method Mail(sender: string)
      modifies this
      ensures from == sender
      ensures to == old(to) && authenticated == old(authenticated)
    {
      from := sender;
    }

    /** `Rcpt`: appends one recipient, keeping order and duplicates, nothing else. */
    method Rcpt(recipient: string)
      modifies this
      ensures to == old(to) + [recipient]
      ensures from == old(from) && authenticated == old(authenticated)
    {
      to := to + [recipient];
    }

    /** `Auth`: only PLAIN is accepted, and choosing it changes nothing yet. */
    method Auth(mechanism: string) returns (accepted: bool)
      ensures accepted <==> mechanism == Plain
    {
      accepted := mechanism == Plain;
    }

    /**
     * The PLAIN server's credential callback: succeeds exactly when both the
     * username and the password are the backend's, and only then marks the
     * session authenticated. The authorization identity is ignored.
     */
    method PlainCallback(identity: string, username: string, password: string) returns (ok: bool)
      modifies this
      ensures ok <==> username == backend.username && password == backend.password
      ensures authenticated == (old(authenticated) || ok)
      ensures from == old(from) && to == old(to)
    {
      if username != backend.username || password != backend.password {
        return false;
      }
      authenticated := true;
      return true;
    }

    /**
     * `Data`: a message that does not parse is an error with no send; otherwise
     * the dispatch decides the one call to make, and a failing call is an error.
     * The session itself is neither read for `from`/`authenticated` nor changed.
     */
    method Data(msg: Option<Message>, codecs: MimeBody.Codecs, headers: HeaderCodecs, sendFails: bool)
      returns (r: Result<(), DataError>)
      modifies backend.client
      ensures msg.None? ==> r == Failure(MessageParseFailed) && backend.client.sent == old(backend.client.sent)
      ensures msg.Some? && Outcome(Fields(), msg.value, codecs, headers).Failure? ==>
                r == Failure(Outcome(Fields(), msg.value, codecs, headers).error)
                && backend.client.sent == old(backend.client.sent)
      ensures msg.Some? && Outcome(Fields(), msg.value, codecs, headers).Success? ==>
                backend.client.sent == old(backend.client.sent) + [Outcome(Fields(), msg.value, codecs, headers).value]
                && r == (if sendFails then Failure(SendFailed) else Success(()))
    {
      if msg.None? {
        return Failure(MessageParseFailed);
      }
      var message := msg.value;
      var subject := DecodeHeader(message.subject, headers.decodeWords);
      var cc: seq<string> := [];
      if message.cc != "" {
        var parsed := headers.parseAddresses(message.cc);
        if parsed.Some? {
          cc := CollectAddresses(parsed.value);
        }
      }
      var extracted := MimeBody.ExtractBody(message.body, codecs);
      var content: MimeBody.Extracted;
      if extracted.Failure? {
        content := MimeBody.Extracted(Placeholder, false);
      } else {
        content := extracted.value;
      }
      var call: SendCall;
      if |cc| > 0 {
        call := SendWithCc(to, cc, subject, content.text, content.isHTML);
      } else {
        if |to| == 0 {
          return Failure(NoRecipients);
        }
        call := SendSingle(to[0], subject, content.text, content.isHTML);
      }
      var ok := backend.client.Send(call, sendFails);
      if !ok {
        return Failure(SendFailed);
      }
      return Success(());
    }
  }

  /** `Data` has no authentication gate and no sender choice: two sessions with the same recipients make the same call. */
  lemma NoAuthGate(a: Envelope, b: Envelope, msg: Message, codecs: MimeBody.Codecs, headers: HeaderCodecs)
    requires a.to == b.to
    ensures Outcome(a, msg, codecs, headers) == Outcome(b, msg, codecs, headers)
  {
  }

  /** With any CC, the CC-capable send gets the whole recipient list and the CC list, even when there are no recipients. */
  lemma CcSendsToWholeList(envelope: Envelope, msg: Message, codecs: MimeBody.Codecs, headers: HeaderCodecs)
    requires |CcAddresses(msg.cc, headers.parseAddresses)| > 0
    ensures Outcome(envelope, msg, codecs, headers).Success?
    ensures Outcome(envelope, msg, codecs, headers).value.SendWithCc?
    ensures Outcome(envelope, msg, codecs, headers).value.to == envelope.to
    ensures Outcome(envelope, msg, codecs, headers).value.cc == CcAddresses(msg.cc, headers.parseAddresses)
  {
  }

  /** Without CC, a session without recipients sends nothing and reports it. */
  lemma NoRecipientsNoSend(envelope: Envelope, msg: Message, codecs: MimeBody.Codecs, headers: HeaderCodecs)
    requires CcAddresses(msg.cc, headers.parseAddresses) == [] && envelope.to == []
    ensures Outcome(envelope, msg, codecs, headers) == Failure(NoRecipients)
  {
  }

  /** Without CC, only the first recipient is used; any others are dropped. */
  lemma SingleSendUsesFirst(envelope: Envelope, msg: Message, codecs: MimeBody.Codecs, headers: HeaderCodecs)
    requires CcAddresses(msg.cc, headers.parseAddresses) == [] && |envelope.to| > 0
    ensures Outcome(envelope, msg, codecs, headers).Success?
    ensures Outcome(envelope, msg, codecs, headers).value == SendSingle(envelope.to[0],
              DecodeHeader(msg.subject, headers.decodeWords),
              BodyToSend(msg.body, codecs).text, BodyToSend(msg.body, codecs).isHTML)
  {
  }

  /** An unparseable Cc header is the same as no Cc header. */
  lemma UnparseableCcIsNoCc(envelope: Envelope, msg: Message, codecs: MimeBody.Codecs, headers: HeaderCodecs)
    requires headers.parseAddresses(msg.cc).None?
    ensures Outcome(envelope, msg, codecs, headers) == Outcome(envelope, msg.(cc := ""), codecs, headers)
  {
  }

  /** Every address a call names is a session recipient or a parsed CC address. */
  lemma CallNamesOnlyKnownAddresses(envelope: Envelope, msg: Message, codecs: MimeBody.Codecs, headers: HeaderCodecs)
    requires Outcome(envelope, msg, codecs, headers).Success?
    ensures Outcome(envelope, msg, codecs, headers).value.SendSingle? ==>
              Outcome(envelope, msg, codecs, headers).value.recipient in envelope.to
    ensures Outcome(envelope, msg, codecs, headers).value.SendWithCc? ==>
              Outcome(envelope, msg, codecs, headers).value.to == envelope.to
              && forall i :: 0 <= i < |Outcome(envelope, msg, codecs, headers).value.cc| ==>
                   Outcome(envelope, msg, codecs, headers).value.cc[i] in CcAddresses(msg.cc, headers.parseAddresses)
  {
  }

  /** When extraction fails the message is still sent, with the placeholder as plain text. */
  lemma ExtractionFailureSendsPlaceholder(envelope: Envelope, msg: Message, codecs: MimeBody.Codecs, headers: HeaderCodecs)
    requires MimeBody.Extraction(msg.body, codecs).Failure?
    requires Outcome(envelope, msg, codecs, headers).Success?
    ensures Outcome(envelope, msg, codecs, headers).value.body == Placeholder
    ensures !Outcome(envelope, msg, codecs, headers).value.isHTML
  {
  }

  /** The subject is the decoded header, or the raw header when it does not decode. */
  lemma SubjectFallback(header: string, decodeWords: string -> Option<string>)
    ensures decodeWords(header).None? ==> DecodeHeader(header, decodeWords) == header
    ensures decodeWords(header).Some? ==> DecodeHeader(header, decodeWords) == decodeWords(header).value
  {
  }
}
