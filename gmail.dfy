/** Sending the digest mail: the rendered HTML is put into an RFC 2822-style
    message, encoded as unpadded base64url (section 5 of RFC 4648) and
    handed to Gmail. Rendering, UTF-8 encoding and the Gmail call are
    oracles. */
module GmailService {
  import opened Wrappers
  import opened Text
  import opened Json
  import opened Records
  import Base64

  // ------------------------------------------------------------- Message

  const ContentTypeLine: string := "Content-Type: text/html; charset=utf-8"

  /** The five header lines and the blank line that ends them; sender and
      recipient are both the digest's recipient. */
  function HeaderLines(to: string, subject: string): seq<string> {
    ["From: " + to, "To: " + to, "Subject: " + subject, ContentTypeLine, "MIME-Version: 1.0", ""]
  }

  /** `[...headers, '', html].join('\n')`. */
  function RawMessage(to: string, subject: string, html: string): string {
    Join(HeaderLines(to, subject) + [html], "\n")
  }

  /** Joining two non-empty lists is joining their joins. */
  lemma {:induction false} JoinAppend(a: seq<string>, b: seq<string>, sep: string)
    requires |a| >= 1 && |b| >= 1
    ensures Join(a + b, sep) == Join(a, sep) + sep + Join(b, sep)
  {
    if |a| == 1 {
      assert (a + b)[1..] == b;
    } else {
      JoinAppend(a[1..], b, sep);
      assert (a + b)[1..] == a[1..] + b;
    }
  }

  /** No header line holds a newline when the recipient and subject hold none. */
  lemma HeaderLinesNewlineFree(to: string, subject: string)
    requires '\n' !in to && '\n' !in subject
    ensures forall i :: 0 <= i < 6 ==> '\n' !in HeaderLines(to, subject)[i]
  {
  }

  /** Read back line by line, the message is the five header lines and the
      blank line, followed by the lines of the HTML, provided the recipient
      and subject hold no newline. */
  lemma RawMessageLines(to: string, subject: string, html: string)
    requires '\n' !in to && '\n' !in subject
    ensures var lines := Split(RawMessage(to, subject, html), '\n');
      |lines| >= 7 && lines[..6] == HeaderLines(to, subject) && Join(lines[6..], "\n") == html
  {
    var head := HeaderLines(to, subject);
    var body := Split(html, '\n');
    SplitShape(html, '\n');
    JoinAppend(head, [html], "\n");
    JoinAppend(head, body, "\n");
    assert RawMessage(to, subject, html) == Join(head + body, "\n");
    HeaderLinesNewlineFree(to, subject);
    forall i | 0 <= i < |head + body| ensures '\n' !in (head + body)[i] {
      if i >= 6 { assert (head + body)[i] == body[i - 6]; } else { assert (head + body)[i] == head[i]; }
    }
    SplitJoin(head + body, '\n');
    assert (head + body)[..6] == head;
    assert (head + body)[6..] == body;
  }

  // ----------------------------------------------------------- Base64url

  /** An unpadded base64url character: A-Z, a-z, 0-9, '-', '_'. */
  predicate IsUrlChar(c: char) {
    ('A' <= c <= 'Z') || ('a' <= c <= 'z') || ('0' <= c <= '9') || c == '-' || c == '_'
  }

  /** The standard encoding with '+' as '-', '/' as '_', and trailing '=' removed. */
  function EncodeRaw(bytes: seq<Base64.Byte>): string {
    TrimTrailing(ReplaceChar(ReplaceChar(Base64.Encode(bytes), '+', '-'), '/', '_'), '=')
  }

  /** `k` padding characters. */
  function Pads(k: nat): (r: string)
    ensures |r| == k && forall i :: 0 <= i < k ==> r[i] == '='
  {
    seq(k, _ => '=')
  }

  /** How a receiver of unpadded base64url reads it: the alphabet mapped back,
      the padding restored, then standard decoding. */
  function DecodeRaw(s: string): Option<seq<Base64.Byte>> {
    Base64.Decode(Repad(Unswap(s)))
  }

  /** The standard alphabet mapped back: '-' as '+', '_' as '/'. */
  function Unswap(s: string): string {
    ReplaceChar(ReplaceChar(s, '-', '+'), '_', '/')
  }

  /** Padding restored up to a multiple of four characters. */
  function Repad(t: string): string {
    t + Pads((4 - |t| % 4) % 4)
  }

  /** The URL form of a standard character. */
  function UrlChar(c: char): char {
    if c == '+' then '-' else if c == '/' then '_' else c
  }

  /** Removing the trailing '=' of a text that ends in a run of exactly the
      characters from `n` on cuts it at `n`. */
  lemma TrimPadding(u: string, n: nat)
    requires n <= |u|
    requires forall i :: 0 <= i < n ==> u[i] != '='
    requires forall i :: n <= i < |u| ==> u[i] == '='
    ensures TrimTrailing(u, '=') == u[..n]
  {
  }

  /** Swapping in the URL characters keeps the padding and turns standard
      characters into URL ones. */
  lemma SwapShape(e: string, n: nat)
    requires n <= |e|
    requires forall i :: 0 <= i < n ==> Base64.IsStdChar(e[i])
    requires forall i :: n <= i < |e| ==> e[i] == '='
    ensures var u := ReplaceChar(ReplaceChar(e, '+', '-'), '/', '_');
      |u| == |e| &&
      (forall i :: 0 <= i < n ==> u[i] == UrlChar(e[i]) && IsUrlChar(u[i]) && u[i] != '=') &&
      (forall i :: n <= i < |u| ==> u[i] == '=')
  {
  }

  /** The encoding is the standard one cut before its padding, with the two
      characters of the URL alphabet swapped in. */
  lemma EncodeRawShape(bytes: seq<Base64.Byte>)
    ensures var e := Base64.Encode(bytes); var r := EncodeRaw(bytes);
      |r| == |e| - Base64.PadCount(|bytes|) &&
      forall i :: 0 <= i < |r| ==> IsUrlChar(r[i]) && r[i] == UrlChar(e[i])
  {
    var e := Base64.Encode(bytes);
    var u := ReplaceChar(ReplaceChar(e, '+', '-'), '/', '_');
    var n := |e| - Base64.PadCount(|bytes|);
    Base64.EncodeShape(bytes);
    SwapShape(e, n);
    TrimPadding(u, n);
  }

  /** The encoding uses only the URL alphabet: no '+', '/' or '='. */
  lemma EncodeRawAlphabet(bytes: seq<Base64.Byte>)
    ensures forall c :: c in EncodeRaw(bytes) ==> IsUrlChar(c) && c != '+' && c != '/' && c != '='
  {
    EncodeRawShape(bytes);
  }

  /** Mapping the URL alphabet back gives the standard encoding without its padding. */
  lemma UnswapEncodeRaw(bytes: seq<Base64.Byte>)
    ensures var e := Base64.Encode(bytes);
      Unswap(EncodeRaw(bytes)) == e[..|e| - Base64.PadCount(|bytes|)]
  {
    var e := Base64.Encode(bytes);
    var t := Unswap(EncodeRaw(bytes));
    EncodeRawShape(bytes);
    Base64.EncodeShape(bytes);
    forall i | 0 <= i < |t| ensures t[i] == e[i] {
      assert Base64.IsStdChar(e[i]);
    }
  }

  /** The padding `DecodeRaw` restores is the padding the encoder dropped. */
  lemma RepadCount(n: nat)
    ensures (4 - (4 * ((n + 2) / 3) - Base64.PadCount(n)) % 4) % 4 == Base64.PadCount(n)
  {
    var k := (n + 2) / 3;
    var p := Base64.PadCount(n);
    assert p <= 2;
    if p == 0 {
      assert (4 * k) % 4 == 0;
    } else {
      assert 4 * k - p == 4 * (k - 1) + (4 - p);
      assert (4 * (k - 1) + (4 - p)) % 4 == 4 - p;
    }
  }

  /** Mapping the alphabet back and restoring the padding rebuilds the
      standard encoding. */
  lemma RepadEncodeRaw(bytes: seq<Base64.Byte>)
    ensures Repad(Unswap(EncodeRaw(bytes))) == Base64.Encode(bytes)
  {
    var e := Base64.Encode(bytes);
    var p := Base64.PadCount(|bytes|);
    var t := Unswap(EncodeRaw(bytes));
    UnswapEncodeRaw(bytes);
    Base64.EncodeShape(bytes);
    RepadCount(|bytes|);
    assert |t| == 4 * ((|bytes| + 2) / 3) - p;
    assert (4 - |t| % 4) % 4 == p;
    RestorePads(e, p);
  }

  /** Re-padding and decoding the encoding gives the message bytes back. */
  lemma DecodeRawEncodeRaw(bytes: seq<Base64.Byte>)
    ensures DecodeRaw(EncodeRaw(bytes)) == Some(bytes)
  {
    RepadEncodeRaw(bytes);
    Base64.DecodeEncode(bytes);
  }

  /** Text that ends in `p` padding characters is its front and `p` pads. */
  lemma RestorePads(e: string, p: nat)
    requires p <= |e| && forall i :: |e| - p <= i < |e| ==> e[i] == '='
    ensures e[..|e| - p] + Pads(p) == e
  {
  }

  // ------------------------------------------------------------ Delivery

  /** The value of property `key` of a value that is not null. */
  function Prop(v: Json, key: string): Option<Json>
    requires !v.JNull?
  {
    PropertyRead(v, key).value
  }

  /** The props of the email component. Reading the first list of a null
      digest value throws a TypeError before anything is rendered. */
  function RenderInputOf(digest: Json, totalScanned: int, totalSelected: int, date: string): (r: Result<RenderInput, Error>)
    ensures r.Failure? <==> digest.JNull?
  {
    match PropertyRead(digest, "generalUpdates")
    case Failure(e) => Failure(e)
    case Success(general) =>
      Success(RenderInput(totalScanned, totalSelected, general, Prop(digest, "launches"), Prop(digest, "tools"),
                          Prop(digest, "productInspirations"), Prop(digest, "marketingIdeas"), date))
  }

  /** The outcome of `sendEmailViaGmail` (the message id, or the error it
      throws) and the requests it makes. */
  datatype Delivery = Delivery(result: Result<Option<string>, Error>, events: seq<Event>)

  /** `sendEmailViaGmail`: render, assemble, encode, send; every error is
      rethrown as it is. */
  function Deliver(svc: Services, accessToken: string, refreshToken: Option<string>, to: string, subject: string,
                   digest: Json, totalScanned: int, totalSelected: int, date: string): (d: Delivery)
    ensures forall e :: e in d.events ==> e.Rendered? || e.MailSent?
  {
    match RenderInputOf(digest, totalScanned, totalSelected, date)
    case Failure(e) => Delivery(Failure(e), [])
    case Success(input) =>
      match svc.render(input)
      case Failure(e) => Delivery(Failure(e), [Rendered(input)])
      case Success(html) =>
        var raw := EncodeRaw(svc.utf8(RawMessage(to, subject, html)));
        match svc.send(accessToken, refreshToken, raw)
        case SendThrew(e) => Delivery(Failure(e), [Rendered(input), MailSent(accessToken, refreshToken, raw)])
        case Sent(id) => Delivery(Success(id), [Rendered(input), MailSent(accessToken, refreshToken, raw)])
  }

  /** The renderer is given both counts, the date and the digest's five
      lists unchanged. */
  lemma DeliverRenders(svc: Services, accessToken: string, refreshToken: Option<string>, to: string, subject: string,
                       digest: Json, totalScanned: int, totalSelected: int, date: string)
    requires digest.JObj?
    ensures var d := Deliver(svc, accessToken, refreshToken, to, subject, digest, totalScanned, totalSelected, date);
      |d.events| >= 1 && d.events[0] == Rendered(RenderInput(totalScanned, totalSelected,
        Member(digest.members, "generalUpdates"), Member(digest.members, "launches"), Member(digest.members, "tools"),
        Member(digest.members, "productInspirations"), Member(digest.members, "marketingIdeas"), date))
  {
  }

  /** The message sent is the assembled message: its raw text decodes to the
      UTF-8 bytes of the header lines and the rendered HTML, with the
      recipient as sender, and the caller's tokens go with it. */
  lemma DeliverSendsMessage(svc: Services, accessToken: string, refreshToken: Option<string>, to: string, subject: string,
                            digest: Json, totalScanned: int, totalSelected: int, date: string)
    ensures var d := Deliver(svc, accessToken, refreshToken, to, subject, digest, totalScanned, totalSelected, date);
      forall e :: e in d.events && e.MailSent? ==>
        e.accessToken == accessToken && e.refreshToken == refreshToken &&
        var input := RenderInputOf(digest, totalScanned, totalSelected, date).value;
        svc.render(input).Success? &&
        DecodeRaw(e.raw) == Some(svc.utf8(RawMessage(to, subject, svc.render(input).value)))
  {
    match RenderInputOf(digest, totalScanned, totalSelected, date)
    case Failure(_) =>
    case Success(input) =>
      match svc.render(input)
      case Failure(_) =>
      case Success(html) =>
        var bytes := svc.utf8(RawMessage(to, subject, html));
        DecodeRawEncodeRaw(bytes);
        var d := Deliver(svc, accessToken, refreshToken, to, subject, digest, totalScanned, totalSelected, date);
        assert d.events == [Rendered(input), MailSent(accessToken, refreshToken, EncodeRaw(bytes))];
  }

  /** Success exactly when rendering worked and Gmail answered, with Gmail's
      message id; otherwise the very error thrown is passed on, a 401 or an
      'EAUTH' one included, after at most one send and with no retry. */
  lemma DeliverOutcome(svc: Services, accessToken: string, refreshToken: Option<string>, to: string, subject: string,
                       digest: Json, totalScanned: int, totalSelected: int, date: string)
    ensures var d := Deliver(svc, accessToken, refreshToken, to, subject, digest, totalScanned, totalSelected, date);
      var input := RenderInputOf(digest, totalScanned, totalSelected, date);
      |d.events| <= 2 &&
      (forall i :: 0 <= i < |d.events| ==> (d.events[i].MailSent? <==> i == 1)) &&
      if input.Failure? then d.result == Failure(input.error) && d.events == []
      else if svc.render(input.value).Failure? then d.result == Failure(svc.render(input.value).error)
      else
        var raw := EncodeRaw(svc.utf8(RawMessage(to, subject, svc.render(input.value).value)));
        var reply := svc.send(accessToken, refreshToken, raw);
        d.result == (if reply.Sent? then Success(reply.messageId) else Failure(reply.error))
  {
    match RenderInputOf(digest, totalScanned, totalSelected, date)
    case Failure(e) =>
    case Success(input) =>
      match svc.render(input)
      case Failure(_) =>
      case Success(html) =>
  }

  /** A null digest value fails before rendering, with the TypeError of the
      property read. */
  lemma DeliverNullDigest(svc: Services, accessToken: string, refreshToken: Option<string>, to: string, subject: string,
                          totalScanned: int, totalSelected: int, date: string)
    ensures Deliver(svc, accessToken, refreshToken, to, subject, JNull, totalScanned, totalSelected, date) ==
      Delivery(Failure(Error("Cannot read properties of null (reading 'generalUpdates')", NoCode)), [])
  {
    assert "Cannot read properties of null (reading '" + "generalUpdates" + "')"
        == "Cannot read properties of null (reading 'generalUpdates')";
  }
}
