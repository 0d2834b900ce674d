/** Message assembly: `EmailSender._make_email` and the argument normalisation in
    `EmailSender.send` (tickets_polls/base/u_email.py). The MIME object the source
    fills in with `attach` and header assignments is modelled as the value
    `Email`; the MIME classes' own serialisation is not part of this model. */
module MessageBuilder {
  import opened Wrappers
  import opened Errors
  import opened Strings
  import opened EncodedWord
  import Base64

  type Byte = Base64.Byte

  /** `text.encode(charset)`: the bytes of `text` in `charset`, or `None` where
      Python raises (an unknown charset, a character the charset lacks). */
  type Transcoder = (string, string) -> Option<seq<Byte>>

  /** An attachment `(name, fp)`; `content` is `fp.getvalue()`. */
  datatype Attachment = Attachment(name: string, content: seq<Byte>)

  /** The `attachs` argument: `None`, one tuple, or a list of tuples. */
  datatype Attachments = NoAttachments | OneAttachment(item: Attachment) | AttachmentList(items: seq<Attachment>)

  /** The `to_addrs` argument: one `str`, or a list of them. */
  datatype Recipients = OneAddress(addr: string) | AddressList(addrs: seq<string>)

  datatype Part =
    /** `MIMEText(mail_msg, _subtype='html', _charset=charset)`. */
    | HtmlPart(html: string, charset: string)
    /** `MIMEApplication(content, subtype)` with
        `Content-Disposition: attachment; filename=<filename>`. */
    | ApplicationPart(content: seq<Byte>, subtype: string, filename: string)

  datatype Payload = SinglePart(part: Part) | Multipart(parts: seq<Part>)

  /** `Header(subject, charset)`: its own encoding and folding are library code,
      so the subject stays the text and charset it is built from. */
  datatype Subject = Subject(text: string, charset: string)

  datatype Email = Email(payload: Payload, subject: Subject, from: string, to: string)

  const SpreadsheetSubtype: string := "vnd.openxmlformats-officedocument.spreadsheetml.sheet"

  /** The display name of the sender ("ticket management platform"). */
  const SenderName: string := "票券管理平台"

  /** The display name given to every recipient ("platform user"). */
  const RecipientName: string := "平台用户"

  /** A lone address becomes a one-element list; a list passes through unchanged. */
  function NormalizeRecipients(to: Recipients): (addrs: seq<string>)
    ensures to.OneAddress? ==> addrs == [to.addr]
    ensures to.AddressList? ==> addrs == to.addrs
  {
    match to
    case OneAddress(a) => [a]
    case AddressList(list) => list
  }

  /** `None` stays absent, a lone tuple becomes a one-element list, a list passes through. */
  function NormalizeAttachments(attachs: Attachments): (items: Option<seq<Attachment>>)
    ensures attachs.NoAttachments? <==> items.None?
    ensures attachs.OneAttachment? ==> items == Some([attachs.item])
    ensures attachs.AttachmentList? ==> items == Some(attachs.items)
  {
    match attachs
    case NoAttachments => None
    case OneAttachment(a) => Some([a])
    case AttachmentList(list) => Some(list)
  }

  /** `rfc2047(text, charset)` including its `text.encode(charset)` step: `None`
      where that step raises. */
  function EncodeWord(text: string, charset: string, transcode: Transcoder): Option<string>
  {
    match transcode(text, charset)
    case None => None
    case Some(bytes) => Some(Rfc2047(bytes, charset))
  }

  /** A `From`/`To` entry: `<display name> <addr>`. */
  function Mailbox(word: string, addr: string): string
  {
    word + " <" + addr + ">"
  }

  /** The entries of the `To` header, one per recipient, in recipient order. */
  function ToEntries(word: string, addrs: seq<string>): (entries: seq<string>)
    ensures |entries| == |addrs|
    ensures forall i | 0 <= i < |addrs| :: entries[i] == Mailbox(word, addrs[i])
  {
    if |addrs| == 0 then [] else [Mailbox(word, addrs[0])] + ToEntries(word, addrs[1..])
  }

  /** `';'.join([f'{word} <{a}>' for a in addrs])`. */
  function ToHeader(word: string, addrs: seq<string>): string
  {
    Join(ToEntries(word, addrs), ';')
  }

  /** The `To` header reads back as exactly one entry per recipient, in order,
      when neither the display word nor any address holds ';'; with no recipients
      it is empty. */
  lemma ToHeaderEntries(word: string, addrs: seq<string>)
    requires ';' !in word
    requires forall i | 0 <= i < |addrs| :: ';' !in addrs[i]
    ensures |addrs| == 0 ==> ToHeader(word, addrs) == ""
    ensures |addrs| > 0 ==> Split(ToHeader(word, addrs), ';') == ToEntries(word, addrs)
  {
    if |addrs| > 0 {
      var entries := ToEntries(word, addrs);
      forall k | 0 <= k < |entries| ensures ';' !in entries[k] {
        assert entries[k] == word + " <" + addrs[k] + ">";
      }
      SplitJoin(entries, ';');
    }
  }

  /** The names of the attachments, in order. */
  function Names(items: seq<Attachment>): (names: seq<string>)
    ensures |names| == |items|
    ensures forall k | 0 <= k < |items| :: names[k] == items[k].name
  {
    if |items| == 0 then [] else [items[0].name] + Names(items[1..])
  }

  /** The texts `_make_email` passes through `rfc2047`, in the order it does so:
      each attachment name, the sender's display name, then the recipients'
      display name once per recipient (not at all when there is none). */
  function EncodedTexts(items: Option<seq<Attachment>>, to: seq<string>): seq<string>
  {
    (if items.Some? then Names(items.value) else [])
    + [SenderName]
    + (if |to| > 0 then [RecipientName] else [])
  }

  /** The first text that cannot be encoded, which is the one whose exception
      leaves `_make_email`. */
  function FirstUnencodable(texts: seq<string>, charset: string, transcode: Transcoder): (r: Option<string>)
    ensures r.Some? ==> r.value in texts && transcode(r.value, charset).None?
    ensures r.None? <==> forall k | 0 <= k < |texts| :: transcode(texts[k], charset).Some?
  {
    if |texts| == 0 then None
    else if transcode(texts[0], charset).None? then Some(texts[0])
    else FirstUnencodable(texts[1..], charset, transcode)
  }

  lemma {:induction false} FirstUnencodableConcat(a: seq<string>, b: seq<string>, charset: string, transcode: Transcoder)
    ensures FirstUnencodable(a + b, charset, transcode)
         == if FirstUnencodable(a, charset, transcode).Some? then FirstUnencodable(a, charset, transcode)
            else FirstUnencodable(b, charset, transcode)
  {
    if |a| > 0 {
      assert (a + b)[1..] == a[1..] + b;
      FirstUnencodableConcat(a[1..], b, charset, transcode);
    } else {
      assert a + b == b;
    }
  }

  /** The first failing text is the one after a run of encodable ones. */
  lemma {:induction false} FirstUnencodableAt(texts: seq<string>, i: nat, charset: string, transcode: Transcoder)
    requires i < |texts|
    requires forall k | 0 <= k < i :: transcode(texts[k], charset).Some?
    requires transcode(texts[i], charset).None?
    ensures FirstUnencodable(texts, charset, transcode) == Some(texts[i])
  {
    if i > 0 {
      FirstUnencodableAt(texts[1..], i - 1, charset, transcode);
    }
  }

  /** `part` is the spreadsheet part `_make_email` attaches for `item`: its bytes,
      the spreadsheet subtype, and the encoded word of its name as file name. */
  predicate IsAttachmentPart(part: Part, item: Attachment, charset: string, transcode: Transcoder)
  {
    && part.ApplicationPart?
    && part.content == item.content
    && part.subtype == SpreadsheetSubtype
    && EncodeWord(item.name, charset, transcode) == Some(part.filename)
  }

  /** The multipart container: the HTML part first, then exactly one attachment
      part per attachment, in input order. */
  predicate IsContainer(parts: seq<Part>, html: string, items: seq<Attachment>, charset: string, transcode: Transcoder)
  {
    && |parts| == |items| + 1
    && parts[0] == HtmlPart(html, charset)
    && forall k | 0 <= k < |items| :: IsAttachmentPart(parts[k + 1], items[k], charset, transcode)
  }

  /** The body of `_make_email` up to its header assignments: the HTML part alone
      when there are no attachments; otherwise (even for an empty list) a
      container built by attaching one part per attachment. The first name that
      cannot be encoded makes it fail. */
  method BuildPayload(html: string, charset: string, transcode: Transcoder, attachs: Attachments)
    returns (r: Result<Payload, Exc>)
    ensures var normalized := NormalizeAttachments(attachs);
      var bad := FirstUnencodable(if normalized.Some? then Names(normalized.value) else [], charset, transcode);
      (r.Failure? <==> bad.Some?) && (r.Failure? ==> r.error == EncodeError(bad.value, charset))
    ensures r.Success? && attachs.NoAttachments? ==> r.value == SinglePart(HtmlPart(html, charset))
    ensures r.Success? && !attachs.NoAttachments? ==>
      r.value.Multipart? && IsContainer(r.value.parts, html, NormalizeAttachments(attachs).value, charset, transcode)
  {
    var normalized := NormalizeAttachments(attachs);
    if normalized.None? {
      return Success(SinglePart(HtmlPart(html, charset)));
    }
    var items := normalized.value;
    ghost var names := Names(items);
    var parts := [HtmlPart(html, charset)];
    var i := 0;
    while i < |items|
      invariant 0 <= i <= |items|
      invariant |parts| == i + 1 && parts[0] == HtmlPart(html, charset)
      invariant forall k | 0 <= k < i :: IsAttachmentPart(parts[k + 1], items[k], charset, transcode)
    {
      var word := EncodeWord(items[i].name, charset, transcode);
      if word.None? {
        FirstUnencodableAt(names, i, charset, transcode);
        return Failure(EncodeError(items[i].name, charset));
      }
      parts := parts + [ApplicationPart(items[i].content, SpreadsheetSubtype, word.value)];
      i := i + 1;
    }
    r := Success(Multipart(parts));
  }

  /** `_make_email(to_addrs, subject, mail_msg, attachs)` under `charset` and
      `sender`: the payload of `BuildPayload`, the subject, a `From` header made
      of the sender's encoded display name and address, and a `To` header with
      one entry per recipient. The first text whose encoding fails, in the order
      the source encodes them, makes the whole call fail. */
  method MakeEmail(charset: string, sender: string, transcode: Transcoder,
                   to: seq<string>, subject: string, html: string, attachs: Attachments)
    returns (r: Result<Email, Exc>)
    ensures var bad := FirstUnencodable(EncodedTexts(NormalizeAttachments(attachs), to), charset, transcode);
      (r.Failure? <==> bad.Some?) && (r.Failure? ==> r.error == EncodeError(bad.value, charset))
    ensures r.Success? ==> r.value.subject == Subject(subject, charset)
    ensures r.Success? ==>
      EncodeWord(SenderName, charset, transcode).Some? &&
      r.value.from == Mailbox(EncodeWord(SenderName, charset, transcode).value, sender)
    ensures r.Success? && |to| == 0 ==> r.value.to == ""
    ensures r.Success? && |to| > 0 ==>
      EncodeWord(RecipientName, charset, transcode).Some? &&
      r.value.to == ToHeader(EncodeWord(RecipientName, charset, transcode).value, to)
    ensures r.Success? && attachs.NoAttachments? ==> r.value.payload == SinglePart(HtmlPart(html, charset))
    ensures r.Success? && !attachs.NoAttachments? ==>
      r.value.payload.Multipart? &&
      IsContainer(r.value.payload.parts, html, NormalizeAttachments(attachs).value, charset, transcode)
  {
    var normalized := NormalizeAttachments(attachs);
    ghost var names := if normalized.Some? then Names(normalized.value) else [];
    ghost var tailTexts := [SenderName] + (if |to| > 0 then [RecipientName] else []);
    assert EncodedTexts(normalized, to) == names + tailTexts;
    FirstUnencodableConcat(names, tailTexts, charset, transcode);
    var payload := BuildPayload(html, charset, transcode, attachs);
    if payload.Failure? {
      return Failure(payload.error);
    }
    var from := EncodeWord(SenderName, charset, transcode);
    if from.None? {
      return Failure(EncodeError(SenderName, charset));
    }
    var toHeader := "";
    if |to| > 0 {
      var word := EncodeWord(RecipientName, charset, transcode);
      if word.None? {
        return Failure(EncodeError(RecipientName, charset));
      }
      toHeader := ToHeader(word.value, to);
    }
    r := Success(Email(payload.value, Subject(subject, charset), Mailbox(from.value, sender), toHeader));
  }

  /** Every encoded word `_make_email` writes (a file name, a display name) reads
      back as the configured charset and exactly the bytes its text encodes to. */
  lemma EncodeWordRoundTrip(text: string, charset: string, transcode: Transcoder, word: string)
    requires '?' !in charset
    requires EncodeWord(text, charset, transcode) == Some(word)
    ensures transcode(text, charset).Some?
    ensures Parse(word) == Some((charset, transcode(text, charset).value))
  {
    ParseRfc2047(transcode(text, charset).value, charset);
  }
}
