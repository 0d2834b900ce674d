# Outgoing mail of the ticket platform, modelled in Dafny

This project models the mail sender in `tickets_polls/base/u_email.py`: `EmailSender.send`
and the three steps it runs. First, `_make_email` builds a MIME message: an HTML body, optional
spreadsheet attachments, and `From`/`To` headers whose display names are RFC 2047 "B" encoded
words made by `rfc2047`. Second, `_send_direct` looks up the MX record of each recipient domain
and submits that domain's batch straight to its exchanger. Third, `_send_proxy` runs only if the
direct tier raises. It tries the configured relay servers in order.

Modules:

- `Wrappers` and `Errors`: `Option`, `Result`, and the exceptions the code raises or catches.
- `Settings`: what `setup_email` copies into `EmailSender`, which is the charset, the sender
  address and the relay list.
- `Strings`: `str.split`, `str.join` and `in` on strings, with their round trips.
- `Base64`: base64 as defined in section 4 of RFC 4648. It has an encoder and a decoder that
  is proved to invert it.
- `EncodedWord`: `rfc2047`, and a reader that takes the encoded word apart again.
- `MessageBuilder`: argument normalisation and `_make_email`.
- `Delivery`: `_send_direct`, `_send_proxy` and `send`. DNS and SMTP are a `Network` oracle:
  a function that supplies the result of each lookup and session. Every call also gets the pass
  of its loop, because each pass makes a fresh query or connection. Python's unordered iteration
  over the set of domains is a nondeterministic choice.

The oracle allows more outcomes than the real library does, so what is proved about it holds
for every behaviour of the library. Two examples:

- `send` hands `None` as the message to both tiers, and `smtplib` rejects that before it submits
  anything. In the real program, a direct session that connects therefore raises.
- `sendmail` raises `SMTPRecipientsRefused` when every recipient is refused, instead of returning
  the map of refusals.

The code's behaviour is modelled as written. Some of it differs from what the documentation
describes:

- Inside `_send_direct`, a missing MX record (`dns.resolver.NoAnswer`) is caught and only
  logged. Recipients refused while others are accepted are also only logged (when all of them
  are refused, `smtplib` raises instead). Neither makes the direct tier raise, so
  neither triggers the relay fallback. Only another exception does that, such as a connection
  failure, a resolver error other than `NoAnswer`, or an address without '@'.
- A domain's batch holds every address that contains the domain as a substring. The batches of
  "x.com" and "ex.com" can therefore overlap.
- The relay tier always connects on port 25. Every relay gets the full recipient list.
- An attachment argument that is an empty list still produces a multipart message.
- An empty recipient list makes `send` return without sending anything, because the set of
  domains is empty.
- The docstring of `rfc2047` names RFC 2231, but the function builds an RFC 2047 encoded word.

## Model

| member | source | states |
|---|---|---|
| Base64.CharOf | tickets_polls/base/u_email.py:30 | every sextet maps to an ASCII character of the base64 alphabet, never '=' or '?' |
| Base64.ValueOf | tickets_polls/base/u_email.py:30 | a character accepted by the alphabet is the image of the sextet it decodes to |
| Base64.ValueOfCharOf | tickets_polls/base/u_email.py:30 | decoding the character of any sextet gives that sextet back: the alphabet is a bijection |
| Base64.Encode | tickets_polls/base/u_email.py:30 | `b64encode` output is 4 characters per started 3-byte group, and all of it is ASCII base64 text without '?' |
| Base64.DecodeEncode | tickets_polls/base/u_email.py:30 | decoding the base64 text of any bytes returns exactly those bytes |
| EncodedWord.Rfc2047 | tickets_polls/base/u_email.py:27-31 | the encoded word's length depends only on the charset and the byte count; it is ASCII when the charset name is; it has no ';' when the charset name has none |
| EncodedWord.ParseRfc2047 | tickets_polls/base/u_email.py:30-31 | reading back an encoded word yields the charset and the bytes it was built from |
| MessageBuilder.NormalizeRecipients | tickets_polls/base/u_email.py:109-110 | a single address becomes a one-element list, and a list is kept as given |
| MessageBuilder.NormalizeAttachments | tickets_polls/base/u_email.py:52-59 | `None` stays absent, a lone tuple becomes a one-element list, and a list is kept |
| MessageBuilder.ToEntries | tickets_polls/base/u_email.py:72 | one `To` entry per recipient, in order, each being the display word followed by `<addr>` |
| MessageBuilder.ToHeaderEntries | tickets_polls/base/u_email.py:72 | the `;`-joined `To` header splits back into exactly the per-recipient entries; it is empty when there are no recipients |
| MessageBuilder.FirstUnencodable | tickets_polls/base/u_email.py:60-72 | the text reported is one that cannot be encoded; none is reported exactly when every text encodes |
| MessageBuilder.BuildPayload | tickets_polls/base/u_email.py:52-69 | with no attachments the body is the HTML part alone. Otherwise it is a container: the HTML part first, then one spreadsheet part per attachment, in order, each named by the encoded word of its name. It fails exactly when a name cannot be encoded, and reports the first such name |
| MessageBuilder.MakeEmail | tickets_polls/base/u_email.py:49-72 | it fails exactly when some text fails to encode, with the first such text in encoding order. On success it sets the payload as above and the subject text and charset. `From` is the encoded sender name followed by `<sender>`. `To` is the joined entries of the encoded recipient name, or empty |
| MessageBuilder.EncodeWordRoundTrip | tickets_polls/base/u_email.py:68-72 | every file name and display name written reads back as the charset and the bytes of its text |
| Delivery.DomainOf | tickets_polls/base/u_email.py:76 | `split('@')[1]` exists exactly when the address has an '@', and the domain contains no '@' |
| Delivery.DomainInAddress | tickets_polls/base/u_email.py:76-78 | an address contains its own domain as a substring |
| Delivery.DomainSet | tickets_polls/base/u_email.py:76 | the domain of every recipient is in the set of domains |
| Delivery.Batch | tickets_polls/base/u_email.py:78 | the batch is never longer than the recipient list, and it holds exactly the recipients that contain the domain |
| Delivery.BatchCounts | tickets_polls/base/u_email.py:78 | a kept address occurs in the batch exactly as often as in the recipient list, and a dropped one not at all |
| Delivery.BatchConcat | tickets_polls/base/u_email.py:78 | the batch of a concatenation is the batch of the front followed by the batch of the back, so the batch keeps the recipients' order |
| Delivery.BatchCoversDomain | tickets_polls/base/u_email.py:76-78 | every recipient of a domain is in that domain's batch |
| Delivery.SubstringBatchOverlap | tickets_polls/base/u_email.py:76-78 | the address "b@ex.com" has domain "ex.com", and it is still put in the batch for "x.com" |
| Delivery.TwoDomainScenario | tickets_polls/base/u_email.py:76-78 | for three recipients spread over two domains, there are two domains, and each batch holds exactly its recipients |
| Delivery.SendDirect | tickets_polls/base/u_email.py:75-88 | an address without '@' raises `IndexError` before any attempt. Otherwise there is one attempt per distinct domain, each sending its batch. The tier returns only after every domain was tried with none aborting, and otherwise raises the exception of the attempt that aborted |
| Delivery.DirectTierVisitsEachDomainOnce | tickets_polls/base/u_email.py:76-80 | when the direct tier returns, it made exactly one attempt per distinct recipient domain |
| Delivery.NoAnswerAndRejectionsDoNotRaise | tickets_polls/base/u_email.py:81-88 | if every domain's session ends in delivery, rejection or `NoAnswer` on every pass the loop can reach, the direct tier returns |
| Delivery.RelayReplies | tickets_polls/base/u_email.py:92-96 | there is one reply per configured relay, given for port 25, the sender and the full recipient list |
| Delivery.FirstClean | tickets_polls/base/u_email.py:92-99 | the reported relay is the first whose reply has no refused recipient, and none is reported exactly when no reply is clean |
| Delivery.SendProxy | tickets_polls/base/u_email.py:91-105 | relays are tried in order, each with the full recipient list on port 25, up to the first clean reply. The tier then returns; if no reply is clean, it raises `SMTPDataError(-1, b'Unknown Error')` after trying every relay |
| Delivery.RelayRetry | tickets_polls/base/u_email.py:92-99 | a relay listed twice is a retry: if it fails on the first pass and accepts on the second, the tier returns after two attempts at the same server |
| Delivery.RelayExhaustion | tickets_polls/base/u_email.py:92-105 | the relay tier raises exactly when no relay replies cleanly. It then raises `SMTPDataError(-1, b'Unknown Error')` after trying all relays. Every attempt before the last was unclean |
| Delivery.Send | tickets_polls/base/u_email.py:108-127 | an encoding failure raises before any delivery. Otherwise the direct tier runs on the normalised recipients. If it returns, `send` returns without touching the relays. If it raises, the relay tier runs, and `send` raises `SMTPDataError(-1, b'Unknown Error')` exactly when the relay tier does |

## Left out

- DNS resolution and SMTP sessions are not modelled. `SmtpDirectServer`, `SmtpProxyServer`, `dns.resolver` and `smtplib` become the `Network` oracle. It gives one outcome per lookup or session, chosen by the pass of the loop and the call's arguments. Within one pass, equal arguments give equal outcomes. Timeouts, retries inside `smtplib` and the protocol itself are not modelled.
- The message never reaches the oracle. `_make_email` builds the message but has no `return`, so `send` hands `None` to both tiers. The model keeps the built `Email` apart and the sessions do not take it. The oracle may still answer a connected session with delivery or a refusal map, which the real library cannot do with a `None` message; those outcomes are extra, and nothing proved depends on them being possible.
- `Header(subject, charset).encode()` and MIME serialisation (`as_bytes`, transfer encodings, folding) are library code. The subject is kept as its text and charset.
- Encoding failures of the HTML body and of the subject inside the MIME classes are not modelled. Only the `rfc2047` calls can fail in the model.
- `str.encode(charset)` is not modelled. It becomes the `Transcoder` parameter, because Python's codec tables are not part of this model.
- Logging is not modelled, and neither is `async`/`await` scheduling. The calls are sequential.
- `setup_email` is not modelled beyond the resulting `Config`. Its missing-configuration exception and the aiohttp application object are not part of this model.
- `EmailContext` is not modelled, because no operation uses it.
- Python's set iteration order is not modelled. The domain loop picks any remaining domain, and the contracts hold for every order.
- Only a `str` or a list is modelled for `to_addrs`, and only `None`, a tuple or a list for `attachs`. Other iterables, and objects that are not tuples `(name, fp)`, are not modelled.
- Exceptions outside `Exception` (`BaseException`, such as cancellation) are not modelled. They would escape both `except` clauses.
- `Base64.Decode` and `EncodedWord.Parse` are not in the source. They are the partners that the round-trip lemmas are stated against.
- Delivery.DomainSet: the contract states only that every recipient's domain is in the set. That the set holds nothing else follows from its set-comprehension body and is used in `TwoDomainScenario`.
