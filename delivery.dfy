/** Delivery: `EmailSender._send_direct`, `EmailSender._send_proxy` and
    `EmailSender.send` (tickets_polls/base/u_email.py). Every DNS query and SMTP
    session is an outcome supplied by a `Network` oracle. */
module Delivery {
  import opened Wrappers
  import opened Errors
  import opened Strings
  import opened Settings
  import opened MessageBuilder

  /** A per-recipient rejection: SMTP reply code and text. */
  datatype SmtpReply = SmtpReply(code: int, text: string)

  /** What one SMTP session (connect, login for a relay, submit, quit) comes to:
      the map of refused recipients the submit call returns (empty when every
      recipient was accepted), or the exception one of its steps raised. */
  datatype Reply = Refused(refused: map<string, SmtpReply>) | Raised(e: Exc)

  /** `dns.resolver.query(domain, 'MX')[0].exchange`, or the exception it raised. */
  datatype Lookup = Exchange(host: string) | LookupRaised(e: Exc)

  /** The outside world, as uninterpreted outcomes. Each call also gets the pass
      of its loop it is made in (0 for the first), because every pass makes a
      fresh query and opens a fresh connection: calls with equal arguments on
      different passes may come to different outcomes.
      `mx(pass, domain)` is the MX lookup; `direct(pass, host, sender, rcpts)` a
      session with a mail exchanger on the default port;
      `relay(pass, server, port, sender, rcpts)` an authenticated session with a
      configured relay. */
  datatype Network = Network(
    mx: (nat, string) -> Lookup,
    direct: (nat, string, string, seq<string>) -> Reply,
    relay: (nat, RelayServer, int, string, seq<string>) -> Reply)

  /** How a tier method leaves: it returns, or it raises. */
  datatype Outcome = Returned | Thrown(e: Exc)

  /** `smtplib.SMTPDataError(-1, b'Unknown Error')`, the one failure `send` reports
      once delivery has been tried; the message, the bytes b'Unknown Error', is
      written here as the ASCII text they spell. */
  const UnknownError: Exc := SmtpDataError(-1, "Unknown Error")

  /** The port `_send_proxy` always connects to, whatever the configuration says. */
  const RelayPort: int := 25

  // ---------------------------------------------------------------------------
  // Recipient domains

  /** `addr.split('@')[1]`: the text between the first '@' and the next one (or
      the end); `None` where Python raises `IndexError` (no '@' at all). */
  function DomainOf(addr: string): (d: Option<string>)
    ensures d.Some? <==> '@' in addr
    ensures d.Some? ==> '@' !in d.value
  {
    SplitPieces(addr, '@');
    var parts := Split(addr, '@');
    if |parts| < 2 then None else Some(parts[1])
  }

  /** The domain of an address occurs in it, so the substring filter of the
      direct tier always keeps an address in its own domain's batch. */
  lemma DomainInAddress(addr: string, d: string)
    requires DomainOf(addr) == Some(d)
    ensures Contains(addr, d)
  {
    var i := IndexOf(addr, '@');
    var rest := addr[i + 1..];
    assert Split(addr, '@') == [addr[..i]] + Split(rest, '@');
    assert d == Split(rest, '@')[0];
    var j := IndexOf(rest, '@');
    assert d == rest[..j];
    assert OccursAt(addr, d, i + 1);
  }

  /** No address lacks an '@', so the domain comprehension does not raise. */
  predicate AllHaveAt(addrs: seq<string>)
  {
    forall k | 0 <= k < |addrs| :: DomainOf(addrs[k]).Some?
  }

  /** `set([to_addr.split('@')[1] for to_addr in to_addrs])`. */
  function DomainSet(addrs: seq<string>): (ds: set<string>)
    requires AllHaveAt(addrs)
    ensures forall k | 0 <= k < |addrs| :: DomainOf(addrs[k]).value in ds
  {
    set k | 0 <= k < |addrs| :: DomainOf(addrs[k]).value
  }

  /** `[x for x in to_addrs if to_domain in x]`: every address that holds the
      domain as a substring, as often as it is listed (`BatchCounts`), in
      recipient order (`BatchConcat`). */
  function Batch(domain: string, addrs: seq<string>): (batch: seq<string>)
    ensures |batch| <= |addrs|
    ensures forall x :: x in batch <==> x in addrs && Contains(x, domain)
  {
    if |addrs| == 0 then []
    else (if Contains(addrs[0], domain) then [addrs[0]] else []) + Batch(domain, addrs[1..])
  }

  /** Duplicates survive the filter: a kept address occurs in the batch exactly as
      many times as in the recipient list, a dropped one not at all. */
  lemma {:induction false} BatchCounts(domain: string, addrs: seq<string>)
    ensures forall x :: multiset(Batch(domain, addrs))[x] == if Contains(x, domain) then multiset(addrs)[x] else 0
  {
    if |addrs| > 0 {
      BatchCounts(domain, addrs[1..]);
      assert addrs == [addrs[0]] + addrs[1..];
    }
  }

  /** The filter distributes over concatenation: the batch of a list is the batch
      of its front followed by the batch of its back, so kept addresses stay in
      the order they are listed in. */
  lemma {:induction false} BatchConcat(domain: string, front: seq<string>, back: seq<string>)
    ensures Batch(domain, front + back) == Batch(domain, front) + Batch(domain, back)
  {
    if |front| == 0 {
      assert front + back == back;
    } else {
      assert (front + back)[0] == front[0];
      assert (front + back)[1..] == front[1..] + back;
      BatchConcat(domain, front[1..], back);
    }
  }

  /** A domain's batch holds every recipient in that domain, however many share it. */
  lemma BatchCoversDomain(domain: string, addrs: seq<string>)
    ensures forall k | 0 <= k < |addrs| && DomainOf(addrs[k]) == Some(domain) :: addrs[k] in Batch(domain, addrs)
  {
    forall k | 0 <= k < |addrs| && DomainOf(addrs[k]) == Some(domain)
      ensures addrs[k] in Batch(domain, addrs)
    {
      DomainInAddress(addrs[k], domain);
    }
  }

  /** Because the filter is a substring test, a batch can also take in addresses
      of another domain: "b@ex.com" goes out in the batch for "x.com" as well as
      in its own. */
  lemma SubstringBatchOverlap()
    ensures DomainOf("b@ex.com") == Some("ex.com")
    ensures Batch("x.com", ["a@x.com", "b@ex.com"]) == ["a@x.com", "b@ex.com"]
  {
    AddressDomain('b', "ex.com");
    assert "b@ex.com" == ['b', '@'] + "ex.com";
    OverlapContains();
    BatchCons("x.com", "b@ex.com", []);
    BatchCons("x.com", "a@x.com", ["b@ex.com"]);
  }

  /** Both addresses of the overlap example contain "x.com". */
  lemma OverlapContains()
    ensures Contains("a@x.com", "x.com") && Contains("b@ex.com", "x.com")
  {
    ContainsSuffix("a@", "x.com");
    assert "a@" + "x.com" == "a@x.com";
    ContainsSuffix("b@e", "x.com");
    assert "b@e" + "x.com" == "b@ex.com";
  }

  /** A one-letter local part followed by '@' and an '@'-free domain. */
  lemma AddressDomain(local: char, domain: string)
    requires local != '@' && '@' !in domain
    ensures DomainOf([local, '@'] + domain) == Some(domain)
  {
    var s := [local, '@'] + domain;
    assert IndexOf(s, '@') == 1;
    assert s[2..] == domain;
    assert IndexOf(domain, '@') == |domain|;
    assert domain[..|domain|] == domain;
    assert s[..1] == [local];
    assert Split(s, '@') == [s[..1]] + Split(s[2..], '@');
  }

  /** The recipients of the two-domain example below. */
  const ExampleRecipients: seq<string> := ["a@x.com", "b@x.com", "c@y.com"]

  /** The domains of the example recipients. */
  lemma ExampleDomains()
    ensures DomainOf("a@x.com") == Some("x.com")
    ensures DomainOf("b@x.com") == Some("x.com")
    ensures DomainOf("c@y.com") == Some("y.com")
  {
    AddressDomain('a', "x.com");
    AddressDomain('b', "x.com");
    AddressDomain('c', "y.com");
    assert "a@x.com" == ['a', '@'] + "x.com";
    assert "b@x.com" == ['b', '@'] + "x.com";
    assert "c@y.com" == ['c', '@'] + "y.com";
  }

  /** Each example address holds its own domain ... */
  lemma ExampleContains()
    ensures Contains("a@x.com", "x.com") && Contains("b@x.com", "x.com") && Contains("c@y.com", "y.com")
  {
    ExampleDomains();
    DomainInAddress("a@x.com", "x.com");
    DomainInAddress("b@x.com", "x.com");
    DomainInAddress("c@y.com", "y.com");
  }

  /** ... and not the other one. */
  lemma ExampleNotContains()
    ensures !Contains("a@x.com", "y.com") && !Contains("b@x.com", "y.com") && !Contains("c@y.com", "x.com")
  {
    NotContains("a@x.com", "y.com");
    NotContains("b@x.com", "y.com");
    NotContains("c@y.com", "x.com");
  }

  /** A run whose first character is absent does not occur. */
  lemma NotContains(s: string, sub: string)
    requires |sub| > 0 && sub[0] !in s
    ensures !Contains(s, sub)
  {
    if Contains(s, sub) {
      ContainsFirstChar(s, sub);
    }
  }

  /** The filter looks at the first recipient, then at the rest. */
  lemma BatchCons(domain: string, x: string, rest: seq<string>)
    ensures Batch(domain, [x] + rest) == (if Contains(x, domain) then [x] else []) + Batch(domain, rest)
  {
    assert ([x] + rest)[1..] == rest;
  }

  /** Recipients "a@x.com", "b@x.com" and "c@y.com" span exactly two domains, so
      the direct tier makes two MX lookups; the batch for "x.com" holds the first
      two addresses and the batch for "y.com" the third. */
  lemma TwoDomainScenario()
    ensures AllHaveAt(ExampleRecipients)
    ensures DomainSet(ExampleRecipients) == {"x.com", "y.com"}
    ensures Batch("x.com", ExampleRecipients) == ["a@x.com", "b@x.com"]
    ensures Batch("y.com", ExampleRecipients) == ["c@y.com"]
  {
    ExampleDomainSet();
    ExampleBatchX();
    ExampleBatchY();
  }

  /** The batch for "x.com" is the first two example recipients. */
  lemma ExampleBatchX()
    ensures Batch("x.com", ExampleRecipients) == ["a@x.com", "b@x.com"]
  {
    ExampleBatches("x.com");
    ExampleContains();
    ExampleNotContains();
  }

  /** The batch for "y.com" is the third example recipient. */
  lemma ExampleBatchY()
    ensures Batch("y.com", ExampleRecipients) == ["c@y.com"]
  {
    ExampleBatches("y.com");
    ExampleContains();
    ExampleNotContains();
  }

  /** The example's domain set has two elements. */
  lemma ExampleDomainSet()
    ensures AllHaveAt(ExampleRecipients)
    ensures DomainSet(ExampleRecipients) == {"x.com", "y.com"}
  {
    ExampleDomains();
    ThreeAddressDomains("a@x.com", "b@x.com", "c@y.com", "x.com", "y.com");
  }

  /** Three addresses over two domains give a two-element domain set. */
  lemma ThreeAddressDomains(a: string, b: string, c: string, x: string, y: string)
    requires DomainOf(a) == Some(x) && DomainOf(b) == Some(x) && DomainOf(c) == Some(y)
    ensures AllHaveAt([a, b, c])
    ensures DomainSet([a, b, c]) == {x, y}
  {
    var addrs := [a, b, c];
    assert AllHaveAt(addrs);
    var ds := DomainSet(addrs);
    assert DomainOf(addrs[0]).value == x && DomainOf(addrs[2]).value == y;
    assert x in ds && y in ds;
    forall d | d in ds ensures d == x || d == y {
      var k :| 0 <= k < |addrs| && DomainOf(addrs[k]).value == d;
    }
  }

  /** The batch of the example recipients for any domain. */
  lemma ExampleBatches(d: string)
    ensures Batch(d, ExampleRecipients)
         == (if Contains("a@x.com", d) then ["a@x.com"] else [])
          + (if Contains("b@x.com", d) then ["b@x.com"] else [])
          + (if Contains("c@y.com", d) then ["c@y.com"] else [])
  {
    BatchCons(d, "c@y.com", []);
    BatchCons(d, "b@x.com", ["c@y.com"]);
    BatchCons(d, "a@x.com", ["b@x.com", "c@y.com"]);
    assert ExampleRecipients == ["a@x.com"] + (["b@x.com"] + (["c@y.com"] + []));
  }

  // ---------------------------------------------------------------------------
  // Direct tier

  /** What one iteration of the domain loop comes to. */
  datatype Step =
    /** The exchanger accepted every recipient of the batch. */
    | Delivered
    /** It refused some; the source only logs them. */
    | Rejected(refused: map<string, SmtpReply>)
    /** `NoAnswer` was raised and swallowed by the `except` clause. */
    | NoMxRecord
    /** Any other exception: it leaves the loop and `_send_direct`. */
    | Aborted(e: Exc)

  /** The body of the loop for one domain on pass `pass`: look up its exchanger,
      open a session, submit the batch; the `except dns.resolver.NoAnswer` clause
      covers all of it. */
  function TryDomain(net: Network, sender: string, pass: nat, domain: string, batch: seq<string>): Step
  {
    match net.mx(pass, domain)
    case LookupRaised(e) => if e == NoAnswer then NoMxRecord else Aborted(e)
    case Exchange(host) =>
      match net.direct(pass, host, sender, batch)
      case Raised(e) => if e == NoAnswer then NoMxRecord else Aborted(e)
      case Refused(m) => if |m| == 0 then Delivered else Rejected(m)
  }

  /** One visit of the domain loop: the domain, the batch submitted, the step. */
  datatype DirectAttempt = DirectAttempt(domain: string, batch: seq<string>, step: Step)

  /** The domains the attempts visited. */
  function Visited(attempts: seq<DirectAttempt>): set<string>
  {
    set k | 0 <= k < |attempts| :: attempts[k].domain
  }

  /** Visiting one more domain adds it to the visited set. */
  lemma VisitedSnoc(attempts: seq<DirectAttempt>, a: DirectAttempt)
    ensures Visited(attempts + [a]) == Visited(attempts) + {a.domain}
  {
    var s := attempts + [a];
    forall d | d in Visited(s) ensures d in Visited(attempts) + {a.domain} {
      var k :| 0 <= k < |s| && s[k].domain == d;
      if k < |attempts| {
        assert attempts[k].domain == d;
      }
    }
    forall d | d in Visited(attempts) ensures d in Visited(s) {
      var k :| 0 <= k < |attempts| && attempts[k].domain == d;
      assert s[k].domain == d;
    }
    assert s[|attempts|].domain == a.domain;
  }

  /** A domain not visited yet keeps the visits distinct. */
  lemma DistinctSnoc(attempts: seq<DirectAttempt>, a: DirectAttempt)
    requires DistinctDomains(attempts) && a.domain !in Visited(attempts)
    ensures DistinctDomains(attempts + [a])
  {
    var s := attempts + [a];
    forall j, k | 0 <= j < k < |s| ensures s[j].domain != s[k].domain {
      assert s[j] == attempts[j];
      if k == |attempts| {
        assert attempts[j].domain in Visited(attempts);
      } else {
        assert s[k] == attempts[k];
      }
    }
  }

  /** No domain is visited twice. */
  predicate DistinctDomains(attempts: seq<DirectAttempt>)
  {
    forall j, k | 0 <= j < k < |attempts| :: attempts[j].domain != attempts[k].domain
  }

  /** Attempt `a`, made on pass `pass` of the domain loop, submits its domain's
      batch and has the step the network dictates for that pass. */
  predicate MadeOnPass(net: Network, sender: string, addrs: seq<string>, pass: nat, a: DirectAttempt)
  {
    a.batch == Batch(a.domain, addrs) && a.step == TryDomain(net, sender, pass, a.domain, a.batch)
  }

  /** What `_send_direct(message, to_addrs)` does, whatever order the set of
      domains is iterated in. An address without '@' raises before anything is
      sent. Otherwise each attempt is for a distinct recipient domain, submits
      that domain's batch and has the step the network dictates; every attempt
      but the last keeps the loop going; the tier returns exactly when it
      visited every domain with no attempt aborting, and raises the exception of
      the aborting attempt otherwise. */
  ghost predicate DirectTier(net: Network, sender: string, addrs: seq<string>,
                             result: Outcome, attempts: seq<DirectAttempt>)
  {
    if !AllHaveAt(addrs) then result == Thrown(IndexError) && attempts == []
    else
      && DistinctDomains(attempts)
      && (forall k | 0 <= k < |attempts| ::
            && attempts[k].domain in DomainSet(addrs)
            && MadeOnPass(net, sender, addrs, k, attempts[k]))
      && (forall k | 0 <= k < |attempts| - 1 :: !attempts[k].step.Aborted?)
      && (result == Returned ==>
            Visited(attempts) == DomainSet(addrs) && forall k | 0 <= k < |attempts| :: !attempts[k].step.Aborted?)
      && (result.Thrown? ==> |attempts| > 0 && attempts[|attempts| - 1].step == Aborted(result.e))
  }

  /** The state of the domain loop: `attempts` visited distinct domains, all of
      them handled without aborting, and `remaining` holds the rest of `domains`. */
  predicate Progress(net: Network, sender: string, addrs: seq<string>,
                     domains: set<string>, remaining: set<string>, attempts: seq<DirectAttempt>)
  {
    && Visited(attempts) + remaining == domains
    && Visited(attempts) !! remaining
    && DistinctDomains(attempts)
    && forall k | 0 <= k < |attempts| :: MadeOnPass(net, sender, addrs, k, attempts[k]) && !attempts[k].step.Aborted?
  }

  /** One pass of the loop: visiting a remaining domain either keeps the loop
      state, or aborts, which ends the tier with that attempt's exception. */
  lemma ProgressStep(net: Network, sender: string, addrs: seq<string>,
                     remaining: set<string>, attempts: seq<DirectAttempt>, a: DirectAttempt)
    requires AllHaveAt(addrs)
    requires Progress(net, sender, addrs, DomainSet(addrs), remaining, attempts)
    requires a.domain in remaining && MadeOnPass(net, sender, addrs, |attempts|, a)
    ensures !a.step.Aborted? ==> Progress(net, sender, addrs, DomainSet(addrs), remaining - {a.domain}, attempts + [a])
    ensures a.step.Aborted? ==> DirectTier(net, sender, addrs, Thrown(a.step.e), attempts + [a])
  {
    var next := attempts + [a];
    assert forall k | 0 <= k < |attempts| :: attempts[k].domain in Visited(attempts);
    VisitedSnoc(attempts, a);
    DistinctSnoc(attempts, a);
    assert next[|attempts|] == a;
    assert forall k | 0 <= k < |attempts| :: next[k] == attempts[k];
    assert forall k | 0 <= k < |next| :: next[k].domain in Visited(next);
  }

  /** The loop has run out of domains: the tier returns. */
  lemma ProgressDone(net: Network, sender: string, addrs: seq<string>, attempts: seq<DirectAttempt>)
    requires AllHaveAt(addrs)
    requires Progress(net, sender, addrs, DomainSet(addrs), {}, attempts)
    ensures DirectTier(net, sender, addrs, Returned, attempts)
  {
    assert forall k | 0 <= k < |attempts| :: attempts[k].domain in Visited(attempts);
  }

  /** `_send_direct(message, to_addrs)`: one session per distinct domain, in the
      set's (unspecified) order. */
  method SendDirect(net: Network, sender: string, addrs: seq<string>)
    returns (result: Outcome, attempts: seq<DirectAttempt>)
    ensures DirectTier(net, sender, addrs, result, attempts)
  {
    if !AllHaveAt(addrs) {
      return Thrown(IndexError), [];
    }
    var remaining := DomainSet(addrs);
    attempts := [];
    while remaining != {}
      invariant Progress(net, sender, addrs, DomainSet(addrs), remaining, attempts)
      decreases remaining
    {
      var domain :| domain in remaining;
      var batch := Batch(domain, addrs);
      var step := TryDomain(net, sender, |attempts|, domain, batch);
      var attempt := DirectAttempt(domain, batch, step);
      ProgressStep(net, sender, addrs, remaining, attempts, attempt);
      attempts := attempts + [attempt];
      remaining := remaining - {domain};
      if step.Aborted? {
        return Thrown(step.e), attempts;
      }
    }
    ProgressDone(net, sender, addrs, attempts);
    result := Returned;
  }

  /** Distinct domains: as many attempts as domains visited. */
  lemma {:induction false} VisitedCount(attempts: seq<DirectAttempt>)
    requires DistinctDomains(attempts)
    ensures |Visited(attempts)| == |attempts|
  {
    if |attempts| > 0 {
      var init := attempts[..|attempts| - 1];
      var last := attempts[|attempts| - 1].domain;
      VisitedCount(init);
      assert Visited(attempts) == Visited(init) + {last} by {
        forall d | d in Visited(attempts) ensures d in Visited(init) + {last} {
          var k :| 0 <= k < |attempts| && attempts[k].domain == d;
          if k < |attempts| - 1 {
            assert init[k].domain == d;
          }
        }
        forall d | d in Visited(init) ensures d in Visited(attempts) {
          var k :| 0 <= k < |init| && init[k].domain == d;
          assert attempts[k].domain == d;
        }
      }
      assert last !in Visited(init);
    }
  }

  /** When the direct tier returns, it made exactly one attempt (one MX lookup)
      per distinct recipient domain, however many recipients share a domain. */
  lemma DirectTierVisitsEachDomainOnce(net: Network, sender: string, addrs: seq<string>,
                                       result: Outcome, attempts: seq<DirectAttempt>)
    requires AllHaveAt(addrs)
    requires DirectTier(net, sender, addrs, result, attempts)
    requires result == Returned
    ensures |attempts| == |DomainSet(addrs)|
    ensures forall d | d in DomainSet(addrs) :: exists k | 0 <= k < |attempts| :: attempts[k].domain == d
  {
    VisitedCount(attempts);
  }

  /** A missing MX record (`NoAnswer`) and refused recipients never make the
      direct tier raise: if no domain's step aborts on any pass the loop can
      reach, `_send_direct` returns, so the relay tier is not entered. */
  lemma NoAnswerAndRejectionsDoNotRaise(net: Network, sender: string, addrs: seq<string>,
                                        result: Outcome, attempts: seq<DirectAttempt>)
    requires AllHaveAt(addrs)
    requires forall pass: nat, d | pass < |DomainSet(addrs)| && d in DomainSet(addrs) ::
      !TryDomain(net, sender, pass, d, Batch(d, addrs)).Aborted?
    requires DirectTier(net, sender, addrs, result, attempts)
    ensures result == Returned
  {
    if |attempts| > 0 {
      var last := |attempts| - 1;
      VisitedCount(attempts);
      assert Visited(attempts) <= DomainSet(addrs);
      SubsetCardinality(Visited(attempts), DomainSet(addrs));
      assert !attempts[last].step.Aborted?;
    }
  }

  /** A subset is no larger than its superset. */
  lemma {:induction false} SubsetCardinality<T>(small: set<T>, large: set<T>)
    requires small <= large
    ensures |small| <= |large|
  {
    if small != {} {
      var x :| x in small;
      SubsetCardinality(small - {x}, large - {x});
    }
  }

  // ---------------------------------------------------------------------------
  // Relay tier

  /** A reply with no refused recipient: the relay tier stops here. */
  predicate Clean(reply: Reply)
  {
    reply.Refused? && |reply.refused| == 0
  }

  /** One iteration of the relay loop: the server, the port, the recipients
      submitted, and the reply. */
  datatype RelayAttempt = RelayAttempt(server: RelayServer, port: int, recipients: seq<string>, reply: Reply)

  /** The reply each configured relay would give to the full recipient list. */
  function RelayReplies(net: Network, cfg: Config, addrs: seq<string>): (replies: seq<Reply>)
    ensures |replies| == |cfg.servers|
    ensures forall k | 0 <= k < |cfg.servers| :: replies[k] == net.relay(k, cfg.servers[k], RelayPort, cfg.sender, addrs)
  {
    seq(|cfg.servers|, k requires 0 <= k < |cfg.servers| => net.relay(k, cfg.servers[k], RelayPort, cfg.sender, addrs))
  }

  /** The position of the first clean reply, if any. */
  function FirstClean(replies: seq<Reply>): (r: Option<nat>)
    ensures r.Some? ==> r.value < |replies| && Clean(replies[r.value])
    ensures r.Some? ==> forall j | 0 <= j < r.value :: !Clean(replies[j])
    ensures r.None? ==> forall j | 0 <= j < |replies| :: !Clean(replies[j])
  {
    if |replies| == 0 then None
    else if Clean(replies[0]) then Some(0)
    else match FirstClean(replies[1..])
      case None => None
      case Some(i) => Some(i + 1)
  }

  /** What `_send_proxy(message, to_addrs)` does: the configured relays are tried
      in order, each with the full recipient list on port 25, up to and including
      the first whose reply is clean; the tier returns if there is one and
      otherwise, having tried every relay, raises `SMTPDataError(-1, b'Unknown Error')`. */
  ghost predicate RelayTier(net: Network, cfg: Config, addrs: seq<string>,
                            result: Outcome, attempts: seq<RelayAttempt>)
  {
    var first := FirstClean(RelayReplies(net, cfg, addrs));
    && |attempts| == (if first.Some? then first.value + 1 else |cfg.servers|)
    && (forall k | 0 <= k < |attempts| ::
          attempts[k] == RelayAttempt(cfg.servers[k], RelayPort, addrs, RelayReplies(net, cfg, addrs)[k]))
    && result == (if first.Some? then Returned else Thrown(UnknownError))
  }

  /** `_send_proxy(message, to_addrs)`. */
  method SendProxy(net: Network, cfg: Config, addrs: seq<string>)
    returns (result: Outcome, attempts: seq<RelayAttempt>)
    ensures RelayTier(net, cfg, addrs, result, attempts)
  {
    ghost var replies := RelayReplies(net, cfg, addrs);
    attempts := [];
    var i := 0;
    while i < |cfg.servers|
      invariant 0 <= i <= |cfg.servers|
      invariant |attempts| == i
      invariant forall k | 0 <= k < i :: attempts[k] == RelayAttempt(cfg.servers[k], RelayPort, addrs, replies[k])
      invariant forall k | 0 <= k < i :: !Clean(replies[k])
    {
      var server := cfg.servers[i];
      var reply := net.relay(i, server, RelayPort, cfg.sender, addrs);
      attempts := attempts + [RelayAttempt(server, RelayPort, addrs, reply)];
      if Clean(reply) {
        FirstCleanIs(replies, i);
        return Returned, attempts;
      }
      i := i + 1;
    }
    FirstCleanNone(replies);
    result := Thrown(UnknownError);
  }

  /** A clean reply after a run of unclean ones is the first clean one. */
  lemma {:induction false} FirstCleanIs(replies: seq<Reply>, i: nat)
    requires i < |replies| && Clean(replies[i])
    requires forall k | 0 <= k < i :: !Clean(replies[k])
    ensures FirstClean(replies) == Some(i)
  {
    if i > 0 {
      FirstCleanIs(replies[1..], i - 1);
    }
  }

  /** With no clean reply at all there is no first one. */
  lemma {:induction false} FirstCleanNone(replies: seq<Reply>)
    requires forall k | 0 <= k < |replies| :: !Clean(replies[k])
    ensures FirstClean(replies) == None
  {
    if |replies| > 0 {
      FirstCleanNone(replies[1..]);
    }
  }

  /** A network whose first relay session times out and whose later sessions
      accept every recipient; it resolves no MX record. */
  function FlakyRelayNetwork(): Network
  {
    Network(
      (pass, domain) => LookupRaised(NoAnswer),
      (pass, host, sender, rcpts) => Refused(map[]),
      (pass, server, port, sender, rcpts) => if pass == 0 then Raised(OtherError("timeout")) else Refused(map[]))
  }

  /** Listing a relay twice retries it: every pass opens a fresh session, so the
      same server can fail on the first pass and accept on the second, and the
      relay tier then returns after two attempts. */
  lemma RelayRetry(server: RelayServer, charset: string, sender: string, addrs: seq<string>,
                   result: Outcome, attempts: seq<RelayAttempt>)
    requires RelayTier(FlakyRelayNetwork(), Config(charset, sender, [server, server]), addrs, result, attempts)
    ensures result == Returned && |attempts| == 2
    ensures attempts[0].server == attempts[1].server == server
    ensures !Clean(attempts[0].reply) && Clean(attempts[1].reply)
  {
    var replies := RelayReplies(FlakyRelayNetwork(), Config(charset, sender, [server, server]), addrs);
    assert !Clean(replies[0]) && Clean(replies[1]);
    FirstCleanIs(replies, 1);
  }

  // ---------------------------------------------------------------------------
  // send

  /** `send(to_addrs, subject, mail_msg, attachs)`. The recipients are normalised
      to a list and the message is built; an encoding failure there leaves `send`
      before any delivery. Then the direct tier runs; only if it raises does the
      relay tier run, with the same full recipient list; if the relay tier raises
      too, `send` raises `SMTPDataError(-1, b'Unknown Error')`. `directResult` is
      `None` when the direct tier never ran, `relays` is `None` when the relay
      tier never ran. */
  method Send(cfg: Config, transcode: Transcoder, net: Network, to: Recipients,
              subject: string, html: string, attachs: Attachments)
    returns (result: Outcome, directResult: Option<Outcome>, direct: seq<DirectAttempt>,
             relays: Option<seq<RelayAttempt>>)
    ensures var addrs := NormalizeRecipients(to);
      var bad := FirstUnencodable(EncodedTexts(NormalizeAttachments(attachs), addrs), cfg.charset, transcode);
      && (bad.Some? ==>
            result == Thrown(EncodeError(bad.value, cfg.charset)) && directResult.None? && direct == [] && relays.None?)
      && (bad.None? ==> directResult.Some? && DirectTier(net, cfg.sender, addrs, directResult.value, direct))
      && (directResult == Some(Returned) ==> relays.None? && result == Returned)
      && (directResult.Some? && directResult.value.Thrown? ==>
            relays.Some? && RelayTier(net, cfg, addrs, result, relays.value))
  {
    var addrs := NormalizeRecipients(to);
    var email := MakeEmail(cfg.charset, cfg.sender, transcode, addrs, subject, html, attachs);
    if email.Failure? {
      return Thrown(email.error), None, [], None;
    }
    var directOutcome;
    directOutcome, direct := SendDirect(net, cfg.sender, addrs);
    directResult := Some(directOutcome);
    if directOutcome == Returned {
      return Returned, directResult, direct, None;
    }
    var relayOutcome, relayAttempts := SendProxy(net, cfg, addrs);
    relays := Some(relayAttempts);
    if relayOutcome.Thrown? {
      result := Thrown(UnknownError);
    } else {
      result := Returned;
    }
  }

  /** The terminal failure: once the direct tier has raised, `send` fails exactly
      when no configured relay gives a clean reply, every relay has then been
      tried, and the failure is `SMTPDataError(-1, b'Unknown Error')`. */
  lemma RelayExhaustion(net: Network, cfg: Config, addrs: seq<string>,
                        result: Outcome, attempts: seq<RelayAttempt>)
    requires RelayTier(net, cfg, addrs, result, attempts)
    ensures result.Thrown? <==> forall k | 0 <= k < |cfg.servers| :: !Clean(net.relay(k, cfg.servers[k], RelayPort, cfg.sender, addrs))
    ensures result.Thrown? ==> result.e == UnknownError && |attempts| == |cfg.servers|
    ensures result == Returned ==> |attempts| > 0 && Clean(attempts[|attempts| - 1].reply)
    ensures forall k | 0 <= k < |attempts| - 1 :: !Clean(attempts[k].reply)
  {
    var replies := RelayReplies(net, cfg, addrs);
    var first := FirstClean(replies);
    if first.Some? {
      assert Clean(net.relay(first.value, cfg.servers[first.value], RelayPort, cfg.sender, addrs));
    }
  }
}
