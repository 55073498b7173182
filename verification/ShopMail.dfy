/** The demo store's mail over whole runs: orders, requested codes and mail from outside, in the one mailbox. */
module ShopMail {
  import opened Text
  import opened Mailbox
  import opened Shop

  // What an event hands the mailbox: the order it placed, the code it issued, the mail delivered, or a reset's wipe.
  function MailOp(s: State, s': State, e: Event): Option<Op> {
    if e.request.Reset? then Some(Wipe)
    else if e.request.RequestOtp? then
      Some(Post(OtpMail(Address(e.request.email), CodeFrom(e.request.random)), e.now))
    else if e.request.Deliver? then Some(Post(e.request.draft, e.now))
    else if |s'.orders| > |s.orders| then Some(Post(OrderMail(s'.orders[|s'.orders| - 1]), e.now))
    else None
  }

  function MailOps(cfg: Config, es: seq<Event>): seq<Op> {
    if es == [] then []
    else
      var front := es[..|es| - 1];
      var s := Shop.Run(cfg, FRESH, front);
      match MailOp(s, Step(cfg, s, es[|es| - 1]).0, es[|es| - 1])
      case Some(op) => MailOps(cfg, front) + [op]
      case None => MailOps(cfg, front)
  }

  lemma MailStep(cfg: Config, s: State, e: Event)
    ensures Step(cfg, s, e).0.mail ==
            match MailOp(s, Step(cfg, s, e).0, e)
            case Some(Post(draft, now)) => Added(s.mail, draft, now)
            case Some(Wipe) => Cleared(s.mail)
            case None => s.mail
  {
    hide Added, Cleared, OrderMail, OtpMail, Address, CodeFrom, IsComplete, OrderLines, Accepts;
    hide AddStep, RemoveStep, LoginStep, VerifyOtpStep, OrderId, Trim;
  }

  /** After any run the mailbox is the newest 200 of all mail since the last reset. */
  lemma {:induction false} ShopMailIsLogPrefix(cfg: Config, es: seq<Event>)
    ensures Shop.Run(cfg, FRESH, es).mail == Mailbox.Run(MailOps(cfg, es))
    ensures Shop.Run(cfg, FRESH, es).mail.messages == First(Log(MailOps(cfg, es)), MAX_MESSAGES)
  {
    BoxIsLogPrefix(MailOps(cfg, es));
    if es != [] {
      hide Step, MailOp, Log, First;
      var front := es[..|es| - 1];
      ShopMailIsLogPrefix(cfg, front);
      MailStep(cfg, Shop.Run(cfg, FRESH, front), es[|es| - 1]);
      var ops := MailOps(cfg, front);
      assert forall op :: (ops + [op])[..|ops|] == ops;
    }
  }

  /** A placed order is announced to its address, as the newest mail there. */
  lemma OrderIsMailed(cfg: Config, s: State, e: Event)
    requires e.request.Checkout? && |Step(cfg, s, e).0.orders| > |s.orders|
    ensures var s' := Step(cfg, s, e).0;
            var order := s'.orders[|s.orders|];
            var mail := LatestOf(s'.mail, order.email);
            && mail.Some? && mail.value.draft == OrderMail(order) && mail.value.receivedAt == e.now
            && mail.value.draft.from == "orders@groundcoffee.example"
            && mail.value.draft.subject == "Your order " + order.id
            && Step(cfg, s, e).1 == SeeOther("/orders/" + order.id)
  {
    hide IsComplete, OrderLines, LatestOf, Added, OrderId;
    LatestAdded(s.mail, OrderMail(Step(cfg, s, e).0.orders[|s.orders|]), e.now);
  }

  /** So is a requested code, in a mail to the address that asked. */
  lemma CodeIsMailed(cfg: Config, s: State, e: Event)
    requires e.request.RequestOtp?
    ensures var address, code := Address(e.request.email), CodeFrom(e.request.random);
            var mail := LatestOf(Step(cfg, s, e).0.mail, address);
            && mail.Some? && mail.value.receivedAt == e.now
            && mail.value.draft ==
               Draft(address, "no-reply@groundcoffee.example", "Your sign-in code",
                     "Your one-time sign-in code is " + code + ". It expires in 10 minutes.", None)
  {
    hide LatestOf, Added, Address, CodeFrom;
    LatestAdded(s.mail, OtpMail(Address(e.request.email), CodeFrom(e.request.random)), e.now);
  }

  // ----- which event's mail an address reads -------------------------------------------

  function MailedAt(cfg: Config, es: seq<Event>, k: nat): Option<Draft>
    requires k < |es|
  {
    var s := Shop.Run(cfg, FRESH, es[..k]);
    match MailOp(s, Step(cfg, s, es[k]).0, es[k])
    case Some(Post(draft, _)) => Some(draft)
    case _ => None
  }

  // The k-th event's mail as the mailbox stores it.
  function MailOf(cfg: Config, es: seq<Event>, k: nat): Mail
    requires k < |es| && MailedAt(cfg, es, k).Some?
  {
    Mail(MailId(Shop.Run(cfg, FRESH, es[..k]).mail.seqNo + 1), MailedAt(cfg, es, k).value, es[k].now)
  }

  function MailedSince(cfg: Config, es: seq<Event>, k: nat): nat {
    var n := |es| - 1;
    if n <= k then 0 else MailedSince(cfg, es[..n], k) + (if MailedAt(cfg, es, n).Some? then 1 else 0)
  }

  // The k-th event sent mail, and no reset has come since.
  ghost predicate IsLogged(cfg: Config, es: seq<Event>, k: nat) {
    k < |es| && MailedAt(cfg, es, k).Some? && forall j :: k < j < |es| ==> !es[j].request.Reset?
  }

  // The empty address reads every mail.
  predicate Reaches(draft: Draft, to: string) { to == "" || Lower(draft.to) == Lower(to) }

  predicate MailsTo(cfg: Config, es: seq<Event>, k: nat, to: string)
    requires k < |es|
  {
    MailedAt(cfg, es, k).Some? && Reaches(MailedAt(cfg, es, k).value, to)
  }

  // Of the mails to the address the k-th event's is the last, and fewer than 200 of any kind came after it.
  ghost predicate IsNewestTo(cfg: Config, es: seq<Event>, k: nat, to: string) {
    && IsLogged(cfg, es, k) && MailsTo(cfg, es, k, to) && MailedSince(cfg, es, k) < MAX_MESSAGES
    && forall j :: k < j < |es| ==> !MailsTo(cfg, es, j, to)
  }

  lemma MailedInFront(cfg: Config, es: seq<Event>, k: nat)
    requires k < |es| - 1
    ensures MailedAt(cfg, es, k) == MailedAt(cfg, es[..|es| - 1], k)
    ensures MailedAt(cfg, es, k).Some? ==> MailOf(cfg, es, k) == MailOf(cfg, es[..|es| - 1], k)
  {
    hide MailOp, Step;
    assert es[..|es| - 1][..k] == es[..k];
  }

  lemma NextPost(cfg: Config, es: seq<Event>)
    requires es != []
    ensures var n := |es| - 1;
            MailedAt(cfg, es, n).Some? ==>
              && !es[n].request.Reset?
              && MailOps(cfg, es) == MailOps(cfg, es[..n]) + [Post(MailedAt(cfg, es, n).value, es[n].now)]
    ensures var n := |es| - 1;
            MailedAt(cfg, es, n).None? ==>
              MailOps(cfg, es) == MailOps(cfg, es[..n]) + (if es[n].request.Reset? then [Wipe] else [])
  {
    hide Step, OrderMail, OtpMail, Address, CodeFrom;
  }

  lemma LogPlus(ops: seq<Op>, op: Op)
    ensures Log(ops + [op]) == match op
                               case Post(draft, now) => [Mail(MailId(Posts(ops) + 1), draft, now)] + Log(ops)
                               case Wipe => []
  {
    assert (ops + [op])[..|ops|] == ops;
  }

  lemma LogStarts(cfg: Config)
    ensures Log(MailOps(cfg, [])) == []
  {}

  // What the last event does to the log.
  lemma LogStep(cfg: Config, es: seq<Event>)
    requires es != []
    ensures var n, log := |es| - 1, Log(MailOps(cfg, es[..|es| - 1]));
            Log(MailOps(cfg, es)) ==
            if MailedAt(cfg, es, n).Some? then [MailOf(cfg, es, n)] + log
            else if es[n].request.Reset? then []
            else log
    ensures MailedAt(cfg, es, |es| - 1).Some? ==> !es[|es| - 1].request.Reset?
  {
    hide Step, MailedAt, MailOps, Log, MailId, Posts, Mailbox.Run, First;
    var n := |es| - 1;
    var ops := MailOps(cfg, es[..n]);
    ShopMailIsLogPrefix(cfg, es[..n]);
    BoxIsLogPrefix(ops);
    NextPost(cfg, es);
    if MailedAt(cfg, es, n).Some? {
      LogPlus(ops, Post(MailedAt(cfg, es, n).value, es[n].now));
    } else if es[n].request.Reset? {
      LogPlus(ops, Wipe);
    } else {
      assert ops + [] == ops;
    }
  }

  lemma LoggedStep(cfg: Config, es: seq<Event>, k: nat)
    requires k < |es| - 1
    ensures var n := |es| - 1;
            IsLogged(cfg, es, k) <==> IsLogged(cfg, es[..n], k) && !es[n].request.Reset?
  {
    hide MailedAt, MailOf, Step, Shop.Run;
    MailedInFront(cfg, es, k);
    var n := |es| - 1;
    assert forall j :: k < j < n ==> es[..n][j] == es[j];
  }

  lemma MailedSinceStep(cfg: Config, es: seq<Event>, k: nat)
    requires k < |es| - 1
    ensures var n := |es| - 1;
            MailedSince(cfg, es, k) == MailedSince(cfg, es[..n], k) + (if MailedAt(cfg, es, n).Some? then 1 else 0)
  {
    hide MailedAt;
  }

  lemma {:induction false} LoggedAt(cfg: Config, es: seq<Event>, k: nat)
    requires IsLogged(cfg, es, k)
    ensures var c, log := MailedSince(cfg, es, k), Log(MailOps(cfg, es));
            c < |log| && log[c] == MailOf(cfg, es, k)
    decreases |es|
  {
    hide MailedAt, MailOf, MailOps, Log, Step;
    var n := |es| - 1;
    LogStep(cfg, es);
    if k < n {
      LoggedStep(cfg, es, k);
      MailedSinceStep(cfg, es, k);
      MailedInFront(cfg, es, k);
      LoggedAt(cfg, es[..n], k);
    }
  }

  lemma {:induction false} LogEntry(cfg: Config, es: seq<Event>, c: nat) returns (k: nat)
    requires c < |Log(MailOps(cfg, es))|
    ensures IsLogged(cfg, es, k) && MailedSince(cfg, es, k) == c
    decreases |es|
  {
    hide MailedAt, MailOf, MailOps, Log, Step, Shop.Run, Mailbox.Run;
    LogStarts(cfg);
    var n := |es| - 1;
    LogStep(cfg, es);
    if MailedAt(cfg, es, n).Some? && c == 0 {
      k := n;
    } else {
      hide MailedSince, IsLogged;
      k := LogEntry(cfg, es[..n], if MailedAt(cfg, es, n).Some? then c - 1 else c);
      LoggedStep(cfg, es, k);
      MailedSinceStep(cfg, es, k);
    }
  }

  lemma {:induction false} LaterMailsAreFewer(cfg: Config, es: seq<Event>, j: nat, k: nat)
    requires k < j < |es| && MailedAt(cfg, es, j).Some?
    ensures MailedSince(cfg, es, j) < MailedSince(cfg, es, k)
  {
    hide MailedAt, MailOf, Step, Shop.Run;
    var n := |es| - 1;
    if j < n {
      MailedInFront(cfg, es, j);
      LaterMailsAreFewer(cfg, es[..n], j, k);
    }
  }

  lemma {:induction false} FilterHead(ms: seq<Mail>, to: string) returns (c: nat)
    requires Filter(ms, to) != []
    ensures c < |ms| && IsTo(ms[c], to) && Filter(ms, to)[0] == ms[c]
    ensures forall i :: 0 <= i < c ==> !IsTo(ms[i], to)
  {
    if IsTo(ms[0], to) {
      c := 0;
    } else {
      c := FilterHead(ms[1..], to);
      c := c + 1;
    }
  }

  // The latest mail is the first in the box that reaches the address.
  lemma LatestIndex(box: Box, to: string) returns (c: nat)
    requires LatestOf(box, to).Some?
    ensures c < |box.messages| && Reaches(box.messages[c].draft, to) && LatestOf(box, to).value == box.messages[c]
    ensures forall i :: 0 <= i < c ==> !Reaches(box.messages[i].draft, to)
  {
    if to == "" {
      c := 0;
    } else {
      c := FilterHead(box.messages, to);
    }
  }

  lemma LatestAt(box: Box, to: string, c: nat)
    requires c < |box.messages| && Reaches(box.messages[c].draft, to)
    requires forall i :: 0 <= i < c ==> !Reaches(box.messages[i].draft, to)
    ensures LatestOf(box, to) == Some(box.messages[c])
  {
    if to == "" {
      assert c == 0;
    } else {
      FilterFirst(box.messages, to, c);
    }
  }

  lemma NewestIsRead(cfg: Config, es: seq<Event>, k: nat, to: string)
    requires IsNewestTo(cfg, es, k, to)
    ensures LatestOf(Shop.Run(cfg, FRESH, es).mail, to) == Some(MailOf(cfg, es, k))
  {
    hide Step, Shop.Run, MailOps, Log, MailedAt, Reaches, MailedSince;
    var box, log, c := Shop.Run(cfg, FRESH, es).mail, Log(MailOps(cfg, es)), MailedSince(cfg, es, k);
    ShopMailIsLogPrefix(cfg, es);
    LoggedAt(cfg, es, k);
    forall d | 0 <= d < c ensures !Reaches(box.messages[d].draft, to) {
      var j := LogEntry(cfg, es, d);
      LoggedAt(cfg, es, j);
      if k < j {
        assert !MailsTo(cfg, es, j, to);
      } else if j < k {
        LaterMailsAreFewer(cfg, es, k, j);
      }
      assert box.messages[d].draft == MailedAt(cfg, es, j).value;
    }
    LatestAt(box, to, c);
  }

  lemma ReadIsNewest(cfg: Config, es: seq<Event>, to: string) returns (k: nat)
    requires LatestOf(Shop.Run(cfg, FRESH, es).mail, to).Some?
    ensures IsNewestTo(cfg, es, k, to)
  {
    hide Step, Shop.Run, MailOps, Log, MailedAt, Reaches, MailedSince, LatestOf;
    var box := Shop.Run(cfg, FRESH, es).mail;
    ShopMailIsLogPrefix(cfg, es);
    var c := LatestIndex(box, to);
    k := LogEntry(cfg, es, c);
    LoggedAt(cfg, es, k);
    forall j | k < j < |es| && MailedAt(cfg, es, j).Some? ensures !Reaches(MailedAt(cfg, es, j).value, to) {
      LaterMailsAreFewer(cfg, es, j, k);
      LoggedAt(cfg, es, j);
    }
  }

  /** After any run an address reads the mail of the last event that mailed to it, unless 200 others pushed it out. */
  lemma LatestMailIs(cfg: Config, es: seq<Event>, to: string, m: Mail)
    ensures LatestOf(Shop.Run(cfg, FRESH, es).mail, to) == Some(m) <==>
            exists k: nat :: IsNewestTo(cfg, es, k, to) && m == MailOf(cfg, es, k)
  {
    hide IsNewestTo, LatestOf, MailOf, Shop.Run;
    forall k: nat | IsNewestTo(cfg, es, k, to)
      ensures k < |es| && MailedAt(cfg, es, k).Some?
      ensures LatestOf(Shop.Run(cfg, FRESH, es).mail, to) == Some(MailOf(cfg, es, k))
    {
      NewestWasSent(cfg, es, k, to);
      NewestIsRead(cfg, es, k, to);
    }
    if LatestOf(Shop.Run(cfg, FRESH, es).mail, to) == Some(m) {
      var k := ReadIsNewest(cfg, es, to);
    }
  }

  lemma NewestWasSent(cfg: Config, es: seq<Event>, k: nat, to: string)
    requires IsNewestTo(cfg, es, k, to)
    ensures k < |es| && MailedAt(cfg, es, k).Some?
  {}
}
