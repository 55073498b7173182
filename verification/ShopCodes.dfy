/** From a requested code to the mail it is read out of, over whole runs of the demo store. */
module ShopCodes {
  import opened Text
  import opened Money
  import opened Mailbox
  import opened Shop
  import opened ShopMail
  import opened ShopSignIn
  import ShopRuns

  // What a user finds who opens the newest mail at the address.
  function ReadCode(box: Box, to: string): Option<string> {
    match LatestOf(box, to)
    case Some(mail) => ExtractCode(mail.draft.text)
    case None => None
  }

  // ----- texts and digits --------------------------------------------------------------

  lemma {:induction false} TrimDigits(code: string)
    requires AllDigits(code)
    ensures Trim(code) == code
  {}

  lemma ExtractedIsTrimmed(s: string)
    requires ExtractCode(s).Some?
    ensures Trim(ExtractCode(s).value) == ExtractCode(s).value
  {
    hide ExtractCode, IsDigit, IsWord, IsWordChar, Trim;
    var c := ExtractCode(s).value;
    ExtractCodeIsFirst(s, c);
    var i: nat, j: nat :| IsCodeSpan(s, i, j) && c == s[i..j];
    CharsAre(s);
    TrimDigits(c);
  }

  lemma CodeHasSixDigits(random: nat)
    ensures AllDigits(CodeFrom(random)) && |CodeFrom(random)| == 6
  {
    assert Pow10(6) == 1000000;
    DecimalWidth(random % 1000000, 6);
  }

  lemma MailedCode(address: string, random: nat)
    ensures ExtractCode(OtpMail(address, CodeFrom(random)).text) == Some(CodeFrom(random))
  {
    var after := ". It expires in 10 minutes.";
    CodeHasSixDigits(random);
    ExtractsFirstCode(CODE_PREFIX, CodeFrom(random), after);
    assert OtpMail(address, CodeFrom(random)).text == CODE_PREFIX + CodeFrom(random) + after;
  }

  lemma {:induction false} DecimalWidthAtLeast(n: nat, w: nat)
    requires n >= Pow10(w)
    ensures |Decimal(n)| > w
  {
    if w > 0 {
      DecimalWidthAtLeast(n / 10, w - 1);
    }
  }

  lemma {:induction false} NatOfZeros(k: nat, s: string)
    ensures NatOf(seq(k, _ => '0') + s) == NatOf(s)
    decreases k + |s|
  {
    var t := seq(k, _ => '0') + s;
    if s != [] {
      assert t[..|t| - 1] == seq(k, _ => '0') + s[..|s| - 1];
      NatOfZeros(k, s[..|s| - 1]);
    } else if k > 0 {
      assert t[..|t| - 1] == seq(k - 1, _ => '0') + s;
      NatOfZeros(k - 1, s);
    }
  }

  lemma CodeIsItsNumber(random: nat)
    ensures NatOf(CodeFrom(random)) == random % 1000000
    ensures |Decimal(random % 1000000)| == 6 ==> CodeFrom(random) == Decimal(random % 1000000)
  {
    var r := random % 1000000;
    assert Pow10(6) == 1000000;
    DecimalWidth(r, 6);
    hide Decimal, Pow10, NatOf;
    NatOfDecimal(r);
    NatOfZeros(6 - |Decimal(r)|, Decimal(r));
  }

  // A number spells a code exactly when it is the code's number and has six digits.
  lemma NumberIsCode(n: nat, random: nat)
    ensures Decimal(n) == CodeFrom(random) <==> n == random % 1000000 && n >= 100000
  {
    assert Pow10(5) == 100000 && Pow10(6) == 1000000;
    hide Decimal, CodeFrom, NatOf, Pow10;
    NatOfDecimal(n);
    CodeIsItsNumber(random);
    CodeHasSixDigits(random);
    DecimalWidth(random % 1000000, 6);
    if n < 100000 { DecimalWidth(n, 5); } else { DecimalWidthAtLeast(n, 5); }
  }

  const ORDER_MAIL_HEAD := "Thanks for your order.\n\nOrder ORD-"

  // An order's mail after its number.
  function OrderMailTail(order: Order): string { "\nTotal: " + FormatAmount(order.totals.total) + "\n" }

  lemma OrderMailParts(order: Order, n: nat)
    requires order.id == OrderId(n)
    ensures OrderMail(order).text == ORDER_MAIL_HEAD + Decimal(n) + OrderMailTail(order)
  {
    hide FormatAmount, Decimal;
    assert "Order " + order.id == "Order ORD-" + Decimal(n);
  }

  lemma NumberIsFourToEight(n: nat)
    requires n >= 1000
    ensures |Decimal(n)| >= 4 && (|Decimal(n)| <= 8 <==> n < 100000000)
  {
    assert Pow10(3) == 1000 && Pow10(8) == 100000000;
    DecimalWidthAtLeast(n, 3);
    if n < 100000000 { DecimalWidth(n, 8); } else { DecimalWidthAtLeast(n, 8); }
  }

  // What is read out of an order's mail: its number, or, past eight digits, what its total shows.
  function ShownBy(order: Order, n: nat): Option<string> {
    if n < 100000000 then Some(Decimal(n)) else ExtractCode(OrderMailTail(order))
  }

  lemma OrderMailShows(order: Order, n: nat)
    requires order.id == OrderId(n) && n >= 1000
    ensures ExtractCode(OrderMail(order).text) == ShownBy(order, n)
  {
    hide FormatAmount, Decimal, ExtractCode;
    OrderMailParts(order, n);
    NumberIsFourToEight(n);
    if n < 100000000 {
      ExtractsFirstCode(ORDER_MAIL_HEAD, Decimal(n), OrderMailTail(order));
    } else {
      LongNumberIsSkipped(ORDER_MAIL_HEAD, Decimal(n), OrderMailTail(order));
    }
  }

  // ----- over runs -----------------------------------------------------------------------

  lemma RequestMails(cfg: Config, es: seq<Event>, i: nat, address: string)
    requires i < |es| && Requests(es[i], address)
    ensures MailedAt(cfg, es, i) == Some(OtpMail(address, CodeFrom(es[i].request.random)))
    ensures MailsTo(cfg, es, i, address)
  {
    hide Step, Address, CodeFrom, Lower;
  }

  // The mail read is never older than the pending request.
  lemma NewestFollowsPending(cfg: Config, es: seq<Event>, i: nat, k: nat, address: string)
    requires IsPending(cfg, es, i, address) && IsNewestTo(cfg, es, k, address)
    ensures i <= k
    ensures i == k ==> ReadCode(Shop.Run(cfg, FRESH, es).mail, address) == Some(CodeFrom(es[i].request.random))
  {
    hide MailsTo, MailedAt, Supersedes, CodeFrom, Address, ExtractCode, Step, Shop.Run;
    RequestMails(cfg, es, i, address);
    NewestIsRead(cfg, es, k, address);
    MailedCode(address, es[i].request.random);
  }

  /**
   * The code read out of the newest mail is accepted exactly when a request of at most ten minutes ago is pending and
   * the newest mail is that request's own, or a later one that happens to show the same code.
   */
  lemma ReadCodeIsAccepted(cfg: Config, es: seq<Event>, now: int, email: string)
    ensures var s, address := Shop.Run(cfg, FRESH, es), Address(email);
            var read := ReadCode(s.mail, address);
            read.Some? && Accepts(s, now, email, read.value) <==>
            exists i: nat, k: nat ::
              && IsPending(cfg, es, i, address) && now <= es[i].now + 600000
              && IsNewestTo(cfg, es, k, address) && i <= k
              && (i == k || ExtractCode(MailedAt(cfg, es, k).value.text) == Some(CodeFrom(es[i].request.random)))
  {
    hide Address, CodeFrom, ExtractCode, Step, Shop.Run, IsPending, IsNewestTo, Accepts, MailedAt, LatestOf, Trim;
    var s, address := Shop.Run(cfg, FRESH, es), Address(email);
    var read := ReadCode(s.mail, address);
    if read.Some? {
      ExtractedIsTrimmed(LatestOf(s.mail, address).value.draft.text);
      AcceptedIffLatestAndFresh(cfg, es, now, email, read.value);
      var k := ReadIsNewest(cfg, es, address);
      NewestIsRead(cfg, es, k, address);
      forall i: nat | IsPending(cfg, es, i, address) ensures i <= k {
        NewestFollowsPending(cfg, es, i, k, address);
      }
    }
    forall i: nat, k: nat | IsPending(cfg, es, i, address) && IsNewestTo(cfg, es, k, address)
      ensures k < |es| && MailedAt(cfg, es, k).Some? && LatestOf(s.mail, address) == Some(MailOf(cfg, es, k))
      ensures i < |es| && es[i].request.RequestOtp?
      ensures i == k ==> read == Some(CodeFrom(es[i].request.random))
    {
      NewestWasSent(cfg, es, k, address);
      NewestIsRead(cfg, es, k, address);
      PendingIsRequest(cfg, es, i, address);
      NewestFollowsPending(cfg, es, i, k, address);
    }
  }

  lemma LoggedMailsDiffer(cfg: Config, es: seq<Event>, j: nat, k: nat)
    requires IsLogged(cfg, es, j) && IsLogged(cfg, es, k) && j < k
    ensures MailOf(cfg, es, j) != MailOf(cfg, es, k)
  {
    hide Log, MailOps, MailedAt, MailId, Step, Shop.Run;
    var ns := LogNumbers(MailOps(cfg, es));
    LoggedAt(cfg, es, j);
    LoggedAt(cfg, es, k);
    LaterMailsAreFewer(cfg, es, k, j);
    var c, d := MailedSince(cfg, es, j), MailedSince(cfg, es, k);
    if MailOf(cfg, es, j) == MailOf(cfg, es, k) {
      MailIdsDiffer(ns[c], ns[d]);
    }
  }

  lemma PendingIsLogged(cfg: Config, es: seq<Event>, i: nat, address: string)
    requires IsPending(cfg, es, i, address)
    ensures IsLogged(cfg, es, i) && MailsTo(cfg, es, i, address) && es[i].request.RequestOtp?
  {
    hide MailedAt, AcceptedAt, Address, CodeFrom;
    RequestMails(cfg, es, i, address);
    forall j | i < j < |es| ensures !es[j].request.Reset? {
      assert !Supersedes(cfg, es, j, address);
    }
  }

  /**
   * While a request is pending its mail stays the newest at the address exactly until another reaches the address or
   * 200 follow; until then the code read out of it is the pending one, accepted exactly for ten minutes.
   */
  lemma MailedCodeIsAccepted(cfg: Config, es: seq<Event>, i: nat, now: int, email: string)
    requires IsPending(cfg, es, i, Address(email))
    ensures IsLogged(cfg, es, i) && es[i].request.RequestOtp?
    ensures var s, address := Shop.Run(cfg, FRESH, es), Address(email);
            LatestOf(s.mail, address) == Some(MailOf(cfg, es, i)) <==>
            MailedSince(cfg, es, i) < MAX_MESSAGES && forall j :: i < j < |es| ==> !MailsTo(cfg, es, j, address)
    ensures var s, address := Shop.Run(cfg, FRESH, es), Address(email);
            LatestOf(s.mail, address) == Some(MailOf(cfg, es, i)) ==>
              var read := ReadCode(s.mail, address);
              && read == Some(CodeFrom(es[i].request.random))
              && (Accepts(s, now, email, read.value) <==> now <= es[i].now + 600000)
  {
    hide Address, CodeFrom, ExtractCode, Step, Shop.Run, IsPending, MailedAt, MailsTo, LatestOf, Trim, MailOf;
    var s, address := Shop.Run(cfg, FRESH, es), Address(email);
    PendingIsLogged(cfg, es, i, address);
    PendingIsHeld(cfg, es, i, address);
    if LatestOf(s.mail, address).Some? {
      var k := ReadIsNewest(cfg, es, address);
      NewestIsRead(cfg, es, k, address);
      NewestFollowsPending(cfg, es, i, k, address);
      if i < k && LatestOf(s.mail, address) == Some(MailOf(cfg, es, i)) {
        LoggedMailsDiffer(cfg, es, i, k);
      }
    }
    if IsNewestTo(cfg, es, i, address) {
      NewestIsRead(cfg, es, i, address);
    }
    TrimDigits(CodeFrom(es[i].request.random)) by { CodeHasSixDigits(es[i].request.random); }
  }

  // The mail of an order is that of the order it placed.
  lemma CheckoutMails(cfg: Config, es: seq<Event>, k: nat)
    requires k < |es| && es[k].request.Checkout? && MailedAt(cfg, es, k).Some?
    ensures var s' := Step(cfg, Shop.Run(cfg, FRESH, es[..k]), es[k]).0;
            && s'.orders != [] && MailedAt(cfg, es, k).value == OrderMail(s'.orders[|s'.orders| - 1])
            && s'.orders[|s'.orders| - 1].id == OrderId(1000 + |s'.orders|)
  {
    var s := Shop.Run(cfg, FRESH, es[..k]);
    assert ShopRuns.Inv(cfg, FRESH);
    hide Step, OrderMail, OrderId, ShopRuns.Inv;
    ShopRuns.RunKeepsInv(cfg, FRESH, es[..k]);
    ShopRuns.StepKeepsInv(cfg, s, es[k]);
    LastOrderId(cfg, Step(cfg, s, es[k]).0);
  }

  lemma LastOrderId(cfg: Config, s: State)
    requires ShopRuns.Inv(cfg, s)
    ensures s.orders != [] ==> s.orders[|s.orders| - 1].id == OrderId(1000 + |s.orders|)
  {
    hide OrderId;
    if s.orders != [] {
      assert ShopRuns.IsOrder(cfg, s.orders[|s.orders| - 1], 1000 + |s.orders|);
    }
  }

  /**
   * An order mailed to the address hides the code. What is read is the order's number, accepted exactly in the chance
   * case that the pending code is that number in six digits; the first 98 999 orders have too few digits for that. From
   * nine digits on, the total is read instead.
   */
  lemma OrderHidesTheCode(cfg: Config, es: seq<Event>, i: nat, k: nat, now: int, email: string)
    requires IsPending(cfg, es, i, Address(email)) && IsNewestTo(cfg, es, k, Address(email)) && es[k].request.Checkout?
    ensures es[i].request.RequestOtp?
    ensures var orders := Step(cfg, Shop.Run(cfg, FRESH, es[..k]), es[k]).0.orders;
            orders != [] &&
            var n, shown := 1000 + |orders|, ShownBy(orders[|orders| - 1], 1000 + |orders|);
            var s := Shop.Run(cfg, FRESH, es);
            && ReadCode(s.mail, Address(email)) == shown
            && (shown.Some? && Accepts(s, now, email, shown.value) <==>
                && now <= es[i].now + 600000
                && if n < 100000000 then n >= 100000 && es[i].request.random % 1000000 == n
                   else shown == Some(CodeFrom(es[i].request.random)))
  {
    hide Address, CodeFrom, ExtractCode, Step, Shop.Run, IsPending, MailedAt, MailsTo, LatestOf, Trim, OrderMail;
    hide OrderId, OrderMailTail;
    var s, s' := Shop.Run(cfg, FRESH, es), Step(cfg, Shop.Run(cfg, FRESH, es[..k]), es[k]).0;
    var n := 1000 + |s'.orders|;
    PendingIsLogged(cfg, es, i, Address(email));
    PendingIsHeld(cfg, es, i, Address(email));
    NewestWasSent(cfg, es, k, Address(email));
    NewestIsRead(cfg, es, k, Address(email));
    CheckoutMails(cfg, es, k);
    OrderMailShows(s'.orders[|s'.orders| - 1], n);
    NumberIsCode(n, es[i].request.random);
    if ShownBy(s'.orders[|s'.orders| - 1], n).Some? {
      ExtractedIsTrimmed(LatestOf(s.mail, Address(email)).value.draft.text);
    }
  }

  // ----- a run that reads the wrong code -------------------------------------------------

  lemma {:induction false} RunOfThree(cfg: Config, s: State, a: Event, b: Event, c: Event)
    ensures Shop.Run(cfg, s, [a, b]) == Step(cfg, Step(cfg, s, a).0, b).0
    ensures Shop.Run(cfg, s, [a, b, c]) == Step(cfg, Shop.Run(cfg, s, [a, b]), c).0
  {
    hide Step;
    assert [a][..0] == [] && Shop.Run(cfg, s, [a]) == Step(cfg, s, a).0;
    assert [a, b][..1] == [a] && [a, b, c][..2] == [a, b];
  }

  lemma CartAfterTwo(cfg: Config, a: Event, b: Event, p: Product)
    requires FindProduct(cfg.catalogue, p.id) == Some(p) && p.stock > 0
    requires a.request == AddToCart(p.id, Some(1)) && b.request.RequestOtp?
    ensures var s := Step(cfg, Step(cfg, FRESH, a).0, b).0;
            CartFor(s, a.sid) == [Line(p.id, 1)] && s.orders == [] && s.orderSeq == 1000
  {
    hide FindProduct, Address, CodeFrom, OtpMail, Added;
  }

  lemma OneLineOrder(cfg: Config, s: State, sid: string, now: int, form: CheckoutForm, p: Product)
    requires FindProduct(cfg.catalogue, p.id) == Some(p) && CartFor(s, sid) == [Line(p.id, 1)] && IsComplete(form)
    ensures var s' := CheckoutStep(cfg, s, sid, now, form).0;
            |s'.orders| == |s.orders| + 1 && s'.orders[|s.orders|].email == Trim(form.email)
  {
    hide FindProduct, IsComplete, OrderMail, Added, OrderId, Trim, TotalsFor;
    var lines := [Line(p.id, 1)];
    assert OrderLines(cfg.catalogue, lines[..0]) == Some([]);
  }

  function ItemCodeOrder(p: Product, sid: string, now: int, address: string, form: CheckoutForm): seq<Event> {
    [Event(sid, now, AddToCart(p.id, Some(1))), Event(sid, now, RequestOtp(address, 7)),
     Event(sid, now, Checkout(form))]
  }

  lemma OrderIsNewest(cfg: Config, p: Product, sid: string, now: int, address: string, form: CheckoutForm)
    requires FindProduct(cfg.catalogue, p.id) == Some(p) && p.stock > 0
    requires IsComplete(form) && Trim(form.email) == address && Address(address) == address
    ensures var es := ItemCodeOrder(p, sid, now, address, form);
            && IsPending(cfg, es, 1, address) && IsNewestTo(cfg, es, 2, address)
            && |Step(cfg, Shop.Run(cfg, FRESH, es[..2]), es[2]).0.orders| == 1
  {
    hide Step, Address, IsComplete, FindProduct, CodeFrom, OrderMail, Trim, Lower;
    var es := ItemCodeOrder(p, sid, now, address, form);
    var s := Shop.Run(cfg, FRESH, [es[0], es[1]]);
    assert es[..2] == [es[0], es[1]];
    RunOfThree(cfg, FRESH, es[0], es[1], es[2]);
    CartAfterTwo(cfg, es[0], es[1], p);
    CheckoutIsMailed(cfg, s, es[2], p);
    assert MailsTo(cfg, es, 2, address);
  }

  /** An item, a code and an order to the same address: the code read is the order's number, and not accepted. */
  lemma OrderAfterCode(cfg: Config, p: Product, sid: string, now: int, address: string, form: CheckoutForm)
    requires FindProduct(cfg.catalogue, p.id) == Some(p) && p.stock > 0
    requires IsComplete(form) && Trim(form.email) == address && Address(address) == address
    ensures var es := ItemCodeOrder(p, sid, now, address, form);
            var s := Shop.Run(cfg, FRESH, es);
            && IsPending(cfg, es, 1, address) && IsNewestTo(cfg, es, 2, address)
            && ReadCode(s.mail, address) == Some(Decimal(1001)) && !Accepts(s, now, address, Decimal(1001))
  {
    OrderIsNewest(cfg, p, sid, now, address, form);
    hide Step, Address, FindProduct, Decimal, ReadCode, Accepts, Trim, Shop.Run, IsPending, IsNewestTo, IsComplete;
    FirstOrderIsRead(cfg, ItemCodeOrder(p, sid, now, address, form), now, address);
  }

  lemma FirstOrderIsRead(cfg: Config, es: seq<Event>, now: int, email: string)
    requires |es| == 3 && es[2].request.Checkout?
    requires IsPending(cfg, es, 1, Address(email)) && IsNewestTo(cfg, es, 2, Address(email))
    requires |Step(cfg, Shop.Run(cfg, FRESH, es[..2]), es[2]).0.orders| == 1
    ensures var s := Shop.Run(cfg, FRESH, es);
            ReadCode(s.mail, Address(email)) == Some(Decimal(1001)) && !Accepts(s, now, email, Decimal(1001))
  {
    hide Step, Address, CodeFrom, Decimal, ReadCode, Accepts, Shop.Run, IsPending, IsNewestTo;
    OrderHidesTheCode(cfg, es, 1, 2, now, email);
  }

  lemma CheckoutIsMailed(cfg: Config, s: State, e: Event, p: Product)
    requires FindProduct(cfg.catalogue, p.id) == Some(p) && CartFor(s, e.sid) == [Line(p.id, 1)]
    requires e.request.Checkout? && IsComplete(e.request.form)
    ensures var s' := Step(cfg, s, e).0;
            && |s'.orders| == |s.orders| + 1
            && MailOp(s, s', e) == Some(Post(OrderMail(s'.orders[|s.orders|]), e.now))
            && OrderMail(s'.orders[|s.orders|]).to == Trim(e.request.form.email)
  {
    hide CheckoutStep, IsComplete, FindProduct, Trim;
    OneLineOrder(cfg, s, e.sid, e.now, e.request.form, p);
  }
}
