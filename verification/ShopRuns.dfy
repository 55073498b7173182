/** What every run of the demo store keeps: carts, orders, isolation between sessions. */
module ShopRuns {
  import opened Text
  import opened Money
  import Mailbox
  import opened Shop

  // ----- the invariant ---------------------------------------------------------------

  function PriceOf(line: OrderLine): int { line.priceCents * line.quantity }

  lemma PriceOfIs(line: OrderLine)
    ensures PriceOf(line) == Price(line.priceCents, line.quantity)
  {}

  // The sum and the least of an order's own line prices.
  function SumOf(lines: seq<OrderLine>): int {
    if lines == [] then 0
    else SumOf(lines[..|lines| - 1]) + PriceOf(lines[|lines| - 1])
  }

  ghost predicate IsLeastPrice(c: int, lines: seq<OrderLine>) {
    && (exists i :: 0 <= i < |lines| && PriceOf(lines[i]) == c)
    && forall i :: 0 <= i < |lines| ==> c <= PriceOf(lines[i])
  }

  ghost predicate IsCatalogued(ps: Catalogue, line: OrderLine) {
    var p := FindProduct(ps, line.productId);
    p.Some? && line.name == p.value.name && line.priceCents == p.value.priceCents && 1 <= line.quantity <= p.value.stock
  }

  // Every amount follows from the order's own lines; with the bug on, the total drops the cheapest of several.
  ghost predicate IsOrder(cfg: Config, o: Order, n: nat) {
    && o.id == OrderId(n)
    && o.lines != []
    && (forall i :: 0 <= i < |o.lines| ==> IsCatalogued(cfg.catalogue, o.lines[i]))
    && (forall i, j :: 0 <= i < j < |o.lines| ==> o.lines[i].productId != o.lines[j].productId)
    && o.totals.subtotal == SumOf(o.lines)
    && o.totals.shipping == ShippingFor(o.totals.subtotal)
    && o.totals.tax == TaxCents(o.totals.subtotal)
    && (if cfg.plantedBug && |o.lines| >= 2
        then exists c :: IsLeastPrice(c, o.lines) && o.totals.total == Cents(CorrectTotal(o.totals.subtotal) - c)
        else o.totals.total == Cents(CorrectTotal(o.totals.subtotal)))
  }

  ghost predicate Inv(cfg: Config, s: State) {
    && (forall sid :: sid in s.carts ==> IsCart(cfg.catalogue, s.carts[sid]))
    && s.orderSeq == 1000 + |s.orders|
    && (forall k :: 0 <= k < |s.orders| ==> IsOrder(cfg, s.orders[k], 1001 + k))
  }

  lemma AddKeepsCart(ps: Catalogue, lines: seq<Line>, p: Product, quantity: int)
    requires IsCart(ps, lines) && FindProduct(ps, p.id) == Some(p) && p.stock >= 1 && quantity >= 1
    ensures IsCart(ps, WithAdded(lines, p, quantity))
  {
    var i := IndexOf(lines, p.id);
    var r := WithAdded(lines, p, quantity);
    forall k | 0 <= k < |r| ensures IsStocked(ps, r[k]) {
      if k < |lines| && k != i { assert r[k] == lines[k]; }
      if i < |lines| { assert IsStocked(ps, lines[i]); }
    }
  }

  lemma {:induction false} WithoutIs(lines: seq<Line>, productId: string)
    ensures forall k :: 0 <= k < |Without(lines, productId)| ==>
              Without(lines, productId)[k] in lines && Without(lines, productId)[k].productId != productId
    ensures forall l :: l in lines && l.productId != productId ==> l in Without(lines, productId)
  {
    if lines != [] {
      WithoutIs(lines[..|lines| - 1], productId);
      assert lines == lines[..|lines| - 1] + [lines[|lines| - 1]];
    }
  }

  lemma {:induction false} RemoveKeepsCart(ps: Catalogue, lines: seq<Line>, productId: string)
    requires IsCart(ps, lines)
    ensures IsCart(ps, Without(lines, productId))
  {
    if lines != [] {
      var front, last := lines[..|lines| - 1], lines[|lines| - 1];
      assert forall k :: 0 <= k < |front| ==> front[k] == lines[k];
      RemoveKeepsCart(ps, front, productId);
      WithoutIs(front, productId);
      assert IsStocked(ps, last);
      assert forall l :: l in front ==> l.productId != last.productId;
    }
  }

  // ----- what a request does to a cart -------------------------------------------------------

  // How many of a product the lines hold.
  function QuantityOf(lines: seq<Line>, id: string): int {
    if lines == [] then 0
    else
      var last := lines[|lines| - 1];
      QuantityOf(lines[..|lines| - 1], id) + (if last.productId == id then last.quantity else 0)
  }

  lemma QuantityPlus(lines: seq<Line>, line: Line, id: string)
    ensures QuantityOf(lines + [line], id) ==
            QuantityOf(lines, id) + (if line.productId == id then line.quantity else 0)
  {
    assert (lines + [line])[..|lines|] == lines;
  }

  lemma {:induction false} QuantityAbsent(lines: seq<Line>, id: string)
    requires forall k :: 0 <= k < |lines| ==> lines[k].productId != id
    ensures QuantityOf(lines, id) == 0
  {
    if lines != [] { QuantityAbsent(lines[..|lines| - 1], id); }
  }

  lemma {:induction false} QuantityReplaced(lines: seq<Line>, i: nat, quantity: int, id: string)
    requires i < |lines|
    ensures QuantityOf(lines[i := Line(lines[i].productId, quantity)], id) ==
            QuantityOf(lines, id) + (if lines[i].productId == id then quantity - lines[i].quantity else 0)
  {
    var r, n := lines[i := Line(lines[i].productId, quantity)], |lines| - 1;
    if i < n {
      QuantityReplaced(lines[..n], i, quantity, id);
      assert r[..n] == lines[..n][i := Line(lines[i].productId, quantity)];
    } else {
      assert r[..n] == lines[..n];
    }
  }

  lemma {:induction false} QuantityOfOne(lines: seq<Line>, i: nat)
    requires i < |lines| && forall j, k :: 0 <= j < k < |lines| ==> lines[j].productId != lines[k].productId
    ensures QuantityOf(lines, lines[i].productId) == lines[i].quantity
  {
    var n := |lines| - 1;
    if i < n {
      QuantityOfOne(lines[..n], i);
    } else {
      QuantityAbsent(lines[..n], lines[i].productId);
    }
  }

  /** Adding raises one product's quantity, up to its stock, and no other. */
  lemma AddRaisesOneQuantity(ps: Catalogue, lines: seq<Line>, p: Product, quantity: int, id: string)
    requires IsCart(ps, lines)
    ensures QuantityOf(WithAdded(lines, p, quantity), id) ==
            if id == p.id then Min(p.stock, QuantityOf(lines, id) + quantity) else QuantityOf(lines, id)
  {
    hide QuantityOf, IndexOf, IsStocked;
    var i := IndexOf(lines, p.id);
    if i < |lines| {
      QuantityOfOne(lines, i);
      QuantityReplaced(lines, i, Min(p.stock, lines[i].quantity + quantity), id);
    } else {
      QuantityAbsent(lines, p.id);
      QuantityPlus(lines, Line(p.id, Min(p.stock, quantity)), id);
    }
  }

  /** Removing takes one product out of the cart and no other. */
  lemma {:induction false} RemoveDropsOneQuantity(lines: seq<Line>, productId: string, id: string)
    ensures QuantityOf(Without(lines, productId), id) == if id == productId then 0 else QuantityOf(lines, id)
  {
    if lines != [] {
      var front, last := lines[..|lines| - 1], lines[|lines| - 1];
      RemoveDropsOneQuantity(front, productId, id);
      if last.productId != productId {
        QuantityPlus(Without(front, productId), last, id);
      } else {
        NothingAppended(Without(front, productId));
      }
    }
  }

  /** A request to add: 400 for a product that is unknown or sold out, and otherwise as many more as were asked for,
      at least one, up to the stock, of that product alone. */
  lemma AddOutcome(cfg: Config, s: State, e: Event, id: string)
    requires e.request.AddToCart? && IsCart(cfg.catalogue, CartFor(s, e.sid))
    ensures var r, p := Step(cfg, s, e), FindProduct(cfg.catalogue, e.request.productId);
            var was, becomes := QuantityOf(CartFor(s, e.sid), id), QuantityOf(CartFor(r.0, e.sid), id);
            var q := e.request.quantity;
            var asked := if q.Some? && q.value > 1 then q.value else 1;
            if p.None? || p.value.stock == 0 then r == (s, Page(400))
            else
              && r.1 == SeeOther("/cart")
              && becomes == if id != e.request.productId then was
                            else if was + asked > p.value.stock then p.value.stock
                            else was + asked
  {
    hide WithAdded, QuantityOf, IsCart, FindProduct;
    var p := FindProduct(cfg.catalogue, e.request.productId);
    if p.Some? {
      AddRaisesOneQuantity(cfg.catalogue, CartFor(s, e.sid), p.value, Wanted(e.request.quantity), id);
    }
  }

  lemma NothingAppended(lines: seq<Line>)
    ensures lines + [] == lines
  {}

  // An order's lines are the cart's, priced by the catalogue, ...
  lemma {:induction false} OrderLinesFollowCart(ps: Catalogue, lines: seq<Line>)
    requires forall i :: 0 <= i < |lines| ==> IsStocked(ps, lines[i])
    ensures var r := OrderLines(ps, lines);
            && r.Some? && |r.value| == |lines|
            && (forall i :: 0 <= i < |lines| ==> IsCatalogued(ps, r.value[i]))
            && (forall i :: 0 <= i < |lines| ==>
                  r.value[i].productId == lines[i].productId && r.value[i].quantity == lines[i].quantity)
  {
    if lines != [] {
      OrderLinesFollowCart(ps, lines[..|lines| - 1]);
      assert IsStocked(ps, lines[|lines| - 1]);
    }
  }

  // ... with the same sum ...
  lemma {:induction false} OrderLinesSum(ps: Catalogue, lines: seq<Line>)
    requires OrderLines(ps, lines).Some?
    ensures SumOf(OrderLines(ps, lines).value) == SubtotalCents(ps, lines)
  {
    hide Price, PriceOf;
    if lines != [] {
      OrderLinesSum(ps, lines[..|lines| - 1]);
      var r := OrderLines(ps, lines).value;
      PriceOfIs(r[|r| - 1]);
      assert r[..|r| - 1] == OrderLines(ps, lines[..|lines| - 1]).value;
    }
  }

  // ... and the same least price.
  lemma {:induction false} CheapestIsLeast(ps: Catalogue, lines: seq<Line>, ols: seq<OrderLine>)
    requires lines != [] && |ols| == |lines|
    requires forall i :: 0 <= i < |lines| ==> IsStocked(ps, lines[i]) && IsCatalogued(ps, ols[i])
    requires forall i :: 0 <= i < |lines| ==>
               ols[i].productId == lines[i].productId && ols[i].quantity == lines[i].quantity
    ensures CheapestLineCents(ps, lines).Some? && IsLeastPrice(CheapestLineCents(ps, lines).value, ols)
  {
    hide Price, PriceOf;
    assert IsStocked(ps, lines[0]) && IsCatalogued(ps, ols[0]);
    PriceOfIs(ols[0]);
    assert PriceOf(ols[0]) == Price(FindProduct(ps, lines[0].productId).value.priceCents, lines[0].quantity);
    if |lines| == 1 {
      assert lines[1..] == [];
    } else {
      CheapestIsLeast(ps, lines[1..], ols[1..]);
      LeastOfTail(CheapestLineCents(ps, lines[1..]).value, ols);
    }
  }

  lemma LeastOfTail(rest: int, ols: seq<OrderLine>)
    requires |ols| > 1 && IsLeastPrice(rest, ols[1..])
    ensures IsLeastPrice(if rest < PriceOf(ols[0]) then rest else PriceOf(ols[0]), ols)
  {
    hide PriceOf;
    var k :| 0 <= k < |ols[1..]| && PriceOf(ols[1..][k]) == rest;
    assert PriceOf(ols[1 + k]) == rest;
    forall i | 0 < i < |ols| ensures rest <= PriceOf(ols[i]) {
      assert ols[i] == ols[1..][i - 1];
    }
  }

  lemma PlacedOrderIsOrder(cfg: Config, lines: seq<Line>, n: nat, email: string, now: int)
    requires IsCart(cfg.catalogue, lines) && lines != []
    ensures var ols := OrderLines(cfg.catalogue, lines);
            ols.Some? &&
            IsOrder(cfg, Order(OrderId(n), email, ols.value, TotalsFor(cfg.catalogue, lines, cfg.plantedBug), now), n)
  {
    hide SubtotalCents, SumOf, OrderLines, CheapestLineCents, IsLeastPrice, OrderId, CorrectTotal, TaxCents;
    hide ShippingFor;
    OrderLinesFollowCart(cfg.catalogue, lines);
    OrderLinesSum(cfg.catalogue, lines);
    CheapestIsLeast(cfg.catalogue, lines, OrderLines(cfg.catalogue, lines).value);
  }

  lemma CheckoutKeepsInv(cfg: Config, s: State, sid: string, now: int, form: CheckoutForm)
    requires Inv(cfg, s)
    ensures Inv(cfg, CheckoutStep(cfg, s, sid, now, form).0)
  {
    var lines := CartFor(s, sid);
    hide OrderLines, TotalsFor, OrderMail, IsOrder, IsCart, Trim;
    if lines != [] && IsComplete(form) {
      PlacedOrderIsOrder(cfg, lines, s.orderSeq + 1, Trim(form.email), now);
    }
  }

  lemma StepKeepsInv(cfg: Config, s: State, e: Event)
    requires Inv(cfg, s)
    ensures Inv(cfg, Step(cfg, s, e).0)
  {
    hide IsOrder, CheckoutStep, WithAdded, Without, IsCart, LoginStep, OtpMail, UserAt, Accepts;
    match e.request {
      case AddToCart(productId, quantity) =>
        var p := FindProduct(cfg.catalogue, productId);
        if p.Some? && p.value.stock > 0 {
          AddKeepsCart(cfg.catalogue, CartFor(s, e.sid), p.value, Wanted(quantity));
        }
      case RemoveFromCart(productId) => RemoveKeepsCart(cfg.catalogue, CartFor(s, e.sid), productId);
      case Checkout(form) => CheckoutKeepsInv(cfg, s, e.sid, e.now, form);
      case _ =>
    }
  }

  /** Every reachable state has well-formed carts and orders, numbered from 1001 without a gap. */
  lemma {:induction false} RunKeepsInv(cfg: Config, s: State, es: seq<Event>)
    requires Inv(cfg, s)
    ensures Inv(cfg, Run(cfg, s, es))
  {
    hide Step, Inv;
    if es != [] {
      RunKeepsInv(cfg, s, es[..|es| - 1]);
      StepKeepsInv(cfg, Run(cfg, s, es[..|es| - 1]), es[|es| - 1]);
    }
  }

  // Each of the six fields holds something other than white space.
  ghost predicate IsFilledIn(f: CheckoutForm) {
    && !AllSpace(f.email) && !AllSpace(f.fullName) && !AllSpace(f.address)
    && !AllSpace(f.city) && !AllSpace(f.postalCode) && !AllSpace(f.cardNumber)
  }

  lemma CompleteIsFilledIn(f: CheckoutForm)
    ensures IsComplete(f) <==> IsFilledIn(f)
  {
    hide Trim, AllSpace;
    TrimsToNothing(f.email);
    TrimsToNothing(f.fullName);
    TrimsToNothing(f.address);
    TrimsToNothing(f.city);
    TrimsToNothing(f.postalCode);
    TrimsToNothing(f.cardNumber);
  }

  /** A checkout in a reachable state: back to an empty cart, 400 for a field left blank, and otherwise one order more,
      with the cart's products and quantities, the next number, the form's address and the time, and an empty cart. */
  lemma CheckoutOutcome(cfg: Config, s: State, e: Event)
    requires e.request.Checkout? && Inv(cfg, s)
    ensures var r, lines := Step(cfg, s, e), CartFor(s, e.sid);
            if lines == [] then r == (s, SeeOther("/cart"))
            else if !IsFilledIn(e.request.form) then r == (s, Page(400))
            else
              && |r.0.orders| == |s.orders| + 1 && r.0.orders[..|s.orders|] == s.orders
              && var order := r.0.orders[|s.orders|];
              && order.id == "ORD-" + Decimal(1001 + |s.orders|)
              && order.email == Trim(e.request.form.email) && order.placedAt == e.now
              && |order.lines| == |lines|
              && (forall i :: 0 <= i < |lines| ==>
                    order.lines[i].productId == lines[i].productId && order.lines[i].quantity == lines[i].quantity)
              && r.1 == SeeOther("/orders/" + order.id) && CartFor(r.0, e.sid) == []
  {
    var lines := CartFor(s, e.sid);
    CompleteIsFilledIn(e.request.form);
    hide IsComplete, IsFilledIn, OrderLines, TotalsFor, OrderMail, Trim, IsOrder, Decimal, Mailbox.Added;
    if lines != [] { OrderLinesFollowCart(cfg.catalogue, lines); }
  }

  lemma OrderIdsDiffer(m: nat, n: nat)
    requires OrderId(m) == OrderId(n)
    ensures m == n
  {
    assert Decimal(m) == OrderId(m)[4..] && Decimal(n) == OrderId(n)[4..];
    DecimalInjective(m, n);
  }

  /** No two orders of a reachable state share an id. */
  lemma OrderIdsAreUnique(cfg: Config, es: seq<Event>, i: nat, j: nat)
    requires i < j < |Run(cfg, FRESH, es).orders|
    ensures Run(cfg, FRESH, es).orders[i].id != Run(cfg, FRESH, es).orders[j].id
  {
    hide OrderId, Step, SumOf, IsCatalogued, IsLeastPrice, TaxCents, CorrectTotal, ShippingFor;
    RunKeepsInv(cfg, FRESH, es);
    var s := Run(cfg, FRESH, es);
    assert IsOrder(cfg, s.orders[i], 1001 + i) && IsOrder(cfg, s.orders[j], 1001 + j);
    if s.orders[i].id == s.orders[j].id {
      OrderIdsDiffer(1001 + i, 1001 + j);
    }
  }

  /** The seeded test fails on a reachable non-empty cart exactly when the bug is on and it has two lines. */
  lemma BugDetectedOnReachableCarts(cfg: Config, es: seq<Event>, sid: string)
    requires CartFor(Run(cfg, FRESH, es), sid) != []
    ensures var lines := CartFor(Run(cfg, FRESH, es), sid);
            !SeededCheck(TotalsFor(cfg.catalogue, lines, cfg.plantedBug)) <==> cfg.plantedBug && |lines| >= 2
  {
    RunKeepsInv(cfg, FRESH, es);
    PlantedBugIsDetected(cfg.catalogue, CartFor(Run(cfg, FRESH, es), sid), cfg.plantedBug);
  }

  // ----- frames ----------------------------------------------------------------------

  lemma OrdersStep(cfg: Config, s: State, e: Event)
    requires !e.request.Reset?
    ensures s.orders <= Step(cfg, s, e).0.orders
  {
    hide Mailbox.Added, Mailbox.Cleared, AddStep, RemoveStep, CheckoutStep, LoginStep, RequestOtpStep, VerifyOtpStep;
  }

  lemma SameCarts(s: State, s': State, sid: string)
    requires s'.carts == s.carts
    ensures SameCartsBut(s, s', sid)
  {}

  lemma OtherCartsStep(cfg: Config, s: State, e: Event)
    requires !e.request.Reset?
    ensures SameCartsBut(s, Step(cfg, s, e).0, e.sid)
  {
    hide AddStep, RemoveStep, CheckoutStep, LoginStep, RequestOtpStep, VerifyOtpStep, SameCartsBut;
    if !(e.request.AddToCart? || e.request.RemoveFromCart? || e.request.Checkout?) {
      SameCarts(s, Step(cfg, s, e).0, e.sid);
    }
  }

  /** Placed orders never change, move or disappear before a reset. */
  lemma {:induction false} OrdersOnlyGrow(cfg: Config, s: State, es: seq<Event>)
    requires forall k :: 0 <= k < |es| ==> !es[k].request.Reset?
    ensures s.orders <= Run(cfg, s, es).orders
  {
    hide Step;
    if es != [] {
      OrdersOnlyGrow(cfg, s, es[..|es| - 1]);
      OrdersStep(cfg, Run(cfg, s, es[..|es| - 1]), es[|es| - 1]);
    }
  }

  // What one session's own request makes of its cart, whatever else the state holds.
  function CartStep(cfg: Config, cart: seq<Line>, r: Request): seq<Line> {
    match r
    case AddToCart(productId, quantity) =>
      var p := FindProduct(cfg.catalogue, productId);
      if p.None? || p.value.stock <= 0 then cart else WithAdded(cart, p.value, Wanted(quantity))
    case RemoveFromCart(productId) => Without(cart, productId)
    case Checkout(form) => if IsComplete(form) && OrderLines(cfg.catalogue, cart).Some? then [] else cart
    case Reset => []
    case _ => cart
  }

  lemma AddOnCart(cfg: Config, s: State, sid: string, productId: string, quantity: Option<int>)
    ensures CartFor(AddStep(cfg, s, sid, productId, quantity).0, sid) ==
            CartStep(cfg, CartFor(s, sid), AddToCart(productId, quantity))
  {
    hide WithAdded, FindProduct;
  }

  lemma CheckoutOnCart(cfg: Config, s: State, sid: string, now: int, form: CheckoutForm)
    ensures CartFor(CheckoutStep(cfg, s, sid, now, form).0, sid) == CartStep(cfg, CartFor(s, sid), Checkout(form))
  {
    hide IsComplete, OrderMail, OrderId;
    if CartFor(s, sid) != [] { hide OrderLines; }
  }

  lemma StepOnCart(cfg: Config, s: State, e: Event, sid: string)
    requires e.sid == sid || e.request.Reset?
    ensures CartFor(Step(cfg, s, e).0, sid) == CartStep(cfg, CartFor(s, sid), e.request)
  {
    hide AddStep, CheckoutStep, LoginStep, RequestOtpStep, VerifyOtpStep;
    hide Without, WithAdded, FindProduct, OrderLines, IsComplete;
    match e.request {
      case AddToCart(productId, quantity) => AddOnCart(cfg, s, sid, productId, quantity);
      case Checkout(form) => CheckoutOnCart(cfg, s, sid, e.now, form);
      case _ =>
    }
  }

  // A cart folded from the requests that reach it, with no store around it.
  function CartRun(cfg: Config, rs: seq<Request>): seq<Line> {
    if rs == [] then [] else CartStep(cfg, CartRun(cfg, rs[..|rs| - 1]), rs[|rs| - 1])
  }

  function RequestsReaching(es: seq<Event>, sid: string): seq<Request> {
    if es == [] then []
    else
      var last := es[|es| - 1];
      RequestsReaching(es[..|es| - 1], sid) + (if last.sid == sid || last.request.Reset? then [last.request] else [])
  }

  /** Isolation: a session's cart is what its own requests, and the resets, make of it. */
  lemma {:induction false} CartDependsOnOwnRequests(cfg: Config, es: seq<Event>, sid: string)
    ensures CartFor(Run(cfg, FRESH, es), sid) == CartRun(cfg, RequestsReaching(es, sid))
  {
    hide Step, CartStep;
    if es != [] {
      var front, last := es[..|es| - 1], es[|es| - 1];
      var s, rs := Run(cfg, FRESH, front), RequestsReaching(front, sid);
      CartDependsOnOwnRequests(cfg, front, sid);
      if last.sid == sid || last.request.Reset? {
        assert (rs + [last.request])[..|rs|] == rs;
        StepOnCart(cfg, s, last, sid);
      } else {
        assert rs + [] == rs;
        OtherCartsStep(cfg, s, last);
      }
    }
  }
}
