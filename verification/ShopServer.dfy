/** The demo store's process: mutable cart lines in shared maps, each request a method proved against its step. */
module ShopServer {
  import opened Text
  import opened Money
  import opened Mailbox
  import opened Shop

  class CartLine {
    const productId: string
    var quantity: int
    ghost const owner: string  // the session whose cart this line was made for

    constructor (productId: string, quantity: int, ghost owner: string)
      ensures this.productId == productId && this.quantity == quantity && this.owner == owner
    {
      this.productId := productId;
      this.quantity := quantity;
      this.owner := owner;
    }
  }

  ghost function Values(lines: seq<CartLine>): (r: seq<Line>)
    reads lines
    ensures |r| == |lines|
    ensures forall i :: 0 <= i < |lines| ==> r[i] == Line(lines[i].productId, lines[i].quantity)
  {
    seq(|lines|, i requires 0 <= i < |lines| reads lines => Line(lines[i].productId, lines[i].quantity))
  }

  // No line occurs twice, and none belongs to another session's cart.
  ghost predicate IsOwn(lines: seq<CartLine>, sid: string) {
    && (forall i :: 0 <= i < |lines| ==> lines[i].owner == sid)
    && (forall i, j :: 0 <= i < j < |lines| ==> lines[i] != lines[j])
  }

  // The two steps with several outcomes, one outcome at a time.
  lemma AddRejects(cfg: Config, s: State, sid: string, productId: string, quantity: Option<int>)
    requires var p := FindProduct(cfg.catalogue, productId); p.None? || p.value.stock <= 0
    ensures AddStep(cfg, s, sid, productId, quantity) == (s, Page(400))
  {}

  lemma AddGrows(cfg: Config, s: State, sid: string, productId: string, quantity: Option<int>, p: Product)
    requires FindProduct(cfg.catalogue, productId) == Some(p) && p.stock > 0
    ensures AddStep(cfg, s, sid, productId, quantity) ==
            (s.(carts := s.carts[sid := WithAdded(CartFor(s, sid), p, Wanted(quantity))]), SeeOther("/cart"))
  {}

  lemma CheckoutPlaces(cfg: Config, s: State, sid: string, now: int, form: CheckoutForm, ols: seq<OrderLine>)
    requires CartFor(s, sid) != [] && IsComplete(form) && OrderLines(cfg.catalogue, CartFor(s, sid)) == Some(ols)
    ensures var id := OrderId(s.orderSeq + 1);
            var totals := TotalsFor(cfg.catalogue, CartFor(s, sid), cfg.plantedBug);
            var order := Order(id, Trim(form.email), ols, totals, now);
            CheckoutStep(cfg, s, sid, now, form) ==
            (s.(orderSeq := s.orderSeq + 1, orders := s.orders + [order], carts := s.carts - {sid},
                mail := Added(s.mail, OrderMail(order), now)),
             SeeOther("/orders/" + id))
  {
    hide IsComplete, Trim, OrderId, OrderLines, TotalsFor, OrderMail, Added;
  }

  lemma CheckoutStops(cfg: Config, s: State, sid: string, now: int, form: CheckoutForm)
    ensures CartFor(s, sid) == [] ==> CheckoutStep(cfg, s, sid, now, form) == (s, SeeOther("/cart"))
    ensures CartFor(s, sid) != [] && !IsComplete(form) ==> CheckoutStep(cfg, s, sid, now, form) == (s, Page(400))
    ensures CartFor(s, sid) != [] && IsComplete(form) && OrderLines(cfg.catalogue, CartFor(s, sid)).None? ==>
              CheckoutStep(cfg, s, sid, now, form) == (s.(orderSeq := s.orderSeq + 1), Page(500))
  {}

  lemma OwnPlus(lines: seq<CartLine>, line: CartLine, sid: string)
    requires IsOwn(lines, sid) && line.owner == sid && line !in lines
    ensures IsOwn(lines + [line], sid)
  {}

  class Server {
    const cfg: Config
    const mailbox: Catcher
    var carts: map<string, seq<CartLine>>
    var orders: seq<Order>
    var sessions: map<string, string>
    var otps: map<string, Otp>
    var orderSeq: nat
    ghost var made: set<CartLine>  // every cart line the process has made

    // No cart line is shared, inside a cart or between carts.
    ghost predicate Valid()
      reads this
    {
      forall sid :: sid in carts ==> IsOwn(carts[sid], sid) && forall l :: l in carts[sid] ==> l in made
    }

    ghost function Carts(): (r: map<string, seq<Line>>)
      requires Valid()
      reads this, made
      ensures r.Keys == carts.Keys
      ensures forall sid :: sid in carts ==> r[sid] == Values(carts[sid])
    {
      map sid | sid in carts :: Values(carts[sid])
    }

    ghost function View(): State
      requires Valid()
      reads this, made, mailbox
    {
      State(Carts(), orders, sessions, otps, orderSeq, mailbox.Contents())
    }

    constructor (cfg: Config)
      ensures Valid() && this.cfg == cfg && fresh(mailbox) && made == {} && View() == FRESH
    {
      this.cfg := cfg;
      mailbox := new Catcher();
      carts, orders, sessions, otps, orderSeq := map[], [], map[], map[], 1000;
      made := {};
    }

    method FindLine(lines: seq<CartLine>, productId: string) returns (i: nat)
      ensures i == IndexOf(Values(lines), productId)
    {
      i := 0;
      while i < |lines| && lines[i].productId != productId
        invariant i <= |lines|
        invariant forall k :: 0 <= k < i ==> lines[k].productId != productId
      {
        i := i + 1;
      }
    }

    method SetCart(sid: string, lines: seq<CartLine>)
      requires Valid() && IsOwn(lines, sid) && forall l :: l in lines ==> l in made
      modifies this`carts
      ensures Valid() && Carts() == old(Carts())[sid := Values(lines)]
      ensures carts == old(carts)[sid := lines]
    {
      hide Values, IsOwn;
      carts := carts[sid := lines];
      assert forall t :: t in carts && t != sid ==> Carts()[t] == old(Carts())[t];
    }

    // Changing one line in place changes one cart and no other.
    method SetQuantity(sid: string, i: nat, quantity: int)
      requires Valid() && sid in carts && i < |carts[sid]|
      modifies carts[sid][i]
      ensures Carts() == old(Carts())[sid := Values(carts[sid])]
      ensures Values(carts[sid]) == old(Values(carts[sid]))[i := Line(carts[sid][i].productId, quantity)]
    {
      hide Values;
      carts[sid][i].quantity := quantity;
      forall t | t in carts && t != sid ensures Values(carts[t]) == old(Values(carts[t])) {
        assert forall k :: 0 <= k < |carts[t]| ==> carts[t][k].owner == t;
      }
    }

    method Append(lines: seq<CartLine>, productId: string, quantity: int, sid: string) returns (r: seq<CartLine>)
      requires Valid() && IsOwn(lines, sid) && forall l :: l in lines ==> l in made
      modifies this`made
      ensures Valid() && fresh(made - old(made)) && old(made) <= made && Carts() == old(Carts())
      ensures Values(r) == old(Values(lines)) + [Line(productId, quantity)]
      ensures IsOwn(r, sid) && forall l :: l in r ==> l in made
    {
      hide Values, IsOwn;
      var line := new CartLine(productId, quantity, sid);
      r := lines + [line];
      OwnPlus(lines, line, sid);
      made := made + {line};
      assert Values(r) == old(Values(lines)) + [Line(productId, quantity)];
      assert forall t :: t in carts ==> Carts()[t] == old(Carts())[t];
    }

    // Raises the existing line in place, or appends a new one to the array read from the map.
    method AddLine(lines: seq<CartLine>, product: Product, quantity: int, sid: string) returns (r: seq<CartLine>)
      requires Valid() && lines == if sid in carts then carts[sid] else []
      modifies this`made, made
      ensures Valid() && fresh(made - old(made))
      ensures Values(r) == WithAdded(old(Values(lines)), product, quantity)
      ensures IsOwn(r, sid) && forall l :: l in r ==> l in made
      ensures Carts() == old(Carts()) || Carts() == old(Carts())[sid := Values(r)]
    {
      hide Values;
      var i := FindLine(lines, product.id);
      if i < |lines| {
        SetQuantity(sid, i, Min(product.stock, lines[i].quantity + quantity));
        r := lines;
      } else {
        r := Append(lines, product.id, Min(product.stock, quantity), sid);
      }
    }

    method HandleAdd(sid: string, productId: string, quantity: Option<int>) returns (response: Response)
      requires Valid()
      modifies this`carts, this`made, made
      ensures Valid() && fresh(made - old(made))
      ensures (View(), response) == AddStep(cfg, old(View()), sid, productId, quantity)
    {
      hide Values, WithAdded, AddStep, FindProduct;
      ghost var s := View();
      var product := FindProduct(cfg.catalogue, productId);
      if product.None? || product.value.stock <= 0 {
        AddRejects(cfg, s, sid, productId, quantity);
        return Page(400);
      }
      AddGrows(cfg, s, sid, productId, quantity, product.value);
      var lines := if sid in carts then carts[sid] else [];
      assert Values(lines) == CartFor(View(), sid);
      ghost var was, added := Carts(), WithAdded(Values(lines), product.value, Wanted(quantity));
      lines := AddLine(lines, product.value, Wanted(quantity), sid);
      assert Carts()[sid := added] == was[sid := added];
      SetCart(sid, lines);
      response := SeeOther("/cart");
    }

    method Filtered(lines: seq<CartLine>, productId: string, ghost sid: string) returns (kept: seq<CartLine>)
      requires IsOwn(lines, sid)
      ensures Values(kept) == Without(Values(lines), productId)
      ensures IsOwn(kept, sid) && forall l :: l in kept ==> l in lines
    {
      hide Values;
      kept := [];
      for i := 0 to |lines|
        invariant Values(kept) == Without(Values(lines)[..i], productId)
        invariant IsOwn(kept, sid)
        invariant forall l :: l in kept ==> l in lines[..i]
      {
        assert Values(lines)[..i + 1][..i] == Values(lines)[..i];
        assert lines[..i + 1] == lines[..i] + [lines[i]];
        if lines[i].productId != productId {
          ghost var before := kept;
          OwnPlus(kept, lines[i], sid);
          kept := kept + [lines[i]];
          assert Values(kept) == Values(before) + [Line(lines[i].productId, lines[i].quantity)];
        }
      }
      assert Values(lines)[..|lines|] == Values(lines);
    }

    method HandleRemove(sid: string, productId: string) returns (response: Response)
      requires Valid()
      modifies this`carts
      ensures Valid()
      ensures (View(), response) == RemoveStep(old(View()), sid, productId)
    {
      hide Values, Without;
      var lines := if sid in carts then carts[sid] else [];
      assert Values(lines) == CartFor(View(), sid);
      var kept := Filtered(lines, productId, sid);
      SetCart(sid, kept);
      response := SeeOther("/cart");
    }

    method ReadLines(lines: seq<CartLine>) returns (r: seq<Line>)
      ensures r == Values(lines)
    {
      hide Values;
      r := [];
      for i := 0 to |lines|
        invariant r == Values(lines)[..i]
      {
        r := r + [Line(lines[i].productId, lines[i].quantity)];
      }
    }

    method DropCart(sid: string)
      requires Valid()
      modifies this`carts
      ensures Valid() && Carts() == old(Carts()) - {sid}
    {
      hide Values;
      carts := carts - {sid};
      assert forall t :: t in carts ==> Carts()[t] == old(Carts())[t];
    }

    method Commit(sid: string, order: Order, now: int)
      requires Valid()
      modifies this`carts, this`orders, mailbox
      ensures Valid()
      ensures var s := old(View());
              View() == s.(orders := s.orders + [order], carts := s.carts - {sid},
                           mail := Added(s.mail, OrderMail(order), now))
    {
      hide Values, Added, OrderMail, IsOwn;
      DropCart(sid);
      orders := orders + [order];
      var _ := mailbox.Add(OrderMail(order), now);
      assert Carts() == old(Carts()) - {sid};
    }

    method HandleCheckout(sid: string, now: int, form: CheckoutForm) returns (response: Response)
      requires Valid()
      modifies this`carts, this`orders, this`orderSeq, mailbox
      ensures Valid()
      ensures (View(), response) == CheckoutStep(cfg, old(View()), sid, now, form)
    {
      hide Values, IsComplete, OrderLines, OrderId, Trim, TotalsFor, OrderMail, CheckoutStep;
      ghost var s := View();
      CheckoutStops(cfg, s, sid, now, form);
      var lines := if sid in carts then carts[sid] else [];
      if lines == [] {
        return SeeOther("/cart");
      }
      if !IsComplete(form) {
        return Page(400);
      }
      var cart := ReadLines(lines);
      assert cart == CartFor(View(), sid);
      orderSeq := orderSeq + 1;
      assert Carts() == old(Carts());
      var id := OrderId(orderSeq);
      var ols := OrderLines(cfg.catalogue, cart);
      if ols.None? {
        return Page(500);
      }
      var order := Order(id, Trim(form.email), ols.value, TotalsFor(cfg.catalogue, cart, cfg.plantedBug), now);
      CheckoutPlaces(cfg, s, sid, now, form, ols.value);
      Commit(sid, order, now);
      response := SeeOther("/orders/" + id);
    }

    method HandleLogin(sid: string, email: string, password: string, next: Option<string>)
      returns (response: Response)
      requires Valid()
      modifies this`sessions
      ensures Valid()
      ensures (View(), response) == LoginStep(cfg, old(View()), sid, email, password, next)
    {
      var user := UserWith(cfg.users, Address(email), password);
      if user.None? {
        return Page(401);
      }
      sessions := sessions[sid := user.value.email];
      response := SeeOther(Landing(next));
      assert Carts() == old(Carts());
    }

    method HandleRequestOtp(now: int, email: string, random: nat) returns (response: Response)
      requires Valid()
      modifies this`otps, mailbox
      ensures Valid()
      ensures (View(), response) == RequestOtpStep(old(View()), now, email, random)
    {
      var address := Address(email);
      var code := CodeFrom(random);
      otps := otps[address := Otp(code, now + OTP_LIFETIME_MS)];
      var _ := mailbox.Add(OtpMail(address, code), now);
      response := Page(200);
      assert Carts() == old(Carts());
    }

    method HandleVerifyOtp(sid: string, now: int, email: string, code: string) returns (response: Response)
      requires Valid()
      modifies this`otps, this`sessions
      ensures Valid()
      ensures (View(), response) == VerifyOtpStep(cfg, old(View()), sid, now, email, code)
    {
      hide Values, Address, Trim;
      var address := Address(email);
      if address !in otps || otps[address].code != Trim(code) || otps[address].expiresAt < now {
        return Page(401);
      }
      otps := otps - {address};
      assert Carts() == old(Carts());
      var user := UserAt(cfg.users, address);
      if user.None? {
        return Page(401);
      }
      sessions := sessions[sid := user.value.email];
      response := SeeOther("/account");
      assert Carts() == old(Carts());
    }

    method HandleLogout(sid: string) returns (response: Response)
      requires Valid()
      modifies this`sessions
      ensures Valid()
      ensures View() == old(View()).(sessions := old(sessions) - {sid}) && response == SeeOther("/")
    {
      sessions := sessions - {sid};
      response := SeeOther("/");
      assert Carts() == old(Carts());
    }

    method HandleReset() returns (response: Response)
      requires Valid()
      modifies this`carts, this`orders, this`sessions, this`otps, this`orderSeq, mailbox
      ensures Valid()
      ensures View() == FRESH.(mail := Cleared(old(mailbox.Contents()))) && response == Page(200)
    {
      carts, orders, sessions, otps, orderSeq := map[], [], map[], map[], 1000;
      mailbox.Clear();
      response := Page(200);
    }

    method HandleDeliver(draft: Draft, now: int) returns (response: Response)
      requires Valid()
      modifies mailbox
      ensures Valid()
      ensures View() == old(View()).(mail := Added(old(mailbox.Contents()), draft, now)) && response == Taken
    {
      var _ := mailbox.Add(draft, now);
      response := Taken;
      assert Carts() == old(Carts());
    }

    /** Every request moves the process exactly as its step moves the state. */
    method Handle(e: Event) returns (response: Response)
      requires Valid()
      modifies this, made, mailbox
      ensures Valid() && fresh(made - old(made))
      ensures (View(), response) == Step(cfg, old(View()), e)
    {
      hide AddStep, RemoveStep, CheckoutStep, LoginStep, RequestOtpStep, VerifyOtpStep;
      match e.request {
        case AddToCart(productId, quantity) => response := HandleAdd(e.sid, productId, quantity);
        case RemoveFromCart(productId) => response := HandleRemove(e.sid, productId);
        case Checkout(form) => response := HandleCheckout(e.sid, e.now, form);
        case Login(email, password, next) => response := HandleLogin(e.sid, email, password, next);
        case Logout => response := HandleLogout(e.sid);
        case RequestOtp(email, random) => response := HandleRequestOtp(e.now, email, random);
        case VerifyOtp(email, code) => response := HandleVerifyOtp(e.sid, e.now, email, code);
        case Reset => response := HandleReset();
        case Deliver(draft) => response := HandleDeliver(draft, e.now);
      }
    }
  }
}
