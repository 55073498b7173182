/** The demo store's requests as steps on one state: what each does, and what every run keeps. */
module Shop {
  import opened Text
  import opened Money
  import opened Mailbox

  datatype User = User(email: string, password: string)

  // The constants a server process starts with.
  datatype Config = Config(catalogue: Catalogue, users: seq<User>, plantedBug: bool)

  datatype OrderLine = OrderLine(productId: string, name: string, quantity: int, priceCents: nat)

  datatype Order = Order(id: string, email: string, lines: seq<OrderLine>, totals: Totals, placedAt: int)

  datatype Otp = Otp(code: string, expiresAt: int)

  datatype State = State(carts: map<string, seq<Line>>, orders: seq<Order>, sessions: map<string, string>,
                         otps: map<string, Otp>, orderSeq: nat, mail: Box)

  const FRESH: State := State(map[], [], map[], map[], 1000, EMPTY)

  // A field the body does not carry is the empty string.
  datatype CheckoutForm = CheckoutForm(email: string, fullName: string, address: string, city: string,
                                       postalCode: string, cardNumber: string)

  datatype Request =
    | AddToCart(productId: string, quantity: Option<int>)
    | RemoveFromCart(productId: string)
    | Checkout(form: CheckoutForm)
    | Login(email: string, password: string, next: Option<string>)
    | Logout
    | RequestOtp(email: string, random: nat)
    | VerifyOtp(email: string, code: string)
    | Reset
    | Deliver(draft: Draft)

  // A request as it arrives: the session cookie and the clock. Mail delivered over SMTP has a clock only.
  datatype Event = Event(sid: string, now: int, request: Request)

  datatype Response = SeeOther(to: string) | Page(status: nat) | Taken

  // ----- carts ---------------------------------------------------------------------

  function CartFor(s: State, sid: string): seq<Line> {
    if sid in s.carts then s.carts[sid] else []
  }

  function Min(x: int, y: int): int { if x < y then x else y }

  // Math.max(1, parseInt(...) || 1); None is NaN.
  function Wanted(quantity: Option<int>): int {
    if quantity.Some? && quantity.value >= 1 then quantity.value else 1
  }

  function IndexOf(lines: seq<Line>, productId: string): (i: nat)
    ensures i <= |lines| && (i < |lines| ==> lines[i].productId == productId)
    ensures forall k :: 0 <= k < i ==> lines[k].productId != productId
  {
    if lines == [] || lines[0].productId == productId then 0 else 1 + IndexOf(lines[1..], productId)
  }

  function WithAdded(lines: seq<Line>, product: Product, quantity: int): seq<Line> {
    var i := IndexOf(lines, product.id);
    if i < |lines| then lines[i := Line(product.id, Min(product.stock, lines[i].quantity + quantity))]
    else lines + [Line(product.id, Min(product.stock, quantity))]
  }

  function Without(lines: seq<Line>, productId: string): seq<Line> {
    if lines == [] then []
    else
      var last := lines[|lines| - 1];
      Without(lines[..|lines| - 1], productId) + (if last.productId != productId then [last] else [])
  }

  ghost predicate SameCartsBut(s: State, s': State, sid: string) {
    forall t :: t != sid ==> CartFor(s', t) == CartFor(s, t)
  }

  function AddStep(cfg: Config, s: State, sid: string, productId: string, quantity: Option<int>): (r: (State, Response))
    ensures r.0 == s.(carts := r.0.carts) && SameCartsBut(s, r.0, sid)
  {
    var product := FindProduct(cfg.catalogue, productId);
    if product.None? || product.value.stock <= 0 then (s, Page(400))
    else
      var lines := WithAdded(CartFor(s, sid), product.value, Wanted(quantity));
      (s.(carts := s.carts[sid := lines]), SeeOther("/cart"))
  }

  function RemoveStep(s: State, sid: string, productId: string): (r: (State, Response))
    ensures r.0 == s.(carts := r.0.carts) && SameCartsBut(s, r.0, sid)
  {
    (s.(carts := s.carts[sid := Without(CartFor(s, sid), productId)]), SeeOther("/cart"))
  }

  // ----- checkout --------------------------------------------------------------------

  predicate IsComplete(f: CheckoutForm) {
    && Trim(f.email) != "" && Trim(f.fullName) != "" && Trim(f.address) != ""
    && Trim(f.city) != "" && Trim(f.postalCode) != "" && Trim(f.cardNumber) != ""
  }

  function OrderId(n: nat): string { "ORD-" + Decimal(n) }

  // None when a line names a product the catalogue does not have, which the route would trip over.
  function OrderLines(ps: Catalogue, lines: seq<Line>): Option<seq<OrderLine>> {
    if lines == [] then Some([])
    else
      var last := lines[|lines| - 1];
      var rest := OrderLines(ps, lines[..|lines| - 1]);
      match FindProduct(ps, last.productId)
      case Some(p) =>
        if rest.None? then None
        else Some(rest.value + [OrderLine(last.productId, p.name, last.quantity, p.priceCents)])
      case None => None
  }

  function OrderMail(order: Order): Draft {
    Draft(order.email, "orders@groundcoffee.example", "Your order " + order.id,
          "Thanks for your order.\n\nOrder " + order.id + "\nTotal: " + FormatAmount(order.totals.total) + "\n", None)
  }

  function CheckoutStep(cfg: Config, s: State, sid: string, now: int, form: CheckoutForm): (r: (State, Response))
    ensures s.orders <= r.0.orders && r.0.sessions == s.sessions && SameCartsBut(s, r.0, sid)
  {
    var lines := CartFor(s, sid);
    if lines == [] then (s, SeeOther("/cart"))
    else if !IsComplete(form) then (s, Page(400))
    else
      var id := OrderId(s.orderSeq + 1);
      match OrderLines(cfg.catalogue, lines)
      case None => (s.(orderSeq := s.orderSeq + 1), Page(500))
      case Some(ls) =>
        var order := Order(id, Trim(form.email), ls, TotalsFor(cfg.catalogue, lines, cfg.plantedBug), now);
        (s.(orderSeq := s.orderSeq + 1, orders := s.orders + [order], carts := s.carts - {sid},
            mail := Added(s.mail, OrderMail(order), now)),
         SeeOther("/orders/" + id))
  }

  // ----- signing in ------------------------------------------------------------------

  const OTP_LIFETIME_MS := 600000

  function Address(email: string): string { Lower(Trim(email)) }

  function UserAt(users: seq<User>, address: string): (r: Option<User>)
    ensures r.Some? ==> r.value in users && Lower(r.value.email) == address
    ensures r.None? ==> forall u :: u in users ==> Lower(u.email) != address
  {
    if users == [] then None
    else if Lower(users[0].email) == address then Some(users[0]) else UserAt(users[1..], address)
  }

  function UserWith(users: seq<User>, address: string, password: string): (r: Option<User>)
    ensures r.Some? ==> r.value in users && Lower(r.value.email) == address && r.value.password == password
    ensures r.None? ==> forall u :: u in users ==> Lower(u.email) != address || u.password != password
  {
    if users == [] then None
    else if Lower(users[0].email) == address && users[0].password == password then Some(users[0])
    else UserWith(users[1..], address, password)
  }

  function CodeFrom(random: nat): string { Padded(random % 1000000, 6) }

  const CODE_PREFIX := "Your one-time sign-in code is "

  function OtpMail(address: string, code: string): Draft {
    Draft(address, "no-reply@groundcoffee.example", "Your sign-in code",
          CODE_PREFIX + code + ". It expires in 10 minutes.", None)
  }

  // A path on the store itself, and not one that names another host.
  predicate IsLocal(path: string) { "/" <= path && !("//" <= path) }

  function Landing(next: Option<string>): string {
    if next.Some? && IsLocal(next.value) then next.value else "/account"
  }

  function LoginStep(cfg: Config, s: State, sid: string, email: string, password: string,
                     next: Option<string>): (r: (State, Response))
    ensures r.0 == s.(sessions := r.0.sessions)
    ensures forall t :: t != sid ==>
              (t in r.0.sessions <==> t in s.sessions) && (t in s.sessions ==> r.0.sessions[t] == s.sessions[t])
  {
    match UserWith(cfg.users, Address(email), password)
    case None => (s, Page(401))
    case Some(user) => (s.(sessions := s.sessions[sid := user.email]), SeeOther(Landing(next)))
  }

  function RequestOtpStep(s: State, now: int, email: string, random: nat): (r: (State, Response))
    ensures r.0 == s.(otps := r.0.otps, mail := r.0.mail)
  {
    var address := Address(email);
    var code := CodeFrom(random);
    (s.(otps := s.otps[address := Otp(code, now + OTP_LIFETIME_MS)],
        mail := Added(s.mail, OtpMail(address, code), now)),
     Page(200))
  }

  predicate Accepts(s: State, now: int, email: string, code: string) {
    var address := Address(email);
    address in s.otps && s.otps[address].code == Trim(code) && now <= s.otps[address].expiresAt
  }

  function VerifyOtpStep(cfg: Config, s: State, sid: string, now: int, email: string,
                         code: string): (r: (State, Response))
    ensures r.0 == s.(otps := r.0.otps, sessions := r.0.sessions)
  {
    if !Accepts(s, now, email, code) then (s, Page(401))
    else
      var s' := s.(otps := s.otps - {Address(email)});
      match UserAt(cfg.users, Address(email))
      case None => (s', Page(401))
      case Some(user) => (s'.(sessions := s.sessions[sid := user.email]), SeeOther("/account"))
  }

  // ----- steps and runs --------------------------------------------------------------

  function Step(cfg: Config, s: State, e: Event): (State, Response) {
    match e.request
    case AddToCart(productId, quantity) => AddStep(cfg, s, e.sid, productId, quantity)
    case RemoveFromCart(productId) => RemoveStep(s, e.sid, productId)
    case Checkout(form) => CheckoutStep(cfg, s, e.sid, e.now, form)
    case Login(email, password, next) => LoginStep(cfg, s, e.sid, email, password, next)
    case Logout => (s.(sessions := s.sessions - {e.sid}), SeeOther("/"))
    case RequestOtp(email, random) => RequestOtpStep(s, e.now, email, random)
    case VerifyOtp(email, code) => VerifyOtpStep(cfg, s, e.sid, e.now, email, code)
    case Reset => (FRESH.(mail := Cleared(s.mail)), Page(200))
    case Deliver(draft) => (s.(mail := Added(s.mail, draft, e.now)), Taken)
  }

  function Run(cfg: Config, s: State, es: seq<Event>): State {
    if es == [] then s else Step(cfg, Run(cfg, s, es[..|es| - 1]), es[|es| - 1]).0
  }
}
