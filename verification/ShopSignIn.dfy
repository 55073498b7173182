/** One-time codes over whole runs of the demo store: fresh, latest, and good for one use. */
module ShopSignIn {
  import opened Text
  import Money
  import opened Mailbox
  import opened Shop

  predicate Requests(e: Event, address: string) {
    e.request.RequestOtp? && Address(e.request.email) == address
  }

  // The k-th event is a verification for the address whose code the store accepts.
  predicate AcceptedAt(cfg: Config, es: seq<Event>, k: nat, address: string)
    requires k < |es|
  {
    && es[k].request.VerifyOtp? && Address(es[k].request.email) == address
    && Accepts(Shop.Run(cfg, FRESH, es[..k]), es[k].now, es[k].request.email, es[k].request.code)
  }

  predicate Supersedes(cfg: Config, es: seq<Event>, k: nat, address: string)
    requires k < |es|
  {
    es[k].request.Reset? || Requests(es[k], address) || AcceptedAt(cfg, es, k, address)
  }

  // The i-th event requested a code for the address, and nothing since has replaced, used or wiped it.
  ghost predicate IsPending(cfg: Config, es: seq<Event>, i: nat, address: string) {
    && i < |es| && Requests(es[i], address)
    && forall k :: i < k < |es| ==> !Supersedes(cfg, es, k, address)
  }

  function OtpFor(s: State, address: string): Option<Otp> {
    if address in s.otps then Some(s.otps[address]) else None
  }

  function Issued(e: Event): Otp
    requires e.request.RequestOtp?
  {
    Otp(CodeFrom(e.request.random), e.now + OTP_LIFETIME_MS)
  }

  lemma CheckoutKeepsOtps(cfg: Config, s: State, sid: string, now: int, form: CheckoutForm)
    ensures CheckoutStep(cfg, s, sid, now, form).0.otps == s.otps
  {
    hide IsComplete, OrderLines, OrderMail, Added, OrderId, Trim;
  }

  lemma VerifyOnOtps(cfg: Config, s: State, sid: string, now: int, email: string, code: string)
    ensures VerifyOtpStep(cfg, s, sid, now, email, code).0.otps ==
            if Accepts(s, now, email, code) then s.otps - {Address(email)} else s.otps
  {
    hide Accepts, Address, UserAt;
  }

  lemma OtpStep(cfg: Config, s: State, e: Event, address: string)
    ensures OtpFor(Step(cfg, s, e).0, address) ==
            if e.request.Reset? then None
            else if Requests(e, address) then Some(Issued(e))
            else if e.request.VerifyOtp? && Address(e.request.email) == address
                    && Accepts(s, e.now, e.request.email, e.request.code) then None
            else OtpFor(s, address)
  {
    hide AddStep, RemoveStep, LoginStep, CheckoutStep, VerifyOtpStep, Accepts, OtpMail, CodeFrom, Address;
    hide Added, Cleared;
    match e.request {
      case Checkout(form) => CheckoutKeepsOtps(cfg, s, e.sid, e.now, form);
      case VerifyOtp(email, code) => VerifyOnOtps(cfg, s, e.sid, e.now, email, code);
      case _ =>
    }
  }

  lemma PendingStep(cfg: Config, es: seq<Event>, i: nat, address: string)
    requires es != []
    ensures var n := |es| - 1;
            IsPending(cfg, es, i, address) <==>
            if i == n then Requests(es[n], address)
            else IsPending(cfg, es[..n], i, address) && !Supersedes(cfg, es, n, address)
  {
    hide Accepts, Address, Step;
    var n := |es| - 1;
    var front := es[..n];
    forall k | 0 <= k < n ensures Supersedes(cfg, es, k, address) == Supersedes(cfg, front, k, address) {
      assert front[..k] == es[..k];
    }
  }

  lemma {:induction false} PendingIsHeld(cfg: Config, es: seq<Event>, i: nat, address: string)
    requires IsPending(cfg, es, i, address)
    ensures OtpFor(Shop.Run(cfg, FRESH, es), address) == Some(Issued(es[i]))
  {
    hide Step, Accepts, Address, CodeFrom;
    var n := |es| - 1;
    OtpStep(cfg, Shop.Run(cfg, FRESH, es[..n]), es[n], address);
    PendingStep(cfg, es, i, address);
    if i < n {
      PendingIsHeld(cfg, es[..n], i, address);
    }
  }

  lemma {:induction false} HeldIsPending(cfg: Config, es: seq<Event>, address: string) returns (i: nat)
    requires OtpFor(Shop.Run(cfg, FRESH, es), address).Some?
    ensures IsPending(cfg, es, i, address)
  {
    hide Step, Accepts, Address, CodeFrom, IsPending;
    var n := |es| - 1;
    OtpStep(cfg, Shop.Run(cfg, FRESH, es[..n]), es[n], address);
    if Requests(es[n], address) {
      i := n;
      PendingStep(cfg, es, n, address);
    } else {
      i := HeldIsPending(cfg, es[..n], address);
      PendingIsRequest(cfg, es[..n], i, address);
      PendingStep(cfg, es, i, address);
    }
  }

  /** A code is accepted exactly when it is the latest requested for the address, unused and at most ten minutes old. */
  lemma AcceptedIffLatestAndFresh(cfg: Config, es: seq<Event>, now: int, email: string, code: string)
    ensures Accepts(Shop.Run(cfg, FRESH, es), now, email, code) <==>
            exists i: nat :: IsPending(cfg, es, i, Address(email))
                     && CodeFrom(es[i].request.random) == Trim(code) && now <= es[i].now + 600000
  {
    hide Step, Address, CodeFrom, IsPending;
    var s, address := Shop.Run(cfg, FRESH, es), Address(email);
    forall i: nat | IsPending(cfg, es, i, address)
      ensures i < |es| && es[i].request.RequestOtp? && OtpFor(s, address) == Some(Issued(es[i]))
    {
      PendingIsRequest(cfg, es, i, address);
      PendingIsHeld(cfg, es, i, address);
    }
    if address in s.otps {
      var i := HeldIsPending(cfg, es, address);
    }
  }

  lemma PendingIsRequest(cfg: Config, es: seq<Event>, i: nat, address: string)
    requires IsPending(cfg, es, i, address)
    ensures i < |es| && es[i].request.RequestOtp?
  {}

  /** Two accepted codes for one address always have a new request between them. */
  lemma CodesAreUsedOnce(cfg: Config, es: seq<Event>, j: nat, k: nat, address: string)
    requires j < k < |es| && AcceptedAt(cfg, es, j, address) && AcceptedAt(cfg, es, k, address)
    ensures exists i: nat :: j < i < k && Requests(es[i], address)
  {
    hide Step, Accepts, Address, CodeFrom;
    var front := es[..k];
    AcceptedIffLatestAndFresh(cfg, front, es[k].now, es[k].request.email, es[k].request.code);
    var i: nat :| IsPending(cfg, front, i, address);
    assert front[..j] == es[..j];
    assert Supersedes(cfg, front, j, address);
    assert i > j && Requests(es[i], address);
  }

  lemma OrderPathIsLocal(id: string)
    ensures IsLocal("/orders/" + id)
  {
    assert ("/orders/" + id)[1] == 'o';
    assert "/orders/" + id == "/" + ("orders/" + id);
  }

  lemma CheckoutStaysLocal(cfg: Config, s: State, sid: string, now: int, form: CheckoutForm)
    ensures var r := CheckoutStep(cfg, s, sid, now, form).1; r.SeeOther? ==> IsLocal(r.to)
  {
    hide IsComplete, OrderLines, OrderMail, Added, OrderId, IsLocal, Money.TotalsFor, Trim;
    assert IsLocal("/cart") by { FixedPathsAreLocal(); }
    OrderPathIsLocal(OrderId(s.orderSeq + 1));
  }

  lemma FixedPathsAreLocal()
    ensures IsLocal("/") && IsLocal("/cart") && IsLocal("/account")
  {
    assert "/cart"[1] == 'c' && "/account"[1] == 'a';
  }

  // A path that begins with one slash.
  predicate HasOneSlash(path: string) { |path| > 0 && path[0] == '/' && (|path| > 1 ==> path[1] != '/') }

  lemma LocalHasOneSlash(path: string)
    ensures IsLocal(path) <==> HasOneSlash(path)
  {
    if path != "" && path[0] == '/' { assert "/" <= path; }
    if |path| > 1 && path[0] == '/' && path[1] == '/' { assert "//" <= path; }
  }

  lemma RedirectIsLocal(cfg: Config, s: State, e: Event)
    ensures var r := Step(cfg, s, e).1; r.SeeOther? ==> IsLocal(r.to)
    ensures e.request.Login? && Step(cfg, s, e).1.SeeOther? ==>
              var next := e.request.next;
              Step(cfg, s, e).1.to == if next.Some? && IsLocal(next.value) then next.value else "/account"
  {
    hide WithAdded, Without, CheckoutStep, OtpMail, CodeFrom, Added, Cleared, Accepts, UserAt, UserWith, Address;
    hide IsLocal;
    FixedPathsAreLocal();
    match e.request {
      case Checkout(form) => CheckoutStaysLocal(cfg, s, e.sid, e.now, form);
      case _ =>
    }
  }

  /** No step redirects off the store, whatever path the sign-in form asks to come back to. */
  lemma RedirectsStayLocal(cfg: Config, s: State, e: Event)
    ensures var r := Step(cfg, s, e).1; r.SeeOther? ==> HasOneSlash(r.to)
    ensures e.request.Login? && Step(cfg, s, e).1.SeeOther? ==>
              var next := e.request.next;
              Step(cfg, s, e).1.to == if next.Some? && HasOneSlash(next.value) then next.value else "/account"
  {
    hide Step, IsLocal, HasOneSlash;
    RedirectIsLocal(cfg, s, e);
    var r := Step(cfg, s, e).1;
    if r.SeeOther? { LocalHasOneSlash(r.to); }
    if e.request.Login? && e.request.next.Some? { LocalHasOneSlash(e.request.next.value); }
  }

  // ----- who is signed in ----------------------------------------------------------------

  // The account an event signs its own session in to, in the state it meets.
  function SignsIn(cfg: Config, s: State, e: Event): Option<string> {
    match e.request
    case Login(email, password, _) =>
      (match UserWith(cfg.users, Address(email), password) case Some(u) => Some(u.email) case None => None)
    case VerifyOtp(email, code) =>
      (match UserAt(cfg.users, Address(email))
       case Some(u) => if Accepts(s, e.now, email, code) then Some(u.email) else None
       case None => None)
    case _ => None
  }

  ghost predicate HasAccount(cfg: Config, address: string, password: string, account: string) {
    exists u :: u in cfg.users && Lower(u.email) == address && u.password == password && u.email == account
  }

  /** A password sign-in is answered 401 exactly when no account has that address and password, and then signs no one
      in; otherwise the session is such an account's. */
  lemma LoginOutcome(cfg: Config, s: State, e: Event)
    requires e.request.Login?
    ensures var r, address, password := Step(cfg, s, e), Address(e.request.email), e.request.password;
            && (r.1 == Page(401) <==> forall account :: !HasAccount(cfg, address, password, account))
            && (r.1 == Page(401) ==> r.0 == s)
            && (r.1 != Page(401) ==>
                  && r.1.SeeOther? && e.sid in r.0.sessions
                  && HasAccount(cfg, address, password, r.0.sessions[e.sid]))
  {
    hide Address, Landing, UserWith;
    var user := UserWith(cfg.users, Address(e.request.email), e.request.password);
    if user.Some? {
      assert HasAccount(cfg, Address(e.request.email), e.request.password, user.value.email);
    }
  }

  /** An address is what was typed in lower case, without the space around it. */
  lemma AddressIs(before: string, typed: string, after: string)
    requires AllSpace(before) && AllSpace(after) && IsTight(typed)
    ensures Address(before + typed + after) == Lower(typed)
  {
    TrimIs(before, typed, after);
  }

  function SessionOf(s: State, sid: string): Option<string> {
    if sid in s.sessions then Some(s.sessions[sid]) else None
  }

  function AccountAt(cfg: Config, es: seq<Event>, k: nat): Option<string>
    requires k < |es|
  {
    SignsIn(cfg, Shop.Run(cfg, FRESH, es[..k]), es[k])
  }

  // The k-th event gives the session an account or takes it away.
  predicate Changes(cfg: Config, es: seq<Event>, k: nat, sid: string)
    requires k < |es|
  {
    es[k].request.Reset? || (es[k].sid == sid && (es[k].request.Logout? || AccountAt(cfg, es, k).Some?))
  }

  ghost predicate IsLatestSignIn(cfg: Config, es: seq<Event>, k: nat, sid: string, account: string) {
    && k < |es| && es[k].sid == sid && AccountAt(cfg, es, k) == Some(account)
    && forall j :: k < j < |es| ==> !Changes(cfg, es, j, sid)
  }

  lemma SessionStep(cfg: Config, s: State, e: Event, sid: string)
    ensures SessionOf(Step(cfg, s, e).0, sid) ==
            if e.request.Reset? then None
            else if e.sid != sid then SessionOf(s, sid)
            else if e.request.Logout? then None
            else if SignsIn(cfg, s, e).Some? then SignsIn(cfg, s, e)
            else SessionOf(s, sid)
  {
    hide AddStep, RemoveStep, CheckoutStep, RequestOtpStep, Address, Accepts, Added, Cleared, UserAt, UserWith;
  }

  lemma LatestSignInStep(cfg: Config, es: seq<Event>, k: nat, sid: string, account: string)
    requires es != []
    ensures var n := |es| - 1;
            IsLatestSignIn(cfg, es, k, sid, account) <==>
            if k == n then es[n].sid == sid && AccountAt(cfg, es, n) == Some(account)
            else IsLatestSignIn(cfg, es[..n], k, sid, account) && !Changes(cfg, es, n, sid)
  {
    hide SignsIn, Step;
    var front := es[..|es| - 1];
    forall j: nat | j < |front|
      ensures AccountAt(cfg, es, j) == AccountAt(cfg, front, j)
      ensures Changes(cfg, es, j, sid) == Changes(cfg, front, j, sid)
    {
      assert front[..j] == es[..j] && front[j] == es[j];
    }
  }

  lemma {:induction false} LatestIsHeld(cfg: Config, es: seq<Event>, k: nat, sid: string, account: string)
    requires IsLatestSignIn(cfg, es, k, sid, account)
    ensures SessionOf(Shop.Run(cfg, FRESH, es), sid) == Some(account)
  {
    hide Step, SignsIn;
    var n := |es| - 1;
    SessionStep(cfg, Shop.Run(cfg, FRESH, es[..n]), es[n], sid);
    LatestSignInStep(cfg, es, k, sid, account);
    SignInsAreNotLogouts(cfg, es, n);
    if k < n {
      LatestIsHeld(cfg, es[..n], k, sid, account);
    }
  }

  lemma SignInsAreNotLogouts(cfg: Config, es: seq<Event>, k: nat)
    requires k < |es|
    ensures AccountAt(cfg, es, k).Some? ==> !es[k].request.Logout? && !es[k].request.Reset?
  {}

  lemma {:induction false} HeldIsLatest(cfg: Config, es: seq<Event>, sid: string, account: string) returns (k: nat)
    requires SessionOf(Shop.Run(cfg, FRESH, es), sid) == Some(account)
    ensures IsLatestSignIn(cfg, es, k, sid, account)
  {
    hide Step, SignsIn;
    var n := |es| - 1;
    SessionStep(cfg, Shop.Run(cfg, FRESH, es[..n]), es[n], sid);
    if es[n].sid == sid && AccountAt(cfg, es, n).Some? {
      k := n;
    } else {
      k := HeldIsLatest(cfg, es[..n], sid, account);
      LatestSignInStep(cfg, es, k, sid, account);
    }
  }

  /** A session is signed in exactly to the account of its latest sign-in, by password or by an accepted code. */
  lemma SessionsAreEarned(cfg: Config, es: seq<Event>, sid: string, account: string)
    ensures SessionOf(Shop.Run(cfg, FRESH, es), sid) == Some(account) <==>
            exists k: nat :: IsLatestSignIn(cfg, es, k, sid, account)
  {
    hide IsLatestSignIn, Step, SessionOf;
    if SessionOf(Shop.Run(cfg, FRESH, es), sid) == Some(account) {
      var k := HeldIsLatest(cfg, es, sid, account);
    }
    forall k: nat | IsLatestSignIn(cfg, es, k, sid, account)
      ensures SessionOf(Shop.Run(cfg, FRESH, es), sid) == Some(account)
    {
      LatestIsHeld(cfg, es, k, sid, account);
    }
  }

  /** A verification signs in, and redirects, exactly when its code is the latest requested, unused and in time. */
  lemma VerifySignsIn(cfg: Config, es: seq<Event>, k: nat, account: string)
    requires k < |es| && es[k].request.VerifyOtp?
    ensures var address := Address(es[k].request.email);
            AccountAt(cfg, es, k) == Some(account) <==>
            && UserAt(cfg.users, address).Some? && UserAt(cfg.users, address).value.email == account
            && exists i: nat :: IsPending(cfg, es[..k], i, address)
                     && CodeFrom(es[i].request.random) == Trim(es[k].request.code)
                     && es[k].now <= es[i].now + 600000
    ensures Step(cfg, Shop.Run(cfg, FRESH, es[..k]), es[k]).1 == SeeOther("/account") <==> AccountAt(cfg, es, k).Some?
  {
    hide Accepts, Address, CodeFrom, IsPending, UserAt;
    AcceptedIffLatestAndFresh(cfg, es[..k], es[k].now, es[k].request.email, es[k].request.code);
    forall i: nat | IsPending(cfg, es[..k], i, Address(es[k].request.email)) ensures i < k {
      PendingIsRequest(cfg, es[..k], i, Address(es[k].request.email));
    }
  }
}
