/** The record button: starts, polls, saves and cancels whose replies arrive in any order. */
module Recorder {
  import opened Text

  type Session = nat

  datatype Phase = Idle | Recording | Saving | Error

  // What a poll's GET came back with: nothing when it failed.
  datatype Reply = Failed | Status(status: string, code: string)

  const READY := "ready"
  const ERROR := "error"

  // The component's refs and phase, the intervals the browser is running, and the requests it has sent.
  datatype Button = Button(phase: Phase, session: Option<Session>, timer: Option<nat>, running: set<nat>,
                           begun: seq<Session>, deleted: seq<Session>)

  const FRESH: Button := Button(Idle, None, None, {}, [], [])

  function Stopped(b: Button): Button {
    b.(running := if b.timer.Some? then b.running - {b.timer.value} else b.running, timer := None)
  }

  // The POST that starts a session answered: remember it and poll it.
  function Started(b: Button, session: Session, timer: nat): Button {
    b.(session := Some(session), timer := Some(timer), running := b.running + {timer})
  }

  predicate BeginsSave(b: Button, session: Session, reply: Reply) {
    b.session == Some(session) && reply.Status? && reply.status == READY && reply.code != ""
  }

  // The rest of a poll, after its await.
  function Polled(b: Button, session: Session, reply: Reply): Button {
    if reply.Failed? || b.session != Some(session) then b
    else if BeginsSave(b, session, reply) then Stopped(b).(phase := Saving, begun := b.begun + [session])
    else if reply.status == ERROR then Stopped(b).(phase := Error)
    else b
  }

  function Saved(b: Button, ok: bool): Button {
    if ok then b.(session := None, phase := Idle) else b.(phase := Error)
  }

  function Cancelled(b: Button): Button {
    Stopped(b).(session := None, phase := Idle,
                deleted := if b.session.Some? then b.deleted + [b.session.value] else b.deleted)
  }

  // Unmounting clears the interval and deletes the session, but keeps both refs.
  function Unmounted(b: Button): Button {
    b.(running := if b.timer.Some? then b.running - {b.timer.value} else b.running,
       deleted := if b.session.Some? then b.deleted + [b.session.value] else b.deleted)
  }

  class RecordButton {
    var phase: Phase
    var session: Option<Session>
    var timer: Option<nat>
    var running: set<nat>
    var begun: seq<Session>
    var deleted: seq<Session>

    function View(): Button
      reads this
    {
      Button(phase, session, timer, running, begun, deleted)
    }

    constructor ()
      ensures View() == FRESH
    {
      phase, session, timer, running, begun, deleted := Idle, None, None, {}, [], [];
    }

    method StopPolling()
      modifies this
      ensures View() == Stopped(old(View()))
    {
      if timer.Some? {
        running := running - {timer.value};
      }
      timer := None;
    }

    method OnStarted(sessionId: Session, interval: nat)
      modifies this
      ensures View() == Started(old(View()), sessionId, interval)
    {
      session := Some(sessionId);
      running := running + {interval};
      timer := Some(interval);
    }

    method OnPolled(sessionId: Session, reply: Reply)
      modifies this
      ensures View() == Polled(old(View()), sessionId, reply)
    {
      if reply.Failed? {
        return;
      }
      if session != Some(sessionId) {
        return;
      }
      if reply.status == READY && reply.code != "" {
        StopPolling();
        phase := Saving;
        begun := begun + [sessionId];
      } else if reply.status == ERROR {
        StopPolling();
        phase := Error;
      }
    }

    method OnSaved(ok: bool)
      modifies this
      ensures View() == Saved(old(View()), ok)
    {
      if ok {
        session := None;
        phase := Idle;
      } else {
        phase := Error;
      }
    }

    method Cancel()
      modifies this
      ensures View() == Cancelled(old(View()))
    {
      StopPolling();
      var sid := session;
      session := None;
      phase := Idle;
      if sid.Some? {
        deleted := deleted + [sid.value];
      }
    }

    method Unmount()
      modifies this
      ensures View() == Unmounted(old(View()))
    {
      if timer.Some? {
        running := running - {timer.value};
      }
      if session.Some? {
        deleted := deleted + [session.value];
      }
    }
  }

  // ----- interleavings -------------------------------------------------------------------------

  // The button and everything in flight: the sessions the server has named, the session each interval polls,
  // the session each outstanding GET asked about, and how many starts and saves await a reply.
  datatype World = World(button: Button, issued: set<Session>, polling: map<nat, Session>, gets: map<nat, Session>,
                         starts: nat, saves: nat)

  const OPENED: World := World(FRESH, {}, map[], map[], 0, 0)

  datatype Action =
    | Start(hasEnvironment: bool)
    | StartReply(session: Session, interval: nat)
    | StartFailed
    | Fire(interval: nat, get: nat)
    | PollReply(get: nat, reply: Reply)
    | SaveReply(ok: bool)
    | Cancel
    | Unmount

  // A step that does not apply changes nothing. The server never names two sessions alike, nor the browser two
  // intervals.
  function Next(w: World, a: Action): World {
    match a
    case Start(hasEnvironment) =>
      if hasEnvironment then w.(button := w.button.(phase := Recording), starts := w.starts + 1)
      else w.(button := w.button.(phase := Error))
    case StartReply(session, interval) =>
      if w.starts == 0 || session in w.issued || interval in w.polling then w
      else w.(button := Started(w.button, session, interval), issued := w.issued + {session},
              polling := w.polling[interval := session], starts := w.starts - 1)
    case StartFailed =>
      if w.starts == 0 then w else w.(button := w.button.(phase := Error), starts := w.starts - 1)
    case Fire(interval, get) =>
      if interval !in w.button.running || interval !in w.polling || get in w.gets then w
      else w.(gets := w.gets[get := w.polling[interval]])
    case PollReply(get, reply) =>
      if get !in w.gets then w
      else w.(button := Polled(w.button, w.gets[get], reply), gets := w.gets - {get},
              saves := w.saves + (if BeginsSave(w.button, w.gets[get], reply) then 1 else 0))
    case SaveReply(ok) =>
      if w.saves == 0 then w else w.(button := Saved(w.button, ok), saves := w.saves - 1)
    case Cancel => w.(button := Cancelled(w.button))
    case Unmount => w.(button := Unmounted(w.button))
  }

  function Run(w: World, actions: seq<Action>): World {
    if actions == [] then w else Next(Run(w, actions[..|actions| - 1]), actions[|actions| - 1])
  }

  // Every session in play was named by the server.
  ghost predicate Inv(w: World) {
    && (w.button.session.Some? ==> w.button.session.value in w.issued)
    && (forall i :: i in w.polling ==> w.polling[i] in w.issued)
    && (forall g :: g in w.gets ==> w.gets[g] in w.issued)
    && (forall i :: i in w.button.running ==> i in w.polling)
    && (w.button.timer.Some? ==> w.button.timer.value in w.polling)
  }

  lemma NextKeepsInv(w: World, a: Action)
    requires Inv(w)
    ensures Inv(Next(w, a))
  {}

  lemma {:induction false} RunKeepsInv(w: World, actions: seq<Action>)
    requires Inv(w)
    ensures Inv(Run(w, actions))
  {
    hide Next, Inv;
    if actions != [] {
      RunKeepsInv(w, actions[..|actions| - 1]);
      NextKeepsInv(Run(w, actions[..|actions| - 1]), actions[|actions| - 1]);
    }
  }

  // A session the server has named and the button has let go of.
  predicate IsGone(w: World, s: Session) { s in w.issued && w.button.session != Some(s) }

  function Count(ss: seq<Session>, s: Session): nat {
    if ss == [] then 0 else Count(ss[..|ss| - 1], s) + (if ss[|ss| - 1] == s then 1 else 0)
  }

  lemma {:induction false} CountIs(ss: seq<Session>, s: Session)
    ensures Count(ss, s) == multiset(ss)[s]
  {
    if ss != [] {
      CountIs(ss[..|ss| - 1], s);
      assert ss == ss[..|ss| - 1] + [ss[|ss| - 1]];
    }
  }

  lemma CountPlus(ss: seq<Session>, t: Session, s: Session)
    ensures Count(ss + [t], s) == Count(ss, s) + (if t == s then 1 else 0)
  {
    assert (ss + [t])[..|ss|] == ss;
  }

  // What is gone stays gone: no step saves it, deletes it or takes it up again.
  lemma GoneStep(w: World, a: Action, s: Session)
    requires Inv(w) && IsGone(w, s)
    ensures IsGone(Next(w, a), s)
    ensures Count(Next(w, a).button.begun, s) == Count(w.button.begun, s)
    ensures Count(Next(w, a).button.deleted, s) == Count(w.button.deleted, s)
  {
    if w.button.session.Some? { CountPlus(w.button.deleted, w.button.session.value, s); }
    if a.PollReply? && a.get in w.gets { CountPlus(w.button.begun, w.gets[a.get], s); }
  }

  lemma {:induction false} GoneStaysGone(w: World, actions: seq<Action>, s: Session)
    requires Inv(w) && IsGone(w, s)
    ensures IsGone(Run(w, actions), s)
    ensures Count(Run(w, actions).button.begun, s) == Count(w.button.begun, s)
    ensures Count(Run(w, actions).button.deleted, s) == Count(w.button.deleted, s)
  {
    if actions != [] {
      var front := actions[..|actions| - 1];
      GoneStaysGone(w, front, s);
      RunKeepsInv(w, front);
      GoneStep(Run(w, front), actions[|actions| - 1], s);
    }
  }

  /** A cancel ends the session that is current: it is deleted, once,
      and no reply that arrives later begins to save it. */
  lemma CancelIsFinal(before: seq<Action>, after: seq<Action>, s: Session)
    requires Run(OPENED, before).button.session == Some(s)
    ensures var w := Run(OPENED, before);
            var w' := Run(Next(w, Cancel), after);
            && w'.button.session != Some(s)
            && Count(w'.button.begun, s) == Count(w.button.begun, s)
            && Count(w'.button.deleted, s) == Count(w.button.deleted, s) + 1
  {
    var w := Run(OPENED, before);
    RunKeepsInv(OPENED, before);
    CountPlus(w.button.deleted, s, s);
    var c := Next(w, Cancel);
    assert IsGone(c, s) && c.button.begun == w.button.begun;
    GoneStaysGone(c, after, s);
  }

  lemma {:induction false} RunAppend(w: World, first: seq<Action>, second: seq<Action>)
    ensures Run(w, first + second) == Run(Run(w, first), second)
  {
    if second == [] {
      assert first + second == first;
    } else {
      assert (first + second)[..|first + second| - 1] == first + second[..|second| - 1];
      RunAppend(w, first, second[..|second| - 1]);
    }
  }

  // ----- which sessions a cancel stops -----------------------------------------------------------

  ghost function Fresh(used: set<nat>): (n: nat)
    ensures n !in used && forall k :: k in used ==> k < n
  {
    if used == {} then 0
    else
      assert exists k :: k in used && forall j :: j in used ==> j <= k by { var k := GreatestExists(used); }
      var k :| k in used && forall j :: j in used ==> j <= k;
      k + 1
  }

  lemma {:induction false} GreatestExists(used: set<nat>) returns (k: nat)
    requires used != {}
    ensures k in used && forall j :: j in used ==> j <= k
    decreases |used|
  {
    k :| k in used;
    var others := used - {k};
    assert forall j :: j in used ==> j == k || j in others;
    if others != {} {
      var rest := GreatestExists(others);
      if k < rest { k := rest; }
    }
  }

  // The start of s is answered, its interval fires, and the poll answers ready with code.
  ghost function SaveOf(w: World, s: Session): seq<Action> {
    var interval, get := Fresh(w.polling.Keys), Fresh(w.gets.Keys);
    [StartReply(s, interval), Fire(interval, get), PollReply(get, Status(READY, "code"))]
  }

  lemma RunStep(w: World, front: seq<Action>, a: Action)
    ensures Run(w, front + [a]) == Next(Run(w, front), a)
  {
    assert (front + [a])[..|front|] == front;
  }

  lemma RunNothing(w: World)
    ensures Run(w, []) == w
  {}

  lemma RunThree(w: World, a: Action, b: Action, c: Action)
    ensures Run(w, [a, b, c]) == Next(Next(Next(w, a), b), c)
  {
    hide Next, Run;
    assert Run(w, []) == w by { RunNothing(w); }
    RunStep(w, [], a);
    RunStep(w, [a], b);
    RunStep(w, [a, b], c);
    assert [] + [a] == [a] && [a] + [b] == [a, b] && [a, b] + [c] == [a, b, c];
  }

  // A start that awaits its reply can go on to a save, whatever was cancelled before.
  lemma PendingStartCanSave(w: World, s: Session)
    requires Inv(w) && w.starts > 0 && s !in w.issued
    ensures Run(w, SaveOf(w, s)).button.begun == w.button.begun + [s]
  {
    var interval, get := Fresh(w.polling.Keys), Fresh(w.gets.Keys);
    RunThree(w, StartReply(s, interval), Fire(interval, get), PollReply(get, Status(READY, "code")));
    var w1 := Next(w, StartReply(s, interval));
    assert w1.button == Started(w.button, s, interval) && w1.polling[interval] == s && w1.gets == w.gets;
    var w2 := Next(w1, Fire(interval, get));
    assert w2.button == w1.button && w2.gets[get] == s;
  }

  /** A cancel ends exactly the sessions the server has already named, superseded ones included:
      any other can still begin to be saved. */
  lemma CancelEndsTheNamed(before: seq<Action>, s: Session)
    ensures var c := Next(Run(OPENED, before), Cancel);
            s in c.issued <==>
            forall after :: Count(Run(c, after).button.begun, s) == Count(c.button.begun, s)
  {
    RunKeepsInv(OPENED, before);
    var c := Next(Run(OPENED, before), Cancel);
    NextKeepsInv(Run(OPENED, before), Cancel);
    if s in c.issued {
      forall after ensures Count(Run(c, after).button.begun, s) == Count(c.button.begun, s) {
        GoneStaysGone(c, after, s);
      }
    } else {
      var d := Next(c, Start(true));
      NextKeepsInv(c, Start(true));
      PendingStartCanSave(d, s);
      CountPlus(d.button.begun, s, s);
      var after := [Start(true)] + SaveOf(d, s);
      RunAppend(c, [Start(true)], SaveOf(d, s));
      assert [Start(true)][..0] == [] && Run(c, [Start(true)]) == d;
      assert Count(Run(c, after).button.begun, s) == Count(c.button.begun, s) + 1;
    }
  }

  predicate NoStart(actions: seq<Action>) { forall k :: 0 <= k < |actions| ==> !actions[k].Start? }

  lemma {:induction false} NothingLeftToSave(w: World, after: seq<Action>)
    requires NoStart(after) && w.starts == 0 && w.button.session.None?
    ensures Run(w, after).starts == 0 && Run(w, after).button.session.None?
    ensures Run(w, after).button.begun == w.button.begun
  {
    if after != [] {
      NothingLeftToSave(w, after[..|after| - 1]);
    }
  }

  /** Without a new start, a cancel is followed by no save at all exactly when no start still awaited its reply. */
  lemma CancelStopsAllUnlessStarting(before: seq<Action>)
    ensures var c := Next(Run(OPENED, before), Cancel);
            c.starts == 0 <==> forall after :: NoStart(after) ==> Run(c, after).button.begun == c.button.begun
  {
    RunKeepsInv(OPENED, before);
    var c := Next(Run(OPENED, before), Cancel);
    NextKeepsInv(Run(OPENED, before), Cancel);
    if c.starts == 0 {
      forall after | NoStart(after) ensures Run(c, after).button.begun == c.button.begun {
        NothingLeftToSave(c, after);
      }
    } else {
      var s := Fresh(c.issued);
      PendingStartCanSave(c, s);
      assert NoStart(SaveOf(c, s));
    }
  }

  // ----- which session is current -----------------------------------------------------------------

  // A start's reply that takes effect, and so makes its session current.
  predicate Takes(w: World, a: Action) {
    a.StartReply? && w.starts > 0 && a.session !in w.issued && a.interval !in w.polling
  }

  // What ends a session's turn: another's start, a cancel, or a save that succeeded.
  predicate Drops(w: World, a: Action) {
    Takes(w, a) || a.Cancel? || (a.SaveReply? && a.ok && w.saves > 0)
  }

  lemma CurrentAfter(w: World, a: Action, s: Session)
    ensures Next(w, a).button.session == Some(s) <==>
            (Takes(w, a) && a.session == s) || (!Drops(w, a) && w.button.session == Some(s))
  {}

  // The k-th action is the reply that started s.
  predicate StartedAt(actions: seq<Action>, k: nat, s: Session)
    requires k < |actions|
  {
    Takes(Run(OPENED, actions[..k]), actions[k]) && actions[k].session == s
  }

  predicate DropsAt(actions: seq<Action>, k: nat)
    requires k < |actions|
  {
    Drops(Run(OPENED, actions[..k]), actions[k])
  }

  ghost predicate IsCurrentSince(actions: seq<Action>, k: nat, s: Session) {
    k < |actions| && StartedAt(actions, k, s) && forall j :: k < j < |actions| ==> !DropsAt(actions, j)
  }

  lemma CurrentStep(actions: seq<Action>, s: Session)
    requires actions != []
    ensures var n := |actions| - 1;
            Run(OPENED, actions).button.session == Some(s) <==>
            StartedAt(actions, n, s) || (!DropsAt(actions, n) && Run(OPENED, actions[..n]).button.session == Some(s))
  {
    hide Next, Takes, Drops;
    var n := |actions| - 1;
    CurrentAfter(Run(OPENED, actions[..n]), actions[n], s);
    TakesStarts(Run(OPENED, actions[..n]), actions[n]);
  }

  lemma TakesStarts(w: World, a: Action)
    ensures Takes(w, a) ==> a.StartReply?
  {}

  lemma CurrentSinceStep(actions: seq<Action>, k: nat, s: Session)
    requires actions != []
    ensures var n := |actions| - 1;
            IsCurrentSince(actions, k, s) <==>
            if k == n then StartedAt(actions, n, s) else IsCurrentSince(actions[..n], k, s) && !DropsAt(actions, n)
  {
    hide Run;
    var front := actions[..|actions| - 1];
    forall j: nat | j < |front| ensures front[..j] == actions[..j] {}
    forall j: nat, t | j < |front| ensures StartedAt(front, j, t) == StartedAt(actions, j, t) {
      assert front[..j] == actions[..j];
    }
    forall j: nat | j < |front| ensures DropsAt(front, j) == DropsAt(actions, j) {
      assert front[..j] == actions[..j];
    }
  }

  lemma {:induction false} SinceIsCurrent(actions: seq<Action>, k: nat, s: Session)
    requires IsCurrentSince(actions, k, s)
    ensures Run(OPENED, actions).button.session == Some(s)
  {
    hide Run, DropsAt, StartedAt, IsCurrentSince;
    SinceIsInside(actions, k, s);
    CurrentStep(actions, s);
    CurrentSinceStep(actions, k, s);
    if k < |actions| - 1 { SinceIsCurrent(actions[..|actions| - 1], k, s); }
  }

  lemma SinceIsInside(actions: seq<Action>, k: nat, s: Session)
    ensures IsCurrentSince(actions, k, s) ==> k < |actions|
  {}

  lemma {:induction false} CurrentIsSince(actions: seq<Action>, s: Session) returns (k: nat)
    requires Run(OPENED, actions).button.session == Some(s)
    ensures IsCurrentSince(actions, k, s)
  {
    hide DropsAt, StartedAt, IsCurrentSince;
    var n := |actions| - 1;
    CurrentStep(actions, s);
    if StartedAt(actions, n, s) {
      k := n;
    } else {
      k := CurrentIsSince(actions[..n], s);
      SinceIsInside(actions[..n], k, s);
    }
    CurrentSinceStep(actions, k, s);
  }

  /** Over every run, a save of s begins exactly when a poll of s answers ready with code while s, started before,
      has since been neither cancelled, nor superseded, nor ended by any save that succeeded. */
  lemma SavesAreCurrent(actions: seq<Action>, a: Action, s: Session)
    ensures var w := Run(OPENED, actions);
            Next(w, a).button.begun == w.button.begun + [s] <==>
            && a.PollReply? && a.get in w.gets && w.gets[a.get] == s
            && a.reply.Status? && a.reply.status == "ready" && a.reply.code != ""
            && exists k: nat :: IsCurrentSince(actions, k, s)
  {
    hide IsCurrentSince, Run;
    var w := Run(OPENED, actions);
    if w.button.session == Some(s) {
      var k := CurrentIsSince(actions, s);
    }
    forall k: nat | IsCurrentSince(actions, k, s) ensures w.button.session == Some(s) {
      SinceIsCurrent(actions, k, s);
    }
    BegunGrows(w, a, s);
  }

  lemma BegunGrows(w: World, a: Action, s: Session)
    ensures Next(w, a).button.begun == w.button.begun + [s] <==>
            a.PollReply? && a.get in w.gets && w.gets[a.get] == s && BeginsSave(w.button, s, a.reply)
  {
    var b := w.button.begun;
    assert (b + [s])[|b|] == s && |b + [s]| != |b|;
  }

  /** A cancel pressed before the start has answered stops nothing: the session then starts, polls and saves. */
  lemma EarlyCancelStopsNothing(s: Session, interval: nat, get: nat, code: string)
    requires code != ""
    ensures var w0 := Next(Next(OPENED, Start(true)), Cancel);
            var w1 := Next(Next(w0, StartReply(s, interval)), Fire(interval, get));
            Next(w1, PollReply(get, Status(READY, code))).button.begun == [s]
  {
    var w0 := Next(Next(OPENED, Start(true)), Cancel);
    var w1 := Next(Next(w0, StartReply(s, interval)), Fire(interval, get));
    assert w1.gets == map[get := s] && w1.button.session == Some(s);
  }

  // ----- polling stops ----------------------------------------------------------------------------

  lemma SilentStep(w: World, a: Action, i: nat)
    requires Inv(w) && i in w.polling && i !in w.button.running
    ensures i in Next(w, a).polling && i !in Next(w, a).button.running
  {}

  lemma {:induction false} SilentStays(w: World, actions: seq<Action>, i: nat)
    requires Inv(w) && i in w.polling && i !in w.button.running
    ensures i in Run(w, actions).polling && i !in Run(w, actions).button.running
  {
    hide Next, Inv;
    if actions != [] {
      var front := actions[..|actions| - 1];
      SilentStays(w, front, i);
      RunKeepsInv(w, front);
      SilentStep(Run(w, front), actions[|actions| - 1], i);
    }
  }

  // The polls that end polling: the ones that begin a save, and the ones that report an error.
  predicate EndsPolling(w: World, a: Action) {
    a.Cancel? || a.Unmount? ||
    (a.PollReply? && a.get in w.gets && w.button.session == Some(w.gets[a.get]) && a.reply.Status?
     && ((a.reply.status == "ready" && a.reply.code != "") || a.reply.status == "error"))
  }

  lemma StopsIffEnds(w: World, a: Action, i: nat)
    requires Inv(w) && w.button.timer == Some(i) && i in w.button.running
    ensures i !in Next(w, a).button.running <==> EndsPolling(w, a)
  {}

  /** After a cancel, an unmount, a finished recording or an error, the button's interval never asks again. */
  lemma PollingEnds(before: seq<Action>, a: Action, after: seq<Action>, i: nat, get: nat)
    requires var w := Run(OPENED, before); w.button.timer == Some(i) && EndsPolling(w, a)
    ensures var w' := Run(Next(Run(OPENED, before), a), after);
            i !in w'.button.running && Next(w', Fire(i, get)) == w'
  {
    var w := Run(OPENED, before);
    RunKeepsInv(OPENED, before);
    NextKeepsInv(w, a);
    SilentStays(Next(w, a), after, i);
  }

  /** A button that goes away deletes the session it holds, if any, and no other. */
  lemma UnmountDeletes(w: World, s: Session)
    ensures Count(Next(w, Unmount).button.deleted, s) ==
            Count(w.button.deleted, s) + (if w.button.session == Some(s) then 1 else 0)
  {
    if w.button.session.Some? { CountPlus(w.button.deleted, w.button.session.value, s); }
  }

  // ----- what is in flight ------------------------------------------------------------------------

  function StartsMade(actions: seq<Action>): nat {
    if actions == [] then 0
    else StartsMade(actions[..|actions| - 1]) + (if actions[|actions| - 1] == Start(true) then 1 else 0)
  }

  // The replies that some request was waiting for.
  function StartsFailed(actions: seq<Action>): nat {
    if actions == [] then 0
    else
      var front, a := actions[..|actions| - 1], actions[|actions| - 1];
      StartsFailed(front) + (if a.StartFailed? && Run(OPENED, front).starts > 0 then 1 else 0)
  }

  function SavesAnswered(actions: seq<Action>): nat {
    if actions == [] then 0
    else
      var front, a := actions[..|actions| - 1], actions[|actions| - 1];
      SavesAnswered(front) + (if a.SaveReply? && Run(OPENED, front).saves > 0 then 1 else 0)
  }

  lemma InFlightStep(w: World, a: Action)
    ensures Next(w, a).starts + |Next(w, a).issued| + (if a.StartFailed? && w.starts > 0 then 1 else 0) ==
            w.starts + |w.issued| + (if a == Start(true) then 1 else 0)
    ensures |Next(w, a).button.begun| + w.saves ==
            |w.button.begun| + Next(w, a).saves + (if a.SaveReply? && w.saves > 0 then 1 else 0)
  {}

  /** Every start is waiting, has failed or has named one session, and every save begun is waiting or answered. */
  lemma {:induction false} NothingIsLost(actions: seq<Action>)
    ensures var w := Run(OPENED, actions);
            && StartsMade(actions) == w.starts + |w.issued| + StartsFailed(actions)
            && |w.button.begun| == w.saves + SavesAnswered(actions)
  {
    hide Next;
    if actions != [] {
      var front := actions[..|actions| - 1];
      NothingIsLost(front);
      InFlightStep(Run(OPENED, front), actions[|actions| - 1]);
    }
  }

  /** A poll that is out asks about the same session until its own answer comes. */
  lemma PollsKeepTheirSession(w: World, a: Action, get: nat)
    requires get in w.gets && !(a.PollReply? && a.get == get)
    ensures get in Next(w, a).gets && Next(w, a).gets[get] == w.gets[get]
  {}
}
