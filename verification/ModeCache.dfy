/** The API's cache of stored security modes: lookups interleaved around an await, and how stale an answer can be. */
module ModeCache {
  import opened Text

  const TTL_MS := 60000
  const CAP: nat := 1000

  // `securityControlModes` as stored; null when the organisation or the column is missing.
  datatype Modes = Null | Stored(json: string)

  datatype Entry = Entry(modes: Modes, readAt: int)

  type Cache = map<string, Entry>

  function Hit(cache: Cache, org: string, now: int): Option<Modes> {
    if org in cache && now - cache[org].readAt < TTL_MS then Some(cache[org].modes) else None
  }

  function Remembered(cache: Cache, org: string, modes: Modes, readAt: int): Cache {
    (if |cache| >= CAP then map[] else cache)[org := Entry(modes, readAt)]
  }

  class SecurityModes {
    var cache: Cache

    constructor ()
      ensures cache == map[]
    {
      cache := map[];
    }

    // Up to the await: an answer, or None when the row must be read.
    method Begin(org: string, now: int) returns (answer: Option<Modes>)
      ensures answer == Hit(cache, org, now)
    {
      answer := None;
      if org in cache && now - cache[org].readAt < TTL_MS {
        answer := Some(cache[org].modes);
      }
    }

    // After the await, with the clock of the call and the row that was read.
    method Finish(org: string, modes: Modes, calledAt: int)
      modifies this
      ensures cache == Remembered(old(cache), org, modes, calledAt)
    {
      if |cache| >= CAP {
        cache := map[];
      }
      cache := cache[org := Entry(modes, calledAt)];
    }

    method Reset()
      modifies this
      ensures cache == map[]
    {
      cache := map[];
    }
  }

  // ----- interleaved runs ------------------------------------------------------------------

  // What the database held at one reading of the clock.
  datatype Snapshot = Snapshot(time: int, rows: map<string, Modes>)

  // A lookup past its cache miss; the row is None until the database has answered.
  datatype Lookup = Lookup(org: string, calledAt: int, row: Option<Modes>)

  datatype Answer = Answer(org: string, calledAt: int, answeredAt: int, modes: Modes)

  datatype State = State(history: seq<Snapshot>, cache: Cache, lookups: map<nat, Lookup>, answers: seq<Answer>)

  datatype Action =
    | Tick(time: int)
    | Write(org: string, modes: Modes)
    | Call(id: nat, org: string)
    | ReadRow(id: nat)
    | Resolve(id: nat)
    | Reject(id: nat)
    | ResetCache

  function RowOf(rows: map<string, Modes>, org: string): Modes {
    if org in rows then rows[org] else Null
  }

  function Last(s: State): Snapshot
    requires s.history != []
  {
    s.history[|s.history| - 1]
  }

  // A step that does not apply changes nothing; the clock never runs backwards.
  function Next(s: State, a: Action): (s': State)
    requires s.history != []
    ensures s.history <= s'.history
  {
    var now := Last(s).time;
    match a
    case Tick(time) =>
      if time < now then s else s.(history := s.history + [Snapshot(time, Last(s).rows)])
    case Write(org, modes) =>
      s.(history := s.history + [Snapshot(now, Last(s).rows[org := modes])])
    case Call(id, org) =>
      if id in s.lookups then s
      else (match Hit(s.cache, org, now)
            case Some(modes) => s.(answers := s.answers + [Answer(org, now, now, modes)])
            case None => s.(lookups := s.lookups[id := Lookup(org, now, None)]))
    case ReadRow(id) =>
      if id !in s.lookups || s.lookups[id].row.Some? then s
      else
        var l := s.lookups[id];
        s.(lookups := s.lookups[id := l.(row := Some(RowOf(Last(s).rows, l.org)))])
    case Resolve(id) =>
      if id !in s.lookups || s.lookups[id].row.None? then s
      else
        var l := s.lookups[id];
        s.(cache := Remembered(s.cache, l.org, l.row.value, l.calledAt), lookups := s.lookups - {id},
           answers := s.answers + [Answer(l.org, l.calledAt, now, l.row.value)])
    case Reject(id) => s.(lookups := s.lookups - {id})
    case ResetCache => s.(cache := map[])
  }

  function Run(s: State, actions: seq<Action>): (s': State)
    requires s.history != []
    ensures s'.history != []
  {
    if actions == [] then s else Next(Run(s, actions[..|actions| - 1]), actions[|actions| - 1])
  }

  // The database held these modes for org at some instant after `after` and no later than `upTo`.
  ghost predicate WasStored(history: seq<Snapshot>, org: string, modes: Modes, after: int, upTo: int) {
    exists k :: 0 <= k < |history| && after < history[k].time <= upTo && RowOf(history[k].rows, org) == modes
  }

  ghost predicate IsFresh(history: seq<Snapshot>, a: Answer) {
    WasStored(history, a.org, a.modes, a.calledAt - 60000, a.answeredAt)
  }

  ghost predicate CacheInv(h: seq<Snapshot>, now: int, cache: Cache) {
    && |cache| <= CAP
    && forall org :: org in cache ==> WasStored(h, org, cache[org].modes, cache[org].readAt - 1, now)
  }

  ghost predicate LookupInv(h: seq<Snapshot>, now: int, l: Lookup) {
    && l.calledAt <= now
    && (l.row.Some? ==> WasStored(h, l.org, l.row.value, l.calledAt - 1, now))
  }

  ghost predicate LookupsInv(h: seq<Snapshot>, now: int, lookups: map<nat, Lookup>) {
    forall id :: id in lookups ==> LookupInv(h, now, lookups[id])
  }

  ghost predicate AnswersInv(h: seq<Snapshot>, answers: seq<Answer>) {
    forall i :: 0 <= i < |answers| ==> IsFresh(h, answers[i])
  }

  ghost predicate Inv(s: State) {
    && s.history != []
    && CacheInv(s.history, Last(s).time, s.cache)
    && LookupsInv(s.history, Last(s).time, s.lookups)
    && AnswersInv(s.history, s.answers)
  }

  lemma StoredStays(h: seq<Snapshot>, h': seq<Snapshot>, org: string, modes: Modes,
                   after: int, upTo: int, after': int, upTo': int)
    requires h <= h' && after' <= after && upTo <= upTo' && WasStored(h, org, modes, after, upTo)
    ensures WasStored(h', org, modes, after', upTo')
  {
    var k :| 0 <= k < |h| && after < h[k].time <= upTo && RowOf(h[k].rows, org) == modes;
    assert h'[k] == h[k];
  }

  // Growing the history keeps every promise made over it.
  lemma HistoryGrows(s: State, h: seq<Snapshot>, now: int)
    requires Inv(s) && s.history <= h && Last(s).time <= now
    ensures CacheInv(h, now, s.cache) && LookupsInv(h, now, s.lookups) && AnswersInv(h, s.answers)
  {
    hide WasStored;
    var was := Last(s).time;
    forall org | org in s.cache ensures WasStored(h, org, s.cache[org].modes, s.cache[org].readAt - 1, now) {
      StoredStays(s.history, h, org, s.cache[org].modes, s.cache[org].readAt - 1, was, s.cache[org].readAt - 1, now);
    }
    forall id | id in s.lookups ensures LookupInv(h, now, s.lookups[id]) {
      var l := s.lookups[id];
      if l.row.Some? { StoredStays(s.history, h, l.org, l.row.value, l.calledAt - 1, was, l.calledAt - 1, now); }
    }
    forall i | 0 <= i < |s.answers| ensures IsFresh(h, s.answers[i]) {
      var a := s.answers[i];
      StoredStays(s.history, h, a.org, a.modes, a.calledAt - TTL_MS, a.answeredAt, a.calledAt - TTL_MS, a.answeredAt);
    }
  }

  lemma HitIsFresh(h: seq<Snapshot>, now: int, cache: Cache, org: string)
    requires CacheInv(h, now, cache) && Hit(cache, org, now).Some?
    ensures IsFresh(h, Answer(org, now, now, Hit(cache, org, now).value))
  {
    StoredStays(h, h, org, cache[org].modes, cache[org].readAt - 1, now, now - TTL_MS, now);
  }

  lemma ReadIsStored(s: State, l: Lookup)
    requires s.history != [] && l.calledAt <= Last(s).time
    ensures LookupInv(s.history, Last(s).time, l.(row := Some(RowOf(Last(s).rows, l.org))))
  {
    assert s.history[|s.history| - 1] == Last(s);
  }

  lemma ResolvedIsFresh(h: seq<Snapshot>, now: int, cache: Cache, l: Lookup)
    requires CacheInv(h, now, cache) && LookupInv(h, now, l) && l.row.Some?
    ensures CacheInv(h, now, Remembered(cache, l.org, l.row.value, l.calledAt))
    ensures IsFresh(h, Answer(l.org, l.calledAt, now, l.row.value))
  {
    StoredStays(h, h, l.org, l.row.value, l.calledAt - 1, now, l.calledAt - TTL_MS, now);
  }

  lemma HistoryStepKeepsInv(s: State, a: Action)
    requires Inv(s) && (a.Tick? || a.Write?)
    ensures Inv(Next(s, a))
  {
    hide WasStored, CacheInv, LookupsInv, AnswersInv;
    HistoryGrows(s, Next(s, a).history, Last(Next(s, a)).time);
  }

  lemma CallKeepsInv(s: State, id: nat, org: string)
    requires Inv(s)
    ensures Inv(Next(s, Call(id, org)))
  {
    hide CacheInv, IsFresh, LookupInv, Hit;
    var h, now := s.history, Last(s).time;
    if Hit(s.cache, org, now).Some? { HitIsFresh(h, now, s.cache, org); }
    NewLookup(h, now, org);
  }

  lemma ReadRowKeepsInv(s: State, id: nat)
    requires Inv(s)
    ensures Inv(Next(s, ReadRow(id)))
  {
    hide CacheInv, AnswersInv, LookupInv, RowOf;
    if id in s.lookups {
      LookupIsPast(s.history, Last(s).time, s.lookups[id]);
      ReadIsStored(s, s.lookups[id]);
    }
  }

  lemma ResolveKeepsInv(s: State, id: nat)
    requires Inv(s)
    ensures Inv(Next(s, Resolve(id)))
  {
    hide CacheInv, IsFresh, LookupInv, Remembered;
    if id in s.lookups && s.lookups[id].row.Some? {
      ResolvedIsFresh(s.history, Last(s).time, s.cache, s.lookups[id]);
    }
  }

  lemma ForgetKeepsInv(s: State, a: Action)
    requires Inv(s) && (a.Reject? || a.ResetCache?)
    ensures Inv(Next(s, a))
  {
    hide WasStored, IsFresh, LookupInv;
  }

  lemma NextKeepsInv(s: State, a: Action)
    requires Inv(s)
    ensures Inv(Next(s, a))
  {
    hide Next, CacheInv, LookupsInv, AnswersInv;
    match a {
      case Tick(_) => HistoryStepKeepsInv(s, a);
      case Write(_, _) => HistoryStepKeepsInv(s, a);
      case Call(id, org) => CallKeepsInv(s, id, org);
      case ReadRow(id) => ReadRowKeepsInv(s, id);
      case Resolve(id) => ResolveKeepsInv(s, id);
      case Reject(_) => ForgetKeepsInv(s, a);
      case ResetCache => ForgetKeepsInv(s, a);
    }
  }

  lemma NewLookup(h: seq<Snapshot>, now: int, org: string)
    ensures LookupInv(h, now, Lookup(org, now, None))
  {}

  lemma LookupIsPast(h: seq<Snapshot>, now: int, l: Lookup)
    requires LookupInv(h, now, l)
    ensures l.calledAt <= now
  {}

  /** Whatever the interleaving, each answer was the stored value at some instant later than a minute before its call,
      and the cache stays bounded. */
  lemma {:induction false} AnswersAreFresh(rows: map<string, Modes>, start: int, actions: seq<Action>)
    ensures var s := Run(State([Snapshot(start, rows)], map[], map[], []), actions);
            Inv(s) && |s.cache| <= 1000 && forall i :: 0 <= i < |s.answers| ==> IsFresh(s.history, s.answers[i])
  {
    if actions != [] {
      AnswersAreFresh(rows, start, actions[..|actions| - 1]);
      var front, last := actions[..|actions| - 1], actions[|actions| - 1];
      NextKeepsInv(Run(State([Snapshot(start, rows)], map[], map[], []), front), last);
    }
  }

  lemma RunStep(s: State, front: seq<Action>, a: Action)
    requires s.history != []
    ensures Run(s, front + [a]) == Next(Run(s, front), a)
  {
    assert (front + [a])[..|front|] == front;
  }

  lemma RunOfThree(s: State, a: Action, b: Action, c: Action)
    requires s.history != []
    ensures Run(s, [a, b, c]) == Next(Next(Next(s, a), b), c)
  {
    hide Next, Run;
    OneByOne(a, b, c);
    RunNothing(s);
    RunStep(s, [], a);
    RunStep(s, [a], b);
    RunStep(s, [a, b], c);
  }

  lemma OneByOne(a: Action, b: Action, c: Action)
    ensures [] + [a] == [a] && [a] + [b] == [a, b] && [a, b] + [c] == [a, b, c]
  {}

  lemma RunNothing(s: State)
    requires s.history != []
    ensures Run(s, []) == s
  {}

  lemma {:induction false} RunAppend(s: State, first: seq<Action>, second: seq<Action>)
    requires s.history != []
    ensures Run(s, first + second) == Run(Run(s, first), second)
  {
    hide Next;
    if second == [] {
      assert first + second == first;
    } else {
      assert (first + second)[..|first + second| - 1] == first + second[..|second| - 1];
      RunAppend(s, first, second[..|second| - 1]);
    }
  }

  /** A lookup in flight keeps its organisation, its call and the one row it reads, until it is resolved or rejected. */
  lemma LookupsKeepTheirRow(s: State, a: Action, id: nat)
    requires s.history != [] && id in s.lookups && a != Reject(id) && (a == Resolve(id) ==> s.lookups[id].row.None?)
    ensures id in Next(s, a).lookups
    ensures var l, l' := s.lookups[id], Next(s, a).lookups[id];
            l'.org == l.org && l'.calledAt == l.calledAt && (l.row.Some? ==> l'.row == l.row)
  {}

  lemma StaleSteps(org: string, was: Modes, becomes: Modes, start: int)
    ensures var s0 := State([Snapshot(start, map[org := was])], map[], map[], []);
            var s2 := Next(Next(Next(s0, Call(0, org)), ReadRow(0)), Write(org, becomes));
            var now := start + 59999;
            var s := Next(Next(Next(s2, Resolve(0)), Tick(now)), Call(1, org));
            RowOf(Last(s).rows, org) == becomes && |s.answers| == 2 && s.answers[1] == Answer(org, now, now, was)
  {
    var s0 := State([Snapshot(start, map[org := was])], map[], map[], []);
    var s1 := Next(Next(s0, Call(0, org)), ReadRow(0));
    assert s1 == s0.(lookups := map[0 := Lookup(org, start, Some(was))]);
    var s2 := Next(Next(s1, Write(org, becomes)), Resolve(0));
    assert s2.cache == map[org := Entry(was, start)] && s2.lookups == map[] && |s2.answers| == 1;
  }

  /** The bound is sharp: a value overwritten 59 999 ms before the call can still be the answer. */
  lemma StaleAnswerExists(org: string, was: Modes, becomes: Modes, start: int)
    ensures var now := start + 59999;
            var s := Run(State([Snapshot(start, map[org := was])], map[], map[], []),
                         [Call(0, org), ReadRow(0), Write(org, becomes)] + [Resolve(0), Tick(now), Call(1, org)]);
            RowOf(Last(s).rows, org) == becomes && |s.answers| == 2 && s.answers[1] == Answer(org, now, now, was)
  {
    hide Next, Run;
    var s0 := State([Snapshot(start, map[org := was])], map[], map[], []);
    var first := [Call(0, org), ReadRow(0), Write(org, becomes)];
    var second := [Resolve(0), Tick(start + 59999), Call(1, org)];
    RunAppend(s0, first, second);
    RunOfThree(s0, first[0], first[1], first[2]);
    RunOfThree(Run(s0, first), second[0], second[1], second[2]);
    StaleSteps(org, was, becomes, start);
  }
}
