/** The order of the walk over mounted routers: a block of routes for each, in dictionary order of first trails. */
module WalkOrder {
  import opened Routes

  // A router the walk expands, the trail it is found along and the mounts on it.
  datatype Stop = Stop(ident: string, trail: seq<nat>, chain: seq<Mount>)

  function Expand(file: File, prefix: string, stops: seq<Stop>): seq<Route> {
    if stops == [] then []
    else
      var stop := stops[0];
      var here := VerbRoutes(At(file, stop.ident).verbs, stop.ident, PrefixAlong(prefix, stop.chain));
      here + Expand(file, prefix, stops[1..])
  }

  predicate Before(s: seq<nat>, t: seq<nat>) { TrailLe(s, t) && s != t }

  ghost predicate InOrder(stops: seq<Stop>) {
    forall i, j :: 0 <= i < j < |stops| ==> Before(stops[i].trail, stops[j].trail)
  }

  ghost predicate IsFirstStop(file: File, from: string, stop: Stop, avoid: set<string>) {
    IsFirstTrail(file, from, stop.trail, stop.ident, avoid) && stop.chain == MountsAlong(file, from, stop.trail)
  }

  ghost predicate Names(stops: seq<Stop>, v: string) { exists i :: 0 <= i < |stops| && stops[i].ident == v }

  // What one call adds, stop by stop.
  ghost predicate IsListing(file: File, ident: string, prefix: string, seen: set<string>, w: Walk, stops: seq<Stop>) {
    && w.out == Expand(file, prefix, stops) && InOrder(stops)
    && (forall i :: 0 <= i < |stops| ==> IsFirstStop(file, ident, stops[i], seen))
    && (forall v :: v in w.seen && v !in seen <==> Names(stops, v))
  }

  // The same for a list of mounts, where a trail begins with a position of the list.
  ghost predicate IsFirstMounted(file: File, mounts: seq<Mount>, stop: Stop, avoid: set<string>) {
    && stop.trail != [] && IsFirstFrom(file, mounts, stop.trail[0], stop.trail[1..], stop.ident, avoid)
    && stop.chain == ChainFrom(file, mounts[stop.trail[0]], stop.trail[1..])
  }

  ghost predicate IsMountListing(file: File, mounts: seq<Mount>, prefix: string, seen: set<string>, w: Walk,
                                 stops: seq<Stop>) {
    && w.out == Expand(file, prefix, stops) && InOrder(stops)
    && (forall i :: 0 <= i < |stops| ==> IsFirstMounted(file, mounts, stops[i], seen))
    && (forall v :: v in w.seen && v !in seen <==> Names(stops, v))
  }

  // ----- lists of stops ------------------------------------------------------------------------

  // The stops below the first mount of a list, ...
  function Under(m: Mount, stops: seq<Stop>): (r: seq<Stop>)
    ensures |r| == |stops|
    ensures forall i :: 0 <= i < |r| ==> r[i] == Stop(stops[i].ident, [0] + stops[i].trail, [m] + stops[i].chain)
  {
    if stops == [] then []
    else [Stop(stops[0].ident, [0] + stops[0].trail, [m] + stops[0].chain)] + Under(m, stops[1..])
  }

  function Shifted(trail: seq<nat>): seq<nat> { if trail == [] then [] else [trail[0] + 1] + trail[1..] }

  // ... and those below the later ones, whose positions are one more than in the rest of the list.
  function Later(stops: seq<Stop>): (r: seq<Stop>)
    ensures |r| == |stops|
    ensures forall i :: 0 <= i < |r| ==> r[i] == stops[i].(trail := Shifted(stops[i].trail))
  {
    if stops == [] then [] else [stops[0].(trail := Shifted(stops[0].trail))] + Later(stops[1..])
  }

  lemma {:induction false} ExpandSum(file: File, prefix: string, s: seq<Stop>, t: seq<Stop>)
    ensures Expand(file, prefix, s + t) == Expand(file, prefix, s) + Expand(file, prefix, t)
  {
    hide VerbRoutes, PrefixAlong;
    if s == [] {
      assert s + t == t;
    } else {
      assert (s + t)[1..] == s[1..] + t;
      ExpandSum(file, prefix, s[1..], t);
    }
  }

  lemma {:induction false} ExpandUnder(file: File, prefix: string, m: Mount, stops: seq<Stop>)
    ensures Expand(file, prefix, Under(m, stops)) == Expand(file, JoinPath(prefix, m.path), stops)
  {
    hide VerbRoutes, JoinPath;
    if stops != [] {
      ExpandUnder(file, prefix, m, stops[1..]);
      assert ([m] + stops[0].chain)[1..] == stops[0].chain;
      assert Under(m, stops)[1..] == Under(m, stops[1..]);
    }
  }

  lemma {:induction false} ExpandLater(file: File, prefix: string, stops: seq<Stop>)
    ensures Expand(file, prefix, Later(stops)) == Expand(file, prefix, stops)
  {
    hide VerbRoutes, PrefixAlong;
    if stops != [] {
      ExpandLater(file, prefix, stops[1..]);
      assert Later(stops)[1..] == Later(stops[1..]);
    }
  }

  lemma BeforeUnder(s: seq<nat>, t: seq<nat>)
    requires Before(s, t)
    ensures Before([0] + s, [0] + t)
  {
    assert ([0] + s)[1..] == s && ([0] + t)[1..] == t;
  }

  lemma SplitHead(s: seq<nat>)
    requires s != []
    ensures s == [s[0]] + s[1..]
  {}

  lemma BeforeShifted(s: seq<nat>, t: seq<nat>)
    requires Before(s, t)
    ensures Before(Shifted(s), Shifted(t))
  {
    if s != [] {
      var s', t' := Shifted(s), Shifted(t);
      assert s'[1..] == s[1..] && t'[1..] == t[1..] && s'[0] == s[0] + 1 && t'[0] == t[0] + 1;
      if s' == t' { SplitHead(s); SplitHead(t); }
    }
  }

  lemma UnderInOrder(m: Mount, s: seq<Stop>)
    requires InOrder(s)
    ensures InOrder(Under(m, s))
  {
    hide Before;
    forall i, j | 0 <= i < j < |s| ensures Before([0] + s[i].trail, [0] + s[j].trail) {
      BeforeUnder(s[i].trail, s[j].trail);
    }
  }

  lemma LaterInOrder(t: seq<Stop>)
    requires InOrder(t)
    ensures InOrder(Later(t))
  {
    hide Before, Shifted;
    forall i, j | 0 <= i < j < |t| ensures Before(Shifted(t[i].trail), Shifted(t[j].trail)) {
      BeforeShifted(t[i].trail, t[j].trail);
    }
  }

  lemma SumInOrder(s: seq<Stop>, t: seq<Stop>)
    requires InOrder(s) && InOrder(t)
    requires forall i, j :: 0 <= i < |s| && 0 <= j < |t| ==> Before(s[i].trail, t[j].trail)
    ensures InOrder(s + t)
  {
    hide Before;
  }

  lemma ListsInOrder(m: Mount, s: seq<Stop>, t: seq<Stop>)
    requires InOrder(s) && InOrder(t) && forall i :: 0 <= i < |t| ==> t[i].trail != []
    ensures InOrder(Under(m, s) + Later(t))
  {
    hide Before, Shifted, InOrder;
    UnderInOrder(m, s);
    LaterInOrder(t);
    forall i, j | 0 <= i < |s| && 0 <= j < |t| ensures Before(Under(m, s)[i].trail, Later(t)[j].trail) {
      ZeroIsBefore(s[i].trail, t[j].trail);
    }
    SumInOrder(Under(m, s), Later(t));
  }

  lemma ZeroIsBefore(s: seq<nat>, t: seq<nat>)
    requires t != []
    ensures Before([0] + s, Shifted(t))
  {
    assert ([0] + s)[0] == 0 && Shifted(t)[0] > 0;
  }

  lemma NamesSum(m: Mount, s: seq<Stop>, t: seq<Stop>, v: string)
    ensures Names(Under(m, s) + Later(t), v) <==> Names(s, v) || Names(t, v)
  {
    var r := Under(m, s) + Later(t);
    forall i | 0 <= i < |s| ensures r[i].ident == s[i].ident {}
    forall i | 0 <= i < |t| ensures r[|s| + i].ident == t[i].ident {}
    if Names(r, v) {
      var i :| 0 <= i < |r| && r[i].ident == v;
      assert if i < |s| then s[i].ident == v else t[i - |s|].ident == v;
    }
  }

  // ----- the walk ------------------------------------------------------------------------------

  lemma {:induction false} DeclaredLists(file: File, ident: string, prefix: string, seen: set<string>)
    returns (stops: seq<Stop>)
    ensures IsListing(file, ident, prefix, seen, Declared(file, ident, prefix, seen), stops)
    decreases |file.Keys - seen|, 0
  {
    hide IsListing, IsMountListing, Declared, VerbRoutes;
    OneCall(file, ident, prefix, seen);
    if ident in seen {
      stops := [];
      NothingListed(file, ident, prefix, seen);
    } else {
      var below: seq<Stop> := [];
      if ident in file {
        Shrinks(file.Keys, seen, seen + {ident}, ident);
        below := MountedLists(file, file[ident].mounts, prefix, seen + {ident});
      } else {
        NoMountsListed(file, prefix, seen + {ident});
      }
      stops := [Stop(ident, [], [])] + below;
      ListedHere(file, ident, prefix, seen, Mounted(file, At(file, ident).mounts, prefix, seen + {ident}), below);
    }
  }

  lemma NothingListed(file: File, ident: string, prefix: string, seen: set<string>)
    ensures IsListing(file, ident, prefix, seen, Walk([], seen), [])
  {}

  lemma NoMountsListed(file: File, prefix: string, seen: set<string>)
    ensures IsMountListing(file, [], prefix, seen, Walk([], seen), [])
  {}

  lemma ListedHere(file: File, ident: string, prefix: string, seen: set<string>, below: Walk, stops: seq<Stop>)
    requires ident !in seen && seen + {ident} <= below.seen
    requires IsMountListing(file, At(file, ident).mounts, prefix, seen + {ident}, below, stops)
    ensures var here := VerbRoutes(At(file, ident).verbs, ident, prefix);
            IsListing(file, ident, prefix, seen, Walk(here + below.out, below.seen), [Stop(ident, [], [])] + stops)
  {
    hide VerbRoutes, At, IsFirstFrom;
    var first := Stop(ident, [], []);
    var r := [first] + stops;
    assert r[1..] == stops;
    assert IsFirstTrail(file, ident, [], ident, seen);
    forall i | 0 < i < |r| ensures IsFirstStop(file, ident, r[i], seen) {
      var t := r[i].trail;
      assert r[i] == stops[i - 1] && IsFirstMounted(file, At(file, ident).mounts, r[i], seen + {ident});
      assert r[i].ident != ident by { assert Names(stops, r[i].ident); }
      assert t == [t[0]] + t[1..];
      FirstFromIsFirst(file, ident, t[0], t[1..], r[i].ident, seen);
    }
    forall v ensures Names(r, v) <==> v == ident || Names(stops, v) {
      assert r[0].ident == ident;
      forall i | 0 <= i < |stops| ensures r[i + 1] == stops[i] {}
    }
  }

  lemma {:induction false} MountedLists(file: File, mounts: seq<Mount>, prefix: string, seen: set<string>)
    returns (stops: seq<Stop>)
    ensures IsMountListing(file, mounts, prefix, seen, Mounted(file, mounts, prefix, seen), stops)
    decreases |file.Keys - seen|, |mounts|
  {
    hide IsListing, IsMountListing, Declared, DeclaredOnce, MountsSeen;
    if mounts == [] {
      stops := [];
      NoMountsListed(file, prefix, seen);
    } else {
      var sub := JoinPath(prefix, mounts[0].path);
      var first := Declared(file, mounts[0].ident, sub, seen);
      Shrink(file.Keys, seen, first.seen);
      var here := DeclaredLists(file, mounts[0].ident, sub, seen);
      var later := MountedLists(file, mounts[1..], prefix, first.seen);
      forall u | u in first.seen && u !in seen ensures MountsSeen(file, u, first.seen) {
        DeclaredIsOnce(file, mounts[0].ident, sub, seen, u);
        OnceMountsSeen(file, mounts[0].ident, sub, seen, first, u);
      }
      stops := Under(mounts[0], here) + Later(later);
      OneMountListed(file, mounts, prefix, seen, first, Mounted(file, mounts[1..], prefix, first.seen), here, later);
    }
  }

  lemma UnderIsFirst(file: File, mounts: seq<Mount>, stop: Stop, seen: set<string>)
    requires mounts != [] && IsFirstStop(file, mounts[0].ident, stop, seen)
    ensures IsFirstMounted(file, mounts, Stop(stop.ident, [0] + stop.trail, [mounts[0]] + stop.chain), seen)
  {
    hide IsTrail, MountsAlong, TrailLe;
    assert ([0] + stop.trail)[1..] == stop.trail;
  }

  lemma LaterIsFirst(file: File, mounts: seq<Mount>, stop: Stop, seen: set<string>, seen': set<string>)
    requires mounts != [] && seen <= seen' && mounts[0].ident in seen' && stop.ident !in seen'
    requires forall u :: u in seen' && u !in seen ==> MountsSeen(file, u, seen')
    requires IsFirstMounted(file, mounts[1..], stop, seen')
    ensures IsFirstMounted(file, mounts, stop.(trail := Shifted(stop.trail)), seen)
  {
    hide IsTrail, MountsAlong, TrailLe, MountsSeen;
    var p, trail := stop.trail[0], stop.trail[1..];
    LaterMountIsFirst(file, mounts, p, trail, stop.ident, seen, seen');
    assert Shifted(stop.trail)[1..] == trail;
  }

  lemma OneMountListed(file: File, mounts: seq<Mount>, prefix: string, seen: set<string>, first: Walk, rest: Walk,
                       here: seq<Stop>, later: seq<Stop>)
    requires mounts != [] && seen <= first.seen <= rest.seen && mounts[0].ident in first.seen
    requires forall u :: u in first.seen && u !in seen ==> MountsSeen(file, u, first.seen)
    requires IsListing(file, mounts[0].ident, JoinPath(prefix, mounts[0].path), seen, first, here)
    requires IsMountListing(file, mounts[1..], prefix, first.seen, rest, later)
    ensures IsMountListing(file, mounts, prefix, seen, Walk(first.out + rest.out, rest.seen),
                           Under(mounts[0], here) + Later(later))
  {
    hide JoinPath, Expand, IsFirstStop, IsFirstFrom, MountsSeen, InOrder, Names, Shifted, Under, Later, ChainFrom;
    var m := mounts[0];
    var r := Under(m, here) + Later(later);
    ExpandSum(file, prefix, Under(m, here), Later(later));
    ExpandUnder(file, prefix, m, here);
    ExpandLater(file, prefix, later);
    ListsInOrder(m, here, later);
    forall v ensures Names(r, v) <==> Names(here, v) || Names(later, v) {
      NamesSum(m, here, later, v);
    }
    forall i | 0 <= i < |r| ensures IsFirstMounted(file, mounts, r[i], seen) {
      if i < |here| {
        UnderIsFirst(file, mounts, here[i], seen);
      } else {
        NamesOf(later, i - |here|);
        LaterIsFirst(file, mounts, later[i - |here|], seen, first.seen);
      }
    }
  }

  lemma NamesOf(stops: seq<Stop>, i: nat)
    requires i < |stops|
    ensures Names(stops, stops[i].ident)
  {}

  // ----- the whole output ------------------------------------------------------------------------

  // Every router reachable from the root, at its first trail, in dictionary order of the trails.
  ghost predicate IsRoll(file: File, root: string, stops: seq<Stop>) {
    && InOrder(stops)
    && (forall i :: 0 <= i < |stops| ==> IsFirstStop(file, root, stops[i], {}))
    && (forall v :: Reaches(file, root, v) <==> Names(stops, v))
  }

  /** The walk's whole output is one block of routes for each reachable router, in dictionary order of first trails. */
  lemma WalkIsInOrder(file: File, root: string, prefix: string) returns (stops: seq<Stop>)
    ensures IsRoll(file, root, stops)
    ensures Declared(file, root, prefix, {}).out == Expand(file, prefix, stops)
  {
    hide Declared, InOrder, IsFirstStop, Reaches, Names, Expand;
    stops := DeclaredLists(file, root, prefix, {});
    forall v ensures Reaches(file, root, v) <==> v in Declared(file, root, prefix, {}).seen {
      WalkSeesTheReachable(file, root, prefix, v);
    }
  }

  lemma HeadsAgree(s: seq<Stop>, t: seq<Stop>)
    requires InOrder(s) && InOrder(t) && s != [] && (forall stop :: stop in s <==> stop in t)
    ensures t != [] && s[0] == t[0]
  {
    hide TrailLe;
    assert s[0] in t && t[0] in s;
    var i :| 0 <= i < |s| && s[i] == t[0];
    var j :| 0 <= j < |t| && t[j] == s[0];
    if i > 0 && j > 0 {
      assert Before(s[0].trail, s[i].trail) && Before(t[0].trail, t[j].trail);
      TrailLeAntisymmetric(s[0].trail, t[0].trail);
    }
  }

  lemma {:induction false} SameStops(s: seq<Stop>, t: seq<Stop>)
    requires InOrder(s) && InOrder(t) && forall stop :: stop in s <==> stop in t
    ensures s == t
  {
    hide TrailLe;
    if s == [] {
      if t != [] { HeadsAgree(t, s); }
    } else {
      HeadsAgree(s, t);
      assert s[0] !in s[1..] && t[0] !in t[1..];
      assert s == [s[0]] + s[1..] && t == [t[0]] + t[1..];
      forall stop ensures stop in s[1..] <==> stop in s && stop != s[0] {}
      forall stop ensures stop in t[1..] <==> stop in t && stop != t[0] {}
      SameStops(s[1..], t[1..]);
    }
  }

  lemma StopIsIn(file: File, root: string, s: seq<Stop>, t: seq<Stop>, i: nat)
    requires IsRoll(file, root, s) && IsRoll(file, root, t) && i < |s|
    ensures s[i] in t
  {
    hide InOrder, Reaches, IsFirstTrail;
    NamesOf(s, i);
    var j :| 0 <= j < |t| && t[j].ident == s[i].ident;
    FirstTrailIsUnique(file, root, s[i].trail, t[j].trail, s[i].ident, {});
  }

  /** A file has only one such roll, so the walk's output is determined, route by route. */
  lemma RollIsUnique(file: File, root: string, s: seq<Stop>, t: seq<Stop>)
    requires IsRoll(file, root, s) && IsRoll(file, root, t)
    ensures s == t
  {
    hide IsFirstStop, Reaches, InOrder, Names;
    forall stop ensures stop in s <==> stop in t {
      if stop in s { var i :| 0 <= i < |s| && s[i] == stop; StopIsIn(file, root, s, t, i); }
      if stop in t { var i :| 0 <= i < |t| && t[i] == stop; StopIsIn(file, root, t, s, i); }
    }
    SameStops(s, t);
  }
}
