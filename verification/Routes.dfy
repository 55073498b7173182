/** The wiring checker's route table: routers mounted on routers, walked once each, with composed paths. */
module Routes {

  datatype Verb = Verb(httpMethod: string, path: string)

  datatype Mount = Mount(path: string, ident: string)

  // What a file's text declares for one identifier, in the order of the text.
  datatype Router = Router(verbs: seq<Verb>, mounts: seq<Mount>)

  // A file: identifiers to declarations. The mounts may form cycles and may name identifiers the file lacks.
  type File = map<string, Router>

  datatype Route = Route(httpMethod: string, path: string, ident: string)

  // ----- joining paths -----------------------------------------------------------------

  function StripSlash(p: string): string {
    if p != "" && p[|p| - 1] == '/' then p[..|p| - 1] else p
  }

  function JoinPath(prefix: string, sub: string): string {
    var a := if prefix == "/" then "" else StripSlash(prefix);
    var b := if sub == "/" then "" else sub;
    var joined := a + (if b != "" && b[0] == '/' then "" else "/") + b;
    if joined == "" then "/" else joined
  }

  // A path with its leading slash.
  function Rooted(p: string): string { if p != "" && p[0] == '/' then p else "/" + p }

  lemma JoinPathIs(p: string, q: string)
    ensures JoinPath(p, q) == StripSlash(p) + Rooted(q)
  {
    if p == "/" { assert StripSlash(p) == ""; }
    var a, b := StripSlash(p), if q == "/" then "" else q;
    if b != "" && b[0] == '/' {
      assert a + "" + b == a + b;
    } else {
      assert a + "/" + b == a + ("/" + b);
      assert q == "/" ==> "/" + b == Rooted(q);
    }
  }

  lemma StripSlashOfSum(p: string, q: string)
    requires q != ""
    ensures StripSlash(p + q) == p + StripSlash(q)
  {
    assert (p + q)[|p + q| - 1] == q[|q| - 1];
    assert (p + q)[..|p + q| - 1] == p + q[..|q| - 1];
  }

  /** Joining is associative, so prefixes may be composed from either end. */
  lemma JoinPathAssociative(p: string, q: string, r: string)
    ensures JoinPath(JoinPath(p, q), r) == JoinPath(p, JoinPath(q, r))
  {
    hide JoinPath, StripSlash, Rooted;
    JoinPathIs(p, q);
    JoinPathIs(q, r);
    JoinPathIs(JoinPath(p, q), r);
    JoinPathIs(p, JoinPath(q, r));
    RootedIs(q);
    RootedIs(r);
    StripSlashOfSum(StripSlash(p), Rooted(q));
    RootedMiddle(q, Rooted(r));
    var a, b, c := StripSlash(p), StripSlash(Rooted(q)), Rooted(r);
    assert (a + b) + c == a + (b + c);
  }

  lemma RootedIs(q: string)
    ensures Rooted(q) != "" && Rooted(q)[0] == '/'
  {}

  lemma RootedMiddle(q: string, r: string)
    requires r != "" && r[0] == '/'
    ensures Rooted(StripSlash(q) + r) == StripSlash(Rooted(q)) + r
  {
    var s := StripSlash(q);
    if s == "" {
      assert s + r == r;
      assert Rooted(q) == "/" && StripSlash("/") == "";
    } else if q[0] != '/' {
      StripSlashOfSum("/", q);
      assert (s + r)[0] == q[0];
      assert "/" + (s + r) == ("/" + s) + r;
    }
  }

  /** Between a prefix and a path there is one slash, whichever of the two brings it. */
  lemma JoinPathHasOneSlash(p: string, q: string)
    requires p != "" ==> p[|p| - 1] != '/'
    requires q != "" && q[0] == '/'
    ensures JoinPath(p, q) == p + q && JoinPath(p + "/", q) == p + q
  {
    assert StripSlash(p) == p;
    assert StripSlash(p + "/") == p by { assert (p + "/")[..|p|] == p; }
    JoinPathIs(p, q);
    JoinPathIs(p + "/", q);
  }

  lemma JoinPathAddsSlash(p: string, q: string)
    requires q == "" || q[0] != '/'
    ensures JoinPath(p, q) == JoinPath(p, "/" + q)
  {
    JoinPathIs(p, q);
    JoinPathIs(p, "/" + q);
  }

  // ----- the walk --------------------------------------------------------------------------

  function At(file: File, ident: string): Router {
    if ident in file then file[ident] else Router([], [])
  }

  function VerbRoutes(verbs: seq<Verb>, ident: string, prefix: string): (r: seq<Route>)
    ensures |r| == |verbs|
    ensures forall i :: 0 <= i < |verbs| ==> r[i] == Route(verbs[i].httpMethod, JoinPath(prefix, verbs[i].path), ident)
  {
    seq(|verbs|, i requires 0 <= i < |verbs| => Route(verbs[i].httpMethod, JoinPath(prefix, verbs[i].path), ident))
  }

  // The routes found, and every identifier seen so far.
  datatype Walk = Walk(out: seq<Route>, seen: set<string>)

  function Declared(file: File, ident: string, prefix: string, seen: set<string>): (w: Walk)
    ensures seen <= w.seen && ident in w.seen
    decreases |file.Keys - seen|, 0
  {
    if ident in seen then Walk([], seen)
    else
      var here := VerbRoutes(At(file, ident).verbs, ident, prefix);
      if ident !in file then Walk(here, seen + {ident})
      else
        Shrinks(file.Keys, seen, seen + {ident}, ident);
        var below := Mounted(file, file[ident].mounts, prefix, seen + {ident});
        Walk(here + below.out, below.seen)
  }

  function Mounted(file: File, mounts: seq<Mount>, prefix: string, seen: set<string>): (w: Walk)
    ensures seen <= w.seen && forall m :: m in mounts ==> m.ident in w.seen
    decreases |file.Keys - seen|, |mounts|
  {
    if mounts == [] then Walk([], seen)
    else
      var first := Declared(file, mounts[0].ident, JoinPath(prefix, mounts[0].path), seen);
      Shrink(file.Keys, seen, first.seen);
      var rest := Mounted(file, mounts[1..], prefix, first.seen);
      Walk(first.out + rest.out, rest.seen)
  }

  lemma Shrink(keys: set<string>, s: set<string>, t: set<string>)
    requires s <= t
    ensures |keys - t| <= |keys - s|
  {
    Cardinality(keys - t, keys - s);
  }

  lemma Shrinks(keys: set<string>, s: set<string>, t: set<string>, x: string)
    requires s <= t && x in keys && x !in s && x in t
    ensures |keys - t| < |keys - s|
  {
    Cardinality(keys - t, keys - s - {x});
  }

  lemma {:induction false} Cardinality(s: set<string>, t: set<string>)
    requires s <= t
    ensures |s| <= |t|
  {
    if s != {} {
      var x :| x in s;
      Cardinality(s - {x}, t - {x});
    }
  }

  // The set of keys the recursive calls share and add to.
  class Seen {
    var idents: set<string>

    constructor ()
      ensures idents == {}
    {
      idents := {};
    }
  }

  method DeclaredIn(file: File, ident: string, prefix: string, seen: Seen) returns (out: seq<Route>)
    modifies seen
    ensures Walk(out, seen.idents) == Declared(file, ident, prefix, old(seen.idents))
    decreases |file.Keys - seen.idents|
  {
    hide JoinPath, Declared, Mounted, VerbRoutes, IsCompletedBy;
    OneCall(file, ident, prefix, seen.idents);
    out := [];
    if ident in seen.idents {
      return;
    }
    seen.idents := seen.idents + {ident};
    var router := At(file, ident);
    ghost var here := VerbRoutes(router.verbs, ident, prefix);
    for i := 0 to |router.verbs|
      invariant out == here[..i] && seen.idents == old(seen.idents) + {ident}
    {
      var verb := router.verbs[i];
      out := out + [Route(verb.httpMethod, JoinPath(prefix, verb.path), ident)];
    }
    ghost var whole := Mounted(file, router.mounts, prefix, seen.idents);
    ghost var below: seq<Route> := [];
    assert router.mounts[0..] == router.mounts;
    AllMountsLeft(file, router.mounts, prefix, seen.idents);
    for i := 0 to |router.mounts|
      invariant old(seen.idents) + {ident} <= seen.idents
      invariant out == here + below
      invariant IsCompletedBy(whole, below, file, router.mounts[i..], prefix, seen.idents)
    {
      var mount := router.mounts[i];
      assert router.mounts[i..][1..] == router.mounts[i + 1..];
      Shrinks(file.Keys, old(seen.idents), seen.idents, ident);
      OneMountLess(whole, below, file, router.mounts[i..], prefix, seen.idents);
      var sub := DeclaredIn(file, mount.ident, JoinPath(prefix, mount.path), seen);
      below := below + sub;
      out := out + sub;
    }
    NoMountLeft(whole, below, file, prefix, seen.idents);
  }

  lemma OneCall(file: File, ident: string, prefix: string, seen: set<string>)
    ensures ident in seen ==> Declared(file, ident, prefix, seen) == Walk([], seen)
    ensures ident !in seen ==>
              var below := Mounted(file, At(file, ident).mounts, prefix, seen + {ident});
              Declared(file, ident, prefix, seen) ==
              Walk(VerbRoutes(At(file, ident).verbs, ident, prefix) + below.out, below.seen)
  {}

  // What the loop has found so far, completed by the mounts still to come, is the whole walk.
  ghost predicate IsCompletedBy(whole: Walk, below: seq<Route>, file: File, mounts: seq<Mount>, prefix: string,
                                seen: set<string>) {
    var rest := Mounted(file, mounts, prefix, seen);
    whole == Walk(below + rest.out, rest.seen)
  }

  lemma AllMountsLeft(file: File, mounts: seq<Mount>, prefix: string, seen: set<string>)
    ensures IsCompletedBy(Mounted(file, mounts, prefix, seen), [], file, mounts, prefix, seen)
  {}

  lemma NoMountLeft(whole: Walk, below: seq<Route>, file: File, prefix: string, seen: set<string>)
    requires IsCompletedBy(whole, below, file, [], prefix, seen)
    ensures whole == Walk(below, seen)
  {}

  lemma OneMountLess(whole: Walk, below: seq<Route>, file: File, mounts: seq<Mount>, prefix: string, seen: set<string>)
    requires mounts != [] && IsCompletedBy(whole, below, file, mounts, prefix, seen)
    ensures var w := Declared(file, mounts[0].ident, JoinPath(prefix, mounts[0].path), seen);
            IsCompletedBy(whole, below + w.out, file, mounts[1..], prefix, w.seen)
  {
    hide JoinPath, Declared;
    var w := Declared(file, mounts[0].ident, JoinPath(prefix, mounts[0].path), seen);
    var rest := Mounted(file, mounts[1..], prefix, w.seen);
    assert below + (w.out + rest.out) == below + w.out + rest.out;
  }

  // ----- reachability ------------------------------------------------------------------------

  ghost predicate IsChain(file: File, from: string, chain: seq<Mount>, to: string)
    decreases |chain|
  {
    if chain == [] then from == to
    else chain[0] in At(file, from).mounts && IsChain(file, chain[0].ident, chain[1..], to)
  }

  ghost predicate Reaches(file: File, from: string, to: string) {
    exists chain :: IsChain(file, from, chain, to)
  }

  // The prefix a router gets when it is reached along a chain of mounts.
  function PrefixAlong(prefix: string, chain: seq<Mount>): string
    decreases |chain|
  {
    if chain == [] then prefix else PrefixAlong(JoinPath(prefix, chain[0].path), chain[1..])
  }

  function RoutesOf(out: seq<Route>, ident: string): seq<Route> {
    if out == [] then []
    else RoutesOf(out[..|out| - 1], ident) + (if out[|out| - 1].ident == ident then [out[|out| - 1]] else [])
  }

  // Exactly one expansion of v: all of its verbs, in order, under the prefix of one chain of mounts.
  ghost predicate IsExpanded(file: File, out: seq<Route>, prefix: string, chain: seq<Mount>, v: string) {
    RoutesOf(out, v) == VerbRoutes(At(file, v).verbs, v, PrefixAlong(prefix, chain))
  }

  ghost predicate MountsSeen(file: File, v: string, seen: set<string>) {
    forall m: Mount :: m in At(file, v).mounts ==> m.ident in seen
  }

  // A trail gives, router by router, the position of the mount taken. It meets no router twice and none in `avoid`.
  ghost predicate IsTrail(file: File, from: string, trail: seq<nat>, to: string, avoid: set<string>)
    decreases |trail|
  {
    && from !in avoid
    && if trail == [] then from == to
       else trail[0] < |At(file, from).mounts|
            && IsTrail(file, At(file, from).mounts[trail[0]].ident, trail[1..], to, avoid + {from})
  }

  // The mounts at a trail's positions.
  function MountsAlong(file: File, from: string, trail: seq<nat>): seq<Mount>
    decreases |trail|
  {
    if trail == [] || trail[0] >= |At(file, from).mounts| then []
    else
      var m := At(file, from).mounts[trail[0]];
      [m] + MountsAlong(file, m.ident, trail[1..])
  }

  // Dictionary order on positions.
  predicate TrailLe(s: seq<nat>, t: seq<nat>)
    decreases |s|
  {
    if s == [] then true
    else if t == [] then false
    else s[0] < t[0] || (s[0] == t[0] && TrailLe(s[1..], t[1..]))
  }

  ghost predicate IsFirstTrail(file: File, from: string, trail: seq<nat>, to: string, avoid: set<string>) {
    && IsTrail(file, from, trail, to, avoid)
    && forall other: seq<nat> :: IsTrail(file, from, other, to, avoid) ==> TrailLe(trail, other)
  }

  // A router the walk adds to the set is expanded once, under the prefix of its first trail; any other yields no route.
  ghost predicate DeclaredOnce(file: File, ident: string, prefix: string, seen: set<string>, w: Walk, v: string) {
    if v in w.seen && v !in seen then
      && (exists trail: seq<nat> :: IsFirstTrail(file, ident, trail, v, seen)
                                    && IsExpanded(file, w.out, prefix, MountsAlong(file, ident, trail), v))
      && MountsSeen(file, v, w.seen)
    else RoutesOf(w.out, v) == []
  }

  // The same for a list of mounts: the trail starts at position p of the list.
  ghost predicate StartsAt(file: File, mounts: seq<Mount>, p: nat, trail: seq<nat>, to: string, avoid: set<string>) {
    p < |mounts| && IsTrail(file, mounts[p].ident, trail, to, avoid)
  }

  ghost predicate IsFirstFrom(file: File, mounts: seq<Mount>, p: nat, trail: seq<nat>, to: string, avoid: set<string>) {
    && StartsAt(file, mounts, p, trail, to, avoid)
    && forall q: nat, other: seq<nat> :: StartsAt(file, mounts, q, other, to, avoid) ==>
         p < q || (p == q && TrailLe(trail, other))
  }

  function ChainFrom(file: File, m: Mount, trail: seq<nat>): seq<Mount> { [m] + MountsAlong(file, m.ident, trail) }

  ghost predicate MountedOnce(file: File, mounts: seq<Mount>, prefix: string, seen: set<string>, w: Walk, v: string) {
    if v in w.seen && v !in seen then
      && (exists p: nat, trail: seq<nat> ::
            IsFirstFrom(file, mounts, p, trail, v, seen)
            && IsExpanded(file, w.out, prefix, ChainFrom(file, mounts[p], trail), v))
      && MountsSeen(file, v, w.seen)
    else RoutesOf(w.out, v) == []
  }

  lemma {:induction false} RoutesOfSum(s: seq<Route>, t: seq<Route>, v: string)
    ensures RoutesOf(s + t, v) == RoutesOf(s, v) + RoutesOf(t, v)
  {
    if t == [] {
      assert s + t == s;
    } else {
      assert (s + t)[..|s + t| - 1] == s + t[..|t| - 1];
      RoutesOfSum(s, t[..|t| - 1], v);
    }
  }

  lemma {:induction false} RoutesOfOne(s: seq<Route>, ident: string, v: string)
    requires forall i :: 0 <= i < |s| ==> s[i].ident == ident
    ensures RoutesOf(s, v) == if v == ident then s else []
  {
    if s != [] {
      RoutesOfOne(s[..|s| - 1], ident, v);
      assert s == s[..|s| - 1] + [s[|s| - 1]];
    }
  }

  lemma {:induction false} DeclaredIsOnce(file: File, ident: string, prefix: string, seen: set<string>, v: string)
    ensures DeclaredOnce(file, ident, prefix, seen, Declared(file, ident, prefix, seen), v)
    decreases |file.Keys - seen|, 0
  {
    hide DeclaredOnce, MountedOnce, VerbRoutes;
    if ident in seen {
      NothingDeclared(file, ident, prefix, seen, v);
    } else if ident in file {
      Shrinks(file.Keys, seen, seen + {ident}, ident);
      MountedIsOnce(file, file[ident].mounts, prefix, seen + {ident}, v);
      ExpandedHere(file, ident, prefix, seen, Mounted(file, file[ident].mounts, prefix, seen + {ident}), v);
    } else {
      NothingMounted(file, prefix, seen + {ident}, v);
      ExpandedHere(file, ident, prefix, seen, Walk([], seen + {ident}), v);
      assert VerbRoutes([], ident, prefix) + [] == VerbRoutes([], ident, prefix);
    }
  }

  lemma NothingDeclared(file: File, ident: string, prefix: string, seen: set<string>, v: string)
    ensures DeclaredOnce(file, ident, prefix, seen, Walk([], seen), v)
  {}

  lemma ExpandedHere(file: File, ident: string, prefix: string, seen: set<string>, below: Walk, v: string)
    requires ident !in seen && seen + {ident} <= below.seen
    requires MountedOnce(file, At(file, ident).mounts, prefix, seen + {ident}, below, v)
    requires MountsSeen(file, ident, below.seen)
    ensures var here := VerbRoutes(At(file, ident).verbs, ident, prefix);
            DeclaredOnce(file, ident, prefix, seen, Walk(here + below.out, below.seen), v)
  {
    hide JoinPath, VerbRoutes, At, RoutesOf;
    var here := VerbRoutes(At(file, ident).verbs, ident, prefix);
    var out := here + below.out;
    RoutesOfSum(here, below.out, v);
    RoutesOfOne(here, ident, v);
    if v == ident {
      assert IsFirstTrail(file, ident, [], v, seen) && MountsAlong(file, ident, []) == [];
      assert IsExpanded(file, out, prefix, [], v);
    } else if v in below.seen && v !in seen {
      var mounts := At(file, ident).mounts;
      var p: nat, trail: seq<nat> :| IsFirstFrom(file, mounts, p, trail, v, seen + {ident})
                                     && IsExpanded(file, below.out, prefix, ChainFrom(file, mounts[p], trail), v);
      FirstFromIsFirst(file, ident, p, trail, v, seen);
      assert IsExpanded(file, out, prefix, ChainFrom(file, mounts[p], trail), v);
    }
  }

  lemma FirstFromIsFirst(file: File, ident: string, p: nat, trail: seq<nat>, v: string, seen: set<string>)
    requires ident !in seen && v != ident && IsFirstFrom(file, At(file, ident).mounts, p, trail, v, seen + {ident})
    ensures IsFirstTrail(file, ident, [p] + trail, v, seen)
    ensures MountsAlong(file, ident, [p] + trail) == ChainFrom(file, At(file, ident).mounts[p], trail)
  {
    hide At;
    assert ([p] + trail)[1..] == trail;
    forall other: seq<nat> | IsTrail(file, ident, other, v, seen) ensures TrailLe([p] + trail, other) {
      assert other != [];
      var q, rest := other[0], other[1..];
      assert StartsAt(file, At(file, ident).mounts, q, rest, v, seen + {ident});
      assert p < q || (p == q && TrailLe(trail, rest));
      assert ([p] + trail)[0] == p;
    }
  }

  lemma {:induction false} MountedIsOnce(file: File, mounts: seq<Mount>, prefix: string, seen: set<string>, v: string)
    ensures MountedOnce(file, mounts, prefix, seen, Mounted(file, mounts, prefix, seen), v)
    decreases |file.Keys - seen|, |mounts|
  {
    hide DeclaredOnce, MountedOnce, MountsSeen;
    if mounts == [] {
      NothingMounted(file, prefix, seen, v);
    } else {
      var sub := JoinPath(prefix, mounts[0].path);
      var first := Declared(file, mounts[0].ident, sub, seen);
      Shrink(file.Keys, seen, first.seen);
      DeclaredIsOnce(file, mounts[0].ident, sub, seen, v);
      forall u | u in first.seen && u !in seen ensures MountsSeen(file, u, first.seen) {
        DeclaredIsOnce(file, mounts[0].ident, sub, seen, u);
        OnceMountsSeen(file, mounts[0].ident, sub, seen, first, u);
      }
      MountedIsOnce(file, mounts[1..], prefix, first.seen, v);
      OneMountMore(file, mounts, prefix, seen, first, Mounted(file, mounts[1..], prefix, first.seen), v);
    }
  }

  lemma OnceMountsSeen(file: File, ident: string, prefix: string, seen: set<string>, w: Walk, u: string)
    requires u in w.seen && u !in seen && DeclaredOnce(file, ident, prefix, seen, w, u)
    ensures MountsSeen(file, u, w.seen)
  {}

  lemma NothingMounted(file: File, prefix: string, seen: set<string>, v: string)
    ensures MountedOnce(file, [], prefix, seen, Walk([], seen), v)
  {}

  lemma OneMountMore(file: File, mounts: seq<Mount>, prefix: string, seen: set<string>,
                     first: Walk, rest: Walk, v: string)
    requires mounts != [] && seen <= first.seen <= rest.seen && mounts[0].ident in first.seen
    requires forall u :: u in first.seen && u !in seen ==> MountsSeen(file, u, first.seen)
    requires DeclaredOnce(file, mounts[0].ident, JoinPath(prefix, mounts[0].path), seen, first, v)
    requires MountedOnce(file, mounts[1..], prefix, first.seen, rest, v)
    ensures MountedOnce(file, mounts, prefix, seen, Walk(first.out + rest.out, rest.seen), v)
  {
    hide JoinPath, VerbRoutes, RoutesOf, At, IsTrail, MountsSeen;
    var m, out := mounts[0], first.out + rest.out;
    RoutesOfSum(first.out, rest.out, v);
    MoreSeen(file, v, first.seen, rest.seen);
    if v in first.seen && v !in seen {
      var trail: seq<nat> :| IsFirstTrail(file, m.ident, trail, v, seen)
                             && IsExpanded(file, first.out, JoinPath(prefix, m.path),
                                           MountsAlong(file, m.ident, trail), v);
      var chain := ChainFrom(file, m, trail);
      assert chain[1..] == MountsAlong(file, m.ident, trail);
      assert IsFirstFrom(file, mounts, 0, trail, v, seen) && IsExpanded(file, out, prefix, chain, v);
    } else if v in rest.seen && v !in seen {
      var p: nat, trail: seq<nat> :| IsFirstFrom(file, mounts[1..], p, trail, v, first.seen)
                                     && IsExpanded(file, rest.out, prefix, ChainFrom(file, mounts[1..][p], trail), v);
      LaterMountIsFirst(file, mounts, p, trail, v, seen, first.seen);
      assert IsExpanded(file, out, prefix, ChainFrom(file, mounts[p + 1], trail), v);
    }
  }

  lemma MoreSeen(file: File, v: string, s: set<string>, t: set<string>)
    requires s <= t
    ensures MountsSeen(file, v, s) ==> MountsSeen(file, v, t)
  {}

  // What the first mount has added is closed, so no trail to a router outside it passes through it.
  lemma LaterMountIsFirst(file: File, mounts: seq<Mount>, p: nat, trail: seq<nat>, v: string,
                          seen: set<string>, seen': set<string>)
    requires mounts != [] && seen <= seen' && mounts[0].ident in seen' && v !in seen'
    requires forall u :: u in seen' && u !in seen ==> MountsSeen(file, u, seen')
    requires IsFirstFrom(file, mounts[1..], p, trail, v, seen')
    ensures IsFirstFrom(file, mounts, p + 1, trail, v, seen)
  {
    hide IsTrail, MountsSeen;
    assert mounts[1..][p] == mounts[p + 1];
    AvoidLess(file, mounts[p + 1].ident, trail, v, seen', seen);
    forall q: nat, other: seq<nat> | StartsAt(file, mounts, q, other, v, seen)
      ensures p + 1 < q || (p + 1 == q && TrailLe(trail, other))
    {
      TrailAvoidsClosed(file, mounts[q].ident, other, v, seen, seen, seen');
      assert seen + seen' == seen';
      assert q > 0;
      assert StartsAt(file, mounts[1..], q - 1, other, v, seen');
    }
  }

  lemma {:induction false} AvoidLess(file: File, from: string, trail: seq<nat>, to: string,
                                     more: set<string>, less: set<string>)
    requires less <= more && IsTrail(file, from, trail, to, more)
    ensures IsTrail(file, from, trail, to, less)
    decreases |trail|
  {
    if trail != [] {
      AvoidLess(file, At(file, from).mounts[trail[0]].ident, trail[1..], to, more + {from}, less + {from});
    }
  }

  // A trail that steps into a closed set stays there, so one that ends outside never stepped in.
  lemma {:induction false} TrailAvoidsClosed(file: File, from: string, trail: seq<nat>, to: string,
                                             avoid: set<string>, seen: set<string>, closed: set<string>)
    requires seen <= avoid && to !in closed && IsTrail(file, from, trail, to, avoid)
    requires forall u :: u in closed && u !in seen ==> MountsSeen(file, u, closed)
    ensures from !in closed && IsTrail(file, from, trail, to, avoid + closed)
    decreases |trail|
  {
    if trail != [] {
      var m := At(file, from).mounts[trail[0]];
      TrailAvoidsClosed(file, m.ident, trail[1..], to, avoid + {from}, seen, closed);
      assert avoid + {from} + closed == avoid + closed + {from};
      assert m in At(file, from).mounts;
    }
  }

  lemma {:induction false} TrailIsChain(file: File, from: string, trail: seq<nat>, to: string, avoid: set<string>)
    requires IsTrail(file, from, trail, to, avoid)
    ensures IsChain(file, from, MountsAlong(file, from, trail), to)
    decreases |trail|
  {
    if trail != [] {
      var m := At(file, from).mounts[trail[0]];
      TrailIsChain(file, m.ident, trail[1..], to, avoid + {from});
      assert MountsAlong(file, from, trail)[1..] == MountsAlong(file, m.ident, trail[1..]);
    }
  }

  lemma {:induction false} ClosedHoldsChains(file: File, s: set<string>, from: string, chain: seq<Mount>, to: string)
    requires forall v :: v in s ==> MountsSeen(file, v, s)
    requires from in s && IsChain(file, from, chain, to)
    ensures to in s
    decreases |chain|
  {
    if chain != [] {
      ClosedHoldsChains(file, s, chain[0].ident, chain[1..], to);
    }
  }

  /** From a fresh set the walk sees exactly the routers reachable from the root, cycles or not. Each is expanded once,
      under the prefix of the one trail that comes first in dictionary order among all that meet no router twice. */
  lemma WalkSeesTheReachable(file: File, root: string, prefix: string, v: string)
    ensures var w := Declared(file, root, prefix, {});
            && (v in w.seen <==> Reaches(file, root, v))
            && (v in w.seen ==>
                  exists trail: seq<nat> :: IsFirstTrail(file, root, trail, v, {})
                                            && IsExpanded(file, w.out, prefix, MountsAlong(file, root, trail), v))
            && (v !in w.seen ==> RoutesOf(w.out, v) == [])
  {
    hide Declared, VerbRoutes, JoinPath, RoutesOf;
    var w := Declared(file, root, prefix, {});
    DeclaredIsOnce(file, root, prefix, {}, v);
    forall u | u in w.seen ensures MountsSeen(file, u, w.seen) {
      DeclaredIsOnce(file, root, prefix, {}, u);
    }
    if Reaches(file, root, v) {
      var chain :| IsChain(file, root, chain, v);
      ClosedHoldsChains(file, w.seen, root, chain, v);
    }
    if v in w.seen {
      var trail: seq<nat> :| IsFirstTrail(file, root, trail, v, {});
      TrailIsChain(file, root, trail, v, {});
    }
  }

  lemma {:induction false} TrailLeAntisymmetric(s: seq<nat>, t: seq<nat>)
    requires TrailLe(s, t) && TrailLe(t, s)
    ensures s == t
    decreases |s|
  {
    if s != [] {
      TrailLeAntisymmetric(s[1..], t[1..]);
      assert s == [s[0]] + s[1..] && t == [t[0]] + t[1..];
    }
  }

  /** There is only one first trail, so the walk leaves no router's prefix open. */
  lemma FirstTrailIsUnique(file: File, from: string, s: seq<nat>, t: seq<nat>, to: string, avoid: set<string>)
    requires IsFirstTrail(file, from, s, to, avoid) && IsFirstTrail(file, from, t, to, avoid)
    ensures s == t
  {
    TrailLeAntisymmetric(s, t);
  }

  // ----- prefixes ------------------------------------------------------------------------------

  // A path composed from the far end instead: subpaths joined first, the prefix last.
  function Below(chain: seq<Mount>, sub: string): string {
    if chain == [] then sub else JoinPath(chain[0].path, Below(chain[1..], sub))
  }

  /** Joining outward from the route gives the path that joining inward from the root gives. */
  lemma {:induction false} JoinOrderDoesNotMatter(prefix: string, chain: seq<Mount>, sub: string)
    ensures JoinPath(PrefixAlong(prefix, chain), sub) == JoinPath(prefix, Below(chain, sub))
    decreases |chain|
  {
    if chain != [] {
      JoinOrderDoesNotMatter(JoinPath(prefix, chain[0].path), chain[1..], sub);
      JoinPathAssociative(prefix, chain[0].path, Below(chain[1..], sub));
    }
  }

  function Rebased(p: string, out: seq<Route>): (r: seq<Route>)
    ensures |r| == |out|
    ensures forall i :: 0 <= i < |out| ==> r[i] == out[i].(path := JoinPath(p, out[i].path))
  {
    seq(|out|, i requires 0 <= i < |out| => out[i].(path := JoinPath(p, out[i].path)))
  }

  lemma RebasedSum(p: string, s: seq<Route>, t: seq<Route>)
    ensures Rebased(p, s + t) == Rebased(p, s) + Rebased(p, t)
  {}

  /** Mounting a router under a longer prefix prefixes every route it declares, and changes nothing else. */
  lemma {:induction false} DeclaredUnderPrefix(file: File, ident: string, p: string, q: string, seen: set<string>)
    ensures var w := Declared(file, ident, q, seen);
            Declared(file, ident, JoinPath(p, q), seen) == Walk(Rebased(p, w.out), w.seen)
    decreases |file.Keys - seen|, 0
  {
    if ident !in seen {
      var verbs := At(file, ident).verbs;
      forall i | 0 <= i < |verbs|
        ensures JoinPath(JoinPath(p, q), verbs[i].path) == JoinPath(p, JoinPath(q, verbs[i].path))
      {
        JoinPathAssociative(p, q, verbs[i].path);
      }
      assert VerbRoutes(verbs, ident, JoinPath(p, q)) == Rebased(p, VerbRoutes(verbs, ident, q));
      if ident in file {
        Shrinks(file.Keys, seen, seen + {ident}, ident);
        MountedUnderPrefix(file, file[ident].mounts, p, q, seen + {ident});
        RebasedSum(p, VerbRoutes(verbs, ident, q), Mounted(file, file[ident].mounts, q, seen + {ident}).out);
      }
    }
  }

  lemma {:induction false} MountedUnderPrefix(file: File, mounts: seq<Mount>, p: string, q: string, seen: set<string>)
    ensures var w := Mounted(file, mounts, q, seen);
            Mounted(file, mounts, JoinPath(p, q), seen) == Walk(Rebased(p, w.out), w.seen)
    decreases |file.Keys - seen|, |mounts|
  {
    if mounts != [] {
      var m := mounts[0];
      JoinPathAssociative(p, q, m.path);
      DeclaredUnderPrefix(file, m.ident, p, JoinPath(q, m.path), seen);
      var first := Declared(file, m.ident, JoinPath(q, m.path), seen);
      Shrink(file.Keys, seen, first.seen);
      MountedUnderPrefix(file, mounts[1..], p, q, first.seen);
      RebasedSum(p, first.out, Mounted(file, mounts[1..], q, first.seen).out);
    }
  }
}
