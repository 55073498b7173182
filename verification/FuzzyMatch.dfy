/** The command palette's fuzzy subsequence score and the ranking built on it. */
module FuzzyMatch {
  import opened Text

  // /[\s/\-_.]/
  predicate IsBoundary(c: char) { IsSpace(c) || c == '/' || c == '-' || c == '_' || c == '.' }

  // h.indexOf(c, from); the length of h stands for -1.
  function IndexFrom(h: string, c: char, from: nat): (i: nat)
    ensures from <= |h| ==> from <= i <= |h|
    ensures i < |h| ==> h[i] == c
    decreases |h| - from
  {
    if from >= |h| then |h| else if h[from] == c then from else IndexFrom(h, c, from + 1)
  }

  lemma {:induction false} IndexFromIsFirst(h: string, c: char, from: nat, k: nat)
    requires from <= k < |h| && h[k] == c
    ensures IndexFrom(h, c, from) <= k
    decreases k - from
  {
    if from < k { IndexFromIsFirst(h, c, from + 1, k); }
  }

  // What one hit adds, when the previous hit was just before `next`.
  function Penalty(h: string, found: nat, next: nat): nat
    requires found <= |h|
  {
    if found == next then 0 else if found > 0 && IsBoundary(h[found - 1]) then 1 else 3
  }

  function Penalties(n: string, h: string, next: nat): Option<nat>
    requires next <= |h|
  {
    if n == [] then Some(0)
    else
      var found := IndexFrom(h, n[0], next);
      if found >= |h| then None
      else match Penalties(n[1..], h, found + 1)
           case Some(p) => Some(Penalty(h, found, next) + p)
           case None => None
  }

  // In hundredths: the penalties, and a hundredth per character of the haystack.
  function Score(needle: string, haystack: string): Option<nat> {
    if needle == "" then Some(0)
    else match Penalties(Lower(needle), Lower(haystack), 0)
         case Some(p) => Some(100 * p + |haystack|)
         case None => None
  }

  function More(score: nat, rest: Option<nat>): Option<nat> {
    if rest.Some? then Some(score + rest.value) else None
  }

  lemma OneHit(n: string, h: string, hi: nat, score: nat)
    requires n != [] && hi <= |h|
    ensures var found := IndexFrom(h, n[0], hi);
            More(score, Penalties(n, h, hi)) ==
            if found >= |h| then None else More(score + Penalty(h, found, hi), Penalties(n[1..], h, found + 1))
  {}

  lemma ZeroMore(n: string, h: string)
    ensures Penalties(n, h, 0) == More(0, Penalties(n, h, 0)) && n[0..] == n
  {}

  lemma NothingLeft(h: string, hi: nat, score: nat)
    requires hi <= |h|
    ensures More(score, Penalties([], h, hi)) == Some(score)
  {}

  method Hunt(n: string, h: string) returns (r: Option<nat>)
    ensures r == Penalties(n, h, 0)
  {
    hide More, Penalties, IsBoundary;
    ZeroMore(n, h);
    var score: nat, hi: nat, lastHit := 0, 0, -1;
    for i := 0 to |n|
      invariant lastHit == hi - 1 && hi <= |h|
      invariant Penalties(n, h, 0) == More(score, Penalties(n[i..], h, hi))
    {
      OneHit(n[i..], h, hi, score);
      assert n[i..][0] == n[i] && n[i..][1..] == n[i + 1..];
      var found := IndexFrom(h, n[i], hi);
      if found >= |h| {
        return None;
      }
      if found == lastHit + 1 {
      } else if found > 0 && IsBoundary(h[found - 1]) {
        score := score + 1;
      } else {
        score := score + 3;
      }
      lastHit := found;
      hi := found + 1;
    }
    NothingLeft(h, hi, score);
    r := Some(score);
  }

  method FuzzyScore(needle: string, haystack: string) returns (r: Option<nat>)
    ensures r == Score(needle, haystack)
  {
    if needle == "" {
      return Some(0);
    }
    r := Hunt(Lower(needle), Lower(haystack));
    if r.Some? {
      r := Some(100 * r.value + |haystack|);
    }
  }

  // ----- what a match is -----------------------------------------------------------------

  // Positions in h, from `from` on, that spell n in order.
  ghost predicate IsEmbedding(e: seq<nat>, n: string, h: string, from: nat) {
    && |e| == |n|
    && (forall i :: 0 <= i < |e| ==> from <= e[i] < |h| && h[e[i]] == n[i])
    && (forall i, j :: 0 <= i < j < |e| ==> e[i] < e[j])
  }

  ghost predicate IsEmbedded(n: string, h: string) { exists e: seq<nat> :: IsEmbedding(e, n, h, 0) }

  function Hits(n: string, h: string, next: nat): seq<nat>
    requires next <= |h| && Penalties(n, h, next).Some?
  {
    if n == [] then []
    else
      var found := IndexFrom(h, n[0], next);
      [found] + Hits(n[1..], h, found + 1)
  }

  lemma {:induction false} HitsEmbed(n: string, h: string, next: nat)
    requires next <= |h| && Penalties(n, h, next).Some?
    ensures IsEmbedding(Hits(n, h, next), n, h, next)
  {
    if n != [] {
      var found := IndexFrom(h, n[0], next);
      HitsEmbed(n[1..], h, found + 1);
    }
  }

  // The greedy hits come no later, one by one, than those of any embedding, so an embedding is never missed.
  lemma {:induction false} GreedyIsEarliest(e: seq<nat>, n: string, h: string, next: nat)
    requires next <= |h| && IsEmbedding(e, n, h, next)
    ensures Penalties(n, h, next).Some?
    ensures forall i :: 0 <= i < |e| ==> |Hits(n, h, next)| == |e| && Hits(n, h, next)[i] <= e[i]
  {
    if n != [] {
      var found := IndexFrom(h, n[0], next);
      IndexFromIsFirst(h, n[0], next, e[0]);
      var rest := e[1..];
      assert forall i :: 0 <= i < |rest| ==> rest[i] == e[i + 1];
      assert IsEmbedding(rest, n[1..], h, found + 1);
      GreedyIsEarliest(rest, n[1..], h, found + 1);
      forall i | 0 <= i < |e| ensures |Hits(n, h, next)| == |e| && Hits(n, h, next)[i] <= e[i] {
        if i > 0 { assert e[i] == rest[i - 1]; }
      }
    }
  }

  lemma PenaltiesIffEmbedding(n: string, h: string)
    ensures Penalties(n, h, 0).Some? <==> IsEmbedded(n, h)
  {
    if Penalties(n, h, 0).Some? {
      HitsEmbed(n, h, 0);
      assert IsEmbedding(Hits(n, h, 0), n, h, 0);
    } else if IsEmbedded(n, h) {
      var e: seq<nat> :| IsEmbedding(e, n, h, 0);
      GreedyIsEarliest(e, n, h, 0);
      assert false;
    }
  }

  /** A score comes back exactly when the needle is a subsequence of the haystack, case aside. */
  lemma MatchesIffSubsequence(needle: string, haystack: string)
    requires needle != ""
    ensures Score(needle, haystack).Some? <==> IsEmbedded(Lower(needle), Lower(haystack))
  {
    hide IsEmbedded, Penalties;
    PenaltiesIffEmbedding(Lower(needle), Lower(haystack));
  }

  /** The positions scored are an embedding, and one by one the earliest any embedding has. */
  lemma HitsAreEarliest(needle: string, haystack: string, e: seq<nat>, i: nat)
    requires needle != "" && Score(needle, haystack).Some? && i < |needle|
    requires IsEmbedding(e, Lower(needle), Lower(haystack), 0)
    ensures var hits := Hits(Lower(needle), Lower(haystack), 0);
            IsEmbedding(hits, Lower(needle), Lower(haystack), 0) && hits[i] <= e[i]
  {
    HitsEmbed(Lower(needle), Lower(haystack), 0);
    GreedyIsEarliest(e, Lower(needle), Lower(haystack), 0);
  }

  // The characters a word may start after: white space, slash, dash, underscore and dot.
  predicate EndsWord(c: char) { c in SPACES || c in "/-_." }

  lemma BoundariesAre(c: char)
    ensures IsBoundary(c) <==> EndsWord(c)
  {
    SpacesAre(c);
  }

  // Of the hits from the k-th on: how many open a gap after a boundary, and how many open one elsewhere.
  function GapsAt(h: string, hits: seq<nat>, k: nat, boundary: bool): nat
    decreases |hits| - k
  {
    if k >= |hits| then 0
    else
      var gap := hits[k] != (if k == 0 then 0 else hits[k - 1] + 1);
      var after := 0 < hits[k] <= |h| && EndsWord(h[hits[k] - 1]);
      (if gap && after == boundary then 1 else 0) + GapsAt(h, hits, k + 1, boundary)
  }

  lemma {:induction false} GapsShift(h: string, hits: seq<nat>, k: nat, boundary: bool)
    requires 1 <= k <= |hits|
    ensures GapsAt(h, hits, k, boundary) == GapsFrom(h, hits[k..], hits[k - 1] + 1, boundary)
    decreases |hits| - k
  {
    if k < |hits| {
      GapsShift(h, hits, k + 1, boundary);
      assert hits[k..][1..] == hits[k + 1..];
    }
  }

  function GapsFrom(h: string, hits: seq<nat>, next: nat, boundary: bool): nat {
    if hits == [] then 0
    else
      var after := 0 < hits[0] <= |h| && EndsWord(h[hits[0] - 1]);
      (if hits[0] != next && after == boundary then 1 else 0) + GapsFrom(h, hits[1..], hits[0] + 1, boundary)
  }

  lemma {:induction false} PenaltiesCount(n: string, h: string, next: nat)
    requires next <= |h| && Penalties(n, h, next).Some?
    ensures var hits := Hits(n, h, next);
            Penalties(n, h, next).value == GapsFrom(h, hits, next, true) + 3 * GapsFrom(h, hits, next, false)
  {
    if n != [] {
      var found := IndexFrom(h, n[0], next);
      PenaltiesCount(n[1..], h, found + 1);
      if found > 0 { BoundariesAre(h[found - 1]); }
      assert Hits(n, h, next)[1..] == Hits(n[1..], h, found + 1);
    }
  }

  /** Beyond the length term, the score is one per gap that ends at a word boundary and three per other gap. */
  lemma ScoreCountsGaps(needle: string, haystack: string)
    requires needle != "" && Score(needle, haystack).Some?
    ensures var h := Lower(haystack);
            var hits := Hits(Lower(needle), h, 0);
            Score(needle, haystack).value ==
            |haystack| + 100 * GapsAt(h, hits, 0, true) + 300 * GapsAt(h, hits, 0, false)
  {
    var n, h := Lower(needle), Lower(haystack);
    var hits := Hits(n, h, 0);
    PenaltiesCount(n, h, 0);
    HitsEmbed(n, h, 0);
    forall boundary ensures GapsAt(h, hits, 0, boundary) == GapsFrom(h, hits, 0, boundary) {
      GapsShift(h, hits, 1, boundary);
    }
  }

  lemma {:induction false} PenaltiesBounds(n: string, h: string, next: nat)
    requires next <= |h| && Penalties(n, h, next).Some?
    ensures Penalties(n, h, next).value <= 3 * |n|
    ensures Penalties(n, h, next).value == 0 <==> n <= h[next..]
  {
    if n != [] {
      var found := IndexFrom(h, n[0], next);
      PenaltiesBounds(n[1..], h, found + 1);
      if found == next {
        assert h[next..] == [h[next]] + h[next + 1..];
        assert n == [n[0]] + n[1..];
      } else {
        assert h[next..][0] == h[next] != n[0];
      }
    }
  }

  /** The score lies between the length term and three more per needle character,
      and is the length term exactly on a prefix. */
  lemma ScoreBounds(needle: string, haystack: string)
    requires needle != "" && Score(needle, haystack).Some?
    ensures |haystack| <= Score(needle, haystack).value <= |haystack| + 300 * |needle|
    ensures Score(needle, haystack).value == |haystack| <==> Lower(needle) <= Lower(haystack)
  {
    var n, h := Lower(needle), Lower(haystack);
    PenaltiesBounds(n, h, 0);
    assert h[0..] == h;
  }

  // ----- ranking -------------------------------------------------------------------------

  const SHOWN: nat := 60

  datatype Item = Item(caption: string, detail: Option<string>)

  // A matching item, by its place in the list.
  datatype Entry = Entry(index: nat, score: nat)

  function Haystack(item: Item): string {
    item.caption + " " + (if item.detail.Some? then item.detail.value else "")
  }

  function Matching(items: seq<Item>, query: string): seq<Entry> {
    if items == [] then []
    else
      var last := |items| - 1;
      var rest := Matching(items[..last], query);
      match Score(query, Haystack(items[last]))
      case Some(score) => rest + [Entry(last, score)]
      case None => rest
  }

  predicate Before(a: Entry, b: Entry) { a.score < b.score || (a.score == b.score && a.index < b.index) }

  /** Of two different matches exactly one ranks before the other, and a tie in score goes by the place in the list. */
  lemma BeforeIsStrict(a: Entry, b: Entry)
    ensures a != b ==> (Before(a, b) <==> !Before(b, a))
    ensures !Before(a, a)
    ensures a.score == b.score ==> (Before(a, b) <==> a.index < b.index)
  {}

  predicate IsRanked(es: seq<Entry>) { forall i, j :: 0 <= i < j < |es| ==> Before(es[i], es[j]) }

  // A stable insertion: e goes after every entry that scores no worse.
  function Inserted(es: seq<Entry>, e: Entry): seq<Entry> {
    if es == [] then [e]
    else if es[|es| - 1].score <= e.score then es + [e]
    else Inserted(es[..|es| - 1], e) + [es[|es| - 1]]
  }

  // Array.prototype.sort by score, which is stable.
  function Sorted(es: seq<Entry>): seq<Entry> {
    if es == [] then [] else Inserted(Sorted(es[..|es| - 1]), es[|es| - 1])
  }

  function Shown(items: seq<Item>, query: string): seq<nat> {
    if Trim(query) == "" then seq(if |items| > SHOWN then SHOWN else |items|, i => i)
    else
      var ranked := Sorted(Matching(items, Trim(query)));
      Indices(if |ranked| > SHOWN then ranked[..SHOWN] else ranked)
  }

  function Indices(es: seq<Entry>): (r: seq<nat>)
    ensures |r| == |es| && forall i :: 0 <= i < |es| ==> r[i] == es[i].index
  {
    seq(|es|, i requires 0 <= i < |es| => es[i].index)
  }

  lemma {:induction false} MatchingIs(items: seq<Item>, query: string, e: Entry)
    ensures e in Matching(items, query) <==>
            e.index < |items| && Score(query, Haystack(items[e.index])) == Some(e.score)
  {
    if items != [] {
      MatchingIs(items[..|items| - 1], query, e);
    }
  }

  lemma {:induction false} InsertedHolds(es: seq<Entry>, e: Entry, x: Entry)
    ensures x in Inserted(es, e) <==> x in es || x == e
    ensures |Inserted(es, e)| == |es| + 1
  {
    if es != [] {
      var front, last := es[..|es| - 1], es[|es| - 1];
      assert es == front + [last];
      InsertedHolds(front, e, x);
    }
  }

  lemma {:induction false} InsertedIsRanked(es: seq<Entry>, e: Entry)
    requires IsRanked(es) && forall x :: x in es ==> x.index < e.index
    ensures IsRanked(Inserted(es, e))
  {
    if es != [] && es[|es| - 1].score > e.score {
      var front, last := es[..|es| - 1], es[|es| - 1];
      InsertedIsRanked(front, e);
      forall x | x in Inserted(front, e) ensures Before(x, last) {
        InsertedHolds(front, e, x);
      }
    }
  }

  lemma {:induction false} SortedIsRanked(items: seq<Item>, query: string)
    ensures var es := Matching(items, query);
            IsRanked(Sorted(es)) && |Sorted(es)| == |es| && forall x :: x in Sorted(es) <==> x in es
  {
    if items != [] {
      var front := items[..|items| - 1];
      var es, before := Matching(items, query), Matching(front, query);
      SortedIsRanked(front, query);
      if es != before {
        var e := es[|es| - 1];
        assert es[..|es| - 1] == before;
        forall x | x in Sorted(before) ensures x.index < e.index { MatchingIs(front, query, x); }
        InsertedIsRanked(Sorted(before), e);
        forall x ensures x in Sorted(es) <==> x in es { InsertedHolds(Sorted(before), e, x); }
        InsertedHolds(Sorted(before), e, e);
      }
    }
  }

  // The entry an index stands for, when the item matches.
  function EntryAt(items: seq<Item>, query: string, i: nat): Option<Entry>
    requires i < |items|
  {
    match Score(query, Haystack(items[i])) case Some(s) => Some(Entry(i, s)) case None => None
  }

  /** The palette shows the best 60 matches, best first, ties in list order:
      nothing left out ranks before anything shown. */
  lemma ShownAreTheBest(items: seq<Item>, query: string, i: nat)
    requires Trim(query) != "" && i < |items|
    ensures var q, shown := Trim(query), Shown(items, query);
            && |shown| <= 60
            && (forall k :: 0 <= k < |shown| ==> shown[k] < |items| && EntryAt(items, q, shown[k]).Some?)
            && (forall k, l :: 0 <= k < l < |shown| ==>
                  Before(EntryAt(items, q, shown[k]).value, EntryAt(items, q, shown[l]).value))
            && (EntryAt(items, q, i).Some? && i !in shown ==>
                  |shown| == 60 && forall k :: 0 <= k < |shown| ==>
                    Before(EntryAt(items, q, shown[k]).value, EntryAt(items, q, i).value))
  {
    hide Matching, Sorted, EntryAt;
    var q := Trim(query);
    var ranked := Sorted(Matching(items, q));
    var shown := Shown(items, query);
    SortedIsRanked(items, q);
    assert forall k :: 0 <= k < |shown| ==> shown[k] == ranked[k].index;
    forall k | 0 <= k < |ranked|
      ensures ranked[k].index < |items| && EntryAt(items, q, ranked[k].index) == Some(ranked[k])
    {
      assert ranked[k] in ranked;
      RankedEntry(items, q, ranked[k]);
    }
    if EntryAt(items, q, i).Some? && i !in shown {
      var e := EntryAt(items, q, i).value;
      EntryIsMatching(items, q, i);
      var m :| 0 <= m < |ranked| && ranked[m] == e;
      assert m >= |shown|;
    }
  }

  lemma RankedEntry(items: seq<Item>, q: string, e: Entry)
    requires e in Matching(items, q)
    ensures e.index < |items| && EntryAt(items, q, e.index) == Some(e)
  {
    MatchingIs(items, q, e);
  }

  lemma EntryIsMatching(items: seq<Item>, q: string, i: nat)
    requires i < |items| && EntryAt(items, q, i).Some?
    ensures EntryAt(items, q, i).value in Matching(items, q) && EntryAt(items, q, i).value.index == i
  {
    MatchingIs(items, q, EntryAt(items, q, i).value);
  }

  /** With nothing but white space asked for, the first 60 items are shown as they come. */
  lemma BlankShowsTheFirst(items: seq<Item>, query: string, k: nat)
    requires AllSpace(query)
    ensures |Shown(items, query)| == if |items| < 60 then |items| else 60
    ensures k < |Shown(items, query)| ==> Shown(items, query)[k] == k
  {
    TrimsToNothing(query);
  }

  // ----- what an item is searched by ---------------------------------------------------------

  lemma EmbeddingSplits(e: seq<nat>, n: string, x: string, y: string) returns (k: nat)
    requires IsEmbedding(e, n, x + y, 0)
    ensures k <= |n| && IsEmbedded(n[..k], x) && IsEmbedded(n[k..], y)
  {
    k := 0;
    while k < |e| && e[k] < |x|
      invariant k <= |e| && forall i :: 0 <= i < k ==> e[i] < |x|
    {
      k := k + 1;
    }
    assert IsEmbedding(e[..k], n[..k], x, 0);
    assert forall i :: k <= i < |e| ==> e[i] >= |x|;
    LaterPart(e[k..], n[k..], x, y);
  }

  lemma LaterPart(e: seq<nat>, n: string, x: string, y: string)
    requires IsEmbedding(e, n, x + y, |x|)
    ensures IsEmbedded(n, y)
  {
    var shifted := seq(|e|, i requires 0 <= i < |e| => e[i] - |x|);
    assert IsEmbedding(shifted, n, y, 0);
  }

  lemma EmbeddingsJoin(n: string, m: string, x: string, y: string)
    requires IsEmbedded(n, x) && IsEmbedded(m, y)
    ensures IsEmbedded(n + m, x + y)
  {
    var e: seq<nat> :| IsEmbedding(e, n, x, 0);
    var f: seq<nat> :| IsEmbedding(f, m, y, 0);
    var shifted := seq(|f|, i requires 0 <= i < |f| => f[i] + |x|);
    assert IsEmbedding(e + shifted, n + m, x + y, 0);
  }

  lemma EmbeddedInSum(n: string, x: string, y: string)
    ensures IsEmbedded(n, x + y) <==> exists k :: 0 <= k <= |n| && IsEmbedded(n[..k], x) && IsEmbedded(n[k..], y)
  {
    hide IsEmbedding;
    if IsEmbedded(n, x + y) {
      var e: seq<nat> :| IsEmbedding(e, n, x + y, 0);
      var k := EmbeddingSplits(e, n, x, y);
    }
    if k :| 0 <= k <= |n| && IsEmbedded(n[..k], x) && IsEmbedded(n[k..], y) {
      EmbeddingsJoin(n[..k], n[k..], x, y);
      assert n[..k] + n[k..] == n;
    }
  }

  /** An item matches exactly when the query splits in two, the first part to be found in its caption and a blank,
      the second in its detail, case aside. */
  lemma ItemMatches(item: Item, query: string)
    requires query != ""
    ensures var n, detail := Lower(query), if item.detail.Some? then item.detail.value else "";
            Score(query, Haystack(item)).Some? <==>
            exists k :: 0 <= k <= |n| && IsEmbedded(n[..k], Lower(item.caption + " "))
                        && IsEmbedded(n[k..], Lower(detail))
  {
    hide IsEmbedded, Score;
    var detail := if item.detail.Some? then item.detail.value else "";
    MatchesIffSubsequence(query, Haystack(item));
    LowerSum(item.caption + " ", detail);
    EmbeddedInSum(Lower(query), Lower(item.caption + " "), Lower(detail));
  }
}
