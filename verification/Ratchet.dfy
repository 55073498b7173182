/** The wiring checker's ratchet: known gaps downgrade failures, duplicates go, and the exit code follows. */
module Ratchet {

  datatype Severity = Fail | Warn | Skip | Ok

  datatype Finding = Finding(check: string, severity: Severity, what: string, detail: string, fix: string)

  datatype Gap = Gap(check: string, what: string)

  function SeverityName(s: Severity): string {
    match s case Fail => "fail" case Warn => "warn" case Skip => "skip" case Ok => "ok"
  }

  // `${check}|${what}|${severity}`
  function Key(f: Finding): string { f.check + "|" + f.what + "|" + SeverityName(f.severity) }

  predicate Matches(f: Finding, g: Gap) { f.check == g.check && f.what == g.what && f.severity == Fail }

  predicate Found(fs: seq<Finding>, g: Gap) { exists i :: 0 <= i < |fs| && Matches(fs[i], g) }

  // ----- first pass: downgrade ------------------------------------------------------------

  function Downgraded(fs: seq<Finding>, g: Gap): (r: seq<Finding>)
    ensures |r| == |fs|
    ensures forall i :: 0 <= i < |fs| ==> r[i] == if Matches(fs[i], g) then fs[i].(severity := Warn) else fs[i]
  {
    seq(|fs|, i requires 0 <= i < |fs| => if Matches(fs[i], g) then fs[i].(severity := Warn) else fs[i])
  }

  datatype Ratcheted = Ratcheted(findings: seq<Finding>, suppressed: seq<Gap>, stale: seq<Gap>)

  // Gap by gap, each against what the gaps before it left.
  function ApplyGaps(fs: seq<Finding>, gaps: seq<Gap>): Ratcheted {
    if gaps == [] then Ratcheted(fs, [], [])
    else
      var r := ApplyGaps(fs, gaps[..|gaps| - 1]);
      var g := gaps[|gaps| - 1];
      if Found(r.findings, g) then Ratcheted(Downgraded(r.findings, g), r.suppressed + [g], r.stale)
      else r.(stale := r.stale + [g])
  }

  // ----- second pass: one line per key -------------------------------------------------------

  // The findings whose key does not come again later.
  function LastOfEach(fs: seq<Finding>): seq<Finding> {
    if fs == [] then []
    else (if Key(fs[0]) in Keys(fs[1..]) then [] else [fs[0]]) + LastOfEach(fs[1..])
  }

  function Keys(fs: seq<Finding>): set<string> { set f | f in fs :: Key(f) }

  function Applied(fs: seq<Finding>, gaps: seq<Gap>): Ratcheted {
    var r := ApplyGaps(fs, gaps);
    r.(findings := LastOfEach(r.findings))
  }

  function Fails(fs: seq<Finding>): nat {
    if fs == [] then 0 else (if fs[0].severity == Fail then 1 else 0) + Fails(fs[1..])
  }

  function ExitCode(r: Ratcheted): nat { if Fails(r.findings) + |r.stale| == 0 then 0 else 1 }

  class Checker {
    var findings: seq<Finding>

    method Downgrade(g: Gap) returns (any: bool)
      modifies this
      ensures any == Found(old(findings), g)
      ensures findings == Downgraded(old(findings), g)
    {
      any := false;
      for i := 0 to |findings|
        invariant |findings| == |old(findings)|
        invariant any <==> exists k :: 0 <= k < i && Matches(old(findings)[k], g)
        invariant forall k :: 0 <= k < i ==> findings[k] == Downgraded(old(findings), g)[k]
        invariant forall k :: i <= k < |findings| ==> findings[k] == old(findings)[k]
      {
        if Matches(findings[i], g) {
          findings := findings[i := findings[i].(severity := Warn)];
          any := true;
        }
      }
    }

    method DropRepeats()
      modifies this
      ensures findings == LastOfEach(old(findings))
    {
      hide LastOfEach, Keys, Key;
      var seen: set<string> := {};
      var i: nat := |findings|;
      ghost var all := findings;
      NothingLater(all);
      while i > 0
        invariant i <= |all|
        invariant findings == all[..i] + LastOfEach(all[i..])
        invariant seen == Keys(all[i..])
      {
        i := i - 1;
        OneEarlier(all, i);
        if Key(findings[i]) in seen {
          findings := findings[..i] + findings[i + 1..];
        } else {
          seen := seen + {Key(findings[i])};
        }
      }
      assert all[0..] == all && all[..0] == [];
      assert [] + LastOfEach(all) == LastOfEach(all);
    }

    method ApplyKnownGaps(gaps: seq<Gap>) returns (suppressed: seq<Gap>, stale: seq<Gap>)
      modifies this
      ensures Ratcheted(findings, suppressed, stale) == Applied(old(findings), gaps)
    {
      suppressed, stale := [], [];
      for i := 0 to |gaps|
        invariant Ratcheted(findings, suppressed, stale) == ApplyGaps(old(findings), gaps[..i])
      {
        assert gaps[..i + 1][..i] == gaps[..i];
        ghost var before := findings;
        var any := Downgrade(gaps[i]);
        if any {
          suppressed := suppressed + [gaps[i]];
        } else {
          assert findings == before;
          stale := stale + [gaps[i]];
        }
      }
      assert gaps[..|gaps|] == gaps;
      DropRepeats();
    }
  }

  lemma NothingLater(all: seq<Finding>)
    ensures all == all[..|all|] + LastOfEach(all[|all|..]) && Keys(all[|all|..]) == {}
  {}

  lemma OneEarlier(all: seq<Finding>, i: nat)
    requires i < |all|
    ensures var f, later, kept := all[i], LastOfEach(all[i + 1..]), LastOfEach(all[i..]);
            && (all[..i + 1] + later)[i] == f
            && Keys(all[i..]) == Keys(all[i + 1..]) + {Key(f)}
            && (if Key(f) in Keys(all[i + 1..]) then kept == later
                && all[..i] + kept == (all[..i + 1] + later)[..i] + (all[..i + 1] + later)[i + 1..]
                else all[..i] + kept == all[..i + 1] + later)
  {
    hide Key, Keys;
    var rest, later := all[i..], LastOfEach(all[i + 1..]);
    assert rest[1..] == all[i + 1..] && rest[0] == all[i];
    KeysCons(rest);
    assert all[..i + 1] == all[..i] + [all[i]];
    Splice(all[..i], all[i], later);
    assert [] + later == later;
  }

  lemma Splice(before: seq<Finding>, f: Finding, later: seq<Finding>)
    ensures var s := before + [f] + later;
            && s[|before|] == f && s == before + ([f] + later)
            && s[..|before|] + s[|before| + 1..] == before + later
  {
    var s := before + [f] + later;
    assert s[..|before|] == before && s[|before| + 1..] == later;
  }

  lemma KeysCons(fs: seq<Finding>)
    requires fs != []
    ensures Keys(fs) == Keys(fs[1..]) + {Key(fs[0])}
  {
    assert fs == [fs[0]] + fs[1..];
  }

  // ----- what the first pass does to every finding and gap ----------------------------------------

  // A failure is known when the gap of its own check and thing is listed.
  predicate IsKnown(f: Finding, gaps: seq<Gap>) { f.severity == Fail && Gap(f.check, f.what) in gaps }

  predicate IsFailing(fs: seq<Finding>, g: Gap) {
    exists i :: 0 <= i < |fs| && fs[i].severity == Fail && fs[i].check == g.check && fs[i].what == g.what
  }

  lemma MatchesIs(f: Finding, g: Gap)
    ensures Matches(f, g) <==> f.severity == Fail && g == Gap(f.check, f.what)
  {}

  lemma FoundIsFailing(fs: seq<Finding>, g: Gap)
    ensures Found(fs, g) <==> IsFailing(fs, g)
  {
    forall i | 0 <= i < |fs|
      ensures Matches(fs[i], g) <==> fs[i].severity == Fail && g == Gap(fs[i].check, fs[i].what)
    {
      MatchesIs(fs[i], g);
    }
  }

  /** A finding becomes a warning exactly when it failed and some gap names it; nothing else about it changes. */
  lemma {:induction false} DowngradesTheKnown(fs: seq<Finding>, gaps: seq<Gap>, i: nat)
    requires i < |fs|
    ensures |ApplyGaps(fs, gaps).findings| == |fs|
    ensures ApplyGaps(fs, gaps).findings[i] ==
            if fs[i].severity == Fail && Gap(fs[i].check, fs[i].what) in gaps then fs[i].(severity := Warn) else fs[i]
  {
    if gaps != [] {
      var front, g := gaps[..|gaps| - 1], gaps[|gaps| - 1];
      DowngradesTheKnown(fs, front, i);
      assert gaps == front + [g];
      assert forall h :: h in gaps <==> h in front || h == g;
      MatchesIs(ApplyGaps(fs, front).findings[i], g);
    }
  }

  lemma FoundAfter(fs: seq<Finding>, gaps: seq<Gap>, g: Gap)
    ensures Found(ApplyGaps(fs, gaps).findings, g) <==> IsFailing(fs, g) && g !in gaps
  {
    var r := ApplyGaps(fs, gaps).findings;
    if fs == [] { EmptyStaysEmpty(gaps); }
    FoundIsFailing(fs, g);
    forall i: nat | i < |fs| ensures |r| == |fs| && (Matches(r[i], g) <==> Matches(fs[i], g) && g !in gaps) {
      DowngradesTheKnown(fs, gaps, i);
      MatchesIs(fs[i], g);
      MatchesIs(r[i], g);
    }
  }

  lemma {:induction false} EmptyStaysEmpty(gaps: seq<Gap>)
    ensures ApplyGaps([], gaps).findings == []
  {
    if gaps != [] { EmptyStaysEmpty(gaps[..|gaps| - 1]); }
  }

  predicate IsDistinct(gaps: seq<Gap>) { forall i, j :: 0 <= i < j < |gaps| ==> gaps[i] != gaps[j] }

  // The gaps that some failure bears out, or those that none does.
  function Sorted(fs: seq<Finding>, gaps: seq<Gap>, failing: bool): seq<Gap> {
    if gaps == [] then []
    else
      var g := gaps[|gaps| - 1];
      Sorted(fs, gaps[..|gaps| - 1], failing) + (if IsFailing(fs, g) == failing then [g] else [])
  }

  /** Distinct gaps split, in order, into those some failure on entry bears out and those none does. */
  lemma {:induction false} GapsSplit(fs: seq<Finding>, gaps: seq<Gap>)
    requires IsDistinct(gaps)
    ensures ApplyGaps(fs, gaps).suppressed == Sorted(fs, gaps, true)
    ensures ApplyGaps(fs, gaps).stale == Sorted(fs, gaps, false)
  {
    if gaps != [] {
      var front := gaps[..|gaps| - 1];
      GapsSplit(fs, front);
      FoundAfter(fs, front, gaps[|gaps| - 1]);
    }
  }

  // ----- the second pass ----------------------------------------------------------------------------

  ghost predicate IsLast(fs: seq<Finding>, i: nat) {
    i < |fs| && forall j :: i < j < |fs| ==> Key(fs[j]) != Key(fs[i])
  }

  lemma IsLastShift(fs: seq<Finding>, i: nat)
    requires i + 1 < |fs|
    ensures IsLast(fs[1..], i) <==> IsLast(fs, i + 1)
  {
    assert forall j :: i < j < |fs[1..]| ==> fs[1..][j] == fs[j + 1];
    assert forall j :: i + 1 < j < |fs| ==> fs[j] == fs[1..][j - 1];
  }

  lemma IsLastHead(fs: seq<Finding>)
    requires fs != []
    ensures IsLast(fs, 0) <==> Key(fs[0]) !in Keys(fs[1..])
  {
    if Key(fs[0]) in Keys(fs[1..]) {
      var j :| 0 <= j < |fs[1..]| && Key(fs[1..][j]) == Key(fs[0]);
      assert fs[j + 1] == fs[1..][j];
    }
  }

  function LastIndices(fs: seq<Finding>): seq<nat> {
    if fs == [] then []
    else (if Key(fs[0]) in Keys(fs[1..]) then [] else [0]) + Shifted(LastIndices(fs[1..]))
  }

  function Shifted(ks: seq<nat>): (r: seq<nat>)
    ensures |r| == |ks| && forall k :: 0 <= k < |ks| ==> r[k] == ks[k] + 1
  {
    seq(|ks|, k requires 0 <= k < |ks| => ks[k] + 1)
  }

  lemma {:induction false} LastIndicesAreLast(fs: seq<Finding>, i: nat)
    ensures i in LastIndices(fs) <==> IsLast(fs, i)
  {
    hide IsLast, Key, Keys, Shifted;
    if fs == [] {
      OnlyIndicesAreLast(fs, i);
    } else {
      var rest := LastIndices(fs[1..]);
      if i == 0 {
        IsLastHead(fs);
      } else {
        LastIndicesAreLast(fs[1..], i - 1);
        IsLastOfTail(fs, i);
        ShiftedHolds(rest, i);
      }
    }
  }

  lemma IsLastOfTail(fs: seq<Finding>, i: nat)
    requires fs != [] && i > 0
    ensures IsLast(fs[1..], i - 1) <==> IsLast(fs, i)
  {
    if i < |fs| { IsLastShift(fs, i - 1); }
  }

  lemma OnlyIndicesAreLast(fs: seq<Finding>, i: nat)
    ensures IsLast(fs, i) ==> i < |fs|
  {}

  lemma ShiftedHolds(ks: seq<nat>, i: nat)
    requires i > 0
    ensures i in Shifted(ks) <==> i - 1 in ks
  {
    if i - 1 in ks {
      var k :| 0 <= k < |ks| && ks[k] == i - 1;
      assert Shifted(ks)[k] == i;
    }
  }

  // The kept findings are those at the given positions, which increase.
  ghost predicate IsPickedFrom(kept: seq<Finding>, fs: seq<Finding>, at: seq<nat>) {
    && |kept| == |at|
    && (forall k :: 0 <= k < |at| ==> at[k] < |fs| && kept[k] == fs[at[k]])
    && (forall k, l :: 0 <= k < l < |at| ==> at[k] < at[l])
  }

  lemma PickedFromTail(kept: seq<Finding>, fs: seq<Finding>, at: seq<nat>)
    requires fs != [] && IsPickedFrom(kept, fs[1..], at)
    ensures IsPickedFrom(kept, fs, Shifted(at)) && IsPickedFrom([fs[0]] + kept, fs, [0] + Shifted(at))
  {}

  lemma {:induction false} LastOfEachIsIndexed(fs: seq<Finding>)
    ensures IsPickedFrom(LastOfEach(fs), fs, LastIndices(fs))
  {
    if fs != [] {
      hide IsPickedFrom, Shifted, Key, Keys;
      LastOfEachIsIndexed(fs[1..]);
      var kept, at := LastOfEach(fs[1..]), LastIndices(fs[1..]);
      PickedFromTail(kept, fs, at);
      assert [] + kept == kept && [] + Shifted(at) == Shifted(at);
    }
  }

  /** The splice keeps, in order, exactly the findings whose key never comes again. */
  lemma KeepsTheLast(fs: seq<Finding>) returns (at: seq<nat>)
    ensures IsPickedFrom(LastOfEach(fs), fs, at)
    ensures forall i: nat :: i in at <==> IsLast(fs, i)
  {
    at := LastIndices(fs);
    LastOfEachIsIndexed(fs);
    forall i: nat ensures i in at <==> IsLast(fs, i) { LastIndicesAreLast(fs, i); }
  }

  lemma {:induction false} LastOfEachKeepsFails(fs: seq<Finding>)
    ensures Fails(LastOfEach(fs)) == 0 <==> Fails(fs) == 0
  {
    if fs != [] {
      LastOfEachKeepsFails(fs[1..]);
      var rest := LastOfEach(fs[1..]);
      if Key(fs[0]) in Keys(fs[1..]) {
        assert [] + rest == rest;
        var f :| f in fs[1..] && Key(f) == Key(fs[0]);
        SameKeySameSeverity(f, fs[0]);
        if f.severity == Fail { FailsIsPositive(fs[1..], f); }
      } else {
        assert ([fs[0]] + rest)[1..] == rest;
      }
    }
  }

  lemma {:induction false} FailsIsPositive(fs: seq<Finding>, f: Finding)
    requires f in fs && f.severity == Fail
    ensures Fails(fs) > 0
  {
    if fs[0] != f { FailsIsPositive(fs[1..], f); }
  }

  lemma SameKeySameSeverity(f: Finding, g: Finding)
    requires Key(f) == Key(g)
    ensures f.severity == g.severity
  {
    var a, b := Key(f), Key(g);
    assert a[|a| - 1] == SeverityName(f.severity)[|SeverityName(f.severity)| - 1];
    assert b[|b| - 1] == SeverityName(g.severity)[|SeverityName(g.severity)| - 1];
    assert a[|a| - 2] == SeverityName(f.severity)[|SeverityName(f.severity)| - 2];
    assert b[|b| - 2] == SeverityName(g.severity)[|SeverityName(g.severity)| - 2];
  }

  predicate NoBar(s: string) { forall i :: 0 <= i < |s| ==> s[i] != '|' }

  lemma FirstBar(a: string, b: string, c: string, d: string)
    requires NoBar(a) && NoBar(c) && a + "|" + b == c + "|" + d
    ensures a == c && b == d
  {
    var s := a + "|" + b;
    assert s[|a|] == '|' && s[|c|] == '|';
    assert forall k :: 0 <= k < |a| ==> s[k] == a[k];
    assert forall k :: 0 <= k < |c| ==> s[k] == c[k];
    assert s[..|a|] == a && s[..|c|] == c;
    assert s[|a| + 1..] == b && s[|c| + 1..] == d;
  }

  /** When no check name holds a bar, equal keys mean the same check, thing and severity. */
  lemma KeysIdentify(f: Finding, g: Finding)
    requires NoBar(f.check) && NoBar(g.check)
    ensures Key(f) == Key(g) <==> f.check == g.check && f.what == g.what && f.severity == g.severity
  {
    if Key(f) == Key(g) {
      SameKeySameSeverity(f, g);
      var tail := "|" + SeverityName(f.severity);
      assert Key(f) == f.check + "|" + (f.what + tail);
      assert Key(g) == g.check + "|" + (g.what + tail);
      FirstBar(f.check, f.what + tail, g.check, g.what + tail);
      assert (f.what + tail)[..|f.what|] == f.what && (g.what + tail)[..|g.what|] == g.what;
    }
  }

  lemma KeysAgree(f: Finding, g: Finding)
    ensures Key(f) == Key(g) <==> f.severity == g.severity && f.check + "|" + f.what == g.check + "|" + g.what
  {
    if Key(f) == Key(g) { SameKeySameSeverity(f, g); }
    if f.severity == g.severity {
      var tail := "|" + SeverityName(f.severity);
      var a, b := f.check + "|" + f.what, g.check + "|" + g.what;
      assert Key(f) == a + tail && Key(g) == b + tail;
      if Key(f) == Key(g) {
        assert |a| == |b|;
        assert (a + tail)[..|a|] == a && (b + tail)[..|b|] == b;
      }
    }
  }

  ghost predicate IsSameThing(f: Finding, g: Finding) {
    f.check == g.check && f.what == g.what && f.severity == g.severity
  }

  // g's check takes in, after a bar, what f counts as the head of its thing.
  ghost predicate IsSplitLater(f: Finding, g: Finding) {
    f.severity == g.severity && exists b :: g.check == f.check + "|" + b && f.what == b + "|" + g.what
  }

  lemma ShiftedBar(a: string, x: string, c: string, y: string)
    requires |a| < |c| && a + "|" + x == c + "|" + y
    ensures c == a + "|" + c[|a| + 1..] && x == c[|a| + 1..] + "|" + y
  {
    var s, t := a + "|" + x, c + "|" + y;
    assert forall k :: 0 <= k < |c| ==> t[k] == c[k];
    assert c[..|a|] == a && c[|a|] == '|';
    assert s[|a| + 1..] == x && t[|a| + 1..] == c[|a| + 1..] + "|" + y;
  }

  lemma SplitLaterAgrees(f: Finding, g: Finding)
    requires IsSplitLater(f, g)
    ensures Key(f) == Key(g)
  {
    KeysAgree(f, g);
    var b :| g.check == f.check + "|" + b && f.what == b + "|" + g.what;
    assert f.check + "|" + (b + "|" + g.what) == f.check + "|" + b + "|" + g.what;
  }

  /** Exactly the pairs a bar confuses: two findings share a key if they are the same thing,
      or if one has a bar in its check name where the other's thing begins. */
  lemma BarsCollide(f: Finding, g: Finding)
    ensures Key(f) == Key(g) <==> IsSameThing(f, g) || IsSplitLater(f, g) || IsSplitLater(g, f)
  {
    hide Key;
    KeysAgree(f, g);
    KeysAgree(g, f);
    if IsSplitLater(f, g) { SplitLaterAgrees(f, g); }
    if IsSplitLater(g, f) { SplitLaterAgrees(g, f); }
    if Key(f) == Key(g) {
      if |f.check| < |g.check| {
        ShiftedBar(f.check, f.what, g.check, g.what);
      } else if |g.check| < |f.check| {
        ShiftedBar(g.check, g.what, f.check, f.what);
      } else {
        SameSplit(f.check, f.what, g.check, g.what);
      }
    }
  }

  lemma SameSplit(a: string, x: string, c: string, y: string)
    requires |a| == |c| && a + "|" + x == c + "|" + y
    ensures a == c && x == y
  {
    var s, t := a + "|" + x, c + "|" + y;
    assert s[..|a|] == a && t[..|c|] == c && s[|a| + 1..] == x && t[|c| + 1..] == y;
  }

  // ----- the exit code --------------------------------------------------------------------------------

  lemma {:induction false} NoFails(fs: seq<Finding>)
    ensures Fails(fs) == 0 <==> forall i :: 0 <= i < |fs| ==> fs[i].severity != Fail
  {
    if fs != [] {
      NoFails(fs[1..]);
      assert forall i :: 1 <= i < |fs| ==> fs[i] == fs[1..][i - 1];
    }
  }

  lemma {:induction false} NoneStale(fs: seq<Finding>, gaps: seq<Gap>)
    ensures ApplyGaps(fs, gaps).stale == [] <==> IsDistinct(gaps) && forall g :: g in gaps ==> IsFailing(fs, g)
  {
    if gaps != [] {
      var front, g := gaps[..|gaps| - 1], gaps[|gaps| - 1];
      NoneStale(fs, front);
      FoundAfter(fs, front, g);
      assert gaps == front + [g];
      assert IsDistinct(gaps) <==> IsDistinct(front) && g !in front;
    }
  }

  /** The build is green exactly when every failure is a known gap and every known gap, listed once, still fails. */
  lemma GreenIffRatchetHolds(fs: seq<Finding>, gaps: seq<Gap>)
    ensures ExitCode(Applied(fs, gaps)) ==
            if && (forall i :: 0 <= i < |fs| && fs[i].severity == Fail ==> Gap(fs[i].check, fs[i].what) in gaps)
               && (forall g :: g in gaps ==> IsFailing(fs, g))
               && IsDistinct(gaps)
            then 0 else 1
  {
    var r := ApplyGaps(fs, gaps);
    LastOfEachKeepsFails(r.findings);
    NoFails(r.findings);
    NoneStale(fs, gaps);
    if fs == [] { EmptyStaysEmpty(gaps); }
    forall i: nat | i < |fs|
      ensures |r.findings| == |fs|
      ensures r.findings[i].severity == Fail <==> fs[i].severity == Fail && !IsKnown(fs[i], gaps)
    {
      DowngradesTheKnown(fs, gaps, i);
    }
  }
}
