/** The API's count of CSP violation reports by directive, capped on distinct directives. */
module CspCounter {
  import opened Text

  const CAP: nat := 32
  const OVERFLOW := "other"

  type Counts = map<string, nat>

  // The directive of a report body, cut to 80 characters; None when the body holds no such string.
  function Named(reported: Option<string>): (r: string)
    ensures reported.Some? && reported.value != "" ==>
              r <= reported.value && |r| == if |reported.value| < 80 then |reported.value| else 80
    ensures reported.None? || reported.value == "" ==> r == "unknown"
  {
    if reported.Some? && reported.value != "" then
      if |reported.value| > 80 then reported.value[..80] else reported.value
    else "unknown"
  }

  function Observed(counts: Counts, named: string): Counts {
    var directive := if named in counts || |counts| < CAP then named else OVERFLOW;
    counts[directive := (if directive in counts then counts[directive] else 0) + 1]
  }

  class Counter {
    var violations: Counts

    constructor ()
      ensures violations == map[]
    {
      violations := map[];
    }

    method Report(reported: Option<string>)
      modifies this
      ensures violations == Observed(old(violations), Named(reported))
    {
      var named := Named(reported);
      var directive := if named in violations || |violations| < CAP then named else OVERFLOW;
      var observed := (if directive in violations then violations[directive] else 0) + 1;
      violations := violations[directive := observed];
    }
  }

  // ----- runs ---------------------------------------------------------------------------

  // The counts after the given names were reported, in order, since the last reset.
  function Run(names: seq<string>): Counts {
    if names == [] then map[] else Observed(Run(names[..|names| - 1]), names[|names| - 1])
  }

  function Distinct(names: seq<string>): set<string> { set n | n in names }

  function Count(names: seq<string>, d: string): nat {
    if names == [] then 0
    else Count(names[..|names| - 1], d) + (if names[|names| - 1] == d then 1 else 0)
  }

  // d was first reported when fewer than 32 other names had been.
  ghost predicate IsAdmitted(names: seq<string>, d: string) {
    exists k :: 0 <= k < |names| && names[k] == d && d !in names[..k] && |Distinct(names[..k])| < 32
  }

  // Either the keys are the reported names, or the cap has bitten and the overflow key exists.
  ghost predicate IsCapped(names: seq<string>, counts: Counts) {
    || (counts.Keys == Distinct(names) && |counts| <= CAP)
    || (OVERFLOW in counts && CAP <= |counts| <= CAP + 1 && |Distinct(names)| >= CAP)
  }

  lemma DistinctGrows(names: seq<string>)
    requires names != []
    ensures Distinct(names) == Distinct(names[..|names| - 1]) + {names[|names| - 1]}
    ensures |Distinct(names)| >= |Distinct(names[..|names| - 1])|
  {
    var front, last := names[..|names| - 1], names[|names| - 1];
    assert names == front + [last];
    if last in Distinct(front) {
      assert Distinct(names) == Distinct(front);
    }
  }

  lemma {:induction false} RunIsCapped(names: seq<string>)
    ensures IsCapped(names, Run(names))
  {
    if names != [] {
      hide IsCapped, Observed, Distinct;
      var front, last := names[..|names| - 1], names[|names| - 1];
      RunIsCapped(front);
      DistinctGrows(names);
      CappedStep(names, Run(front));
    }
  }

  lemma CappedStep(names: seq<string>, m: Counts)
    requires names != [] && IsCapped(names[..|names| - 1], m)
    requires Distinct(names) == Distinct(names[..|names| - 1]) + {names[|names| - 1]}
    requires |Distinct(names)| >= |Distinct(names[..|names| - 1])|
    ensures IsCapped(names, Observed(m, names[|names| - 1]))
  {
    hide Distinct;
    var last := names[|names| - 1];
    var key := if last in m || |m| < CAP then last else OVERFLOW;
    assert Observed(m, last).Keys == m.Keys + {key};
    SizeOfKeys(m, Observed(m, last), key);
  }

  lemma SizeOfKeys(m: Counts, m': Counts, key: string)
    requires m'.Keys == m.Keys + {key}
    ensures |m'| == if key in m then |m| else |m| + 1
  {
    assert |m'| == |m'.Keys| && |m| == |m.Keys|;
    if key in m { assert m'.Keys == m.Keys; }
  }

  lemma {:induction false} AdmittedStep(names: seq<string>, d: string)
    requires names != []
    ensures var front, last := names[..|names| - 1], names[|names| - 1];
            IsAdmitted(names, d) <==> IsAdmitted(front, d) || (d == last && d !in front && |Distinct(front)| < CAP)
  {
    var front, last := names[..|names| - 1], names[|names| - 1];
    forall k | 0 <= k < |front| ensures front[..k] == names[..k] {}
    if IsAdmitted(names, d) {
      var k :| 0 <= k < |names| && names[k] == d && d !in names[..k] && |Distinct(names[..k])| < CAP;
      if k < |front| { assert front[k] == d && d !in front[..k]; }
    }
    if IsAdmitted(front, d) {
      var k :| 0 <= k < |front| && front[k] == d && d !in front[..k] && |Distinct(front[..k])| < CAP;
      assert names[k] == d && d !in names[..k];
    }
  }

  lemma {:induction false} CountAbsent(names: seq<string>, d: string)
    requires d !in names
    ensures Count(names, d) == 0
  {
    if names != [] { CountAbsent(names[..|names| - 1], d); }
  }

  /** A directive other than the overflow is counted exactly if it was among the first 32, and else not at all. */
  lemma {:induction false} ExactOrAbsent(names: seq<string>, d: string)
    requires d != "other"
    ensures d in Run(names) <==> IsAdmitted(names, d)
    ensures d in Run(names) ==> Run(names)[d] == Count(names, d)
  {
    if names != [] {
      var front, last := names[..|names| - 1], names[|names| - 1];
      ExactOrAbsent(front, d);
      RunIsCapped(front);
      AdmittedStep(names, d);
      if d !in front { CountAbsent(front, d); }
    }
  }

  // ----- totals ----------------------------------------------------------------------------

  ghost function SumOn(m: Counts, keys: set<string>): nat
    requires keys <= m.Keys
  {
    if keys == {} then 0 else var k :| k in keys; m[k] + SumOn(m, keys - {k})
  }

  lemma {:induction false} SumOnTakes(m: Counts, keys: set<string>, k: string)
    requires keys <= m.Keys && k in keys
    ensures SumOn(m, keys) == m[k] + SumOn(m, keys - {k})
    decreases |keys|
  {
    var first :| first in keys && SumOn(m, keys) == m[first] + SumOn(m, keys - {first});
    if first != k {
      SumOnTakes(m, keys - {first}, k);
      SumOnTakes(m, keys - {k}, first);
      assert keys - {first} - {k} == keys - {k} - {first};
    }
  }

  lemma {:induction false} SumOnAgrees(m: Counts, m': Counts, keys: set<string>)
    requires keys <= m.Keys && keys <= m'.Keys && forall k :: k in keys ==> m[k] == m'[k]
    ensures SumOn(m, keys) == SumOn(m', keys)
    decreases |keys|
  {
    if keys != {} {
      var k :| k in keys;
      SumOnTakes(m, keys, k);
      SumOnTakes(m', keys, k);
      SumOnAgrees(m, m', keys - {k});
    }
  }

  lemma ObservedAddsOne(m: Counts, named: string)
    ensures SumOn(Observed(m, named), Observed(m, named).Keys) == SumOn(m, m.Keys) + 1
  {
    var d := if named in m || |m| < CAP then named else OVERFLOW;
    var m' := Observed(m, named);
    assert m'.Keys - {d} == m.Keys - {d};
    SumOnTakes(m', m'.Keys, d);
    SumOnAgrees(m, m', m.Keys - {d});
    if d in m {
      SumOnTakes(m, m.Keys, d);
    } else {
      assert m.Keys - {d} == m.Keys;
    }
  }

  /** No report is lost: the counts add up to the reports, under at most 33 keys. */
  lemma {:induction false} CountsAddUp(names: seq<string>)
    ensures SumOn(Run(names), Run(names).Keys) == |names|
    ensures |Run(names)| <= 33 && (|Run(names)| == 33 ==> "other" in Run(names))
  {
    RunIsCapped(names);
    if names == [] {
      assert Run(names).Keys == {};
    } else {
      CountsAddUp(names[..|names| - 1]);
      ObservedAddsOne(Run(names[..|names| - 1]), names[|names| - 1]);
    }
  }
}
