/** The line diff of the agent panel: an LCS table over suffixes, a greedy walk and two drains. */
module LineDiff {

  // ' ', '-' and '+' in the panel.
  datatype Kind = Keep | Delete | Insert

  datatype DiffLine = DiffLine(kind: Kind, text: string)

  type Diff = seq<DiffLine>

  // ----- reading a diff ------------------------------------------------------

  // The text the ' ' and '-' lines spell.
  function Before(d: Diff): seq<string> {
    if d == [] then [] else (if d[0].kind.Insert? then [] else [d[0].text]) + Before(d[1..])
  }

  // The text the ' ' and '+' lines spell.
  function After(d: Diff): seq<string> {
    if d == [] then [] else (if d[0].kind.Delete? then [] else [d[0].text]) + After(d[1..])
  }

  function Kept(d: Diff): seq<string> {
    if d == [] then [] else (if d[0].kind.Keep? then [d[0].text] else []) + Kept(d[1..])
  }

  function Edits(d: Diff): nat {
    if d == [] then 0 else (if d[0].kind.Keep? then 0 else 1) + Edits(d[1..])
  }

  ghost predicate IsScript(d: Diff, a: seq<string>, b: seq<string>) {
    Before(d) == a && After(d) == b
  }

  // No edit script from a to b has fewer '-' and '+' lines than d.
  ghost predicate IsMinimal(d: Diff, a: seq<string>, b: seq<string>) {
    && IsScript(d, a, b)
    && forall e: Diff :: IsScript(e, a, b) ==> Edits(d) <= Edits(e)
  }

  predicate IsSubsequence(s: seq<string>, t: seq<string>) {
    if s == [] then true
    else if t == [] then false
    else (s[0] == t[0] && IsSubsequence(s[1..], t[1..])) || IsSubsequence(s, t[1..])
  }

  ghost predicate IsCommon(s: seq<string>, a: seq<string>, b: seq<string>) {
    IsSubsequence(s, a) && IsSubsequence(s, b)
  }

  function Rank(k: Kind): nat {
    match k case Keep => 0 case Delete => 1 case Insert => 2
  }

  // Dictionary order on the kinds of two diffs, ' ' before '-' before '+'.
  predicate DiffLe(d: Diff, e: Diff) {
    if d == [] then true
    else if e == [] then false
    else Rank(d[0].kind) < Rank(e[0].kind) || (d[0].kind == e[0].kind && DiffLe(d[1..], e[1..]))
  }

  // ----- the table and the walk ----------------------------------------------

  function Max(x: nat, y: nat): nat { if x < y then y else x }

  // One cell of the table, for the suffixes a and b.
  function Lcs(a: seq<string>, b: seq<string>): nat
    decreases |a| + |b|
  {
    if a == [] || b == [] then 0
    else if a[0] == b[0] then Lcs(a[1..], b[1..]) + 1
    else Max(Lcs(a[1..], b), Lcs(a, b[1..]))
  }

  function Walk(a: seq<string>, b: seq<string>): Diff
    decreases |a| + |b|
  {
    if a == [] && b == [] then []
    else if a == [] then [DiffLine(Insert, b[0])] + Walk(a, b[1..])
    else if b == [] then [DiffLine(Delete, a[0])] + Walk(a[1..], b)
    else if a[0] == b[0] then [DiffLine(Keep, a[0])] + Walk(a[1..], b[1..])
    else if Lcs(a[1..], b) >= Lcs(a, b[1..]) then [DiffLine(Delete, a[0])] + Walk(a[1..], b)
    else [DiffLine(Insert, b[0])] + Walk(a, b[1..])
  }

  method FillTable(a: seq<string>, b: seq<string>) returns (lcs: array2<nat>)
    ensures lcs.Length0 == |a| + 1 && lcs.Length1 == |b| + 1
    ensures forall i, j :: 0 <= i <= |a| && 0 <= j <= |b| ==> lcs[i, j] == Lcs(a[i..], b[j..])
  {
    lcs := new nat[|a| + 1, |b| + 1]((_, _) => 0);
    for i := |a| downto 0
      invariant forall i', j' :: i <= i' <= |a| && 0 <= j' <= |b| ==> lcs[i', j'] == Lcs(a[i'..], b[j'..])
      invariant forall i' :: 0 <= i' < i ==> lcs[i', |b|] == 0
    {
      for j := |b| downto 0
        invariant forall i', j' :: i < i' <= |a| && 0 <= j' <= |b| ==> lcs[i', j'] == Lcs(a[i'..], b[j'..])
        invariant forall j' :: j <= j' <= |b| ==> lcs[i, j'] == Lcs(a[i..], b[j'..])
        invariant forall i' :: 0 <= i' < i ==> lcs[i', |b|] == 0
      {
        assert a[i..][1..] == a[i + 1..] && b[j..][1..] == b[j + 1..];
        lcs[i, j] := if a[i] == b[j] then lcs[i + 1, j + 1] + 1 else Max(lcs[i + 1, j], lcs[i, j + 1]);
      }
    }
  }

  method DiffLines(a: seq<string>, b: seq<string>) returns (out: Diff)
    ensures out == Walk(a, b)
  {
    hide IsPrefixOfWalk, Walk, Lcs;
    var lcs := FillTable(a, b);
    out := [];
    var i, j := 0, 0;
    PrefixStart(a, b);
    while i < |a| && j < |b|
      modifies {}
      invariant i <= |a| && j <= |b|
      invariant IsPrefixOfWalk(out, a, b, i, j)
    {
      assert lcs[i + 1, j] == Lcs(a[i + 1..], b[j..]) && lcs[i, j + 1] == Lcs(a[i..], b[j + 1..]);
      if a[i] == b[j] {
        PrefixKeep(out, a, b, i, j);
        out := out + [DiffLine(Keep, a[i])];
        i, j := i + 1, j + 1;
      } else if lcs[i + 1, j] >= lcs[i, j + 1] {
        PrefixDelete(out, a, b, i, j);
        out := out + [DiffLine(Delete, a[i])];
        i := i + 1;
      } else {
        PrefixInsert(out, a, b, i, j);
        out := out + [DiffLine(Insert, b[j])];
        j := j + 1;
      }
    }
    while i < |a|
      invariant i <= |a| && j <= |b| && (i < |a| ==> j == |b|)
      invariant IsPrefixOfWalk(out, a, b, i, j)
    {
      PrefixDelete(out, a, b, i, j);
      out := out + [DiffLine(Delete, a[i])];
      i := i + 1;
    }
    while j < |b|
      invariant i == |a| && j <= |b|
      invariant IsPrefixOfWalk(out, a, b, i, j)
    {
      PrefixInsert(out, a, b, i, j);
      out := out + [DiffLine(Insert, b[j])];
      j := j + 1;
    }
    PrefixEnd(out, a, b);
  }

  // What the loops have pushed so far, completed by the walk from i and j, is the whole walk.
  ghost predicate IsPrefixOfWalk(out: Diff, a: seq<string>, b: seq<string>, i: nat, j: nat)
    requires i <= |a| && j <= |b|
  {
    out + Walk(a[i..], b[j..]) == Walk(a, b)
  }

  lemma PrefixStart(a: seq<string>, b: seq<string>)
    ensures IsPrefixOfWalk([], a, b, 0, 0)
  {
    assert a[0..] == a && b[0..] == b;
  }

  lemma PrefixEnd(out: Diff, a: seq<string>, b: seq<string>)
    requires IsPrefixOfWalk(out, a, b, |a|, |b|)
    ensures out == Walk(a, b)
  {}

  lemma PrefixKeep(out: Diff, a: seq<string>, b: seq<string>, i: nat, j: nat)
    requires i < |a| && j < |b| && a[i] == b[j] && IsPrefixOfWalk(out, a, b, i, j)
    ensures IsPrefixOfWalk(out + [DiffLine(Keep, a[i])], a, b, i + 1, j + 1)
  {
    assert a[i..][1..] == a[i + 1..] && b[j..][1..] == b[j + 1..];
  }

  lemma PrefixDelete(out: Diff, a: seq<string>, b: seq<string>, i: nat, j: nat)
    requires i < |a| && j <= |b| && IsPrefixOfWalk(out, a, b, i, j)
    requires j == |b| || (a[i] != b[j] && Lcs(a[i + 1..], b[j..]) >= Lcs(a[i..], b[j + 1..]))
    ensures IsPrefixOfWalk(out + [DiffLine(Delete, a[i])], a, b, i + 1, j)
  {
    assert a[i..][1..] == a[i + 1..];
    if j < |b| { assert b[j..][1..] == b[j + 1..]; }
  }

  lemma PrefixInsert(out: Diff, a: seq<string>, b: seq<string>, i: nat, j: nat)
    requires i <= |a| && j < |b| && IsPrefixOfWalk(out, a, b, i, j)
    requires i == |a| || (a[i] != b[j] && Lcs(a[i + 1..], b[j..]) < Lcs(a[i..], b[j + 1..]))
    ensures IsPrefixOfWalk(out + [DiffLine(Insert, b[j])], a, b, i, j + 1)
  {
    assert b[j..][1..] == b[j + 1..];
    if i < |a| { assert a[i..][1..] == a[i + 1..]; }
  }

  // ----- the table ------------------------------------------------------------

  // Dropping a line from either side never gains, and loses at most one.
  lemma {:induction false} LcsSteps(a: seq<string>, b: seq<string>)
    ensures a != [] ==> Lcs(a[1..], b) <= Lcs(a, b) <= Lcs(a[1..], b) + 1
    ensures b != [] ==> Lcs(a, b[1..]) <= Lcs(a, b) <= Lcs(a, b[1..]) + 1
    decreases |a| + |b|
  {
    if a != [] && b != [] {
      LcsSteps(a[1..], b);
      LcsSteps(a, b[1..]);
      LcsSteps(a[1..], b[1..]);
    }
  }

  lemma {:induction false} SubsequenceTail(s: seq<string>, t: seq<string>)
    requires s != [] && IsSubsequence(s, t)
    ensures t != [] && IsSubsequence(s[1..], t[1..])
    decreases |t|
  {
    if s[0] != t[0] || !IsSubsequence(s[1..], t[1..]) {
      SubsequenceTail(s, t[1..]);
      SubsequenceOfTail(s[1..], t[1..]);
    }
  }

  lemma {:induction false} SubsequenceOfTail(s: seq<string>, t: seq<string>)
    requires t != [] && IsSubsequence(s, t[1..])
    ensures IsSubsequence(s, t)
  {}

  // The corner of the table bounds every common subsequence.
  lemma {:induction false} LcsBoundsCommon(s: seq<string>, a: seq<string>, b: seq<string>)
    requires IsCommon(s, a, b)
    ensures |s| <= Lcs(a, b)
    decreases |a| + |b|
  {
    if s != [] {
      SubsequenceTail(s, a);
      SubsequenceTail(s, b);
      if a[0] == b[0] {
        LcsBoundsCommon(s[1..], a[1..], b[1..]);
      } else if s[0] != a[0] {
        LcsBoundsCommon(s, a[1..], b);
      } else {
        LcsBoundsCommon(s, a, b[1..]);
      }
    }
  }

  // ----- scripts ---------------------------------------------------------------

  lemma {:induction false} KeptIsCommon(d: Diff, a: seq<string>, b: seq<string>)
    requires IsScript(d, a, b)
    ensures IsCommon(Kept(d), a, b)
    ensures Edits(d) + 2 * |Kept(d)| == |a| + |b|
  {
    if d != [] {
      var a' := Before(d[1..]);
      var b' := After(d[1..]);
      KeptIsCommon(d[1..], a', b');
      if !d[0].kind.Insert? { assert a[1..] == a'; }
      if !d[0].kind.Delete? { assert b[1..] == b'; }
      match d[0].kind {
        case Keep => assert Kept(d)[1..] == Kept(d[1..]);
        case Delete => assert Kept(d) == Kept(d[1..]); assert b == b'; SubsequenceOfTail(Kept(d), a);
        case Insert => assert Kept(d) == Kept(d[1..]); assert a == a'; SubsequenceOfTail(Kept(d), b);
      }
    }
  }

  // The lines left after one diff line of the given kind.
  function Rest(k: Kind, a: seq<string>, b: seq<string>): (seq<string>, seq<string>)
    requires (k.Insert? || a != []) && (k.Delete? || b != [])
  {
    match k case Keep => (a[1..], b[1..]) case Delete => (a[1..], b) case Insert => (a, b[1..])
  }

  lemma ScriptCons(line: DiffLine, d: Diff, a: seq<string>, b: seq<string>)
    requires line.kind.Insert? || (a != [] && a[0] == line.text)
    requires line.kind.Delete? || (b != [] && b[0] == line.text)
    requires IsScript(d, Rest(line.kind, a, b).0, Rest(line.kind, a, b).1)
    ensures IsScript([line] + d, a, b)
  {
    assert ([line] + d)[1..] == d;
    if a != [] { assert a == [a[0]] + a[1..]; }
    if b != [] { assert b == [b[0]] + b[1..]; }
  }

  lemma {:induction false} WalkIsScript(a: seq<string>, b: seq<string>)
    ensures IsScript(Walk(a, b), a, b)
    decreases |a| + |b|
  {
    if a != [] || b != [] {
      hide Lcs, IsScript;
      var d := Walk(a, b);
      var (a', b') := Rest(d[0].kind, a, b);
      WalkIsScript(a', b');
      ScriptCons(d[0], Walk(a', b'), a, b);
    }
  }

  lemma {:induction false} WalkKeepsLcs(a: seq<string>, b: seq<string>)
    ensures |Kept(Walk(a, b))| == Lcs(a, b)
    decreases |a| + |b|
  {
    if a == [] && b == [] {
    } else {
      var d := Walk(a, b);
      var (a', b') := Rest(d[0].kind, a, b);
      assert d[1..] == Walk(a', b');
      WalkKeepsLcs(a', b');
    }
  }

  /** The diff spells both texts, keeps a longest common subsequence, and no script edits fewer lines. */
  lemma DiffIsMinimal(a: seq<string>, b: seq<string>)
    ensures IsMinimal(Walk(a, b), a, b)
    ensures IsCommon(Kept(Walk(a, b)), a, b)
    ensures forall s :: IsCommon(s, a, b) ==> |s| <= |Kept(Walk(a, b))|
  {
    var d := Walk(a, b);
    WalkIsScript(a, b);
    WalkKeepsLcs(a, b);
    KeptIsCommon(d, a, b);
    forall s | IsCommon(s, a, b) ensures |s| <= |Kept(d)| {
      LcsBoundsCommon(s, a, b);
    }
    forall e: Diff | IsScript(e, a, b) ensures Edits(d) <= Edits(e) {
      KeptIsCommon(e, a, b);
    }
  }

  // ----- which minimal script ----------------------------------------------------

  // A script that starts with a given kind leaves a script of the rest.
  lemma ScriptTail(e: Diff, a: seq<string>, b: seq<string>)
    requires e != [] && IsScript(e, a, b)
    ensures e[0].kind.Keep? ==> a != [] && b != [] && a[0] == b[0] == e[0].text && IsScript(e[1..], a[1..], b[1..])
    ensures e[0].kind.Delete? ==> a != [] && a[0] == e[0].text && IsScript(e[1..], a[1..], b)
    ensures e[0].kind.Insert? ==> b != [] && b[0] == e[0].text && IsScript(e[1..], a, b[1..])
  {
    if !e[0].kind.Insert? { assert a[1..] == Before(e[1..]); }
    if !e[0].kind.Delete? { assert b[1..] == After(e[1..]); }
  }

  lemma {:induction false} WalkIsLeast(a: seq<string>, b: seq<string>, e: Diff)
    requires IsScript(e, a, b) && |Kept(e)| == Lcs(a, b)
    ensures DiffLe(Walk(a, b), e)
    decreases |a| + |b|
  {
    var d := Walk(a, b);
    if d != [] {
      ScriptTail(e, a, b);
      var (a', b') := Rest(e[0].kind, a, b);
      KeptIsCommon(e[1..], a', b');
      LcsBoundsCommon(Kept(e[1..]), a', b');
      if e[0].kind == d[0].kind {
        assert d[1..] == Walk(a', b');
        WalkIsLeast(a', b', e[1..]);
      }
    }
  }

  lemma {:induction false} DiffLeAntisymmetric(d: Diff, e: Diff, a: seq<string>, b: seq<string>)
    requires IsScript(d, a, b) && IsScript(e, a, b) && DiffLe(d, e) && DiffLe(e, d)
    ensures d == e
  {
    if d != [] {
      ScriptTail(d, a, b);
      ScriptTail(e, a, b);
      var (a', b') := Rest(d[0].kind, a, b);
      DiffLeAntisymmetric(d[1..], e[1..], a', b');
      assert d == [d[0]] + d[1..] && e == [e[0]] + e[1..];
    }
  }

  /** Canonical: the diff is the one minimal script that comes first in dictionary order. */
  lemma DiffIsTheLeastMinimalScript(a: seq<string>, b: seq<string>, d: Diff)
    ensures (IsMinimal(d, a, b) && forall e: Diff :: IsMinimal(e, a, b) ==> DiffLe(d, e)) <==> d == Walk(a, b)
  {
    var w := Walk(a, b);
    DiffIsMinimal(a, b);
    WalkIsScript(a, b);
    WalkKeepsLcs(a, b);
    KeptIsCommon(w, a, b);
    forall e: Diff | IsMinimal(e, a, b) ensures DiffLe(w, e) {
      KeptIsCommon(e, a, b);
      WalkIsLeast(a, b, e);
    }
    if IsMinimal(d, a, b) && forall e: Diff :: IsMinimal(e, a, b) ==> DiffLe(d, e) {
      DiffLeAntisymmetric(d, w, a, b);
    }
  }

  /** Inside a changed block every '-' line precedes every '+' line, drains included. */
  lemma {:induction false} NoInsertBeforeDelete(a: seq<string>, b: seq<string>, k: nat)
    requires k + 1 < |Walk(a, b)|
    ensures !(Walk(a, b)[k].kind.Insert? && Walk(a, b)[k + 1].kind.Delete?)
    decreases |a| + |b|
  {
    var d := Walk(a, b);
    if d[0].kind.Insert? {
      LcsSteps(a, b[1..]);
      if a != [] { LcsSteps(a[1..], b); }
    }
    if k > 0 {
      match d[0].kind {
        case Keep => NoInsertBeforeDelete(a[1..], b[1..], k - 1);
        case Delete => NoInsertBeforeDelete(a[1..], b, k - 1);
        case Insert => NoInsertBeforeDelete(a, b[1..], k - 1);
      }
    }
  }

  // ----- whole texts ---------------------------------------------------------------

  // text.split('\n')
  function Split(s: string): (lines: seq<string>)
    ensures lines != []
  {
    if s == [] then [""]
    else
      var rest := Split(s[1..]);
      if s[0] == '\n' then [""] + rest else [[s[0]] + rest[0]] + rest[1..]
  }

  // lines.join('\n')
  function Join(lines: seq<string>): string {
    if lines == [] then "" else if |lines| == 1 then lines[0] else lines[0] + "\n" + Join(lines[1..])
  }

  lemma {:induction false} JoinSplit(s: string)
    ensures Join(Split(s)) == s
  {
    if s != [] {
      var rest := Split(s[1..]);
      JoinSplit(s[1..]);
      assert s == [s[0]] + s[1..];
      if s[0] == '\n' {
        assert Split(s)[1..] == rest;
      } else {
        assert Split(s)[1..] == rest[1..];
      }
    }
  }

  ghost predicate AreLines(lines: seq<string>) { forall l :: l in lines ==> '\n' !in l }

  lemma {:induction false} SplitIsLines(s: string)
    ensures AreLines(Split(s))
  {
    if s != [] {
      var rest := Split(s[1..]);
      SplitIsLines(s[1..]);
      assert rest == [rest[0]] + rest[1..];
      if s[0] != '\n' {
        forall l | l in Split(s) ensures '\n' !in l {
          if l != [s[0]] + rest[0] { assert l in rest; } else { assert '\n' !in rest[0]; }
        }
      }
    }
  }

  lemma {:induction false} SplitLine(l: string, rest: string)
    requires '\n' !in l
    ensures Split(l + "\n" + rest) == [l] + Split(rest)
    ensures Split(l) == [l]
  {
    if l == [] {
      assert l + "\n" + rest == "\n" + rest && ("\n" + rest)[1..] == rest;
    } else {
      var tail := l[1..];
      SplitLine(tail, rest);
      assert (l + "\n" + rest)[1..] == tail + "\n" + rest;
      assert [l[0]] + tail == l;
      assert ([tail] + Split(rest))[1..] == Split(rest);
    }
  }

  /** Splitting and joining undo each other: a text is the join of its newline-free lines, and of no others. */
  lemma {:induction false} SplitJoin(lines: seq<string>)
    requires lines != [] && AreLines(lines)
    ensures Split(Join(lines)) == lines
  {
    if |lines| == 1 {
      SplitLine(lines[0], "");
    } else {
      SplitJoin(lines[1..]);
      SplitLine(lines[0], Join(lines[1..]));
      assert lines == [lines[0]] + lines[1..];
    }
  }

  // An empty old text has no lines; an empty new text has one empty line.
  function LinesBefore(before: string): seq<string> {
    if before == "" then [] else Split(before)
  }

  method DiffTexts(before: string, after: string) returns (out: Diff)
    ensures out == Walk(LinesBefore(before), Split(after))
    ensures Join(Before(out)) == before && Join(After(out)) == after
    ensures (Before(out) == [] <==> before == "") && After(out) != []
    ensures AreLines(Before(out)) && AreLines(After(out))
  {
    out := DiffLines(LinesBefore(before), Split(after));
    WalkIsScript(LinesBefore(before), Split(after));
    JoinSplit(before);
    JoinSplit(after);
    SplitIsLines(before);
    SplitIsLines(after);
  }

  /** The diff of a new file is its lines, each inserted, and nothing else. */
  lemma {:induction false} WalkFromNothing(b: seq<string>)
    ensures |Walk([], b)| == |b|
    ensures forall k :: 0 <= k < |b| ==> Walk([], b)[k] == DiffLine(Insert, b[k])
  {
    if b != [] { WalkFromNothing(b[1..]); }
  }
}
