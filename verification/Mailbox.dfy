/** The demo store's mail catcher: a bounded newest-first list that refines an unbounded log. */
module Mailbox {
  import opened Text

  const MAX_MESSAGES: nat := 200

  datatype Draft = Draft(to: string, from: string, subject: string, text: string, html: Option<string>)

  datatype Mail = Mail(id: string, draft: Draft, receivedAt: int)

  function MailId(n: nat): string { "mail-" + Decimal(n) }

  lemma MailIdsDiffer(m: nat, n: nat)
    requires MailId(m) == MailId(n)
    ensures m == n
  {
    assert Decimal(m) == MailId(m)[5..] && Decimal(n) == MailId(n)[5..];
    DecimalInjective(m, n);
  }

  // ----- the bounded box -----------------------------------------------------------

  datatype Box = Box(messages: seq<Mail>, seqNo: nat)

  const EMPTY: Box := Box([], 0)

  function First<T>(s: seq<T>, n: nat): seq<T> { if |s| > n then s[..n] else s }

  function Added(box: Box, draft: Draft, now: int): Box {
    Box(First([Mail(MailId(box.seqNo + 1), draft, now)] + box.messages, MAX_MESSAGES), box.seqNo + 1)
  }

  function Cleared(box: Box): Box { box.(messages := []) }

  predicate IsTo(m: Mail, to: string) { Lower(m.draft.to) == Lower(to) }

  function Filter(ms: seq<Mail>, to: string): seq<Mail> {
    if ms == [] then [] else (if IsTo(ms[0], to) then [ms[0]] else []) + Filter(ms[1..], to)
  }

  // `to` absent or empty lists everything.
  function Listed(box: Box, to: Option<string>): seq<Mail> {
    if to.None? || to.value == "" then box.messages else Filter(box.messages, to.value)
  }

  class Catcher {
    var messages: seq<Mail>
    var seqNo: nat

    ghost function Contents(): Box
      reads this
    {
      Box(messages, seqNo)
    }

    constructor ()
      ensures Contents() == EMPTY
    {
      messages, seqNo := [], 0;
    }

    method Add(draft: Draft, now: int) returns (entry: Mail)
      modifies this
      ensures Contents() == Added(old(Contents()), draft, now)
      ensures entry == Mail("mail-" + Decimal(seqNo), draft, now) && messages[0] == entry
    {
      seqNo := seqNo + 1;
      entry := Mail(MailId(seqNo), draft, now);
      messages := [entry] + messages;
      if |messages| > MAX_MESSAGES {
        messages := messages[..MAX_MESSAGES];
      }
    }

    method List(to: Option<string>) returns (r: seq<Mail>)
      ensures r == Listed(Contents(), to)
    {
      hide IsTo, Filter;
      if to.None? || to.value == "" {
        return messages;
      }
      r := [];
      assert messages[0..] == messages;
      for i := 0 to |messages|
        invariant Filter(messages, to.value) == r + Filter(messages[i..], to.value)
      {
        FilterCons(r, messages[i..], to.value);
        assert messages[i..][1..] == messages[i + 1..];
        if IsTo(messages[i], to.value) {
          r := r + [messages[i]];
        }
      }
      NothingToFilter(to.value);
    }

    method LatestFor(to: string) returns (r: Option<Mail>)
      ensures r == LatestOf(Contents(), to)
    {
      var ms := List(Some(to));
      r := if ms == [] then None else Some(ms[0]);
    }

    method Clear()
      modifies this
      ensures Contents() == Cleared(old(Contents()))
    {
      messages := [];
    }
  }

  lemma NothingToFilter(to: string)
    ensures Filter([], to) == []
  {}

  lemma FilterCons(r: seq<Mail>, ms: seq<Mail>, to: string)
    requires ms != []
    ensures r + Filter(ms, to) == (if IsTo(ms[0], to) then r + [ms[0]] else r) + Filter(ms[1..], to)
  {
    hide IsTo;
    var head, rest := if IsTo(ms[0], to) then [ms[0]] else [], Filter(ms[1..], to);
    assert Filter(ms, to) == head + rest;
    hide Filter;
    assert r + (head + rest) == r + head + rest && r + [] == r;
  }

  function LatestOf(box: Box, to: string): Option<Mail> {
    var ms := Listed(box, Some(to));
    if ms == [] then None else Some(ms[0])
  }

  // ----- the unbounded log -----------------------------------------------------------

  datatype Op = Post(draft: Draft, now: int) | Wipe

  function Run(ops: seq<Op>): Box {
    if ops == [] then EMPTY
    else
      var box := Run(ops[..|ops| - 1]);
      match ops[|ops| - 1]
      case Post(draft, now) => Added(box, draft, now)
      case Wipe => Cleared(box)
  }

  function Posts(ops: seq<Op>): nat {
    if ops == [] then 0 else Posts(ops[..|ops| - 1]) + (if ops[|ops| - 1].Post? then 1 else 0)
  }

  // Every mail since the last wipe, newest first, numbered by the posts of the whole run.
  function Log(ops: seq<Op>): seq<Mail> {
    if ops == [] then []
    else
      var before := ops[..|ops| - 1];
      match ops[|ops| - 1]
      case Post(draft, now) => [Mail(MailId(Posts(before) + 1), draft, now)] + Log(before)
      case Wipe => []
  }

  /** The box is always the newest 200 entries of the log, and the counter never restarts. */
  lemma {:induction false} BoxIsLogPrefix(ops: seq<Op>)
    ensures Run(ops) == Box(First(Log(ops), MAX_MESSAGES), Posts(ops))
    ensures Run(ops).messages == if |Log(ops)| > 200 then Log(ops)[..200] else Log(ops)
  {
    if ops != [] {
      BoxIsLogPrefix(ops[..|ops| - 1]);
    }
  }

  lemma {:induction false} LogNumbers(ops: seq<Op>) returns (ns: seq<nat>)
    ensures |ns| == |Log(ops)|
    ensures forall i :: 0 <= i < |ns| ==> Log(ops)[i].id == MailId(ns[i]) && 0 < ns[i] <= Posts(ops)
    ensures forall i, j :: 0 <= i < j < |ns| ==> ns[i] > ns[j]
  {
    ns := [];
    if ops != [] {
      var rest := LogNumbers(ops[..|ops| - 1]);
      ns := if ops[|ops| - 1].Post? then [Posts(ops)] + rest else [];
    }
  }

  ghost predicate StrictlyNewestFirst(ms: seq<Mail>, upTo: nat) {
    forall i, j, m: nat, n: nat :: 0 <= i < j < |ms| && ms[i].id == MailId(m) && ms[j].id == MailId(n) ==> n < m <= upTo
  }

  /** Sequence numbers strictly decrease along the box. */
  lemma BoxIsNewestFirst(ops: seq<Op>)
    ensures StrictlyNewestFirst(Run(ops).messages, Posts(ops))
  {
    BoxIsLogPrefix(ops);
    var ns := LogNumbers(ops);
    var ms := Run(ops).messages;
    forall i, j, m: nat, n: nat | 0 <= i < j < |ms| && ms[i].id == MailId(m) && ms[j].id == MailId(n)
      ensures n < m <= Posts(ops)
    {
      MailIdsDiffer(m, ns[i]);
      MailIdsDiffer(n, ns[j]);
    }
  }

  lemma {:induction false} PostsGrow(ops: seq<Op>, k: nat)
    requires k <= |ops|
    ensures Posts(ops[..k]) <= Posts(ops)
    decreases |ops|
  {
    if k == |ops| {
      assert ops[..k] == ops;
    } else {
      assert ops[..|ops| - 1][..k] == ops[..k];
      PostsGrow(ops[..|ops| - 1], k);
    }
  }

  /** No id is ever handed out twice, wipes or not. */
  lemma IdsNeverReused(ops: seq<Op>, i: nat, j: nat)
    requires i < j < |ops| && ops[i].Post? && ops[j].Post?
    ensures Log(ops[..i + 1])[0].id != Log(ops[..j + 1])[0].id
  {
    assert ops[..i + 1][..i] == ops[..i] && ops[..j + 1][..j] == ops[..j];
    assert ops[..j][..i + 1] == ops[..i + 1];
    PostsGrow(ops[..j], i + 1);
    if MailId(Posts(ops[..i]) + 1) == MailId(Posts(ops[..j]) + 1) {
      MailIdsDiffer(Posts(ops[..i]) + 1, Posts(ops[..j]) + 1);
    }
  }

  // ----- lookups ---------------------------------------------------------------------

  lemma {:induction false} FilterMembers(ms: seq<Mail>, to: string, m: Mail)
    ensures m in Filter(ms, to) <==> m in ms && IsTo(m, to)
  {
    if ms != [] {
      FilterMembers(ms[1..], to, m);
      assert m in ms <==> m == ms[0] || m in ms[1..];
    }
  }

  lemma {:induction false} FilterFirst(ms: seq<Mail>, to: string, k: nat)
    requires k < |ms| && IsTo(ms[k], to)
    requires forall i :: 0 <= i < k ==> !IsTo(ms[i], to)
    ensures Filter(ms, to) != [] && Filter(ms, to)[0] == ms[k]
  {
    if k > 0 {
      FilterFirst(ms[1..], to, k - 1);
    }
  }

  ghost predicate IsPickedFrom(r: seq<Mail>, ms: seq<Mail>, at: seq<nat>) {
    && |r| == |at|
    && (forall k :: 0 <= k < |at| ==> at[k] < |ms| && r[k] == ms[at[k]])
    && (forall k, l :: 0 <= k < l < |at| ==> at[k] < at[l])
  }

  // Places in a list without its head, as places in the list.
  lemma OnePlaceOn(rest: seq<nat>, r: seq<Mail>, ms: seq<Mail>) returns (at: seq<nat>)
    requires ms != [] && IsPickedFrom(r, ms[1..], rest)
    ensures IsPickedFrom(r, ms, at) && 0 !in at
    ensures forall i: nat :: i > 0 ==> (i in at <==> i - 1 in rest)
  {
    at := seq(|rest|, k requires 0 <= k < |rest| => rest[k] + 1);
    forall i: nat | i > 0 && i - 1 in rest ensures i in at {
      var k :| 0 <= k < |rest| && rest[k] == i - 1;
      assert at[k] == i;
    }
  }

  lemma NothingPicked()
    ensures IsPickedFrom([], [], [])
  {}

  lemma HeadPicked(r: seq<Mail>, ms: seq<Mail>, at: seq<nat>)
    requires ms != [] && IsPickedFrom(r, ms, at) && 0 !in at
    ensures IsPickedFrom([ms[0]] + r, ms, [0] + at)
  {}

  lemma {:induction false} FilterPicks(ms: seq<Mail>, to: string) returns (at: seq<nat>)
    ensures IsPickedFrom(Filter(ms, to), ms, at)
    ensures forall i: nat :: i in at <==> i < |ms| && IsTo(ms[i], to)
  {
    hide IsTo, IsPickedFrom;
    if ms == [] {
      at := [];
      NothingPicked();
    } else {
      var rest := FilterPicks(ms[1..], to);
      at := OnePlaceOn(rest, Filter(ms[1..], to), ms);
      assert forall i: nat :: i > 0 ==> (i in at <==> i < |ms| && IsTo(ms[i], to));
      if IsTo(ms[0], to) {
        HeadPicked(Filter(ms[1..], to), ms, at);
        at := [0] + at;
      } else {
        assert [] + Filter(ms[1..], to) == Filter(ms[1..], to);
      }
    }
  }

  /** The list is the whole box for no recipient, and else, in order, the mails whose recipient reads the same
      but for case. */
  lemma ListedIs(box: Box, to: Option<string>) returns (at: seq<nat>)
    ensures IsPickedFrom(Listed(box, to), box.messages, at)
    ensures forall i: nat :: i in at <==>
              i < |box.messages| && (to == None || to == Some("") || Lower(box.messages[i].draft.to) == Lower(to.value))
  {
    if to.None? || to.value == "" {
      at := seq(|box.messages|, i => i);
      forall i: nat ensures i in at <==> i < |box.messages| {
        if i < |box.messages| { assert at[i] == i; }
      }
    } else {
      at := FilterPicks(box.messages, to.value);
    }
  }

  /** The latest mail for an address is the newest of the last 200 logged that is addressed to it. */
  lemma LatestIsNewest(ops: seq<Op>, to: string, k: nat)
    requires to != "" && k < |Log(ops)| && IsTo(Log(ops)[k], to)
    requires forall i :: 0 <= i < k ==> !IsTo(Log(ops)[i], to)
    ensures LatestOf(Run(ops), to) == if k < 200 then Some(Log(ops)[k]) else None
  {
    BoxIsLogPrefix(ops);
    if k < MAX_MESSAGES {
      FilterFirst(Run(ops).messages, to, k);
    } else if LatestOf(Run(ops), to).Some? {
      FilterMembers(Run(ops).messages, to, LatestOf(Run(ops), to).value);
    }
  }

  /** A message just added is the latest for its own address. */
  lemma LatestAdded(box: Box, draft: Draft, now: int)
    ensures LatestOf(Added(box, draft, now), draft.to) == Some(Mail(MailId(box.seqNo + 1), draft, now))
  {
    var ms := Added(box, draft, now).messages;
    assert ms[0] == Mail(MailId(box.seqNo + 1), draft, now);
    FilterFirst(ms, draft.to, 0);
  }

  // ----- reading a code out of a mail ---------------------------------------------------

  predicate IsWord(c: char) { IsDigit(c) || 'a' <= c <= 'z' || 'A' <= c <= 'Z' || c == '_' }

  // Four to eight digits from i on, with a word boundary at both ends.
  predicate CodeAt(s: string, i: nat) {
    var e := DigitsEnd(s, i);
    && i + 4 <= e <= i + 8
    && (i == 0 || i > |s| || !IsWord(s[i - 1]))
    && (e >= |s| || !IsWord(s[e]))
  }

  // The digits of a match at i.
  function CodeText(s: string, i: nat): string
    requires i <= |s|
  {
    DigitsEndBounds(s, i);
    s[i..DigitsEnd(s, i)]
  }

  function CodeFromIndex(s: string, i: nat): Option<string>
    decreases |s| - i
  {
    if i >= |s| then None
    else if CodeAt(s, i) then Some(CodeText(s, i))
    else CodeFromIndex(s, i + 1)
  }

  // The first match of /\b(\d{4,8})\b/.
  function ExtractCode(body: string): Option<string> { CodeFromIndex(body, 0) }

  ghost predicate IsFirstCode(s: string, from: nat, i: nat) {
    from <= i < |s| && CodeAt(s, i) && forall j :: from <= j < i ==> !CodeAt(s, j)
  }

  lemma {:induction false} CodeFromIndexIs(s: string, from: nat, c: string)
    ensures CodeFromIndex(s, from) == Some(c) <==> exists i: nat :: IsFirstCode(s, from, i) && c == CodeText(s, i)
    ensures CodeFromIndex(s, from).None? <==> forall i: nat :: from <= i < |s| ==> !CodeAt(s, i)
    decreases |s| - from
  {
    hide CodeAt;
    if from < |s| {
      DigitsEndBounds(s, from);
      if CodeAt(s, from) {
        assert IsFirstCode(s, from, from);
        forall i: nat | IsFirstCode(s, from, i) ensures i == from {}
      } else {
        CodeFromIndexIs(s, from + 1, c);
        forall i: nat ensures IsFirstCode(s, from, i) <==> IsFirstCode(s, from + 1, i) {}
      }
    }
  }

  predicate IsWordChar(c: char) { c in DIGITS || c in CAPITALS || c in LETTERS || c == '_' }

  // Four to eight digits from i up to j, with no word character on either side.
  ghost predicate IsCodeSpan(s: string, i: nat, j: nat) {
    && i + 4 <= j <= i + 8 && j <= |s|
    && (forall k :: i <= k < j ==> s[k] in DIGITS)
    && (i > 0 ==> !IsWordChar(s[i - 1]))
    && (j < |s| ==> !IsWordChar(s[j]))
  }

  lemma WordCharsAre(c: char)
    ensures IsWord(c) <==> IsWordChar(c)
    ensures IsDigit(c) <==> c in DIGITS
    ensures IsDigit(c) ==> IsWord(c)
  {
    DigitsAre(c);
    CapitalsAre(c);
    LettersAre(c);
  }

  lemma {:induction false} DigitsEndStops(s: string, i: nat)
    requires i <= |s|
    ensures i <= DigitsEnd(s, i) <= |s| && forall k :: i <= k < DigitsEnd(s, i) ==> IsDigit(s[k])
    ensures DigitsEnd(s, i) < |s| ==> !IsDigit(s[DigitsEnd(s, i)])
    decreases |s| - i
  {
    if i < |s| && IsDigit(s[i]) { DigitsEndStops(s, i + 1); }
  }

  lemma CharsAre(s: string)
    ensures forall k :: 0 <= k < |s| ==>
              && (IsWord(s[k]) <==> IsWordChar(s[k])) && (IsDigit(s[k]) <==> s[k] in DIGITS)
              && (IsDigit(s[k]) ==> IsWord(s[k]))
  {
    hide IsWord, IsWordChar, IsDigit;
    forall k | 0 <= k < |s|
      ensures (IsWord(s[k]) <==> IsWordChar(s[k])) && (IsDigit(s[k]) <==> s[k] in DIGITS)
      ensures IsDigit(s[k]) ==> IsWord(s[k])
    {
      WordCharsAre(s[k]);
    }
  }

  lemma SpanEnds(s: string, i: nat, j: nat)
    requires IsCodeSpan(s, i, j)
    ensures DigitsEnd(s, i) == j && CodeAt(s, i) && CodeText(s, i) == s[i..j]
  {
    hide IsWord, IsWordChar, IsDigit;
    CharsAre(s);
    DigitsEndAt(s, i, j);
  }

  lemma CodeAtIsSpan(s: string, i: nat)
    requires i <= |s| && CodeAt(s, i)
    ensures IsCodeSpan(s, i, DigitsEnd(s, i))
  {
    hide IsWord, IsWordChar, IsDigit;
    CharsAre(s);
    DigitsEndStops(s, i);
  }

  /** The code extracted is the span of four to eight digits, apart from other words, that begins first;
      there is none exactly when the text has no such span. */
  lemma ExtractCodeIsFirst(s: string, c: string)
    ensures ExtractCode(s) == Some(c) <==>
            exists i: nat, j: nat :: IsCodeSpan(s, i, j) && c == s[i..j]
                                     && forall i': nat, j': nat :: i' < i ==> !IsCodeSpan(s, i', j')
    ensures ExtractCode(s).None? <==> forall i: nat, j: nat :: !IsCodeSpan(s, i, j)
  {
    hide CodeAt, IsCodeSpan;
    CodeFromIndexIs(s, 0, c);
    forall i: nat, j: nat | IsCodeSpan(s, i, j)
      ensures i < |s| && CodeAt(s, i) && i <= j <= |s| && CodeText(s, i) == s[i..j]
    {
      SpanIsInside(s, i, j);
      SpanEnds(s, i, j);
    }
    forall i: nat | i < |s| && CodeAt(s, i)
      ensures IsCodeSpan(s, i, DigitsEnd(s, i)) && CodeText(s, i) == s[i..DigitsEnd(s, i)]
    {
      CodeAtIsSpan(s, i);
    }
  }

  lemma SpanIsInside(s: string, i: nat, j: nat)
    requires IsCodeSpan(s, i, j)
    ensures i < j <= |s|
  {}

  lemma {:induction false} SkipToCode(s: string, i: nat, k: nat)
    requires i <= k <= |s| && forall j :: i <= j < k ==> !IsDigit(s[j])
    ensures CodeFromIndex(s, i) == CodeFromIndex(s, k)
    decreases k - i
  {
    if i < k { SkipToCode(s, i + 1, k); }
  }

  lemma {:induction false} DigitsEndShift(a: string, s: string, i: nat)
    requires i <= |s|
    ensures DigitsEnd(a + s, |a| + i) == |a| + DigitsEnd(s, i)
    decreases |s| - i
  {
    if i < |s| {
      assert (a + s)[|a| + i] == s[i];
      DigitsEndShift(a, s, i + 1);
    }
  }

  // What stands before a text does not matter from its second character on.
  lemma {:induction false} CodeShift(a: string, s: string, i: nat)
    requires 0 < i <= |s|
    ensures CodeFromIndex(a + s, |a| + i) == CodeFromIndex(s, i)
    decreases |s| - i
  {
    if i < |s| {
      CodeAtShift(a, s, i);
      CodeShift(a, s, i + 1);
    }
  }

  lemma CodeAtShift(a: string, s: string, i: nat)
    requires 0 < i < |s|
    ensures CodeAt(a + s, |a| + i) == CodeAt(s, i)
    ensures CodeText(a + s, |a| + i) == CodeText(s, i)
  {
    var e := DigitsEnd(s, i);
    DigitsEndShift(a, s, i);
    DigitsEndBounds(s, i);
    assert (a + s)[|a| + i - 1] == s[i - 1];
    assert e < |s| ==> (a + s)[|a| + e] == s[e];
    assert (a + s)[|a| + i..|a| + e] == s[i..e];
  }

  // No code starts right after a digit.
  lemma {:induction false} DigitsAreSkipped(s: string, i: nat, j: nat)
    requires 0 < i <= j <= |s| && forall k :: i - 1 <= k < j - 1 ==> IsDigit(s[k])
    ensures CodeFromIndex(s, i) == CodeFromIndex(s, j)
    decreases j - i
  {
    if i < j { DigitsAreSkipped(s, i + 1, j); }
  }

  /** Nine digits or more are no code: the text after them is searched instead. */
  lemma LongNumberIsSkipped(before: string, number: string, after: string)
    requires AllDigits(number) && |number| > 8
    requires forall k :: 0 <= k < |before| ==> !IsDigit(before[k])
    requires after != [] && !IsDigit(after[0])
    ensures ExtractCode(before + number + after) == ExtractCode(after)
  {
    var s := before + number + after;
    var i, j := |before|, |before| + |number|;
    assert forall k :: 0 <= k < i ==> s[k] == before[k];
    assert forall k :: i <= k < j ==> s[k] == number[k - i];
    assert s[j] == after[0];
    SkipToCode(s, 0, i);
    DigitsEndAt(s, i, j);
    assert !CodeAt(s, i);
    DigitsAreSkipped(s, i + 1, j);
    DigitsAreSkipped(s, j, j + 1);
    SkipToCode(after, 0, 1);
    CodeShift(before + number, after, 1);
  }

  /** In particular, the first digits of a text, when they are four to eight and stand apart from other words. */
  lemma ExtractsFirstCode(before: string, code: string, after: string)
    requires AllDigits(code) && 4 <= |code| <= 8
    requires forall k :: 0 <= k < |before| ==> !IsDigit(before[k])
    requires before != [] ==> !IsWord(before[|before| - 1])
    requires after != [] ==> !IsWord(after[0])
    ensures ExtractCode(before + code + after) == Some(code)
  {
    var s := before + code + after;
    var i, j := |before|, |before| + |code|;
    assert forall k :: 0 <= k < i ==> s[k] == before[k];
    assert forall k :: i <= k < j ==> s[k] == code[k - i];
    SkipToCode(s, 0, i);
    DigitsEndAt(s, i, j);
    assert s[i..j] == code;
  }
}
