/** Grouping a plan's skipped entries by the suffix the worker appends, in reading order. */
module PlanSkipped {
  import opened Text

  datatype Group = Other | EarnedNotStorable | NotEnumerated | NotApplicable

  datatype Tag = Tag(suffix: string, group: Group)

  // Distinct groups, none of them OTHER. Everything below holds for any such list of tags.
  type Tags = ts: seq<Tag> | AreGroups(ts) witness []

  predicate AreGroups(tags: seq<Tag>) {
    && (forall i :: 0 <= i < |tags| ==> tags[i].group != Other)
    && (forall i, j :: 0 <= i < j < |tags| ==> tags[i].group != tags[j].group)
  }

  const TAGS: Tags := [
    Tag(" \U{2014} earned, not yet storable", EarnedNotStorable),
    Tag(" \U{2014} not enumerated", NotEnumerated),
    Tag(" \U{2014} not applicable", NotApplicable)
  ]

  datatype Entry = Entry(what: string, why: string)

  datatype Section = Section(group: Group, entries: seq<Entry>)

  predicate EndsWith(s: string, suffix: string) {
    |suffix| <= |s| && s[|s| - |suffix|..] == suffix
  }

  function FindTag(tags: Tags, what: string): (r: Option<Tag>)
    ensures r.Some? ==> r.value in tags && EndsWith(what, r.value.suffix)
    ensures r.None? ==> forall t :: t in tags ==> !EndsWith(what, t.suffix)
  {
    if tags == [] then None
    else if EndsWith(what, tags[0].suffix) then Some(tags[0]) else FindTag(tags[1..], what)
  }

  function GroupOf(tags: Tags, e: Entry): Group {
    match FindTag(tags, e.what) case Some(t) => t.group case None => Other
  }

  // The entry as it is listed under its heading.
  function Stripped(tags: Tags, e: Entry): Entry {
    match FindTag(tags, e.what)
    case Some(t) => e.(what := e.what[..|e.what| - |t.suffix|])
    case None => e
  }

  // The stripped entries of one group, in input order.
  function Bucket(tags: Tags, skipped: seq<Entry>, g: Group): seq<Entry> {
    if skipped == [] then []
    else
      var last := skipped[|skipped| - 1];
      Bucket(tags, skipped[..|skipped| - 1], g) + (if GroupOf(tags, last) == g then [Stripped(tags, last)] else [])
  }

  function SectionOf(tags: Tags, skipped: seq<Entry>, g: Group): seq<Section> {
    var entries := Bucket(tags, skipped, g);
    if entries == [] then [] else [Section(g, entries)]
  }

  function Sections(tags: Tags, skipped: seq<Entry>, n: nat): seq<Section>
    requires n <= |tags|
  {
    if n == 0 then SectionOf(tags, skipped, Other)
    else Sections(tags, skipped, n - 1) + SectionOf(tags, skipped, tags[n - 1].group)
  }

  // The two collections hold every bucket of the entries read so far.
  ghost predicate Holds(other: seq<Entry>, byGroup: map<Group, seq<Entry>>, tags: Tags, read: seq<Entry>) {
    && other == Bucket(tags, read, Other)
    && forall g :: g != Other ==> (if g in byGroup then byGroup[g] else []) == Bucket(tags, read, g)
  }

  lemma BucketPlus(tags: Tags, read: seq<Entry>, e: Entry, g: Group)
    ensures Bucket(tags, read + [e], g) ==
            Bucket(tags, read, g) + (if GroupOf(tags, e) == g then [Stripped(tags, e)] else [])
  {
    assert (read + [e])[..|read|] == read;
  }

  lemma HoldsPlus(other: seq<Entry>, byGroup: map<Group, seq<Entry>>, tags: Tags, read: seq<Entry>, e: Entry)
    requires Holds(other, byGroup, tags, read)
    ensures var g := GroupOf(tags, e);
            if g == Other then Holds(other + [e], byGroup, tags, read + [e])
            else
              var bucket := (if g in byGroup then byGroup[g] else []) + [Stripped(tags, e)];
              Holds(other, byGroup[g := bucket], tags, read + [e])
  {
    hide Bucket;
    forall g ensures Bucket(tags, read + [e], g) ==
                     Bucket(tags, read, g) + (if GroupOf(tags, e) == g then [Stripped(tags, e)] else [])
    {
      BucketPlus(tags, read, e, g);
    }
  }

  method GroupSkipped(tags: Tags, skipped: seq<Entry>) returns (sections: seq<Section>)
    ensures sections == Sections(tags, skipped, |tags|)
  {
    hide Holds;
    var other: seq<Entry> := [];
    var byGroup: map<Group, seq<Entry>> := map[];
    assert Holds(other, byGroup, tags, skipped[..0]) by { NothingRead(tags); }
    for i := 0 to |skipped|
      invariant Holds(other, byGroup, tags, skipped[..i])
    {
      var entry := skipped[i];
      assert skipped[..i + 1] == skipped[..i] + [entry];
      HoldsPlus(other, byGroup, tags, skipped[..i], entry);
      var tag := FindTag(tags, entry.what);
      if tag.None? {
        other := other + [entry];
      } else {
        var stripped := entry.(what := entry.what[..|entry.what| - |tag.value.suffix|]);
        var bucket := if tag.value.group in byGroup then byGroup[tag.value.group] else [];
        byGroup := byGroup[tag.value.group := bucket + [stripped]];
      }
    }
    assert skipped[..|skipped|] == skipped;
    sections := ListSections(tags, skipped, other, byGroup);
  }

  lemma NothingRead(tags: Tags)
    ensures Holds([], map[], tags, [])
  {}

  method ListSections(tags: Tags, ghost skipped: seq<Entry>, other: seq<Entry>, byGroup: map<Group, seq<Entry>>)
      returns (sections: seq<Section>)
    requires Holds(other, byGroup, tags, skipped)
    ensures sections == Sections(tags, skipped, |tags|)
  {
    hide Bucket;
    sections := [];
    if |other| > 0 {
      sections := sections + [Section(Other, other)];
    }
    for i := 0 to |tags|
      invariant sections == Sections(tags, skipped, i)
    {
      if tags[i].group in byGroup && byGroup[tags[i].group] != [] {
        sections := sections + [Section(tags[i].group, byGroup[tags[i].group])];
      }
    }
  }

  // ----- the declared tags ------------------------------------------------------------------

  lemma SuffixesOfOne(what: string, s: string, t: string)
    requires EndsWith(what, s) && EndsWith(what, t) && |s| <= |t|
    ensures EndsWith(t, s)
  {
    assert what[|what| - |t|..][|t| - |s|..] == what[|what| - |s|..];
  }

  /** No entry carries two of the declared tags, so the order in which they are tried does not matter. */
  lemma AtMostOneTag(what: string, i: nat, j: nat)
    requires i < |TAGS| && j < |TAGS| && EndsWith(what, TAGS[i].suffix) && EndsWith(what, TAGS[j].suffix)
    ensures i == j
  {
    var s, t := TAGS[i].suffix, TAGS[j].suffix;
    if |s| <= |t| { SuffixesOfOne(what, s, t); } else { SuffixesOfOne(what, t, s); }
    assert TAGS[0].suffix[|TAGS[0].suffix| - 2..] == "le" && TAGS[1].suffix[|TAGS[1].suffix| - 2..] == "ed";
    assert TAGS[2].suffix[|TAGS[2].suffix| - 2..] == "le";
  }

  // ----- putting the suffixes back -------------------------------------------------------------

  function SuffixOf(tags: Tags, g: Group): string {
    if tags == [] then "" else if tags[0].group == g then tags[0].suffix else SuffixOf(tags[1..], g)
  }

  function Restored(tags: Tags, g: Group, es: seq<Entry>): seq<Entry> {
    if es == [] then []
    else
      var last := es[|es| - 1];
      Restored(tags, g, es[..|es| - 1]) + [last.(what := last.what + SuffixOf(tags, g))]
  }

  function InGroup(tags: Tags, skipped: seq<Entry>, g: Group): seq<Entry> {
    if skipped == [] then []
    else
      var last := skipped[|skipped| - 1];
      InGroup(tags, skipped[..|skipped| - 1], g) + (if GroupOf(tags, last) == g then [last] else [])
  }

  lemma {:induction false} SuffixOfTag(tags: Tags, i: nat)
    requires i < |tags|
    ensures SuffixOf(tags, tags[i].group) == tags[i].suffix
  {
    if i > 0 {
      SuffixOfTag(tags[1..], i - 1);
    }
  }

  lemma {:induction false} OtherHasNoSuffix(tags: Tags)
    ensures SuffixOf(tags, Other) == ""
  {
    if tags != [] {
      OtherHasNoSuffix(tags[1..]);
    }
  }

  lemma StripRestores(tags: Tags, e: Entry)
    ensures Stripped(tags, e).(what := Stripped(tags, e).what + SuffixOf(tags, GroupOf(tags, e))) == e
  {
    var tag := FindTag(tags, e.what);
    if tag.Some? {
      var i :| 0 <= i < |tags| && tags[i] == tag.value;
      SuffixOfTag(tags, i);
      var cut := |e.what| - |tag.value.suffix|;
      assert e.what[..cut] + e.what[cut..] == e.what;
    } else {
      OtherHasNoSuffix(tags);
      assert e.what + "" == e.what;
    }
  }

  /** Putting a group's suffix back on its entries gives the input's entries of that group, in input order. */
  lemma {:induction false} RestoredIsInGroup(tags: Tags, skipped: seq<Entry>, g: Group)
    ensures Restored(tags, g, Bucket(tags, skipped, g)) == InGroup(tags, skipped, g)
  {
    if skipped != [] {
      var front, last := skipped[..|skipped| - 1], skipped[|skipped| - 1];
      RestoredIsInGroup(tags, front, g);
      assert Bucket(tags, front, g) + [] == Bucket(tags, front, g);
      assert InGroup(tags, front, g) + [] == InGroup(tags, front, g);
      if GroupOf(tags, last) == g {
        StripRestores(tags, last);
        var b := Bucket(tags, skipped, g);
        assert b[..|b| - 1] == Bucket(tags, front, g);
      }
    }
  }

  function AllRestored(tags: Tags, sections: seq<Section>): seq<Entry> {
    if sections == [] then []
    else
      var last := sections[|sections| - 1];
      AllRestored(tags, sections[..|sections| - 1]) + Restored(tags, last.group, last.entries)
  }

  // The input's entries of OTHER and of the first n tags, group by group.
  function Regrouped(tags: Tags, skipped: seq<Entry>, n: nat): seq<Entry>
    requires n <= |tags|
  {
    if n == 0 then InGroup(tags, skipped, Other)
    else Regrouped(tags, skipped, n - 1) + InGroup(tags, skipped, tags[n - 1].group)
  }

  lemma OneSectionMore(tags: Tags, sections: seq<Section>, skipped: seq<Entry>, g: Group)
    ensures AllRestored(tags, sections + SectionOf(tags, skipped, g)) ==
            AllRestored(tags, sections) + InGroup(tags, skipped, g)
  {
    hide Bucket, InGroup;
    RestoredIsInGroup(tags, skipped, g);
    var one := SectionOf(tags, skipped, g);
    if one == [] {
      assert sections + one == sections;
    } else {
      assert (sections + one)[..|sections|] == sections;
    }
  }

  lemma {:induction false} SectionsRestore(tags: Tags, skipped: seq<Entry>, n: nat)
    requires n <= |tags|
    ensures AllRestored(tags, Sections(tags, skipped, n)) == Regrouped(tags, skipped, n)
  {
    hide SectionOf, InGroup;
    if n == 0 {
      OneSectionMore(tags, [], skipped, Other);
      assert [] + SectionOf(tags, skipped, Other) == SectionOf(tags, skipped, Other);
    } else {
      SectionsRestore(tags, skipped, n - 1);
      OneSectionMore(tags, Sections(tags, skipped, n - 1), skipped, tags[n - 1].group);
    }
  }

  // How many of the first n groups an entry falls in: one in all.
  lemma {:induction false} InGroupCounts(tags: Tags, skipped: seq<Entry>, g: Group, e: Entry)
    ensures multiset(InGroup(tags, skipped, g))[e] == if GroupOf(tags, e) == g then multiset(skipped)[e] else 0
  {
    if skipped != [] {
      var front, last := skipped[..|skipped| - 1], skipped[|skipped| - 1];
      InGroupCounts(tags, front, g, e);
      assert skipped == front + [last];
    }
  }

  predicate IsAmong(tags: Tags, n: nat, g: Group)
    requires n <= |tags|
  {
    g == Other || exists i :: 0 <= i < n && tags[i].group == g
  }

  lemma AmongOneMore(tags: Tags, n: nat, g: Group)
    requires 0 < n <= |tags|
    ensures IsAmong(tags, n, g) <==> IsAmong(tags, n - 1, g) || tags[n - 1].group == g
    ensures tags[n - 1].group == g ==> !IsAmong(tags, n - 1, g)
  {}

  lemma {:induction false} RegroupedCounts(tags: Tags, skipped: seq<Entry>, n: nat, e: Entry)
    requires n <= |tags|
    ensures multiset(Regrouped(tags, skipped, n))[e] ==
            if IsAmong(tags, n, GroupOf(tags, e)) then multiset(skipped)[e] else 0
  {
    hide GroupOf, InGroup, IsAmong;
    if n == 0 {
      InGroupCounts(tags, skipped, Other, e);
      AmongNone(tags, GroupOf(tags, e));
    } else {
      RegroupedCounts(tags, skipped, n - 1, e);
      InGroupCounts(tags, skipped, tags[n - 1].group, e);
      AmongOneMore(tags, n, GroupOf(tags, e));
    }
  }

  lemma AmongNone(tags: Tags, g: Group)
    ensures IsAmong(tags, 0, g) <==> g == Other
  {}

  /** Nothing is lost and nothing invented: restored, the sections are a permutation of the input. */
  lemma GroupingIsInvertible(tags: Tags, skipped: seq<Entry>)
    ensures multiset(AllRestored(tags, Sections(tags, skipped, |tags|))) == multiset(skipped)
  {
    SectionsRestore(tags, skipped, |tags|);
    hide Sections, Regrouped, InGroup;
    var all := Regrouped(tags, skipped, |tags|);
    forall e ensures multiset(all)[e] == multiset(skipped)[e] {
      RegroupedCounts(tags, skipped, |tags|, e);
      var tag := FindTag(tags, e.what);
      if tag.Some? {
        var i :| 0 <= i < |tags| && tags[i] == tag.value;
        assert tags[i].group == GroupOf(tags, e);
      }
    }
  }

  // The place of a group in reading order.
  function PlaceOf(tags: Tags, g: Group): nat {
    if g == Other then 0 else if tags == [] then 1 else if tags[0].group == g then 1 else 1 + PlaceOf(tags[1..], g)
  }

  lemma {:induction false} PlaceOfTag(tags: Tags, i: nat)
    requires i < |tags|
    ensures PlaceOf(tags, tags[i].group) == i + 1
  {
    if i > 0 {
      PlaceOfTag(tags[1..], i - 1);
    }
  }

  ghost predicate IsOrdered(tags: Tags, sections: seq<Section>, n: nat) {
    && (forall k :: 0 <= k < |sections| ==> sections[k].entries != [] && PlaceOf(tags, sections[k].group) <= n)
    && (forall k, l :: 0 <= k < l < |sections| ==> PlaceOf(tags, sections[k].group) < PlaceOf(tags, sections[l].group))
  }

  lemma OrderedPlus(tags: Tags, sections: seq<Section>, n: nat, g: Group, entries: seq<Entry>)
    requires IsOrdered(tags, sections, n) && PlaceOf(tags, g) == n + 1 && entries != []
    ensures IsOrdered(tags, sections + [Section(g, entries)], n + 1)
  {
    hide PlaceOf;
  }

  /** Sections come in reading order, OTHER first, each at most once and none of them empty. */
  lemma {:induction false} SectionsAreOrdered(tags: Tags, skipped: seq<Entry>, n: nat)
    requires n <= |tags|
    ensures IsOrdered(tags, Sections(tags, skipped, n), n)
  {
    hide Bucket;
    if n > 0 {
      SectionsAreOrdered(tags, skipped, n - 1);
      PlaceOfTag(tags, n - 1);
      var before, entries := Sections(tags, skipped, n - 1), Bucket(tags, skipped, tags[n - 1].group);
      if entries == [] {
        assert before + [] == before;
      } else {
        OrderedPlus(tags, before, n - 1, tags[n - 1].group, entries);
      }
    }
  }

  // ----- the shipped list ----------------------------------------------------------------------

  ghost predicate HasTail(what: string, tail: string) { exists head :: what == head + tail }

  lemma EndsWithIs(what: string, tail: string)
    ensures EndsWith(what, tail) <==> HasTail(what, tail)
  {
    if EndsWith(what, tail) {
      assert what == what[..|what| - |tail|] + tail;
    }
  }

  lemma TagFound(what: string, i: nat)
    requires i < |TAGS| && EndsWith(what, TAGS[i].suffix)
    ensures FindTag(TAGS, what) == Some(TAGS[i])
  {
    hide EndsWith, FindTag;
    assert TAGS[i] in TAGS;
    var found := FindTag(TAGS, what);
    assert found.Some? && found.value in TAGS && EndsWith(what, found.value.suffix);
    var j :| 0 <= j < |TAGS| && TAGS[j] == found.value;
    assert EndsWith(what, TAGS[j].suffix);
    AtMostOneTag(what, i, j);
  }

  lemma FoundIsTag(what: string)
    ensures FindTag(TAGS, what).Some? ==>
              exists i :: 0 <= i < |TAGS| && FindTag(TAGS, what) == Some(TAGS[i]) && EndsWith(what, TAGS[i].suffix)
  {
    hide EndsWith, FindTag;
    var found := FindTag(TAGS, what);
    if found.Some? {
      var i :| 0 <= i < |TAGS| && TAGS[i] == found.value;
      assert EndsWith(what, TAGS[i].suffix);
    }
  }

  /** What the page does with the worker's three suffixes: each names its own group, anything else is OTHER, ... */
  lemma ShippedGroups(e: Entry)
    ensures GroupOf(TAGS, e) == EarnedNotStorable <==> HasTail(e.what, " \U{2014} earned, not yet storable")
    ensures GroupOf(TAGS, e) == NotEnumerated <==> HasTail(e.what, " \U{2014} not enumerated")
    ensures GroupOf(TAGS, e) == NotApplicable <==> HasTail(e.what, " \U{2014} not applicable")
  {
    hide EndsWith, HasTail;
    EndsWithIs(e.what, " \U{2014} earned, not yet storable");
    EndsWithIs(e.what, " \U{2014} not enumerated");
    EndsWithIs(e.what, " \U{2014} not applicable");
    hide FindTag;
    FoundIsTag(e.what);
    if EndsWith(e.what, TAGS[0].suffix) { TagFound(e.what, 0); }
    if EndsWith(e.what, TAGS[1].suffix) { TagFound(e.what, 1); }
    if EndsWith(e.what, TAGS[2].suffix) { TagFound(e.what, 2); }
  }

  /** ... and the page reads OTHER first, then what is not yet storable, not enumerated, not applicable. */
  lemma ShippedOrder(skipped: seq<Entry>, k: nat, l: nat)
    requires k < l < |Sections(TAGS, skipped, |TAGS|)|
    ensures var sections := Sections(TAGS, skipped, |TAGS|);
            ReadAt(sections[k].group) < ReadAt(sections[l].group)
  {
    hide PlaceOf, Sections;
    var sections := Sections(TAGS, skipped, |TAGS|);
    SectionsAreOrdered(TAGS, skipped, |TAGS|);
    ShippedPlaces();
    assert PlaceOf(TAGS, sections[k].group) < PlaceOf(TAGS, sections[l].group);
  }

  function ReadAt(g: Group): nat {
    match g case Other => 0 case EarnedNotStorable => 1 case NotEnumerated => 2 case NotApplicable => 3
  }

  lemma ShippedPlaces()
    ensures forall g :: PlaceOf(TAGS, g) == ReadAt(g)
  {
    PlaceOfTag(TAGS, 0);
    PlaceOfTag(TAGS, 1);
    PlaceOfTag(TAGS, 2);
  }
}
