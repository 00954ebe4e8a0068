/**
 * The data shaping of the week page: the week's lessons are grouped by the title of
 * their section (lodash `groupBy`), each lesson's section is projected into a
 * `sectionData` record, and every group becomes a page section whose header is the
 * first `sectionData` entry carrying the group's title. The page also turns the tag
 * groups of the week into a list of tag strings.
 */
module Week {
  import opened Js
  import ObjectKeys

  /** A section's rich-text description; the page hands it on without reading it. */
  datatype RichText = RichText(json: string)

  /** A lesson's section as the page query returns it (`title`, `id`, `description`, `order`). */
  datatype Section = Section(title: Nullable<string>, id: Nullable<string>, description: Nullable<RichText>, order: Nullable<int>)

  /** A lesson of the week, reduced to its identifying slug, its name and its section. */
  datatype Lesson = Lesson(slug: string, lessonName: string, section: Nullable<Section>)

  /** The object `groupBy` returns: its keys in the order they were added, and the lessons under each. */
  datatype Grouped = Grouped(keys: seq<string>, groups: map<string, seq<Lesson>>)

  /** `{ ...entry }` copies the found record; `{ ...undefined }` is the empty object. */
  datatype Header = EmptyHeader | HeaderOf(section: Section)

  /** One section of the page: `{ header, data }`. */
  datatype SectionGroup = SectionGroup(header: Header, data: seq<Lesson>)

  const NoSection: Section := Section(Undefined, Undefined, Undefined, Undefined)

  predicate Distinct(s: seq<string>) {
    forall i, j :: 0 <= i < j < |s| ==> s[i] != s[j]
  }

  // ---------------------------------------------------------------------------
  // Grouping (week.tsx line 57)

  /** `lesson?.section?.title`: optional chaining gives `undefined` when the section is missing. */
  function SectionTitle(l: Lesson): Nullable<string> {
    if l.section.Defined? then l.section.value.title else Undefined
  }

  /** The property key a value becomes when it is used as an object key: `String(value)`. */
  function PropertyKey(v: Nullable<string>): (k: string)
    ensures v.Defined? ==> k == v.value
    ensures k == "undefined" <==> v == Undefined || v == Defined("undefined")
    ensures k == "null" <==> v == Null || v == Defined("null")
  {
    match v
    case Undefined => "undefined"
    case Null => "null"
    case Defined(s) => s
  }

  /** The key `groupBy` files a lesson under. */
  function GroupKey(l: Lesson): (k: string)
    ensures !l.section.Defined? ==> k == "undefined"
    ensures SectionTitle(l).Defined? ==> k == SectionTitle(l).value
  {
    PropertyKey(SectionTitle(l))
  }

  /** The distinct keys of a lesson list. */
  function KeySet(lessons: seq<Lesson>): set<string> {
    set l | l in lessons :: GroupKey(l)
  }

  /** The lessons filed under `key`, in list order: the reference definition of one group. */
  function Members(lessons: seq<Lesson>, key: string): (r: seq<Lesson>)
    ensures forall l :: l in r <==> l in lessons && GroupKey(l) == key
  {
    if lessons == [] then []
    else if GroupKey(lessons[0]) == key then
      assert lessons == [lessons[0]] + lessons[1..];
      [lessons[0]] + Members(lessons[1..], key)
    else
      assert lessons == [lessons[0]] + lessons[1..];
      Members(lessons[1..], key)
  }

  /**
   * `groupBy(lessons, (lesson) => lesson?.section?.title)`: walks the list once, appending
   * each lesson to the array under its key and adding the key when it is new.
   */
  function GroupBy(lessons: seq<Lesson>): (g: Grouped)
    ensures Distinct(g.keys)
    ensures forall k :: k in g.keys <==> k in g.groups
    ensures g.groups.Keys == KeySet(lessons)
  {
    if lessons == [] then Grouped([], map[])
    else
      var init := lessons[..|lessons| - 1];
      var l := lessons[|lessons| - 1];
      var g := GroupBy(init);
      var k := GroupKey(l);
      assert lessons == init + [l];
      assert KeySet(lessons) == KeySet(init) + {k};
      if k in g.groups then Grouped(g.keys, g.groups[k := g.groups[k] + [l]])
      else Grouped(g.keys + [k], g.groups[k := [l]])
  }

  /** The position of the first lesson filed under `key`. */
  function FirstIndex(lessons: seq<Lesson>, key: string): (p: nat)
    requires key in KeySet(lessons)
    ensures p < |lessons| && GroupKey(lessons[p]) == key
    ensures forall q :: 0 <= q < p ==> GroupKey(lessons[q]) != key
  {
    if GroupKey(lessons[0]) == key then 0
    else
      assert lessons == [lessons[0]] + lessons[1..];
      assert key in KeySet(lessons[1..]);
      1 + FirstIndex(lessons[1..], key)
  }

  // ---------------------------------------------------------------------------
  // Section data (week.tsx lines 58-63)

  /** `{ title: item.section?.title, id: item.section?.id, ... }` for one lesson. */
  function Project(l: Lesson): (r: Section)
    ensures r.title == SectionTitle(l)
    ensures l.section.Defined? ==> r == l.section.value
    ensures !l.section.Defined? ==> r.title.Undefined? && r.id.Undefined? && r.description.Undefined? && r.order.Undefined?
  {
    if l.section.Defined? then l.section.value else NoSection
  }

  /** `lessons.map(...)`: one entry per lesson, projecting that lesson's section. */
  function SectionData(lessons: seq<Lesson>): (r: seq<Section>)
    ensures |r| == |lessons|
    ensures forall i :: 0 <= i < |lessons| ==> r[i] == Project(lessons[i]) && r[i].title == SectionTitle(lessons[i])
  {
    if lessons == [] then [] else [Project(lessons[0])] + SectionData(lessons[1..])
  }

  // ---------------------------------------------------------------------------
  // Sections (week.tsx lines 65-70)

  /**
   * `{ ...data.find((item) => item.title === key) }`: strict equality, so an entry whose
   * title is `undefined` or `null` never matches a key.
   */
  function FindHeader(data: seq<Section>, key: string): (h: Header)
    ensures h.EmptyHeader? <==> forall i :: 0 <= i < |data| ==> data[i].title != Defined(key)
    ensures h.HeaderOf? ==> exists i :: 0 <= i < |data| && data[i] == h.section && data[i].title == Defined(key)
                                        && forall j :: 0 <= j < i ==> data[j].title != Defined(key)
  {
    if data == [] then EmptyHeader
    else if data[0].title == Defined(key) then HeaderOf(data[0])
    else
      var h := FindHeader(data[1..], key);
      if h.HeaderOf? then
        var i :| 0 <= i < |data| - 1 && data[1..][i] == h.section && data[1..][i].title == Defined(key)
                 && forall j :: 0 <= j < i ==> data[1..][j].title != Defined(key);
        assert data[i + 1] == h.section;
        h
      else h
  }

  /** The grouped object's keys in the order `Object.entries` lists them. */
  function SectionKeys(lessons: seq<Lesson>): (ks: seq<string>)
    ensures Distinct(ks)
    ensures forall k :: k in ks <==> k in KeySet(lessons)
  {
    var keys := GroupBy(lessons).keys;
    ObjectKeys.EntriesOrderPermutes(keys);
    var ks := ObjectKeys.EntriesOrder(keys);
    PermutationKeepsDistinct(keys, ks);
    assert forall k :: k in ks <==> k in multiset(keys);
    ks
  }

  /**
   * `Object.entries(groupedLessons).map(...)`: one section per key, holding that key's
   * lessons and the header found for the key in `sectionData`.
   */
  function Sections(lessons: seq<Lesson>): (r: seq<SectionGroup>)
    ensures |r| == |SectionKeys(lessons)|
    ensures forall i :: 0 <= i < |r| ==>
      && r[i].data == Members(lessons, SectionKeys(lessons)[i])
      && r[i].header == FindHeader(SectionData(lessons), SectionKeys(lessons)[i])
  {
    var g := GroupBy(lessons);
    var data := SectionData(lessons);
    var keys := SectionKeys(lessons);
    GroupByMatchesMembers(lessons);
    seq(|keys|, i requires 0 <= i < |keys| => SectionGroup(FindHeader(data, keys[i]), g.groups[keys[i]]))
  }

  /** All lessons of the sections, one section after the other. */
  function Flatten(sections: seq<SectionGroup>): seq<Lesson> {
    if sections == [] then [] else sections[0].data + Flatten(sections[1..])
  }

  /** The concatenation of the groups of `keys`, in that order. */
  function ConcatMembers(lessons: seq<Lesson>, keys: seq<string>): seq<Lesson> {
    if keys == [] then [] else Members(lessons, keys[0]) + ConcatMembers(lessons, keys[1..])
  }

  /** `a` occurs in `b` with its elements in the same relative order. */
  predicate Subsequence(a: seq<Lesson>, b: seq<Lesson>)
    decreases |b|
  {
    if a == [] then true
    else if b == [] then false
    else if a[0] == b[0] then Subsequence(a[1..], b[1..])
    else Subsequence(a, b[1..])
  }

  // ---------------------------------------------------------------------------
  // Tags (week.tsx lines 97 and 105-107)

  const DefaultTag: string := "adenosine"

  /** One entry of `tags.group`. */
  datatype TagGroup = TagGroup(fieldValue: Nullable<string>)

  /** The optional `tags` result of the page query. */
  datatype Tags = Tags(group: Nullable<seq<TagGroup>>)

  /** `({ fieldValue = "adenosine" }) => fieldValue`: a destructuring default replaces `undefined` only. */
  function TagValue(g: TagGroup): (r: Nullable<string>)
    ensures !r.Undefined?
    ensures !g.fieldValue.Undefined? ==> r == g.fieldValue
    ensures g.fieldValue.Undefined? ==> r == Defined(DefaultTag)
  {
    if g.fieldValue.Undefined? then Defined(DefaultTag) else g.fieldValue
  }

  /** `tags.group.map(...)`. */
  function TagList(groups: seq<TagGroup>): (r: seq<Nullable<string>>)
    ensures |r| == |groups|
    ensures forall i :: 0 <= i < |groups| ==>
      && (groups[i].fieldValue.Undefined? ==> r[i] == Defined(DefaultTag))
      && (!groups[i].fieldValue.Undefined? ==> r[i] == groups[i].fieldValue)
  {
    if groups == [] then [] else [TagValue(groups[0])] + TagList(groups[1..])
  }

  /** The tag column: shown only when `tags?.group?.length > 0`, then listing the tags. */
  function TagColumn(tags: Nullable<Tags>): (r: Option<seq<Nullable<string>>>)
    ensures r.Some? <==> tags.Defined? && tags.value.group.Defined? && |tags.value.group.value| > 0
    ensures r.Some? ==> |r.value| == |tags.value.group.value|
    ensures r.Some? ==> forall i :: 0 <= i < |r.value| ==> !r.value[i].Undefined?
    ensures r.Some? ==> r.value == TagList(tags.value.group.value)
  {
    if tags.Defined? && tags.value.group.Defined? && |tags.value.group.value| > 0
    then Some(TagList(tags.value.group.value))
    else None
  }

  // ---------------------------------------------------------------------------
  // Lemmas

  /** A reordering of a list without repetitions has no repetitions either. */
  lemma PermutationKeepsDistinct(a: seq<string>, b: seq<string>)
    requires Distinct(a) && multiset(a) == multiset(b)
    ensures Distinct(b)
  {
    forall i, j | 0 <= i < j < |b|
      ensures b[i] != b[j]
    {
      if b[i] == b[j] {
        assert b == b[..i] + [b[i]] + b[i + 1..j] + [b[j]] + b[j + 1..];
        assert multiset(b)[b[i]] >= 2;
        DistinctCount(a, b[i]);
        assert false;
      }
    }
  }

  /** In a list without repetitions every element occurs at most once. */
  lemma {:induction false} DistinctCount(a: seq<string>, x: string)
    requires Distinct(a)
    ensures multiset(a)[x] <= 1
  {
    if a != [] {
      assert a == [a[0]] + a[1..];
      DistinctCount(a[1..], x);
      if a[0] == x {
        assert x !in a[1..];
      }
    }
  }

  /** Appending a lesson extends exactly the group of its key. */
  lemma {:induction false} MembersSnoc(s: seq<Lesson>, l: Lesson, key: string)
    ensures Members(s + [l], key) == Members(s, key) + (if GroupKey(l) == key then [l] else [])
  {
    if s == [] {
      assert [l][1..] == [];
    } else {
      assert (s + [l])[1..] == s[1..] + [l];
      MembersSnoc(s[1..], l, key);
    }
  }

  /** The array `groupBy` stores under each key is exactly that key's group, in list order. */
  lemma {:induction false} GroupByMatchesMembers(lessons: seq<Lesson>)
    ensures forall k :: k in GroupBy(lessons).groups ==> GroupBy(lessons).groups[k] == Members(lessons, k)
  {
    if lessons != [] {
      var init, l := lessons[..|lessons| - 1], lessons[|lessons| - 1];
      assert lessons == init + [l];
      GroupByMatchesMembers(init);
      var g0, g, k0 := GroupBy(init), GroupBy(lessons), GroupKey(l);
      assert g.groups == if k0 in g0.groups then g0.groups[k0 := g0.groups[k0] + [l]] else g0.groups[k0 := [l]];
      forall k | k in g.groups
        ensures g.groups[k] == Members(lessons, k)
      {
        MembersSnoc(init, l, k);
        if k !in g0.groups {
          MembersOfAbsentKey(init, k);
        }
      }
    }
  }

  /** A key no lesson carries has an empty group. */
  lemma MembersOfAbsentKey(lessons: seq<Lesson>, key: string)
    requires key !in KeySet(lessons)
    ensures Members(lessons, key) == []
  {
  }

  /** Appending a lesson keeps the first position of every key already present. */
  lemma FirstIndexSnoc(s: seq<Lesson>, key: string)
    requires s != [] && key in KeySet(s[..|s| - 1])
    ensures key in KeySet(s) && FirstIndex(s, key) == FirstIndex(s[..|s| - 1], key)
  {
    var init := s[..|s| - 1];
    var p := FirstIndex(init, key);
    assert s[p] == init[p];
  }

  /** A key that first appears with the last lesson is first found at the end. */
  lemma FirstIndexOfNewKey(s: seq<Lesson>)
    requires s != [] && GroupKey(s[|s| - 1]) !in KeySet(s[..|s| - 1])
    ensures GroupKey(s[|s| - 1]) in KeySet(s) && FirstIndex(s, GroupKey(s[|s| - 1])) == |s| - 1
  {
    assert s[|s| - 1] in s;
  }

  /** `groupBy` adds keys in the order of their first lesson. */
  lemma {:induction false} GroupKeysInFirstAppearanceOrder(lessons: seq<Lesson>, i: nat, j: nat)
    requires i < j < |GroupBy(lessons).keys|
    ensures FirstIndex(lessons, GroupBy(lessons).keys[i]) < FirstIndex(lessons, GroupBy(lessons).keys[j])
  {
    var init, l := lessons[..|lessons| - 1], lessons[|lessons| - 1];
    var g0, g, k := GroupBy(init), GroupBy(lessons), GroupKey(l);
    assert g.keys == if k in g0.groups then g0.keys else g0.keys + [k];
    assert g.keys[i] == g0.keys[i];
    FirstIndexSnoc(lessons, g0.keys[i]);
    if j < |g0.keys| {
      assert g.keys[j] == g0.keys[j];
      FirstIndexSnoc(lessons, g0.keys[j]);
      GroupKeysInFirstAppearanceOrder(init, i, j);
    } else {
      FirstIndexOfNewKey(lessons);
    }
  }

  /** Putting one more lesson in front adds it once, to the group of its key if that key is listed. */
  lemma {:induction false} ConcatMembersCons(l: Lesson, rest: seq<Lesson>, keys: seq<string>)
    requires Distinct(keys)
    ensures multiset(ConcatMembers([l] + rest, keys))
         == multiset(ConcatMembers(rest, keys)) + (if GroupKey(l) in keys then multiset{l} else multiset{})
  {
    if keys != [] {
      assert ([l] + rest)[1..] == rest;
      ConcatMembersCons(l, rest, keys[1..]);
      if GroupKey(l) == keys[0] {
        assert GroupKey(l) !in keys[1..];
      }
      assert GroupKey(l) in keys <==> GroupKey(l) == keys[0] || GroupKey(l) in keys[1..];
    }
  }

  /** The groups of an empty list are all empty. */
  lemma {:induction false} ConcatMembersEmpty(keys: seq<string>)
    ensures ConcatMembers([], keys) == []
  {
    if keys != [] {
      ConcatMembersEmpty(keys[1..]);
    }
  }

  /** The groups of distinct keys that cover every lesson hold each lesson exactly as often as the list does. */
  lemma {:induction false} ConcatMembersPartition(lessons: seq<Lesson>, keys: seq<string>)
    requires Distinct(keys)
    requires forall l :: l in lessons ==> GroupKey(l) in keys
    ensures multiset(ConcatMembers(lessons, keys)) == multiset(lessons)
  {
    if lessons == [] {
      ConcatMembersEmpty(keys);
    } else {
      assert lessons == [lessons[0]] + lessons[1..];
      ConcatMembersPartition(lessons[1..], keys);
      ConcatMembersCons(lessons[0], lessons[1..], keys);
    }
  }

  /** Flattening the sections gives the groups of the section keys, in section order. */
  lemma {:induction false} FlattenIsConcatMembers(sections: seq<SectionGroup>, lessons: seq<Lesson>, keys: seq<string>)
    requires |sections| == |keys|
    requires forall i :: 0 <= i < |sections| ==> sections[i].data == Members(lessons, keys[i])
    ensures Flatten(sections) == ConcatMembers(lessons, keys)
  {
    if sections != [] {
      FlattenIsConcatMembers(sections[1..], lessons, keys[1..]);
    }
  }

  /**
   * The sections partition the lessons: together they hold every lesson exactly as often
   * as the list does, so their sizes sum to the number of lessons.
   */
  lemma SectionsPartitionLessons(lessons: seq<Lesson>)
    ensures multiset(Flatten(Sections(lessons))) == multiset(lessons)
    ensures |Flatten(Sections(lessons))| == |lessons|
  {
    var keys := SectionKeys(lessons);
    FlattenIsConcatMembers(Sections(lessons), lessons, keys);
    forall l | l in lessons
      ensures GroupKey(l) in keys
    {
      assert GroupKey(l) in KeySet(lessons);
    }
    ConcatMembersPartition(lessons, keys);
    assert |multiset(Flatten(Sections(lessons)))| == |multiset(lessons)|;
  }

  /** Every lesson lies in exactly one section: the one of its own key. */
  lemma LessonInExactlyOneSection(lessons: seq<Lesson>, p: nat)
    requires p < |lessons|
    ensures var r, keys := Sections(lessons), SectionKeys(lessons);
      exists i :: 0 <= i < |r| && keys[i] == GroupKey(lessons[p]) && lessons[p] in r[i].data
                  && forall j :: 0 <= j < |r| && j != i ==> lessons[p] !in r[j].data
  {
    var r, keys := Sections(lessons), SectionKeys(lessons);
    var l := lessons[p];
    assert GroupKey(l) in KeySet(lessons);
    var i :| 0 <= i < |keys| && keys[i] == GroupKey(l);
    assert l in r[i].data;
    forall j | 0 <= j < |r| && j != i
      ensures l !in r[j].data
    {
      assert keys[j] != keys[i];
    }
  }

  /**
   * Every section is non-empty, all its lessons carry its key, and they keep their
   * relative order from the lesson list.
   */
  lemma SectionsAreOrderedGroups(lessons: seq<Lesson>)
    ensures var r, keys := Sections(lessons), SectionKeys(lessons);
      forall i :: 0 <= i < |r| ==>
        && r[i].data != []
        && (forall l :: l in r[i].data ==> GroupKey(l) == keys[i])
        && Subsequence(r[i].data, lessons)
  {
    var r, keys := Sections(lessons), SectionKeys(lessons);
    forall i | 0 <= i < |r|
      ensures r[i].data != [] && Subsequence(r[i].data, lessons)
    {
      var p := FirstIndex(lessons, keys[i]);
      assert lessons[p] in r[i].data;
      MembersSubsequence(lessons, keys[i]);
    }
  }

  /** A group is a subsequence of the lesson list. */
  lemma {:induction false} MembersSubsequence(lessons: seq<Lesson>, key: string)
    ensures Subsequence(Members(lessons, key), lessons)
  {
    if lessons != [] {
      MembersSubsequence(lessons[1..], key);
      if GroupKey(lessons[0]) != key {
        var m := Members(lessons[1..], key);
        if m != [] {
          assert Members(lessons, key) == m;
        }
      } else {
        assert Members(lessons, key)[1..] == Members(lessons[1..], key);
      }
    }
  }

  /** The number of elements of a list without repetitions is the size of its set. */
  lemma {:induction false} DistinctCardinality(s: seq<string>)
    requires Distinct(s)
    ensures |set k | k in s| == |s|
  {
    if s != [] {
      DistinctCardinality(s[1..]);
      assert (set k | k in s) == (set k | k in s[1..]) + {s[0]};
      assert s[0] !in (set k | k in s[1..]);
    }
  }

  /** There is one section per distinct key. */
  lemma SectionCountIsKeyCount(lessons: seq<Lesson>)
    ensures |Sections(lessons)| == |KeySet(lessons)|
  {
    var keys := SectionKeys(lessons);
    DistinctCardinality(keys);
    assert (set k | k in keys) == KeySet(lessons);
  }

  /** A section's header is empty exactly when no lesson's section carries the section's key as its title. */
  lemma HeaderEmptyIffNoTitledSection(lessons: seq<Lesson>, i: nat)
    requires i < |Sections(lessons)|
    ensures Sections(lessons)[i].header.EmptyHeader?
        <==> forall p :: 0 <= p < |lessons| ==> SectionTitle(lessons[p]) != Defined(SectionKeys(lessons)[i])
  {
  }

  /** A non-empty header carries the section's key as its title. */
  lemma HeaderTitleIsKey(lessons: seq<Lesson>, i: nat)
    requires i < |Sections(lessons)|
    requires Sections(lessons)[i].header.HeaderOf?
    ensures Sections(lessons)[i].header.section.title == Defined(SectionKeys(lessons)[i])
  {
  }

  /**
   * Lessons without a section fall into the group "undefined"; its header is empty unless
   * some section is literally titled "undefined", which then shares the group.
   */
  lemma MissingSectionGroup(lessons: seq<Lesson>, p: nat)
    requires p < |lessons| && !lessons[p].section.Defined?
    ensures GroupKey(lessons[p]) == "undefined"
    ensures var r, keys := Sections(lessons), SectionKeys(lessons);
      forall i :: 0 <= i < |r| && keys[i] == "undefined" ==>
        && lessons[p] in r[i].data
        && (r[i].header.EmptyHeader? <==> forall q :: 0 <= q < |lessons| ==> SectionTitle(lessons[q]) != Defined("undefined"))
  {
    forall i | 0 <= i < |Sections(lessons)| && SectionKeys(lessons)[i] == "undefined"
      ensures Sections(lessons)[i].header.EmptyHeader?
          <==> forall q :: 0 <= q < |lessons| ==> SectionTitle(lessons[q]) != Defined("undefined")
    {
      HeaderEmptyIffNoTitledSection(lessons, i);
    }
  }

  /** The first lesson of a group is the first lesson in the list carrying the group's key. */
  lemma {:induction false} MembersHead(lessons: seq<Lesson>, key: string)
    requires key in KeySet(lessons)
    ensures Members(lessons, key) != [] && Members(lessons, key)[0] == lessons[FirstIndex(lessons, key)]
  {
    if GroupKey(lessons[0]) != key {
      assert lessons == [lessons[0]] + lessons[1..];
      assert key in KeySet(lessons[1..]);
      MembersHead(lessons[1..], key);
    }
  }

  /**
   * When the first lesson of a section has a section titled with the section's key, that
   * lesson heads the section's data and its section is the header.
   */
  lemma HeaderIsFirstLessonsSection(lessons: seq<Lesson>, i: nat)
    requires i < |SectionKeys(lessons)|
    requires SectionTitle(lessons[FirstIndex(lessons, SectionKeys(lessons)[i])]) == Defined(SectionKeys(lessons)[i])
    ensures var first := lessons[FirstIndex(lessons, SectionKeys(lessons)[i])];
      && Sections(lessons)[i].data != [] && Sections(lessons)[i].data[0] == first
      && Sections(lessons)[i].header == HeaderOf(Project(first))
  {
    var key := SectionKeys(lessons)[i];
    var data := SectionData(lessons);
    MembersHead(lessons, key);
    var p := FirstIndex(lessons, key);
    var h := FindHeader(data, key);
    assert data[p].title == Defined(key);
    var j :| 0 <= j < |data| && data[j] == h.section && data[j].title == Defined(key)
             && forall q :: 0 <= q < j ==> data[q].title != Defined(key);
    assert SectionTitle(lessons[j]) == Defined(key);
    assert GroupKey(lessons[j]) == key;
    assert j == p;
  }

  /**
   * The sections list the keys that are array indices first, in ascending numeric order;
   * the other keys follow in the order `groupBy` added them.
   */
  lemma SectionOrder(lessons: seq<Lesson>) returns (m: nat)
    ensures m <= |SectionKeys(lessons)|
    ensures ObjectKeys.Ascending(SectionKeys(lessons)[..m])
    ensures forall k :: k in SectionKeys(lessons)[..m] <==> k in KeySet(lessons) && ObjectKeys.IsArrayIndex(k)
    ensures SectionKeys(lessons)[m..] == ObjectKeys.Select(GroupBy(lessons).keys, false)
  {
    var g := GroupBy(lessons).keys;
    assert SectionKeys(lessons) == ObjectKeys.EntriesOrder(g);
    ObjectKeys.EntriesOrderShape(g);
    m := |ObjectKeys.Select(g, true)|;
    assert forall k :: k in g <==> k in KeySet(lessons);
  }

  /**
   * Two sections whose keys are not array indices appear in the order in which their
   * first lessons appear in the lesson list.
   */
  lemma SectionsInFirstAppearanceOrder(lessons: seq<Lesson>, i: nat, j: nat)
    requires i < j < |SectionKeys(lessons)|
    requires !ObjectKeys.IsArrayIndex(SectionKeys(lessons)[i]) && !ObjectKeys.IsArrayIndex(SectionKeys(lessons)[j])
    ensures FirstIndex(lessons, SectionKeys(lessons)[i]) < FirstIndex(lessons, SectionKeys(lessons)[j])
  {
    var g := GroupBy(lessons).keys;
    assert SectionKeys(lessons) == ObjectKeys.EntriesOrder(g);
    var pa, pb := ObjectKeys.EntriesOrderKeepsNonIndexOrder(g, i, j);
    GroupKeysInFirstAppearanceOrder(lessons, pa, pb);
  }

  /** When no section title looks like an array index, `Object.entries` keeps the order `groupBy` added the keys in. */
  lemma SectionKeysWithoutIndexTitles(lessons: seq<Lesson>)
    requires forall p :: 0 <= p < |lessons| ==> !ObjectKeys.IsArrayIndex(GroupKey(lessons[p]))
    ensures SectionKeys(lessons) == GroupBy(lessons).keys
  {
    var g := GroupBy(lessons).keys;
    forall i | 0 <= i < |g|
      ensures !ObjectKeys.IsArrayIndex(g[i])
    {
      assert g[i] in KeySet(lessons);
    }
    ObjectKeys.EntriesOrderWithoutIndices(g);
  }

  // A week with two lessons of the section "Basics" around one lesson without a section.
  const ExampleBasics: Section := Section(Defined("Basics"), Defined("s1"), Undefined, Defined(1))
  const ExampleA: Lesson := Lesson("a", "A", Defined(ExampleBasics))
  const ExampleB: Lesson := Lesson("b", "B", Null)
  const ExampleC: Lesson := Lesson("c", "C", Defined(ExampleBasics))

  lemma ExampleKeys()
    ensures SectionKeys([ExampleA, ExampleB, ExampleC]) == ["Basics", "undefined"]
  {
    var a, b, c := ExampleA, ExampleB, ExampleC;
    assert !ObjectKeys.IsDigit("Basics"[0]) && !ObjectKeys.IsDigit("undefined"[0]);
    assert GroupBy([a]).keys == ["Basics"];
    assert [a, b][..1] == [a] && [a, b, c][..2] == [a, b];
    assert GroupBy([a, b]).keys == ["Basics", "undefined"];
    assert GroupBy([a, b, c]).keys == ["Basics", "undefined"];
    SectionKeysWithoutIndexTitles([a, b, c]);
  }

  lemma ExampleMembers()
    ensures Members([ExampleA, ExampleB, ExampleC], "Basics") == [ExampleA, ExampleC]
    ensures Members([ExampleA, ExampleB, ExampleC], "undefined") == [ExampleB]
  {
    var a, b, c := ExampleA, ExampleB, ExampleC;
    assert [a, b, c][1..] == [b, c] && [b, c][1..] == [c] && [c][1..] == [];
    assert GroupKey(a) == GroupKey(c) == "Basics" && GroupKey(b) == "undefined";
    assert |"Basics"| != |"undefined"|;
    assert KeySet([c]) == {"Basics"};
    MembersOfAbsentKey([c], "undefined");
    assert Members([c], "Basics") == [c];
    assert Members([b, c], "Basics") == [c] && Members([b, c], "undefined") == [b];
  }

  lemma ExampleHeaders()
    ensures FindHeader(SectionData([ExampleA, ExampleB, ExampleC]), "Basics") == HeaderOf(ExampleBasics)
    ensures FindHeader(SectionData([ExampleA, ExampleB, ExampleC]), "undefined") == EmptyHeader
  {
    var data := SectionData([ExampleA, ExampleB, ExampleC]);
    assert data == [ExampleBasics, NoSection, ExampleBasics];
    assert ExampleBasics.title != Defined("undefined");
    assert forall i :: 0 <= i < |data| ==> data[i].title != Defined("undefined");
  }

  /**
   * The example week has two sections: "Basics" first, holding its two lessons in order
   * with its section as header, then "undefined" with an empty header.
   */
  lemma ExampleWeek()
    ensures var r := Sections([ExampleA, ExampleB, ExampleC]);
      && |r| == 2
      && r[0] == SectionGroup(HeaderOf(ExampleBasics), [ExampleA, ExampleC])
      && r[1] == SectionGroup(EmptyHeader, [ExampleB])
  {
    ExampleKeys();
    ExampleMembers();
    ExampleHeaders();
  }

  /** A missing tag list, an absent group or an empty one hides the tag column. */
  lemma TagColumnHidden(tags: Nullable<Tags>)
    requires !tags.Defined? || !tags.value.group.Defined? || tags.value.group.value == []
    ensures TagColumn(tags) == None
  {
  }
}
