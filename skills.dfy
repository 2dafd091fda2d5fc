/** `parseSkills`: the items of the skills section, each put into the first
    category of a fixed table whose keyword it contains, or into "Other".
    The bucketing is stated for any table; `Table` is the one the extractor
    uses. */
module Skills {
  import opened Text
  import opened Wrappers
  import opened Lists
  import opened Sections

  datatype SkillGroup = SkillGroup(category: string, items: seq<string>)

  /** A row of the category table. */
  datatype Category = Category(name: string, keywords: seq<string>)

  /** The delimiter class `[,••\n]` (the bullet is U+2022 twice over). */
  predicate IsSkillDelimiter(c: char) { c == ',' || c == '•' || c == '\n' }

  /** The items of a skills section: its lines joined by spaces, cut at runs
      of delimiters, trimmed, with the empty ones dropped. */
  function SkillItems(lines: seq<string>): (items: seq<string>)
    ensures forall k :: 0 <= k < |items| ==> items[k] != "" && IsTrimmed(items[k])
  {
    TrimNonEmpty(SplitRuns(Join(lines, " "), IsSkillDelimiter))
  }

  /** The category table, in the order it is searched. */
  const Table: seq<Category> := [
    Category("Strategy", ["strategy", "planning", "growth"]),
    Category("Content", ["script", "video", "ugc", "short"]),
    Category("Engineering", ["python", "api", "fastapi", "ffmpeg", "next", "typescript", "automation"]),
    Category("Tools", ["notion", "figma", "adobe", "premiere", "after effects", "canva"])
  ]

  /** Bucket `|table|` is "Other", after the table's own. */
  function CategoryName(table: seq<Category>, g: nat): string
    requires g <= |table|
  {
    if g < |table| then table[g].name else "Other"
  }

  /** The lower-cased item contains a keyword of row `g`. */
  predicate InRow(table: seq<Category>, item: string, g: nat)
    requires g < |table|
  {
    ContainsAny(ToLower(item), table[g].keywords)
  }

  /** `groups.findIndex(...)`, with `|table|` for no match: the first row
      with a keyword in the item. */
  function CategoryOf(table: seq<Category>, item: string): (g: nat)
    ensures g <= |table|
    ensures g < |table| ==> InRow(table, item, g)
    ensures forall h :: 0 <= h < g && h < |table| ==> !InRow(table, item, h)
  {
    match FirstWhere(table, (c: Category) => ContainsAny(ToLower(item), c.keywords))
    case Some(g) => g
    case None => |table|
  }

  function InCategory(table: seq<Category>, g: nat): string -> bool {
    (item: string) => CategoryOf(table, item) == g
  }

  /** The items of bucket `g`, in their order. */
  function Bucket(table: seq<Category>, items: seq<string>, g: nat): seq<string> {
    Filter(items, InCategory(table, g))
  }

  /** The non-empty buckets among the first `n`, in table order. */
  function GroupsUpTo(table: seq<Category>, items: seq<string>, n: nat): (r: seq<SkillGroup>)
    requires n <= |table| + 1
    ensures |r| == |Filled(table, items, n)|
  {
    if n == 0 then []
    else
      GroupsUpTo(table, items, n - 1)
      + (if Bucket(table, items, n - 1) == [] then []
         else [SkillGroup(CategoryName(table, n - 1), Bucket(table, items, n - 1))])
  }

  /** What `parseSkills` returns for a list of items. */
  function Grouped(table: seq<Category>, items: seq<string>): seq<SkillGroup> {
    GroupsUpTo(table, items, |table| + 1)
  }

  /** The positions, below `n`, of the buckets that are not empty. */
  function Filled(table: seq<Category>, items: seq<string>, n: nat): (r: seq<nat>)
    requires n <= |table| + 1
    ensures forall k :: 0 <= k < |r| ==> r[k] < n
  {
    if n == 0 then []
    else Filled(table, items, n - 1) + (if Bucket(table, items, n - 1) == [] then [] else [n - 1])
  }

  /** What `parseSkills` returns. */
  function SkillsOf(section: Option<Section>): seq<SkillGroup> {
    if section.None? then [] else Grouped(Table, SkillItems(section.value.lines))
  }

  /** `parseSkills`: no section gives no groups; otherwise the items are
      bucketed one by one and the non-empty buckets are emitted in table
      order with "Other" last. */
  method ParseSkills(section: Option<Section>) returns (groups: seq<SkillGroup>)
    ensures section.None? ==> groups == []
    ensures section.Some? ==> groups == Grouped(Table, SkillItems(section.value.lines))
    ensures groups == SkillsOf(section)
  {
    if section.None? {
      return [];
    }
    var items := SkillItems(section.value.lines);
    if |items| == 0 {
      GroupedEmpty(Table, items, |Table| + 1);
      return [];
    }
    groups := GroupItems(Table, items);
  }

  /** The two loops of `parseSkills`: each item is pushed onto the bucket of
      its category, or onto "Other"; then the non-empty buckets are
      collected. */
  method GroupItems(table: seq<Category>, items: seq<string>) returns (groups: seq<SkillGroup>)
    ensures groups == Grouped(table, items)
  {
    var buckets: seq<seq<string>> := seq(|table|, _ => []);
    var other: seq<string> := [];
    for i := 0 to |items|
      invariant |buckets| == |table|
      invariant forall g :: 0 <= g < |table| ==> buckets[g] == Bucket(table, items[..i], g)
      invariant other == Bucket(table, items[..i], |table|)
    {
      var g := CategoryOf(table, items[i]);
      BucketStep(table, items, i);
      if g < |table| {
        buckets := buckets[g := buckets[g] + [items[i]]];
      } else {
        other := other + [items[i]];
      }
    }
    assert items[..|items|] == items;
    groups := [];
    for g := 0 to |table|
      invariant groups == GroupsUpTo(table, items, g)
    {
      if |buckets[g]| > 0 {
        groups := groups + [SkillGroup(table[g].name, buckets[g])];
      }
    }
    if |other| > 0 {
      groups := groups + [SkillGroup("Other", other)];
    }
  }

  /** Taking one more item adds it to its own bucket and to no other. */
  lemma BucketStep(table: seq<Category>, items: seq<string>, i: nat)
    requires i < |items|
    ensures forall g ::
      Bucket(table, items[..i + 1], g) == Bucket(table, items[..i], g) + (if CategoryOf(table, items[i]) == g then [items[i]] else [])
  {
    assert items[..i + 1] == items[..i] + [items[i]];
    forall g ensures Bucket(table, items[..i + 1], g) ==
      Bucket(table, items[..i], g) + (if CategoryOf(table, items[i]) == g then [items[i]] else [])
    {
      FilterAppend(items[..i], [items[i]], InCategory(table, g));
    }
  }

  lemma {:induction false} GroupedEmpty(table: seq<Category>, items: seq<string>, n: nat)
    requires items == [] && n <= |table| + 1
    ensures GroupsUpTo(table, items, n) == []
  {
    if n > 0 {
      GroupedEmpty(table, items, n - 1);
    }
  }

  /** The filled positions increase, and every non-empty bucket below `n`
      is among them. */
  lemma {:induction false} FilledOrder(table: seq<Category>, items: seq<string>, n: nat)
    requires n <= |table| + 1
    ensures forall i, j :: 0 <= i < j < |Filled(table, items, n)| ==> Filled(table, items, n)[i] < Filled(table, items, n)[j]
    ensures forall g :: 0 <= g < n && Bucket(table, items, g) != [] ==> g in Filled(table, items, n)
  {
    if n > 0 {
      FilledOrder(table, items, n - 1);
    }
  }

  /** The `j`-th group is the filled bucket `Filled[j]` under its name. */
  lemma {:induction false} GroupsAreBuckets(table: seq<Category>, items: seq<string>, n: nat)
    requires n <= |table| + 1
    ensures var f := Filled(table, items, n);
      forall j :: 0 <= j < |f| ==>
        Bucket(table, items, f[j]) != [] &&
        GroupsUpTo(table, items, n)[j] == SkillGroup(CategoryName(table, f[j]), Bucket(table, items, f[j]))
  {
    if n > 0 {
      GroupsAreBuckets(table, items, n - 1);
      var f, f' := Filled(table, items, n), Filled(table, items, n - 1);
      var r, r' := GroupsUpTo(table, items, n), GroupsUpTo(table, items, n - 1);
      forall j | 0 <= j < |f|
        ensures Bucket(table, items, f[j]) != [] && r[j] == SkillGroup(CategoryName(table, f[j]), Bucket(table, items, f[j]))
      {
        if j < |f'| {
          assert f[j] == f'[j] && r[j] == r'[j];
        } else {
          assert f[j] == n - 1;
        }
      }
    }
  }

  /** No group is empty, and the groups come in table order with "Other"
      last: group `j` is bucket `Filled[j]`, and those positions increase. */
  lemma GroupedOrder(table: seq<Category>, items: seq<string>)
    ensures var f := Filled(table, items, |table| + 1);
      && (forall j :: 0 <= j < |f| ==>
            Grouped(table, items)[j].items != [] && Grouped(table, items)[j].category == CategoryName(table, f[j]))
      && (forall i, j :: 0 <= i < j < |f| ==> f[i] < f[j])
  {
    FilledOrder(table, items, |table| + 1);
    GroupsAreBuckets(table, items, |table| + 1);
  }

  /** Every item lands in exactly one group, the one of the first row
      whose keyword it contains, or "Other"; a group holds nothing else and
      keeps the items in their order. */
  lemma GroupedPartition(table: seq<Category>, items: seq<string>)
    ensures var f := Filled(table, items, |table| + 1);
      && (forall x :: x in items ==> CategoryOf(table, x) in f)
      && (forall j, x :: 0 <= j < |f| ==>
            (x in Grouped(table, items)[j].items <==> x in items && CategoryOf(table, x) == f[j]))
      && (forall j :: 0 <= j < |f| ==>
            Grouped(table, items)[j].items == Filter(items, InCategory(table, f[j])))
  {
    FilledOrder(table, items, |table| + 1);
    GroupsAreBuckets(table, items, |table| + 1);
    var f := Filled(table, items, |table| + 1);
    forall x | x in items
      ensures CategoryOf(table, x) in f
    {
      FilterMember(items, InCategory(table, CategoryOf(table, x)), x);
    }
    forall j, x | 0 <= j < |f|
      ensures x in Grouped(table, items)[j].items <==> x in items && CategoryOf(table, x) == f[j]
    {
      FilterMember(items, InCategory(table, f[j]), x);
    }
  }

  lemma ThreeBuckets(table: seq<Category>, x: string, y: string, z: string)
    requires |table| == 4
    requires CategoryOf(table, x) == 2 && CategoryOf(table, y) == 3 && CategoryOf(table, z) == 0
    ensures Bucket(table, [x, y, z], 0) == [z] && Bucket(table, [x, y, z], 1) == []
    ensures Bucket(table, [x, y, z], 2) == [x] && Bucket(table, [x, y, z], 3) == [y]
    ensures Bucket(table, [x, y, z], 4) == []
  {
    FilterThree(x, y, z, InCategory(table, 0));
    FilterThree(x, y, z, InCategory(table, 1));
    FilterThree(x, y, z, InCategory(table, 2));
    FilterThree(x, y, z, InCategory(table, 3));
    FilterThree(x, y, z, InCategory(table, 4));
  }

  /** Items of rows 2, 3 and 0, given in that order, come out as rows 0, 2
      and 3: with `Table` that is "Python", "Figma", "Growth Strategy" giving
      Strategy, Engineering, Tools. The groups follow the table, not the
      items. */
  lemma TableOrderExample(table: seq<Category>, x: string, y: string, z: string)
    requires |table| == 4
    requires CategoryOf(table, x) == 2 && CategoryOf(table, y) == 3 && CategoryOf(table, z) == 0
    ensures Grouped(table, [x, y, z]) ==
      [SkillGroup(table[0].name, [z]), SkillGroup(table[2].name, [x]), SkillGroup(table[3].name, [y])]
  {
    ThreeBuckets(table, x, y, z);
    assert GroupsUpTo(table, [x, y, z], 1) == [SkillGroup(table[0].name, [z])];
    assert GroupsUpTo(table, [x, y, z], 2) == [SkillGroup(table[0].name, [z])];
    assert GroupsUpTo(table, [x, y, z], 3) == [SkillGroup(table[0].name, [z]), SkillGroup(table[2].name, [x])];
    assert GroupsUpTo(table, [x, y, z], 4) ==
      [SkillGroup(table[0].name, [z]), SkillGroup(table[2].name, [x]), SkillGroup(table[3].name, [y])];
  }
}
