/** The case-study stubs made from the portfolio text (title-like lines,
    each once, at most eight, with a URL slug each) and `mergeCaseStudies`,
    which appends to the existing case studies the stubs whose slug they do
    not have yet. */
module CaseStudies {
  import opened Text
  import opened Wrappers
  import opened Lists
  import opened Json

  // ---------------------------------------------------------------------
  // Titles

  /** A character of `[A-Za-z0-9 .,&-]`. */
  predicate IsTitleChar(c: char) {
    IsAlnum(c) || c == ' ' || c == '.' || c == ',' || c == '&' || c == '-'
  }

  /** `l.length < 70 && /^[A-Z][A-Za-z0-9 .,&-]+$/.test(l)`. */
  predicate IsTitle(l: string) {
    2 <= |l| < 70 && IsUpper(l[0]) && forall k :: 1 <= k < |l| ==> IsTitleChar(l[k])
  }

  /** No element occurs twice. */
  predicate Distinct<T(==)>(xs: seq<T>) {
    forall i, j :: 0 <= i < j < |xs| ==> xs[i] != xs[j]
  }

  /** `Array.from(new Set(xs))`: every element once, where it first occurs. */
  function Dedupe<T(==)>(xs: seq<T>): (r: seq<T>)
    ensures forall i :: 0 <= i < |r| ==> r[i] in xs
    ensures forall i :: 0 <= i < |xs| ==> xs[i] in r
    ensures Distinct(r)
    ensures |r| <= |xs|
    decreases |xs|
  {
    if |xs| == 0 then []
    else
      var d := Dedupe(xs[..|xs| - 1]);
      if xs[|xs| - 1] in d then d else d + [xs[|xs| - 1]]
  }

  /** Deduplicating a prefix gives a prefix of the whole result: the
      elements come in the order of their first occurrences. */
  lemma {:induction false} DedupePrefix<T>(xs: seq<T>, n: nat)
    requires n <= |xs|
    ensures Dedupe(xs[..n]) <= Dedupe(xs)
    decreases |xs|
  {
    if n < |xs| {
      var p := xs[..|xs| - 1];
      DedupePrefix(p, n);
      assert p[..n] == xs[..n];
      assert Dedupe(p) <= Dedupe(xs);
    } else {
      assert xs[..n] == xs;
    }
  }

  /** A sequence without duplicates is left as it is. */
  lemma {:induction false} DedupeDistinct<T>(xs: seq<T>)
    requires Distinct(xs)
    ensures Dedupe(xs) == xs
    decreases |xs|
  {
    if |xs| > 0 {
      var p := xs[..|xs| - 1];
      DedupeDistinct(p);
      assert xs[|xs| - 1] !in p;
      assert p + [xs[|xs| - 1]] == xs;
    }
  }

  /** The titles the stubs are made of: the title-like lines, each once, the
      first eight. */
  function Titles(lines: seq<string>): seq<string> {
    Take(Dedupe(Filter(lines, IsTitle)), 8)
  }

  // ---------------------------------------------------------------------
  // Slugs

  predicate IsSlugChar(c: char) { IsLower(c) || IsDigit(c) }

  predicate NotSlugChar(c: char) { !IsSlugChar(c) }

  /** `s.replace(/[^a-z0-9]+/g, '-')`: every maximal run of other
      characters becomes one hyphen. */
  function Hyphenate(s: string): (r: string)
    ensures forall k :: 0 <= k < |r| ==> IsSlugChar(r[k]) || r[k] == '-'
    ensures forall k :: 0 <= k < |r| - 1 ==> !(r[k] == '-' && r[k + 1] == '-')
    ensures |r| == 0 <==> |s| == 0
    ensures |r| > 0 ==> (r[0] == '-' <==> NotSlugChar(s[0]))
    decreases |s|
  {
    if |s| == 0 then ""
    else if IsSlugChar(s[0]) then [s[0]] + Hyphenate(s[1..])
    else "-" + Hyphenate(s[RunEnd(s, 0, NotSlugChar)..])
  }

  /** `s.replace(/(^-|-$)/g, '')`: a leading hyphen and a trailing one go. */
  function StripHyphens(s: string): string {
    var a := if |s| > 0 && s[0] == '-' then s[1..] else s;
    if |a| > 0 && a[|a| - 1] == '-' then a[..|a| - 1] else a
  }

  /** The slug of a title. */
  function Slugify(t: string): string {
    StripHyphens(Hyphenate(ToLower(t)))
  }

  /** Lower-case letters, digits and single hyphens between them. */
  predicate IsSlug(s: string) {
    (forall k :: 0 <= k < |s| ==> IsSlugChar(s[k]) || s[k] == '-') &&
    (forall k :: 0 <= k < |s| - 1 ==> !(s[k] == '-' && s[k + 1] == '-')) &&
    (|s| > 0 ==> s[0] != '-' && s[|s| - 1] != '-')
  }

  /** Every slug is made of lower-case letters and digits joined by single
      hyphens. */
  lemma SlugifyIsSlug(t: string)
    ensures IsSlug(Slugify(t))
  {
    var h := Hyphenate(ToLower(t));
    var a := if |h| > 0 && h[0] == '-' then h[1..] else h;
    assert |a| > 0 ==> a[0] != '-';
    if |a| > 0 && a[|a| - 1] == '-' {
      assert |a| >= 2;
    }
  }

  /** A string of slug characters with no double hyphen goes through
      `Hyphenate` unchanged. */
  lemma {:induction false} HyphenateKeeps(s: string)
    requires forall k :: 0 <= k < |s| ==> IsSlugChar(s[k]) || s[k] == '-'
    requires forall k :: 0 <= k < |s| - 1 ==> !(s[k] == '-' && s[k + 1] == '-')
    ensures Hyphenate(s) == s
    decreases |s|
  {
    if |s| > 0 {
      HyphenateKeeps(s[1..]);
      if !IsSlugChar(s[0]) {
        assert RunEnd(s, 0, NotSlugChar) == 1 by {
          assert RunEnd(s, 1, NotSlugChar) == 1;
        }
      }
      assert s == [s[0]] + s[1..];
    }
  }

  /** A slug is its own slug, so slugging is idempotent. */
  lemma SlugFixedPoint(s: string)
    requires IsSlug(s)
    ensures Slugify(s) == s
  {
    assert ToLower(s) == s;
    HyphenateKeeps(s);
  }

  lemma SlugifyIdempotent(t: string)
    ensures Slugify(Slugify(t)) == Slugify(t)
  {
    SlugifyIsSlug(t);
    SlugFixedPoint(Slugify(t));
  }

  /** The name of the MDX file is the slug before the hyphens are stripped:
      for a title it is the slug, or the slug and one trailing hyphen (a
      title ending in `.` gives `acme-inc-` beside the slug `acme-inc`). */
  lemma MdxNameOfTitle(t: string)
    requires IsTitle(t)
    ensures var m := Hyphenate(ToLower(t));
      m == Slugify(t) || m == Slugify(t) + "-"
  {
    var m := Hyphenate(ToLower(t));
    assert m[0] != '-';
    if m[|m| - 1] == '-' {
      assert m[..|m| - 1] + "-" == m;
    }
  }

  // ---------------------------------------------------------------------
  // Stubs

  /** One case study made from a portfolio title. */
  datatype Stub = Stub(slug: string, title: string, year: string, coverSrc: string, coverAlt: string, mdx: string)

  /** The stub for the `i`-th title (from 0), in the year `year`. */
  function MakeStub(i: nat, t: string, year: nat): Stub {
    Stub(Slugify(t), t, NatToString(year),
      "/images/work/" + NatToString(i + 1) + ".png", t + " cover",
      "/content/case-studies/" + Hyphenate(ToLower(t)) + ".mdx")
  }

  /** The stubs of the portfolio lines; none when there are no lines. */
  function Stubs(lines: seq<string>, year: nat): seq<Stub> {
    if |lines| == 0 then []
    else
      var ts := Titles(lines);
      seq(|ts|, i requires 0 <= i < |ts| => MakeStub(i, ts[i], year))
  }

  /** At most eight stubs, each from a title-like line of the portfolio,
      no title twice, each slug a slug, the covers numbered from 1. */
  lemma StubsShape(lines: seq<string>, year: nat)
    ensures var s := Stubs(lines, year);
      |s| <= 8 &&
      (forall i :: 0 <= i < |s| ==> IsTitle(s[i].title) && s[i].title in lines && IsSlug(s[i].slug)) &&
      (forall i :: 0 <= i < |s| ==> s[i].coverSrc == "/images/work/" + NatToString(i + 1) + ".png") &&
      (forall i, j :: 0 <= i < j < |s| ==> s[i].title != s[j].title)
  {
    var s := Stubs(lines, year);
    forall i | 0 <= i < |s|
      ensures IsTitle(s[i].title) && s[i].title in lines && IsSlug(s[i].slug)
    {
      var d := Dedupe(Filter(lines, IsTitle));
      assert s[i].title == d[i];
      FilterMember(lines, IsTitle, d[i]);
      SlugifyIsSlug(s[i].title);
    }
  }

  /** The stubs follow the title-like lines in the order of their first
      occurrences: the titles of the stubs are a prefix of the deduplicated
      title lines. */
  lemma StubsInOrder(lines: seq<string>, year: nat)
    requires |lines| > 0
    ensures var s := Stubs(lines, year);
      |s| == |Titles(lines)| && forall i :: 0 <= i < |s| ==> s[i].title == Dedupe(Filter(lines, IsTitle))[i]
  {
  }

  /** With at most eight distinct title-like lines, every one of them gets a
      stub. */
  lemma AllTitlesWhenFew(lines: seq<string>, year: nat)
    requires |Dedupe(Filter(lines, IsTitle))| <= 8
    ensures var s := Stubs(lines, year);
      forall l :: l in lines && IsTitle(l) ==> exists i :: 0 <= i < |s| && s[i].title == l
  {
    var s := Stubs(lines, year);
    var d := Dedupe(Filter(lines, IsTitle));
    forall l | l in lines && IsTitle(l)
      ensures exists i :: 0 <= i < |s| && s[i].title == l
    {
      FilterMember(lines, IsTitle, l);
      var f := Filter(lines, IsTitle);
      var k :| 0 <= k < |f| && f[k] == l;
      assert l in d;
      var i :| 0 <= i < |d| && d[i] == l;
      assert s[i].title == l;
    }
  }

  /** The content object of a stub, fields in the source's order. */
  function StubJson(s: Stub): (r: Json)
    ensures Get(r, "slug") == JStr(s.slug)
  {
    JObj([
      ("slug", JStr(s.slug)),
      ("title", JStr(s.title)),
      ("year", JStr(s.year)),
      ("cover", JObj([("src", JStr(s.coverSrc)), ("alt", JStr(s.coverAlt))])),
      ("summary", JStr("Project from portfolio PDF (details TBD).")),
      ("role", JArr([JStr("Product"), JStr("Engineering"), JStr("Design")])),
      ("stack", JArr([JStr("Next.js"), JStr("TypeScript"), JStr("Tailwind")])),
      ("metrics", JArr([])),
      ("whyItWorks", JArr([])),
      ("responsibilities", JArr([])),
      ("media", JArr([])),
      ("links", JObj([])),
      ("mdx", JStr(s.mdx))
    ])
  }

  // ---------------------------------------------------------------------
  // mergeCaseStudies

  /** A `Map` key: primitives are compared by value; an object or array is
      equal only to itself, so it is told apart by the position it came
      from. */
  datatype Key = KUndefined | KNull | KBool(b: bool) | KNum(n: int) | KStr(s: string) | KRef(at: nat)

  /** The key `c.slug` gives for the element at position `at`. */
  function KeyOf(slug: Json, at: nat): Key {
    match slug
    case JUndefined => KUndefined
    case JNull => KNull
    case JBool(b) => KBool(b)
    case JNum(n) => KNum(n)
    case JStr(s) => KStr(s)
    case JArr(_) => KRef(at)
    case JObj(_) => KRef(at)
  }

  /** `c.slug`. */
  function SlugOf(c: Json): Json {
    Get(c, "slug")
  }

  /** An element `c.slug` throws on. */
  predicate Unreadable(c: Json) {
    c.JNull? || c.JUndefined?
  }

  /** A JavaScript `Map`: its keys in insertion order and the value
      under each. */
  datatype OrderedMap = OrderedMap(keys: seq<Key>, vals: map<Key, Json>)

  /** Every key once, and exactly the listed keys hold a value. */
  predicate Valid(m: OrderedMap) {
    Distinct(m.keys) &&
    (forall i :: 0 <= i < |m.keys| ==> m.keys[i] in m.vals) &&
    (forall k :: k in m.vals ==> k in m.keys)
  }

  /** `map.has(k)`. */
  predicate Has(m: OrderedMap, k: Key) {
    k in m.vals
  }

  /** `map.set(k, v)`: a present key keeps its place and takes the new
      value; a new key goes last. */
  function Put(m: OrderedMap, k: Key, v: Json): (r: OrderedMap)
    ensures Valid(m) ==> Valid(r)
  {
    OrderedMap(if k in m.vals then m.keys else m.keys + [k], m.vals[k := v])
  }

  /** `Array.from(map.values())`. */
  function Values(m: OrderedMap): (r: seq<Json>)
    requires Valid(m)
    ensures |r| == |m.keys| && forall i {:trigger r[i]} :: 0 <= i < |m.keys| ==> r[i] == m.vals[m.keys[i]]
  {
    seq(|m.keys|, i requires 0 <= i < |m.keys| => m.vals[m.keys[i]])
  }

  type Entry = (Key, Json)

  function PairKeys(pairs: seq<Entry>): (r: seq<Key>)
    ensures |r| == |pairs| && forall i :: 0 <= i < |pairs| ==> r[i] == pairs[i].0
  {
    seq(|pairs|, i requires 0 <= i < |pairs| => pairs[i].0)
  }

  /** `[c.slug, c]` for each element, the elements numbered from `base`:
      `existing.map((c) => [c.slug, c])` with `base` 0, and the keys the
      incoming values are looked up under with `base` the number of
      existing ones. */
  function Pairs(items: seq<Json>, base: nat): (r: seq<Entry>)
    ensures |r| == |items|
  {
    seq(|items|, i requires 0 <= i < |items| => (KeyOf(SlugOf(items[i]), base + i), items[i]))
  }

  /** The value of the last pair with key `k`. */
  function LastValue(pairs: seq<Entry>, k: Key): Json
    decreases |pairs|
  {
    if |pairs| == 0 then JUndefined
    else if pairs[|pairs| - 1].0 == k then pairs[|pairs| - 1].1
    else LastValue(pairs[..|pairs| - 1], k)
  }

  /** `new Map(pairs)`: one key per distinct pair key, where it first
      occurs, holding the value of the last pair with that key. */
  function FromPairs(pairs: seq<Entry>): (r: OrderedMap)
    ensures Valid(r)
    ensures r.keys == Dedupe(PairKeys(pairs))
    ensures forall k :: k in r.vals ==> r.vals[k] == LastValue(pairs, k)
    decreases |pairs|
  {
    if |pairs| == 0 then OrderedMap([], map[])
    else
      var p := pairs[..|pairs| - 1];
      assert PairKeys(p) == PairKeys(pairs)[..|pairs| - 1];
      Put(FromPairs(p), pairs[|pairs| - 1].0, pairs[|pairs| - 1].1)
  }

  /** A slug that is an object or an array: a key equal only to itself. */
  predicate IsRef(slug: Json) {
    slug.JArr? || slug.JObj?
  }

  /** The loop over `incoming`, given as key and value pairs: each value
      whose key is not there yet is added. */
  function AddNew(m: OrderedMap, pairs: seq<Entry>): OrderedMap
    decreases |pairs|
  {
    if |pairs| == 0 then m
    else
      var n := |pairs| - 1;
      var e := AddNew(m, pairs[..n]);
      if Has(e, pairs[n].0) then e else Put(e, pairs[n].0, pairs[n].1)
  }

  /** The last pair is added if its key is not there yet. */
  lemma AddNewLast(m: OrderedMap, pairs: seq<Entry>)
    requires |pairs| > 0
    ensures var n := |pairs| - 1;
      var a := AddNew(m, pairs[..n]);
      AddNew(m, pairs) == if Has(a, pairs[n].0) then a else Put(a, pairs[n].0, pairs[n].1)
  {
  }

  /** Adding pairs keeps the map valid, leaves its keys first and their
      values as they were, and afterwards every pair's key is a key. */
  lemma AddNewKeeps(m: OrderedMap, pairs: seq<Entry>)
    requires Valid(m)
    ensures Valid(AddNew(m, pairs))
    ensures m.keys <= AddNew(m, pairs).keys
    ensures forall k :: k in m.vals ==> k in AddNew(m, pairs).vals && AddNew(m, pairs).vals[k] == m.vals[k]
    ensures forall j :: 0 <= j < |pairs| ==> Has(AddNew(m, pairs), pairs[j].0)
  {
    AddNewGrows(m, pairs);
    AddNewHasAll(m, pairs);
  }

  /** Adding pairs keeps the map valid and leaves its keys first and their
      values as they were. */
  lemma {:induction false} AddNewGrows(m: OrderedMap, pairs: seq<Entry>)
    requires Valid(m)
    ensures Valid(AddNew(m, pairs))
    ensures m.keys <= AddNew(m, pairs).keys
    ensures forall k :: k in m.vals ==> k in AddNew(m, pairs).vals && AddNew(m, pairs).vals[k] == m.vals[k]
    decreases |pairs|
  {
    if |pairs| > 0 {
      var n := |pairs| - 1;
      AddNewGrows(m, pairs[..n]);
      AddNewLast(m, pairs);
      var a := AddNew(m, pairs[..n]);
      if !Has(a, pairs[n].0) {
        assert AddNew(m, pairs) == Put(a, pairs[n].0, pairs[n].1);
      }
    }
  }

  /** After adding pairs every pair's key is a key. */
  lemma {:induction false} AddNewHasAll(m: OrderedMap, pairs: seq<Entry>)
    ensures forall j :: 0 <= j < |pairs| ==> Has(AddNew(m, pairs), pairs[j].0)
    decreases |pairs|
  {
    if |pairs| > 0 {
      var n := |pairs| - 1;
      AddNewHasAll(m, pairs[..n]);
      AddNewLast(m, pairs);
      var a := AddNew(m, pairs[..n]);
      var r := AddNew(m, pairs);
      assert forall k :: Has(a, k) ==> Has(r, k);
      forall j | 0 <= j < n ensures Has(r, pairs[j].0) {
        assert pairs[j] == pairs[..n][j];
      }
    }
  }

  /** The `j`-th pair brings a key that neither `m` nor an earlier pair
      has. */
  predicate FirstNewAt(m: OrderedMap, pairs: seq<Entry>, j: nat)
    requires j < |pairs|
  {
    !Has(m, pairs[j].0) && forall i :: 0 <= i < j ==> pairs[i].0 != pairs[j].0
  }

  /** The pairs that bring a new key, in their order. */
  function NewPairs(m: OrderedMap, pairs: seq<Entry>): seq<Entry>
    decreases |pairs|
  {
    if |pairs| == 0 then []
    else NewPairs(m, pairs[..|pairs| - 1]) + (if FirstNewAt(m, pairs, |pairs| - 1) then [pairs[|pairs| - 1]] else [])
  }

  function PairValues(pairs: seq<Entry>): (r: seq<Json>)
    ensures |r| == |pairs| && forall i :: 0 <= i < |pairs| ==> r[i] == pairs[i].1
  {
    seq(|pairs|, i requires 0 <= i < |pairs| => pairs[i].1)
  }

  /** The loop over the pairs appends, in the pairs' order, the key of each
      pair that brings a new one, holding that first pair's value; a key is
      present afterwards exactly when `m` or some pair has it. */
  lemma AddNewOrder(m: OrderedMap, pairs: seq<Entry>)
    ensures forall k :: Has(AddNew(m, pairs), k) <==> Has(m, k) || k in PairKeys(pairs)
    ensures AddNew(m, pairs).keys == m.keys + PairKeys(NewPairs(m, pairs))
    ensures forall e :: e in NewPairs(m, pairs) ==> Has(AddNew(m, pairs), e.0) && AddNew(m, pairs).vals[e.0] == e.1
  {
    AddNewHasIff(m, pairs);
    AddNewKeysOrder(m, pairs);
    AddNewNewValues(m, pairs);
  }

  lemma {:induction false} AddNewHasIff(m: OrderedMap, pairs: seq<Entry>)
    ensures forall k :: Has(AddNew(m, pairs), k) <==> Has(m, k) || k in PairKeys(pairs)
    decreases |pairs|
  {
    if |pairs| > 0 {
      var n := |pairs| - 1;
      AddNewHasIff(m, pairs[..n]);
      AddNewLast(m, pairs);
      assert PairKeys(pairs) == PairKeys(pairs[..n]) + [pairs[n].0];
    }
  }

  lemma {:induction false} AddNewKeysOrder(m: OrderedMap, pairs: seq<Entry>)
    ensures AddNew(m, pairs).keys == m.keys + PairKeys(NewPairs(m, pairs))
    decreases |pairs|
  {
    if |pairs| > 0 {
      var n := |pairs| - 1;
      var p := pairs[..n];
      AddNewKeysOrder(m, p);
      AddNewHasIff(m, p);
      AddNewLast(m, pairs);
      var a := AddNew(m, p);
      NewAtLast(m, pairs, a);
      if !Has(a, pairs[n].0) {
        AppendKey(m.keys, NewPairs(m, p), pairs[n]);
      }
    }
  }

  lemma {:induction false} AddNewNewValues(m: OrderedMap, pairs: seq<Entry>)
    ensures forall e :: e in NewPairs(m, pairs) ==> Has(AddNew(m, pairs), e.0) && AddNew(m, pairs).vals[e.0] == e.1
    decreases |pairs|
  {
    if |pairs| > 0 {
      var n := |pairs| - 1;
      var p := pairs[..n];
      AddNewNewValues(m, p);
      AddNewHasIff(m, p);
      AddNewLast(m, pairs);
      var a := AddNew(m, p);
      NewAtLast(m, pairs, a);
    }
  }

  /** The last pair brings a new key exactly when the map built from the
      others lacks it. */
  lemma NewAtLast(m: OrderedMap, pairs: seq<Entry>, a: OrderedMap)
    requires |pairs| > 0
    requires forall k :: Has(a, k) <==> Has(m, k) || k in PairKeys(pairs[..|pairs| - 1])
    ensures FirstNewAt(m, pairs, |pairs| - 1) <==> !Has(a, pairs[|pairs| - 1].0)
  {
    var n := |pairs| - 1;
    if Has(a, pairs[n].0) && Has(m, pairs[n].0) == false {
      var i :| 0 <= i < n && PairKeys(pairs[..n])[i] == pairs[n].0;
      assert pairs[i].0 == pairs[n].0;
    }
    if !FirstNewAt(m, pairs, n) && !Has(m, pairs[n].0) {
      var i :| 0 <= i < n && pairs[i].0 == pairs[n].0;
      assert PairKeys(pairs[..n])[i] == pairs[n].0;
    }
  }

  lemma AppendKey(keys: seq<Key>, ps: seq<Entry>, e: Entry)
    ensures keys + PairKeys(ps + [e]) == keys + PairKeys(ps) + [e.0]
  {
    assert PairKeys(ps + [e]) == PairKeys(ps) + [e.0];
  }

  /** The values come out as those of `m`, then those of the pairs that
      bring a new key, in the pairs' order. */
  lemma AddNewValues(m: OrderedMap, pairs: seq<Entry>)
    requires Valid(m)
    ensures Valid(AddNew(m, pairs))
    ensures Values(AddNew(m, pairs)) == Values(m) + PairValues(NewPairs(m, pairs))
  {
    AddNewKeeps(m, pairs);
    AddNewOrder(m, pairs);
    SameValues(m, AddNew(m, pairs), NewPairs(m, pairs));
  }

  lemma SameValues(m: OrderedMap, E: OrderedMap, N: seq<Entry>)
    requires Valid(m) && Valid(E) && E.keys == m.keys + PairKeys(N)
    requires forall k :: k in m.vals ==> k in E.vals && E.vals[k] == m.vals[k]
    requires forall e :: e in N ==> e.0 in E.vals && E.vals[e.0] == e.1
    ensures Values(E) == Values(m) + PairValues(N)
  {
    var z, x, y := Values(E), Values(m), PairValues(N);
    assert forall i :: 0 <= i < |x| ==> z[i] == x[i] by {
      forall i | 0 <= i < |x| ensures z[i] == x[i] {
        OldValueAt(m, E, N, i);
      }
    }
    assert forall t :: 0 <= t < |y| ==> z[|x| + t] == y[t] by {
      forall t | 0 <= t < |y| ensures z[|x| + t] == y[t] {
        NewValueAt(m, E, N, t);
      }
    }
    ConcatParts(z, x, y);
  }

  /** An existing key keeps its place and its value. */
  lemma OldValueAt(m: OrderedMap, E: OrderedMap, N: seq<Entry>, i: nat)
    requires Valid(m) && Valid(E) && i < |m.keys| && E.keys == m.keys + PairKeys(N)
    requires forall k :: k in m.vals ==> k in E.vals && E.vals[k] == m.vals[k]
    ensures Values(E)[i] == Values(m)[i]
  {
    assert E.keys[i] == m.keys[i];
  }

  /** The key of a pair that brings a new one sits after the existing keys,
      holding that pair's value. */
  lemma NewValueAt(m: OrderedMap, E: OrderedMap, N: seq<Entry>, t: nat)
    requires Valid(E) && t < |N| && E.keys == m.keys + PairKeys(N)
    requires forall e :: e in N ==> e.0 in E.vals && E.vals[e.0] == e.1
    ensures Values(E)[|m.keys| + t] == PairValues(N)[t]
  {
    assert E.keys[|m.keys| + t] == N[t].0;
    assert N[t] in N;
  }

  lemma ConcatParts(z: seq<Json>, x: seq<Json>, y: seq<Json>)
    requires |z| == |x| + |y|
    requires forall i :: 0 <= i < |x| ==> z[i] == x[i]
    requires forall t :: 0 <= t < |y| ==> z[|x| + t] == y[t]
    ensures z == x + y
  {
    forall i | |x| <= i < |z| ensures z[i] == (x + y)[i] {
      assert z[|x| + (i - |x|)] == y[i - |x|];
    }
  }

  /** What `mergeCaseStudies(existing, incoming)` returns, or the
      `TypeError` it throws when `existing` is not an array or a slug cannot
      be read. */
  function MergeSpec(existing: Json, incoming: seq<Json>): Result<seq<Json>> {
    if !existing.JArr? then TypeError
    else if exists i :: 0 <= i < |existing.items| && Unreadable(existing.items[i]) then TypeError
    else if exists j :: 0 <= j < |incoming| && Unreadable(incoming[j]) then TypeError
    else
      MergedValid(existing.items, incoming);
      Ok(Values(Merged(existing.items, incoming)))
  }

  /** The map `mergeCaseStudies` builds: the existing list's, then the
      incoming values. */
  function Merged(items: seq<Json>, incoming: seq<Json>): OrderedMap {
    AddNew(FromPairs(Pairs(items, 0)), Pairs(incoming, |items|))
  }

  lemma MergedValid(items: seq<Json>, incoming: seq<Json>)
    ensures Valid(Merged(items, incoming))
  {
    AddNewKeeps(FromPairs(Pairs(items, 0)), Pairs(incoming, |items|));
  }

  /** `mergeCaseStudies`. */
  method MergeCaseStudies(existing: Json, incoming: seq<Json>) returns (r: Result<seq<Json>>)
    ensures r == MergeSpec(existing, incoming)
  {
    if !existing.JArr? {
      return TypeError;
    }
    var pairs := SlugPairs(existing.items);
    if pairs.None? {
      return TypeError;
    }
    var bySlug := NewMap(pairs.value);
    var added := AddIncoming(bySlug, incoming, |existing.items|);
    if added.None? {
      return TypeError;
    }
    MergedValid(existing.items, incoming);
    r := Ok(Values(added.value));
  }

  /** `existing.map((c) => [c.slug, c])`, or nothing when it throws. */
  method SlugPairs(items: seq<Json>) returns (pairs: Option<seq<Entry>>)
    ensures pairs.None? <==> exists i :: 0 <= i < |items| && Unreadable(items[i])
    ensures pairs.Some? ==> pairs.value == Pairs(items, 0)
  {
    var acc: seq<Entry> := [];
    for i := 0 to |items|
      invariant acc == Pairs(items[..i], 0)
      invariant forall j :: 0 <= j < i ==> !Unreadable(items[j])
    {
      if Unreadable(items[i]) {
        return None;
      }
      acc := acc + [(KeyOf(SlugOf(items[i]), i), items[i])];
    }
    assert items[..|items|] == items;
    return Some(acc);
  }

  /** `new Map(pairs)`. */
  method NewMap(pairs: seq<Entry>) returns (bySlug: OrderedMap)
    ensures bySlug == FromPairs(pairs)
  {
    bySlug := OrderedMap([], map[]);
    for i := 0 to |pairs|
      invariant bySlug == FromPairs(pairs[..i])
    {
      assert pairs[..i + 1][..i] == pairs[..i];
      bySlug := Put(bySlug, pairs[i].0, pairs[i].1);
    }
    assert pairs[..|pairs|] == pairs;
  }

  /** The loop over `incoming`, the values numbered from `base`, or nothing
      when a slug cannot be read. */
  method AddIncoming(m: OrderedMap, incoming: seq<Json>, base: nat) returns (r: Option<OrderedMap>)
    ensures r.None? <==> exists j :: 0 <= j < |incoming| && Unreadable(incoming[j])
    ensures r.Some? ==> r.value == AddNew(m, Pairs(incoming, base))
  {
    var bySlug := m;
    for j := 0 to |incoming|
      invariant bySlug == AddNew(m, Pairs(incoming, base)[..j])
      invariant forall k :: 0 <= k < j ==> !Unreadable(incoming[k])
    {
      IncomingStep(m, incoming, base, j, bySlug);
      var cs := incoming[j];
      if Unreadable(cs) {
        return None;
      }
      if !Has(bySlug, KeyOf(SlugOf(cs), base + j)) {
        bySlug := Put(bySlug, KeyOf(SlugOf(cs), base + j), cs);
      }
    }
    assert Pairs(incoming, base)[..|incoming|] == Pairs(incoming, base);
    return Some(bySlug);
  }

  /** One more incoming value: added under its key unless the key is there. */
  lemma IncomingStep(m: OrderedMap, incoming: seq<Json>, base: nat, j: nat, bySlug: OrderedMap)
    requires j < |incoming| && bySlug == AddNew(m, Pairs(incoming, base)[..j])
    ensures var k := KeyOf(SlugOf(incoming[j]), base + j);
      AddNew(m, Pairs(incoming, base)[..j + 1]) == if Has(bySlug, k) then bySlug else Put(bySlug, k, incoming[j])
  {
    AddNewLast(m, Pairs(incoming, base)[..j + 1]);
    assert Pairs(incoming, base)[..j + 1][..j] == Pairs(incoming, base)[..j];
    PairKey(incoming, base, j);
  }

  // ---------------------------------------------------------------------
  // Properties of the merge

  /** A value that has a slug to read under the key that slug gives: the
      slug itself when it is a primitive, a reference when it is an object
      or an array. */
  predicate Consistent(k: Key, v: Json) {
    !Unreadable(v) &&
    if IsRef(SlugOf(v)) then k.KRef? else k == KeyOf(SlugOf(v), 0)
  }

  predicate AllConsistent(m: OrderedMap) {
    forall k :: k in m.vals ==> Consistent(k, m.vals[k])
  }

  /** The pairs of values with slugs to read are consistent. */
  lemma PairsConsistent(items: seq<Json>, base: nat)
    requires forall i :: 0 <= i < |items| ==> !Unreadable(items[i])
    ensures forall i :: 0 <= i < |items| ==> Consistent(Pairs(items, base)[i].0, Pairs(items, base)[i].1)
  {
  }

  lemma {:induction false} FromPairsConsistent(pairs: seq<Entry>)
    requires forall i :: 0 <= i < |pairs| ==> Consistent(pairs[i].0, pairs[i].1)
    ensures AllConsistent(FromPairs(pairs))
    decreases |pairs|
  {
    if |pairs| > 0 {
      FromPairsConsistent(pairs[..|pairs| - 1]);
    }
  }

  /** With distinct keys the last pair with a key is the only one. */
  lemma {:induction false} LastValueDistinct(pairs: seq<Entry>, j: nat)
    requires Distinct(PairKeys(pairs)) && j < |pairs|
    ensures LastValue(pairs, pairs[j].0) == pairs[j].1
    decreases |pairs|
  {
    if j < |pairs| - 1 {
      var p := pairs[..|pairs| - 1];
      assert PairKeys(p) == PairKeys(pairs)[..|pairs| - 1];
      LastValueDistinct(p, j);
    }
  }

  /** Pairs with distinct keys make a map whose values are theirs, in
      their order. */
  lemma FromPairsDistinct(pairs: seq<Entry>)
    requires Distinct(PairKeys(pairs))
    ensures |Values(FromPairs(pairs))| == |pairs|
    ensures forall i :: 0 <= i < |pairs| ==> Values(FromPairs(pairs))[i] == pairs[i].1
  {
    var r := FromPairs(pairs);
    DedupeDistinct(PairKeys(pairs));
    forall i | 0 <= i < |pairs| ensures Values(r)[i] == pairs[i].1 {
      assert r.keys[i] == pairs[i].0;
      LastValueDistinct(pairs, i);
    }
  }

  /** Adding consistent pairs keeps the map consistent. */
  lemma {:induction false} AddNewConsistent(m: OrderedMap, pairs: seq<Entry>)
    requires AllConsistent(m)
    requires forall j :: 0 <= j < |pairs| ==> Consistent(pairs[j].0, pairs[j].1)
    ensures AllConsistent(AddNew(m, pairs))
    decreases |pairs|
  {
    if |pairs| > 0 {
      AddNewConsistent(m, pairs[..|pairs| - 1]);
      AddNewLast(m, pairs);
    }
  }

  /** Each key the pairs add holds the value of a pair with that key. */
  lemma {:induction false} AddNewAppended(m: OrderedMap, pairs: seq<Entry>)
    requires Valid(m)
    ensures forall i :: |m.keys| <= i < |AddNew(m, pairs).keys| ==>
      AddNew(m, pairs).keys[i] in AddNew(m, pairs).vals &&
      (AddNew(m, pairs).keys[i], AddNew(m, pairs).vals[AddNew(m, pairs).keys[i]]) in pairs
    decreases |pairs|
  {
    AddNewKeeps(m, pairs);
    if |pairs| > 0 {
      var n := |pairs| - 1;
      var p := pairs[..n];
      AddNewAppended(m, p);
      AddNewKeeps(m, p);
      AddNewLast(m, pairs);
      var a := AddNew(m, p);
      var r := AddNew(m, pairs);
      var k := pairs[n].0;
      forall i | |m.keys| <= i < |r.keys| ensures r.keys[i] in r.vals && (r.keys[i], r.vals[r.keys[i]]) in pairs {
        if i < |a.keys| {
          assert (a.keys[i], a.vals[a.keys[i]]) in p;
          assert a.keys[i] in a.vals;
          assert r.keys[i] == a.keys[i];
          assert Has(a, k) || a.keys[i] != k;
        } else {
          assert r.keys[i] == k && r.vals[k] == pairs[n].1;
        }
      }
    }
  }

  /** The merge of the existing list alone, before any incoming value. */
  function ExistingValues(items: seq<Json>): seq<Json> {
    Values(FromPairs(Pairs(items, 0)))
  }

  /** The values of the existing list's map come first, unchanged. */
  lemma MergedPrefix(items: seq<Json>, incoming: seq<Json>)
    ensures Valid(Merged(items, incoming))
    ensures ExistingValues(items) <= Values(Merged(items, incoming))
  {
    var m := FromPairs(Pairs(items, 0));
    AddNewKeeps(m, Pairs(incoming, |items|));
    var E := Merged(items, incoming);
    forall i | 0 <= i < |m.keys| ensures Values(E)[i] == Values(m)[i] {
      assert E.keys[i] == m.keys[i];
    }
  }

  /** An element the merge adds: an incoming value that no existing case
      study shares a slug with (a slug that is an object or an array is
      shared with nothing). */
  predicate IsNewCaseStudy(x: Json, items: seq<Json>, incoming: seq<Json>) {
    exists j :: 0 <= j < |incoming| && x == incoming[j] &&
      (!IsRef(SlugOf(incoming[j])) ==> forall k :: 0 <= k < |items| ==> SlugOf(items[k]) != SlugOf(incoming[j]))
  }

  /** Two primitive slugs give the same key exactly when they are equal,
      wherever they come from. */
  lemma KeyOfPrimitive(a: Json, b: Json, p: nat, q: nat)
    requires !IsRef(a) && !IsRef(b)
    ensures KeyOf(a, p) == KeyOf(b, q) <==> a == b
  {
  }

  /** The key of the `j`-th pair. */
  lemma PairKey(items: seq<Json>, base: nat, j: nat)
    requires j < |items|
    ensures PairKeys(Pairs(items, base))[j] == Pairs(items, base)[j].0 == KeyOf(SlugOf(items[j]), base + j)
    ensures Pairs(items, base)[j].1 == items[j]
  {
  }

  /** An incoming primitive slug whose key the existing list's map lacks is
      the slug of no existing case study. */
  lemma SlugNotShared(items: seq<Json>, incoming: seq<Json>, j: nat)
    requires j < |incoming| && !IsRef(SlugOf(incoming[j]))
    requires Pairs(incoming, |items|)[j].0 !in FromPairs(Pairs(items, 0)).keys
    ensures forall k :: 0 <= k < |items| ==> SlugOf(items[k]) != SlugOf(incoming[j])
  {
    var P := Pairs(items, 0);
    forall k | 0 <= k < |items| ensures PairKeys(P)[k] != Pairs(incoming, |items|)[j].0 {
      KeyInMap(P, k);
    }
    forall k | 0 <= k < |items| ensures SlugOf(items[k]) != SlugOf(incoming[j]) {
      SlugNotSharedAt(items, incoming, j, k);
    }
  }

  /** The same for one existing case study. */
  lemma SlugNotSharedAt(items: seq<Json>, incoming: seq<Json>, j: nat, k: nat)
    requires j < |incoming| && k < |items| && !IsRef(SlugOf(incoming[j]))
    requires PairKeys(Pairs(items, 0))[k] != Pairs(incoming, |items|)[j].0
    ensures SlugOf(items[k]) != SlugOf(incoming[j])
  {
    PairKey(incoming, |items|, j);
    PairKey(items, 0, k);
    KeyOfDiffers(SlugOf(items[k]), SlugOf(incoming[j]), k, |items| + j);
  }

  /** Every pair's key is a key of the map the pairs make. */
  lemma KeyInMap(pairs: seq<Entry>, k: nat)
    requires k < |pairs|
    ensures PairKeys(pairs)[k] in FromPairs(pairs).keys
  {
  }

  /** Slugs whose keys differ differ, when one is a primitive. */
  lemma KeyOfDiffers(a: Json, b: Json, p: nat, q: nat)
    requires !IsRef(b) && KeyOf(a, p) != KeyOf(b, q)
    ensures a != b
  {
  }

  /** Every element after the existing list's map is a new case study. */
  lemma MergedNew(items: seq<Json>, incoming: seq<Json>)
    ensures Valid(Merged(items, incoming))
    ensures forall i :: |ExistingValues(items)| <= i < |Values(Merged(items, incoming))| ==>
      IsNewCaseStudy(Values(Merged(items, incoming))[i], items, incoming)
  {
    var m := FromPairs(Pairs(items, 0));
    var pairs := Pairs(incoming, |items|);
    AddNewKeeps(m, pairs);
    AddNewAppended(m, pairs);
    var E := Merged(items, incoming);
    forall i | |m.keys| <= i < |E.keys| ensures IsNewCaseStudy(Values(E)[i], items, incoming) {
      var j :| 0 <= j < |pairs| && pairs[j] == (E.keys[i], E.vals[E.keys[i]]);
      assert Values(E)[i] == incoming[j];
      if !IsRef(SlugOf(incoming[j])) {
        assert E.keys[i] !in m.keys;
        SlugNotShared(items, incoming, j);
      }
    }
  }

  /** A value is found under its consistent key. */
  lemma ConsistentSlug(k: Key, v: Json, slug: Json, at: nat)
    requires Consistent(k, v) && !IsRef(slug) && k == KeyOf(slug, at)
    ensures SlugOf(v) == slug
  {
    KeyOfPrimitive(SlugOf(v), slug, 0, at);
  }

  /** Every incoming primitive slug is the slug of an element of the
      result. */
  lemma MergedHasIncoming(items: seq<Json>, incoming: seq<Json>)
    requires forall i :: 0 <= i < |items| ==> !Unreadable(items[i])
    requires forall j :: 0 <= j < |incoming| ==> !Unreadable(incoming[j])
    ensures Valid(Merged(items, incoming))
    ensures forall j :: 0 <= j < |incoming| && !IsRef(SlugOf(incoming[j])) ==>
      exists i :: 0 <= i < |Values(Merged(items, incoming))| && SlugOf(Values(Merged(items, incoming))[i]) == SlugOf(incoming[j])
  {
    MergedFacts(items, incoming);
    var E := Merged(items, incoming);
    forall j | 0 <= j < |incoming| && !IsRef(SlugOf(incoming[j]))
      ensures exists i :: 0 <= i < |Values(E)| && SlugOf(Values(E)[i]) == SlugOf(incoming[j])
    {
      IncomingSlugKept(E, incoming, |items|, j);
    }
  }

  lemma IncomingSlugKept(E: OrderedMap, incoming: seq<Json>, base: nat, j: nat)
    requires j < |incoming| && !IsRef(SlugOf(incoming[j]))
    requires Valid(E) && AllConsistent(E) && Has(E, Pairs(incoming, base)[j].0)
    ensures exists i :: 0 <= i < |Values(E)| && SlugOf(Values(E)[i]) == SlugOf(incoming[j])
  {
    PairKey(incoming, base, j);
    HasSlug(E, Pairs(incoming, base)[j].0, SlugOf(incoming[j]), base + j);
  }

  /** A consistent map holding the key of a primitive slug has a value with
      that slug. */
  lemma HasSlug(E: OrderedMap, k: Key, slug: Json, at: nat)
    requires Valid(E) && AllConsistent(E) && Has(E, k)
    requires !IsRef(slug) && k == KeyOf(slug, at)
    ensures exists i :: 0 <= i < |Values(E)| && SlugOf(Values(E)[i]) == slug
  {
    var i :| 0 <= i < |E.keys| && E.keys[i] == k;
    ConsistentSlug(k, E.vals[k], slug, at);
    assert Values(E)[i] == E.vals[k];
  }

  /** The incoming values the merge appends, in incoming order: each one
      whose key (its slug, or its position for an object or array slug) is
      not a key of the existing list's map and is not the key of an earlier
      incoming value. */
  function NewCaseStudies(items: seq<Json>, incoming: seq<Json>): seq<Json> {
    PairValues(NewPairs(FromPairs(Pairs(items, 0)), Pairs(incoming, |items|)))
  }

  /** `mergeCaseStudies` never replaces or moves an existing case study: the
      result is the map the existing list makes followed by the new
      incoming values, the first one for each new slug, in incoming order;
      each of those is an incoming value no existing case study shares a
      slug with, and every incoming primitive slug is the slug of an element
      of the result. */
  lemma MergeKeepsExisting(existing: Json, incoming: seq<Json>)
    requires MergeSpec(existing, incoming).Ok?
    ensures MergeSpec(existing, incoming).value == ExistingValues(existing.items) + NewCaseStudies(existing.items, incoming)
    ensures ExistingValues(existing.items) <= MergeSpec(existing, incoming).value
    ensures forall i :: |ExistingValues(existing.items)| <= i < |MergeSpec(existing, incoming).value| ==>
      IsNewCaseStudy(MergeSpec(existing, incoming).value[i], existing.items, incoming)
    ensures forall j :: 0 <= j < |incoming| && !IsRef(SlugOf(incoming[j])) ==>
      exists i :: 0 <= i < |MergeSpec(existing, incoming).value| && SlugOf(MergeSpec(existing, incoming).value[i]) == SlugOf(incoming[j])
  {
    MergedPrefix(existing.items, incoming);
    MergedNew(existing.items, incoming);
    MergedHasIncoming(existing.items, incoming);
    AddNewValues(FromPairs(Pairs(existing.items, 0)), Pairs(incoming, |existing.items|));
  }

  /** When no two existing case studies share a slug the existing list comes
      back whole, in its order, at the head of the result. */
  lemma DistinctSlugsKept(existing: Json, incoming: seq<Json>)
    requires MergeSpec(existing, incoming).Ok?
    requires Distinct(PairKeys(Pairs(existing.items, 0)))
    ensures existing.items <= MergeSpec(existing, incoming).value
  {
    DistinctItemsKept(existing.items, incoming);
  }

  lemma DistinctItemsKept(items: seq<Json>, incoming: seq<Json>)
    requires Distinct(PairKeys(Pairs(items, 0)))
    ensures Valid(Merged(items, incoming))
    ensures items <= Values(Merged(items, incoming))
  {
    ExistingIsItems(items);
    MergedPrefix(items, incoming);
  }

  /** With distinct keys the existing list's map gives the list back. */
  lemma ExistingIsItems(items: seq<Json>)
    requires Distinct(PairKeys(Pairs(items, 0)))
    ensures ExistingValues(items) == items
  {
    var P := Pairs(items, 0);
    FromPairsDistinct(P);
    forall i | 0 <= i < |items| ensures Values(FromPairs(P))[i] == items[i] {
      PairKey(items, 0, i);
    }
  }

  /** Adding pairs whose keys are all present changes nothing. */
  lemma {:induction false} AddNewPresent(m: OrderedMap, pairs: seq<Entry>)
    requires forall j :: 0 <= j < |pairs| ==> Has(m, pairs[j].0)
    ensures AddNew(m, pairs) == m
    decreases |pairs|
  {
    if |pairs| > 0 {
      AddNewPresent(m, pairs[..|pairs| - 1]);
    }
  }

  /** The key a consistent value's slug gives at any position: its own key,
      or a reference to that position. */
  lemma RekeyConsistent(k: Key, v: Json, at: nat)
    requires Consistent(k, v)
    ensures KeyOf(SlugOf(v), at) == if IsRef(SlugOf(v)) then KRef(at) else k
  {
  }

  /** Reading the slugs of a valid, consistent map's values again gives
      distinct keys, each equal to the map's key where the slug is a
      primitive. */
  lemma RereadKeys(E: OrderedMap)
    requires Valid(E) && AllConsistent(E)
    ensures forall i :: 0 <= i < |Values(E)| ==> !Unreadable(Values(E)[i])
    ensures forall i :: 0 <= i < |E.keys| && !E.keys[i].KRef? ==> Pairs(Values(E), 0)[i].0 == E.keys[i]
    ensures Distinct(PairKeys(Pairs(Values(E), 0)))
  {
    var R := Values(E);
    forall i | 0 <= i < |R|
      ensures !Unreadable(R[i]) && Pairs(R, 0)[i].0 == if IsRef(SlugOf(R[i])) then KRef(i) else E.keys[i]
    {
      RereadKey(E, i);
    }
    RereadDistinct(E);
  }

  /** The key the `i`-th value's slug gives on reading the values again. */
  lemma RereadKey(E: OrderedMap, i: nat)
    requires Valid(E) && AllConsistent(E) && i < |E.keys|
    ensures !Unreadable(Values(E)[i])
    ensures Pairs(Values(E), 0)[i].0 == if IsRef(SlugOf(Values(E)[i])) then KRef(i) else E.keys[i]
  {
    PairKey(Values(E), 0, i);
    RekeyConsistent(E.keys[i], Values(E)[i], i);
  }

  /** Reading the values again gives distinct keys. */
  lemma RereadDistinct(E: OrderedMap)
    requires Valid(E) && AllConsistent(E)
    ensures Distinct(PairKeys(Pairs(Values(E), 0)))
  {
    var P := Pairs(Values(E), 0);
    forall a, b | 0 <= a < b < |P| ensures PairKeys(P)[a] != PairKeys(P)[b] {
      RereadKey(E, a);
      RereadKey(E, b);
      assert E.keys[a] != E.keys[b];
    }
  }

  /** The merged map is valid and consistent and has every incoming key. */
  lemma MergedFacts(items: seq<Json>, incoming: seq<Json>)
    requires forall i :: 0 <= i < |items| ==> !Unreadable(items[i])
    requires forall j :: 0 <= j < |incoming| ==> !Unreadable(incoming[j])
    ensures Valid(Merged(items, incoming)) && AllConsistent(Merged(items, incoming))
    ensures forall j :: 0 <= j < |incoming| ==> Has(Merged(items, incoming), Pairs(incoming, |items|)[j].0)
  {
    var m := FromPairs(Pairs(items, 0));
    var pairs := Pairs(incoming, |items|);
    PairsConsistent(items, 0);
    PairsConsistent(incoming, |items|);
    FromPairsConsistent(Pairs(items, 0));
    AddNewKeeps(m, pairs);
    AddNewConsistent(m, pairs);
  }

  /** Reading the merged values again finds every incoming primitive slug
      among their keys. */
  lemma RereadHasIncoming(items: seq<Json>, incoming: seq<Json>)
    requires forall i :: 0 <= i < |items| ==> !Unreadable(items[i])
    requires forall j :: 0 <= j < |incoming| ==> !Unreadable(incoming[j]) && !IsRef(SlugOf(incoming[j]))
    ensures Valid(Merged(items, incoming))
    ensures var R := Values(Merged(items, incoming));
      forall j :: 0 <= j < |incoming| ==> Has(FromPairs(Pairs(R, 0)), Pairs(incoming, |R|)[j].0)
  {
    MergedFacts(items, incoming);
    var E := Merged(items, incoming);
    RereadKeys(E);
    var R := Values(E);
    var P := Pairs(R, 0);
    forall j | 0 <= j < |incoming| ensures Has(FromPairs(P), Pairs(incoming, |R|)[j].0) {
      var k := Pairs(incoming, |items|)[j].0;
      PairKey(incoming, |items|, j);
      PairKey(incoming, |R|, j);
      KeyOfPrimitive(SlugOf(incoming[j]), SlugOf(incoming[j]), |items| + j, |R| + j);
      assert Has(E, k);
      var i :| 0 <= i < |E.keys| && E.keys[i] == k;
      assert PairKeys(P)[i] == k;
    }
  }

  /** Merging the same incoming values, all with primitive slugs as the
      stubs have, into the result of a merge gives that result back. */
  lemma MergeIdempotent(existing: Json, incoming: seq<Json>)
    requires MergeSpec(existing, incoming).Ok?
    requires forall j :: 0 <= j < |incoming| ==> !IsRef(SlugOf(incoming[j]))
    ensures MergeSpec(JArr(MergeSpec(existing, incoming).value), incoming) == MergeSpec(existing, incoming)
  {
    var items := existing.items;
    MergedFacts(items, incoming);
    var E := Merged(items, incoming);
    var R := Values(E);
    RereadKeys(E);
    RereadHasIncoming(items, incoming);
    var P := Pairs(R, 0);
    FromPairsDistinct(P);
    AddNewPresent(FromPairs(P), Pairs(incoming, |R|));
    assert Values(Merged(R, incoming)) == R;
  }
}
