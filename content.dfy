/** The end of `main`: what the extraction yields merged into the existing
    content document. The old `site` and `about` objects are spread and the
    extracted fields written over them; every other top-level key is kept;
    `caseStudies` is rewritten only when the portfolio gave stubs. */
module Content {
  import opened Wrappers
  import opened Json
  import CaseStudies

  /** What the extraction hands to the merge: the first email and phone
      found (if any), the location guess (`''` when none), the fields of the
      new `about` object in order, and the case-study objects. */
  datatype Extracted = Extracted(
    email: Option<string>,
    phone: Option<string>,
    locationGuess: string,
    about: seq<(string, Json)>,
    caseStudies: seq<Json>)

  function ResumePath(): string { "/Tony_Destin_Resume.pdf" }

  /** An extractor's result as a value: its text, or `null`. */
  function Found(s: Option<string>): Json {
    if s.Some? then JStr(s.value) else JNull
  }

  /** `existing.site?.location || locationGuess || ''`. */
  function LocationValue(oldSite: Json, guess: string): Json {
    Or(Or(Get(oldSite, "location"), JStr(guess)), JStr(""))
  }

  /** `{ ...base, email, location, resume, phone }`: the four keys written
      over the old `site`, in that order. */
  function NewSite(base: seq<(string, Json)>, email: Json, location: string, phone: Json): seq<(string, Json)> {
    Set(Set(Set(Set(base, "email", email), "location", JStr(location)), "resume", JStr(ResumePath())), "phone", phone)
  }

  /** The new `site` object, or the `TypeError` its location's `toString`
      throws. */
  function SiteOf(oldSite: Json, x: Extracted): Result<seq<(string, Json)>> {
    match ToStr(LocationValue(oldSite, x.locationGuess))
    case TypeError => TypeError
    case Ok(location) =>
      Ok(NewSite(SpreadFields(Or(oldSite, JObj([]))),
        Or(Found(x.email), Get(oldSite, "email")), location, Or(Found(x.phone), Get(oldSite, "phone"))))
  }

  /** `{ ...(existing.about || {}), ...about }`. */
  function AboutOf(oldAbout: Json, about: seq<(string, Json)>): seq<(string, Json)> {
    SetAll(SpreadFields(Or(oldAbout, JObj([]))), about)
  }

  /** `existing.caseStudies || []`. */
  function OldCaseStudies(existing: Json): Json {
    Or(Get(existing, "caseStudies"), JArr([]))
  }

  /** The `caseStudies` entry of the merge: none when there are no stubs,
      the merged list otherwise, or the `TypeError` `mergeCaseStudies`
      throws. */
  function CaseStudiesPart(existing: Json, x: Extracted): Result<Option<seq<Json>>> {
    if |x.caseStudies| == 0 then Ok(None)
    else
      match CaseStudies.MergeSpec(OldCaseStudies(existing), x.caseStudies)
      case TypeError => TypeError
      case Ok(cs) => Ok(Some(cs))
  }

  /** `{ ...existing, site, about, ...(caseStudies) }`. */
  function Top(base: seq<(string, Json)>, site: seq<(string, Json)>, about: seq<(string, Json)>,
               cs: Option<seq<Json>>): seq<(string, Json)> {
    var t := Set(Set(base, "site", JObj(site)), "about", JObj(about));
    if cs.Some? then Set(t, "caseStudies", JArr(cs.value)) else t
  }

  /** The `merged` object, or the `TypeError` building it throws: reading
      `site` of a null document, the location's `toString`, or
      `mergeCaseStudies`. */
  function ContentOf(existing: Json, x: Extracted): (r: Result<Json>)
    ensures existing.JNull? || existing.JUndefined? ==> r.TypeError?
    ensures r.Ok? ==> r.value.JObj?
  {
    if existing.JNull? || existing.JUndefined? then TypeError
    else
      match SiteOf(Get(existing, "site"), x)
      case TypeError => TypeError
      case Ok(site) =>
        match CaseStudiesPart(existing, x)
        case TypeError => TypeError
        case Ok(cs) => Ok(JObj(Top(SpreadFields(existing), site, AboutOf(Get(existing, "about"), x.about), cs)))
  }

  // ---------------------------------------------------------------------
  // Properties

  /** A location that a second run reads back the same: either falsy, or
      one whose string is not empty (an array can be truthy and still print
      as `''`). */
  predicate LocationKeeps(oldSite: Json) {
    var l := Get(oldSite, "location");
    Truthy(l) ==> ToStr(l) != Ok("")
  }

  /** The merge throws on a null document; it does not throw on an object
      whose `site.location` is a primitive, when either no stubs were made or
      `caseStudies` is missing, falsy or an array, and neither list holds a
      null or undefined element. */
  lemma ContentSucceeds(existing: Json, x: Extracted)
    requires existing.JObj?
    requires !Get(Get(existing, "site"), "location").JArr? && !Get(Get(existing, "site"), "location").JObj?
    requires |x.caseStudies| > 0 ==>
      var prior := OldCaseStudies(existing);
      prior.JArr? &&
      (forall i :: 0 <= i < |prior.items| ==> !CaseStudies.Unreadable(prior.items[i])) &&
      (forall j :: 0 <= j < |x.caseStudies| ==> !CaseStudies.Unreadable(x.caseStudies[j]))
    ensures ContentOf(existing, x).Ok?
  {
    var oldSite := Get(existing, "site");
    var l := LocationValue(oldSite, x.locationGuess);
    assert !l.JArr? && !l.JObj?;
  }

  /** A successful merge is the document's fields with the new `site`,
      `about` and, when there are stubs, `caseStudies` written over them. */
  lemma ContentIsTop(existing: Json, x: Extracted)
    requires ContentOf(existing, x).Ok?
    ensures SiteOf(Get(existing, "site"), x).Ok? && CaseStudiesPart(existing, x).Ok?
    ensures ContentOf(existing, x).value == JObj(Top(SpreadFields(existing), SiteOf(Get(existing, "site"), x).value,
      AboutOf(Get(existing, "about"), x.about), CaseStudiesPart(existing, x).value))
  {
  }

  /** Where the values of `Top` come from. */
  lemma TopLookup(base: seq<(string, Json)>, site: seq<(string, Json)>, about: seq<(string, Json)>, cs: Option<seq<Json>>)
    ensures var t := Top(base, site, about, cs);
      Lookup(t, "site") == JObj(site) && Lookup(t, "about") == JObj(about) &&
      Lookup(t, "caseStudies") == (if cs.Some? then JArr(cs.value) else Lookup(base, "caseStudies")) &&
      (forall k :: k != "site" && k != "about" && k != "caseStudies" ==> Lookup(t, k) == Lookup(base, k))
  {
    var t1 := Set(base, "site", JObj(site));
    var t2 := Set(t1, "about", JObj(about));
    assert Lookup(t2, "site") == JObj(site);
    assert Lookup(t2, "caseStudies") == Lookup(base, "caseStudies");
  }

  /** The keys of `Top`: those of the document first, then only `site`,
      `about` and `caseStudies`. */
  lemma TopKeys(base: seq<(string, Json)>, site: seq<(string, Json)>, about: seq<(string, Json)>, cs: Option<seq<Json>>)
    ensures Keys(base) <= Keys(Top(base, site, about, cs))
    ensures forall k :: k in Keys(Top(base, site, about, cs)) && k !in Keys(base) ==>
      k == "site" || k == "about" || k == "caseStudies"
  {
    var t1 := Set(base, "site", JObj(site));
    var t2 := Set(t1, "about", JObj(about));
    SetKeys(base, "site", JObj(site));
    SetKeys(t1, "about", JObj(about));
    PrefixTrans(Keys(base), Keys(t1), Keys(t2));
    if cs.Some? {
      var t3 := Set(t2, "caseStudies", JArr(cs.value));
      SetKeys(t2, "caseStudies", JArr(cs.value));
      PrefixTrans(Keys(base), Keys(t2), Keys(t3));
      assert Top(base, site, about, cs) == t3;
    } else {
      assert Top(base, site, about, cs) == t2;
    }
  }

  lemma PrefixTrans(a: seq<string>, b: seq<string>, c: seq<string>)
    requires a <= b && b <= c
    ensures a <= c
  {
    assert c[..|b|][..|a|] == c[..|a|];
  }

  /** Writing a key keeps the old keys first and adds at most that key. */
  lemma SetKeys(fields: seq<(string, Json)>, key: string, value: Json)
    ensures Keys(fields) <= Keys(Set(fields, key, value))
    ensures forall k :: k in Keys(Set(fields, key, value)) ==> k in Keys(fields) || k == key
  {
  }

  /** Where the keys of `NewSite` come from. */
  lemma NewSiteLookup(base: seq<(string, Json)>, email: Json, location: string, phone: Json)
    ensures var s := NewSite(base, email, location, phone);
      Lookup(s, "email") == email && Lookup(s, "location") == JStr(location) &&
      Lookup(s, "resume") == JStr(ResumePath()) && Lookup(s, "phone") == phone &&
      forall k :: k != "email" && k != "location" && k != "resume" && k != "phone" ==> Lookup(s, k) == Lookup(base, k)
  {
  }

  /** A non-empty string location is kept; a falsy one gives way to the
      guess, which is `''` when there is none. */
  lemma LocationRule(oldSite: Json, guess: string)
    requires ToStr(LocationValue(oldSite, guess)).Ok?
    ensures var l := Get(oldSite, "location");
      (l.JStr? && l.s != "" ==> ToStr(LocationValue(oldSite, guess)).value == l.s) &&
      (!Truthy(l) ==> ToStr(LocationValue(oldSite, guess)).value == guess)
  {
  }

  /** Every top-level key of the old document keeps its place, and the keys
      after them are among `site`, `about` and `caseStudies`; every key
      other than those three keeps its value. */
  lemma OtherKeysKept(existing: Json, x: Extracted)
    requires ContentOf(existing, x).Ok?
    ensures var r := ContentOf(existing, x).value.fields;
      Keys(SpreadFields(existing)) <= Keys(r) &&
      (forall k :: k in Keys(r) && k !in Keys(SpreadFields(existing)) ==> k == "site" || k == "about" || k == "caseStudies")
    ensures forall k :: k != "site" && k != "about" && k != "caseStudies" ==>
      Get(ContentOf(existing, x).value, k) == Lookup(SpreadFields(existing), k)
  {
    ContentIsTop(existing, x);
    TopLookup(SpreadFields(existing), SiteOf(Get(existing, "site"), x).value,
      AboutOf(Get(existing, "about"), x.about), CaseStudiesPart(existing, x).value);
    TopKeys(SpreadFields(existing), SiteOf(Get(existing, "site"), x).value,
      AboutOf(Get(existing, "about"), x.about), CaseStudiesPart(existing, x).value);
  }

  /** `site.resume` is the fixed resume path; the email and the phone are
      the extracted ones when found and the old ones otherwise; a non-empty
      string location is kept, a falsy one gives way to the guess. */
  lemma SiteRules(existing: Json, x: Extracted)
    requires ContentOf(existing, x).Ok?
    ensures var site := Get(ContentOf(existing, x).value, "site");
      var oldSite := Get(existing, "site");
      site.JObj? &&
      Get(site, "resume") == JStr("/Tony_Destin_Resume.pdf") &&
      (x.email.Some? && x.email.value != "" ==> Get(site, "email") == JStr(x.email.value)) &&
      (x.email.None? ==> Get(site, "email") == Get(oldSite, "email")) &&
      (x.phone.Some? && x.phone.value != "" ==> Get(site, "phone") == JStr(x.phone.value)) &&
      (x.phone.None? ==> Get(site, "phone") == Get(oldSite, "phone")) &&
      (Get(oldSite, "location").JStr? && Get(oldSite, "location").s != "" ==> Get(site, "location") == Get(oldSite, "location")) &&
      (!Truthy(Get(oldSite, "location")) ==> Get(site, "location") == JStr(x.locationGuess))
  {
    var oldSite := Get(existing, "site");
    SiteIsNewSite(existing, x);
    LocationRule(oldSite, x.locationGuess);
  }

  /** Every key of the old `site` other than the four written keeps its
      value. */
  lemma SiteKeepsOthers(existing: Json, x: Extracted)
    requires ContentOf(existing, x).Ok?
    ensures var site := Get(ContentOf(existing, x).value, "site");
      forall k :: k != "email" && k != "location" && k != "resume" && k != "phone" ==>
        Get(site, k) == Lookup(SpreadFields(Or(Get(existing, "site"), JObj([]))), k)
  {
    SiteIsNewSite(existing, x);
  }

  /** The written `site` is `NewSite` of the old one. */
  lemma SiteIsNewSite(existing: Json, x: Extracted)
    requires ContentOf(existing, x).Ok?
    ensures var oldSite := Get(existing, "site");
      var location := ToStr(LocationValue(oldSite, x.locationGuess));
      var s := Get(ContentOf(existing, x).value, "site");
      location.Ok? && s.JObj? &&
      Lookup(s.fields, "email") == Or(Found(x.email), Get(oldSite, "email")) &&
      Lookup(s.fields, "location") == JStr(location.value) &&
      Lookup(s.fields, "resume") == JStr(ResumePath()) &&
      Lookup(s.fields, "phone") == Or(Found(x.phone), Get(oldSite, "phone")) &&
      forall k :: k != "email" && k != "location" && k != "resume" && k != "phone" ==>
        Lookup(s.fields, k) == Lookup(SpreadFields(Or(oldSite, JObj([]))), k)
  {
    var oldSite := Get(existing, "site");
    ContentIsTop(existing, x);
    TopLookup(SpreadFields(existing), SiteOf(oldSite, x).value,
      AboutOf(Get(existing, "about"), x.about), CaseStudiesPart(existing, x).value);
    var location := ToStr(LocationValue(oldSite, x.locationGuess)).value;
    NewSiteLookup(SpreadFields(Or(oldSite, JObj([]))),
      Or(Found(x.email), Get(oldSite, "email")), location, Or(Found(x.phone), Get(oldSite, "phone")));
  }

  /** The new `about` holds every extracted field, and every other key of
      the old `about` keeps its value. */
  lemma AboutRules(existing: Json, x: Extracted)
    requires ContentOf(existing, x).Ok? && DistinctKeys(x.about)
    ensures var about := Get(ContentOf(existing, x).value, "about");
      about.JObj? &&
      (forall i :: 0 <= i < |x.about| ==> Get(about, x.about[i].0) == x.about[i].1) &&
      (forall k :: k !in Keys(x.about) ==> Get(about, k) == Lookup(SpreadFields(Or(Get(existing, "about"), JObj([]))), k))
  {
    ContentIsTop(existing, x);
    TopLookup(SpreadFields(existing), SiteOf(Get(existing, "site"), x).value,
      AboutOf(Get(existing, "about"), x.about), CaseStudiesPart(existing, x).value);
    SetAllLookup(SpreadFields(Or(Get(existing, "about"), JObj([]))), x.about);
  }

  /** `cs` is what merging `incoming` into `prior` may give: an array
      holding the existing case studies (one per slug) first, in their
      order, then new ones only, with every primitive stub slug present. */
  predicate MergedFrom(cs: Json, prior: Json, incoming: seq<Json>) {
    prior.JArr? && cs.JArr? &&
    CaseStudies.ExistingValues(prior.items) <= cs.items &&
    (forall i :: |CaseStudies.ExistingValues(prior.items)| <= i < |cs.items| ==>
      CaseStudies.IsNewCaseStudy(cs.items[i], prior.items, incoming)) &&
    (forall j :: 0 <= j < |incoming| && !CaseStudies.IsRef(CaseStudies.SlugOf(incoming[j])) ==>
      exists i :: 0 <= i < |cs.items| && CaseStudies.SlugOf(cs.items[i]) == CaseStudies.SlugOf(incoming[j]))
  }

  /** Without stubs `caseStudies` is left as it was. With stubs it becomes
      the merged list of the old `caseStudies` and the stubs. */
  lemma CaseStudiesRule(existing: Json, x: Extracted)
    requires ContentOf(existing, x).Ok?
    ensures |x.caseStudies| == 0 ==>
      Get(ContentOf(existing, x).value, "caseStudies") == Lookup(SpreadFields(existing), "caseStudies")
    ensures |x.caseStudies| > 0 ==>
      MergedFrom(Get(ContentOf(existing, x).value, "caseStudies"), OldCaseStudies(existing), x.caseStudies)
  {
    CaseStudiesIsPart(existing, x);
    if |x.caseStudies| > 0 {
      MergedList(Get(ContentOf(existing, x).value, "caseStudies"), OldCaseStudies(existing), x.caseStudies);
    }
  }

  /** The facts of `MergeKeepsExisting` about a value that is the merged
      list. */
  lemma MergedList(cs: Json, prior: Json, incoming: seq<Json>)
    requires CaseStudies.MergeSpec(prior, incoming).Ok? && cs == JArr(CaseStudies.MergeSpec(prior, incoming).value)
    ensures MergedFrom(cs, prior, incoming)
  {
    CaseStudies.MergeKeepsExisting(prior, incoming);
  }

  /** The written `caseStudies` is the old one without stubs and the
      merged list with them. */
  lemma CaseStudiesIsPart(existing: Json, x: Extracted)
    requires ContentOf(existing, x).Ok?
    ensures |x.caseStudies| == 0 ==>
      Get(ContentOf(existing, x).value, "caseStudies") == Lookup(SpreadFields(existing), "caseStudies")
    ensures |x.caseStudies| > 0 ==>
      CaseStudies.MergeSpec(OldCaseStudies(existing), x.caseStudies).Ok? &&
      Get(ContentOf(existing, x).value, "caseStudies") == JArr(CaseStudies.MergeSpec(OldCaseStudies(existing), x.caseStudies).value)
  {
    ContentIsTop(existing, x);
    TopLookup(SpreadFields(existing), SiteOf(Get(existing, "site"), x).value,
      AboutOf(Get(existing, "about"), x.about), CaseStudiesPart(existing, x).value);
  }

  // ---------------------------------------------------------------------
  // A second run

  /** Running the merge again with the same extraction on the document it
      built gives that document again, provided no stub's slug is an object
      or array, no `about` key comes twice, and the old location, when
      truthy, does not print as `''`. */
  lemma ContentIdempotent(existing: Json, x: Extracted)
    requires ContentOf(existing, x).Ok?
    requires DistinctKeys(x.about)
    requires forall j :: 0 <= j < |x.caseStudies| ==> !CaseStudies.IsRef(CaseStudies.SlugOf(x.caseStudies[j]))
    requires LocationKeeps(Get(existing, "site"))
    ensures ContentOf(ContentOf(existing, x).value, x) == ContentOf(existing, x)
  {
    PartsOk(existing, x);
    var site := SiteOf(Get(existing, "site"), x).value;
    var cs := CaseStudiesPart(existing, x).value;
    var t := Top(SpreadFields(existing), site, AboutOf(Get(existing, "about"), x.about), cs);
    ReadBack(existing, x, site, cs, t);
    Fixpoint(t, x, site, AboutOf(Get(existing, "about"), x.about), cs);
  }

  /** A merge that succeeds has a `site` and a `caseStudies` part. */
  lemma PartsOk(existing: Json, x: Extracted)
    requires ContentOf(existing, x).Ok?
    ensures SiteOf(Get(existing, "site"), x).Ok? && CaseStudiesPart(existing, x).Ok?
  {
  }

  /** What the merge reads from the document it wrote: the same `site`,
      `about` and `caseStudies` parts, over a document that already holds
      them. */
  lemma ReadBack(existing: Json, x: Extracted, site: seq<(string, Json)>, cs: Option<seq<Json>>, t: seq<(string, Json)>)
    requires ContentOf(existing, x).Ok?
    requires DistinctKeys(x.about)
    requires forall j :: 0 <= j < |x.caseStudies| ==> !CaseStudies.IsRef(CaseStudies.SlugOf(x.caseStudies[j]))
    requires LocationKeeps(Get(existing, "site"))
    requires SiteOf(Get(existing, "site"), x) == Ok(site) && CaseStudiesPart(existing, x) == Ok(cs)
    requires t == Top(SpreadFields(existing), site, AboutOf(Get(existing, "about"), x.about), cs)
    ensures ContentOf(existing, x) == Ok(JObj(t))
    ensures SiteOf(Get(JObj(t), "site"), x) == Ok(site) && CaseStudiesPart(JObj(t), x) == Ok(cs)
    ensures AboutOf(Get(JObj(t), "about"), x.about) == AboutOf(Get(existing, "about"), x.about)
    ensures Top(t, site, AboutOf(Get(existing, "about"), x.about), cs) == t
  {
    var c := ContentOf(existing, x).value;
    var oldSite := Get(existing, "site");
    ContentIsTop(existing, x);
    var about := AboutOf(Get(existing, "about"), x.about);
    TopLookup(SpreadFields(existing), site, about, cs);
    SiteTwice(oldSite, x);
    AboutTwice(Get(existing, "about"), x.about);
    CaseStudiesIsPart(existing, x);
    PartTwice(existing, c, x);
    TopTwice(SpreadFields(existing), site, about, cs);
  }

  /** A document that already holds the parts the merge computes from it
      is merged to itself. */
  lemma Fixpoint(t: seq<(string, Json)>, x: Extracted, site: seq<(string, Json)>, about: seq<(string, Json)>, cs: Option<seq<Json>>)
    requires SiteOf(Get(JObj(t), "site"), x) == Ok(site) && CaseStudiesPart(JObj(t), x) == Ok(cs)
    requires AboutOf(Get(JObj(t), "about"), x.about) == about && Top(t, site, about, cs) == t
    ensures ContentOf(JObj(t), x) == Ok(JObj(t))
  {
    ContentOfParts(JObj(t), x, site, cs);
    assert SpreadFields(JObj(t)) == t;
  }

  /** The merge of an object whose `site` and `caseStudies` parts succeed. */
  lemma ContentOfParts(e: Json, x: Extracted, site: seq<(string, Json)>, cs: Option<seq<Json>>)
    requires e.JObj?
    requires SiteOf(Get(e, "site"), x) == Ok(site) && CaseStudiesPart(e, x) == Ok(cs)
    ensures ContentOf(e, x) == Ok(JObj(Top(SpreadFields(e), site, AboutOf(Get(e, "about"), x.about), cs)))
  {
  }

  /** The new `site` read back gives itself. */
  lemma SiteTwice(oldSite: Json, x: Extracted)
    requires SiteOf(oldSite, x).Ok? && LocationKeeps(oldSite)
    ensures SiteOf(JObj(SiteOf(oldSite, x).value), x) == SiteOf(oldSite, x)
  {
    var location := ToStr(LocationValue(oldSite, x.locationGuess)).value;
    var email := Or(Found(x.email), Get(oldSite, "email"));
    var phone := Or(Found(x.phone), Get(oldSite, "phone"));
    var base := SpreadFields(Or(oldSite, JObj([])));
    var site := NewSite(base, email, location, phone);
    NewSiteLookup(base, email, location, phone);
    LocationTwice(oldSite, x.locationGuess);
    assert LocationValue(JObj(site), x.locationGuess) == Or(Or(JStr(location), JStr(x.locationGuess)), JStr(""));
    SiteOfObject(site, x, location);
    assert Or(Found(x.email), Lookup(site, "email")) == email;
    assert Or(Found(x.phone), Lookup(site, "phone")) == phone;
    NewSiteTwice(base, email, location, phone);
  }

  /** The new `site` of an object `site`, once its location is known. */
  lemma SiteOfObject(site: seq<(string, Json)>, x: Extracted, location: string)
    requires ToStr(LocationValue(JObj(site), x.locationGuess)) == Ok(location)
    ensures SiteOf(JObj(site), x) ==
      Ok(NewSite(site, Or(Found(x.email), Lookup(site, "email")), location, Or(Found(x.phone), Lookup(site, "phone"))))
  {
    assert SpreadFields(Or(JObj(site), JObj([]))) == site;
  }

  /** The location written, read back, prints as itself. */
  lemma LocationTwice(oldSite: Json, guess: string)
    requires ToStr(LocationValue(oldSite, guess)).Ok? && LocationKeeps(oldSite)
    ensures var location := ToStr(LocationValue(oldSite, guess)).value;
      ToStr(Or(Or(JStr(location), JStr(guess)), JStr(""))) == Ok(location)
  {
  }

  /** Writing the same four `site` keys twice is writing them once. */
  lemma NewSiteTwice(base: seq<(string, Json)>, email: Json, location: string, phone: Json)
    ensures NewSite(NewSite(base, email, location, phone), email, location, phone) == NewSite(base, email, location, phone)
  {
    var s := NewSite(base, email, location, phone);
    NewSiteLookup(base, email, location, phone);
    SetSame(s, "email", email);
    SetSame(s, "location", JStr(location));
    SetSame(s, "resume", JStr(ResumePath()));
    SetSame(s, "phone", phone);
  }

  /** The new `about`, read back, gives itself. */
  lemma AboutTwice(oldAbout: Json, about: seq<(string, Json)>)
    requires DistinctKeys(about)
    ensures AboutOf(JObj(AboutOf(oldAbout, about)), about) == AboutOf(oldAbout, about)
  {
    var r := AboutOf(oldAbout, about);
    SetAllLookup(SpreadFields(Or(oldAbout, JObj([]))), about);
    forall i | 0 <= i < |about|
      ensures about[i].0 in Keys(r) && Lookup(r, about[i].0) == about[i].1
    {
      assert about[i].0 == Keys(about)[i];
    }
    SetAllSame(r, about);
  }

  /** The merged case-study list, read back, merges to itself. */
  lemma PartTwice(e: Json, c: Json, x: Extracted)
    requires CaseStudiesPart(e, x).Ok?
    requires forall j :: 0 <= j < |x.caseStudies| ==> !CaseStudies.IsRef(CaseStudies.SlugOf(x.caseStudies[j]))
    requires |x.caseStudies| > 0 ==> Get(c, "caseStudies") == JArr(CaseStudiesPart(e, x).value.value)
    ensures CaseStudiesPart(c, x) == CaseStudiesPart(e, x)
  {
    if |x.caseStudies| > 0 {
      var prior := OldCaseStudies(e);
      CaseStudies.MergeIdempotent(prior, x.caseStudies);
      assert OldCaseStudies(c) == JArr(CaseStudies.MergeSpec(prior, x.caseStudies).value);
    }
  }

  /** Writing the same `site`, `about` and `caseStudies` twice is writing
      them once. */
  lemma TopTwice(base: seq<(string, Json)>, site: seq<(string, Json)>, about: seq<(string, Json)>, cs: Option<seq<Json>>)
    ensures Top(Top(base, site, about, cs), site, about, cs) == Top(base, site, about, cs)
  {
    var t := Top(base, site, about, cs);
    TopLookup(base, site, about, cs);
    TopKeys(base, site, about, cs);
    SetKeys(Set(base, "site", JObj(site)), "about", JObj(about));
    SetSame(t, "site", JObj(site));
    SetSame(t, "about", JObj(about));
    if cs.Some? {
      SetSame(t, "caseStudies", JArr(cs.value));
    }
  }
}
