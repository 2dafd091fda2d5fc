/** `parseExperience`: one entry per block of the experience section, with
    role and company from the header line, a date range, a location line and
    the remaining lines as responsibilities. */
module Experience {
  import opened Text
  import opened Wrappers
  import opened Lists
  import opened Sections
  import opened Blocks

  datatype Entry = Entry(role: string, company: string, duration: string, location: string, responsibilities: seq<string>)

  // ---------------------------------------------------------------------
  // Role and company

  /** The company suffixes, lower-cased. */
  function CompanySuffixes(): seq<string> { ["llc", "inc.", "inc", "incorporated", "corporation", "company", "co.", "co", "ltd.", "ltd"] }

  /** `/\b(LLC|Inc\.?|Incorporated|Corporation|Company|Co\.?|Ltd\.?)\b/i`:
      a suffix word, in any ASCII case, with a word boundary on each side. */
  predicate LooksLikeCompany(s: string) {
    exists p: nat, w :: p <= |s| && w in CompanySuffixes() && MatchesAtI(s, p, w) && IsBoundary(s, p) && IsBoundary(s, p + |w|)
  }

  /** `role.split(' ').length`. */
  function WordCount(s: string): nat {
    |Split(s, ' ')|
  }

  /** The swap rule: a role that looks like a company, or a lone short
      header, trades places with the company. */
  predicate SwapApplies(role: string, company: string) {
    LooksLikeCompany(role) || (company == "" && WordCount(role) <= 4)
  }

  /** The role keywords, lower-cased (the pattern is case-insensitive). */
  function RoleWords(): seq<string> {
    ["director", "manager", "owner", "engineer", "strategist", "consultant", "lead",
     "developer", "designer", "producer", "founder", "ceo", "cto", "specialist"]
  }

  /** `/\b\d{4}\b|Present/i`. */
  predicate HasYearOrPresent(l: string) {
    (exists p: nat :: p <= |l| && DigitsAt(l, p, 4) && IsBoundary(l, p) && IsBoundary(l, p + 4))
    || Contains(ToLower(l), "present")
  }

  /** A line that names a role and carries no year. */
  predicate IsRoleLine(l: string) {
    ContainsAny(ToLower(l), RoleWords()) && !HasYearOrPresent(l)
  }

  /** `lines.slice(1, 4)`. */
  function NextLines(lines: seq<string>): (r: seq<string>)
    requires |lines| >= 1
    ensures |r| == (if |lines| >= 4 then 3 else |lines| - 1)
    ensures forall k :: 0 <= k < |r| ==> r[k] == lines[k + 1]
  {
    Take(lines, 4)[1..]
  }

  /** The header's two parts, after the swap rule. */
  function HeaderParts(header: string): (string, string) {
    var (role, company) := DashSplit(header);
    if SwapApplies(role, company) then (if company != "" then company else role, role) else (role, company)
  }

  /** `lines.slice(1, 4).find(...)`, with `''` for no such line. */
  function RoleLine(lines: seq<string>): string
    requires |lines| >= 1
  {
    FindOr(NextLines(lines), IsRoleLine, "")
  }

  /** The role and company of a block: the header's parts, with the role
      replaced by the trimmed role line when there is one. */
  function RoleAndCompany(lines: seq<string>): (string, string)
    requires |lines| >= 1
  {
    var parts := HeaderParts(lines[0]);
    if RoleLine(lines) != "" then (Trim(RoleLine(lines)), parts.1) else parts
  }

  // ---------------------------------------------------------------------
  // Dates

  /** The month alternatives of the month-range pattern, lower-cased, in the
      order the engine tries them. */
  function MonthWords(): seq<string> {
    ["january", "jan", "february", "feb", "march", "mar", "april", "apr", "may", "june", "jun",
     "july", "jul", "august", "aug", "september", "sept", "sepember", "sep", "october", "oct",
     "november", "nov", "december", "dec"]
  }

  /** `\s*[-–—]\s*(Present|\d{4})` from `a`: where the range ends. */
  function RangeRest(s: string, a: nat): (r: Option<nat>)
    requires a <= |s|
    ensures r.Some? ==> a < r.value <= |s|
    ensures r.Some? ==>
      exists b :: a <= b < r.value && IsDash(s[b]) && forall k :: a <= k < b ==> IsSpace(s[k])
    ensures r.Some? ==>
      (r.value >= 4 && DigitsAt(s, r.value - 4, 4)) || (r.value >= 7 && MatchesAtI(s, r.value - 7, "present"))
  {
    var b := RunEnd(s, a, IsSpace);
    if b < |s| && IsDash(s[b]) then
      var c := RunEnd(s, b + 1, IsSpace);
      if MatchesAtI(s, c, "present") then Some(c + 7)
      else if DigitsAt(s, c, 4) then Some(c + 4)
      else None
    else None
  }

  /** `\s+\d{4}` and the rest of the range, after a month name ending at
      `q`. Each `\s` run is taken whole: giving any of it back would put
      whitespace where a digit, a dash or `Present` must stand. */
  function MonthTail(s: string, q: nat): (r: Option<nat>)
    requires q <= |s|
    ensures r.Some? ==> q < r.value <= |s|
  {
    var a := RunEnd(s, q, IsSpace);
    if a > q && DigitsAt(s, a, 4) then RangeRest(s, a + 4) else None
  }

  /** The month alternatives that match at `p`: the name, in any ASCII
      case, followed by a tail that matches. */
  function MonthFitsAt(s: string, p: nat): string -> bool {
    (w: string) => p + |w| <= |s| && MatchesAtI(s, p, w) && MonthTail(s, p + |w|).Some?
  }

  /** Where the month range that starts at `p` ends: the engine tries the
      alternatives in the order the pattern lists them
      (`Sep(?:t)?(?:ember)?` giving september, sept, sepember, sep) and the
      first whose name and tail both match gives the range. */
  function MonthRangeAt(s: string, p: nat): (r: Option<nat>)
    ensures r.Some? ==> p < r.value <= |s|
  {
    match FirstWhere(MonthWords(), MonthFitsAt(s, p))
    case Some(i) => MonthTail(s, p + |MonthWords()[i]|)
    case None => None
  }

  /** `\b\d{4}\b` and the rest of the range, at `p`. */
  function YearRangeAt(s: string, p: nat): (r: Option<nat>)
    ensures r.Some? ==> p < r.value <= |s|
  {
    if DigitsAt(s, p, 4) && IsBoundary(s, p) && IsBoundary(s, p + 4) then RangeRest(s, p + 4) else None
  }

  /** A position where a match starts, given where a match starting at each
      position ends. */
  function StartsAt(at: nat -> Option<nat>): nat -> bool {
    (p: nat) => at(p).Some?
  }

  /** `s.match(re)`: the text of the leftmost match, given where a match
      starting at each position ends. */
  function Leftmost(s: string, at: nat -> Option<nat>): (r: Option<string>)
    requires forall p: nat :: at(p).Some? ==> p < at(p).value <= |s|
    ensures r.Some? ==> r.value != ""
  {
    match LeastFrom(0, |s|, StartsAt(at))
    case Some(p) => Some(s[p..at(p).value])
    case None => None
  }

  function MonthAt(s: string): nat -> Option<nat> {
    (p: nat) => MonthRangeAt(s, p)
  }

  function YearAt(s: string): nat -> Option<nat> {
    (p: nat) => YearRangeAt(s, p)
  }

  /** `ln.match(monthRange)`. */
  function MonthRange(s: string): (r: Option<string>)
    ensures r.Some? ==> r.value != ""
  {
    Leftmost(s, MonthAt(s))
  }

  /** `ln.match(yearRange)`. */
  function YearRange(s: string): (r: Option<string>)
    ensures r.Some? ==> r.value != ""
  {
    Leftmost(s, YearAt(s))
  }

  /** The date range one line gives: a month range first, else a year
      range. */
  function LineDuration(l: string): (r: Option<string>)
    ensures r.Some? ==> r.value != ""
  {
    if MonthRange(l).Some? then MonthRange(l) else YearRange(l)
  }

  /** The first range `find` finds, scanning the lines from the top; `''`
      if none. */
  function FirstRange(lines: seq<string>, find: string -> Option<string>): string
    decreases |lines|
  {
    if |lines| == 0 then ""
    else match find(lines[0])
      case Some(d) => d
      case None => FirstRange(lines[1..], find)
  }

  /** The duration of a block. */
  function DurationOf(lines: seq<string>): string {
    FirstRange(lines, LineDuration)
  }

  /** The duration loop of `parseExperience`, with its `break`. */
  method FindDuration(lines: seq<string>) returns (duration: string)
    ensures duration == DurationOf(lines)
  {
    duration := "";
    var i := 0;
    while i < |lines|
      invariant 0 <= i <= |lines|
      invariant FirstRange(lines[i..], LineDuration) == DurationOf(lines)
    {
      var m1 := MonthRange(lines[i]);
      if m1.Some? {
        duration := m1.value;
        break;
      }
      var m2 := YearRange(lines[i]);
      if m2.Some? {
        duration := m2.value;
        break;
      }
      assert lines[i..][1..] == lines[i + 1..];
      i := i + 1;
    }
  }

  // ---------------------------------------------------------------------
  // Location and responsibilities

  /** The location words, lower-cased. */
  function LocationWords(): seq<string> { ["remote", "philadelphia", "new york", "san francisco", "usa", "united states", "pa", "ny", "ca"] }

  /** `/(Remote|Philadelphia|New York|San Francisco|USA|United States|PA|NY|CA)/i`:
      no boundaries, so `PA`, `NY` and `CA` also match inside words. */
  predicate MentionsLocation(l: string) {
    ContainsAny(ToLower(l), LocationWords())
  }

  /** `lines.find(...) || ''`. */
  function LocationLine(lines: seq<string>): string {
    FindOr(lines, MentionsLocation, "")
  }

  /** The bullet class `[−\-••●]`. */
  predicate IsBullet(c: char) { c == '−' || c == '-' || c == '•' || c == '●' }

  /** `.replace(/^[bullets]\s*\/, '')`: one leading bullet and the whitespace
      after it. What is left is a suffix; the part cut is the bullet and
      whitespace only, and no whitespace is left at the front; a line that
      does not start with a bullet is kept whole. */
  function StripBullet(r: string): (t: string)
    ensures |t| <= |r| && t == r[|r| - |t|..]
    ensures |r| > 0 && IsBullet(r[0]) ==>
      |t| < |r| && (forall k :: 1 <= k < |r| - |t| ==> IsSpace(r[k])) && (t == [] || !IsSpace(t[0]))
    ensures !(|r| > 0 && IsBullet(r[0])) ==> t == r
  {
    if |r| > 0 && IsBullet(r[0]) then
      AfterFirstCut(r);
      TrimStart(r[1..])
    else r
  }

  /** Trimming the text after the first character cuts whitespace only. */
  lemma AfterFirstCut(r: string)
    requires |r| > 0
    ensures forall k :: 1 <= k < |r| - |TrimStart(r[1..])| ==> IsSpace(r[k])
  {
    forall k | 1 <= k < |r| - |TrimStart(r[1..])| ensures IsSpace(r[k]) {
      TrimStartCut(r[1..], k - 1);
    }
  }

  /** The filter on responsibilities: not the header, not holding the
      duration (when there is one), not the location line. */
  function KeepLine(header: string, duration: string, location: string): string -> bool {
    (l: string) => l != header && (duration == "" || !Contains(l, duration)) && l != location
  }

  // ---------------------------------------------------------------------
  // Entries

  /** The responsibilities of a block before the bullet strip and the cap:
      the lines after the header that `KeepLine` keeps. */
  function KeptLines(lines: seq<string>): seq<string>
    requires |lines| >= 1
  {
    Filter(lines[1..], KeepLine(lines[0], DurationOf(lines), LocationLine(lines)))
  }

  /** The entry made of a block's parts, or none when role, company and the
      kept lines are all empty. Responsibilities are the kept lines, in
      order, each with one leading bullet stripped: all of them when fewer
      than twelve are kept, else the first twelve. */
  function BuildEntry(role: string, company: string, duration: string, location: string, kept: seq<string>): (r: Option<Entry>)
    ensures r.None? <==> role == "" && company == "" && kept == []
    ensures r.Some? ==> r.value.role == role && r.value.company == company && r.value.duration == duration && r.value.location == location
    ensures r.Some? ==> |r.value.responsibilities| == (if |kept| < 12 then |kept| else 12)
    ensures r.Some? ==> forall k :: 0 <= k < |r.value.responsibilities| ==> r.value.responsibilities[k] == StripBullet(kept[k])
  {
    if role == "" && company == "" && kept == [] then None
    else Some(Entry(role, company, duration, location, Take(Map(kept, StripBullet), 12)))
  }

  /** The entry one block gives, or none. */
  function EntryOf(lines: seq<string>): Option<Entry> {
    if |lines| < 2 then None
    else
      var rc := RoleAndCompany(lines);
      BuildEntry(rc.0, rc.1, DurationOf(lines), LocationLine(lines), KeptLines(lines))
  }

  /** The entries of the blocks, in block order. */
  function Entries(blocks: seq<seq<string>>): seq<Entry>
    decreases |blocks|
  {
    if |blocks| == 0 then []
    else Entries(blocks[..|blocks| - 1]) + AsList(EntryOf(blocks[|blocks| - 1]))
  }

  /** The entries of one more block. */
  lemma EntriesStep(blocks: seq<seq<string>>, b: nat)
    requires b < |blocks|
    ensures Entries(blocks[..b + 1]) == Entries(blocks[..b]) + AsList(EntryOf(blocks[b]))
  {
    assert blocks[..b + 1][..b] == blocks[..b];
  }

  /** What `parseExperience` returns. */
  function ExperienceOf(section: Option<Section>): seq<Entry> {
    if section.None? then [] else Entries(SectionBlocks(section.value.lines))
  }

  /** `parseExperience`. */
  method ParseExperience(section: Option<Section>) returns (exps: seq<Entry>)
    ensures exps == ExperienceOf(section)
  {
    if section.None? {
      return [];
    }
    var blocks := SectionBlocks(section.value.lines);
    exps := ParseBlocks(blocks);
  }

  /** The block loop of `parseExperience`. */
  method ParseBlocks(blocks: seq<seq<string>>) returns (exps: seq<Entry>)
    ensures exps == Entries(blocks)
  {
    exps := [];
    for b := 0 to |blocks|
      invariant exps == Entries(blocks[..b])
    {
      var entry := ParseBlock(blocks[b]);
      EntriesStep(blocks, b);
      if entry.Some? {
        exps := exps + [entry.value];
      }
    }
    assert blocks[..|blocks|] == blocks;
  }

  /** The body of the block loop of `parseExperience`. */
  method ParseBlock(lines: seq<string>) returns (entry: Option<Entry>)
    ensures entry == EntryOf(lines)
  {
    if |lines| < 2 {
      return None;
    }
    var header := lines[0];
    var parts := DashSplit(header);
    var role, company := parts.0, parts.1;
    if SwapApplies(role, company) {
      var tmp := role;
      role := if company != "" then company else role;
      company := tmp;
    }
    assert (role, company) == HeaderParts(header);
    var roleLine := FindOr(NextLines(lines), IsRoleLine, "");
    if roleLine != "" {
      role := Trim(roleLine);
    }
    assert (role, company) == RoleAndCompany(lines);
    var duration := FindDuration(lines);
    var location := LocationLine(lines);
    var resp := Filter(lines[1..], KeepLine(header, duration, location));
    assert resp == KeptLines(lines);
    if role == "" && company == "" && |resp| == 0 {
      return None;
    }
    return Some(Entry(role, company, duration, location, Take(Map(resp, StripBullet), 12)));
  }

  // ---------------------------------------------------------------------
  // Properties

  /** No role keyword is empty, so an empty line is never a role line. */
  lemma EmptyIsNoRoleLine()
    ensures !IsRoleLine("")
  {
    assert ToLower("") == "";
    forall w | w in RoleWords() ensures !Contains("", w) {
      assert w != "";
    }
  }

  /** A header without a dash is not split: when it looks like a company
      name, or has at most four space-separated words, it becomes both the
      role and the company; otherwise it is the role and the company is
      empty. */
  lemma HeaderWithoutDash(header: string)
    requires NoTerminator(header)
    requires forall k :: 0 <= k < |header| ==> !IsDash(header[k])
    ensures SwapApplies(header, "") ==> HeaderParts(header) == (header, header)
    ensures !SwapApplies(header, "") ==> HeaderParts(header) == (header, "")
  {
    DashSplitNone(header);
  }

  /** A header with a dash splits at its first dash into the trimmed text
      before it and the trimmed text after the dash run and the whitespace
      that follows; the two parts change places when the first looks like a
      company name, or when the second is empty and the first has at most
      four words (the first then filling both). */
  lemma HeaderAtFirstDash(header: string, a: nat)
    requires NoTerminator(header)
    requires a < |header| && IsDash(header[a])
    requires forall k :: 0 <= k < a ==> !IsDash(header[k])
    ensures var left := Trim(header[..a]);
      var right := Trim(header[DashGapEnd(header, a)..]);
      HeaderParts(header) == if SwapApplies(left, right) then (if right != "" then right else left, left) else (left, right)
  {
    DashSplitAt(header, a);
  }

  /** The line `lines.slice(1, 4).find(P)` returns: the first of the three
      lines after the header satisfying `P`, or `''` when none does. */
  lemma NextLinesFind(lines: seq<string>, P: string -> bool)
    requires |lines| >= 1
    ensures (forall j :: 1 <= j < |lines| && j < 4 ==> !P(lines[j])) ==> FindOr(NextLines(lines), P, "") == ""
    ensures forall i :: 1 <= i < |lines| && i < 4 && P(lines[i]) && (forall j :: 1 <= j < i ==> !P(lines[j])) ==>
      FindOr(NextLines(lines), P, "") == lines[i]
  {
    var next := NextLines(lines);
    forall i | 1 <= i < |lines| && i < 4 && P(lines[i]) && (forall j :: 1 <= j < i ==> !P(lines[j]))
      ensures FindOr(next, P, "") == lines[i]
    {
      assert P(next[i - 1]);
      var f := FirstWhere(next, P);
      assert f.Some? && f.value <= i - 1;
      assert P(next[f.value]) && next[f.value] == lines[f.value + 1];
    }
    if forall j :: 1 <= j < |lines| && j < 4 ==> !P(lines[j]) {
      forall k | 0 <= k < |next| ensures !P(next[k]) {
        assert next[k] == lines[k + 1];
      }
    }
  }

  /** The role is overridden by the first of the three lines after the
      header that names a role and carries no year, trimmed; without such a
      line role and company are the header's parts. The company always comes
      from the header. */
  lemma RoleOverride(lines: seq<string>)
    requires |lines| >= 1
    ensures RoleAndCompany(lines).1 == HeaderParts(lines[0]).1
    ensures (forall j :: 1 <= j < |lines| && j < 4 ==> !IsRoleLine(lines[j])) ==> RoleAndCompany(lines) == HeaderParts(lines[0])
    ensures forall i :: 1 <= i < |lines| && i < 4 && IsRoleLine(lines[i]) && (forall j :: 1 <= j < i ==> !IsRoleLine(lines[j])) ==>
      RoleAndCompany(lines).0 == Trim(lines[i])
  {
    EmptyIsNoRoleLine();
    NextLinesFind(lines, IsRoleLine);
  }

  /** A pattern is searched for leftmost first: the text returned runs from
      the least position where a match starts to where that match ends, and
      there is none exactly when no position starts one. */
  lemma LeftmostIsLeast(s: string, at: nat -> Option<nat>)
    requires forall p: nat :: at(p).Some? ==> p < at(p).value <= |s|
    ensures Leftmost(s, at).None? <==> forall p :: 0 <= p <= |s| ==> at(p).None?
    ensures forall p :: 0 <= p <= |s| && at(p).Some? && (forall q :: 0 <= q < p ==> at(q).None?) ==>
      Leftmost(s, at) == Some(s[p..at(p).value])
  {
    var m := LeastFrom(0, |s|, StartsAt(at));
    forall p | 0 <= p <= |s| && at(p).Some?
      ensures m.Some? && m.value <= p
    {
      assert StartsAt(at)(p);
    }
    if m.Some? {
      assert StartsAt(at)(m.value);
    }
  }

  /** The range picked is the one on the first line where `find` finds one;
      it is `''` exactly when `find` finds none on any line (the ranges found
      are never empty). */
  lemma {:induction false} FirstRangeIsFirst(lines: seq<string>, find: string -> Option<string>)
    requires forall l :: find(l).Some? ==> find(l).value != ""
    ensures FirstRange(lines, find) == "" <==> forall k :: 0 <= k < |lines| ==> find(lines[k]).None?
    ensures forall i :: 0 <= i < |lines| && find(lines[i]).Some? && (forall k :: 0 <= k < i ==> find(lines[k]).None?) ==>
      FirstRange(lines, find) == find(lines[i]).value
    decreases |lines|
  {
    if |lines| > 0 {
      FirstRangeIsFirst(lines[1..], find);
      if find(lines[0]).None? {
        forall k | 1 <= k < |lines| ensures lines[1..][k - 1] == lines[k] {
        }
      }
    }
  }

  /** The duration is the range on the first line that has one, the month
      form tried before the year form on each line; it is `''` exactly when
      no line has a range. */
  lemma DurationIsFirst(lines: seq<string>)
    ensures DurationOf(lines) == "" <==> forall k :: 0 <= k < |lines| ==> LineDuration(lines[k]).None?
    ensures forall i :: 0 <= i < |lines| && LineDuration(lines[i]).Some? && (forall k :: 0 <= k < i ==> LineDuration(lines[k]).None?) ==>
      DurationOf(lines) == LineDuration(lines[i]).value
  {
    FirstRangeIsFirst(lines, LineDuration);
  }

  /** A line after the header is kept as a responsibility exactly when it
      is not the header, does not contain the duration (when there is one)
      and is not the location line; kept lines keep their order: those
      before any place `i` come before those from `i` on. */
  lemma KeptLinesAre(lines: seq<string>)
    requires |lines| >= 1
    ensures forall x ::
      x in KeptLines(lines) <==>
        x in lines[1..] && x != lines[0] && (DurationOf(lines) == "" || !Contains(x, DurationOf(lines))) && x != LocationLine(lines)
    ensures var keep := KeepLine(lines[0], DurationOf(lines), LocationLine(lines)); var rest := lines[1..];
      forall i :: 0 <= i <= |rest| ==> KeptLines(lines) == Filter(rest[..i], keep) + Filter(rest[i..], keep)
  {
    FilterKeep(lines[1..], lines[0], DurationOf(lines), LocationLine(lines));
    FilterSplit(lines[1..], KeepLine(lines[0], DurationOf(lines), LocationLine(lines)));
  }

  lemma FilterKeep(rest: seq<string>, header: string, duration: string, location: string)
    ensures forall x ::
      x in Filter(rest, KeepLine(header, duration, location)) <==>
        x in rest && x != header && (duration == "" || !Contains(x, duration)) && x != location
  {
    forall x ensures x in Filter(rest, KeepLine(header, duration, location)) <==> x in rest && KeepLine(header, duration, location)(x) {
      FilterMember(rest, KeepLine(header, duration, location), x);
    }
  }

  /** A block gives no entry exactly when it has fewer than two lines, or its
      role and company come out empty and every line after the header is the
      header again, contains the duration or is the location line. */
  lemma DroppedBlock(lines: seq<string>)
    ensures EntryOf(lines).None? <==>
      |lines| < 2 ||
      (RoleAndCompany(lines) == ("", "") &&
       forall x :: x in lines[1..] ==> x == lines[0] || (DurationOf(lines) != "" && Contains(x, DurationOf(lines))) || x == LocationLine(lines))
  {
    if |lines| >= 2 {
      KeptLinesAre(lines);
      if KeptLines(lines) != [] {
        assert KeptLines(lines)[0] in KeptLines(lines);
      }
    }
  }

  /** A section of normalised lines (trimmed, non-empty, without line feeds)
      is a single block, so it gives at most one entry: the one its whole
      line list gives. */
  lemma OneEntryPerSection(sec: Section)
    requires forall k :: 0 <= k < |sec.lines| ==> sec.lines[k] != "" && IsTrimmed(sec.lines[k]) && '\n' !in sec.lines[k]
    ensures ExperienceOf(Some(sec)) == AsList(EntryOf(sec.lines))
    ensures |ExperienceOf(Some(sec))| <= 1
  {
    assert SectionBlocks(sec.lines) == [sec.lines] by {
      SectionIsOneBlock(sec.lines);
    }
    OneBlock(sec.lines);
  }

  lemma OneBlock(lines: seq<string>)
    ensures Entries([lines]) == AsList(EntryOf(lines))
  {
    EntriesStep([lines], 0);
    assert [lines][..1] == [lines];
  }
}
