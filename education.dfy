/** `parseEducation`: one entry per non-empty block of the education
    section, with degree and institution from the header line, the first
    line that holds a year span as the duration, and the other lines as the
    description. */
module Education {
  import opened Text
  import opened Wrappers
  import opened Lists
  import opened Sections
  import opened Blocks

  datatype Entry = Entry(degree: string, institution: string, duration: string, description: string)

  /** `/(\d{4}).*(\d{4}|Present)/` (case-sensitive): four digits, then
      anything but a line terminator, then four digits or `Present`. */
  predicate HasYearSpan(l: string) {
    exists p: nat, q: nat ::
      p + 4 <= q <= |l| && DigitsAt(l, p, 4) && NoTerminator(l[p + 4..q]) && (DigitsAt(l, q, 4) || OccursAt(l, "Present", q))
  }

  /** `lines.find(...) || ''`: the first line holding a year span. */
  function DurationLine(lines: seq<string>): string {
    FindOr(lines, HasYearSpan, "")
  }

  /** The filter on the description: not the duration line. */
  function NotDuration(duration: string): string -> bool {
    (l: string) => l != duration
  }

  /** `lines.slice(1).filter((l) => l !== duration).join(' ')`. */
  function Description(lines: seq<string>): string
    requires |lines| >= 1
  {
    Join(Filter(lines[1..], NotDuration(DurationLine(lines))), " ")
  }

  /** The entry one block gives, or none when the block has no line. */
  function EntryOf(lines: seq<string>): Option<Entry> {
    if |lines| == 0 then None
    else
      var parts := DashSplit(lines[0]);
      Some(Entry(parts.0, parts.1, DurationLine(lines), Description(lines)))
  }

  /** The entries of the blocks, in block order. */
  function Entries(blocks: seq<seq<string>>): seq<Entry>
    decreases |blocks|
  {
    if |blocks| == 0 then []
    else Entries(blocks[..|blocks| - 1]) + AsList(EntryOf(blocks[|blocks| - 1]))
  }

  /** The entries of one more block. */
  lemma EntriesStep(blocks: seq<seq<string>>, b: nat)
    requires b < |blocks|
    ensures Entries(blocks[..b + 1]) == Entries(blocks[..b]) + AsList(EntryOf(blocks[b]))
  {
    assert blocks[..b + 1][..b] == blocks[..b];
  }

  /** What `parseEducation` returns. */
  function EducationOf(section: Option<Section>): seq<Entry> {
    if section.None? then [] else Entries(SectionBlocks(section.value.lines))
  }

  /** `parseEducation`. */
  method ParseEducation(section: Option<Section>) returns (edus: seq<Entry>)
    ensures edus == EducationOf(section)
  {
    if section.None? {
      return [];
    }
    var blocks := SectionBlocks(section.value.lines);
    edus := ParseBlocks(blocks);
  }

  /** The block loop of `parseEducation`. */
  method ParseBlocks(blocks: seq<seq<string>>) returns (edus: seq<Entry>)
    ensures edus == Entries(blocks)
  {
    edus := [];
    for b := 0 to |blocks|
      invariant edus == Entries(blocks[..b])
    {
      EntriesStep(blocks, b);
      var lines := blocks[b];
      if |lines| == 0 {
        continue;
      }
      var head := lines[0];
      var parts := DashSplit(head);
      var duration := FindOr(lines, HasYearSpan, "");
      var description := Join(Filter(lines[1..], NotDuration(duration)), " ");
      edus := edus + [Entry(parts.0, parts.1, duration, description)];
    }
    assert blocks[..|blocks|] == blocks;
  }

  // ---------------------------------------------------------------------
  // Properties

  /** The number of blocks that hold at least one line. */
  function NonEmptyBlocks(blocks: seq<seq<string>>): nat
    decreases |blocks|
  {
    if |blocks| == 0 then 0
    else NonEmptyBlocks(blocks[..|blocks| - 1]) + (if blocks[|blocks| - 1] != [] then 1 else 0)
  }

  /** Every block with a line gives exactly one entry, a single-line block
      included, and the entries follow the blocks: the entry of a block
      with a line comes after as many entries as there are blocks with a
      line before it. */
  lemma OneEntryPerBlock(blocks: seq<seq<string>>)
    ensures |Entries(blocks)| == NonEmptyBlocks(blocks)
    ensures forall b :: 0 <= b < |blocks| && blocks[b] != [] ==>
      NonEmptyBlocks(blocks[..b]) < |Entries(blocks)| &&
      Entries(blocks)[NonEmptyBlocks(blocks[..b])] == EntryOf(blocks[b]).value
  {
    EntriesCount(blocks);
    forall b | 0 <= b < |blocks| && blocks[b] != []
      ensures NonEmptyBlocks(blocks[..b]) < |Entries(blocks)|
      ensures Entries(blocks)[NonEmptyBlocks(blocks[..b])] == EntryOf(blocks[b]).value
    {
      EntryOfBlock(blocks, b);
    }
  }

  lemma {:induction false} EntriesCount(blocks: seq<seq<string>>)
    ensures |Entries(blocks)| == NonEmptyBlocks(blocks)
    decreases |blocks|
  {
    if |blocks| > 0 {
      EntriesCount(blocks[..|blocks| - 1]);
    }
  }

  /** The entry of the block `b`, which has a line. */
  lemma {:induction false} EntryOfBlock(blocks: seq<seq<string>>, b: nat)
    requires b < |blocks| && blocks[b] != []
    ensures NonEmptyBlocks(blocks[..b]) < |Entries(blocks)|
    ensures Entries(blocks)[NonEmptyBlocks(blocks[..b])] == EntryOf(blocks[b]).value
    decreases |blocks|
  {
    var n := |blocks| - 1;
    var p := blocks[..n];
    EntriesCount(p);
    var last := AsList(EntryOf(blocks[n]));
    assert Entries(blocks) == Entries(p) + last;
    if b < n {
      assert p[..b] == blocks[..b] && p[b] == blocks[b];
      EntryOfBlock(p, b);
    } else {
      assert p == blocks[..b];
      assert last == [EntryOf(blocks[b]).value];
    }
  }

  /** A single-line block gives an entry with an empty description. */
  lemma SingleLineEntry(l: string)
    ensures EntryOf([l]).Some? && EntryOf([l]).value.description == ""
  {
    assert [l][1..] == [];
  }

  /** Degree and institution are the two parts of the header's split. */
  lemma EntryHeader(lines: seq<string>)
    requires |lines| >= 1
    ensures EntryOf(lines).Some?
    ensures (EntryOf(lines).value.degree, EntryOf(lines).value.institution) == DashSplit(lines[0])
  {
  }

  /** On a header with no line terminator the degree is the trimmed text
      before the first dash and the institution the trimmed text after the
      dash run and the whitespace after it; with no dash the header is the
      degree and the institution is empty. */
  lemma HeaderParts(lines: seq<string>)
    requires |lines| >= 1 && NoTerminator(lines[0])
    ensures var e := EntryOf(lines).value;
      (forall k :: 0 <= k < |lines[0]| ==> !IsDash(lines[0][k])) ==> e.degree == lines[0] && e.institution == ""
    ensures var e := EntryOf(lines).value;
      forall a :: 0 <= a < |lines[0]| && IsDash(lines[0][a]) && (forall k :: 0 <= k < a ==> !IsDash(lines[0][k])) ==>
        e.degree == Trim(lines[0][..a]) && e.institution == Trim(lines[0][DashGapEnd(lines[0], a)..])
  {
    EntryHeader(lines);
    var h := lines[0];
    forall a | 0 <= a < |h| && IsDash(h[a]) && (forall k :: 0 <= k < a ==> !IsDash(h[k]))
      ensures DashSplit(h) == (Trim(h[..a]), Trim(h[DashGapEnd(h, a)..]))
    {
      DashSplitAt(h, a);
    }
    if forall k :: 0 <= k < |h| ==> !IsDash(h[k]) {
      DashSplitNone(h);
    }
  }

  /** On non-empty lines the duration is the first line holding a year span,
      and it is `''` exactly when no line holds one. */
  lemma DurationIsFirstSpan(lines: seq<string>)
    requires forall k :: 0 <= k < |lines| ==> lines[k] != ""
    ensures DurationLine(lines) == "" <==> forall k :: 0 <= k < |lines| ==> !HasYearSpan(lines[k])
    ensures forall i :: 0 <= i < |lines| && HasYearSpan(lines[i]) && (forall k :: 0 <= k < i ==> !HasYearSpan(lines[k])) ==>
      DurationLine(lines) == lines[i]
  {
    var f := FirstWhere(lines, HasYearSpan);
    forall i | 0 <= i < |lines| && HasYearSpan(lines[i]) && (forall k :: 0 <= k < i ==> !HasYearSpan(lines[k]))
      ensures DurationLine(lines) == lines[i]
    {
      assert f.Some? && f.value <= i;
    }
  }

  /** The description is made of the lines after the header, in order,
      except those equal to the duration line. */
  lemma DescriptionLines(lines: seq<string>)
    requires |lines| >= 1
    ensures var kept := Filter(lines[1..], NotDuration(DurationLine(lines)));
      EntryOf(lines).value.description == Join(kept, " ") &&
      forall x :: x in kept <==> x in lines[1..] && x != DurationLine(lines)
  {
    var P := NotDuration(DurationLine(lines));
    forall x ensures x in Filter(lines[1..], P) <==> x in lines[1..] && P(x) {
      FilterMember(lines[1..], P, x);
    }
  }

  /** A section of normalised lines (trimmed, non-empty, without line feeds)
      is a single block, so it gives exactly one entry when it has a line
      and none otherwise. */
  lemma OneEntryPerSection(sec: Section)
    requires forall k :: 0 <= k < |sec.lines| ==> sec.lines[k] != "" && IsTrimmed(sec.lines[k]) && '\n' !in sec.lines[k]
    ensures |EducationOf(Some(sec))| == if sec.lines == [] then 0 else 1
    ensures sec.lines != [] ==> EducationOf(Some(sec)) == [EntryOf(sec.lines).value]
  {
    SectionIsOneBlock(sec.lines);
    assert EducationOf(Some(sec)) == Entries([sec.lines]);
    OneBlock(sec.lines);
  }

  lemma OneBlock(lines: seq<string>)
    ensures Entries([lines]) == AsList(EntryOf(lines))
  {
    EntriesStep([lines], 0);
    assert [lines][..1] == [lines];
  }
}
