/** The block structure `parseExperience` and `parseEducation` share: the
    section's lines joined by line feeds, cut at runs of two or more line
    feeds, and each block cut back into trimmed, non-empty lines. */
module Blocks {
  import opened Text
  import opened Wrappers

  predicate IsLineFeed(c: char) { c == '\n' }

  /** `s.split(/\n{2,}/)`: the pieces between maximal runs of at least two
      line feeds; a single line feed stays inside its piece. */
  function SplitBlocks(s: string): (r: seq<string>)
    ensures |r| >= 1
    decreases |s|
  {
    if |s| < 2 then [s]
    else if s[0] == '\n' && s[1] == '\n' then [""] + SplitBlocks(s[RunEnd(s, 0, IsLineFeed)..])
    else
      var rest := SplitBlocks(s[1..]);
      [[s[0]] + rest[0]] + rest[1..]
  }

  /** `b.split('\n').map((l) => l.trim()).filter(Boolean)`. */
  function BlockLines(b: string): (lines: seq<string>)
    ensures forall k :: 0 <= k < |lines| ==> lines[k] != "" && IsTrimmed(lines[k])
  {
    TrimNonEmpty(Split(b, '\n'))
  }

  /** The blocks of a section, each as its lines. */
  function SectionBlocks(lines: seq<string>): (blocks: seq<seq<string>>)
    ensures |blocks| >= 1
  {
    var pieces := SplitBlocks(Join(lines, "\n"));
    seq(|pieces|, i requires 0 <= i < |pieces| => BlockLines(pieces[i]))
  }

  /** No two line feeds in a row. */
  predicate NoDoubleBreak(s: string) {
    forall k :: 0 <= k < |s| - 1 ==> !(s[k] == '\n' && s[k + 1] == '\n')
  }

  /** A text without two line feeds in a row is one block. */
  lemma {:induction false} SingleBlock(s: string)
    requires NoDoubleBreak(s)
    ensures SplitBlocks(s) == [s]
    decreases |s|
  {
    if |s| >= 2 {
      assert !(s[0] == '\n' && s[1] == '\n');
      assert NoDoubleBreak(s[1..]) by {
        forall k | 0 <= k < |s[1..]| - 1 ensures !(s[1..][k] == '\n' && s[1..][k + 1] == '\n') {
          assert s[1..][k] == s[k + 1] && s[1..][k + 1] == s[k + 2];
        }
      }
      SingleBlock(s[1..]);
      assert [s[0]] + s[1..] == s;
    }
  }

  /** Non-empty lines without line feeds, joined by line feeds, never put two
      line feeds side by side; and the joined text starts and ends with a
      character of a line. */
  lemma {:induction false} JoinNoDoubleBreak(lines: seq<string>)
    requires forall k :: 0 <= k < |lines| ==> lines[k] != "" && '\n' !in lines[k]
    ensures NoDoubleBreak(Join(lines, "\n"))
    ensures |lines| > 0 ==> |Join(lines, "\n")| > 0 && Join(lines, "\n")[0] != '\n'
    decreases |lines|
  {
    if |lines| > 1 {
      JoinNoDoubleBreak(lines[1..]);
      var head, tail := lines[0], Join(lines[1..], "\n");
      var s := head + "\n" + tail;
      assert Join(lines, "\n") == s;
      forall k | 0 <= k < |s| - 1 ensures !(s[k] == '\n' && s[k + 1] == '\n') {
        if k < |head| - 1 {
          assert s[k] == head[k];
        } else if k == |head| - 1 {
          assert s[k] == head[k];
          assert head[k] in head;
        } else if k == |head| {
          assert s[k + 1] == tail[0];
        } else {
          assert s[k] == tail[k - |head| - 1] && s[k + 1] == tail[k - |head|];
        }
      }
    } else if |lines| == 1 {
      forall k | 0 <= k < |lines[0]| ensures lines[0][k] != '\n' {
        assert lines[0][k] in lines[0];
      }
    }
  }

  /** Lines that are already trimmed, non-empty and free of line feeds form
      a single block, which gives them back unchanged: so a section of
      normalised lines is one block. */
  lemma SectionIsOneBlock(lines: seq<string>)
    requires forall k :: 0 <= k < |lines| ==> lines[k] != "" && IsTrimmed(lines[k]) && '\n' !in lines[k]
    ensures SectionBlocks(lines) == [lines]
  {
    JoinNoDoubleBreak(lines);
    SingleBlock(Join(lines, "\n"));
    if |lines| == 0 {
      assert BlockLines("") == [];
    } else {
      SplitJoin(lines, '\n');
      TrimNonEmptyKeeps(lines);
    }
  }

  // ---------------------------------------------------------------------
  // The header split: /^(.*?)[\u2014\-–]{1,2}\s*(.*)$/

  /** The dash class `[—\-–]`: em dash, hyphen-minus, en dash. */
  predicate IsDash(c: char) { c == '—' || c == '-' || c == '–' }

  predicate NoTerminator(s: string) {
    forall k :: 0 <= k < |s| ==> !IsLineTerminator(s[k])
  }

  /** The greedy `[dashes]{1,2}\s*` at `L`: one or two dashes (two when
      there are two), then all the whitespace after them. */
  function DashGapEnd(s: string, L: nat): (e: nat)
    requires L < |s|
    ensures L < e <= |s|
  {
    var d := if L + 1 < |s| && IsDash(s[L + 1]) then 2 else 1;
    RunEnd(s, L + d, IsSpace)
  }

  /** The split the engine finds, as the end `L` of the first group and the
      start `e` of the second: the lazy first group grows from the start
      and stops at the first dash from which the rest matches. The rest is
      `(.*)$`, so it matches exactly when no line terminator follows the
      gap; giving back whitespace or the second dash cannot help, since the
      same terminator would still follow. */
  function DashMatchFrom(s: string, L: nat): (r: Option<(nat, nat)>)
    requires L <= |s|
    ensures r.Some? ==> L <= r.value.0 < r.value.1 <= |s| && IsDash(s[r.value.0])
    decreases |s| - L
  {
    if L == |s| || IsLineTerminator(s[L]) then None
    else if IsDash(s[L]) && NoTerminator(s[DashGapEnd(s, L)..]) then Some((L, DashGapEnd(s, L)))
    else DashMatchFrom(s, L + 1)
  }

  /** `m ? [m[1].trim(), m[2].trim()] : [header, '']`. */
  function DashSplit(header: string): (parts: (string, string))
  {
    match DashMatchFrom(header, 0)
    case Some((L, e)) => (Trim(header[..L]), Trim(header[e..]))
    case None => (header, "")
  }

  /** On a header with no line terminator the split falls at the first dash
      when there is one: the first part is everything before it, the second
      everything after the dash run (one or two dashes) and the whitespace
      that follows; with no dash there is no split. */
  lemma {:induction false} DashMatchFirstDash(s: string, L: nat)
    requires L <= |s| && NoTerminator(s)
    ensures DashMatchFrom(s, L).None? <==> forall k :: L <= k < |s| ==> !IsDash(s[k])
    ensures DashMatchFrom(s, L).Some? ==>
      var (a, e) := DashMatchFrom(s, L).value;
      (forall k :: L <= k < a ==> !IsDash(s[k])) && e == DashGapEnd(s, a)
    decreases |s| - L
  {
    if L < |s| {
      NoTerminatorAfter(s, DashGapEnd(s, L));
      if !IsDash(s[L]) {
        DashMatchFirstDash(s, L + 1);
      }
    }
  }

  /** A text with no line terminator has none in any suffix. */
  lemma NoTerminatorAfter(s: string, j: nat)
    requires j <= |s| && NoTerminator(s)
    ensures NoTerminator(s[j..])
  {
    forall k | 0 <= k < |s[j..]| ensures !IsLineTerminator(s[j..][k]) {
      assert s[j..][k] == s[j + k];
    }
  }

  /** The split of a header with no line terminator at its first dash `a`:
      the trimmed text before it and the trimmed text after the dash run and
      the whitespace that follows. */
  lemma DashSplitAt(header: string, a: nat)
    requires NoTerminator(header)
    requires a < |header| && IsDash(header[a])
    requires forall k :: 0 <= k < a ==> !IsDash(header[k])
    ensures DashSplit(header) == (Trim(header[..a]), Trim(header[DashGapEnd(header, a)..]))
  {
    DashMatchFirstDash(header, 0);
    assert DashMatchFrom(header, 0) == Some((a, DashGapEnd(header, a)));
  }

  /** A header with no dash is not split. */
  lemma DashSplitNone(header: string)
    requires NoTerminator(header)
    requires forall k :: 0 <= k < |header| ==> !IsDash(header[k])
    ensures DashSplit(header) == (header, "")
  {
    DashMatchFirstDash(header, 0);
  }

  /** What lies between the two parts: one or two dashes (a second one is
      always taken), then whitespace up to the first character that is not. */
  lemma DashGapShape(s: string, L: nat)
    requires L < |s| && IsDash(s[L])
    ensures var e := DashGapEnd(s, L);
      && (forall k :: L <= k < e ==> IsDash(s[k]) || IsSpace(s[k]))
      && (L + 1 < |s| && IsDash(s[L + 1]) ==> L + 2 <= e)
      && (L + 2 < e ==> IsSpace(s[e - 1]))
      && (e < |s| ==> !IsSpace(s[e]))
  {
  }
}
