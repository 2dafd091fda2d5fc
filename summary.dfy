/** `toHtmlParagraphs`: the summary's first eight lines joined into one
    text, cut into sentences, packed greedily into chunks of at most 220
    characters and wrapped in paragraph tags. */
module Summary {
  import opened Text
  import opened Lists

  /** The chunk length the packing keeps to. */
  const MaxChunk := 220

  predicate IsSentenceEnd(c: char) { c == '.' || c == '!' || c == '?' }

  /** `(?<=[.!?])\s+` can start at `q`: a sentence end before it and
      whitespace at it. */
  predicate BreaksAt(s: string, q: nat)
    requires q <= |s|
  {
    0 < q < |s| && IsSentenceEnd(s[q - 1]) && IsSpace(s[q])
  }

  /** The split loop from the piece starting at `p`, trying a match at `q`:
      each match takes the whole whitespace run, and the piece before it is
      cut off. */
  function SentencesFrom(s: string, p: nat, q: nat): (r: seq<string>)
    requires p <= q <= |s|
    requires p == 0 || IsSpace(s[p - 1])
    ensures |r| >= 1
    ensures forall k :: 0 <= k < |r| - 1 ==> r[k] != "" && IsSentenceEnd(r[k][|r[k]| - 1])
    decreases |s| - q
  {
    if q == |s| then [s[p..]]
    else if BreaksAt(s, q) then
      var e := RunEnd(s, q, IsSpace);
      [s[p..q]] + SentencesFrom(s, e, e)
    else SentencesFrom(s, p, q + 1)
  }

  /** `text.split(/(?<=[.!?])\s+/)`. */
  function Sentences(text: string): (r: seq<string>)
    ensures |r| >= 1
  {
    SentencesFrom(text, 0, 0)
  }

  /** The loop state: the chunks pushed so far and the chunk being built. */
  datatype Packing = Packing(chunks: seq<string>, cur: string)

  /** One turn of the packing loop. `guarded` adds the test `cur &&` to the
      overflow condition: without it an over-long first sentence pushes an
      empty chunk (see `AsWrittenEmptyParagraph`). */
  function Step(st: Packing, s: string, guarded: bool): Packing {
    if (!guarded || st.cur != "") && |st.cur + " " + s| > MaxChunk then Packing(st.chunks + [Trim(st.cur)], s)
    else Packing(st.chunks, if st.cur != "" then st.cur + " " + s else s)
  }

  /** The loop state after the sentences `ss`. */
  function PackAll(ss: seq<string>, guarded: bool): Packing
    decreases |ss|
  {
    if |ss| == 0 then Packing([], "") else Step(PackAll(ss[..|ss| - 1], guarded), ss[|ss| - 1], guarded)
  }

  /** The chunks, the last one pushed after the loop when it is not empty. */
  function Chunks(ss: seq<string>, guarded: bool): seq<string> {
    var st := PackAll(ss, guarded);
    if st.cur != "" then st.chunks + [Trim(st.cur)] else st.chunks
  }

  /** `chunks.map((p) => `<p>${p}</p>`).join('')`. */
  function Paragraphs(chunks: seq<string>): string
    decreases |chunks|
  {
    if |chunks| == 0 then "" else "<p>" + chunks[0] + "</p>" + Paragraphs(chunks[1..])
  }

  /** `lines.slice(0, 8).join(' ')`. */
  function SummaryText(lines: seq<string>): string {
    Join(Take(lines, 8), " ")
  }

  /** What `toHtmlParagraphs` returns with the overflow test guarded. */
  function SummaryHtml(lines: seq<string>): string {
    Paragraphs(Chunks(Sentences(SummaryText(lines)), true))
  }

  /** What `toHtmlParagraphs` returns as written. */
  function SummaryHtmlAsWritten(lines: seq<string>): string {
    Paragraphs(Chunks(Sentences(SummaryText(lines)), false))
  }

  /** `toHtmlParagraphs`, with the overflow test guarded. */
  method ToHtmlParagraphs(lines: seq<string>) returns (html: string)
    ensures html == SummaryHtml(lines)
  {
    var sentences := Sentences(Join(Take(lines, 8), " "));
    var chunks: seq<string> := [];
    var cur := "";
    for i := 0 to |sentences|
      invariant Packing(chunks, cur) == PackAll(sentences[..i], true)
    {
      assert sentences[..i + 1][..i] == sentences[..i];
      var s := sentences[i];
      if cur != "" && |cur + " " + s| > MaxChunk {
        chunks := chunks + [Trim(cur)];
        cur := s;
      } else {
        cur := (if cur != "" then cur + " " else "") + s;
      }
    }
    assert sentences[..|sentences|] == sentences;
    if cur != "" {
      chunks := chunks + [Trim(cur)];
    }
    html := Paragraphs(chunks);
  }

  // ---------------------------------------------------------------------
  // Sentences

  /** A text without a sentence break is one sentence. */
  lemma {:induction false} NoBreakOneSentence(s: string, q: nat)
    requires q <= |s|
    requires forall k :: 0 <= k <= |s| ==> !BreaksAt(s, k)
    ensures SentencesFrom(s, 0, q) == [s]
    decreases |s| - q
  {
    if q < |s| {
      NoBreakOneSentence(s, q + 1);
    }
  }

  /** Every sentence of a text without whitespace at either end is non-empty
      and has none either: a piece starts at the text's start or after a
      whitespace run, and ends at the text's end or at a sentence end. */
  lemma {:induction false} TrimmedSentences(s: string, p: nat, q: nat)
    requires p <= q <= |s| && (p == 0 || IsSpace(s[p - 1]))
    requires s != "" && IsTrimmed(s) && p < |s| && !IsSpace(s[p])
    ensures forall k :: 0 <= k < |SentencesFrom(s, p, q)| ==> SentencesFrom(s, p, q)[k] != "" && IsTrimmed(SentencesFrom(s, p, q)[k])
    decreases |s| - q
  {
    if q < |s| {
      if BreaksAt(s, q) {
        var e := RunEnd(s, q, IsSpace);
        assert e < |s|;
        TrimmedSentences(s, e, e);
        assert s[p..q][0] == s[p] && s[p..q][q - p - 1] == s[q - 1];
      } else {
        TrimmedSentences(s, p, q + 1);
      }
    } else {
      assert s[p..][0] == s[p] && s[p..][|s| - p - 1] == s[|s| - 1];
    }
  }

  // ---------------------------------------------------------------------
  // Packing

  /** The bound on chunks: every chunk, and the chunk being built, is at
      most 220 characters long or is a single sentence (trimmed, once
      pushed). So a chunk holding two or more sentences is never longer
      than 220 characters. Both loops keep it. */
  lemma {:induction false} ChunksBounded(ss: seq<string>, guarded: bool)
    ensures var st := PackAll(ss, guarded);
      (forall c :: c in st.chunks ==> |c| <= MaxChunk || exists s :: s in ss && c == Trim(s)) &&
      (st.cur == "" || |st.cur| <= MaxChunk || st.cur in ss)
    decreases |ss|
  {
    if |ss| > 0 {
      var prev := ss[..|ss| - 1];
      ChunksBounded(prev, guarded);
      var st := PackAll(prev, guarded);
      var s := ss[|ss| - 1];
      assert s in ss;
      forall c | c in PackAll(ss, guarded).chunks
        ensures |c| <= MaxChunk || exists s :: s in ss && c == Trim(s)
      {
        if c in st.chunks {
          if |c| > MaxChunk {
            var s' :| s' in prev && c == Trim(s');
            assert s' in ss;
          }
        } else {
          assert c == Trim(st.cur);
          if |st.cur| > MaxChunk {
            assert st.cur in prev;
            assert st.cur in ss;
          }
        }
      }
      if st.cur in prev {
        assert st.cur in ss;
      }
    }
  }

  /** The pushed chunks and the one after the loop: every chunk is at most
      220 characters long or is a single trimmed sentence. */
  lemma ChunkBound(ss: seq<string>, guarded: bool)
    ensures forall c :: c in Chunks(ss, guarded) ==> |c| <= MaxChunk || exists s :: s in ss && c == Trim(s)
  {
    ChunksBounded(ss, guarded);
  }

  /** `Join` of a sequence with one more element. */
  lemma {:induction false} JoinSnoc(xs: seq<string>, x: string, sep: string)
    ensures Join(xs + [x], sep) == if xs == [] then x else Join(xs, sep) + sep + x
    decreases |xs|
  {
    if |xs| == 1 {
      assert (xs + [x])[1..] == [x];
    } else if |xs| > 1 {
      assert (xs + [x])[1..] == xs[1..] + [x];
      JoinSnoc(xs[1..], x, sep);
    }
  }

  /** Two trimmed, non-empty strings joined by a space are trimmed. */
  lemma SpaceJoinTrimmed(a: string, b: string)
    requires a != "" && IsTrimmed(a) && b != "" && IsTrimmed(b)
    ensures IsTrimmed(a + " " + b)
  {
    assert (a + " " + b)[0] == a[0];
    assert (a + " " + b)[|a + " " + b| - 1] == b[|b| - 1];
  }

  /** The guarded loop's state after the non-empty sentences `ss`: the
      chunk being built is non-empty and trimmed, every pushed chunk is
      too, and the pushed chunks followed by the one being built hold the
      sentences in order, separated by single spaces. */
  predicate KeepsText(st: Packing, ss: seq<string>) {
    && st.cur != "" && IsTrimmed(st.cur)
    && Join(st.chunks + [st.cur], " ") == Join(ss, " ")
    && forall k :: 0 <= k < |st.chunks| ==> st.chunks[k] != "" && IsTrimmed(st.chunks[k])
  }

  /** One guarded turn on a non-empty, trimmed sentence keeps `KeepsText`. */
  lemma StepKeepsText(st: Packing, ss: seq<string>, s: string)
    requires ss != [] && KeepsText(st, ss) && s != "" && IsTrimmed(s)
    ensures KeepsText(Step(st, s, true), ss + [s])
  {
    if |st.cur + " " + s| > MaxChunk {
      assert Step(st, s, true) == Packing(st.chunks + [st.cur], s);
      PushKeepsText(st, ss, s);
    } else {
      assert Step(st, s, true) == Packing(st.chunks, st.cur + " " + s);
      ExtendKeepsText(st, ss, s);
    }
  }

  /** Pushing the chunk being built and starting a new one keeps the text. */
  lemma PushKeepsText(st: Packing, ss: seq<string>, s: string)
    requires KeepsText(st, ss) && s != "" && IsTrimmed(s)
    ensures KeepsText(Packing(st.chunks + [st.cur], s), ss + [s])
  {
    JoinSnoc(ss, s, " ");
    JoinSnoc(st.chunks + [st.cur], s, " ");
  }

  /** Adding a sentence to the chunk being built keeps the text. */
  lemma ExtendKeepsText(st: Packing, ss: seq<string>, s: string)
    requires ss != [] && KeepsText(st, ss) && s != "" && IsTrimmed(s)
    ensures KeepsText(Packing(st.chunks, st.cur + " " + s), ss + [s])
  {
    JoinSnoc(ss, s, " ");
    SpaceJoinTrimmed(st.cur, s);
    JoinSnoc(st.chunks, st.cur, " ");
    JoinSnoc(st.chunks, st.cur + " " + s, " ");
  }

  /** The guarded loop keeps `KeepsText` from its first sentence on. */
  lemma {:induction false} PackKeepsText(ss: seq<string>)
    requires forall k :: 0 <= k < |ss| ==> ss[k] != "" && IsTrimmed(ss[k])
    ensures ss == [] ==> PackAll(ss, true) == Packing([], "")
    ensures ss != [] ==> KeepsText(PackAll(ss, true), ss)
    decreases |ss|
  {
    if |ss| > 0 {
      var prev := ss[..|ss| - 1];
      var s := ss[|ss| - 1];
      PackKeepsText(prev);
      assert prev + [s] == ss;
      if prev == [] {
        assert PackAll(ss, true) == Packing([], s);
      } else {
        StepKeepsText(PackAll(prev, true), prev, s);
      }
    }
  }

  /** On non-empty, trimmed sentences the guarded packing loses nothing and
      reorders nothing: its chunks, joined by spaces, are the sentences
      joined by spaces; and no chunk is empty. */
  lemma ChunksKeepText(ss: seq<string>)
    requires forall k :: 0 <= k < |ss| ==> ss[k] != "" && IsTrimmed(ss[k])
    ensures Join(Chunks(ss, true), " ") == Join(ss, " ")
    ensures forall k :: 0 <= k < |Chunks(ss, true)| ==> Chunks(ss, true)[k] != ""
  {
    PackKeepsText(ss);
    var st := PackAll(ss, true);
    if ss != [] {
      assert Trim(st.cur) == st.cur;
      assert Chunks(ss, true) == st.chunks + [st.cur];
    } else {
      assert Chunks(ss, true) == [];
    }
  }

  // ---------------------------------------------------------------------
  // The summary

  /** Lines after the eighth play no part. */
  lemma OnlyFirstEight(lines: seq<string>, more: seq<string>)
    requires |lines| >= 8
    ensures SummaryHtml(lines + more) == SummaryHtml(lines)
  {
    assert Take(lines + more, 8) == Take(lines, 8);
  }

  /** No lines give no paragraphs. */
  lemma EmptySummary()
    ensures SummaryHtml([]) == ""
    ensures SummaryHtmlAsWritten([]) == ""
  {
    assert Sentences("") == [""];
    assert PackAll([""], true) == Packing([], "");
    assert PackAll([""], false) == Packing([], "");
  }

  /** Non-empty, trimmed lines joined by spaces give a non-empty trimmed
      text. */
  lemma {:induction false} JoinTrimmed(lines: seq<string>)
    requires |lines| >= 1
    requires forall k :: 0 <= k < |lines| ==> lines[k] != "" && IsTrimmed(lines[k])
    ensures Join(lines, " ") != "" && IsTrimmed(Join(lines, " "))
    decreases |lines|
  {
    if |lines| > 1 {
      JoinTrimmed(lines[1..]);
      SpaceJoinTrimmed(lines[0], Join(lines[1..], " "));
    }
  }

  /** On normalised lines (non-empty, trimmed) the sentences are non-empty
      and trimmed, so no paragraph is empty and the paragraphs hold the
      sentences in order. */
  lemma NoEmptyParagraph(lines: seq<string>)
    requires |lines| >= 1
    requires forall k :: 0 <= k < |lines| ==> lines[k] != "" && IsTrimmed(lines[k])
    ensures var ss := Sentences(SummaryText(lines));
      forall k :: 0 <= k < |ss| ==> ss[k] != "" && IsTrimmed(ss[k])
    ensures var ss := Sentences(SummaryText(lines));
      Join(Chunks(ss, true), " ") == Join(ss, " ") && forall k :: 0 <= k < |Chunks(ss, true)| ==> Chunks(ss, true)[k] != ""
  {
    var t := Take(lines, 8);
    JoinTrimmed(t);
    TrimmedSentences(SummaryText(lines), 0, 0);
    ChunksKeepText(Sentences(SummaryText(lines)));
  }

  /** As written, a first sentence of 220 characters or more makes the loop
      push the empty chunk it starts with: the output is the guarded one
      with an empty paragraph in front. */
  lemma AsWrittenEmptyParagraph(l: string)
    requires |l| >= MaxChunk && IsTrimmed(l)
    requires forall k :: 0 <= k <= |l| ==> !BreaksAt(l, k)
    ensures Chunks(Sentences(SummaryText([l])), false) == ["", l]
    ensures Chunks(Sentences(SummaryText([l])), true) == [l]
    ensures SummaryHtmlAsWritten([l]) == "<p></p>" + SummaryHtml([l])
  {
    NoBreakOneSentence(l, 0);
    assert SummaryText([l]) == l;
    assert [l][..0] == [];
    assert Trim("") == "";
    assert PackAll([l], false) == Packing([""], l);
    assert PackAll([l], true) == Packing([], l);
    assert ["", l][1..] == [l];
    assert Paragraphs(["", l]) == "<p>" + "" + "</p>" + Paragraphs([l]);
    assert "<p>" + "" + "</p>" == "<p></p>";
  }

  /** The chunks the unguarded loop pushes before the guarded one's: one
      empty chunk when the first sentence overflows the empty chunk it
      starts with, none otherwise. */
  function ExtraChunks(ss: seq<string>): (r: seq<string>)
    ensures r == [] || r == [""]
  {
    if |ss| > 0 && |" " + ss[0]| > MaxChunk then [""] else []
  }

  /** On non-empty sentences both loops build the same chunk, and the
      unguarded one has pushed `ExtraChunks(ss)` in front of the guarded
      one's chunks: once the chunk being built is non-empty the two overflow
      tests agree. */
  lemma {:induction false} PackAsWritten(ss: seq<string>)
    requires forall k :: 0 <= k < |ss| ==> ss[k] != ""
    ensures PackAll(ss, false) == Packing(ExtraChunks(ss) + PackAll(ss, true).chunks, PackAll(ss, true).cur)
    ensures ss != [] ==> PackAll(ss, true).cur != ""
    decreases |ss|
  {
    if |ss| == 1 {
      assert ss[..0] == [];
    } else if |ss| > 1 {
      var prev := ss[..|ss| - 1];
      PackAsWritten(prev);
      assert ExtraChunks(prev) == ExtraChunks(ss);
      Assoc(ExtraChunks(ss), PackAll(prev, true).chunks, [Trim(PackAll(prev, true).cur)]);
    }
  }

  /** The unguarded loop's chunks, the last one included, are
      `ExtraChunks(ss)` then the guarded loop's. */
  lemma ChunksAsWritten(ss: seq<string>)
    requires ss != [] && forall k :: 0 <= k < |ss| ==> ss[k] != ""
    ensures Chunks(ss, false) == ExtraChunks(ss) + Chunks(ss, true)
  {
    PackAsWritten(ss);
    Assoc(ExtraChunks(ss), PackAll(ss, true).chunks, [Trim(PackAll(ss, true).cur)]);
  }

  /** An empty chunk in front puts an empty paragraph in front. */
  lemma EmptyChunkFirst(g: seq<string>)
    ensures Paragraphs([""] + g) == "<p></p>" + Paragraphs(g)
  {
    assert ([""] + g)[1..] == g;
    assert "<p>" + "" + "</p>" == "<p></p>";
  }

  /** On non-empty sentences the unguarded loop's paragraphs are the
      guarded loop's, with an empty one in front exactly when the first
      sentence has 220 characters or more. */
  lemma ParagraphsAsWritten(ss: seq<string>)
    requires ss != [] && forall k :: 0 <= k < |ss| ==> ss[k] != ""
    ensures Paragraphs(Chunks(ss, false)) == (if |ss[0]| >= MaxChunk then "<p></p>" else "") + Paragraphs(Chunks(ss, true))
  {
    ChunksAsWritten(ss);
    var g := Chunks(ss, true);
    if |ss[0]| >= MaxChunk {
      EmptyChunkFirst(g);
    } else {
      assert [] + g == g;
    }
  }

  /** As written, `toHtmlParagraphs` on normalised lines gives the guarded
      output, with an empty paragraph in front exactly when the first
      sentence has 220 characters or more. */
  lemma AsWrittenSummary(lines: seq<string>)
    requires forall k :: 0 <= k < |lines| ==> lines[k] != "" && IsTrimmed(lines[k])
    ensures var ss := Sentences(SummaryText(lines));
      SummaryHtmlAsWritten(lines) == (if |ss[0]| >= MaxChunk then "<p></p>" else "") + SummaryHtml(lines)
  {
    if |lines| == 0 {
      EmptySummary();
      assert Sentences(SummaryText(lines)) == [""];
    } else {
      NoEmptyParagraph(lines);
      ParagraphsAsWritten(Sentences(SummaryText(lines)));
    }
  }
}
