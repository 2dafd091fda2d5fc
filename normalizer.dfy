/** The normalisation chain of `readPdfText`: the text a PDF yields becomes
    the ordered lines every later stage reads. */
module Normalizer {
  import opened Text

  /** `.replace(/\r/g, '')`. */
  function RemoveCR(text: string): (r: string)
    ensures '\r' !in r
    ensures forall c :: c in r ==> c in text
    ensures '\r' !in text ==> r == text
    decreases |text|
  {
    if |text| == 0 then ""
    else (if text[0] == '\r' then "" else [text[0]]) + RemoveCR(text[1..])
  }

  lemma {:induction false} RemoveCRAppend(a: string, b: string)
    ensures RemoveCR(a + b) == RemoveCR(a) + RemoveCR(b)
    decreases |a|
  {
    if |a| > 0 {
      assert (a + b)[1..] == a[1..] + b;
      RemoveCRAppend(a[1..], b);
    } else {
      assert a + b == b;
    }
  }

  /** The lines of a text: carriage returns dropped, cut at line feeds, each
      piece trimmed, empty pieces discarded. Every line is non-empty, trimmed
      and free of line breaks. */
  function Normalize(text: string): (lines: seq<string>)
    ensures forall k :: 0 <= k < |lines| ==> lines[k] != "" && IsTrimmed(lines[k])
    ensures forall k :: 0 <= k < |lines| ==> '\r' !in lines[k] && '\n' !in lines[k]
  {
    var pieces := Split(RemoveCR(text), '\n');
    var lines := TrimNonEmpty(pieces);
    forall k, c | 0 <= k < |lines| && c in lines[k] ensures c != '\r' && c != '\n' {
      TrimNonEmptyChars(pieces, k, c);
      var j :| 0 <= j < |pieces| && c in pieces[j];
      SplitChars(RemoveCR(text), '\n', j, c);
    }
    lines
  }

  /** Order is kept: the lines of two texts joined by a line feed are the
      lines of the first followed by the lines of the second. */
  lemma {:induction false} NormalizeAppend(a: string, b: string)
    ensures Normalize(a + "\n" + b) == Normalize(a) + Normalize(b)
  {
    var ca, cb := RemoveCR(a), RemoveCR(b);
    RemoveCRAppend(a + "\n", b);
    RemoveCRAppend(a, "\n");
    assert RemoveCR(a + "\n" + b) == ca + ['\n'] + cb;
    SplitAround(ca, '\n', cb);
    var pa, pb := Split(ca, '\n'), Split(cb, '\n');
    assert Split(RemoveCR(a + "\n" + b), '\n') == pa + pb;
    TrimNonEmptyAppend(pa, pb);
  }

  /** A text without a line feed yields its trimmed self, or nothing when it
      is blank. */
  lemma {:induction false} NormalizeSingleLine(l: string)
    requires '\n' !in l
    ensures Normalize(l) == (if Trim(RemoveCR(l)) == "" then [] else [Trim(RemoveCR(l))])
  {
    SplitNoSeparator(RemoveCR(l), '\n');
  }

  /** Normalisation gives back lines that are already normal after they are
      joined by line feeds. */
  lemma {:induction false} NormalizeJoin(lines: seq<string>)
    requires forall k :: 0 <= k < |lines| ==> lines[k] != "" && IsTrimmed(lines[k])
    requires forall k :: 0 <= k < |lines| ==> '\r' !in lines[k] && '\n' !in lines[k]
    ensures Normalize(Join(lines, "\n")) == lines
  {
    if |lines| == 0 {
      assert Normalize("") == [];
    } else {
      var text := Join(lines, "\n");
      JoinChars(lines, "\n");
      assert '\r' !in text;
      assert RemoveCR(text) == text;
      SplitJoin(lines, '\n');
      assert Split(text, '\n') == lines;
      TrimNonEmptyKeeps(lines);
    }
  }

  /** A joined text holds only characters of its pieces and separator. */
  lemma {:induction false} JoinChars(pieces: seq<string>, sep: string)
    ensures forall c :: c in Join(pieces, sep) ==> c in sep || exists k :: 0 <= k < |pieces| && c in pieces[k]
    decreases |pieces|
  {
    if |pieces| > 1 {
      JoinChars(pieces[1..], sep);
      forall c | c in Join(pieces[1..], sep) && c !in sep
        ensures exists k :: 0 <= k < |pieces| && c in pieces[k]
      {
        var k :| 0 <= k < |pieces[1..]| && c in pieces[1..][k];
        assert c in pieces[k + 1];
      }
    }
  }
}
