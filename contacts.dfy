/** The contact extractors: `extractEmail`, `extractPhone` and the location
    guess of `main`. Each regular expression is written out as the set of
    ways it can match (a shape) and a scanner that picks the match the
    JavaScript engine returns: the leftmost start and, at that start, the
    alternative its backtracking order tries first. */
module Contacts {
  import opened Text
  import opened Wrappers
  import opened Lists

  // ---------------------------------------------------------------------
  // Email: /[A-Z0-9._%+-]+@[A-Z0-9.-]+\.[A-Z]{2,}/i

  predicate IsLocalChar(c: char) { IsAlnum(c) || c == '.' || c == '_' || c == '%' || c == '+' || c == '-' }
  predicate IsDomainChar(c: char) { IsAlnum(c) || c == '.' || c == '-' }

  /** One way the email pattern matches: the local part `s[start..at]`, the
      `@`, the domain part `s[at + 1..dot]`, the dot, and the letters
      `s[dot + 1..end]`, at least two of them. */
  datatype EmailMatch = EmailMatch(start: nat, at: nat, dot: nat, end: nat)

  predicate IsEmailMatch(s: string, m: EmailMatch) {
    && m.start < m.at && m.at + 1 < m.dot && m.dot + 3 <= m.end <= |s|
    && (forall k :: m.start <= k < m.at ==> IsLocalChar(s[k]))
    && s[m.at] == '@'
    && (forall k :: m.at < k < m.dot ==> IsDomainChar(s[k]))
    && s[m.dot] == '.'
    && (forall k :: m.dot < k < m.end ==> IsLetter(s[k]))
  }

  /** A dot at `j` followed by at least two letters. */
  predicate DotFits(s: string, j: nat) {
    j < |s| && s[j] == '.' && RunEnd(s, j + 1, IsLetter) >= j + 3
  }

  /** The greedy domain run gives back characters one at a time, so the dot
      the engine settles on is the last fitting one before `hi`. */
  function LastDot(s: string, lo: nat, hi: nat): (r: Option<nat>)
    requires hi <= |s|
    ensures r.Some? ==> lo <= r.value < hi && DotFits(s, r.value)
                        && forall j :: r.value < j < hi ==> !DotFits(s, j)
    ensures r.None? ==> forall j :: lo <= j < hi ==> !DotFits(s, j)
    decreases hi
  {
    if hi <= lo then None
    else if DotFits(s, hi - 1) then Some(hi - 1)
    else LastDot(s, lo, hi - 1)
  }

  /** The match the engine finds when it starts at `p`, if any. */
  function EmailAt(s: string, p: nat): (r: Option<EmailMatch>)
    requires p <= |s|
    ensures r.Some? ==> r.value.start == p && IsEmailMatch(s, r.value)
  {
    var at := RunEnd(s, p, IsLocalChar);
    if at == p || at == |s| || s[at] != '@' then None
    else
      var hi := RunEnd(s, at + 1, IsDomainChar);
      match LastDot(s, at + 2, hi)
      case None => None
      case Some(dot) => Some(EmailMatch(p, at, dot, RunEnd(s, dot + 1, IsLetter)))
  }

  /** Every match starting at `p` is found there, and the one found has the
      last dot and, for that dot, the longest ending. */
  lemma EmailAtBest(s: string, p: nat, m: EmailMatch)
    requires p <= |s| && IsEmailMatch(s, m) && m.start == p
    ensures EmailAt(s, p).Some?
    ensures m.dot <= EmailAt(s, p).value.dot
    ensures m.dot == EmailAt(s, p).value.dot ==> m.end <= EmailAt(s, p).value.end
  {
    var at := RunEnd(s, p, IsLocalChar);
    assert at == m.at;
    var hi := RunEnd(s, at + 1, IsDomainChar);
    assert m.dot < hi;
    assert RunEnd(s, m.dot + 1, IsLetter) >= m.end;
    assert DotFits(s, m.dot);
  }

  /** The starts at which the engine finds an email match in `line`. */
  function EmailStartsIn(line: string): nat -> bool {
    (q: nat) => q <= |line| && EmailAt(line, q).Some?
  }

  /** `line.match(emailPattern)`, as positions: the match found at the
      leftmost start that has one. */
  function MatchEmail(line: string): (r: Option<EmailMatch>)
    ensures r.Some? ==> r.value.start <= |line| && EmailAt(line, r.value.start) == r
  {
    match LeastFrom(0, |line|, EmailStartsIn(line))
    case None => None
    case Some(q) => EmailAt(line, q)
  }

  /** The match returned is the leftmost one, and at its start it has the
      last possible dot and the longest top-level part; there is none
      exactly when no way of matching exists. */
  lemma MatchEmailIsLeftmostLongest(line: string)
    ensures MatchEmail(line).None? <==> forall m :: !IsEmailMatch(line, m)
    ensures MatchEmail(line).Some? ==>
      var r := MatchEmail(line).value;
      IsEmailMatch(line, r) &&
      forall m :: IsEmailMatch(line, m) ==>
        r.start <= m.start && (m.start == r.start ==> m.dot <= r.dot && (m.dot == r.dot ==> m.end <= r.end))
  {
    forall m | IsEmailMatch(line, m)
      ensures MatchEmail(line).Some?
      ensures var r := MatchEmail(line).value;
        r.start <= m.start && (m.start == r.start ==> m.dot <= r.dot && (m.dot == r.dot ==> m.end <= r.end))
    {
      EmailAtBest(line, m.start, m);
      assert EmailStartsIn(line)(m.start);
    }
  }

  predicate HasEmail(line: string) { MatchEmail(line).Some? }

  /** The text `line.match(emailPattern)[0]`. */
  function EmailText(line: string): string
    requires HasEmail(line)
  {
    var m := MatchEmail(line).value;
    line[m.start..m.end]
  }

  /** `extractEmail`: the text of the first match in the first line that
      has one. */
  function ExtractEmail(lines: seq<string>): (r: Option<string>)
    ensures r.None? <==> forall i :: 0 <= i < |lines| ==> !HasEmail(lines[i])
    ensures forall i :: 0 <= i < |lines| && HasEmail(lines[i]) && (forall j :: 0 <= j < i ==> !HasEmail(lines[j])) ==>
      r == Some(EmailText(lines[i]))
  {
    FirstWhereIsFirst(lines, HasEmail);
    match FirstWhere(lines, HasEmail)
    case None => None
    case Some(i) => Some(EmailText(lines[i]))
  }

  /** The text of a match holds an `@` with a local part before it and
      ends in a dot and at least two letters. */
  lemma EmailTextShape(s: string, m: EmailMatch)
    requires IsEmailMatch(s, m)
    ensures var e := s[m.start..m.end];
      |e| >= 6 && '@' in e && e[0] != '@' && e[|e| - 1] != '.' && e[|e| - 2] != '.'
  {
    var e := s[m.start..m.end];
    assert e[m.at - m.start] == '@';
    assert IsLocalChar(e[0]);
    assert IsLetter(e[|e| - 1]) && IsLetter(e[|e| - 2]);
  }

  /** The email found is such a text. */
  lemma ExtractEmailShape(lines: seq<string>)
    requires ExtractEmail(lines).Some?
    ensures var e := ExtractEmail(lines).value;
      |e| >= 6 && '@' in e && e[0] != '@' && e[|e| - 1] != '.' && e[|e| - 2] != '.'
  {
    var i := FirstWhere(lines, HasEmail).value;
    EmailTextShape(lines[i], MatchEmail(lines[i]).value);
    assert ExtractEmail(lines).value == EmailText(lines[i]);
  }

  // ---------------------------------------------------------------------
  // Phone: /(\+?\d{1,3}[\s.-]?)?(\(?\d{3}\)?[\s.-]?\d{3}[\s.-]?\d{4})/

  predicate IsPhoneSep(c: char) { IsSpace(c) || c == '.' || c == '-' }

  predicate CharIs(s: string, i: nat, c: char) { i < |s| && s[i] == c }
  predicate SepAt(s: string, i: nat) { i < |s| && IsPhoneSep(s[i]) }

  function B(b: bool): nat { if b then 1 else 0 }

  /** The choices the phone pattern leaves open: the optional country-code
      group (`lead` digits, 0 when the group is absent, with its `+` and its
      separator) and the optional `(`, `)` and two separators. */
  datatype PhoneShape = PhoneShape(plus: bool, lead: nat, sep0: bool, open: bool, close: bool, sep1: bool, sep2: bool)

  predicate ValidShape(sh: PhoneShape) {
    sh.lead <= 3 && (sh.lead == 0 ==> !sh.plus && !sh.sep0)
  }

  function PhoneLen(sh: PhoneShape): nat {
    B(sh.plus) + sh.lead + B(sh.sep0) + B(sh.open) + 3 + B(sh.close) + B(sh.sep1) + 3 + B(sh.sep2) + 4
  }

  // Where each part of a phone match starts, for a match starting at `p`.
  function G2Pos(p: nat, sh: PhoneShape): nat { p + B(sh.plus) + sh.lead + B(sh.sep0) }
  function AreaPos(p: nat, sh: PhoneShape): nat { G2Pos(p, sh) + B(sh.open) }
  function ClosePos(p: nat, sh: PhoneShape): nat { AreaPos(p, sh) + 3 }
  function Sep1Pos(p: nat, sh: PhoneShape): nat { ClosePos(p, sh) + B(sh.close) }
  function MidPos(p: nat, sh: PhoneShape): nat { Sep1Pos(p, sh) + B(sh.sep1) }
  function Sep2Pos(p: nat, sh: PhoneShape): nat { MidPos(p, sh) + 3 }
  function LastPos(p: nat, sh: PhoneShape): nat { Sep2Pos(p, sh) + B(sh.sep2) }

  /** The phone pattern matches `s` from `p` with the choices `sh`. */
  predicate PhoneFits(s: string, p: nat, sh: PhoneShape) {
    && ValidShape(sh)
    && p + PhoneLen(sh) <= |s|
    && (sh.plus ==> CharIs(s, p, '+'))
    && DigitsAt(s, p + B(sh.plus), sh.lead)
    && (sh.sep0 ==> SepAt(s, p + B(sh.plus) + sh.lead))
    && (sh.open ==> CharIs(s, G2Pos(p, sh), '('))
    && DigitsAt(s, AreaPos(p, sh), 3)
    && (sh.close ==> CharIs(s, ClosePos(p, sh), ')'))
    && (sh.sep1 ==> SepAt(s, Sep1Pos(p, sh)))
    && DigitsAt(s, MidPos(p, sh), 3)
    && (sh.sep2 ==> SepAt(s, Sep2Pos(p, sh)))
    && DigitsAt(s, LastPos(p, sh), 4)
  }

  /** The choices the engine makes for a given number of leading digits:
      every optional character is taken exactly when it is there, because
      leaving it out would put it where only a digit or `(` can stand. */
  function Forced(s: string, p: nat, lead: nat): (sh: PhoneShape)
    ensures sh.lead == lead
  {
    var plus := lead > 0 && CharIs(s, p, '+');
    var sep0 := lead > 0 && SepAt(s, p + B(plus) + lead);
    var q := p + B(plus) + lead + B(sep0);
    var open := CharIs(s, q, '(');
    var c := q + B(open) + 3;
    var close := CharIs(s, c, ')');
    var d := c + B(close);
    var sep1 := SepAt(s, d);
    var f := d + B(sep1) + 3;
    PhoneShape(plus, lead, sep0, open, close, sep1, SepAt(s, f))
  }

  /** Any way of matching at `p` is the forced one for its number of leading
      digits. */
  lemma FitsIsForced(s: string, p: nat, sh: PhoneShape)
    requires PhoneFits(s, p, sh)
    ensures sh == Forced(s, p, sh.lead)
  {
    ForcedGroup(s, p, sh);
    ForcedArea(s, p, sh);
    ForcedSeparators(s, p, sh);
  }

  /** The `+` and the separator of the country-code group are forced. */
  lemma ForcedGroup(s: string, p: nat, sh: PhoneShape)
    requires ValidShape(sh) && (sh.plus ==> CharIs(s, p, '+')) && DigitsAt(s, p + B(sh.plus), sh.lead)
    requires sh.sep0 ==> SepAt(s, p + B(sh.plus) + sh.lead)
    requires sh.open ==> CharIs(s, G2Pos(p, sh), '(')
    requires DigitsAt(s, AreaPos(p, sh), 3)
    ensures sh.plus == Forced(s, p, sh.lead).plus && sh.sep0 == Forced(s, p, sh.lead).sep0
  {
    if sh.lead > 0 && !sh.plus {
      assert IsDigit(s[p]);
    }
    if sh.lead > 0 && !sh.sep0 {
      if sh.open { assert s[G2Pos(p, sh)] == '('; } else { assert IsDigit(s[AreaPos(p, sh)]); }
    }
  }

  /** The parentheses around the area code are forced. */
  lemma ForcedArea(s: string, p: nat, sh: PhoneShape)
    requires sh.plus == Forced(s, p, sh.lead).plus && sh.sep0 == Forced(s, p, sh.lead).sep0
    requires sh.open ==> CharIs(s, G2Pos(p, sh), '(')
    requires DigitsAt(s, AreaPos(p, sh), 3)
    requires sh.close ==> CharIs(s, ClosePos(p, sh), ')')
    requires sh.sep1 ==> SepAt(s, Sep1Pos(p, sh))
    requires DigitsAt(s, MidPos(p, sh), 3)
    ensures sh.open == Forced(s, p, sh.lead).open && sh.close == Forced(s, p, sh.lead).close
  {
    if !sh.open {
      assert IsDigit(s[AreaPos(p, sh)]);
    }
    if !sh.close {
      if sh.sep1 { assert IsPhoneSep(s[Sep1Pos(p, sh)]); } else { assert IsDigit(s[MidPos(p, sh)]); }
    }
  }

  /** The two separators of the number itself are forced. */
  lemma ForcedSeparators(s: string, p: nat, sh: PhoneShape)
    requires sh.plus == Forced(s, p, sh.lead).plus && sh.sep0 == Forced(s, p, sh.lead).sep0
    requires sh.open == Forced(s, p, sh.lead).open && sh.close == Forced(s, p, sh.lead).close
    requires sh.sep1 ==> SepAt(s, Sep1Pos(p, sh))
    requires DigitsAt(s, MidPos(p, sh), 3)
    requires sh.sep2 ==> SepAt(s, Sep2Pos(p, sh))
    requires DigitsAt(s, LastPos(p, sh), 4)
    ensures sh.sep1 == Forced(s, p, sh.lead).sep1 && sh.sep2 == Forced(s, p, sh.lead).sep2
  {
    if !sh.sep1 {
      assert IsDigit(s[MidPos(p, sh)]);
    }
    if !sh.sep2 {
      assert IsDigit(s[LastPos(p, sh)]);
    }
  }

  /** The forced shape with the most leading digits, `k` at most, that
      fits at `p`: the greedy `\d{1,3}` gives back one digit at a time, and
      `k = 0` is the group left out. */
  function FirstFit(s: string, p: nat, k: nat): (r: Option<PhoneShape>)
    ensures r.Some? ==> PhoneFits(s, p, r.value) && r.value.lead <= k
    decreases k
  {
    if PhoneFits(s, p, Forced(s, p, k)) then Some(Forced(s, p, k))
    else if k == 0 then None
    else FirstFit(s, p, k - 1)
  }

  lemma {:induction false} FirstFitBest(s: string, p: nat, k: nat, sh: PhoneShape)
    requires PhoneFits(s, p, sh) && sh.lead <= k
    ensures FirstFit(s, p, k).Some?
    ensures sh.lead <= FirstFit(s, p, k).value.lead
    ensures sh.lead == FirstFit(s, p, k).value.lead ==> sh == FirstFit(s, p, k).value
    decreases k
  {
    FitsIsForced(s, p, sh);
    if sh.lead < k {
      FirstFitBest(s, p, k - 1, sh);
    }
  }

  /** The match the engine finds when it starts at `p`. */
  function PhoneAt(s: string, p: nat): (r: Option<PhoneShape>)
    ensures r.Some? ==> PhoneFits(s, p, r.value)
  {
    FirstFit(s, p, 3)
  }

  /** Every way of matching at `p` is found there, and the one found has
      the most leading digits; no other way has as many. */
  lemma PhoneAtBest(s: string, p: nat, sh: PhoneShape)
    requires PhoneFits(s, p, sh)
    ensures PhoneAt(s, p).Some?
    ensures sh.lead <= PhoneAt(s, p).value.lead
    ensures sh.lead == PhoneAt(s, p).value.lead ==> sh == PhoneAt(s, p).value
  {
    FirstFitBest(s, p, 3, sh);
  }

  /** The starts at which the engine finds a phone match in `line`. */
  function PhoneStartsIn(line: string): nat -> bool {
    (q: nat) => PhoneAt(line, q).Some?
  }

  /** `line.match(phonePattern)`: the leftmost start where the pattern
      matches, with the shape found there. */
  function MatchPhone(line: string): (r: Option<(nat, PhoneShape)>)
    ensures r.Some? ==> PhoneAt(line, r.value.0) == Some(r.value.1)
  {
    match LeastFrom(0, |line|, PhoneStartsIn(line))
    case None => None
    case Some(q) => Some((q, PhoneAt(line, q).value))
  }

  /** The phone match returned starts leftmost and, there, has the most
      leading digits; there is none exactly when no way of matching exists. */
  lemma MatchPhoneIsLeftmostLongest(line: string)
    ensures MatchPhone(line).None? <==> forall p: nat, sh :: !PhoneFits(line, p, sh)
    ensures MatchPhone(line).Some? ==>
      var (start, r) := MatchPhone(line).value;
      PhoneFits(line, start, r) &&
      forall p: nat, sh :: PhoneFits(line, p, sh) ==>
        start <= p && (p == start ==> sh.lead <= r.lead && (sh.lead == r.lead ==> sh == r))
  {
    forall p: nat, sh | PhoneFits(line, p, sh)
      ensures MatchPhone(line).Some?
      ensures var (start, r) := MatchPhone(line).value;
        start <= p && (p == start ==> sh.lead <= r.lead && (sh.lead == r.lead ==> sh == r))
    {
      PhoneAtBest(line, p, sh);
      assert PhoneStartsIn(line)(p);
    }
  }

  /** `.replace(/\s+/g, ' ')`: every run of whitespace becomes one space. */
  function CollapseSpaces(s: string): (r: string)
    ensures |r| <= |s|
    ensures |s| > 0 ==> |r| > 0 && (IsSpace(s[0]) ==> r[0] == ' ') && (!IsSpace(s[0]) ==> r[0] == s[0])
    decreases |s|
  {
    if |s| == 0 then ""
    else if IsSpace(s[0]) then
      " " + CollapseSpaces(TrimStart(s))
    else [s[0]] + CollapseSpaces(s[1..])
  }

  /** What `.replace(/\s+/g, ' ')` leaves: every whitespace character is a
      plain space, and no two whitespace characters are adjacent. */
  lemma {:induction false} CollapseShape(s: string)
    ensures forall k :: 0 <= k < |CollapseSpaces(s)| && IsSpace(CollapseSpaces(s)[k]) ==> CollapseSpaces(s)[k] == ' '
    ensures forall k, j :: 0 <= k && j == k + 1 && j < |CollapseSpaces(s)| && IsSpace(CollapseSpaces(s)[k]) ==> !IsSpace(CollapseSpaces(s)[j])
    decreases |s|
  {
    if |s| == 0 {
    } else if IsSpace(s[0]) {
      CollapseShape(TrimStart(s));
    } else {
      CollapseShape(s[1..]);
    }
  }

  /** A run of whitespace alone becomes one space. */
  lemma CollapseAllSpace(s: string)
    requires |s| > 0 && forall k :: 0 <= k < |s| ==> IsSpace(s[k])
    ensures CollapseSpaces(s) == " "
  {
    TrimStartSpaces(s, "");
    assert s + "" == s;
  }

  /** Cutting leading whitespace before a non-space character leaves a
      shorter, non-empty text with the same last character. */
  lemma TrimStartShorter(a: string, k: nat)
    requires k < |a| && !IsSpace(a[k]) && IsSpace(a[0])
    ensures 0 < |TrimStart(a)| < |a| && TrimStart(a)[|TrimStart(a)| - 1] == a[|a| - 1]
  {
    var t := TrimStart(a);
    if k < |a| - |t| {
      TrimStartCut(a, k);
    }
    assert t == TrimStart(a[1..]);
  }

  /** Two pieces that do not meet inside a whitespace run collapse
      separately: together with the one-run and one-character cases, every
      maximal run of whitespace becomes exactly one space and every other
      character stays, in order. */
  lemma {:induction false} CollapseAppend(a: string, b: string)
    requires a == [] || b == [] || !IsSpace(a[|a| - 1]) || !IsSpace(b[0])
    ensures CollapseSpaces(a + b) == CollapseSpaces(a) + CollapseSpaces(b)
    decreases |a|, 1
  {
    if a == [] {
      assert a + b == b;
    } else if b == [] {
      assert a + b == a;
    } else if !IsSpace(a[0]) {
      CollapseAppendWord(a, b);
    } else if forall k :: 0 <= k < |a| ==> IsSpace(a[k]) {
      CollapseAppendSpaces(a, b);
    } else {
      var k :| 0 <= k < |a| && !IsSpace(a[k]);
      CollapseAppendRun(a, b, k);
    }
  }

  /** The case of a piece that starts with a non-space character. */
  lemma {:induction false} CollapseAppendWord(a: string, b: string)
    requires |a| > 0 && !IsSpace(a[0]) && (b == [] || !IsSpace(a[|a| - 1]) || !IsSpace(b[0]))
    ensures CollapseSpaces(a + b) == CollapseSpaces(a) + CollapseSpaces(b)
    decreases |a|, 0
  {
    CollapseAppend(a[1..], b);
    CollapseFirst(a, b);
  }

  /** The case of a piece made only of whitespace, before a non-space
      character or nothing. */
  lemma CollapseAppendSpaces(a: string, b: string)
    requires |a| > 0 && (forall k :: 0 <= k < |a| ==> IsSpace(a[k])) && (b == [] || !IsSpace(b[0]))
    ensures CollapseSpaces(a + b) == CollapseSpaces(a) + CollapseSpaces(b)
  {
    CollapseLead(a + b);
    TrimStartSpaces(a, b);
    CollapseAllSpace(a);
  }

  /** The case of a piece that starts with whitespace and has a non-space
      character at `k`. */
  lemma {:induction false} CollapseAppendRun(a: string, b: string, k: nat)
    requires k < |a| && IsSpace(a[0]) && !IsSpace(a[k]) && (b == [] || !IsSpace(a[|a| - 1]) || !IsSpace(b[0]))
    ensures CollapseSpaces(a + b) == CollapseSpaces(a) + CollapseSpaces(b)
    decreases |a|, 0
  {
    TrimStartShorter(a, k);
    CollapseAppend(TrimStart(a), b);
    CollapseSpaceRun(a, b, k);
  }

  /** The step for a piece that starts with whitespace before a non-space
      character at `k`, given the pieces after that whitespace. */
  lemma CollapseSpaceRun(a: string, b: string, k: nat)
    requires k < |a| && IsSpace(a[0]) && !IsSpace(a[k])
    requires CollapseSpaces(TrimStart(a) + b) == CollapseSpaces(TrimStart(a)) + CollapseSpaces(b)
    ensures CollapseSpaces(a + b) == CollapseSpaces(a) + CollapseSpaces(b)
  {
    CollapseLead(a + b);
    CollapseLead(a);
    TrimStartAppend(a, b, k);
    Assoc(" ", CollapseSpaces(TrimStart(a)), CollapseSpaces(b));
  }

  /** A text starting with whitespace collapses to one space and the rest
      after its leading whitespace. */
  lemma CollapseLead(s: string)
    requires |s| > 0 && IsSpace(s[0])
    ensures CollapseSpaces(s) == " " + CollapseSpaces(TrimStart(s))
  {
  }

  /** A non-space first character stays, given the pieces after it. */
  lemma CollapseFirst(a: string, b: string)
    requires |a| > 0 && !IsSpace(a[0])
    requires CollapseSpaces(a[1..] + b) == CollapseSpaces(a[1..]) + CollapseSpaces(b)
    ensures CollapseSpaces(a + b) == CollapseSpaces(a) + CollapseSpaces(b)
  {
    var u, v := CollapseSpaces(a[1..]), CollapseSpaces(b);
    assert CollapseSpaces(a + b) == [a[0]] + (u + v) by {
      TailAppend(a, b);
      CollapseHead(a + b);
    }
    assert CollapseSpaces(a) == [a[0]] + u by {
      CollapseHead(a);
    }
    ConsAssoc(a[0], u, v, CollapseSpaces(a + b), CollapseSpaces(a));
  }

  lemma ConsAssoc(c: char, u: string, v: string, x: string, y: string)
    requires x == [c] + (u + v) && y == [c] + u
    ensures x == y + v
  {
    Assoc([c], u, v);
  }

  lemma CollapseHead(s: string)
    requires |s| > 0 && !IsSpace(s[0])
    ensures CollapseSpaces(s) == [s[0]] + CollapseSpaces(s[1..])
  {
  }

  predicate HasPhone(line: string) { MatchPhone(line).Some? }

  /** The text `line.match(phoneRegex)[0]`. */
  function PhoneText(line: string): string
    requires HasPhone(line)
  {
    var (start, sh) := MatchPhone(line).value;
    line[start..start + PhoneLen(sh)]
  }

  /** `extractPhone`: the first match in the first line that has one, with
      its whitespace collapsed and trimmed. */
  function ExtractPhone(lines: seq<string>): (r: Option<string>)
    ensures r.None? <==> forall i :: 0 <= i < |lines| ==> !HasPhone(lines[i])
    ensures forall i :: 0 <= i < |lines| && HasPhone(lines[i]) && (forall j :: 0 <= j < i ==> !HasPhone(lines[j])) ==>
      r == Some(Trim(CollapseSpaces(PhoneText(lines[i]))))
  {
    FirstWhereIsFirst(lines, HasPhone);
    match FirstWhere(lines, HasPhone)
    case None => None
    case Some(i) => Some(Trim(CollapseSpaces(PhoneText(lines[i]))))
  }

  // ---------------------------------------------------------------------
  // Location guess: /(Philadelphia|PA|Pennsylvania|Remote|USA|United States)/i

  const PlaceWords: seq<string> := ["philadelphia", "pa", "pennsylvania", "remote", "usa", "united states"]

  /** The pattern has no anchors or boundaries, so it matches exactly when
      one of the words occurs anywhere in the line, ignoring case. */
  predicate MentionsPlace(line: string) { ContainsAny(ToLower(line), PlaceWords) }

  /** `resumeLines.find(...) || ''`. */
  function LocationGuess(lines: seq<string>): (r: string)
    ensures r == "" || MentionsPlace(r)
    ensures r != "" ==> exists i :: 0 <= i < |lines| && lines[i] == r && forall j :: 0 <= j < i ==> !MentionsPlace(lines[j])
    ensures r == "" <==> forall i :: 0 <= i < |lines| ==> !MentionsPlace(lines[i])
  {
    NoPlaceInEmpty();
    FindOr(lines, MentionsPlace, "")
  }

  /** The empty line names no place: every place word has a letter. */
  lemma NoPlaceInEmpty()
    ensures !MentionsPlace("")
  {
    forall w | w in PlaceWords ensures !Contains("", w) {
      assert w != "";
    }
  }
}
