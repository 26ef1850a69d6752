/**
  The AI assistant: re-read the bot's own homework report from a quoted
  message, answer the simple questions about it (who checked least, the
  top five, how many) without the AI, shape the prompt for everything
  else, cap the AI's reply, and for an uploaded spreadsheet check the
  file name and cap the table text put into the prompt. The AI service
  is a parameter: a function from prompt to reply, `None` where the call
  raises.
 */
module AiAssistant {
  import opened Wrappers
  import opened Strings
  import opened Sorting
  import HomeworkCheck

  /** One teacher recovered from a report line. */
  datatype Record = Record(name: string, issued: nat, checked: nat, pct: real)

  function PctOf(r: Record): real {
    r.pct
  }

  /** The key of `sorted(..., reverse=True)` by percentage. */
  function NegPctOf(r: Record): real {
    -r.pct
  }

  function Min(a: nat, b: nat): nat {
    if a <= b then a else b
  }

  // ---------------------------------------------------------------------
  // The record pattern, searched in multi-line mode:
  //   ^[•\-*]?\s*(?P<name>[^:\n]+):\s*[Пп]олучено\s*(?P<issued>[0-9]+)\s*\|
  //   \s*[Пп]роверено\s*(?P<checked>[0-9]+)\s*\|\s*(?P<pct>[0-9.,]+)%
  // Past the name's colon every element is followed by one that cannot
  // start with a character it takes, so that part matches in one way
  // only; the bullet and the spaces before the name are where the
  // engine backtracks.

  type Digits = s: string | AllDigits(s)

  /** The groups of one match, and the text after it. */
  datatype Match = Match(name: string, issued: Digits, checked: Digits, pct: string, rest: string)

  predicate IsBullet(c: char) {
    c == '•' || c == '-' || c == '*'
  }

  /** `\s*` and a word whose first letter is 'П' or 'п' and whose other letters are `tail`: what follows the word. */
  function Word(t: string, tail: string): (r: Option<string>)
    ensures r.Some? ==> |r.value| < |t|
  {
    var u := SkipSpaces(t);
    if |u| > |tail| && (u[0] == 'П' || u[0] == 'п') && u[1..|tail| + 1] == tail
    then Some(u[|tail| + 1..]) else None
  }

  /** `\s*[0-9]+`: the digits and what follows them. */
  function Number(t: string): (r: Option<(Digits, string)>)
    ensures r.Some? ==> |r.value.1| < |t|
  {
    var u := SkipSpaces(t);
    var after := DropDigits(u);
    if |after| < |u| then
      DigitsTaken(u);
      Some((u[..|u| - |after|], after))
    else None
  }

  /** `\s*\|`: what follows the bar. */
  function Bar(t: string): (r: Option<string>)
    ensures r.Some? ==> |r.value| < |t|
  {
    var u := SkipSpaces(t);
    if |u| > 0 && u[0] == '|' then Some(u[1..]) else None
  }

  predicate IsPctChar(c: char) {
    IsDigit(c) || c == '.' || c == ','
  }

  /** What a greedy `[0-9.,]*` leaves of `t`. */
  function DropPctChars(t: string): (r: string)
    ensures |r| <= |t|
  {
    if |t| > 0 && IsPctChar(t[0]) then DropPctChars(t[1..]) else t
  }

  /** `\s*[0-9.,]+%`: the number text and what follows the sign. */
  function Percent(t: string): (r: Option<(string, string)>)
    ensures r.Some? ==> |r.value.1| < |t|
  {
    var u := SkipSpaces(t);
    var after := DropPctChars(u);
    if |after| < |u| && |after| > 0 && after[0] == '%'
    then Some((u[..|u| - |after|], after[1..])) else None
  }

  /** The groups after the name, and the text after the match. */
  datatype Fields = Fields(issued: Digits, checked: Digits, pct: string, rest: string)

  /** What the pattern asks for after the name's colon. */
  function AfterColon(t: string): (r: Option<Fields>)
    ensures r.Some? ==> |r.value.rest| < |t|
  {
    match Word(t, "олучено")
    case None => None
    case Some(t1) =>
      match Number(t1)
      case None => None
      case Some((issued, t2)) =>
        match Bar(t2)
        case None => None
        case Some(t3) =>
          match Word(t3, "роверено")
          case None => None
          case Some(t4) =>
            match Number(t4)
            case None => None
            case Some((checked, t5)) =>
              match Bar(t5)
              case None => None
              case Some(t6) =>
                match Percent(t6)
                case None => None
                case Some((pct, rest)) => Some(Fields(issued, checked, pct, rest))
  }

  /** The length of the `[^:\n]*` run at the start of `t`. */
  function NameLength(t: string): (n: nat)
    ensures n <= |t|
    ensures forall j :: 0 <= j < n ==> t[j] != ':' && t[j] != '\n'
    ensures n < |t| ==> t[n] == ':' || t[n] == '\n'
  {
    if |t| > 0 && t[0] != ':' && t[0] != '\n' then 1 + NameLength(t[1..]) else 0
  }

  /**
    The match whose name starts at `start`: the greedy name run must be
    non-empty and end at a colon (a shorter run would end at a name
    character, so it cannot do better).
   */
  function Candidate(s: string, start: nat): (r: Option<Match>)
    requires start <= |s|
    ensures r.Some? ==> |r.value.rest| < |s| - start
  {
    var e := start + NameLength(s[start..]);
    if start < e < |s| && s[e] == ':' then
      match AfterColon(s[e + 1..])
      case None => None
      case Some(f) => Some(Match(s[start..e], f.issued, f.checked, f.pct, f.rest))
    else None
  }

  /** `\s*` before the name: `k` spaces after position `b` first, then one fewer at a time. */
  function BackOff(s: string, b: nat, k: nat): (r: Option<Match>)
    requires b + k <= |s|
    ensures r.Some? ==> |r.value.rest| < |s| - b && AfterPercent(s, r.value.rest)
  {
    var c := Candidate(s, b + k);
    if c.Some? then CandidateEnds(s, b + k); c
    else if k == 0 then c
    else BackOff(s, b, k - 1)
  }

  /** The match from position `b` on, the `\s*` starting with every space there. */
  function Head(s: string, b: nat): (r: Option<Match>)
    requires b <= |s|
    ensures r.Some? ==> |r.value.rest| < |s| - b && AfterPercent(s, r.value.rest)
  {
    BackOff(s, b, |s[b..]| - |SkipSpaces(s[b..])|)
  }

  /** The match at a line start: with the bullet when there is one, without it if that fails. */
  function MatchAt(s: string): (r: Option<Match>)
    ensures r.Some? ==> |r.value.rest| < |s|
  {
    var bulleted := if |s| > 0 && IsBullet(s[0]) then Head(s, 1) else None;
    if bulleted.Some? then bulleted else Head(s, 0)
  }

  /** What follows the first newline of `t`, where `^` next matches; nothing when there is none. */
  function NextLine(t: string): (r: string)
    ensures |r| <= |t| && (t != [] ==> |r| < |t|)
  {
    var i := IndexOf(t, '\n');
    if i < |t| then t[i + 1..] else []
  }

  /** `pattern.finditer(s)` under `re.MULTILINE`, `s` starting at a line start. */
  function Matches(s: string): seq<Match>
    decreases |s|
  {
    if s == [] then []
    else
      match MatchAt(s)
      case Some(m) => [m] + Matches(NextLine(m.rest))
      case None => Matches(NextLine(s))
  }

  // ---------------------------------------------------------------------
  // From matches to records

  /** `float(text.replace(',', '.'))`; `None` where `float` raises. */
  function PctValue(text: string): Option<real> {
    ParseUnsigned(ReplaceChar(text, ',', "."))
  }

  /** The record of one match; `None` where the percentage does not convert. */
  function ToRecord(m: Match): (r: Option<Record>)
    ensures r.Some? <==> PctValue(m.pct).Some?
    ensures r.Some? ==> r.value.name == Strip(m.name) && r.value.issued == DigitsValue(m.issued)
                        && r.value.checked == DigitsValue(m.checked) && r.value.pct >= 0.0
  {
    match PctValue(m.pct)
    case None => None
    case Some(v) => Some(Record(Strip(m.name), DigitsValue(m.issued), DigitsValue(m.checked), v))
  }

  function Listed(o: Option<Record>): seq<Record> {
    if o.Some? then [o.value] else []
  }

  /** The records of the matches, in match order. */
  function Records(ms: seq<Match>): seq<Record> {
    if ms == [] then [] else Records(ms[..|ms| - 1]) + Listed(ToRecord(ms[|ms| - 1]))
  }

  /** The extraction loop: a match whose percentage fails to convert is skipped, the loop goes on. */
  method CollectRecords(ms: seq<Match>) returns (records: seq<Record>)
    ensures records == Records(ms)
  {
    records := [];
    for i := 0 to |ms|
      invariant records == Records(ms[..i])
    {
      assert ms[..i + 1][..i] == ms[..i];
      match ToRecord(ms[i]) {
        case Some(r) => records := records + [r];
        case None =>
      }
    }
    assert ms[..|ms|] == ms;
  }

  /** The records found in a quoted text. */
  function Extract(text: string): seq<Record> {
    Records(Matches(text))
  }

  /** The records of two runs of matches are the records of each, in order. */
  lemma {:induction false} RecordsAppend(a: seq<Match>, b: seq<Match>)
    ensures Records(a + b) == Records(a) + Records(b)
    decreases |b|
  {
    if b == [] {
      assert a + b == a;
    } else {
      var init := b[..|b| - 1];
      var tail := Listed(ToRecord(b[|b| - 1]));
      RecordsAppend(a, init);
      DropLastOfAppend(a, b);
      assert Records(a + b) == Records(a + init) + tail;
      assert Records(b) == Records(init) + tail;
      AppendAssoc(Records(a), Records(init), tail);
    }
  }

  /** A match whose percentage does not convert is dropped and the matches after it still count. */
  lemma {:induction false} SkipsUnconvertible(before: seq<Match>, m: Match, after: seq<Match>)
    requires PctValue(m.pct).None?
    ensures Records(before + [m] + after) == Records(before) + Records(after)
  {
    var single := [m];
    assert Records(single) == [] by {
      assert single[..0] == [];
      assert ToRecord(m).None?;
    }
    RecordsAppend(before, single);
    RecordsAppend(before + single, after);
  }

  /** Every record comes from a match, and every match that converts gives its record. */
  lemma {:induction false} RecordsOfMatches(ms: seq<Match>)
    ensures forall r :: r in Records(ms) ==> exists m :: m in ms && ToRecord(m) == Some(r)
    ensures forall m :: m in ms && ToRecord(m).Some? ==> ToRecord(m).value in Records(ms)
    ensures |Records(ms)| <= |ms|
  {
    if ms != [] {
      var init := ms[..|ms| - 1];
      RecordsOfMatches(init);
      assert ms == init + [ms[|ms| - 1]];
      forall r | r in Records(ms) ensures exists m :: m in ms && ToRecord(m) == Some(r) {
        if r in Records(init) {
          var m :| m in init && ToRecord(m) == Some(r);
          assert m in ms;
        } else {
          assert ToRecord(ms[|ms| - 1]) == Some(r);
        }
      }
    }
  }

  // ---------------------------------------------------------------------
  // Where a match ends

  predicate SuffixOf(r: string, t: string) {
    |r| <= |t| && t[|t| - |r|..] == r
  }

  /** `rest` is what follows a '%' in `t`. */
  predicate AfterPercent(t: string, rest: string) {
    |rest| < |t| && t[|t| - |rest|..] == rest && t[|t| - |rest| - 1] == '%'
  }

  lemma SuffixOfSuffix(a: string, b: string, c: string)
    requires SuffixOf(a, b) && SuffixOf(b, c)
    ensures SuffixOf(a, c)
  {
    assert c[|c| - |a|..] == c[|c| - |b|..][|b| - |a|..];
  }

  lemma AfterPercentWithin(t: string, u: string, rest: string)
    requires SuffixOf(u, t) && AfterPercent(u, rest)
    ensures AfterPercent(t, rest)
  {
    SuffixOfSuffix(rest, u, t);
    assert t[|t| - |rest| - 1] == t[|t| - |u|..][|u| - |rest| - 1];
  }

  lemma SkipSpacesSuffix(t: string)
    ensures SuffixOf(SkipSpaces(t), t)
  {
    var sp := SpacesPrefix(t);
  }

  lemma {:induction false} DropPctCharsSuffix(t: string)
    ensures SuffixOf(DropPctChars(t), t)
  {
    if |t| > 0 && IsPctChar(t[0]) {
      DropPctCharsSuffix(t[1..]);
      SuffixOfSuffix(DropPctChars(t), t[1..], t);
    }
  }

  lemma {:induction false} DropDigitsSuffix(t: string)
    ensures SuffixOf(DropDigits(t), t)
  {
    var num := DigitsPrefix(t);
  }

  lemma WordSuffix(t: string, tail: string)
    requires Word(t, tail).Some?
    ensures SuffixOf(Word(t, tail).value, t)
  {
    var u := SkipSpaces(t);
    SkipSpacesSuffix(t);
    SuffixOfSuffix(u[|tail| + 1..], u, t);
  }

  lemma NumberSuffix(t: string)
    requires Number(t).Some?
    ensures SuffixOf(Number(t).value.1, t)
  {
    var u := SkipSpaces(t);
    SkipSpacesSuffix(t);
    DropDigitsSuffix(u);
    SuffixOfSuffix(DropDigits(u), u, t);
  }

  lemma BarSuffix(t: string)
    requires Bar(t).Some?
    ensures SuffixOf(Bar(t).value, t)
  {
    var u := SkipSpaces(t);
    SkipSpacesSuffix(t);
    SuffixOfSuffix(u[1..], u, t);
  }

  lemma PercentEnds(t: string)
    requires Percent(t).Some?
    ensures AfterPercent(t, Percent(t).value.1)
  {
    var u := SkipSpaces(t);
    SkipSpacesSuffix(t);
    var after := DropPctChars(u);
    DropPctCharsSuffix(u);
    SuffixOfSuffix(after, u, t);
    assert AfterPercent(after, after[1..]);
    AfterPercentWithin(t, after, after[1..]);
  }

  lemma AfterColonEnds(t: string)
    requires AfterColon(t).Some?
    ensures AfterPercent(t, AfterColon(t).value.rest)
  {
    var t1 := Word(t, "олучено").value;
    WordSuffix(t, "олучено");
    var t2 := Number(t1).value.1;
    NumberSuffix(t1);
    var t3 := Bar(t2).value;
    BarSuffix(t2);
    var t4 := Word(t3, "роверено").value;
    WordSuffix(t3, "роверено");
    var t5 := Number(t4).value.1;
    NumberSuffix(t4);
    var t6 := Bar(t5).value;
    BarSuffix(t5);
    PercentEnds(t6);
    AfterPercentWithin(t5, t6, AfterColon(t).value.rest);
    AfterPercentWithin(t4, t5, AfterColon(t).value.rest);
    AfterPercentWithin(t3, t4, AfterColon(t).value.rest);
    AfterPercentWithin(t2, t3, AfterColon(t).value.rest);
    AfterPercentWithin(t1, t2, AfterColon(t).value.rest);
    AfterPercentWithin(t, t1, AfterColon(t).value.rest);
  }

  lemma CandidateEnds(s: string, start: nat)
    requires start <= |s| && Candidate(s, start).Some?
    ensures AfterPercent(s, Candidate(s, start).value.rest)
  {
    var e := start + NameLength(s[start..]);
    var u := s[e + 1..];
    assert Candidate(s, start) == match AfterColon(u)
      case None => None
      case Some(g) => Some(Match(s[start..e], g.issued, g.checked, g.pct, g.rest));
    AfterColonEnds(u);
    AfterPercentWithin(s, u, AfterColon(u).value.rest);
  }

  /** A match ends just after a '%': what follows it is the rest of the text. */
  lemma MatchEndsAtPercent(s: string)
    requires MatchAt(s).Some?
    ensures AfterPercent(s, MatchAt(s).value.rest)
  {
    if |s| > 0 && IsBullet(s[0]) && Head(s, 1).Some? {
      assert MatchAt(s) == Head(s, 1);
    } else {
      assert MatchAt(s) == Head(s, 0);
    }
  }

  lemma MatchHasPercent(s: string)
    requires MatchAt(s).Some?
    ensures '%' in s
  {
    MatchEndsAtPercent(s);
    PercentAt(s, MatchAt(s).value.rest);
  }

  /** The character before what a match leaves is in the text. */
  lemma PercentAt(s: string, rest: string)
    requires AfterPercent(s, rest)
    ensures '%' in s
  {
    var k := |s| - |rest| - 1;
    assert s[k] == '%';
  }

  /** A text without a percent sign holds no record. */
  lemma {:induction false} NoPercentNoMatch(s: string)
    requires '%' !in s
    ensures Matches(s) == []
    decreases |s|
  {
    if s != [] {
      if MatchAt(s).Some? {
        MatchHasPercent(s);
      }
      var i := IndexOf(s, '\n');
      if i < |s| {
        assert forall c :: c in s[i + 1..] ==> c in s;
      }
      NoPercentNoMatch(NextLine(s));
    }
  }

  /** `\s*[0-9]+` succeeds exactly when the first character after the spaces is a digit. */
  lemma NumberNeedsDigit(t: string)
    ensures Number(t).Some? <==> (SkipSpaces(t) != [] && IsDigit(SkipSpaces(t)[0]))
  {
    var u := SkipSpaces(t);
    if u != [] && IsDigit(u[0]) {
      assert |DropDigits(u)| <= |u[1..]|;
    } else {
      assert DropDigits(u) == u;
    }
  }

  /** Counts that are not digits: a non-digit after "получено" or after "проверено" fails the pattern. */
  lemma NonDigitCountsRejected(t: string, t1: string)
    requires Word(t, "олучено") == Some(t1)
    requires !(SkipSpaces(t1) != [] && IsDigit(SkipSpaces(t1)[0]))
          || (Number(t1).Some? && Bar(Number(t1).value.1).Some?
              && Word(Bar(Number(t1).value.1).value, "роверено").Some?
              && var t4 := Word(Bar(Number(t1).value.1).value, "роверено").value;
                 !(SkipSpaces(t4) != [] && IsDigit(SkipSpaces(t4)[0])))
    ensures AfterColon(t) == None
  {
    NumberNeedsDigit(t1);
    if Number(t1).Some? {
      NumberNeedsDigit(Word(Bar(Number(t1).value.1).value, "роверено").value);
    }
  }

  // ---------------------------------------------------------------------
  // Reading the homework report back

  /** Text without a colon or a newline: the name group takes all of it. */
  predicate NameText(s: string) {
    forall j :: 0 <= j < |s| ==> s[j] != ':' && s[j] != '\n'
  }

  lemma {:induction false} NameLengthOver(name: string, y: string)
    requires NameText(name) && |y| > 0 && (y[0] == ':' || y[0] == '\n')
    ensures NameLength(name + y) == |name|
  {
    if name == [] {
      assert name + y == y;
    } else {
      assert (name + y)[0] == name[0];
      assert (name + y)[1..] == name[1..] + y;
      NameLengthOver(name[1..], y);
    }
  }

  lemma {:induction false} DropPctCharsOf(f: string, y: string)
    requires forall i :: 0 <= i < |f| ==> IsPctChar(f[i])
    requires y == [] || !IsPctChar(y[0])
    ensures DropPctChars(f + y) == y
  {
    if f == [] {
      assert f + y == y;
    } else {
      assert (f + y)[0] == f[0];
      assert (f + y)[1..] == f[1..] + y;
      DropPctCharsOf(f[1..], y);
    }
  }

  lemma WordOver(sp: string, w: string, x: string)
    requires AllSpace(sp) && |w| > 0 && (w[0] == 'П' || w[0] == 'п')
    ensures Word(sp + (w + x), w[1..]) == Some(x)
  {
    assert !IsSpace(w[0]);
    SkipSpacesOver(sp, w + x);
    var u := w + x;
    assert u[1..|w|] == w[1..];
    assert u[|w|..] == x;
  }

  lemma NumberOver(sp: string, n: string, y: string)
    requires AllSpace(sp) && |n| > 0 && AllDigits(n) && (y == [] || !IsDigit(y[0]))
    ensures Number(sp + (n + y)) == Some((n, y))
  {
    assert IsDigit(n[0]);
    SkipSpacesOver(sp, n + y);
    DropDigitsOf(n, y);
    assert (n + y)[..|n|] == n;
  }

  lemma BarOver(sp: string, x: string)
    requires AllSpace(sp)
    ensures Bar(sp + ("|" + x)) == Some(x)
  {
    SkipSpacesOver(sp, "|" + x);
    assert ("|" + x)[1..] == x;
  }

  lemma PercentOver(sp: string, f: string, x: string)
    requires AllSpace(sp) && |f| > 0 && (forall i :: 0 <= i < |f| ==> IsPctChar(f[i])) && !IsSpace(f[0])
    ensures Percent(sp + (f + ("%" + x))) == Some((f, x))
  {
    SkipSpacesOver(sp, f + ("%" + x));
    DropPctCharsOf(f, "%" + x);
    assert (f + ("%" + x))[..|f|] == f;
    assert ("%" + x)[1..] == x;
  }

  /** A literal chunk of a report line, cut into its pieces. */
  lemma Chunk(chunk: string, a: string, b: string, c: string, x: string)
    requires chunk == a + b + c
    ensures chunk + x == a + (b + (c + x))
  {
    AppendAssoc(a + b, c, x);
    AppendAssoc(a, b, c + x);
  }

  /** What a report line holds after its name's colon. */
  function CountsText(issued: string, checked: string, pct: string, tail: string): string {
    " получено " + (issued + (" | проверено " + (checked + (" | " + (pct + ("%" + tail))))))
  }

  lemma AfterColonOfCounts(issued: string, checked: string, pct: string, tail: string)
    requires |issued| > 0 && AllDigits(issued) && |checked| > 0 && AllDigits(checked)
    requires |pct| > 0 && (forall i :: 0 <= i < |pct| ==> IsPctChar(pct[i])) && !IsSpace(pct[0])
    ensures AfterColon(CountsText(issued, checked, pct, tail)) == Some(Fields(issued, checked, pct, tail))
  {
    var x6 := " | " + (pct + ("%" + tail));
    var x4 := " | проверено " + (checked + x6);
    PctPart(pct, tail);
    CheckedPart(checked, x6);
    IssuedPart(issued, x4);
    AfterColonSteps(CountsText(issued, checked, pct, tail), " " + (issued + x4), issued, x4,
                    " проверено " + (checked + x6), " " + (checked + x6), checked, x6,
                    " " + (pct + ("%" + tail)), pct, tail);
  }

  lemma IssuedPart(issued: string, x4: string)
    requires |issued| > 0 && AllDigits(issued) && |x4| > 0 && x4[0] == ' '
    ensures Word(" получено " + (issued + x4), "олучено") == Some(" " + (issued + x4))
    ensures Number(" " + (issued + x4)) == Some((issued, x4))
  {
    Chunk(" получено ", " ", "получено", " ", issued + x4);
    WordOver(" ", "получено", " " + (issued + x4));
    NumberOver(" ", issued, x4);
  }

  lemma CheckedPart(checked: string, x6: string)
    requires |checked| > 0 && AllDigits(checked) && |x6| > 0 && x6[0] == ' '
    ensures Bar(" | проверено " + (checked + x6)) == Some(" проверено " + (checked + x6))
    ensures Word(" проверено " + (checked + x6), "роверено") == Some(" " + (checked + x6))
    ensures Number(" " + (checked + x6)) == Some((checked, x6))
  {
    Chunk(" | проверено ", " ", "|", " проверено ", checked + x6);
    BarOver(" ", " проверено " + (checked + x6));
    Chunk(" проверено ", " ", "проверено", " ", checked + x6);
    WordOver(" ", "проверено", " " + (checked + x6));
    NumberOver(" ", checked, x6);
  }

  lemma PctPart(pct: string, tail: string)
    requires |pct| > 0 && (forall i :: 0 <= i < |pct| ==> IsPctChar(pct[i])) && !IsSpace(pct[0])
    ensures Bar(" | " + (pct + ("%" + tail))) == Some(" " + (pct + ("%" + tail)))
    ensures Percent(" " + (pct + ("%" + tail))) == Some((pct, tail))
  {
    Chunk(" | ", " ", "|", " ", pct + ("%" + tail));
    BarOver(" ", " " + (pct + ("%" + tail)));
    PercentOver(" ", pct, tail);
  }

  /** Each piece of the pattern after the colon, read in turn. */
  lemma AfterColonSteps(t: string, t1: string, issued: string, t2: string, t3: string, t4: string,
                        checked: string, t5: string, t6: string, pct: string, rest: string)
    requires Word(t, "олучено") == Some(t1) && Number(t1) == Some((issued, t2)) && Bar(t2) == Some(t3)
    requires Word(t3, "роверено") == Some(t4) && Number(t4) == Some((checked, t5)) && Bar(t5) == Some(t6)
    requires Percent(t6) == Some((pct, rest))
    ensures AfterColon(t) == Some(Fields(issued, checked, pct, rest))
  {
  }

  /** A homework report line the pattern reads back whole. */
  predicate Readable(p: HomeworkCheck.Problem) {
    p.name != [] && Trimmed(p.name) && NameText(p.name) && p.issued >= 0 && p.checked >= 0 && p.pct >= 0.0
  }

  /** The record a readable report line gives back: the percentage as the line shows it. */
  function Shown(p: HomeworkCheck.Problem): (r: Record)
    requires Readable(p)
    ensures r.name == p.name && r.issued == p.issued && r.checked == p.checked
    ensures r.pct - 0.05 <= p.pct < r.pct + 0.05
  {
    Record(p.name, p.issued, p.checked, Tenths(p.pct) as real / 10.0)
  }

  lemma PctTextOf(x: real)
    requires x >= 0.0
    ensures var f := FormatOneDecimal(x);
      |f| > 0 && (forall i :: 0 <= i < |f| ==> IsPctChar(f[i])) && !IsSpace(f[0]) && ',' !in f
  {
    var t := Tenths(x);
    var w := NatToString(t / 10);
    var d := NatToString(t % 10);
    var f := w + "." + d;
    assert FormatOneDecimal(x) == f;
    forall i | 0 <= i < |f| ensures IsPctChar(f[i]) {
      if i < |w| {
        assert f[i] == w[i];
      } else if i > |w| {
        assert f[i] == d[i - |w| - 1];
      }
    }
    assert IsDigit(f[0]);
  }

  /** A bulleted line "• name:…" whose text after the colon completes the pattern is matched with that name. */
  lemma BulletLineMatch(name: string, counts: string, f: Fields)
    requires name != [] && !IsSpace(name[0]) && NameText(name)
    requires AfterColon(counts) == Some(f)
    ensures MatchAt("•" + (" " + (name + (":" + counts)))) == Some(Match(name, f.issued, f.checked, f.pct, f.rest))
  {
    var rest := name + (":" + counts);
    var s := "•" + (" " + rest);
    assert s[2..] == rest;
    NamedCandidate(s, 2, name, counts, f);
    assert SkipSpaces(s[1..]) == rest by {
      assert s[1..] == " " + rest;
      assert rest[0] == name[0];
      SkipSpacesOver(" ", rest);
    }
    HeadAfterOneSpace(s);
    BulletTaken(s);
  }

  /** A name, its colon and readable counts from `start` on: the candidate match there. */
  lemma NamedCandidate(s: string, start: nat, name: string, counts: string, f: Fields)
    requires start <= |s| && s[start..] == name + (":" + counts)
    requires name != [] && NameText(name) && AfterColon(counts) == Some(f)
    ensures Candidate(s, start) == Some(Match(name, f.issued, f.checked, f.pct, f.rest))
  {
    NameLengthOver(name, ":" + counts);
    SplitAt(s, start, name, ':', counts);
    CandidateHit(s, start, start + |name|, name, counts, f);
  }

  /** Where the parts of a suffix lie in the whole. */
  lemma SplitAt<T>(s: seq<T>, start: nat, a: seq<T>, c: T, b: seq<T>)
    requires start <= |s| && s[start..] == a + ([c] + b)
    ensures start + |a| < |s| && s[start + |a|] == c
    ensures s[start..start + |a|] == a && s[start + |a| + 1..] == b
  {
    AroundSeparator(a, c, b);
    SliceOfSuffix(s, start, |a|);
    SliceOfSuffix(s, start, |a| + 1);
  }

  /** A name ending at a colon that readable counts follow: the candidate match. */
  lemma CandidateHit(s: string, start: nat, e: nat, name: string, counts: string, f: Fields)
    requires start < e < |s| && e == start + NameLength(s[start..]) && s[e] == ':'
    requires s[start..e] == name && s[e + 1..] == counts && AfterColon(counts) == Some(f)
    ensures Candidate(s, start) == Some(Match(name, f.issued, f.checked, f.pct, f.rest))
  {
    var u := s[e + 1..];
    assert Candidate(s, start) == match AfterColon(u)
      case None => None
      case Some(g) => Some(Match(s[start..e], g.issued, g.checked, g.pct, g.rest));
  }

  /** The parts around one separator element. */
  lemma AroundSeparator<T>(a: seq<T>, c: T, b: seq<T>)
    ensures (a + ([c] + b))[|a|] == c
    ensures (a + ([c] + b))[..|a|] == a
    ensures (a + ([c] + b))[|a| + 1..] == b
  {
  }

  /** Slicing a suffix is slicing the whole. */
  lemma SliceOfSuffix<T>(s: seq<T>, start: nat, k: nat)
    requires start + k <= |s|
    ensures s[start..][k..] == s[start + k..]
    ensures s[start..][..k] == s[start..start + k]
  {
  }

  /** After the bullet, one space and a name that does not start with a space: the name starts at 2. */
  lemma HeadAfterOneSpace(s: string)
    requires |s| >= 2 && |SkipSpaces(s[1..])| == |s| - 2 && Candidate(s, 2).Some?
    ensures Head(s, 1) == Candidate(s, 2)
  {
  }

  /** When the match with the bullet succeeds it is the match. */
  lemma BulletTaken(s: string)
    requires |s| > 0 && IsBullet(s[0]) && Head(s, 1).Some?
    ensures MatchAt(s) == Head(s, 1)
  {
  }

  lemma LineShape(n: string, i: string, c: string, f: string, tail: string)
    ensures "• " + n + ": получено " + i + " | проверено " + c + " | " + f + "%" + tail
         == "•" + (" " + (n + (":" + CountsText(i, c, f, tail))))
  {
    var l1 := "• " + n;
    var l2 := l1 + ": получено ";
    var l3 := l2 + i;
    var l4 := l3 + " | проверено ";
    var l5 := l4 + c;
    var l6 := l5 + " | ";
    var l7 := l6 + f;
    var r6 := " | " + (f + ("%" + tail));
    var r4 := " | проверено " + (c + r6);
    AppendAssoc(l7, "%", tail);
    AppendAssoc(l6, f, "%" + tail);
    AppendAssoc(l5, " | ", f + ("%" + tail));
    AppendAssoc(l4, c, r6);
    AppendAssoc(l3, " | проверено ", c + r6);
    AppendAssoc(l2, i, r4);
    AppendAssoc(l1, ": получено ", i + r4);
    var counts := CountsText(i, c, f, tail);
    Chunk(": получено ", ":", " получено ", "", i + r4);
    AppendAssoc("• ", n, ":" + counts);
    Chunk("• ", "•", " ", "", n + (":" + counts));
  }

  lemma ItemLineShape(p: HomeworkCheck.Problem, tail: string)
    requires p.issued >= 0 && p.checked >= 0
    ensures HomeworkCheck.ItemLine(p) + tail
         == "•" + (" " + (p.name + (":" + CountsText(NatToString(p.issued), NatToString(p.checked),
                                                     FormatOneDecimal(p.pct), tail))))
  {
    LineShape(p.name, NatToString(p.issued), NatToString(p.checked), FormatOneDecimal(p.pct), tail);
  }

  /** The match of a report line converts to the problem as the line shows it. */
  lemma ShownRecord(p: HomeworkCheck.Problem, tail: string)
    requires Readable(p)
    ensures ToRecord(Match(p.name, NatToString(p.issued), NatToString(p.checked), FormatOneDecimal(p.pct), tail))
         == Some(Shown(p))
  {
    var m := Match(p.name, NatToString(p.issued), NatToString(p.checked), FormatOneDecimal(p.pct), tail);
    var shown := Shown(p);
    ShownPctValue(p);
    StripOfTrimmed(p.name);
    NatToStringRoundTrip(p.issued);
    NatToStringRoundTrip(p.checked);
    RecordOfMatch(m, p.name, p.issued, p.checked, shown.pct);
    assert shown == Record(p.name, p.issued, p.checked, shown.pct);
  }

  /** The percentage as a report line shows it converts to the shown percentage. */
  lemma ShownPctValue(p: HomeworkCheck.Problem)
    requires Readable(p)
    ensures PctValue(FormatOneDecimal(p.pct)) == Some(Shown(p).pct)
  {
    var pct := FormatOneDecimal(p.pct);
    PctTextOf(p.pct);
    ReplaceCharAbsent(pct, ',', ".");
    assert pct == FormatTenths(Tenths(p.pct));
    ParseFormatTenths(Tenths(p.pct));
  }

  /** A match whose parts convert: its record holds the converted parts. */
  lemma RecordOfMatch(m: Match, name: string, issued: nat, checked: nat, pct: real)
    requires AllDigits(m.issued) && AllDigits(m.checked)
    requires Strip(m.name) == name && DigitsValue(m.issued) == issued && DigitsValue(m.checked) == checked
    requires PctValue(m.pct) == Some(pct)
    ensures ToRecord(m) == Some(Record(name, issued, checked, pct))
  {
  }

  /** A report line, followed by nothing or by more text, is matched whole; the match gives back the problem. */
  lemma ItemLineReadsBack(p: HomeworkCheck.Problem, tail: string)
    requires Readable(p)
    ensures MatchAt(HomeworkCheck.ItemLine(p) + tail).Some?
    ensures MatchAt(HomeworkCheck.ItemLine(p) + tail).value.rest == tail
    ensures ToRecord(MatchAt(HomeworkCheck.ItemLine(p) + tail).value) == Some(Shown(p))
  {
    var issued := NatToString(p.issued);
    var checked := NatToString(p.checked);
    var pct := FormatOneDecimal(p.pct);
    PctTextOf(p.pct);
    ItemLineShape(p, tail);
    var counts := CountsText(issued, checked, pct, tail);
    var f := Fields(issued, checked, pct, tail);
    AfterColonOfCounts(issued, checked, pct, tail);
    BulletLineMatch(p.name, counts, f);
    ShownRecord(p, tail);
  }

  /** The records the extractor gives back for a run of readable problems. */
  function ShownAll(ps: seq<HomeworkCheck.Problem>): (rs: seq<Record>)
    requires forall i :: 0 <= i < |ps| ==> Readable(ps[i])
    ensures |rs| == |ps| && forall i :: 0 <= i < |ps| ==> rs[i] == Shown(ps[i])
  {
    seq(|ps|, i requires 0 <= i < |ps| && Readable(ps[i]) => Shown(ps[i]))
  }

  lemma JoinCons(a: string, rest: seq<string>)
    requires |rest| > 0
    ensures Join([a] + rest, "\n") == a + ("\n" + Join(rest, "\n"))
  {
    assert ([a] + rest)[1..] == rest;
    AppendAssoc(a, "\n", Join(rest, "\n"));
  }

  lemma NextLineOf(line: string, z: string)
    requires '\n' !in line
    ensures NextLine(line + ("\n" + z)) == z
  {
    var t := line + ("\n" + z);
    assert t[|line|] == '\n';
    assert forall j :: 0 <= j < |line| ==> t[j] == line[j];
    assert IndexOf(t, '\n') == |line|;
    assert t[|line| + 1..] == z;
  }

  lemma OneRecord(m: Match)
    ensures Records([m]) == Listed(ToRecord(m))
  {
    assert [m][..0] == [];
  }

  /** A text whose first line is matched whole: that match, then the matches of the lines after it. */
  lemma MatchedLine(s: string, rest: string)
    requires MatchAt(s).Some? && MatchAt(s).value.rest == "\n" + rest
    ensures Extract(s) == Records([MatchAt(s).value]) + Extract(rest)
  {
    NextLineOf([], rest);
    assert [] + ("\n" + rest) == "\n" + rest;
    RecordsAppend([MatchAt(s).value], Matches(rest));
  }

  /** A text that is one line matched whole. */
  lemma MatchedLast(s: string)
    requires MatchAt(s).Some? && MatchAt(s).value.rest == []
    ensures Extract(s) == Records([MatchAt(s).value])
  {
    var m := MatchAt(s).value;
    assert NextLine(m.rest) == [];
    assert Matches(s) == [m] + [];
    assert [m] + [] == [m];
  }

  /** A first line that matches nothing adds no record. */
  lemma SkippedLine(s: string, rest: string)
    requires s != [] && MatchAt(s).None? && NextLine(s) == rest
    ensures Extract(s) == Extract(rest)
  {
  }

  /** A report line followed by more lines gives its record first. */
  lemma ItemLineThen(p: HomeworkCheck.Problem, rest: string)
    requires Readable(p)
    ensures Extract(HomeworkCheck.ItemLine(p) + ("\n" + rest)) == [Shown(p)] + Extract(rest)
  {
    var s := HomeworkCheck.ItemLine(p) + ("\n" + rest);
    ItemLineReadsBack(p, "\n" + rest);
    MatchedLine(s, rest);
    OneRecord(MatchAt(s).value);
  }

  /** A report line alone gives its record. */
  lemma ItemLineAlone(p: HomeworkCheck.Problem)
    requires Readable(p)
    ensures Extract(HomeworkCheck.ItemLine(p)) == [Shown(p)]
  {
    var s := HomeworkCheck.ItemLine(p);
    ItemLineReadsBack(p, "");
    assert s + "" == s;
    MatchedLast(s);
    OneRecord(MatchAt(s).value);
  }

  lemma JoinFirst(lines: seq<string>)
    requires |lines| > 1
    ensures Join(lines, "\n") == lines[0] + ("\n" + Join(lines[1..], "\n"))
  {
    AppendAssoc(lines[0], "\n", Join(lines[1..], "\n"));
  }

  lemma ShownFirst(ps: seq<HomeworkCheck.Problem>)
    requires |ps| > 0 && forall i :: 0 <= i < |ps| ==> Readable(ps[i])
    ensures ShownAll(ps) == [Shown(ps[0])] + ShownAll(ps[1..])
  {
  }

  lemma ItemLinesFirst(ps: seq<HomeworkCheck.Problem>)
    requires |ps| > 0
    ensures HomeworkCheck.ItemLines(ps)[0] == HomeworkCheck.ItemLine(ps[0])
    ensures HomeworkCheck.ItemLines(ps)[1..] == HomeworkCheck.ItemLines(ps[1..])
  {
  }

  /** Report lines joined by newlines are read back one record per line, in order. */
  lemma {:induction false} ItemLinesReadBack(ps: seq<HomeworkCheck.Problem>)
    requires |ps| > 0 && forall i :: 0 <= i < |ps| ==> Readable(ps[i])
    ensures Extract(Join(HomeworkCheck.ItemLines(ps), "\n")) == ShownAll(ps)
    decreases |ps|
  {
    var lines := HomeworkCheck.ItemLines(ps);
    ItemLinesFirst(ps);
    ShownFirst(ps);
    if |ps| == 1 {
      ItemLineAlone(ps[0]);
    } else {
      ItemLinesReadBack(ps[1..]);
      JoinFirst(lines);
      ItemLineThen(ps[0], Join(lines[1..], "\n"));
    }
  }

  /** A line "body:" whose colon is not followed by the counts matches nothing. */
  lemma ColonLineNoMatch(body: string, y: string)
    requires NameText(body) && |body| > 0 && !IsBullet(body[0]) && !IsSpace(body[0])
    requires SkipSpaces(y) == [] || (SkipSpaces(y)[0] != 'П' && SkipSpaces(y)[0] != 'п')
    ensures MatchAt(body + (":" + y)) == None
  {
    var s := body + (":" + y);
    assert s[0] == body[0];
    assert SkipSpaces(s) == s;
    NameLengthOver(body, ":" + y);
    assert s[|body|] == ':';
    assert s[|body| + 1..] == y;
    assert AfterColon(y) == None;
    assert Candidate(s, 0) == None;
  }

  /** A line without a colon or a newline matches nothing, and nothing follows it. */
  lemma PlainLineNoMatch(line: string)
    requires NameText(line) && |line| > 0 && !IsBullet(line[0]) && !IsSpace(line[0])
    ensures MatchAt(line) == None
    ensures NextLine(line) == []
  {
    assert SkipSpaces(line) == line;
    assert NameLength(line) == |line|;
    assert Candidate(line, 0) == None;
    assert IndexOf(line, '\n') == |line|;
  }

  lemma NameTextConcat(a: string, b: string)
    requires NameText(a) && NameText(b)
    ensures NameText(a + b)
  {
    assert forall j :: |a| <= j < |a + b| ==> (a + b)[j] == b[j - |a|];
  }

  /** The words of the report's fixed lines hold no colon and no newline. */
  lemma ReportWordText(w: string)
    requires w == "✅ отчет по " || w == "проверке " || w == "домашних " || w == "заданий за "
          || w == "✅ все " || w == "преподаватели " || w == "проверили ≥ 70% "
          || w == "месяц" || w == "неделю" || w == "."
    ensures NameText(w)
  {
  }

  /** The title of the report, without its colon. */
  lemma TitleBodyText(period: string, a: string, b: string, c: string, d: string)
    requires a == "✅ отчет по " && b == "проверке " && c == "домашних " && d == "заданий за "
    ensures NameText(a + b + c + d + HomeworkCheck.PeriodText(period))
    ensures a + b + c + d == "✅ отчет по проверке домашних заданий за "
  {
    var e := HomeworkCheck.PeriodText(period);
    ReportWordText(a); ReportWordText(b); ReportWordText(c); ReportWordText(d); ReportWordText(e);
    NameTextConcat(a, b); NameTextConcat(a + b, c); NameTextConcat(a + b + c, d); NameTextConcat(a + b + c + d, e);
    TitlePrefix(a, b, c, d);
  }

  lemma TitlePrefix(a: string, b: string, c: string, d: string)
    requires a == "✅ отчет по " && b == "проверке " && c == "домашних " && d == "заданий за "
    ensures a + b + c + d == "✅ отчет по проверке домашних заданий за "
  {
    assert a + b == "✅ отчет по проверке ";
    assert a + b + c == "✅ отчет по проверке домашних ";
  }

  /** The title of the report matches nothing. */
  lemma TitleNoMatch(period: string, z: string)
    requires SkipSpaces(z) == [] || (SkipSpaces(z)[0] != 'П' && SkipSpaces(z)[0] != 'п')
    ensures MatchAt(HomeworkCheck.Title(period) + ("\n" + z)) == None
    ensures NextLine(HomeworkCheck.Title(period) + ("\n" + z)) == z
  {
    var body := "✅ отчет по проверке домашних заданий за " + HomeworkCheck.PeriodText(period);
    TitleBodyText(period, "✅ отчет по ", "проверке ", "домашних ", "заданий за ");
    assert body[0] == '✅';
    assert HomeworkCheck.Title(period) == body + ":";
    AppendAssoc(body, ":", "\n" + z);
    assert SkipSpaces("\n" + z) == SkipSpaces(z);
    ColonLineNoMatch(body, "\n" + z);
    assert '\n' !in body + ":" by {
      var line := body + ":";
      assert forall j :: 0 <= j < |line| ==> line[j] != '\n' by {
        assert forall j :: 0 <= j < |body| ==> line[j] == body[j];
      }
    }
    NextLineOf(body + ":", z);
  }

  lemma CountBodyText(body: string)
    requires body == "⚠️ преподавателей с проверкой < 70%"
    ensures NameText(body) && |body| > 0 && !IsBullet(body[0]) && !IsSpace(body[0])
  {
  }

  /** The count line of the report matches nothing. */
  lemma CountLineNoMatch(n: nat, z: string)
    ensures MatchAt(HomeworkCheck.CountLine(n) + ("\n" + z)) == None
    ensures NextLine(HomeworkCheck.CountLine(n) + ("\n" + z)) == z
  {
    var body := "⚠️ преподавателей с проверкой < 70%";
    CountBodyText(body);
    var num := NatToString(n);
    assert HomeworkCheck.CountLine(n) == body + ":" + " " + num;
    var y := " " + (num + ("\n" + z));
    assert HomeworkCheck.CountLine(n) + ("\n" + z) == body + (":" + y);
    assert IsDigit(num[0]);
    SkipSpacesOver(" ", num + ("\n" + z));
    ColonLineNoMatch(body, y);
    assert forall j :: 0 <= j < |num| ==> IsDigit(num[j]);
    assert '\n' !in HomeworkCheck.CountLine(n);
    NextLineOf(HomeworkCheck.CountLine(n), z);
  }

  lemma AllClearText(period: string, a: string, b: string, c: string, d: string, e: string)
    requires a == "✅ все " && b == "преподаватели " && c == "проверили ≥ 70% " && d == "заданий за " && e == "."
    ensures NameText(a + b + c + d + HomeworkCheck.PeriodText(period) + e)
    ensures a + b + c + d == "✅ все преподаватели проверили ≥ 70% заданий за "
  {
    var p := HomeworkCheck.PeriodText(period);
    ReportWordText(a); ReportWordText(b); ReportWordText(c); ReportWordText(d); ReportWordText(p); ReportWordText(e);
    NameTextConcat(a, b); NameTextConcat(a + b, c); NameTextConcat(a + b + c, d);
    NameTextConcat(a + b + c + d, p); NameTextConcat(a + b + c + d + p, e);
    AllClearPrefix(a, b, c, d);
  }

  lemma AllClearPrefix(a: string, b: string, c: string, d: string)
    requires a == "✅ все " && b == "преподаватели " && c == "проверили ≥ 70% " && d == "заданий за "
    ensures a + b + c + d == "✅ все преподаватели проверили ≥ 70% заданий за "
  {
    assert a + b == "✅ все преподаватели ";
    assert a + b + c == "✅ все преподаватели проверили ≥ 70% ";
  }

  /** The all-clear line of the report matches nothing, and ends the text. */
  lemma AllClearNoMatch(period: string)
    ensures MatchAt(HomeworkCheck.AllClear(period)) == None
    ensures NextLine(HomeworkCheck.AllClear(period)) == []
  {
    AllClearText(period, "✅ все ", "преподаватели ", "проверили ≥ 70% ", "заданий за ", ".");
    assert HomeworkCheck.AllClear(period)[0] == '✅';
    PlainLineNoMatch(HomeworkCheck.AllClear(period));
  }

  /**
    The extractor reads the bot's own homework report back: one record per
    listed teacher, in report order, with the name, both counts and the
    percentage as the report shows it; the all-clear report gives none.
   */
  lemma ReportReadsBack(ps: seq<HomeworkCheck.Problem>, period: string)
    requires forall i :: 0 <= i < |ps| ==> Readable(ps[i])
    ensures Extract(Join(HomeworkCheck.ReportLines(ps, period), "\n")) == ShownAll(ps)
  {
    HomeworkCheck.ReportShape(ps, period);
    var lines := HomeworkCheck.ReportLines(ps, period);
    var title := HomeworkCheck.Title(period);
    JoinFirst(lines);
    var after := Join(lines[1..], "\n");
    if ps == [] {
      var clear := HomeworkCheck.AllClear(period);
      assert lines[1..] == [clear];
      assert after == clear;
      AllClearNoMatch(period);
      SkippedLine(clear, []);
      AllClearStart(period);
      TitleNoMatch(period, clear);
      SkippedLine(title + ("\n" + clear), clear);
    } else {
      var count := HomeworkCheck.CountLine(|ps|);
      var rest := Join(HomeworkCheck.ItemLines(ps), "\n");
      assert lines[1..] == [count] + HomeworkCheck.ItemLines(ps);
      JoinFirst(lines[1..]);
      assert lines[1..][1..] == HomeworkCheck.ItemLines(ps);
      assert after == count + ("\n" + rest);
      CountLineNoMatch(|ps|, rest);
      SkippedLine(after, rest);
      CountLineStart(|ps|, rest);
      TitleNoMatch(period, after);
      SkippedLine(title + ("\n" + after), after);
      ItemLinesReadBack(ps);
    }
  }

  lemma AllClearStart(period: string)
    ensures SkipSpaces(HomeworkCheck.AllClear(period)) == HomeworkCheck.AllClear(period)
    ensures HomeworkCheck.AllClear(period)[0] == '✅'
  {
    var a := "✅ все ";
    AllClearText(period, a, "преподаватели ", "проверили ≥ 70% ", "заданий за ", ".");
    assert a[0] == '✅';
  }

  lemma CountLineStart(n: nat, rest: string)
    ensures SkipSpaces(HomeworkCheck.CountLine(n) + ("\n" + rest)) == HomeworkCheck.CountLine(n) + ("\n" + rest)
    ensures (HomeworkCheck.CountLine(n) + ("\n" + rest))[0] == '⚠'
  {
  }

  // ---------------------------------------------------------------------
  // Answers

  const LeastKeys: seq<string> := ["кто меньше", "кто меньше всех", "кто наименее", "least", "меньше всех провер"]
  const TopKeys: seq<string> := ["топ", "первые", "наиб", "лучше"]
  const TopSize: nat := 5
  const PromptRecords: nat := 50

  /** What the question about a quoted report gets: an answer made here, or a prompt for the AI. */
  datatype Answer = Worst(worst: Record) | Top(top: seq<Record>) | Count(n: nat) | Prompt(prompt: string)

  /** `sorted(records, key=pct, reverse=True)[:5]`. */
  function TopFive(records: seq<Record>): seq<Record> {
    var sorted := SortBy(records, NegPctOf);
    SortByPermutes(records, NegPctOf);
    assert |sorted| == |multiset(sorted)| == |records|;
    sorted[..Min(TopSize, |records|)]
  }

  /** "{name}: issued=…, checked=…, pct=…" */
  function RecordLine(r: Record): string {
    r.name + ": issued=" + NatToString(r.issued) + ", checked=" + NatToString(r.checked)
      + ", pct=" + FormatOneDecimal(r.pct)
  }

  function RecordLines(rs: seq<Record>): (lines: seq<string>)
    ensures |lines| == |rs|
    ensures forall i :: 0 <= i < |rs| ==> lines[i] == RecordLine(rs[i])
  {
    seq(|rs|, i requires 0 <= i < |rs| => RecordLine(rs[i]))
  }

  const ParsedTitle: string := "разобранный отчет (из сообщения):"
  const ParsedSubtitle: string := "преподаватели с проблемами:"

  function QuestionLine(question: string): string {
    "\nвопрос пользователя: " + question
  }

  /** The lines of the default prompt: two titles, the first fifty records, the question. */
  function PromptLines(records: seq<Record>, question: string): seq<string> {
    [ParsedTitle, ParsedSubtitle] + RecordLines(records[..Min(PromptRecords, |records|)])
      + [QuestionLine(question)]
  }

  /** The default branch: the prompt is built line by line, at most fifty records. */
  method BuildPrompt(records: seq<Record>, question: string) returns (prompt: string)
    ensures prompt == Join(PromptLines(records, question), "\n")
  {
    var sb := [ParsedTitle, ParsedSubtitle];
    var n := Min(PromptRecords, |records|);
    for i := 0 to n
      invariant sb == [ParsedTitle, ParsedSubtitle] + RecordLines(records[..i])
    {
      assert records[..i + 1] == records[..i] + [records[i]];
      sb := sb + [RecordLine(records[i])];
    }
    sb := sb + [QuestionLine(question)];
    prompt := Join(sb, "\n");
  }

  /**
    The answer to `question` about the records of a quoted report: the
    keywords are looked for in the lower-cased question, the "least" ones
    first, then the "top" ones, then "сколько" with "преподав".
   */
  function Dispatch(records: seq<Record>, question: string): (a: Answer)
    requires records != []
    ensures a.Worst? <==> ContainsAny(Lower(question), LeastKeys)
    ensures a.Top? <==> !ContainsAny(Lower(question), LeastKeys) && ContainsAny(Lower(question), TopKeys)
    ensures a.Worst? ==> a.worst in records && forall r :: r in records ==> a.worst.pct <= r.pct
    ensures a.Worst? ==> exists m :: 0 <= m < |records| && records[m] == a.worst
                                     && forall j :: 0 <= j < m ==> records[j].pct > a.worst.pct
    ensures a.Count? <==> !ContainsAny(Lower(question), LeastKeys) && !ContainsAny(Lower(question), TopKeys)
                          && Contains(Lower(question), "сколько")
                          && (Contains(Lower(question), "преподав") || Contains(Lower(question), "преподавателей"))
    ensures a.Top? ==> a.top == TopFive(records)
    ensures a.Count? ==> a.n == |records|
    ensures a.Prompt? ==> a.prompt == Join(PromptLines(records, question), "\n")
  {
    var q := Lower(question);
    if ContainsAny(q, LeastKeys) then
      var m := FirstMin(records, PctOf);
      Worst(records[m])
    else if ContainsAny(q, TopKeys) then Top(TopFive(records))
    else if Contains(q, "сколько") && (Contains(q, "преподав") || Contains(q, "преподавателей"))
    then Count(|records|)
    else Prompt(Join(PromptLines(records, question), "\n"))
  }

  /** In a list sorted by descending percentage, a prefix is descending and outranks the rest. */
  lemma DescendingPrefix(sorted: seq<Record>, n: nat)
    requires n <= |sorted| && SortedBy(sorted, NegPctOf)
    ensures forall i, j :: 0 <= i < j < n ==> sorted[i].pct >= sorted[j].pct
    ensures forall r, t :: r in multiset(sorted[n..]) && t in sorted[..n] ==> t.pct >= r.pct
  {
    forall r, t | r in multiset(sorted[n..]) && t in sorted[..n] ensures t.pct >= r.pct {
      var k :| 0 <= k < |sorted[n..]| && sorted[n..][k] == r;
      var i :| 0 <= i < n && sorted[..n][i] == t;
      assert NegPctOf(sorted[i]) <= NegPctOf(sorted[n + k]);
    }
    forall i, j | 0 <= i < j < n ensures sorted[i].pct >= sorted[j].pct {
      assert NegPctOf(sorted[i]) <= NegPctOf(sorted[j]);
    }
  }

  /**
    The top answer: at most five records, highest percentage first, taken
    from the records, and no record left out has a higher percentage than
    one shown.
   */
  lemma TopFiveIsTop(records: seq<Record>)
    ensures |TopFive(records)| == Min(TopSize, |records|)
    ensures forall i, j :: 0 <= i < j < |TopFive(records)| ==> TopFive(records)[i].pct >= TopFive(records)[j].pct
    ensures multiset(TopFive(records)) <= multiset(records)
    ensures forall r, t :: r in multiset(records) - multiset(TopFive(records)) && t in TopFive(records) ==> t.pct >= r.pct
  {
    var sorted := SortBy(records, NegPctOf);
    SortBySorted(records, NegPctOf);
    SortByPermutes(records, NegPctOf);
    assert |sorted| == |multiset(sorted)| == |records|;
    var top := TopFive(records);
    var n := Min(TopSize, |records|);
    assert top == sorted[..n];
    DescendingPrefix(sorted, n);
    PrefixLeaves(sorted, n);
  }

  /** What a prefix leaves of a sequence, as a multiset. */
  lemma PrefixLeaves<T>(s: seq<T>, n: nat)
    requires n <= |s|
    ensures multiset(s[..n]) <= multiset(s)
    ensures multiset(s) - multiset(s[..n]) == multiset(s[n..])
  {
    assert s == s[..n] + s[n..];
  }

  /** The text of the quoted message: its text, else its caption, if either is non-empty. */
  function Quoted(text: Option<string>, caption: Option<string>): (r: Option<string>)
    ensures r.Some? ==> r.value != [] && (r == text || r == caption)
    ensures text.Some? && text.value != [] ==> r == text
    ensures r.None? <==> (text.None? || text.value == []) && (caption.None? || caption.value == [])
  {
    if text.Some? && text.value != [] then text
    else if caption.Some? && caption.value != [] then caption
    else None
  }

  /** The message a question replies to: its text and its caption, each possibly absent. */
  datatype Reply = Reply(text: Option<string>, caption: Option<string>)

  /** The quoted text of the message replied to, if there is one and it holds text or a caption. */
  function QuotedOf(reply: Option<Reply>): (r: Option<string>)
    ensures r.Some? ==> reply.Some? && r.value != []
    ensures r.None? <==> reply.None? || Quoted(reply.value.text, reply.value.caption).None?
  {
    if reply.Some? then Quoted(reply.value.text, reply.value.caption) else None
  }

  /** The prompt when the quoted message holds no record. */
  function ContextPrompt(quoted: string, question: string): string {
    "контекст (сообщение):\n" + quoted + "\n\nвопрос пользователя: " + question
  }

  /** The answer to a non-empty stripped question, quoting a message or not. */
  function Compose(question: string, quoted: Option<string>): (a: Answer)
    ensures quoted.None? ==> a == Prompt(question)
    ensures quoted.Some? && Extract(quoted.value) == [] ==> a == Prompt(ContextPrompt(quoted.value, question))
    ensures quoted.Some? && Extract(quoted.value) != [] ==> a == Dispatch(Extract(quoted.value), question)
  {
    match quoted
    case None => Prompt(question)
    case Some(t) =>
      var records := Extract(t);
      if records != [] then Dispatch(records, question) else Prompt(ContextPrompt(t, question))
  }

  // ---------------------------------------------------------------------
  // Replies

  const MaxReply: nat := 4000

  /** A reply over 4000 characters becomes its first 3980 and "...". */
  function CapReply(reply: string): (c: string)
    ensures |c| <= MaxReply
    ensures |reply| <= MaxReply ==> c == reply
    ensures |reply| > MaxReply ==> |c| == MaxReply - 17 && c[..MaxReply - 20] == reply[..MaxReply - 20]
                                   && EndsWith(c, "...")
  {
    if |reply| > MaxReply then reply[..MaxReply - 20] + "..." else reply
  }

  /** "👎 наименее проверял: {name} — {checked}/{issued} ({pct:.1f}%)" */
  function WorstText(r: Record): string {
    "👎 наименее проверял: " + r.name + " — " + NatToString(r.checked) + "/" + NatToString(r.issued)
      + " (" + FormatOneDecimal(r.pct) + "%)"
  }

  function TopLine(r: Record): string {
    "• " + r.name + ": " + NatToString(r.checked) + "/" + NatToString(r.issued)
      + " (" + FormatOneDecimal(r.pct) + "%)"
  }

  function TopLines(rs: seq<Record>): (lines: seq<string>)
    ensures |lines| == |rs|
    ensures forall i :: 0 <= i < |rs| ==> lines[i] == TopLine(rs[i])
  {
    seq(|rs|, i requires 0 <= i < |rs| => TopLine(rs[i]))
  }

  function TopText(rs: seq<Record>): string {
    Join(["топ 5 преподавателей по % проверки:"] + TopLines(rs), "\n")
  }

  function CountText(n: nat): string {
    "⚠️ преподавателей с проблемой: " + NatToString(n)
  }

  /** How a message to the assistant ends. */
  datatype Outcome =
    | AskForText          // the question is empty or blank
    | AskForFile          // no document was attached
    | Unsupported         // the file is not .xls or .xlsx
    | Answered(text: string)  // answered from the quoted report, without the AI
    | Failed              // the AI call, or reading the file, raised
    | EmptyReply          // the AI answered with nothing
    | Sent(reply: string) // the AI's reply, capped

  /** The AI's reply, as the handler passes it on. */
  function Delivered(reply: Option<string>): (o: Outcome)
    ensures reply.None? <==> o == Failed
    ensures o == EmptyReply <==> reply == Some([])
    ensures reply.Some? && reply.value != [] ==> o == Sent(CapReply(reply.value))
    ensures o.Sent? ==> reply.Some? && reply.value != [] && |o.reply| <= MaxReply
  {
    match reply
    case None => Failed
    case Some(r) => if r == [] then EmptyReply else Sent(CapReply(r))
  }

  /** A text message to the assistant, possibly replying to another message. */
  function QueryOutcome(text: Option<string>, reply: Option<Reply>, ai: string -> Option<string>): (o: Outcome)
    ensures (text.None? || AllSpace(text.value)) <==> o == AskForText
    ensures text.Some? && !AllSpace(text.value) && QuotedOf(reply).None? ==> o == Delivered(ai(Strip(text.value)))
  {
    var question := if text.Some? then Strip(text.value) else "";
    StripEmptyIffBlank(if text.Some? then text.value else "");
    if question == [] then AskForText else Respond(Compose(question, QuotedOf(reply)), ai)
  }

  /** What the handler sends for an answer: the text it composed itself, or the AI's reply to the prompt. */
  function Respond(a: Answer, ai: string -> Option<string>): (o: Outcome)
    ensures a.Prompt? ==> o == Delivered(ai(a.prompt))
    ensures a.Worst? ==> o == Answered(WorstText(a.worst))
    ensures a.Top? ==> o == Answered(TopText(a.top))
    ensures a.Count? ==> o == Answered(CountText(a.n))
    ensures o.Answered? <==> !a.Prompt?
    ensures o != AskForText && o != AskForFile && o != Unsupported
  {
    match a
    case Worst(r) => Answered(WorstText(r))
    case Top(rs) => Answered(TopText(rs))
    case Count(n) => Answered(CountText(n))
    case Prompt(p) => Delivered(ai(p))
  }

  /** The query handler: the records are collected and the default prompt is built by the loops above. */
  method ProcessQuery(text: Option<string>, reply: Option<Reply>, ai: string -> Option<string>)
    returns (o: Outcome)
    ensures o == QueryOutcome(text, reply, ai)
  {
    var question := if text.Some? then Strip(text.value) else "";
    StripEmptyIffBlank(if text.Some? then text.value else "");
    if question == [] {
      return AskForText;
    }
    var quoted := QuotedOf(reply);
    if quoted.None? {
      return Delivered(ai(question));
    }
    o := AnswerQuoted(quoted.value, question, ai);
  }

  /** A question quoting a message: the records are collected and the default prompt is built by the loops above. */
  method AnswerQuoted(quoted: string, question: string, ai: string -> Option<string>) returns (o: Outcome)
    ensures o == Respond(Compose(question, Some(quoted)), ai)
  {
    var records := CollectRecords(Matches(quoted));
    if records == [] {
      return Delivered(ai(ContextPrompt(quoted, question)));
    }
    var a := Dispatch(records, question);
    if a.Prompt? {
      var prompt := BuildPrompt(records, question);
      return Delivered(ai(prompt));
    }
    o := Respond(a, ai);
  }

  // ---------------------------------------------------------------------
  // Uploaded spreadsheets

  /** An attached document: its file name ("" when it has none) and the message caption ("" when none). */
  datatype Upload = Upload(fileName: string, caption: string)

  /** One sheet of the workbook, with its table as `to_csv` writes it. */
  datatype SheetText = SheetText(name: string, csv: string)

  /** `name.lower().endswith((".xls", ".xlsx"))` */
  predicate Spreadsheet(name: string) {
    EndsWith(Lower(name), ".xls") || EndsWith(Lower(name), ".xlsx")
  }

  /** A lower-case ending `w` of the lower-cased name: the name ends with `w` up to letter case. */
  lemma LowerEndsWith(name: string, w: string)
    requires forall i :: 0 <= i < |w| ==> LowerChar(w[i]) == w[i]
    ensures EndsWith(Lower(name), w) <==> |w| <= |name| && SameIgnoringCase(name[|name| - |w|..], w)
  {
    var low := Lower(name);
    assert |low| == |name|;
    if |w| <= |name| {
      var k := |name| - |w|;
      LowerSuffix(name, low, k);
      LoweredTail(name[k..], low[k..], w);
    }
  }

  /** Each character of a suffix of the lowered name is the lowered character of the name's suffix. */
  lemma LowerSuffix(name: string, low: string, k: nat)
    requires low == Lower(name) && k <= |name|
    ensures |low[k..]| == |name[k..]|
    ensures forall i :: 0 <= i < |name| - k ==> low[k..][i] == LowerChar(name[k..][i])
  {
    forall i | 0 <= i < |name| - k ensures low[k..][i] == LowerChar(name[k..][i]) {
      assert low[k..][i] == low[k + i];
      assert name[k..][i] == name[k + i];
    }
  }

  /** A lowered text equals a lower-case `w` exactly when the text equals `w` up to letter case. */
  lemma LoweredTail(tail: string, lowTail: string, w: string)
    requires |tail| == |lowTail| == |w|
    requires forall i :: 0 <= i < |w| ==> lowTail[i] == LowerChar(tail[i])
    requires forall i :: 0 <= i < |w| ==> LowerChar(w[i]) == w[i]
    ensures lowTail == w <==> SameIgnoringCase(tail, w)
  {
    if SameIgnoringCase(tail, w) {
      assert forall i :: 0 <= i < |w| ==> lowTail[i] == w[i];
    }
  }

  /** The file-name test ignores letter case: it asks for a case-insensitive ".xls" or ".xlsx" ending. */
  lemma SpreadsheetIgnoresCase(name: string)
    ensures Spreadsheet(name) <==>
      (|name| >= 4 && SameIgnoringCase(name[|name| - 4..], ".xls"))
      || (|name| >= 5 && SameIgnoringCase(name[|name| - 5..], ".xlsx"))
  {
    LowerEndsWith(name, ".xls");
    LowerEndsWith(name, ".xlsx");
  }

  function SheetParts(sheets: seq<SheetText>): (parts: seq<string>)
    ensures |parts| == 2 * |sheets|
    ensures forall i :: 0 <= i < |sheets| ==>
      parts[2 * i] == "--- sheet: " + sheets[i].name + " ---" && parts[2 * i + 1] == sheets[i].csv
  {
    if sheets == [] then []
    else SheetParts(sheets[..|sheets| - 1]) + ["--- sheet: " + sheets[|sheets| - 1].name + " ---", sheets[|sheets| - 1].csv]
  }

  const MaxContent: nat := 15000
  const CutMark: string := "\n... (сокращено)"

  /** Content over 15000 characters becomes its first 14800 and a cut mark. */
  function Snippet(content: string): (s: string)
    ensures |s| <= MaxContent
    ensures |content| <= MaxContent ==> s == content
    ensures |content| > MaxContent ==> |s| == MaxContent - 200 + |CutMark|
                                       && s[..MaxContent - 200] == content[..MaxContent - 200]
                                       && EndsWith(s, CutMark)
  {
    if |content| > MaxContent then content[..MaxContent - 200] + CutMark else content
  }

  const Instruction: string := "пользователь загрузил excel-файл. проанализируй таблицы и дай краткое резюме, выдели ключевые столбцы/строки, возможные аномалии, агрегаты и рекомендации.\n\n"
  const Closing: string := "\nexcel end:\nотвечай подробно, но лаконично."

  function FilePrompt(task: string, snippet: string): string {
    if task != [] then "задача от пользователя: " + task + "\n\n" + Instruction + "excel start:\n" + snippet + Closing
    else Instruction + "excel start:\n" + snippet + Closing
  }

  /** A document sent to the assistant; `sheets` is `None` where the workbook cannot be read. */
  function FileOutcome(doc: Option<Upload>, sheets: Option<seq<SheetText>>, ai: string -> Option<string>): (o: Outcome)
    ensures doc.None? <==> o == AskForFile
    ensures doc.Some? ==> (o == Unsupported <==> !Spreadsheet(if doc.value.fileName == [] then "file" else doc.value.fileName))
  {
    match doc
    case None => AskForFile
    case Some(d) =>
      var name := if d.fileName == [] then "file" else d.fileName;
      if !Spreadsheet(name) then Unsupported
      else
        match sheets
        case None => Failed
        case Some(ss) => Delivered(ai(FilePrompt(Strip(d.caption), Snippet(Join(SheetParts(ss), "\n")))))
  }
}
