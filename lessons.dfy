/**
  The lesson-topic check: pick the topic column, test every stripped
  topic against the pattern "Урок № N. Тема: …", number the malformed
  ones by spreadsheet row, and send the result either as one message or,
  when there are malformed topics, as greedily packed chunks of at most
  4000 characters.
 */
module Lessons {
  import opened Wrappers
  import opened Strings
  import opened Sheets

  /** A column label: a string, or a label of another type (a number, NaN). */
  datatype Header = Named(text: string) | Unnamed

  /** A sheet read with the first row as header. */
  datatype Sheet = Sheet(columns: seq<Header>, rows: seq<seq<Cell>>)

  const TopicHeader: string := "Тема урока"

  /** The longest message the packing aims for. */
  const MaxLen: nat := 4000

  /** At most this many malformed topics are listed in the summary. */
  const SummaryCap: nat := 100

  // ---------------------------------------------------------------------
  // The topic column

  /** The first column labelled exactly "Тема урока". */
  function FirstExact(cols: seq<Header>): (r: Option<nat>)
    ensures r.Some? ==> r.value < |cols| && cols[r.value] == Named(TopicHeader)
    ensures r.Some? ==> forall j :: 0 <= j < r.value ==> cols[j] != Named(TopicHeader)
    ensures r.None? ==> forall j :: 0 <= j < |cols| ==> cols[j] != Named(TopicHeader)
  {
    if cols == [] then None
    else
      match FirstExact(cols[..|cols| - 1])
      case Some(j) => Some(j)
      case None => if cols[|cols| - 1] == Named(TopicHeader) then Some(|cols| - 1) else None
  }

  /** A string label whose lower-cased text contains "тема". */
  predicate MentionsTopic(h: Header) {
    h.Named? && Contains(Lower(h.text), "тема")
  }

  function FirstMentioning(cols: seq<Header>): (r: Option<nat>)
    ensures r.Some? ==> r.value < |cols| && MentionsTopic(cols[r.value])
    ensures r.Some? ==> forall j :: 0 <= j < r.value ==> !MentionsTopic(cols[j])
    ensures r.None? ==> forall j :: 0 <= j < |cols| ==> !MentionsTopic(cols[j])
  {
    if cols == [] then None
    else
      match FirstMentioning(cols[..|cols| - 1])
      case Some(j) => Some(j)
      case None => if MentionsTopic(cols[|cols| - 1]) then Some(|cols| - 1) else None
  }

  /** Column `j` holds at least one cell that is not NaN. */
  predicate Filled(rows: seq<seq<Cell>>, j: nat) {
    exists r :: 0 <= r < |rows| && At(rows[r], j).Text?
  }

  /** The first of the columns `0..n-1` that holds a value. */
  function FirstFilled(rows: seq<seq<Cell>>, n: nat): (r: Option<nat>)
    ensures r.Some? ==> r.value < n && Filled(rows, r.value)
    ensures r.Some? ==> forall j :: 0 <= j < r.value ==> !Filled(rows, j)
    ensures r.None? ==> forall j :: 0 <= j < n ==> !Filled(rows, j)
  {
    if n == 0 then None
    else
      match FirstFilled(rows, n - 1)
      case Some(j) => Some(j)
      case None => if Filled(rows, n - 1) then Some(n - 1) else None
  }

  /**
    The topic column: the one labelled "Тема урока", else the first string
    label mentioning "тема", else the first column holding any value.
   */
  function TopicColumn(df: Sheet): Option<nat> {
    match FirstExact(df.columns)
    case Some(j) => Some(j)
    case None =>
      match FirstMentioning(df.columns)
      case Some(j) => Some(j)
      case None => FirstFilled(df.rows, |df.columns|)
  }

  /** The three steps in order, and the column chosen is always a column of the sheet. */
  lemma TopicColumnChoice(df: Sheet)
    ensures TopicColumn(df).Some? ==> TopicColumn(df).value < |df.columns|
    ensures FirstExact(df.columns).Some? ==> TopicColumn(df) == FirstExact(df.columns)
    ensures FirstExact(df.columns).None? && FirstMentioning(df.columns).Some? ==>
      TopicColumn(df) == FirstMentioning(df.columns)
    ensures FirstExact(df.columns).None? && FirstMentioning(df.columns).None? ==>
      TopicColumn(df) == FirstFilled(df.rows, |df.columns|)
    ensures TopicColumn(df).None? <==>
      (forall j :: 0 <= j < |df.columns| ==> df.columns[j] != Named(TopicHeader) && !MentionsTopic(df.columns[j])
                                             && !Filled(df.rows, j))
  {
  }

  /** The stripped text of every topic cell; an empty cell reads as "nan". */
  function Topics(df: Sheet, col: nat): (t: seq<string>)
    ensures |t| == |df.rows|
    ensures forall i :: 0 <= i < |t| ==> t[i] == Strip(CellStr(At(df.rows[i], col)))
  {
    seq(|df.rows|, i requires 0 <= i < |df.rows| => Strip(CellStr(At(df.rows[i], col))))
  }

  // ---------------------------------------------------------------------
  // The topic pattern: ^Урок\s*№\s*\d+\.?\s*Тема\s*:\s*.+ , ignoring case

  /** `t` begins with `w`, letter case aside. */
  predicate StartsWithWord(t: string, w: string) {
    |w| <= |t| && SameIgnoringCase(t[..|w|], w)
  }

  /** `\s*.+` matches at the start of `t` exactly when `t` holds a character other than a newline. */
  predicate HasNonNewline(t: string) {
    exists k :: 0 <= k < |t| && t[k] != '\n'
  }

  /** `\s*:\s*.+` */
  predicate AfterTopicWord(t: string) {
    var u := SkipSpaces(t);
    |u| > 0 && u[0] == ':' && HasNonNewline(u[1..])
  }

  /** `\s*Тема\s*:\s*.+` */
  predicate AfterNumber(t: string) {
    var u := SkipSpaces(t);
    StartsWithWord(u, "Тема") && AfterTopicWord(u[4..])
  }

  /** `\s*\d+\.?\s*Тема…`: the digits are greedy, the point optional. */
  predicate AfterSign(t: string) {
    var u := SkipSpaces(t);
    var r := DropDigits(u);
    |r| < |u| && AfterNumber(if |r| > 0 && r[0] == '.' then r[1..] else r)
  }

  /** `\s*№\s*\d+…` */
  predicate AfterLesson(t: string) {
    var u := SkipSpaces(t);
    |u| > 0 && u[0] == '№' && AfterSign(u[1..])
  }

  /** `re.match` of the topic pattern: anchored at the start only, ignoring case. */
  predicate WellFormed(s: string) {
    StartsWithWord(s, "Урок") && AfterLesson(s[4..])
  }

  /** The pattern read as a sequence of pieces, one per element of the expression. */
  predicate Decomposes(s: string, lesson: string, sp1: string, sp2: string, num: string, dot: string,
                       sp3: string, topic: string, sp4: string, sp5: string, rest: string)
  {
    s == lesson + (sp1 + ("№" + (sp2 + (num + (dot + (sp3 + (topic + (sp4 + (":" + (sp5 + rest))))))))))
    && SameIgnoringCase(lesson, "Урок") && AllSpace(sp1) && AllSpace(sp2)
    && |num| > 0 && AllDigits(num) && (dot == "" || dot == ".") && AllSpace(sp3)
    && SameIgnoringCase(topic, "Тема") && AllSpace(sp4) && AllSpace(sp5)
    && |rest| > 0 && rest[0] != '\n'
  }

  /** A letter that lower-cases to a Cyrillic letter is neither a space, a digit nor a point. */
  lemma CyrillicLetter(c: char, w: char)
    requires LowerChar(c) == LowerChar(w) && 'а' <= LowerChar(w) <= 'я'
    ensures !IsSpace(c) && !IsDigit(c) && c != '.'
  {
  }

  lemma TopicWordTail(sp4: string, sp5: string, rest: string)
    requires AllSpace(sp4) && AllSpace(sp5) && |rest| > 0 && rest[0] != '\n'
    ensures AfterTopicWord(sp4 + (":" + (sp5 + rest)))
  {
    SkipSpacesOver(sp4, ":" + (sp5 + rest));
    assert (":" + (sp5 + rest))[1..] == sp5 + rest;
    assert (sp5 + rest)[|sp5|] == rest[0];
  }

  lemma NumberTail(sp3: string, topic: string, t9: string)
    requires AllSpace(sp3) && SameIgnoringCase(topic, "Тема") && AfterTopicWord(t9)
    ensures AfterNumber(sp3 + (topic + t9))
  {
    CyrillicLetter(topic[0], "Тема"[0]);
    SkipSpacesOver(sp3, topic + t9);
    assert (topic + t9)[..4] == topic;
    assert (topic + t9)[4..] == t9;
  }

  lemma SignTail(sp2: string, num: string, dot: string, t7: string)
    requires AllSpace(sp2) && |num| > 0 && AllDigits(num)
    requires dot == "." || (dot == "" && (t7 == [] || (!IsDigit(t7[0]) && t7[0] != '.')))
    requires AfterNumber(t7)
    ensures AfterSign(sp2 + (num + (dot + t7)))
  {
    var t5 := num + (dot + t7);
    assert t5[0] == num[0];
    SkipSpacesOver(sp2, t5);
    if dot == "." {
      DropDigitsOf(num, dot + t7);
      assert (dot + t7)[1..] == t7;
    } else {
      assert dot + t7 == t7;
      DropDigitsOf(num, t7);
    }
  }

  lemma LessonTail(sp1: string, t4: string)
    requires AllSpace(sp1) && AfterSign(t4)
    ensures AfterLesson(sp1 + ("№" + t4))
  {
    SkipSpacesOver(sp1, "№" + t4);
    assert ("№" + t4)[1..] == t4;
  }

  /** Every text built from the pattern's pieces is accepted. */
  lemma WellFormedComplete(s: string, lesson: string, sp1: string, sp2: string, num: string, dot: string,
                           sp3: string, topic: string, sp4: string, sp5: string, rest: string)
    requires Decomposes(s, lesson, sp1, sp2, num, dot, sp3, topic, sp4, sp5, rest)
    ensures WellFormed(s)
  {
    var t9 := sp4 + (":" + (sp5 + rest));
    TopicWordTail(sp4, sp5, rest);
    var t7 := sp3 + (topic + t9);
    NumberTail(sp3, topic, t9);
    CyrillicLetter(topic[0], "Тема"[0]);
    assert t7[0] == (if sp3 != [] then sp3[0] else topic[0]);
    var t4 := sp2 + (num + (dot + t7));
    SignTail(sp2, num, dot, t7);
    var t2 := sp1 + ("№" + t4);
    LessonTail(sp1, t4);
    assert s[..4] == lesson;
    assert s[4..] == t2;
  }

  lemma TopicWordParts(t: string) returns (sp4: string, sp5: string, rest: string)
    requires AfterTopicWord(t)
    ensures t == sp4 + (":" + (sp5 + rest))
    ensures AllSpace(sp4) && AllSpace(sp5) && |rest| > 0 && rest[0] != '\n'
  {
    var u := SkipSpaces(t);
    sp4 := SpacesPrefix(t);
    var v := u[1..];
    assert u == ":" + v;
    sp5, rest := NewlinesThenText(v);
  }

  /** A text holding a character other than a newline: the newlines before it, then the rest from it. */
  lemma NewlinesThenText(v: string) returns (sp: string, rest: string)
    requires HasNonNewline(v)
    ensures v == sp + rest && AllSpace(sp) && |rest| > 0 && rest[0] != '\n'
  {
    var k :| 0 <= k < |v| && v[k] != '\n';
    var k0 := FirstNonNewline(v, k);
    sp := v[..k0];
    rest := v[k0..];
    assert v == sp + rest;
  }

  lemma NumberParts(t: string) returns (sp3: string, topic: string, t9: string)
    requires AfterNumber(t)
    ensures t == sp3 + (topic + t9)
    ensures AllSpace(sp3) && SameIgnoringCase(topic, "Тема") && AfterTopicWord(t9)
  {
    var u := SkipSpaces(t);
    sp3 := SpacesPrefix(t);
    topic := u[..4];
    t9 := u[4..];
    assert u == topic + t9;
  }

  lemma SignParts(t: string) returns (sp2: string, num: string, dot: string, t7: string)
    requires AfterSign(t)
    ensures t == sp2 + (num + (dot + t7))
    ensures AllSpace(sp2) && |num| > 0 && AllDigits(num) && (dot == "" || dot == ".") && AfterNumber(t7)
  {
    var u := SkipSpaces(t);
    sp2 := SpacesPrefix(t);
    var r := DropDigits(u);
    num := DigitsPrefix(u);
    dot := if |r| > 0 && r[0] == '.' then "." else "";
    t7 := r[|dot|..];
    assert r == dot + t7;
  }

  lemma LessonParts(t: string) returns (sp1: string, t4: string)
    requires AfterLesson(t)
    ensures t == sp1 + ("№" + t4)
    ensures AllSpace(sp1) && AfterSign(t4)
  {
    var u := SkipSpaces(t);
    sp1 := SpacesPrefix(t);
    t4 := u[1..];
    assert u == "№" + t4;
  }

  /** Every accepted text splits into the pattern's pieces. */
  lemma WellFormedSound(s: string)
      returns (lesson: string, sp1: string, sp2: string, num: string, dot: string,
               sp3: string, topic: string, sp4: string, sp5: string, rest: string)
    requires WellFormed(s)
    ensures Decomposes(s, lesson, sp1, sp2, num, dot, sp3, topic, sp4, sp5, rest)
  {
    lesson := s[..4];
    var t2 := s[4..];
    var t4;
    sp1, t4 := LessonParts(t2);
    var t7;
    sp2, num, dot, t7 := SignParts(t4);
    var t9;
    sp3, topic, t9 := NumberParts(t7);
    sp4, sp5, rest := TopicWordParts(t9);
    assert s == lesson + t2;
  }

  /** The first character of `t` that is not a newline, found at or before `k`. */
  lemma FirstNonNewline(t: string, k: nat) returns (k0: nat)
    requires k < |t| && t[k] != '\n'
    ensures k0 <= k && t[k0] != '\n'
    ensures AllSpace(t[..k0])
  {
    k0 := 0;
    while t[k0] == '\n'
      invariant k0 <= k
      invariant forall i :: 0 <= i < k0 ==> t[i] == '\n'
      decreases k - k0
    {
      k0 := k0 + 1;
    }
  }

  /** A topic in the expected form is accepted; one without "Урок №" is not. */
  lemma TopicExamples()
    ensures WellFormed("Урок № 5. Тема: Дроби")
    ensures !WellFormed("Тема: Дроби")
  {
    GoodTopic();
    BadTopic();
  }

  lemma GoodTopic()
    ensures WellFormed("Урок № 5. Тема: Дроби")
  {
    var good := "Урок № 5. Тема: Дроби";
    assert Decomposes(good, "Урок", " ", " ", "5", ".", " ", "Тема", "", " ", "Дроби");
    WellFormedComplete(good, "Урок", " ", " ", "5", ".", " ", "Тема", "", " ", "Дроби");
  }

  lemma BadTopic()
    ensures !WellFormed("Тема: Дроби")
  {
    var bad := "Тема: Дроби";
    assert LowerChar(bad[0]) != LowerChar("Урок"[0]);
  }

  // ---------------------------------------------------------------------
  // Classification

  /** A malformed topic and its spreadsheet row: the data index plus two (one header row, counting from 1). */
  datatype Flagged = Flagged(row: nat, text: string)

  function CorrectOf(topics: seq<string>): seq<string> {
    if topics == [] then []
    else
      var last := topics[|topics| - 1];
      CorrectOf(topics[..|topics| - 1]) + (if WellFormed(last) then [last] else [])
  }

  function IncorrectOf(topics: seq<string>): seq<Flagged> {
    if topics == [] then []
    else
      var last := topics[|topics| - 1];
      IncorrectOf(topics[..|topics| - 1]) + (if WellFormed(last) then [] else [Flagged(|topics| + 1, last)])
  }

  /** The classification loop. */
  method Classify(topics: seq<string>) returns (correct: seq<string>, incorrect: seq<Flagged>)
    ensures correct == CorrectOf(topics)
    ensures incorrect == IncorrectOf(topics)
  {
    correct, incorrect := [], [];
    for i := 0 to |topics|
      invariant correct == CorrectOf(topics[..i])
      invariant incorrect == IncorrectOf(topics[..i])
    {
      assert topics[..i + 1][..i] == topics[..i];
      var text := topics[i];
      if WellFormed(text) {
        correct := correct + [text];
      } else {
        incorrect := incorrect + [Flagged(i + 2, text)];
      }
    }
    assert topics[..|topics|] == topics;
  }

  /**
    Every topic is either correct or incorrect, never both: the correct
    topics are exactly the well-formed ones, each as often as it occurs.
   */
  lemma Partition(topics: seq<string>)
    ensures |CorrectOf(topics)| + |IncorrectOf(topics)| == |topics|
    ensures forall i :: 0 <= i < |CorrectOf(topics)| ==> WellFormed(CorrectOf(topics)[i])
    ensures forall t :: multiset(CorrectOf(topics))[t] == if WellFormed(t) then multiset(topics)[t] else 0
  {
    PartitionCounts(topics);
    CorrectExactly(topics);
  }

  lemma {:induction false} PartitionCounts(topics: seq<string>)
    ensures |CorrectOf(topics)| + |IncorrectOf(topics)| == |topics|
    ensures forall i :: 0 <= i < |CorrectOf(topics)| ==> WellFormed(CorrectOf(topics)[i])
  {
    if topics != [] {
      PartitionCounts(topics[..|topics| - 1]);
    }
  }

  /** The correct topics are the well-formed ones, each as often as it occurs. */
  lemma {:induction false} CorrectExactly(topics: seq<string>)
    ensures forall t :: multiset(CorrectOf(topics))[t] == if WellFormed(t) then multiset(topics)[t] else 0
  {
    if topics != [] {
      var init := topics[..|topics| - 1];
      var last := topics[|topics| - 1];
      CorrectExactly(init);
      assert topics == init + [last];
      assert multiset(topics) == multiset(init) + multiset{last};
      assert CorrectOf(topics) == CorrectOf(init) + (if WellFormed(last) then [last] else []);
    }
  }

  /** The list of malformed topics grows by the last topic exactly when it is malformed. */
  lemma IncorrectSnoc(topics: seq<string>)
    requires topics != []
    ensures var last := topics[|topics| - 1];
      IncorrectOf(topics) == IncorrectOf(topics[..|topics| - 1]) + (if WellFormed(last) then [] else [Flagged(|topics| + 1, last)])
  {
  }

  /** Each flagged entry is a malformed topic carrying its own row number (index plus two). */
  lemma {:induction false} IncorrectEntries(topics: seq<string>)
    ensures var inc := IncorrectOf(topics);
      forall i :: 0 <= i < |inc| ==>
        2 <= inc[i].row < |topics| + 2 && topics[inc[i].row - 2] == inc[i].text && !WellFormed(inc[i].text)
  {
    if topics != [] {
      var init := topics[..|topics| - 1];
      IncorrectEntries(init);
      IncorrectSnoc(topics);
      forall k | 0 <= k < |init| ensures init[k] == topics[k] {}
    }
  }

  /** The rows of the flagged entries strictly increase. */
  lemma {:induction false} IncorrectAscending(topics: seq<string>)
    ensures var inc := IncorrectOf(topics);
      forall i, j :: 0 <= i < j < |inc| ==> inc[i].row < inc[j].row
  {
    if topics != [] {
      var init := topics[..|topics| - 1];
      IncorrectAscending(init);
      IncorrectEntries(init);
      IncorrectSnoc(topics);
    }
  }

  /** No malformed topic is missed. */
  lemma {:induction false} IncorrectComplete(topics: seq<string>)
    ensures forall k :: 0 <= k < |topics| && !WellFormed(topics[k]) ==> Flagged(k + 2, topics[k]) in IncorrectOf(topics)
  {
    if topics != [] {
      var init := topics[..|topics| - 1];
      IncorrectComplete(init);
      IncorrectSnoc(topics);
      forall k | 0 <= k < |init| ensures init[k] == topics[k] {}
    }
  }

  /**
    Each flagged entry is a malformed topic carrying its own row number
    (index plus two), the rows strictly increase, and no malformed topic is
    missed.
   */
  lemma IncorrectRows(topics: seq<string>)
    ensures var inc := IncorrectOf(topics);
      && (forall i :: 0 <= i < |inc| ==>
            2 <= inc[i].row < |topics| + 2 && topics[inc[i].row - 2] == inc[i].text && !WellFormed(inc[i].text))
      && (forall i, j :: 0 <= i < j < |inc| ==> inc[i].row < inc[j].row)
      && (forall k :: 0 <= k < |topics| && !WellFormed(topics[k]) ==> Flagged(k + 2, topics[k]) in inc)
  {
    IncorrectEntries(topics);
    IncorrectAscending(topics);
    IncorrectComplete(topics);
  }

  // ---------------------------------------------------------------------
  // The summary

  function ItemLine(f: Flagged): string {
    "• [строка " + NatToString(f.row) + "] " + f.text
  }

  function ItemLines(fs: seq<Flagged>): (r: seq<string>)
    ensures |r| == |fs|
    ensures forall i :: 0 <= i < |fs| ==> r[i] == ItemLine(fs[i])
  {
    seq(|fs|, i requires 0 <= i < |fs| => ItemLine(fs[i]))
  }

  /** The five lines every report starts with. */
  function HeadLines(correct: nat, incorrect: nat): (r: seq<string>)
    ensures |r| == 5
  {
    ["📚 Отчет по темам занятий", "", "✅ Корректных тем: " + NatToString(correct),
     "❌ Некорректных тем: " + NatToString(incorrect), ""]
  }

  function MoreLine(n: nat): string {
    "... и ещё " + NatToString(n) + " некорректных."
  }

  /** The report: the head, then the first hundred malformed topics and a count of the rest, or the all-clear line. */
  function ReportLines(correct: nat, inc: seq<Flagged>): seq<string> {
    var shown := if |inc| > SummaryCap then inc[..SummaryCap] else inc;
    var tail := if |inc| > SummaryCap then [MoreLine(|inc| - SummaryCap)] else [];
    HeadLines(correct, |inc|)
      + (if inc != [] then ["примеры некорректных тем (первые 100):"] + ItemLines(shown) + tail
         else ["🎉 Все темы в правильном формате!"])
  }

  /**
    The summary lists at most a hundred malformed topics, the first ones in
    row order, and adds the count of the others exactly when there are more
    than a hundred.
   */
  lemma SummaryCapped(correct: nat, inc: seq<Flagged>)
    requires inc != []
    ensures var lines := ReportLines(correct, inc);
      var shown := if |inc| > SummaryCap then SummaryCap else |inc|;
      && |lines| == 6 + shown + (if |inc| > SummaryCap then 1 else 0)
      && lines[..5] == HeadLines(correct, |inc|)
      && (forall i :: 0 <= i < shown ==> lines[6 + i] == ItemLine(inc[i]))
      && (|inc| > SummaryCap ==> lines[|lines| - 1] == MoreLine(|inc| - SummaryCap))
  {
    var shown := if |inc| > SummaryCap then inc[..SummaryCap] else inc;
    var tail := if |inc| > SummaryCap then [MoreLine(|inc| - SummaryCap)] else [];
    var items := ItemLines(shown);
    var head := HeadLines(correct, |inc|);
    assert ReportLines(correct, inc) == head + (["примеры некорректных тем (первые 100):"] + items + tail);
    Layout(head, "примеры некорректных тем (первые 100):", items, tail);
  }

  /** Where the pieces of a report land in the joined list of lines. */
  lemma Layout<T>(head: seq<T>, title: T, items: seq<T>, tail: seq<T>)
    requires |head| == 5
    ensures var l := head + ([title] + items + tail);
      && |l| == 6 + |items| + |tail|
      && l[..5] == head
      && (forall i :: 0 <= i < |items| ==> l[6 + i] == items[i])
      && (|tail| == 1 ==> l[|l| - 1] == tail[0])
  {
    var l := head + ([title] + items + tail);
    assert l[..5] == head;
  }

  // ---------------------------------------------------------------------
  // Packing into messages

  function Concat(parts: seq<string>): string {
    if parts == [] then "" else parts[0] + Concat(parts[1..])
  }

  /** Each line with its newline. */
  function Terminated(lines: seq<string>): (r: seq<string>)
    ensures |r| == |lines|
    ensures forall i :: 0 <= i < |lines| ==> r[i] == lines[i] + "\n"
  {
    seq(|lines|, i requires 0 <= i < |lines| => lines[i] + "\n")
  }

  /**
    Greedy packing from the chunk `cur` under way: a line joins the chunk
    when the result stays within 4000 characters, and otherwise the chunk is
    sent and the line starts the next one; the last chunk is sent unless it
    is blank.
   */
  function PackFrom(cur: string, lines: seq<string>): seq<string>
    decreases |lines|
  {
    if lines == [] then (if Strip(cur) != [] then [cur] else [])
    else
      var candidate := cur + lines[0] + "\n";
      if |candidate| > MaxLen then [cur] + PackFrom(lines[0] + "\n", lines[1..])
      else PackFrom(candidate, lines[1..])
  }

  /** The packing loop: the chunks it sends, in order. */
  method PackChunks(header: string, lines: seq<string>) returns (chunks: seq<string>)
    ensures chunks == PackFrom(header, lines)
  {
    chunks := [];
    var cur := header;
    for i := 0 to |lines|
      invariant chunks + PackFrom(cur, lines[i..]) == PackFrom(header, lines)
    {
      assert lines[i..][1..] == lines[i + 1..];
      var candidate := cur + lines[i] + "\n";
      if |candidate| > MaxLen {
        chunks := chunks + [cur];
        cur := lines[i] + "\n";
      } else {
        cur := candidate;
      }
    }
    assert lines[|lines|..] == [];
    if Strip(cur) != [] {
      chunks := chunks + [cur];
    }
  }

  predicate NonBlank(s: string) {
    !AllSpace(s)
  }

  lemma NonBlankExtends(a: string, b: string)
    requires NonBlank(a)
    ensures NonBlank(a + b) && NonBlank(b + a)
  {
    var i :| 0 <= i < |a| && !IsSpace(a[i]);
    assert (a + b)[i] == a[i];
    assert (b + a)[|b| + i] == a[i];
  }

  /** Every text holds some visible character. */
  predicate AllNonBlank(texts: seq<string>) {
    forall i :: 0 <= i < |texts| ==> NonBlank(texts[i])
  }

  /** The first text, then the others. */
  lemma ConcatCons(x: string, rest: seq<string>)
    ensures Concat([x] + rest) == x + Concat(rest)
  {
    assert ([x] + rest)[1..] == rest;
  }

  /** The first line with its newline, then the others with theirs. */
  lemma TerminatedCons(lines: seq<string>)
    requires lines != []
    ensures Concat(Terminated(lines)) == (lines[0] + "\n") + Concat(Terminated(lines[1..]))
  {
    var t := Terminated(lines);
    assert t[1..] == Terminated(lines[1..]);
  }

  /**
    The sent chunks, put back together, are the chunk under way followed
    by every line with its newline, in order, each exactly once.
   */
  lemma {:induction false} PackConcat(cur: string, lines: seq<string>)
    requires NonBlank(cur) && AllNonBlank(lines)
    ensures Concat(PackFrom(cur, lines)) == cur + Concat(Terminated(lines))
    decreases |lines|
  {
    if lines == [] {
      StripEmptyIffBlank(cur);
      assert Concat([cur]) == cur + Concat([]);
    } else {
      var l := lines[0] + "\n";
      var rest := lines[1..];
      var candidate := cur + lines[0] + "\n";
      TerminatedCons(lines);
      assert NonBlank(lines[0]);
      NonBlankExtends(lines[0], "\n");
      NonBlankExtends(cur, l);
      AllNonBlankTail(lines);
      if |candidate| > MaxLen {
        PackConcat(l, rest);
        ConcatCons(cur, PackFrom(l, rest));
      } else {
        assert candidate == cur + l;
        PackConcat(candidate, rest);
      }
      AppendAssoc(cur, l, Concat(Terminated(rest)));
    }
  }

  /** When the chunk under way and every line hold some visible character, no chunk sent is blank. */
  lemma {:induction false} PackNonBlank(cur: string, lines: seq<string>)
    requires NonBlank(cur) && AllNonBlank(lines)
    ensures AllNonBlank(PackFrom(cur, lines))
    decreases |lines|
  {
    if lines != [] {
      var l := lines[0] + "\n";
      var candidate := cur + lines[0] + "\n";
      assert NonBlank(lines[0]);
      NonBlankExtends(lines[0], "\n");
      AllNonBlankTail(lines);
      if |candidate| > MaxLen {
        PackNonBlank(l, lines[1..]);
        AllNonBlankCons(cur, PackFrom(l, lines[1..]));
      } else {
        NonBlankExtends(cur, l);
        assert candidate == cur + l;
        PackNonBlank(candidate, lines[1..]);
      }
    }
  }

  lemma AllNonBlankTail(texts: seq<string>)
    requires texts != [] && AllNonBlank(texts)
    ensures AllNonBlank(texts[1..])
  {
    forall i | 0 <= i < |texts| - 1 ensures NonBlank(texts[1..][i]) {
      assert texts[1..][i] == texts[i + 1];
    }
  }

  lemma AllNonBlankCons(x: string, rest: seq<string>)
    requires NonBlank(x) && AllNonBlank(rest)
    ensures AllNonBlank([x] + rest)
  {
    forall i | 0 <= i < |[x] + rest| ensures NonBlank(([x] + rest)[i]) {
      if i > 0 {
        assert ([x] + rest)[i] == rest[i - 1];
      }
    }
  }

  /** The first chunk sent begins with the chunk under way. */
  lemma {:induction false} PackFirst(cur: string, lines: seq<string>)
    requires PackFrom(cur, lines) != []
    ensures cur <= PackFrom(cur, lines)[0]
    decreases |lines|
  {
    if lines != [] {
      var candidate := cur + lines[0] + "\n";
      if |candidate| <= MaxLen {
        PackFirst(candidate, lines[1..]);
        assert cur <= candidate;
      }
    }
  }

  /**
    Only a single piece can make a chunk longer than 4000 characters: such a
    chunk is the starting chunk alone or one line with its newline.
   */
  lemma {:induction false} PackBound(cur: string, lines: seq<string>)
    ensures forall c :: c in PackFrom(cur, lines) ==> |c| <= MaxLen || c == cur || c in Terminated(lines)
    decreases |lines|
  {
    if lines != [] {
      var l := lines[0] + "\n";
      var rest := lines[1..];
      var candidate := cur + lines[0] + "\n";
      assert Terminated(lines) == [l] + Terminated(rest);
      if |candidate| > MaxLen {
        PackBound(l, rest);
      } else {
        PackBound(candidate, rest);
      }
    }
  }

  /**
    The packing is greedy: a chunk is closed only when the line that opens
    the next chunk would have taken it past 4000 characters.
   */
  lemma {:induction false} PackGreedy(cur: string, lines: seq<string>, i: nat) returns (k: nat)
    requires i + 1 < |PackFrom(cur, lines)|
    ensures k < |lines|
    ensures lines[k] + "\n" <= PackFrom(cur, lines)[i + 1]
    ensures |PackFrom(cur, lines)[i]| + |lines[k]| + 1 > MaxLen
    decreases |lines|
  {
    var l := lines[0] + "\n";
    var rest := lines[1..];
    var candidate := cur + lines[0] + "\n";
    var chunks := PackFrom(cur, lines);
    if |candidate| > MaxLen {
      var after := PackFrom(l, rest);
      assert chunks == [cur] + after;
      assert chunks[i + 1] == after[i];
      if i == 0 {
        PackFirst(l, rest);
        k := 0;
      } else {
        assert chunks[i] == after[i - 1];
        var k' := PackGreedy(l, rest, i - 1);
        k := k' + 1;
      }
    } else {
      assert chunks == PackFrom(candidate, rest);
      var k' := PackGreedy(candidate, rest, i);
      k := k' + 1;
    }
  }

  // ---------------------------------------------------------------------
  // The handler

  datatype Outcome =
    | ReadFailed
    | NoTopicColumn
    | NoTopics
    | Sent(messages: seq<string>)

  function Escaped(chunks: seq<string>, escape: string -> string): (r: seq<string>)
    ensures |r| == |chunks|
    ensures forall i :: 0 <= i < |chunks| ==> r[i] == escape(chunks[i])
  {
    seq(|chunks|, i requires 0 <= i < |chunks| => escape(chunks[i]))
  }

  /** The text before the first chunk's items: the five head lines, each ended by a newline. */
  function ChunkHeader(correct: nat, inc: seq<Flagged>): string {
    Join(HeadLines(correct, |inc|), "\n") + "\n"
  }

  /**
    `process_lessons_file` on the sheet `read_excel` produced (`None` when
    it failed), with the Markdown escaping as a parameter. Without malformed
    topics the whole report is one escaped message; otherwise the head and
    every malformed topic (all of them, not only the first hundred) are
    packed into chunks, each escaped on its own.
   */
  function LessonsOutcome(sheet: Option<Sheet>, escape: string -> string): Outcome {
    match sheet
    case None => ReadFailed
    case Some(df) =>
      match TopicColumn(df)
      case None => NoTopicColumn
      case Some(col) =>
        if df.rows == [] then NoTopics
        else
          var topics := Topics(df, col);
          var correct := |CorrectOf(topics)|;
          var inc := IncorrectOf(topics);
          if inc == [] then Sent([escape(Join(ReportLines(correct, inc), "\n"))])
          else Sent(Escaped(PackFrom(ChunkHeader(correct, inc), ItemLines(inc)), escape))
  }

  method ProcessLessons(sheet: Option<Sheet>, escape: string -> string) returns (outcome: Outcome)
    ensures outcome == LessonsOutcome(sheet, escape)
  {
    if sheet.None? {
      return ReadFailed;
    }
    var df := sheet.value;
    var col := TopicColumn(df);
    if col.None? {
      return NoTopicColumn;
    }
    if df.rows == [] {
      return NoTopics;
    }
    var topics := Topics(df, col.value);
    var correct, incorrect := Classify(topics);
    if incorrect == [] {
      return Sent([escape(Join(ReportLines(|correct|, incorrect), "\n"))]);
    }
    var chunks := PackChunks(ChunkHeader(|correct|, incorrect), ItemLines(incorrect));
    var messages := EscapeEach(chunks, escape);
    outcome := Sent(messages);
  }

  /** Each chunk is escaped and sent on its own, in order. */
  method EscapeEach(chunks: seq<string>, escape: string -> string) returns (messages: seq<string>)
    ensures messages == Escaped(chunks, escape)
  {
    messages := [];
    for i := 0 to |chunks|
      invariant messages == Escaped(chunks[..i], escape)
    {
      messages := messages + [escape(chunks[i])];
    }
    assert chunks[..|chunks|] == chunks;
  }

  /**
    With malformed topics, the chunks carry the head and every item line
    exactly once and in row order, none is blank, and a chunk over 4000
    characters is the head alone or a single item line.
   */
  lemma ChunksCarryEverything(correct: nat, inc: seq<Flagged>)
    requires inc != []
    ensures var chunks := PackFrom(ChunkHeader(correct, inc), ItemLines(inc));
      && Concat(chunks) == ChunkHeader(correct, inc) + Concat(Terminated(ItemLines(inc)))
      && (forall i :: 0 <= i < |chunks| ==> NonBlank(chunks[i]))
      && (forall c :: c in chunks ==>
            |c| <= MaxLen || c == ChunkHeader(correct, inc) || c in Terminated(ItemLines(inc)))
  {
    var header := ChunkHeader(correct, inc);
    var items := ItemLines(inc);
    assert header[0] == '📚';
    assert NonBlank(header);
    forall i | 0 <= i < |items| ensures NonBlank(items[i]) {
      assert items[i][0] == '•';
    }
    assert AllNonBlank(items);
    PackConcat(header, items);
    PackNonBlank(header, items);
    PackBound(header, items);
  }
}
