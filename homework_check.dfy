/**
  The homework-check report: read the sheet under one of three header
  layouts, find the teacher, "получено" (issued) and "проверено" (checked)
  columns by keyword or by position, list the teachers who checked less
  than 70% of what they were issued, worst first, and render the report.
 */
module HomeworkCheck {
  import opened Wrappers
  import opened Strings
  import opened Sheets
  import Sorting

  /** A column label: plain text under one header row, a tuple of levels under two. */
  datatype Label = Flat(text: string) | Levels(parts: seq<string>)

  datatype Sheet = Sheet(columns: seq<Label>, rows: seq<seq<Cell>>)

  /** The `header=` argument of `read_excel`: rows 0 and 1, the default row 0, row 1. */
  datatype HeaderConfig = TwoRows | FirstRow | SecondRow

  /** The order in which the header layouts are tried. */
  const Configs: seq<HeaderConfig> := [TwoRows, FirstRow, SecondRow]

  const TeacherKeys: seq<string> := ["преподават", "учител", "фио"]
  const IssuedKeys: seq<string> := ["получ"]
  const CheckedKeys: seq<string> := ["провер"]

  /** Rows below this percentage of checked work are listed. */
  const Threshold: real := 70.0

  /** At most this many headers are shown when the columns are not found. */
  const SampleSize: nat := 12

  // ---------------------------------------------------------------------
  // Header labels

  /** The levels of a tuple label, each stripped, with the blank ones dropped. */
  function KeptLevels(parts: seq<string>): seq<string> {
    if parts == [] then []
    else (if Strip(parts[0]) != [] then [Strip(parts[0])] else []) + KeptLevels(parts[1..])
  }

  /** `col_to_str`: a tuple label becomes its kept levels joined by single spaces. */
  function ColToStr(c: Label): string {
    match c
    case Flat(t) => Strip(t)
    case Levels(ps) => Join(KeptLevels(ps), " ")
  }

  /** Every word is non-empty and has no whitespace at either end. */
  predicate LabelWords(ws: seq<string>) {
    forall i :: 0 <= i < |ws| ==> ws[i] != [] && Trimmed(ws[i])
  }

  lemma {:induction false} KeptLevelsTrimmed(parts: seq<string>)
    ensures LabelWords(KeptLevels(parts))
  {
    if parts != [] {
      KeptLevelsTrimmed(parts[1..]);
      StripHasNoEdgeSpace(parts[0]);
      var head := if Strip(parts[0]) != [] then [Strip(parts[0])] else [];
      LabelWordsConcat(head, KeptLevels(parts[1..]));
    }
  }

  lemma LabelWordsConcat(a: seq<string>, b: seq<string>)
    requires LabelWords(a) && LabelWords(b)
    ensures LabelWords(a + b)
  {
    forall i | 0 <= i < |a + b| ensures (a + b)[i] != [] && Trimmed((a + b)[i]) {
      if i < |a| {
        assert (a + b)[i] == a[i];
      } else {
        assert (a + b)[i] == b[i - |a|];
      }
    }
  }

  /**
    Whatever the layout, a rendered label has no whitespace at either end,
    so it is its own `strip()`; a one-level tuple reads like the plain label.
   */
  lemma ColToStrTrimmed(c: Label)
    ensures Strip(ColToStr(c)) == ColToStr(c)
  {
    match c
    case Flat(t) =>
      StripHasNoEdgeSpace(t);
      StripOfTrimmed(Strip(t));
    case Levels(ps) =>
      KeptLevelsTrimmed(ps);
      JoinTrimmed(KeptLevels(ps));
      StripOfTrimmed(Join(KeptLevels(ps), " "));
  }

  /** A one-level tuple reads like the plain label. */
  lemma ColToStrOneLevel(t: string)
    ensures ColToStr(Levels([t])) == ColToStr(Flat(t))
  {
    assert [t][1..] == [];
    assert KeptLevels([t]) == (if Strip(t) != [] then [Strip(t)] else []);
  }

  /** `cols_lower`. */
  function LowerLabels(cols: seq<Label>): (r: seq<string>)
    ensures |r| == |cols|
  {
    seq(|cols|, i requires 0 <= i < |cols| => Lower(ColToStr(cols[i])))
  }

  predicate HasColumn(cols: seq<string>, keys: seq<string>) {
    exists i :: 0 <= i < |cols| && ContainsAny(cols[i], keys)
  }

  /** A read whose headers name both an issued and a checked column. */
  predicate Recognised(o: Option<Sheet>) {
    o.Some? && var cols := LowerLabels(o.value.columns);
    HasColumn(cols, IssuedKeys) && HasColumn(cols, CheckedKeys)
  }

  // ---------------------------------------------------------------------
  // Choosing the header layout

  /**
    The trial loop from layout `i` on, `last` being the most recent sheet
    read: the first read that `ok` accepts wins; otherwise the last readable one.
   */
  function PickFrom(read: HeaderConfig -> Option<Sheet>, ok: Option<Sheet> -> bool, i: nat, last: Option<Sheet>)
    : Option<Sheet>
    requires i <= |Configs|
    decreases |Configs| - i
  {
    if i == |Configs| then last
    else
      var o := read(Configs[i]);
      if ok(o) then o else PickFrom(read, ok, i + 1, if o.Some? then o else last)
  }

  /** The layout the handler keeps: the trial loop accepting a recognised read. */
  function PickSheet(read: HeaderConfig -> Option<Sheet>): Option<Sheet> {
    PickFrom(read, Recognised, 0, None)
  }

  /** The header-layout loop: each readable layout replaces `df`; a recognised one stops the loop. */
  method ChooseSheet(read: HeaderConfig -> Option<Sheet>) returns (df: Option<Sheet>)
    ensures df == PickSheet(read)
  {
    df := None;
    var i := 0;
    while i < |Configs|
      invariant 0 <= i <= |Configs|
      invariant PickFrom(read, Recognised, i, df) == PickSheet(read)
    {
      var o := read(Configs[i]);
      if o.Some? {
        df := o;
        if Recognised(o) {
          break;
        }
      }
      i := i + 1;
    }
  }

  lemma {:induction false} PickFromFirstRecognised(read: HeaderConfig -> Option<Sheet>, ok: Option<Sheet> -> bool,
                                                    i: nat, k: nat, last: Option<Sheet>)
    requires i <= k < |Configs| && ok(read(Configs[k]))
    requires forall j :: i <= j < k ==> !ok(read(Configs[j]))
    ensures PickFrom(read, ok, i, last) == read(Configs[k])
    decreases k - i
  {
    if i < k {
      var o := read(Configs[i]);
      PickFromFirstRecognised(read, ok, i + 1, k, if o.Some? then o else last);
    }
  }

  /** The first layout, in the order tried, whose headers are recognised is the one kept. */
  lemma PickSheetFirstRecognised(read: HeaderConfig -> Option<Sheet>, k: nat)
    requires k < |Configs| && Recognised(read(Configs[k]))
    requires forall j :: 0 <= j < k ==> !Recognised(read(Configs[j]))
    ensures PickSheet(read) == read(Configs[k])
  {
    PickFromFirstRecognised(read, Recognised, 0, k, None);
  }

  lemma {:induction false} PickFromUnrecognised(read: HeaderConfig -> Option<Sheet>, ok: Option<Sheet> -> bool,
                                                 i: nat, last: Option<Sheet>)
    requires i <= |Configs|
    requires forall j :: i <= j < |Configs| ==> !ok(read(Configs[j]))
    ensures PickFrom(read, ok, i, last) ==
      if exists j :: i <= j < |Configs| && read(Configs[j]).Some? then
        read(Configs[LastReadable(read, i)])
      else last
    decreases |Configs| - i
  {
    if i < |Configs| {
      var o := read(Configs[i]);
      PickFromUnrecognised(read, ok, i + 1, if o.Some? then o else last);
    }
  }

  /** The position of the last readable layout at or after `i` (callers ensure there is one). */
  function LastReadable(read: HeaderConfig -> Option<Sheet>, i: nat): (k: nat)
    requires i <= |Configs|
    requires exists j :: i <= j < |Configs| && read(Configs[j]).Some?
    ensures i <= k < |Configs| && read(Configs[k]).Some?
    ensures forall j :: k < j < |Configs| ==> read(Configs[j]).None?
    decreases |Configs| - i
  {
    if exists j :: i + 1 <= j < |Configs| && read(Configs[j]).Some? then LastReadable(read, i + 1)
    else i
  }

  /**
    When no layout is recognised, the last readable one is kept, and nothing
    is kept when no layout could be read at all.
   */
  lemma PickSheetUnrecognised(read: HeaderConfig -> Option<Sheet>)
    requires forall j :: 0 <= j < |Configs| ==> !Recognised(read(Configs[j]))
    ensures (exists j :: 0 <= j < |Configs| && read(Configs[j]).Some?) ==>
      PickSheet(read) == read(Configs[LastReadable(read, 0)])
    ensures (forall j :: 0 <= j < |Configs| ==> read(Configs[j]).None?) ==> PickSheet(read) == None
  {
    PickFromUnrecognised(read, Recognised, 0, None);
  }

  // ---------------------------------------------------------------------
  // Resolving the columns from the headers

  /** `next((i for i, c in enumerate(cols) if any(k in c for k in keys)), None)`. */
  function FirstWith(cols: seq<string>, keys: seq<string>): (r: Option<nat>)
    ensures r.Some? ==> r.value < |cols| && ContainsAny(cols[r.value], keys)
    ensures r.Some? ==> forall j :: 0 <= j < r.value ==> !ContainsAny(cols[j], keys)
    ensures r.None? ==> forall j :: 0 <= j < |cols| ==> !ContainsAny(cols[j], keys)
  {
    if cols == [] then None
    else if ContainsAny(cols[0], keys) then Some(0)
    else match FirstWith(cols[1..], keys)
      case Some(j) => Some(j + 1)
      case None => None
  }

  /** The teacher column: the first naming a teacher, else column 0. */
  function TeacherColumn(cols: seq<string>): nat {
    match FirstWith(cols, TeacherKeys)
    case Some(t) => t
    case None => 0
  }

  // ---------------------------------------------------------------------
  // Positional fallback

  /** The first data row holds a number above zero in column `i`. */
  predicate PositiveAt(first: Option<seq<Cell>>, i: nat) {
    first.Some? && var v := ParseNumber(CellStr(At(first.value, i)));
    v.Some? && v.value > 0.0
  }

  /** The columns in `[i, n)` whose first-row value is positive, left to right. */
  function Positives(first: Option<seq<Cell>>, i: nat, n: nat): (r: seq<nat>)
    ensures forall k :: 0 <= k < |r| ==> i <= r[k] < n && PositiveAt(first, r[k])
    ensures forall k, m :: 0 <= k < m < |r| ==> r[k] < r[m]
    ensures forall j :: i <= j < n && PositiveAt(first, j) ==> j in r
    decreases n - i
  {
    if i >= n then []
    else
      var head := if PositiveAt(first, i) then [i] else [];
      var rest := Positives(first, i + 1, n);
      AscendingStep((j: nat) => PositiveAt(first, j), i, n, head, rest);
      head + rest
  }

  /** One more column in front of the columns after it that pass `ok`. */
  lemma AscendingStep(ok: nat -> bool, i: nat, n: nat, head: seq<nat>, rest: seq<nat>)
    requires i < n && head == if ok(i) then [i] else []
    requires forall k :: 0 <= k < |rest| ==> i + 1 <= rest[k] < n && ok(rest[k])
    requires forall k, m :: 0 <= k < m < |rest| ==> rest[k] < rest[m]
    requires forall j :: i + 1 <= j < n && ok(j) ==> j in rest
    ensures forall k :: 0 <= k < |head + rest| ==> i <= (head + rest)[k] < n && ok((head + rest)[k])
    ensures forall k, m :: 0 <= k < m < |head + rest| ==> (head + rest)[k] < (head + rest)[m]
    ensures forall j :: i <= j < n && ok(j) ==> j in head + rest
  {
    var r := head + rest;
    forall k | 0 <= k < |r| ensures i <= r[k] < n && ok(r[k]) && (k >= |head| ==> r[k] == rest[k - |head|]) {
      if k >= |head| {
        assert r[k] == rest[k - |head|];
      }
    }
    forall j | i <= j < n && ok(j) ensures j in r {
      if j == i {
        assert r[0] == i;
      } else {
        var k :| 0 <= k < |rest| && rest[k] == j;
        assert r[|head| + k] == j;
      }
    }
  }

  /** The fallback scan from column `i`, as the loop runs it. */
  function FallbackFrom(first: Option<seq<Cell>>, n: nat, i: nat, issued: Option<nat>, checked: Option<nat>)
    : (Option<nat>, Option<nat>)
    decreases n - i
  {
    if i >= n then (issued, checked)
    else if PositiveAt(first, i) && issued.None? then FallbackFrom(first, n, i + 1, Some(i), checked)
    else if PositiveAt(first, i) && checked.None? then (issued, Some(i))
    else FallbackFrom(first, n, i + 1, issued, checked)
  }

  /** The fallback runs only when a role is unresolved, scanning columns `1..n-1`. */
  function Fallback(first: Option<seq<Cell>>, n: nat, issued: Option<nat>, checked: Option<nat>)
    : (Option<nat>, Option<nat>)
  {
    if issued.None? || checked.None? then FallbackFrom(first, n, 1, issued, checked) else (issued, checked)
  }

  function Nth(s: seq<nat>, k: nat): Option<nat> {
    if k < |s| then Some(s[k]) else None
  }

  lemma {:induction false} FallbackFromPicks(first: Option<seq<Cell>>, n: nat, i: nat, issued: Option<nat>, checked: Option<nat>)
    ensures var p := Positives(first, i, n);
      FallbackFrom(first, n, i, issued, checked) ==
        (if issued.Some? then issued else Nth(p, 0),
         if checked.Some? then checked else if issued.Some? then Nth(p, 0) else Nth(p, 1))
    decreases n - i
  {
    if i < n {
      var p := Positives(first, i, n);
      var q := Positives(first, i + 1, n);
      if PositiveAt(first, i) {
        assert p == [i] + q;
        if issued.None? {
          FallbackFromPicks(first, n, i + 1, Some(i), checked);
        } else if checked.Some? {
          FallbackFromPicks(first, n, i + 1, issued, checked);
        }
      } else {
        assert p == q;
        FallbackFromPicks(first, n, i + 1, issued, checked);
      }
    }
  }

  /**
    The fallback never overwrites a role resolved from the headers; an
    unresolved issued role takes the first column (from 1 on) with a
    positive first-row value, and an unresolved checked role the next one
    (the first one when issued was already resolved).
   */
  lemma FallbackPicks(first: Option<seq<Cell>>, n: nat, issued: Option<nat>, checked: Option<nat>)
    ensures var p := Positives(first, 1, n);
      Fallback(first, n, issued, checked) ==
        (if issued.Some? then issued else Nth(p, 0),
         if checked.Some? then checked else if issued.Some? then Nth(p, 0) else Nth(p, 1))
  {
    FallbackFromPicks(first, n, 1, issued, checked);
  }

  /** The positional fallback loop over columns `1..n-1`, stopping once checked is assigned. */
  method PositionalFallback(first: Option<seq<Cell>>, n: nat, issued0: Option<nat>, checked0: Option<nat>)
    returns (issued: Option<nat>, checked: Option<nat>)
    ensures (issued, checked) == Fallback(first, n, issued0, checked0)
  {
    issued, checked := issued0, checked0;
    if issued.None? || checked.None? {
      var i := 1;
      while i < n
        invariant 1 <= i
        invariant FallbackFrom(first, n, i, issued, checked) == Fallback(first, n, issued0, checked0)
      {
        if PositiveAt(first, i) {
          if issued.None? {
            issued := Some(i);
          } else if checked.None? {
            checked := Some(i);
            break;
          }
        }
        i := i + 1;
      }
    }
  }

  // ---------------------------------------------------------------------
  // Rows

  datatype Roles = Roles(teacher: nat, issued: nat, checked: nat)

  /** A listed teacher: name, issued and checked as `int()` shows them, and the exact percentage. */
  datatype Problem = Problem(name: string, issued: int, checked: int, pct: real)

  function PctOf(p: Problem): real {
    p.pct
  }

  /** `pd.to_numeric(str(v).strip().replace('\xa0', '').replace(',', '.'), errors='coerce')`. */
  function CountOf(c: Cell): Option<real> {
    ParseNumber(ReplaceChar(ReplaceChar(Strip(CellStr(c)), '\U{A0}', ""), ',', "."))
  }

  /** `int(x)` for a float: truncation toward zero. */
  function Truncate(x: real): (r: int)
    ensures x >= 0.0 ==> r as real <= x < r as real + 1.0
    ensures x < 0.0 ==> r as real - 1.0 < x <= r as real
  {
    if x >= 0.0 then x.Floor else -((-x).Floor)
  }

  /** The teacher's name as listed: the stripped cell text; missing or blank names give nothing. */
  function NameOf(row: seq<Cell>, roles: Roles): Option<string> {
    var cell := At(row, roles.teacher);
    var name := Strip(CellStr(cell));
    if name == [] || cell.Missing? then None else Some(name)
  }

  /** What one row contributes: a problem, or nothing when it is skipped or at or above the threshold. */
  function RowProblem(row: seq<Cell>, roles: Roles): Option<Problem> {
    match NameOf(row, roles)
    case None => None
    case Some(name) =>
      match (CountOf(At(row, roles.issued)), CountOf(At(row, roles.checked)))
      case (Some(a), Some(b)) =>
        if a > 0.0 && b / a * 100.0 < Threshold
        then Some(Problem(name, Truncate(a), Truncate(b), b / a * 100.0))
        else None
      case _ => None
  }

  function Listed(o: Option<Problem>): seq<Problem> {
    if o.Some? then [o.value] else []
  }

  /** The problems of `rows`, in row order. */
  function ProblemRows(rows: seq<seq<Cell>>, roles: Roles): seq<Problem> {
    if rows == [] then []
    else ProblemRows(rows[..|rows| - 1], roles) + Listed(RowProblem(rows[|rows| - 1], roles))
  }

  /** The row loop: a malformed row is skipped, never aborting the batch. */
  method CollectProblems(rows: seq<seq<Cell>>, roles: Roles) returns (problems: seq<Problem>)
    ensures problems == ProblemRows(rows, roles)
  {
    problems := [];
    var i := 0;
    while i < |rows|
      invariant 0 <= i <= |rows|
      invariant problems == ProblemRows(rows[..i], roles)
    {
      assert rows[..i + 1][..i] == rows[..i];
      var p := RowProblem(rows[i], roles);
      if p.Some? {
        problems := problems + [p.value];
      }
      i := i + 1;
    }
    assert rows[..|rows|] == rows;
  }

  /**
    A row is listed exactly when it has a name, a parseable issued count
    above zero, a parseable checked count, and checked/issued*100 below 70.
   */
  lemma RowProblemIff(row: seq<Cell>, roles: Roles)
    ensures RowProblem(row, roles).Some? <==>
      NameOf(row, roles).Some?
      && CountOf(At(row, roles.issued)).Some? && CountOf(At(row, roles.issued)).value > 0.0
      && CountOf(At(row, roles.checked)).Some?
      && CountOf(At(row, roles.checked)).value / CountOf(At(row, roles.issued)).value * 100.0 < Threshold
    ensures RowProblem(row, roles).Some? ==>
      var p := RowProblem(row, roles).value;
      var a := CountOf(At(row, roles.issued)).value;
      var b := CountOf(At(row, roles.checked)).value;
      p.name == NameOf(row, roles).value && p.pct == b / a * 100.0 && p.pct < Threshold
      && p.issued == Truncate(a) && p.checked == Truncate(b)
  {
  }

  /** Every row that yields a problem has it listed. */
  lemma {:induction false} ProblemRowsComplete(rows: seq<seq<Cell>>, roles: Roles, k: nat)
    requires k < |rows| && RowProblem(rows[k], roles).Some?
    ensures RowProblem(rows[k], roles).value in ProblemRows(rows, roles)
  {
    var init := rows[..|rows| - 1];
    if k < |rows| - 1 {
      assert init[k] == rows[k];
      ProblemRowsComplete(init, roles, k);
    }
  }

  /** Every listed problem comes from some row. */
  lemma {:induction false} ProblemRowsSound(rows: seq<seq<Cell>>, roles: Roles, p: Problem) returns (k: nat)
    requires p in ProblemRows(rows, roles)
    ensures k < |rows| && RowProblem(rows[k], roles) == Some(p)
  {
    var init := rows[..|rows| - 1];
    if p in ProblemRows(init, roles) {
      k := ProblemRowsSound(init, roles, p);
      assert rows[k] == init[k];
    } else {
      k := |rows| - 1;
    }
  }

  // ---------------------------------------------------------------------
  // The report

  function PeriodText(period: string): string {
    if period == "month" then "месяц" else "неделю"
  }

  function ItemLine(p: Problem): string {
    "• " + p.name + ": получено " + IntToString(p.issued) + " | проверено "
      + IntToString(p.checked) + " | " + FormatOneDecimal(p.pct) + "%"
  }

  function ItemLines(ps: seq<Problem>): (r: seq<string>)
    ensures |r| == |ps|
    ensures forall i :: 0 <= i < |ps| ==> r[i] == ItemLine(ps[i])
  {
    seq(|ps|, i requires 0 <= i < |ps| => ItemLine(ps[i]))
  }

  function Title(period: string): string {
    "✅ отчет по проверке домашних заданий за " + PeriodText(period) + ":"
  }

  function CountLine(n: nat): string {
    "⚠️ преподавателей с проверкой < 70%: " + NatToString(n)
  }

  function AllClear(period: string): string {
    "✅ все преподаватели проверили ≥ 70% заданий за " + PeriodText(period) + "."
  }

  function ReportLines(ps: seq<Problem>, period: string): seq<string> {
    var body := if ps != [] then [CountLine(|ps|)] + ItemLines(ps) else [AllClear(period)];
    [Title(period)] + body
  }

  /** "{i}: {c}" for each of the first twelve lower-cased headers. */
  function SampleLines(cols: seq<string>): (r: seq<string>)
    ensures |r| <= SampleSize
  {
    var n := if |cols| < SampleSize then |cols| else SampleSize;
    seq(n, i requires 0 <= i < n => NatToString(i) + ": " + cols[i])
  }

  function NotFoundMessage(cols: seq<string>): string {
    "❌ не найдены колонки 'получено' или 'проверено'.\nнайденные заголовки:\n" + Join(SampleLines(cols), "\n")
  }

  datatype Outcome =
    | ReadFailed
    | ColumnsNotFound(message: string)
    | Report(problems: seq<Problem>, lines: seq<string>)

  function FirstDataRow(df: Sheet): Option<seq<Cell>> {
    if df.rows == [] then None else Some(df.rows[0])
  }

  /** The whole handler for a chosen sheet. */
  function SheetOutcome(df: Sheet, period: string): Outcome {
    var cols := LowerLabels(df.columns);
    var roles := Fallback(FirstDataRow(df), |cols|, FirstWith(cols, IssuedKeys), FirstWith(cols, CheckedKeys));
    if roles.0.None? || roles.1.None? then ColumnsNotFound(NotFoundMessage(cols))
    else
      var ps := Sorting.SortBy(ProblemRows(df.rows, Roles(TeacherColumn(cols), roles.0.value, roles.1.value)), PctOf);
      Report(ps, ReportLines(ps, period))
  }

  /**
    `process_homework_check_file`. When no layout can be read, the retry at
    line 61 reads with the arguments that already failed, so the handler
    ends in its generic error.
   */
  function HomeworkOutcome(read: HeaderConfig -> Option<Sheet>, period: string): Outcome {
    match PickSheet(read)
    case None => ReadFailed
    case Some(df) => SheetOutcome(df, period)
  }

  method ProcessHomeworkCheck(read: HeaderConfig -> Option<Sheet>, period: string) returns (outcome: Outcome)
    ensures outcome == HomeworkOutcome(read, period)
  {
    var df := ChooseSheet(read);
    if df.None? {
      return ReadFailed;
    }
    var sheet := df.value;
    var cols := LowerLabels(sheet.columns);
    var teacher := TeacherColumn(cols);
    var issued, checked := PositionalFallback(FirstDataRow(sheet), |cols|,
      FirstWith(cols, IssuedKeys), FirstWith(cols, CheckedKeys));
    if issued.None? || checked.None? {
      return ColumnsNotFound(NotFoundMessage(cols));
    }
    var problems := CollectProblems(sheet.rows, Roles(teacher, issued.value, checked.value));
    problems := Sorting.SortBy(problems, PctOf);
    outcome := Report(problems, ReportLines(problems, period));
  }

  // ---------------------------------------------------------------------
  // What the report promises

  /**
    The listed teachers are exactly the qualifying rows' problems, with
    multiplicity, worst percentage first and ties in row order, each below 70%.
   */
  lemma ReportContents(df: Sheet, roles: Roles)
    ensures var ps := Sorting.SortBy(ProblemRows(df.rows, roles), PctOf);
      && multiset(ps) == multiset(ProblemRows(df.rows, roles))
      && Sorting.SortedBy(ps, PctOf)
      && (forall k :: Sorting.WithKey(ps, PctOf, k) == Sorting.WithKey(ProblemRows(df.rows, roles), PctOf, k))
      && (forall i :: 0 <= i < |ps| ==> ps[i].pct < Threshold)
  {
    var raw := ProblemRows(df.rows, roles);
    var ps := Sorting.SortBy(raw, PctOf);
    Sorting.SortByPermutes(raw, PctOf);
    Sorting.SortBySorted(raw, PctOf);
    forall k ensures Sorting.WithKey(ps, PctOf, k) == Sorting.WithKey(raw, PctOf, k) {
      Sorting.SortByStable(raw, PctOf, k);
    }
    forall i | 0 <= i < |ps| ensures ps[i].pct < Threshold {
      assert ps[i] in multiset(raw);
      var k := ProblemRowsSound(df.rows, roles, ps[i]);
      RowProblemIff(df.rows[k], roles);
    }
  }

  /** The report's shape: a count line and one line per teacher, or the all-clear line alone. */
  lemma ReportShape(ps: seq<Problem>, period: string)
    ensures ps == [] ==> ReportLines(ps, period) == [Title(period), AllClear(period)]
    ensures ps != [] ==> ReportLines(ps, period) == [Title(period), CountLine(|ps|)] + ItemLines(ps)
    ensures ps != [] ==> |ReportLines(ps, period)| == 2 + |ps|
    ensures ps != [] ==> forall i :: 0 <= i < |ps| ==> ReportLines(ps, period)[2 + i] == ItemLine(ps[i])
  {
    if ps != [] {
      HeadThenItems(Title(period), CountLine(|ps|), ItemLines(ps));
    } else {
      TwoLines(Title(period), AllClear(period));
    }
  }

  /** The error names at most the first twelve headers, each with its 0-based index. */
  lemma NotFoundListsHeaders(cols: seq<string>)
    ensures var lines := SampleLines(cols);
      |lines| == (if |cols| < SampleSize then |cols| else SampleSize)
      && forall i :: 0 <= i < |lines| ==> lines[i] == NatToString(i) + ": " + cols[i]
  {
  }
}
