/** The totals line of one process: how it is printed, and how the parent process splits it again. */
module Report {
  import opened Numbers
  import opened Text

  // ----- Printing -----

  const WIDTHS: seq<nat> := [15, 10, 10, 10, 15, 15, 10, 10]

  function Separator(csv: bool): char {
    if csv then ',' else ' '
  }

  function Spaces(n: nat): (s: string)
    ensures |s| == n && forall i :: 0 <= i < n ==> s[i] == ' '
  {
    if n == 0 then [] else Spaces(n - 1) + [' ']
  }

  /** `stream_out`: a comma after the value, or left-aligned padding up to the column's width. */
  function Cell(csv: bool, text: string, width: nat, suffix: bool): string {
    if csv then text + (if suffix then "," else "")
    else text + Spaces(if |text| < width then width - |text| else 0)
  }

  /** The cells from column i on. */
  function Row(csv: bool, fields: seq<string>, i: nat): string
    requires |fields| == 8 && i <= 8
    decreases 8 - i
  {
    if i == 8 then [] else Cell(csv, fields[i], WIDTHS[i], i < 7) + Row(csv, fields, i + 1)
  }

  /** The mean is whole, after rounding, or not a number; the sign of NaN depends on the platform. */
  datatype Average = Whole(value: nat) | NotANumber(negative: bool)

  function AverageText(a: Average): string {
    match a
    case Whole(n) => WholeText(n)
    case NotANumber(negative) => if negative then "-nan" else "nan"
  }

  lemma AverageTexts(n: nat)
    ensures AverageText(Whole(n)) == WholeText(n)
    ensures AverageText(NotANumber(false)) == "nan" && AverageText(NotANumber(true)) == "-nan"
  {
  }

  /** What a process knows at the end; the percentages are kept as printed. */
  datatype Summary = Summary(
    received: uint64,
    average: Average,
    late: uint64,
    lateShare: string,
    tooLate: uint64,
    tooLateShare: string,
    lost: uint64,
    lostShare: string)

  function Fields(s: Summary): (fields: seq<string>)
    ensures |fields| == 8
  {
    [Decimal(s.received), AverageText(s.average), Decimal(s.late), s.lateShare,
     Decimal(s.tooLate), s.tooLateShare, Decimal(s.lost), s.lostShare]
  }

  /** Printed doubles are never empty and hold neither separators nor line ends. */
  predicate Printed(s: string) {
    s != [] && Free(s, ' ') && Free(s, ',') && Free(s, '\n')
  }

  ghost predicate AllPrinted(fields: seq<string>) {
    forall i :: 0 <= i < |fields| ==> Printed(fields[i])
  }

  predicate SharesPrinted(s: Summary) {
    Printed(s.lateShare) && Printed(s.tooLateShare) && Printed(s.lostShare)
  }

  const HEADINGS: seq<string> :=
    ["received_msgs", "mean_us", "late_msgs", "late_perc", "too_late_msgs", "too_late_perc", "lost_msgs", "lost_perc"]

  lemma RowNext(csv: bool, fields: seq<string>, i: nat, before: string)
    requires |fields| == 8 && i < 8
    ensures before + Cell(csv, fields[i], WIDTHS[i], i < 7) + Row(csv, fields, i + 1) == before + Row(csv, fields, i)
  {
  }

  lemma RowEnd(csv: bool, fields: seq<string>, before: string)
    requires |fields| == 8
    ensures before + Row(csv, fields, 8) == before
  {
  }

  lemma RowStep(csv: bool, fields: seq<string>, i: nat)
    requires |fields| == 8 && i < 8
    ensures Row(csv, fields, i) == Cell(csv, fields[i], WIDTHS[i], i < 7) + Row(csv, fields, i + 1)
    ensures Row(csv, fields, 8) == []
  {
  }

  lemma CsvStep(fields: seq<string>, i: nat)
    requires |fields| == 8 && i < 7
    ensures Row(true, fields, i) == fields[i] + "," + Row(true, fields, i + 1)
  {
  }

  lemma CsvRow(fields: seq<string>)
    requires |fields| == 8
    ensures Row(true, fields, 0)
         == fields[0] + "," + (fields[1] + "," + (fields[2] + "," + (fields[3] + "," + (fields[4] + ","
            + (fields[5] + "," + (fields[6] + "," + fields[7]))))))
  {
    assert Row(true, fields, 7) == fields[7] by {
      RowStep(true, fields, 7);
      assert fields[7] + [] == fields[7];
    }
    hide Row;
    CsvStep(fields, 6);
    CsvStep(fields, 5);
    CsvStep(fields, 4);
    CsvStep(fields, 3);
    CsvStep(fields, 2);
    CsvStep(fields, 1);
    CsvStep(fields, 0);
  }

  /** The text stands left-aligned at an offset of the line, with blanks up to the width of its column. */
  ghost predicate StandsAt(line: string, offset: nat, width: nat, text: string) {
    && offset + |text| <= |line| && line[offset..offset + |text|] == text
    && (|text| < width ==> offset + width <= |line|)
    && forall k :: offset + |text| <= k < offset + width ==> line[k] == ' '
  }

  lemma StandsAfter(before: string, line: string, offset: nat, width: nat, text: string)
    requires StandsAt(line, offset, width, text)
    ensures StandsAt(before + line, |before| + offset, width, text)
  {
    var all := before + line;
    assert all[|before| + offset..|before| + offset + |text|] == line[offset..offset + |text|];
    forall k | |before| + offset + |text| <= k < |before| + offset + width ensures all[k] == ' ' {
      assert line[k - |before|] == ' ';
    }
  }

  lemma CellStands(text: string, width: nat, rest: string)
    ensures StandsAt(Cell(false, text, width, true) + rest, 0, width, text)
  {
  }

  /** Column j of the part of a padded row that begins with column i. */
  lemma {:induction false} ColumnStands(fields: seq<string>, i: nat, j: nat, offset: nat)
    requires |fields| == 8 && i <= j < 8 && (forall k :: i <= k < j ==> |fields[k]| < WIDTHS[k])
    requires offset == Width(i, j)
    ensures StandsAt(Row(false, fields, i), offset, WIDTHS[j], fields[j])
    decreases j - i
  {
    hide StandsAt, Row;
    RowStep(false, fields, i);
    if i == j {
      CellStands(fields[i], WIDTHS[i], Row(false, fields, i + 1));
    } else {
      ColumnStands(fields, i + 1, j, Width(i + 1, j));
      StandsAfter(Cell(false, fields[i], WIDTHS[i], true), Row(false, fields, i + 1), Width(i + 1, j), WIDTHS[j],
                  fields[j]);
    }
  }

  /** The width of the columns from i up to j. */
  function Width(i: nat, j: nat): nat
    requires i <= j <= 8
    decreases j - i
  {
    if i == j then 0 else WIDTHS[i] + Width(i + 1, j)
  }

  lemma Offsets()
    ensures Width(0, 0) == 0 && Width(0, 1) == 15 && Width(0, 2) == 25 && Width(0, 3) == 35
    ensures Width(0, 4) == 45 && Width(0, 5) == 60 && Width(0, 6) == 75 && Width(0, 7) == 85
  {
    assert Width(6, 7) == 10 && Width(5, 7) == 25 && Width(4, 7) == 40 && Width(3, 7) == 50;
    assert Width(2, 7) == 60 && Width(1, 7) == 70;
    assert Width(5, 6) == 15 && Width(4, 6) == 30 && Width(3, 6) == 40 && Width(2, 6) == 50 && Width(1, 6) == 60;
    assert Width(4, 5) == 15 && Width(3, 5) == 25 && Width(2, 5) == 35 && Width(1, 5) == 45;
    assert Width(3, 4) == 10 && Width(2, 4) == 20 && Width(1, 4) == 30;
    assert Width(2, 3) == 10 && Width(1, 3) == 20;
  }

  lemma {:induction false} RowLength(fields: seq<string>, i: nat)
    requires |fields| == 8 && i <= 7 && forall k :: i <= k < 7 ==> |fields[k]| < WIDTHS[k]
    ensures |Row(false, fields, i)| == Width(i, 7) + if |fields[7]| < 10 then 10 else |fields[7]|
    decreases 7 - i
  {
    RowStep(false, fields, i);
    if i == 7 {
    } else {
      RowLength(fields, i + 1);
    }
  }

  const CSV_HEADING :=
    "received_msgs" + "," + ("mean_us" + "," + ("late_msgs" + "," + ("late_perc" + "," + ("too_late_msgs" + ","
    + ("too_late_perc" + "," + ("lost_msgs" + "," + "lost_perc"))))))
  const PADDED_HEADING :=
    "received_msgs  " + ("mean_us   " + ("late_msgs " + ("late_perc " + ("too_late_msgs  "
    + ("too_late_perc  " + ("lost_msgs " + "lost_perc "))))))

  function CsvData(s: Summary): string {
    Decimal(s.received) + "," + (AverageText(s.average) + "," + (Decimal(s.late) + "," + (s.lateShare + ","
    + (Decimal(s.tooLate) + "," + (s.tooLateShare + "," + (Decimal(s.lost) + "," + s.lostShare))))))
  }

  /** The eight texts in columns of 15, 10, 10, 10, 15, 15, 10 and 10 characters. */
  ghost predicate PaddedData(line: string, s: Summary) {
    && |line| == 85 + (if |s.lostShare| < 10 then 10 else |s.lostShare|)
    && StandsAt(line, 0, 15, Decimal(s.received)) && StandsAt(line, 15, 10, AverageText(s.average))
    && StandsAt(line, 25, 10, Decimal(s.late)) && StandsAt(line, 35, 10, s.lateShare)
    && StandsAt(line, 45, 15, Decimal(s.tooLate)) && StandsAt(line, 60, 15, s.tooLateShare)
    && StandsAt(line, 75, 10, Decimal(s.lost)) && StandsAt(line, 85, 10, s.lostShare)
  }

  /** Each of the first seven texts is shorter than its column. */
  predicate RoomForAll(s: Summary) {
    && |Decimal(s.received)| < 15 && |AverageText(s.average)| < 10 && |Decimal(s.late)| < 10 && |s.lateShare| < 10
    && |Decimal(s.tooLate)| < 15 && |s.tooLateShare| < 15 && |Decimal(s.lost)| < 10
  }

  lemma CsvDataIs(s: Summary)
    ensures Row(true, Fields(s), 0) == CsvData(s)
  {
    hide Row, Decimal, AverageText;
    CsvRow(Fields(s));
  }

  lemma PaddedDataIs(s: Summary)
    requires RoomForAll(s)
    ensures PaddedData(Row(false, Fields(s), 0), s)
  {
    hide Row, Decimal, AverageText, StandsAt, Width;
    var fields := Fields(s);
    Offsets();
    ColumnStands(fields, 0, 0, 0);
    ColumnStands(fields, 0, 1, 15);
    ColumnStands(fields, 0, 2, 25);
    ColumnStands(fields, 0, 3, 35);
    ColumnStands(fields, 0, 4, 45);
    ColumnStands(fields, 0, 5, 60);
    ColumnStands(fields, 0, 6, 75);
    ColumnStands(fields, 0, 7, 85);
    RowLength(fields, 0);
  }

  lemma HeadingCells()
    ensures Cell(false, "received_msgs", 15, true) == "received_msgs  "
    ensures Cell(false, "mean_us", 10, true) == "mean_us   "
    ensures Cell(false, "late_msgs", 10, true) == "late_msgs "
    ensures Cell(false, "late_perc", 10, true) == "late_perc "
    ensures Cell(false, "too_late_msgs", 15, true) == "too_late_msgs  "
    ensures Cell(false, "too_late_perc", 15, true) == "too_late_perc  "
    ensures Cell(false, "lost_msgs", 10, true) == "lost_msgs "
    ensures Cell(false, "lost_perc", 10, false) == "lost_perc "
  {
  }

  lemma HeadingsAre()
    ensures Row(true, HEADINGS, 0) == CSV_HEADING && Row(false, HEADINGS, 0) == PADDED_HEADING
  {
    hide Row, Cell;
    CsvRow(HEADINGS);
    HeadingCells();
    RowStep(false, HEADINGS, 7);
    assert "lost_perc " + [] == "lost_perc ";
    RowStep(false, HEADINGS, 6);
    RowStep(false, HEADINGS, 5);
    RowStep(false, HEADINGS, 4);
    RowStep(false, HEADINGS, 3);
    RowStep(false, HEADINGS, 2);
    RowStep(false, HEADINGS, 1);
    RowStep(false, HEADINGS, 0);
    hide *;
  }

  /** The two lines of `log_total_stats`, one `stream_out` after another. */
  method LogTotalStats(s: Summary, csv: bool) returns (stream: string)
    ensures stream == Row(csv, HEADINGS, 0) + "\n" + Row(csv, Fields(s), 0) + "\n"
    ensures csv ==> stream == CSV_HEADING + "\n" + CsvData(s) + "\n"
    ensures !csv && RoomForAll(s) ==>
              exists line :: stream == PADDED_HEADING + "\n" + line + "\n" && PaddedData(line, s)
  {
    hide Row, Cell, Fields, CsvData, RoomForAll, PaddedData;
    var heading, data := "", "";
    var fields := Fields(s);
    for i := 0 to 8
      invariant heading + Row(csv, HEADINGS, i) == Row(csv, HEADINGS, 0)
      invariant data + Row(csv, fields, i) == Row(csv, fields, 0)
    {
      RowNext(csv, HEADINGS, i, heading);
      RowNext(csv, fields, i, data);
      heading := heading + Cell(csv, HEADINGS[i], WIDTHS[i], i < 7);
      data := data + Cell(csv, fields[i], WIDTHS[i], i < 7);
    }
    RowEnd(csv, HEADINGS, heading);
    RowEnd(csv, fields, data);
    HeadingsAre();
    CsvDataIs(s);
    if !csv && RoomForAll(s) {
      PaddedDataIs(s);
    }
    stream := heading + "\n" + data + "\n";
  }

  // ----- Splitting -----

  /** The field that one `parse_line` cuts off and what it leaves, or nothing: the line is then unchanged. */
  datatype Split = Split(left: string, rest: string) | NoSplit

  function SplitLine(line: string, sep: char): Split {
    var i := Find(line, sep);
    if i == |line| then NoSplit
    else
      var rest := SkipAll(line[i..], sep);
      if rest == [] then NoSplit else Split(line[..i], rest)
  }

  method ParseLine(line: string, csv: bool) returns (value: uint64, rest: string)
    ensures (value, rest) == ValueAndRest(line, Separator(csv))
  {
    var sep := if csv then ',' else ' ';
    var position := Find(line, sep);
    if position == |line| {
      return 0, line;
    }
    var left, right := line[..position], line[position..];
    var remaining := SkipAll(right, sep);
    if remaining == [] {
      return 0, line;
    }
    return Strtoul(left), remaining;
  }

  /** The fields that successive splits cut off, up to n of them or to the first that fails. */
  function Tokens(line: string, sep: char, n: nat): seq<string>
    decreases n
  {
    if n == 0 then []
    else match SplitLine(line, sep)
      case NoSplit => []
      case Split(left, rest) => [left] + Tokens(rest, sep, n - 1)
  }

  datatype Parsed = Parsed(received: uint64, latency: uint64, late: uint64, tooLate: uint64, lost: uint64)

  /** The values of seven splits, the fourth and sixth of which are thrown away. */
  function ParsedOf(line: string, csv: bool): Parsed {
    var sep := Separator(csv);
    var (v0, l1) := ValueAndRest(line, sep);
    var (v1, l2) := ValueAndRest(l1, sep);
    var (v2, l3) := ValueAndRest(l2, sep);
    var (_, l4) := ValueAndRest(l3, sep);
    var (v4, l5) := ValueAndRest(l4, sep);
    var (_, l6) := ValueAndRest(l5, sep);
    var (v6, _) := ValueAndRest(l6, sep);
    Parsed(v0, v1, v2, v4, v6)
  }

  function ValueAndRest(line: string, sep: char): (uint64, string) {
    match SplitLine(line, sep)
    case NoSplit => (0, line)
    case Split(left, rest) => (Strtoul(left), rest)
  }

  /** The seven calls of `parse_line` on one line. */
  method ParseTotals(line: string, csv: bool) returns (p: Parsed)
    ensures p == ParsedOf(line, csv)
  {
    hide ValueAndRest, Separator;
    var received, latency, late, skipped, tooLate, lost;
    var rest := line;
    received, rest := ParseLine(rest, csv);
    latency, rest := ParseLine(rest, csv);
    late, rest := ParseLine(rest, csv);
    skipped, rest := ParseLine(rest, csv);
    tooLate, rest := ParseLine(rest, csv);
    skipped, rest := ParseLine(rest, csv);
    lost, rest := ParseLine(rest, csv);
    p := Parsed(received, latency, late, tooLate, lost);
  }

  // ----- Columns that stay apart -----

  /** The column is followed by a separator: always with commas, otherwise when its text leaves room. */
  predicate Apart(csv: bool, field: string, i: nat)
    requires i < 8
  {
    csv || |field| < WIDTHS[i]
  }

  lemma RowStart(csv: bool, fields: seq<string>, i: nat)
    requires |fields| == 8 && i < 8 && AllPrinted(fields)
    ensures Row(csv, fields, i) != [] && Row(csv, fields, i)[0] == fields[i][0]
    ensures fields[i][0] != ' ' && fields[i][0] != ',' && fields[i][0] != '\n'
  {
  }

  lemma CutField(field: string, gap: string, next: string, sep: char)
    requires Free(field, sep) && gap != [] && forall i :: 0 <= i < |gap| ==> gap[i] == sep
    requires next == [] || next[0] != sep
    ensures SplitLine(field + (gap + next), sep) == if next == [] then NoSplit else Split(field, next)
  {
    var line := field + (gap + next);
    FindAfter(field, gap + next, sep);
    SkipRun(gap, next, sep);
    assert line[..|field|] == field && line[|field|..] == gap + next;
  }

  lemma CutMerged(field: string, next: string, sep: char)
    requires Free(field, sep) && next != [] && next[0] != sep
    ensures var s := SplitLine(field + next, sep); s.Split? ==> |s.left| > |field|
  {
  }

  function Padding(csv: bool, field: string, width: nat): (gap: string)
    ensures forall i :: 0 <= i < |gap| ==> gap[i] == Separator(csv)
    ensures gap != [] <==> csv || |field| < width
  {
    if csv then "," else if |field| < width then Spaces(width - |field|) else []
  }

  lemma RowIs(csv: bool, fields: seq<string>, i: nat)
    requires |fields| == 8 && i < 7
    ensures Row(csv, fields, i) == fields[i] + (Padding(csv, fields[i], WIDTHS[i]) + Row(csv, fields, i + 1))
    ensures !Apart(csv, fields[i], i) ==> Row(csv, fields, i) == fields[i] + Row(csv, fields, i + 1)
  {
  }

  /** One split gives the first column back exactly when a separator follows it. */
  lemma SplitRow(csv: bool, fields: seq<string>, i: nat)
    requires |fields| == 8 && i < 7 && AllPrinted(fields)
    ensures Apart(csv, fields[i], i) ==>
              SplitLine(Row(csv, fields, i), Separator(csv)) == Split(fields[i], Row(csv, fields, i + 1))
    ensures !Apart(csv, fields[i], i) ==>
              var s := SplitLine(Row(csv, fields, i), Separator(csv)); s.Split? ==> |s.left| > |fields[i]|
  {
    RowStart(csv, fields, i + 1);
    RowIs(csv, fields, i);
    hide Row, SplitLine;
    assert Printed(fields[i]);
    var next := Row(csv, fields, i + 1);
    if Apart(csv, fields[i], i) {
      CutField(fields[i], Padding(csv, fields[i], WIDTHS[i]), next, Separator(csv));
    } else {
      CutMerged(fields[i], next, Separator(csv));
    }
  }

  /** The splits give the first columns back exactly when each of them is followed by a separator. */
  lemma {:induction false} TokensAreFields(csv: bool, fields: seq<string>, i: nat)
    requires |fields| == 8 && i <= 7 && AllPrinted(fields)
    ensures Tokens(Row(csv, fields, i), Separator(csv), 7 - i) == fields[i..7]
      <==> forall j :: i <= j < 7 ==> Apart(csv, fields[j], j)
    decreases 7 - i
  {
    hide Row, SplitLine, Apart, AllPrinted;
    if i >= 7 {
    } else {
      SplitRow(csv, fields, i);
      TokensAreFields(csv, fields, i + 1);
      var rest := Tokens(Row(csv, fields, i + 1), Separator(csv), 6 - i);
      assert fields[i..7] == [fields[i]] + fields[i + 1..7];
      assert ([fields[i]] + rest)[1..] == rest && fields[i..7][1..] == fields[i + 1..7];
      assert fields[i..7][0] == fields[i];
    }
  }

  predicate AllApart(csv: bool, s: Summary) {
    csv || forall j :: 0 <= j < 7 ==> |Fields(s)[j]| < WIDTHS[j]
  }

  lemma {:induction false} DecimalPrinted(n: nat)
    ensures Printed(Decimal(n))
  {
  }

  lemma AverageTextPrinted(a: Average)
    ensures Printed(AverageText(a))
  {
    if a.Whole? {
      WholeTextPrinted(a.value);
    }
  }

  lemma {:induction false} StripKeeps(s: string)
    ensures StripZeros(s) <= s
  {
    if s == [] || s[|s| - 1] != '0' {
    } else {
      StripKeeps(s[..|s| - 1]);
    }
  }

  lemma ScientificPrinted(digits: string, exponent: nat)
    requires Printed(digits)
    ensures Printed(ScientificText(digits, exponent))
  {
    StripKeeps(digits[1..]);
    DecimalPrinted(exponent);
    var fraction := StripZeros(digits[1..]);
    assert forall c :: c in fraction ==> c in digits[1..];
    assert forall c :: c in digits[..1] ==> c in digits;
    assert forall c :: c in digits[1..] ==> c in digits;
  }

  lemma WholeTextPrinted(n: nat)
    ensures Printed(WholeText(n))
  {
    DecimalPrinted(n);
    if n >= 1000000 {
      var exponent := |Decimal(n)| - 1;
      var mantissa := RoundHalfEven(n, Power10(if exponent >= 5 then exponent - 5 else 0));
      DecimalPrinted(mantissa);
      DecimalPrinted(mantissa / 10);
      ScientificPrinted(Decimal(mantissa / 10), exponent + 1);
      ScientificPrinted(Decimal(mantissa), exponent);
    }
  }

  lemma FieldsPrinted(s: Summary)
    requires SharesPrinted(s)
    ensures AllPrinted(Fields(s))
  {
    DecimalPrinted(s.received);
    DecimalPrinted(s.late);
    DecimalPrinted(s.tooLate);
    DecimalPrinted(s.lost);
    AverageTextPrinted(s.average);
  }

  lemma {:induction false} RowHasNoLineEnd(csv: bool, fields: seq<string>, i: nat)
    requires |fields| == 8 && i <= 8 && AllPrinted(fields)
    ensures Free(Row(csv, fields, i), '\n')
    decreases 8 - i
  {
    if i >= 8 {
    } else {
      RowHasNoLineEnd(csv, fields, i + 1);
      assert Printed(fields[i]);
    }
  }

  // ----- What the splits read -----

  /** The texts between the separators: one that fills its column runs into the next. */
  function Columns(csv: bool, fields: seq<string>, i: nat): (columns: seq<string>)
    requires |fields| == 8 && i <= 7
    ensures columns != [] && |columns| <= 8 - i
    decreases 7 - i
  {
    if i == 7 then [fields[7]]
    else
      var rest := Columns(csv, fields, i + 1);
      if Apart(csv, fields[i], i) then [fields[i]] + rest else [fields[i] + rest[0]] + rest[1..]
  }

  /** The k-th split: the last column is never cut off, because nothing but padding follows it. */
  function ColumnRead(columns: seq<string>, k: nat): uint64 {
    if k + 1 < |columns| then Strtoul(columns[k]) else 0
  }

  ghost predicate SplitsInto(line: string, sep: char, columns: seq<string>)
    decreases |columns|
  {
    && columns != []
    && var s := SplitLine(line, sep);
       if |columns| == 1 then s.NoSplit?
       else s.Split? && s.left == columns[0] && SplitsInto(s.rest, sep, columns[1..])
  }

  lemma LastColumn(csv: bool, fields: seq<string>)
    requires |fields| == 8 && AllPrinted(fields)
    ensures SplitLine(Row(csv, fields, 7), Separator(csv)) == NoSplit
  {
    var last := fields[7];
    assert Printed(last);
    var gap := if csv then [] else Padding(false, last, WIDTHS[7]);
    assert Row(csv, fields, 8) == [] && Row(csv, fields, 7) == last + gap == last + (gap + []);
    if gap != [] {
      CutField(last, gap, [], ' ');
    } else {
      assert last + (gap + []) == last;
    }
  }

  lemma FindPast(a: string, line: string, sep: char)
    requires Free(a, sep)
    ensures Find(a + line, sep) == |a| + Find(line, sep)
  {
    var i, f := Find(a + line, sep), Find(line, sep);
    assert forall j :: 0 <= j < |a| ==> (a + line)[j] == a[j];
    assert forall j :: |a| <= j < |a + line| ==> (a + line)[j] == line[j - |a|];
    if f < |line| {
      assert (a + line)[|a| + f] == sep;
    }
  }

  /** A text without separators in front only makes the first column longer. */
  lemma SplitPast(a: string, line: string, sep: char)
    requires Free(a, sep)
    ensures SplitLine(a + line, sep) ==
      match SplitLine(line, sep)
      case NoSplit => NoSplit
      case Split(left, rest) => Split(a + left, rest)
  {
    FindPast(a, line, sep);
    var f := Find(line, sep);
    assert (a + line)[|a| + f..] == line[f..];
    assert (a + line)[..|a| + f] == a + line[..f];
  }

  lemma JoinsFirst(a: string, line: string, sep: char, columns: seq<string>)
    requires Free(a, sep) && SplitsInto(line, sep, columns)
    ensures SplitsInto(a + line, sep, [a + columns[0]] + columns[1..])
  {
    SplitPast(a, line, sep);
    hide SplitLine;
    var joined := [a + columns[0]] + columns[1..];
    assert joined[1..] == columns[1..];
  }

  lemma {:induction false} RowSplits(csv: bool, fields: seq<string>, i: nat)
    requires |fields| == 8 && i <= 7 && AllPrinted(fields)
    ensures SplitsInto(Row(csv, fields, i), Separator(csv), Columns(csv, fields, i))
    decreases 7 - i
  {
    hide Row, SplitLine, Apart;
    if i == 7 {
      LastColumn(csv, fields);
    } else {
      RowSplits(csv, fields, i + 1);
      var rest := Columns(csv, fields, i + 1);
      if Apart(csv, fields[i], i) {
        SplitRow(csv, fields, i);
        assert Columns(csv, fields, i)[1..] == rest;
      } else {
        RowIs(csv, fields, i);
        assert Printed(fields[i]);
        JoinsFirst(fields[i], Row(csv, fields, i + 1), Separator(csv), rest);
      }
    }
  }

  function Remaining(columns: seq<string>, k: nat): (rest: seq<string>)
    requires columns != []
    ensures rest != []
  {
    if k < |columns| then columns[k..] else columns[|columns| - 1..]
  }

  lemma ReadNext(line: string, sep: char, columns: seq<string>, k: nat)
    requires columns != [] && SplitsInto(line, sep, Remaining(columns, k))
    ensures ValueAndRest(line, sep).0 == ColumnRead(columns, k)
    ensures SplitsInto(ValueAndRest(line, sep).1, sep, Remaining(columns, k + 1))
  {
    hide SplitLine, Strtoul;
    if k + 1 < |columns| {
      assert Remaining(columns, k)[1..] == Remaining(columns, k + 1);
    } else {
      assert Remaining(columns, k) == Remaining(columns, k + 1);
    }
  }

  /** What the parent reads from any printed line, however many columns are full. */
  lemma ReadColumns(csv: bool, fields: seq<string>)
    requires |fields| == 8 && AllPrinted(fields)
    ensures var columns := Columns(csv, fields, 0);
            ParsedOf(Row(csv, fields, 0), csv)
              == Parsed(ColumnRead(columns, 0), ColumnRead(columns, 1), ColumnRead(columns, 2),
                        ColumnRead(columns, 4), ColumnRead(columns, 6))
  {
    hide Row, Columns, ColumnRead, ValueAndRest, SplitsInto, Remaining, AllPrinted;
    var columns, sep, l0 := Columns(csv, fields, 0), Separator(csv), Row(csv, fields, 0);
    RowSplits(csv, fields, 0);
    RemainingAll(columns);
    ReadNext(l0, sep, columns, 0);
    var l1 := ValueAndRest(l0, sep).1;
    ReadNext(l1, sep, columns, 1);
    var l2 := ValueAndRest(l1, sep).1;
    ReadNext(l2, sep, columns, 2);
    var l3 := ValueAndRest(l2, sep).1;
    ReadNext(l3, sep, columns, 3);
    var l4 := ValueAndRest(l3, sep).1;
    ReadNext(l4, sep, columns, 4);
    var l5 := ValueAndRest(l4, sep).1;
    ReadNext(l5, sep, columns, 5);
    var l6 := ValueAndRest(l5, sep).1;
    ReadNext(l6, sep, columns, 6);
  }

  lemma RemainingAll(columns: seq<string>)
    requires columns != []
    ensures Remaining(columns, 0) == columns
  {
  }

  lemma {:induction false} AllColumns(csv: bool, fields: seq<string>, i: nat)
    requires |fields| == 8 && i <= 7
    ensures |Columns(csv, fields, i)| == 8 - i <==> forall j :: i <= j < 7 ==> Apart(csv, fields[j], j)
    ensures |Columns(csv, fields, i)| == 8 - i ==> Columns(csv, fields, i) == fields[i..]
    decreases 7 - i
  {
    hide Apart;
    if i == 7 {
    } else {
      AllColumns(csv, fields, i + 1);
      assert fields[i..] == [fields[i]] + fields[i + 1..];
    }
  }

  // ----- Round trip -----

  /** Splitting the printed line seven times gives back the four counters, and the mean exactly when
      it is below one million; a NaN mean is read as zero. In padded mode every one of the first seven
      texts must be shorter than its column. */
  lemma RoundTrip(s: Summary, csv: bool)
    requires SharesPrinted(s) && AllApart(csv, s)
    ensures var p := ParsedOf(Row(csv, Fields(s), 0), csv);
            && p.received == s.received && p.late == s.late && p.tooLate == s.tooLate && p.lost == s.lost
            && (s.average.Whole? ==> (p.latency == s.average.value <==> s.average.value < 1000000))
            && (s.average.NotANumber? ==> p.latency == 0)
  {
    hide Row, Strtoul, WholeText, Decimal, ParsedOf, Columns;
    FieldsPrinted(s);
    AllColumns(csv, Fields(s), 0);
    ReadColumns(csv, Fields(s));
    StrtoulDecimal(s.received);
    StrtoulDecimal(s.late);
    StrtoulDecimal(s.tooLate);
    StrtoulDecimal(s.lost);
    NanReadsZero();
    if s.average.Whole? {
      WholeTextReadsBack(s.average.value);
    }
  }

  // ----- Full columns -----

  /** Whenever any column before the last is full, the parent reads zero lost messages; otherwise their number. */
  lemma LostReadBack(s: Summary, csv: bool)
    requires SharesPrinted(s)
    ensures ParsedOf(Row(csv, Fields(s), 0), csv).lost == if AllApart(csv, s) then s.lost else 0
  {
    hide Row, Strtoul, Decimal, ParsedOf, Columns, AverageText;
    FieldsPrinted(s);
    AllColumns(csv, Fields(s), 0);
    ReadColumns(csv, Fields(s));
    StrtoulDecimal(s.lost);
  }

  lemma ThousandMillion(n: nat)
    ensures |Decimal(n)| >= 10 <==> n >= 1000000000
  {
    DecimalLength(n, 9);
    assert Power10(9) == 1000000000 by {
      assert Power10(3) == 1000;
      assert Power10(6) == 1000000;
    }
  }

  /** From 10^9 lost messages on, which a single message out of order is enough for, the padded line tells
      the parent that none was lost. */
  lemma GreatLossUnread(s: Summary)
    requires SharesPrinted(s) && s.lost >= 1000000000
    ensures ParsedOf(Row(false, Fields(s), 0), false).lost == 0
  {
    hide Row, ParsedOf;
    ThousandMillion(s.lost);
    assert |Fields(s)[6]| >= WIDTHS[6];
    LostReadBack(s, false);
  }

  predicate Full(s: Summary, i: nat)
    requires i < 8
  {
    |Fields(s)[i]| >= WIDTHS[i]
  }

  /** The counters of received, late and too late messages leave room in their columns. */
  predicate CountersFit(s: Summary) {
    !Full(s, 0) && !Full(s, 2) && !Full(s, 4)
  }

  /** What the parent reads from a padded line in which the mean, the percentages and the number of lost
      messages may fill their columns. */
  function PaddedRead(s: Summary): Parsed {
    Parsed(
      s.received,
      Strtoul(AverageText(s.average) + if Full(s, 1) then Decimal(s.late) else []),
      if !Full(s, 1) then s.late
      else Strtoul(s.lateShare + if Full(s, 3) then Decimal(s.tooLate) else []),
      if !Full(s, 1) && !Full(s, 3) then s.tooLate
      else if Full(s, 1) && Full(s, 3) then (if Full(s, 5) || Full(s, 6) then 0 else s.lost)
      else if Full(s, 5) && Full(s, 6) then 0
      else Strtoul(s.tooLateShare + if Full(s, 5) then Decimal(s.lost) else []),
      if Full(s, 1) || Full(s, 3) || Full(s, 5) || Full(s, 6) then 0 else s.lost)
  }

  lemma ColumnsStep(fields: seq<string>, i: nat)
    requires |fields| == 8 && i < 7
    ensures var rest := Columns(false, fields, i + 1);
            Columns(false, fields, i)
              == if |fields[i]| < WIDTHS[i] then [fields[i]] + rest else [fields[i] + rest[0]] + rest[1..]
  {
  }

  lemma EndColumns(fields: seq<string>)
    requires |fields| == 8
    ensures var full5, full6 := |fields[5]| >= WIDTHS[5], |fields[6]| >= WIDTHS[6];
            Columns(false, fields, 5) ==
              if !full5 && !full6 then [fields[5], fields[6], fields[7]]
              else if !full5 then [fields[5], fields[6] + fields[7]]
              else if !full6 then [fields[5] + fields[6], fields[7]]
              else [fields[5] + (fields[6] + fields[7])]
  {
    ColumnsStep(fields, 6);
    ColumnsStep(fields, 5);
  }

  lemma StartColumns(fields: seq<string>)
    requires |fields| == 8 && |fields[0]| < WIDTHS[0] && |fields[2]| < WIDTHS[2] && |fields[4]| < WIDTHS[4]
    ensures var full1, full3 := |fields[1]| >= WIDTHS[1], |fields[3]| >= WIDTHS[3];
            var end := Columns(false, fields, 5);
            Columns(false, fields, 0) ==
              [fields[0]] + (if full1 then [fields[1] + fields[2]] else [fields[1], fields[2]])
              + (if full3 then [fields[3] + fields[4]] else [fields[3], fields[4]]) + end
  {
    hide Columns;
    MiddleColumns(fields);
    ColumnsStep(fields, 2);
    ColumnsStep(fields, 1);
    ColumnsStep(fields, 0);
  }

  lemma MiddleColumns(fields: seq<string>)
    requires |fields| == 8 && |fields[4]| < WIDTHS[4]
    ensures var end := Columns(false, fields, 5);
            Columns(false, fields, 3)
              == (if |fields[3]| >= WIDTHS[3] then [fields[3] + fields[4]] else [fields[3], fields[4]]) + end
  {
    hide Columns;
    ColumnsStep(fields, 4);
    ColumnsStep(fields, 3);
  }

  lemma NothingAppended(a: string)
    ensures a + [] == a
  {
  }

  /** Every padded line whose counters fit is read so, whichever of the other columns are full. */
  lemma PaddedLineRead(s: Summary)
    requires SharesPrinted(s) && CountersFit(s)
    ensures ParsedOf(Row(false, Fields(s), 0), false) == PaddedRead(s)
  {
    hide Row, Strtoul, Decimal, ParsedOf, Columns, AverageText, SharesPrinted;
    var fields := Fields(s);
    FieldsPrinted(s);
    ReadColumns(false, fields);
    StartColumns(fields);
    EndColumns(fields);
    StrtoulDecimal(s.received);
    StrtoulDecimal(s.late);
    StrtoulDecimal(s.tooLate);
    StrtoulDecimal(s.lost);
    NothingAppended(AverageText(s.average));
    NothingAppended(s.lateShare);
    NothingAppended(s.tooLateShare);
  }

  /** All four counters come back exactly when no column is full, or no message was lost and the texts that
      are read in the place of the late and the too late messages happen to stand for their numbers. */
  lemma CountersExactly(s: Summary)
    requires SharesPrinted(s) && CountersFit(s)
    ensures var p := ParsedOf(Row(false, Fields(s), 0), false);
            p.received == s.received && p.late == s.late && p.tooLate == s.tooLate && p.lost == s.lost
            <==>
              || AllApart(false, s)
              || (s.lost == 0 && PaddedRead(s).late == s.late && PaddedRead(s).tooLate == s.tooLate)
  {
    hide Row, Strtoul, Decimal, ParsedOf, AverageText;
    PaddedLineRead(s);
    LostReadBack(s, false);
    assert AllApart(false, s) <==> !Full(s, 1) && !Full(s, 3) && !Full(s, 5) && !Full(s, 6);
  }

  /** In padded mode the share of late messages may fill its column of ten and run into the next one. The
      parent then reads the share of too late messages as their number, and zero as the number lost: when
      every other column leaves room, the counters are right exactly when that does no harm. */
  lemma CrowdedShare(s: Summary)
    requires SharesPrinted(s)
    requires forall j :: 0 <= j < 7 && j != 3 ==> |Fields(s)[j]| < WIDTHS[j]
    ensures var p := ParsedOf(Row(false, Fields(s), 0), false);
            && (|s.lateShare| >= 10 ==>
                  p == Parsed(s.received, Strtoul(AverageText(s.average)), s.late, Strtoul(s.tooLateShare), 0))
            && (p.received == s.received && p.late == s.late && p.tooLate == s.tooLate && p.lost == s.lost
                <==> |s.lateShare| < 10 || (Strtoul(s.tooLateShare) == s.tooLate && s.lost == 0))
  {
    hide Row, Strtoul, Decimal, AverageText, ParsedOf, SharesPrinted;
    assert !Full(s, 0) && !Full(s, 1) && !Full(s, 2) && !Full(s, 4) && !Full(s, 5) && !Full(s, 6);
    PaddedLineRead(s);
    NothingAppended(AverageText(s.average));
    NothingAppended(s.tooLateShare);
  }

  /** When only the column of the lost messages is full, every other counter is right and the loss is read as zero. */
  lemma CrowdedLoss(s: Summary)
    requires SharesPrinted(s) && s.lost >= 1000000000
    requires forall j :: 0 <= j < 6 ==> |Fields(s)[j]| < WIDTHS[j]
    ensures ParsedOf(Row(false, Fields(s), 0), false)
         == Parsed(s.received, Strtoul(AverageText(s.average)), s.late, s.tooLate, 0)
  {
    hide Row, Strtoul, Decimal, AverageText, ParsedOf, SharesPrinted;
    ThousandMillion(s.lost);
    assert !Full(s, 0) && !Full(s, 1) && !Full(s, 2) && !Full(s, 3) && !Full(s, 4) && !Full(s, 5) && Full(s, 6);
    PaddedLineRead(s);
    NothingAppended(AverageText(s.average));
  }

  /** One late message in 81000 is such a case: 2 too late and 5 lost messages are read as none. */
  const CROWDED := Summary(81000, Whole(744), 1, "0.00123457", 2, "0.00246914", 5, "0.00617246")

  lemma CrowdedLineMisread()
    ensures SharesPrinted(CROWDED) && !AllApart(false, CROWDED)
    ensures ParsedOf(Row(false, Fields(CROWDED), 0), false) == Parsed(81000, 744, 1, 0, 0)
  {
    hide Printed, Row, Strtoul, Decimal, ParsedOf, AllApart;
    ShortDecimals();
    ShareTextPrinted("0.00123457");
    ShareTextPrinted("0.00246914");
    ShareTextPrinted("0.00617246");
    CrowdedColumns();
    CrowdedShare(CROWDED);
    StrtoulDecimal(744);
    ZeroShare("0.00246914");
  }

  lemma CrowdedColumns()
    ensures !AllApart(false, CROWDED)
    ensures forall j :: 0 <= j < 7 ==> (|Fields(CROWDED)[j]| < WIDTHS[j] <==> j != 3)
  {
    ShortDecimals();
    assert |Fields(CROWDED)[3]| == WIDTHS[3];
    hide Decimal;
  }

  lemma ShareTextPrinted(s: string)
    requires s != [] && forall i :: 0 <= i < |s| ==> IsDigit(s[i]) || s[i] == '.'
    ensures Printed(s)
  {
  }

  lemma ShortDecimals()
    ensures |Decimal(81000)| == 5 && |Decimal(744)| == 3 && |Decimal(1)| == |Decimal(2)| == |Decimal(5)| == 1
  {
  }

  /** A share below one is read as zero: the zero before the point is taken for an octal number. */
  lemma ZeroShare(share: string)
    requires |share| >= 2 && share[0] == '0' && share[1] == '.'
    ensures Strtoul(share) == 0
  {
    StrtoulDigits(share);
    assert ReadDigits(share[1..], 8, 0) == 0;
  }
}
