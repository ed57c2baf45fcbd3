/**
 * The duty-roster extractor of the notifier (`parse_duty_table`).
 *
 * The HTML table is taken as already parsed: `None` when the page has no
 * table of class `confluenceTable`, otherwise its rows, each the sequence of
 * its cells' entity-decoded, whitespace-trimmed texts.  The extractor finds
 * the day-header row, resolves the column of the target day in it, and then
 * reads every later employee row one column further to the right, because an
 * employee row starts with the name cell while the header row starts with
 * the first day.
 */
module DutyTable {
  import opened Wrappers
  import opened Text

  /** The texts of one table row's cells, in document order. */
  type Row = seq<string>

  /** The two lists of the roster dictionary, 'основной' and 'резервный'. */
  datatype Roster = Roster(primary: seq<string>, backup: seq<string>)

  /** What every failure of the extractor returns. */
  const EmptyRoster := Roster([], [])

  /** The day header is looked for in `rows[:5]` only. */
  const HeaderScanRows: nat := 5

  const CyrillicCapitalO: char := '\U{041E}'
  const CyrillicCapitalEr: char := '\U{0420}'

  /** What an employee row's duty cell assigns for the target day. */
  datatype Assignment = Primary | Backup | Unassigned

  // ------------------------------------------------------------------
  // Locating the day-header row

  /** A cell text the header search accepts: all digits, value in 1..31. */
  predicate IsDayLabel(text: string) {
    IsDigitString(text) && 1 <= DigitsValue(text) <= 31
  }

  predicate HasDayLabel(row: Row) {
    exists j :: 0 <= j < |row| && IsDayLabel(row[j])
  }

  /** The index of the first row that has a day label. */
  function FirstDayRow(rows: seq<Row>): (h: Option<nat>)
    ensures h.Some? ==> h.value < |rows| && HasDayLabel(rows[h.value])
    ensures h.Some? ==> forall j :: 0 <= j < h.value ==> !HasDayLabel(rows[j])
    ensures h.None? ==> forall j :: 0 <= j < |rows| ==> !HasDayLabel(rows[j])
  {
    if rows == [] then None
    else if HasDayLabel(rows[0]) then Some(0)
    else match FirstDayRow(rows[1..])
      case None => None
      case Some(k) => Some(k + 1)
  }

  /** `len(rows[:5])`. */
  function ScanLimit(rows: seq<Row>): nat {
    if |rows| < HeaderScanRows then |rows| else HeaderScanRows
  }

  /** The day-header row: the first of the first five rows with a day label. */
  function HeaderRow(rows: seq<Row>): (h: Option<nat>)
    ensures h.Some? ==> h.value < HeaderScanRows && h.value < |rows| && HasDayLabel(rows[h.value])
    ensures h.Some? ==> forall j :: 0 <= j < h.value ==> !HasDayLabel(rows[j])
    ensures h.None? ==> forall j :: 0 <= j < |rows| && j < HeaderScanRows ==> !HasDayLabel(rows[j])
  {
    FirstDayRow(rows[..ScanLimit(rows)])
  }

  // ------------------------------------------------------------------
  // Resolving the column of the target day

  /** A header cell names `day` when its digits read `f"{day:02d}"` or `str(day)`. */
  predicate MatchesDay(cell: string, day: int)
    requires 1 <= day <= 31
  {
    var digits := DigitsOnly(cell);
    digits == Pad2(day) || digits == NatToString(day)
  }

  /** The index of the first header cell that names `day`. */
  function DateColumn(header: Row, day: int): (c: Option<nat>)
    requires 1 <= day <= 31
    ensures c.Some? ==> c.value < |header| && MatchesDay(header[c.value], day)
    ensures c.Some? ==> forall j :: 0 <= j < c.value ==> !MatchesDay(header[j], day)
    ensures c.None? ==> forall j :: 0 <= j < |header| ==> !MatchesDay(header[j], day)
  {
    if header == [] then None
    else if MatchesDay(header[0], day) then Some(0)
    else match DateColumn(header[1..], day)
      case None => None
      case Some(k) => Some(k + 1)
  }

  // ------------------------------------------------------------------
  // Reading the employee rows

  /** The first cell is a label rather than an employee: empty, or
      'сотрудник' or 'employee' in any letter case. */
  predicate IsPlaceholderName(name: string) {
    name == [] || Lower(name) == "сотрудник" || Lower(name) == "employee"
  }

  /** The upper-cased duty value О/O (Cyrillic or Latin) is primary duty,
      Р/P backup duty, anything else no duty. */
  function Classify(value: string): (a: Assignment)
    ensures a != Unassigned ==> |value| == 1
  {
    var v := Upper(value);
    if v == [CyrillicCapitalO] || v == "O" then Primary
    else if v == [CyrillicCapitalEr] || v == "P" then Backup
    else Unassigned
  }

  /** A row is read when it has a cell at `col + 1` and names an employee. */
  predicate IsEmployeeRow(row: Row, col: nat) {
    |row| > col + 1 && !IsPlaceholderName(row[0])
  }

  /** The duty a row assigns for the day in header column `col`. */
  function RowAssignment(row: Row, col: nat): (a: Assignment)
    ensures a != Unassigned ==> IsEmployeeRow(row, col)
  {
    if IsEmployeeRow(row, col) then Classify(row[col + 1]) else Unassigned
  }

  /** The roster after one more row is read. */
  function AddRow(roster: Roster, row: Row, col: nat): (r: Roster)
    ensures roster.primary <= r.primary && roster.backup <= r.backup
    ensures |r.primary| + |r.backup| <= |roster.primary| + |roster.backup| + 1
    ensures r != roster ==>
      (IsEmployeeRow(row, col) &&
       (r.primary == roster.primary + [row[0]] || r.backup == roster.backup + [row[0]]))
  {
    match RowAssignment(row, col)
    case Primary => Roster(roster.primary + [row[0]], roster.backup)
    case Backup => Roster(roster.primary, roster.backup + [row[0]])
    case Unassigned => roster
  }

  /** The roster read from `rows`, in row order. */
  function CollectRoster(rows: seq<Row>, col: nat): (r: Roster)
    ensures forall n :: n in r.primary || n in r.backup ==>
      exists k :: 0 <= k < |rows| && IsEmployeeRow(rows[k], col) && rows[k][0] == n
  {
    if rows == [] then EmptyRoster
    else
      var init := rows[..|rows| - 1];
      var previous := CollectRoster(init, col);
      var r := AddRow(previous, rows[|rows| - 1], col);
      assert forall k :: 0 <= k < |init| ==> init[k] == rows[k];
      assert forall n :: n in r.primary || n in r.backup ==>
        n in previous.primary || n in previous.backup || (IsEmployeeRow(rows[|rows| - 1], col) && n == rows[|rows| - 1][0]);
      r
  }

  /** The value `parse_duty_table` returns for a table and a day of month. */
  function DutyRoster(table: Option<seq<Row>>, day: int): (r: Roster)
    requires 1 <= day <= 31
    ensures r != EmptyRoster ==>
      && table.Some? && |table.value| >= 2
      && HeaderRow(table.value).Some?
      && DateColumn(table.value[HeaderRow(table.value).value], day).Some?
  {
    match table
    case None => EmptyRoster
    case Some(rows) =>
      if |rows| < 2 then EmptyRoster
      else match HeaderRow(rows)
        case None => EmptyRoster
        case Some(h) =>
          match DateColumn(rows[h], day)
          case None => EmptyRoster
          case Some(c) => CollectRoster(rows[h + 1..], c)
  }

  // ------------------------------------------------------------------
  // The extractor, step by step

  /** The header search: rows[:5], each row's cells left to right, stopping
      at the first day label. */
  method FindHeaderRow(rows: seq<Row>) returns (headerIndex: Option<nat>)
    ensures headerIndex == HeaderRow(rows)
  {
    headerIndex := None;
    var limit := if |rows| < HeaderScanRows then |rows| else HeaderScanRows;
    var idx := 0;
    while idx < limit
      invariant 0 <= idx <= limit == ScanLimit(rows)
      invariant headerIndex.None?
      invariant forall j :: 0 <= j < idx ==> !HasDayLabel(rows[j])
    {
      var cells := rows[idx];
      var k := 0;
      while k < |cells|
        invariant 0 <= k <= |cells|
        invariant headerIndex.None?
        invariant forall i :: 0 <= i < k ==> !IsDayLabel(cells[i])
      {
        if IsDayLabel(cells[k]) {
          headerIndex := Some(idx);
          break;
        }
        k := k + 1;
      }
      if headerIndex.Some? {
        break;
      }
      idx := idx + 1;
    }
  }

  /** The column search: header cells left to right, stopping at the first
      whose digits read the padded or the plain day number. */
  method FindDateColumn(header: Row, day: int) returns (column: Option<nat>)
    requires 1 <= day <= 31
    ensures column == DateColumn(header, day)
  {
    var padded := Pad2(day);
    var plain := NatToString(day);
    column := None;
    var idx := 0;
    while idx < |header|
      invariant 0 <= idx <= |header|
      invariant column.None?
      invariant forall j :: 0 <= j < idx ==> !MatchesDay(header[j], day)
    {
      var digits := DigitsOnly(header[idx]);
      assert MatchesDay(header[idx], day) <==> digits == padded || digits == plain;
      if digits == padded || digits == plain {
        column := Some(idx);
        break;
      }
      idx := idx + 1;
    }
  }

  /** The walk over the rows after the header row, reading the duty cell of
      each at `column + 1`. */
  method CollectDuty(rows: seq<Row>, headerIndex: nat, column: nat) returns (roster: Roster)
    requires headerIndex < |rows|
    ensures roster == CollectRoster(rows[headerIndex + 1..], column)
  {
    var primary: seq<string> := [];
    var backup: seq<string> := [];
    var dutyColumn := column + 1;
    for i := headerIndex + 1 to |rows|
      invariant Roster(primary, backup) == CollectRoster(rows[headerIndex + 1..i], column)
    {
      assert rows[headerIndex + 1..i + 1][..i - headerIndex - 1] == rows[headerIndex + 1..i];
      var cells := rows[i];
      if |cells| <= dutyColumn {
        continue;
      }
      var name := cells[0];
      if name == [] || Lower(name) == "сотрудник" || Lower(name) == "employee" {
        continue;
      }
      var duty := Upper(cells[dutyColumn]);
      if duty == [CyrillicCapitalO] || duty == "O" {
        primary := primary + [name];
      } else if duty == [CyrillicCapitalEr] || duty == "P" {
        backup := backup + [name];
      }
    }
    assert rows[headerIndex + 1..|rows|] == rows[headerIndex + 1..];
    roster := Roster(primary, backup);
  }

  /** `parse_duty_table`: every failure gives the empty roster. */
  method ParseDutyTable(table: Option<seq<Row>>, day: int) returns (roster: Roster)
    requires 1 <= day <= 31
    ensures roster == DutyRoster(table, day)
  {
    if table.None? {
      return EmptyRoster;
    }
    var rows := table.value;
    if |rows| < 2 {
      return EmptyRoster;
    }
    var headerIndex := FindHeaderRow(rows);
    if headerIndex.None? {
      return EmptyRoster;
    }
    var column := FindDateColumn(rows[headerIndex.value], day);
    if column.None? {
      return EmptyRoster;
    }
    roster := CollectDuty(rows, headerIndex.value, column.value);
  }

  // ------------------------------------------------------------------
  // Properties

  /** Primary duty is exactly the values О, о (Cyrillic) and O, o (Latin). */
  lemma ClassifyPrimaryExactly(value: string)
    ensures Classify(value) == Primary <==>
      value == [CyrillicCapitalO] || value == ['\U{043E}'] || value == "O" || value == "o"
  {
    if |value| == 1 {
      assert Upper(value) == [UpperChar(value[0])];
    }
  }

  /** Backup duty is exactly the values Р, р (Cyrillic) and P, p (Latin). */
  lemma ClassifyBackupExactly(value: string)
    ensures Classify(value) == Backup <==>
      value == [CyrillicCapitalEr] || value == ['\U{0440}'] || value == "P" || value == "p"
  {
    if |value| == 1 {
      assert Upper(value) == [UpperChar(value[0])];
    }
  }

  /** The duty cell of an employee row is the one at `col + 1`: what stands
      in the header's own column `col` never matters, and the cell at
      `col + 1` alone decides the assignment. */
  lemma RowAssignmentReadsNextColumn(row: Row, col: nat, v: string)
    requires col + 1 < |row|
    ensures 0 < col ==> RowAssignment(row[col := v], col) == RowAssignment(row, col)
    ensures RowAssignment(row[col + 1 := v], col) ==
      if IsPlaceholderName(row[0]) then Unassigned else Classify(v)
  {
  }

  /** A row whose first cell is empty or reads 'сотрудник' or 'employee',
      in any letter case, adds no name whatever its duty cell says. */
  lemma PlaceholderRowsAddNothing(row: Row, col: nat)
    requires |row| > 0 && IsPlaceholderName(row[0])
    ensures CollectRoster([row], col) == EmptyRoster
  {
    assert [row][..0] == [];
  }

  /** The labels are matched in any letter case; a real name is no label. */
  lemma PlaceholderExamples()
    ensures IsPlaceholderName("") && IsPlaceholderName("Сотрудник") && IsPlaceholderName("EMPLOYEE")
    ensures IsPlaceholderName("Employee") && !IsPlaceholderName("Иванов")
  {
    assert Lower("Сотрудник") == "сотрудник";
    assert Lower("EMPLOYEE") == "employee";
    assert Lower("Employee") == "employee";
    assert Lower("Иванов")[0] != 'с' && Lower("Иванов")[0] != 'e';
  }

  /** Upper-casing a name first never changes whether it is a label. */
  lemma {:induction false} PlaceholderIgnoresCase(name: string)
    ensures IsPlaceholderName(Upper(name)) == IsPlaceholderName(name)
  {
    forall i | 0 <= i < |name|
      ensures Lower(Upper(name))[i] == Lower(name)[i]
    {
      var c := name[i];
      assert Upper(name)[i] == UpperChar(c);
    }
    assert Lower(Upper(name)) == Lower(name);
  }

  /** Reading two runs of rows one after the other concatenates their lists:
      names keep row order. */
  lemma {:induction false} CollectRosterAppend(a: seq<Row>, b: seq<Row>, col: nat)
    ensures CollectRoster(a + b, col) ==
      Roster(CollectRoster(a, col).primary + CollectRoster(b, col).primary,
             CollectRoster(a, col).backup + CollectRoster(b, col).backup)
    decreases |b|
  {
    if b == [] {
      assert a + b == a;
    } else {
      var b' := b[..|b| - 1];
      assert (a + b)[..|a + b| - 1] == a + b';
      CollectRosterAppend(a, b', col);
    }
  }

  /** Each row adds at most one name, to at most one list. */
  lemma {:induction false} CollectRosterSize(rows: seq<Row>, col: nat)
    ensures |CollectRoster(rows, col).primary| + |CollectRoster(rows, col).backup| <= |rows|
    decreases |rows|
  {
    if rows != [] {
      CollectRosterSize(rows[..|rows| - 1], col);
    }
  }

  /** `row` is an employee row for `name` whose duty cell reads `a`. */
  predicate Assigns(row: Row, col: nat, name: string, a: Assignment) {
    IsEmployeeRow(row, col) && row[0] == name && Classify(row[col + 1]) == a
  }

  /** Some row of `rows` assigns duty `a` to `name`. */
  predicate AssignedIn(rows: seq<Row>, col: nat, name: string, a: Assignment) {
    exists k :: 0 <= k < |rows| && Assigns(rows[k], col, name, a)
  }

  /** A row run assigns `a` to `name` when its last row or an earlier one does. */
  lemma AssignedInSnoc(rows: seq<Row>, col: nat, name: string, a: Assignment)
    requires rows != []
    ensures AssignedIn(rows, col, name, a) <==>
      AssignedIn(rows[..|rows| - 1], col, name, a) || Assigns(rows[|rows| - 1], col, name, a)
  {
    var init := rows[..|rows| - 1];
    if AssignedIn(rows, col, name, a) {
      var k :| 0 <= k < |rows| && Assigns(rows[k], col, name, a);
      if k < |init| {
        assert Assigns(init[k], col, name, a);
      }
    }
    if AssignedIn(init, col, name, a) {
      var k :| 0 <= k < |init| && Assigns(init[k], col, name, a);
      assert Assigns(rows[k], col, name, a);
    }
  }

  /** A name is on a list exactly when some employee row assigns it that duty. */
  lemma {:induction false} CollectRosterMembership(rows: seq<Row>, col: nat, name: string)
    ensures name in CollectRoster(rows, col).primary <==> AssignedIn(rows, col, name, Primary)
    ensures name in CollectRoster(rows, col).backup <==> AssignedIn(rows, col, name, Backup)
    decreases |rows|
  {
    if rows != [] {
      var init := rows[..|rows| - 1];
      CollectRosterMembership(init, col, name);
      AssignedInSnoc(rows, col, name, Primary);
      AssignedInSnoc(rows, col, name, Backup);
    }
  }

  /** The names `parse_duty_table` returns are exactly those of the employee
      rows strictly after the header row whose cell at `column + 1` reads
      О/O (primary) or Р/P (backup). */
  lemma DutyRosterNames(rows: seq<Row>, day: int, name: string)
    requires 1 <= day <= 31
    requires |rows| >= 2 && HeaderRow(rows).Some? && DateColumn(rows[HeaderRow(rows).value], day).Some?
    ensures
      var h := HeaderRow(rows).value;
      var c := DateColumn(rows[h], day).value;
      && (name in DutyRoster(Some(rows), day).primary <==>
          exists k :: h < k < |rows| && Assigns(rows[k], c, name, Primary))
      && (name in DutyRoster(Some(rows), day).backup <==>
          exists k :: h < k < |rows| && Assigns(rows[k], c, name, Backup))
  {
    var h := HeaderRow(rows).value;
    var c := DateColumn(rows[h], day).value;
    var after := rows[h + 1..];
    CollectRosterMembership(after, c, name);
    forall a, k | h < k < |rows| && Assigns(rows[k], c, name, a)
      ensures AssignedIn(after, c, name, a)
    {
      assert after[k - h - 1] == rows[k];
    }
    forall a | AssignedIn(after, c, name, a)
      ensures exists k :: h < k < |rows| && Assigns(rows[k], c, name, a)
    {
      var k :| 0 <= k < |after| && Assigns(after[k], c, name, a);
      assert rows[h + 1 + k] == after[k];
    }
  }

  /** A cell labelled with day `i + 1`, padded or not, is all digits with
      that value, and the digit filter leaves it as it is. */
  lemma CalendarCell(cell: string, i: nat)
    requires i < 31
    requires cell == Pad2(i + 1) || cell == NatToString(i + 1)
    ensures OnlyDigits(cell) && DigitsValue(cell) == i + 1 && DigitsOnly(cell) == cell
  {
  }

  /** A header row labelled with the days 1..n of a month, padded or not,
      qualifies as a day-header row; it resolves every day up to n to its
      own column, and every later day to no column. */
  lemma CalendarHeaderColumns(header: Row, day: int)
    requires 1 <= day <= 31
    requires 1 <= |header| <= 31
    requires forall i :: 0 <= i < |header| ==> header[i] == Pad2(i + 1) || header[i] == NatToString(i + 1)
    ensures HasDayLabel(header)
    ensures day <= |header| ==> DateColumn(header, day) == Some(day - 1)
    ensures day > |header| ==> DateColumn(header, day) == None
  {
    CalendarCell(header[0], 0);
    assert IsDayLabel(header[0]);
    forall j | 0 <= j < |header| && j != day - 1
      ensures !MatchesDay(header[j], day)
    {
      CalendarCell(header[j], j);
    }
    if day <= |header| {
      CalendarCell(header[day - 1], day - 1);
      assert MatchesDay(header[day - 1], day);
    }
  }

  /** The column-offset scenario: header `01 02 03`, day 2 resolves to
      column 1; the employee row is read at column 2, whose Р puts Иванов on
      backup duty, although the cell at column 1 reads O. */
  lemma OffsetExample()
    ensures
      var table := [["01", "02", "03"], ["Иванов", "O", [CyrillicCapitalEr], "O"]];
      && HeaderRow(table) == Some(0)
      && DateColumn(table[0], 2) == Some(1)
      && DutyRoster(Some(table), 2) == Roster([], ["Иванов"])
  {
    var table := [["01", "02", "03"], ["Иванов", "O", [CyrillicCapitalEr], "O"]];
    assert IsDayLabel(table[0][0]);
    assert !MatchesDay(table[0][0], 2) && MatchesDay(table[0][1], 2);
    var after := table[1..];
    assert after[..0] == [];
    assert Upper([CyrillicCapitalEr]) == [CyrillicCapitalEr];
    assert Lower("Иванов") != "сотрудник";
    assert HeaderRow(table) == Some(0);
    assert DateColumn(table[0], 2) == Some(1);
    assert !IsPlaceholderName(after[0][0]);
    assert RowAssignment(after[0], 1) == Backup;
    assert CollectRoster(after, 1) == Roster([], ["Иванов"]);
  }

  /** Nothing keeps one name off both lists: two rows for the same employee,
      one reading O and one reading P, put the name on both. */
  lemma NameOnBothLists()
    ensures
      var table := [["01"], ["Иванов", "O"], ["Иванов", "P"]];
      DutyRoster(Some(table), 1) == Roster(["Иванов"], ["Иванов"])
  {
    var table := [["01"], ["Иванов", "O"], ["Иванов", "P"]];
    assert IsDayLabel(table[0][0]);
    assert MatchesDay(table[0][0], 1);
    var after := table[1..];
    assert after[..1] == [after[0]];
    assert after[..1][..0] == [];
    assert Lower("Иванов") != "сотрудник";
    assert HeaderRow(table) == Some(0);
    assert DateColumn(table[0], 1) == Some(0);
    assert Upper("O") == "O" && Upper("P") == "P";
    assert Classify(after[0][1]) == Primary && Classify(after[1][1]) == Backup;
    assert RowAssignment(after[0], 0) == Primary;
    assert RowAssignment(after[1], 0) == Backup;
    assert CollectRoster(after[..1], 0) == Roster(["Иванов"], []);
  }
}
