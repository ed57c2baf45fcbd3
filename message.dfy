/**
 * The notification text (`format_message`): a header line naming the date,
 * one line for each non-empty duty list, or a fixed line when both lists
 * are empty, all joined with newlines.
 */
module Message {
  import opened Text
  import DutyTable

  /** A calendar date, as a `datetime` holds it. */
  datatype Date = Date(year: int, month: int, day: int)

  predicate ValidDate(d: Date) {
    1 <= d.year <= 9999 && 1 <= d.month <= 12 && 1 <= d.day <= 31
  }

  /** `strftime('%d.%m.%Y')`: the fields read back from the text are the date's. */
  function DateString(d: Date): (s: string)
    requires ValidDate(d)
    ensures |s| >= 7 && s[2] == '.' && s[5] == '.'
    ensures OnlyDigits(s[..2]) && DigitsValue(s[..2]) == d.day
    ensures OnlyDigits(s[3..5]) && DigitsValue(s[3..5]) == d.month
    ensures IsDigitString(s[6..]) && DigitsValue(s[6..]) == d.year
    ensures s[6] != '0'
    ensures d.year >= 1000 ==> |s| == 10
    ensures forall i :: 0 <= i < |s| ==> s[i] == '.' || IsDigit(s[i])
  {
    var year := NatToString(d.year);
    var s := Pad2(d.day) + "." + Pad2(d.month) + "." + year;
    assert s[..2] == Pad2(d.day) && s[3..5] == Pad2(d.month) && s[6..] == year;
    YearText(d.year);
    s
  }

  /** A year from 1 to 9999 is written without a leading zero, in four
      digits from 1000 on. */
  lemma YearText(year: nat)
    requires 1 <= year <= 9999
    ensures NatToString(year)[0] != '0'
    ensures year >= 1000 ==> |NatToString(year)| == 4
  {
    var text := NatToString(year);
    if year < 10 {
      assert text == text[..0] + [text[0]];
      assert DigitsValue(text) == DigitValue(text[0]);
    }
    if year >= 1000 {
      assert DecimalLength(year / 1000) == 1;
      assert DecimalLength(year / 100) == 2;
      assert DecimalLength(year / 10) == 3;
    }
  }

  const PrimaryLabel := "Основной: "
  const BackupLabel := "Резервный: "
  const NoDutyLine := "Дежурных не назначено"

  const Greeting := "Сегодня "
  const DutySuffix := " дежурные:"

  /** The header line: one line, "Сегодня ", then the date text, then
      " дежурные:". */
  function HeaderLine(d: Date): (r: string)
    requires ValidDate(d)
    ensures "Сегодня " <= r && '\n' !in r
    ensures |r| >= 10 && r[|r| - 10..] == " дежурные:"
    ensures |r| >= 18 && r[8..|r| - 10] == DateString(d)
  {
    var date := DateString(d);
    DateHasNoBreak(d);
    HeaderPiecesHaveNoBreak();
    Framed(Greeting, date, DutySuffix);
    Greeting + date + DutySuffix
  }

  lemma HeaderPiecesHaveNoBreak()
    ensures |Greeting| == 8 && |DutySuffix| == 10
    ensures '\n' !in Greeting && '\n' !in DutySuffix
  {
  }

  /** The date text is made of digits and dots, so it holds no line break. */
  lemma DateHasNoBreak(d: Date)
    requires ValidDate(d)
    ensures '\n' !in DateString(d)
  {
    var date := DateString(d);
    assert forall i :: 0 <= i < |date| ==> date[i] != '\n';
  }

  /** A text between a prefix and a suffix can be cut back out, and the
      whole holds no line break when no piece does. */
  lemma Framed(prefix: string, middle: string, suffix: string)
    requires '\n' !in prefix && '\n' !in middle && '\n' !in suffix
    ensures var r := prefix + middle + suffix;
      && prefix <= r
      && r[|prefix|..|r| - |suffix|] == middle
      && r[|r| - |suffix|..] == suffix
      && '\n' !in r
  {
    var r := prefix + middle + suffix;
    assert r[|prefix|..|r| - |suffix|] == middle;
    assert r[|r| - |suffix|..] == suffix;
    assert forall i :: 0 <= i < |r| ==> r[i] != '\n' by {
      forall i | 0 <= i < |r|
        ensures r[i] != '\n'
      {
        if i < |prefix| {
          assert r[i] == prefix[i];
        } else if i < |prefix| + |middle| {
          assert r[i] == middle[i - |prefix|];
        } else {
          assert r[i] == suffix[i - |prefix| - |middle|];
        }
      }
    }
  }

  predicate HasLineStarting(lines: seq<string>, prefix: string) {
    exists i :: 0 <= i < |lines| && prefix <= lines[i]
  }

  /** The lines of the message, before they are joined. */
  function MessageLines(d: Date, roster: DutyTable.Roster): (lines: seq<string>)
    requires ValidDate(d)
    ensures 2 <= |lines| <= 3 && lines[0] == HeaderLine(d)
    ensures |lines| == 1 + (if roster.primary != [] then 1 else 0)
      + (if roster.backup != [] then 1 else 0)
      + (if roster.primary == [] && roster.backup == [] then 1 else 0)
  {
    [HeaderLine(d)]
    + (if roster.primary != [] then [PrimaryLabel + Join(roster.primary, ", ")] else [])
    + (if roster.backup != [] then [BackupLabel + Join(roster.backup, ", ")] else [])
    + (if roster.primary == [] && roster.backup == [] then [NoDutyLine] else [])
  }

  lemma DifferentFirstChar(p: string, x: string)
    requires p != [] && x != [] && p[0] != x[0]
    ensures !(p <= x)
  {
  }

  /** Each label opens only its own line: the lines start with different
      letters. */
  lemma LabelsTellLinesApart(header: string, primaryLine: string, backupLine: string, roster: DutyTable.Roster)
    requires "Сегодня " <= header
    requires primaryLine == PrimaryLabel + Join(roster.primary, ", ")
    requires backupLine == BackupLabel + Join(roster.backup, ", ")
    ensures PrimaryLabel <= primaryLine && BackupLabel <= backupLine
    ensures !(PrimaryLabel <= header) && !(PrimaryLabel <= backupLine) && !(PrimaryLabel <= NoDutyLine)
    ensures !(BackupLabel <= header) && !(BackupLabel <= primaryLine) && !(BackupLabel <= NoDutyLine)
    ensures NoDutyLine != header && NoDutyLine != primaryLine && NoDutyLine != backupLine
  {
    assert header[0] == 'С' && primaryLine[0] == 'О' && backupLine[0] == 'Р' && NoDutyLine[0] == 'Д';
    DifferentFirstChar(PrimaryLabel, header);
    DifferentFirstChar(PrimaryLabel, backupLine);
    DifferentFirstChar(PrimaryLabel, NoDutyLine);
    DifferentFirstChar(BackupLabel, header);
    DifferentFirstChar(BackupLabel, primaryLine);
    DifferentFirstChar(BackupLabel, NoDutyLine);
  }

  /** Which lines a list of the message's shape holds, told apart by their
      labels. */
  lemma LinesByLabel(lines: seq<string>, header: string, primaryLine: string, backupLine: string,
                     hasPrimary: bool, hasBackup: bool)
    requires lines == [header]
      + (if hasPrimary then [primaryLine] else [])
      + (if hasBackup then [backupLine] else [])
      + (if !hasPrimary && !hasBackup then [NoDutyLine] else [])
    requires PrimaryLabel <= primaryLine && BackupLabel <= backupLine
    requires !(PrimaryLabel <= header) && !(PrimaryLabel <= backupLine) && !(PrimaryLabel <= NoDutyLine)
    requires !(BackupLabel <= header) && !(BackupLabel <= primaryLine) && !(BackupLabel <= NoDutyLine)
    requires NoDutyLine != header && NoDutyLine != primaryLine && NoDutyLine != backupLine
    ensures HasLineStarting(lines, PrimaryLabel) == hasPrimary
    ensures HasLineStarting(lines, BackupLabel) == hasBackup
    ensures NoDutyLine in lines <==> !hasPrimary && !hasBackup
    ensures forall i :: 0 <= i < |lines| && PrimaryLabel <= lines[i] ==> lines[i] == primaryLine
    ensures forall i :: 0 <= i < |lines| && BackupLabel <= lines[i] ==> lines[i] == backupLine
    ensures forall i, j ::
      (0 <= i < |lines| && 0 <= j < |lines| && PrimaryLabel <= lines[i] && BackupLabel <= lines[j])
      ==> i < j
  {
    if hasPrimary && hasBackup {
      assert lines == [header, primaryLine, backupLine];
      assert PrimaryLabel <= lines[1] && BackupLabel <= lines[2];
    } else if hasPrimary {
      assert lines == [header, primaryLine];
      assert PrimaryLabel <= lines[1];
    } else if hasBackup {
      assert lines == [header, backupLine];
      assert BackupLabel <= lines[1];
    } else {
      assert lines == [header, NoDutyLine];
    }
  }

  /** The header line comes first; a line for a duty list is there exactly
      when that list is non-empty and carries its names joined by ", ", the
      primary line before the backup line; the no-duty line is there exactly
      when both lists are empty. */
  lemma MessageLinesContent(d: Date, roster: DutyTable.Roster)
    requires ValidDate(d)
    ensures var lines := MessageLines(d, roster);
      && HasLineStarting(lines, PrimaryLabel) == (roster.primary != [])
      && HasLineStarting(lines, BackupLabel) == (roster.backup != [])
      && (NoDutyLine in lines <==> roster.primary == [] && roster.backup == [])
      && (forall i :: 0 <= i < |lines| && PrimaryLabel <= lines[i] ==>
            lines[i] == PrimaryLabel + Join(roster.primary, ", "))
      && (forall i :: 0 <= i < |lines| && BackupLabel <= lines[i] ==>
            lines[i] == BackupLabel + Join(roster.backup, ", "))
      && (forall i, j ::
            (0 <= i < |lines| && 0 <= j < |lines| && PrimaryLabel <= lines[i] && BackupLabel <= lines[j])
            ==> i < j)
  {
    var header := HeaderLine(d);
    var primaryLine := PrimaryLabel + Join(roster.primary, ", ");
    var backupLine := BackupLabel + Join(roster.backup, ", ");
    LabelsTellLinesApart(header, primaryLine, backupLine, roster);
    LinesByLabel(MessageLines(d, roster), header, primaryLine, backupLine,
                 roster.primary != [], roster.backup != []);
  }

  /** `format_message`: the lines joined with newlines.  It always opens with
      the header line, and the no-duty text follows it directly exactly when
      both lists are empty. */
  function FormatMessage(d: Date, roster: DutyTable.Roster): (message: string)
    requires ValidDate(d)
    ensures message == Join(MessageLines(d, roster), "\n")
    ensures HeaderLine(d) + "\n" <= message
    ensures roster.primary == [] && roster.backup == [] <==>
      message == HeaderLine(d) + "\n" + NoDutyLine
  {
    var lines := MessageLines(d, roster);
    SecondLine(d, roster);
    var header := lines[0];
    var rest := Join(lines[1..], "\n");
    assert lines[1] <= rest;
    var message := header + "\n" + rest;
    assert message[|header| + 1] == rest[0] == lines[1][0];
    assert (header + "\n" + NoDutyLine)[|header| + 1] == NoDutyLine[0];
    assert message == Join(lines, "\n");
    message
  }

  /** A list of the message's shape: the header, then the line of each
      present list, or the no-duty line when neither is present. */
  lemma LineShape(lines: seq<string>, header: string, primaryLine: string, backupLine: string,
                  hasPrimary: bool, hasBackup: bool)
    requires lines == [header]
      + (if hasPrimary then [primaryLine] else [])
      + (if hasBackup then [backupLine] else [])
      + (if !hasPrimary && !hasBackup then [NoDutyLine] else [])
    ensures |lines| >= 2 && lines[0] == header
    ensures lines[1] == (if hasPrimary then primaryLine else if hasBackup then backupLine else NoDutyLine)
    ensures !hasPrimary && !hasBackup ==> lines[1..] == [NoDutyLine]
    ensures forall i :: 0 <= i < |lines| ==>
      lines[i] == header || lines[i] == primaryLine || lines[i] == backupLine || lines[i] == NoDutyLine
  {
  }

  /** The line after the header is the no-duty line when both lists are
      empty; otherwise it is a labelled line, which starts with another
      letter. */
  lemma SecondLine(d: Date, roster: DutyTable.Roster)
    requires ValidDate(d)
    ensures var lines := MessageLines(d, roster);
      && lines[1] != []
      && (roster.primary == [] && roster.backup == [] ==> lines[1..] == [NoDutyLine])
      && (lines[1][0] == NoDutyLine[0] <==> roster.primary == [] && roster.backup == [])
  {
    var primaryLine := PrimaryLabel + Join(roster.primary, ", ");
    var backupLine := BackupLabel + Join(roster.backup, ", ");
    assert primaryLine[0] == PrimaryLabel[0] && backupLine[0] == BackupLabel[0];
    LineShape(MessageLines(d, roster), HeaderLine(d), primaryLine, backupLine,
              roster.primary != [], roster.backup != []);
  }

  /** When no name holds a line break, splitting the message at its line
      breaks gives back exactly its lines. */
  lemma FormatMessageLines(d: Date, roster: DutyTable.Roster)
    requires ValidDate(d)
    requires forall i :: 0 <= i < |roster.primary| ==> '\n' !in roster.primary[i]
    requires forall i :: 0 <= i < |roster.backup| ==> '\n' !in roster.backup[i]
    ensures Split(FormatMessage(d, roster), '\n') == MessageLines(d, roster)
  {
    var primaryLine := PrimaryLabel + Join(roster.primary, ", ");
    var backupLine := BackupLabel + Join(roster.backup, ", ");
    JoinAvoids(roster.primary, ", ", '\n');
    JoinAvoids(roster.backup, ", ", '\n');
    assert '\n' !in primaryLine && '\n' !in backupLine;
    SplitShapedJoin(MessageLines(d, roster), HeaderLine(d), primaryLine, backupLine,
                    roster.primary != [], roster.backup != []);
  }

  /** Joining a list of the message's shape at line breaks and splitting it
      again gives the list back, when none of its lines holds a line break. */
  lemma SplitShapedJoin(lines: seq<string>, header: string, primaryLine: string, backupLine: string,
                        hasPrimary: bool, hasBackup: bool)
    requires lines == [header]
      + (if hasPrimary then [primaryLine] else [])
      + (if hasBackup then [backupLine] else [])
      + (if !hasPrimary && !hasBackup then [NoDutyLine] else [])
    requires '\n' !in header && '\n' !in primaryLine && '\n' !in backupLine
    ensures Split(lines[0] + "\n" + Join(lines[1..], "\n"), '\n') == lines
  {
    LineShape(lines, header, primaryLine, backupLine, hasPrimary, hasBackup);
    assert '\n' !in NoDutyLine;
    assert lines[0] + "\n" + Join(lines[1..], "\n") == Join(lines, "\n");
    SplitJoin(lines, '\n');
  }
}
