# Duty notifier roster extraction, in Dafny

This project models the core of a duty notifier. The notifier reads an HTML duty schedule exported from a Confluence page and finds who is on duty today. It then formats a chat message and posts it to YuChat. The model covers three parts:

- **the roster extractor** (`parse_duty_table`). It finds the day-header row among the first five rows of the `confluenceTable` table. It resolves the column of today's day of month in that row. Then it walks the later rows, reading each employee's duty cell one column further right: in an employee row, column 0 holds the name. A cell reading О/O puts the employee on primary duty and Р/P on backup duty. Every failure yields the empty roster.
- **the message formatter** (`format_message`). The message has a header line with the date, a line for each non-empty duty list, or "Дежурных не назначено" when both lists are empty. The lines are joined with newlines.
- **the configuration check** of `send_to_yuchat`. It runs before any network call. `token`, `workspace_id` and `chat_id` must be truthy. `api_url` defaults to the public endpoint only when the key is absent.

Files:

- `wrappers.dfy`: `Option` and `Result`.
- `text.dfy`: ASCII digits, `str(n)` and `f"{n:02d}"`, the digit filter, a small case map, and `join`/`split`. These come with their round-trip facts.
- `duty_table.dfy`: the extractor. It has specification functions (`HeaderRow`, `DateColumn`, `CollectRoster`, `DutyRoster`) and the imperative search and walk, each proved equal to its specification (`FindHeaderRow`, `FindDateColumn`, `CollectDuty`, `ParseDutyTable`). It also holds the lemmas about the extractor.
- `message.dfy`: the formatter.
- `yuchat_config.dfy`: the configuration check.

The input table is the HTML parser's output. `None` means no table of class `confluenceTable` was found. Otherwise it is the list of rows, each the list of its cells' decoded, trimmed texts. The target day is the day of month of the run date, so it lies in 1..31.

Nothing in the code keeps one name off both lists. `DutyTable.NameOnBothLists` shows a two-row table that puts the same name on both lists.

## Model

| member | source | states |
|---|---|---|
| Text.NatToString | duty_notifier.py:137 | `str(day)` is a non-empty digit string without leading zero, one character long exactly below 10, and `int` reads the number back from it |
| Text.Pad2 | duty_notifier.py:129 | `f"{day:02d}"` is exactly two digits, and `int` reads the day back from it |
| Text.DigitsOnly | duty_notifier.py:136 | filtering a header text to its digits gives only digits, no longer than the text, and leaves an all-digit text unchanged; a one-character text keeps its character exactly when it is a digit |
| Text.DigitsOnlyConcat | duty_notifier.py:136 | the digit filter works character by character: filtering a concatenation concatenates the filtered parts, so every digit is kept in order and nothing else |
| Text.Upper | duty_notifier.py:172 | `.upper()` keeps the length, turns each lower-case letter into the capital whose small letter it is, and leaves every other character unchanged |
| Text.Lower | duty_notifier.py:166 | `.lower()` keeps the length, turns each capital into the small letter whose capital it is, and leaves every other character unchanged |
| Text.Join | duty_notifier.py:201-211 | `sep.join(parts)` starts with the first part, is that part alone when there is one, and is as long as all parts plus one separator between each two |
| Text.JoinAppend | duty_notifier.py:201-211 | joining two non-empty runs of parts is the join of the first, the separator, then the join of the second, so every two neighbouring names are separated by exactly `", "` |
| Text.SplitJoin | duty_notifier.py:211 | splitting a newline join gives back the joined lines, when no line holds a newline |
| DutyTable.FirstDayRow | duty_notifier.py:106-119 | the result is the first row holding a cell that is all digits with value in 1..31; no earlier row holds one; none means no row does |
| DutyTable.HeaderRow | duty_notifier.py:106-123 | the day-header row lies among the first five rows, has a day label, and no earlier row has one; none means none of the first five rows has one |
| DutyTable.DateColumn | duty_notifier.py:128-146 | the column is the first header cell whose digits read the padded or the plain day; no earlier cell does; none means no cell does |
| DutyTable.DutyRoster | duty_notifier.py:89-183 | a non-empty roster needs a table with at least two rows, a day-header row and a resolved date column; every failure gives the empty roster |
| DutyTable.FindHeaderRow | duty_notifier.py:106-123 | the nested scan of `rows[:5]` with its two `break`s returns the day-header row |
| DutyTable.FindDateColumn | duty_notifier.py:128-146 | the left-to-right column scan with `break` returns the first column naming the day |
| DutyTable.CollectDuty | duty_notifier.py:149-183 | the walk over the rows after the header row builds exactly the roster read from those rows at column `date_column_index + 1` |
| DutyTable.ParseDutyTable | duty_notifier.py:75-183 | the whole extractor returns the specified roster, empty on every failure |
| DutyTable.Classify | duty_notifier.py:172-181 | only a one-character duty value can assign a duty |
| DutyTable.RowAssignment | duty_notifier.py:156-181 | a row assigns a duty only when it has a cell at `date_column_index + 1` and a non-placeholder name |
| DutyTable.AddRow | duty_notifier.py:156-181 | reading one row only appends: both lists keep their old names as a prefix, and a changed roster has the row's name appended to exactly the list of one duty, from an employee row |
| DutyTable.CollectRoster | duty_notifier.py:156-181 | every name on either list is the name of some employee row read by the walk |
| DutyTable.ClassifyPrimaryExactly | duty_notifier.py:172-177 | a duty value means primary duty exactly when it is О or о (Cyrillic) or O or o (Latin) |
| DutyTable.ClassifyBackupExactly | duty_notifier.py:172-181 | a duty value means backup duty exactly when it is Р or р (Cyrillic) or P or p (Latin) |
| DutyTable.RowAssignmentReadsNextColumn | duty_notifier.py:151-172 | for a date column after the first, the cell in the header's own column never affects a row; the cell at `date_column_index + 1` alone decides its duty, unless the name is a placeholder |
| DutyTable.PlaceholderRowsAddNothing | duty_notifier.py:161-167 | a row whose first cell is a placeholder name adds no name, whatever its duty cell says |
| DutyTable.PlaceholderExamples | duty_notifier.py:166 | the empty name and `сотрудник`/`employee` in any letter case are placeholders; a real surname is not |
| DutyTable.PlaceholderIgnoresCase | duty_notifier.py:166 | whether a name is a placeholder does not depend on its letter case |
| DutyTable.CollectRosterAppend | duty_notifier.py:156-181 | reading two runs of rows one after the other concatenates both lists, so names keep row order |
| DutyTable.CollectRosterSize | duty_notifier.py:156-181 | each row adds at most one name to at most one list |
| DutyTable.CollectRosterMembership | duty_notifier.py:156-181 | a name is on the primary (backup) list exactly when some long-enough row with that non-placeholder name has O (P) in its duty cell |
| DutyTable.DutyRosterNames | duty_notifier.py:148-183 | in a successful parse, the names on each list are exactly those of rows strictly after the header row whose cell at `column + 1` assigns that duty |
| DutyTable.CalendarHeaderColumns | duty_notifier.py:106-146 | a header labelled with the days 1..n of any month length n from 1 to 31, padded or not, qualifies as a day-header row and maps every day up to n to its own column; a day after n resolves to no column |
| DutyTable.OffsetExample | duty_notifier.py:151-170 | header `01 02 03` with day 2 gives column 1, and the row `Иванов O Р O` is read at column 2, so Иванов is on backup duty |
| DutyTable.NameOnBothLists | duty_notifier.py:176-181 | two rows for one name, reading O and P, put the name on both lists |
| Message.DateString | duty_notifier.py:196 | the date text is `DD.MM.YYYY`, made of digits and the two dots only; the day, month and year read back from it are the date's; the year has no leading zero and takes four digits from 1000 on |
| Message.YearText | duty_notifier.py:196 | the year text of a year 1..9999 starts with a non-zero digit and is four digits long for years from 1000 |
| Message.HeaderLine | duty_notifier.py:198 | the header is a single line: `Сегодня `, then the date text `DD.MM.YYYY`, then ` дежурные:` |
| Message.MessageLines | duty_notifier.py:198-209 | the message has two or three lines, the first being the header line; there is one line for each non-empty list, plus one more only when both lists are empty |
| Message.MessageLinesContent | duty_notifier.py:198-209 | the `Основной: ` line is there exactly when the primary list is non-empty and the `Резервный: ` line exactly when the backup list is, each with its names joined by `, `, primary first; `Дежурных не назначено` is there exactly when both lists are empty |
| Message.FormatMessage | duty_notifier.py:185-211 | for every roster, the message is the formatter's lines joined with newlines; it opens with the header line and a newline, and is the header followed by `Дежурных не назначено` exactly when both lists are empty |
| Message.FormatMessageLines | duty_notifier.py:211 | when no name holds a newline, the message's lines are exactly the formatter's lines |
| YuChatConfig.MissingKeys | duty_notifier.py:217-218 | the missing keys are exactly the required keys whose value is absent or falsy, in the order of the required list |
| YuChatConfig.YuChatSection | duty_notifier.py:215 | `config.get('yuchat', {})` gives the empty section when the key is absent and the mapping when it holds one; any other value has no `.get` |
| YuChatConfig.PrepareSend | duty_notifier.py:215-234 | a `yuchat` value without `.get` fails; otherwise a request is built exactly when the three keys are truthy, else the failure lists the missing keys; the request carries the token, workspace, chat and message, and the URL is `api_url` when that key is present (even if falsy) and the default endpoint only when it is absent |
| YuChatConfig.MissingTokenOnly | duty_notifier.py:217-222 | a section with workspace and chat but no token fails with exactly `["token"]` missing |

## Left out

- HTML parsing is not modelled: `BeautifulSoup`, `find('table', class_=...)`, `find_all` and `get_text(strip=True)`. The table is given as its cell texts. This also leaves out nested tables, whose rows and cells `find_all` would include.
- `html.unescape` is not modelled. Cell texts are taken as already decoded.
- DutyTable.IsDayLabel: does not model Unicode digits. Python's `str.isdigit` also accepts non-ASCII digits, and `int()` rejects some of those (superscripts), which raises. The model knows ASCII `0`-`9` only.
- Text.DigitsOnly: keeps ASCII digits only, where `str.isdigit` would also keep other Unicode digits.
- Text.Upper: maps Latin a-z, Cyrillic а-я and ё only, not full Unicode case mapping. Python also upper-cases some other characters onto the duty markers, such as U+1C82 CYRILLIC SMALL LETTER NARROW O to `О`. A duty cell holding one of those would count as a duty in Python and is unassigned in the model.
- Text.Lower: maps Latin A-Z, Cyrillic А-Я and Ё only, for the same reason.
- Message.DateString: gives years below 1000 without zero padding. Depending on the Python version and platform, `%Y` may pad them to four digits instead. A run date from the clock never has such a year.
- YuChatConfig.Value: has no floating-point values (a `0.0` token would be falsy) and only string keys in mappings.
- Configuration loading (`load_config`, YAML, `sys.exit`) and HTML file reading (`get_html_file`) are not modelled. They are file I/O.
- `main` is not modelled: glob file discovery, `datetime.now()` and the exit codes are I/O, a clock and process control. The date is a parameter.
- The HTTP POST in `send_to_yuchat` is not modelled: headers, `raise_for_status`, the JSON reply and the 500-character truncation of error bodies. That is network I/O. `PrepareSend` stops where the request would be sent.
- Logging is not modelled.
- `desclet/desklet.js` is not modelled. It is a desktop UI widget with a timer and has no roster logic.
- Running the formatter twice gives the same text. This holds because `FormatMessage` is a function, so no lemma states it.
