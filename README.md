# Matsurica import: a verified model

`matsurica_integrated_tool.py` turns two spreadsheets into an import file for
the Matsurica sales-activity service:

- a customer list, holding each customer's name, id, customer class and support
  owner;
- an activity export, often a damaged Excel sheet.

It works in four stages:

1. It reads the activity sheet. If the XML does not parse, it salvages the rows
   with regular expressions. It resolves shared-string cells and converts Excel
   serial dates.
2. It drops the junk rows above the real heading row.
3. It matches each activity row to the first customer whose normalised company
   name occurs in one of the row's text columns (C, M or G).
4. It writes one record per matched row under the columns of the import
   template.

Each record holds the customer id, an action kind, a start and end date and
time, the report body, the status 完了 and the customer's support owner.

This project models those stages in Dafny, one module per part of the script:

| module | file | models |
|---|---|---|
| `Strings`, `Values` | strings.dfy, values.dfy | Python's `strip`, `in`, `replace`, `split`, `str()` and truthiness on the cell values pandas produces (text, int, integral float, NaN, None) |
| `TextKey` | text_key.dfy | `to_hiragana`, `normalize_text`, `clean_newlines` |
| `Columns` | columns.dfy | `normalize_column_label`, `build_column_lookup`, `resolve_column`, `find_col`, `pick_col` |
| `SheetCells` | sheet_cells.dfy | cell decoding in `parse_sheet_xml` and `extract_data_with_regex` |
| `Calendar` | calendar.dfy | `is_valid_date`, `convert_excel_serial_to_date`, on Python's proleptic Gregorian ordinals |
| `HeaderRecovery` | header_recovery.dfy | `remove_non_header_rows` |
| `Matching` | matching.dfy | the matching loop of `match_customers` |
| `NoteBody` | note_body.dfy | `extract_action_body_v6` |
| `ActionType` | action_type.dfy | `decide_action_type` |
| `DateRange` | date_range.dfy | `parse_dt_range` |
| `OutputRecords` | output.dfy | `build_output` |

Where the script works step by step, the model does too:

- loops over rows, cells and customers;
- the dictionaries it fills;
- the sets of rows it still has to match.

These are methods with loop invariants. Each method is proved equal to a
specification function, and the script's promises are proved about that
function as lemmas. The pure helpers are functions.

A few points of the script's behaviour are easy to misread; the model follows
the code in each:

- A month/day date takes its year from the fallback cell only when that value has
  a `.year` attribute (matsurica_integrated_tool.py:820, 849). The model's cells
  have no timestamp variant, so the year is always the current one (see "Left out").
- A fallback date that pandas turns into `NaT` is not replaced by today's date
  (matsurica_integrated_tool.py:865-871). `NaT` is truthy, so `strftime` is called
  on it and raises. The model gives a `Failure`.
- The comment at matsurica_integrated_tool.py:876 and the `else "11:00"` at line 877
  show an intended end time of 11:00 when no time is found, but the branch is
  unreachable. This is the third finding below.
- A shared-string index that is not an integer or is missing from the table does
  not give an empty cell: lines 255 and 304 give the text "STRING_" followed by
  the raw index, and so does the model (`SharedText`).

The three findings below are defects of the code. The end-to-end operations
(`ParseSheet`, `Matching`, `MatchCustomers`, `RowFields`, `Output`) model the
code as written: the text path reads the cell type from the cell content, an
empty customer name becomes "nan", and a text without a time gives 10:00 to
10:00. The corrected definitions (`SalvageCell`, `CustomerNamesCorrected`,
`ParseDtRange`) stand beside them, each with the intended property proved.

## Model

All source paths are in the one script; line ranges are given.

| member | source | states |
|---|---|---|
| Values.Truthy | matsurica_integrated_tool.py:625 | Python truthiness: NaN is truthy, None and the empty text are falsy, an integer is truthy exactly when it is not 0 |
| Values.PyStr | matsurica_integrated_tool.py:912-913 | `str()` gives a text cell its text, NaN "nan", None "None", and every other cell a non-empty text |
| Strings.ParseInt | matsurica_integrated_tool.py:251 | `int()` succeeds only on a text that is not blank |
| Strings.ParseIntDecimal | matsurica_integrated_tool.py:251 | `int(str(n))` gives back n for every integer |
| TextKey.ToHiragana | matsurica_integrated_tool.py:404-405 | same length; each katakana ァ..ヴ moves down 0x60 code points, every other character is kept; no katakana of that range is left |
| TextKey.Nfkc | matsurica_integrated_tool.py:411 | the normalised text holds only characters NFKC leaves alone (full-width ASCII, U+3000 and ㈱ are folded) |
| TextKey.NfkcIdentity | matsurica_integrated_tool.py:411 | a text of NFKC-stable characters is unchanged |
| TextKey.NfkcIdempotent | matsurica_integrated_tool.py:411 | normalising twice equals normalising once |
| TextKey.RemoveSuffixes | matsurica_integrated_tool.py:396-400 | removing COMPANY_SUFFIX_RE matches never lengthens the text and keeps only characters of the input |
| TextKey.RemoveSuffixesIdentity | matsurica_integrated_tool.py:396-400 | a text in which no suffix token starts is unchanged |
| TextKey.SuffixFreeByInitials | matsurica_integrated_tool.py:396-400 | a text none of whose positions can start a token (judged by its first two characters) is suffix-free |
| TextKey.KanjiSuffixLength | matsurica_integrated_tool.py:396-400 | at a text starting with one of the eight kanji company words, the alternation matches exactly that word, whatever follows (the words are prefix-free) |
| TextKey.KanjiSuffixRemoved | matsurica_integrated_tool.py:396-412 | a kanji company word at the front of any text is removed whole: the result is that of the rest of the text |
| TextKey.RemovePunct | matsurica_integrated_tool.py:401 | the result holds no PUNCT_RE character, only characters of the input, and a text without them is unchanged |
| TextKey.RemoveDigits | matsurica_integrated_tool.py:402 | the result holds no ASCII or full-width digit, only characters of the input, and a text without them is unchanged |
| TextKey.NormalizeText | matsurica_integrated_tool.py:407-417 | a blank text gives ""; every character of a key is a key character: no digit, no PUNCT_RE character, no katakana ァ..ヴ, no ASCII upper case |
| TextKey.KeyCharsStable | matsurica_integrated_tool.py:407-417 | every character of a key is NFKC-stable |
| TextKey.NormalizeStableKey | matsurica_integrated_tool.py:407-417 | a non-blank key without suffix tokens is a fixed point of `normalize_text` |
| TextKey.NormalizeNotIdempotent | matsurica_integrated_tool.py:412-414 | "株1式会社" keys to "株式会社", whose own key is "": normalising is not idempotent |
| TextKey.NormalizeBlankKey | matsurica_integrated_tool.py:409-414 | "1\n" keys to "\n", whose own key is "" |
| TextKey.SuffixIgnored | matsurica_integrated_tool.py:396-417 | 株式会社テスト and テスト share the key てすと |
| TextKey.WidthAndCaseIgnored | matsurica_integrated_tool.py:407-417 | ＸＹＺ and xyz share the key xyz |
| TextKey.NormalizeCell | matsurica_integrated_tool.py:613-615 | a cell that is not text keys to "" |
| TextKey.RemoveControls | matsurica_integrated_tool.py:79 | no control character of the class is left, only characters of the input, and a text without them is unchanged |
| TextKey.CleanNewlines | matsurica_integrated_tool.py:74-80 | a non-text cell gives ""; no carriage return and no listed control character is left; a text with none of `_x000D_`, CR or control characters is unchanged |
| TextKey.CleanCrLf | matsurica_integrated_tool.py:76-77 | a Windows line end "\r\n" between two plain texts becomes one "\n" |
| TextKey.CleanCr | matsurica_integrated_tool.py:76-77 | a lone carriage return between two plain texts becomes "\n" |
| TextKey.CleanEscapedCr | matsurica_integrated_tool.py:76 | the escape "_x000D_" between two plain texts is deleted |
| Columns.RemoveAnnotations | matsurica_integrated_tool.py:109 | removing the bracketed annotations never lengthens the label |
| Columns.RemoveSeparators | matsurica_integrated_tool.py:113 | no separator is left, and a label without separators is unchanged |
| Columns.NormalizeColumnLabel | matsurica_integrated_tool.py:98-114 | a label key holds no separator (so `strip` has nothing left to do) |
| Columns.StripNoSpace | matsurica_integrated_tool.py:113-114 | the final `strip` of a separator-free label changes nothing |
| Columns.LabelWidthInsensitive | matsurica_integrated_tool.py:107 | full-width and half-width spellings of a label share its key |
| Columns.RequiredMarkVanishes | matsurica_integrated_tool.py:108-111 | "(必須)" and "（必須）" both normalise to "(必須)" and are removed whole |
| Columns.RequiredMarkIgnored | matsurica_integrated_tool.py:108-111 | appending "(必須)" or "（必須）" to a label without brackets leaves its key unchanged |
| Columns.SameAnnotatedText | matsurica_integrated_tool.py:107-114 | labels that agree after NFKC and annotation removal share their key |
| Columns.AnnotationDropped | matsurica_integrated_tool.py:109 | an opening bracket, any text without a closing bracket, and a closing bracket at the front are removed together, whatever follows |
| Columns.RemoveAnnotationsPrefix | matsurica_integrated_tool.py:109 | a text without opening brackets passes through annotation removal unchanged ahead of the rest |
| Columns.LookupOf | matsurica_integrated_tool.py:116-125 | every entry has a non-empty key and maps it to a column of the frame that has that key |
| Columns.LookupFirst | matsurica_integrated_tool.py:121-124 | every non-empty key of a column is in the lookup, mapped to the first column that has it |
| Columns.BuildColumnLookup | matsurica_integrated_tool.py:116-125 | the dictionary filled column by column is the lookup of the frame's columns |
| Columns.ResolveColumn | matsurica_integrated_tool.py:127-137 | a resolved column is one of the lookup's columns |
| Columns.ResolveBySpec | matsurica_integrated_tool.py:133-137 | None exactly when no alias's non-empty key is in the lookup; otherwise the column of the first alias that hits |
| Columns.HitsLookup | matsurica_integrated_tool.py:116-137 | an alias hits a frame's lookup exactly when some column has its non-empty key, and then maps to the first such column |
| Columns.ResolveInColumns | matsurica_integrated_tool.py:116-137 | resolving aliases against a frame's columns: None exactly when no alias matches a column's key, else the first column matching the first alias that matches |
| Columns.FirstHit | matsurica_integrated_tool.py:86-91 | a column found in a list of names and positions is a column of the frame |
| Columns.FirstHitSpec | matsurica_integrated_tool.py:86-91 | None exactly when no entry names an existing column or a valid position; otherwise the target of the first entry that does |
| Columns.FindCol | matsurica_integrated_tool.py:82-96 | a result other than the default is a column of the frame |
| Columns.PickCol | matsurica_integrated_tool.py:419-424 | the named column if present; else the column at the fallback position if valid; else None |
| Columns.PickColIsFindCol | matsurica_integrated_tool.py:419-424 | `pick_col(df, n, i)` equals `find_col(df, [n, i])` |
| SheetCells.SharedText | matsurica_integrated_tool.py:248-257 | a reference that reads as an integer in the table gives the entry; any other gives "STRING_" and the reference |
| SheetCells.SharedIndexResolves | matsurica_integrated_tool.py:250-253 | a decimal reference to an entry of the table resolves to that entry |
| SheetCells.DecodeCell | matsurica_integrated_tool.py:243-260 | a cell without a value element gives ""; a non-shared cell gives its value text (None for an empty one); a shared cell gives its table text; decoding fails exactly for a shared cell with an empty value, where `int(None)` raises |
| SheetCells.DecodeRowSpec | matsurica_integrated_tool.py:240-260 | a row decodes exactly when each of its cells does, and then into its cells decoded one for one |
| SheetCells.ParseRow | matsurica_integrated_tool.py:240-260 | the cell loop decodes a row cell by cell, failing exactly when some cell cannot be decoded |
| SheetCells.ParseSheetXml | matsurica_integrated_tool.py:238-263 | one row per row element, one cell per cell element, each decoded; fails exactly when some cell cannot be decoded |
| SheetCells.SearchValue | matsurica_integrated_tool.py:290 | the value found is no longer than the text and holds no closing tag |
| SheetCells.SearchType | matsurica_integrated_tool.py:291 | the type found holds no double quote |
| SheetCells.SearchTypeAt | matsurica_integrated_tool.py:283 | the type pattern finds the value of a `t="…"` attribute |
| SheetCells.SearchValueAt | matsurica_integrated_tool.py:282 | the value pattern finds the text between `<v>` and the first `</v>` |
| SheetCells.CellSourceScans | matsurica_integrated_tool.py:281-291 | in a cell written with attribute `t="ty"` and value `text`, the scans find `text` in the content and `ty` in the tag |
| SheetCells.SalvageCellAsWritten | matsurica_integrated_tool.py:289-306 | as written, the cell is always text: "" without a value, the value text unless the content holds `t="s"` |
| SheetCells.SalvageCell | matsurica_integrated_tool.py:289-306 | the cell is always text: "" without a value; the shared text when the tag says `t="s"`; the value text otherwise |
| SheetCells.SalvageAgreesWithXml | matsurica_integrated_tool.py:243-306 | with the type read from the tag, the text path decodes a cell exactly as the XML path does |
| SheetCells.SalvageIgnoresSharedStrings | matsurica_integrated_tool.py:288-297 | as written, `<c r="A1" t="s"><v>0</v></c>` salvages as "0" while the XML path and the corrected salvage give the table entry |
| SheetCells.ExtractDataWithRegex | matsurica_integrated_tool.py:278-311 | one output row per row found, one cell per cell found, each the cell salvaged as written (type searched in the content) |
| SheetCells.ParseSheet | matsurica_integrated_tool.py:224-267 | unparsable XML gives the salvaged rows, each cell salvaged as written; parsed XML gives the decoded rows, each cell its decoded value, failing exactly when a cell cannot be decoded |
| Calendar.DaysInMonth | matsurica_integrated_tool.py:771-777 | 28 to 31 days; February has 29 exactly in leap years |
| Calendar.IsValidDate | matsurica_integrated_tool.py:771-777 | a date is valid exactly when it is a calendar day of years 1 to 9999 |
| Calendar.LeapDay | matsurica_integrated_tool.py:771-777 | 29 February is a valid date exactly in leap years, and 1900 is not one |
| Calendar.FormatDate | matsurica_integrated_tool.py:796 | `%Y-%m-%d` is ten characters with dashes at positions 4 and 7 |
| Calendar.FormatDateRoundTrip | matsurica_integrated_tool.py:796 | the formatted text reads back as the same date |
| Calendar.NextDayOrdinal | matsurica_integrated_tool.py:795 | the next day is one ordinal later |
| Calendar.AddDaysOrdinal | matsurica_integrated_tool.py:795 | adding k days moves the ordinal by exactly k |
| Calendar.OrdinalWithinYear | matsurica_integrated_tool.py:795 | a date's ordinal lies within its own year |
| Calendar.OrdinalYearBound | matsurica_integrated_tool.py:789-795 | a date before the ordinal of year 10000 lies in year 9999 or earlier |
| Calendar.ExcelDay | matsurica_integrated_tool.py:789-795 | a serial in 1..99999 is a representable date whose ordinal is that of 1900-01-01 plus serial-1, or serial-2 from 60 on |
| Calendar.SerialsAreConsecutiveDays | matsurica_integrated_tool.py:793-795 | consecutive serials are consecutive days, except that 59 and 60 are the same day |
| Calendar.ConvertExcelSerial | matsurica_integrated_tool.py:779-799 | an in-range number becomes its date text; an out-of-range number comes back (a numeric text as the float it became); a non-numeric value comes back unchanged |
| Calendar.SerialOne | matsurica_integrated_tool.py:789-796 | serial 1 is 1900-01-01 |
| Calendar.SerialLeapDay | matsurica_integrated_tool.py:793-796 | serials 59 and 60 are both 1900-02-28 |
| Calendar.SerialMarch | matsurica_integrated_tool.py:793-796 | serial 61 is 1900-03-01 |
| Calendar.SerialText | matsurica_integrated_tool.py:783-785 | " 61 " converts like 61 |
| Calendar.SerialTextOutOfRange | matsurica_integrated_tool.py:783-799 | "0" comes back as the float 0.0 |
| Calendar.SerialTextNotNumeric | matsurica_integrated_tool.py:784-787 | "abc" comes back unchanged |
| DateRange.GroupDate | matsurica_integrated_tool.py:810-826 | the groups give their date exactly when it is a valid date; month/day groups take the given year |
| DateRange.FallbackDate | matsurica_integrated_tool.py:864-870 | the fallback timestamp's date, today's date without one, a failure for NaT |
| DateRange.ClockTextRoundTrip | matsurica_integrated_tool.py:830-835 | a time written `%02d:%02d` reads back as its hour and minute, an empty minute as 0 |
| DateRange.ClockPadding | matsurica_integrated_tool.py:830-835 | 9 with no minute is "09:00"; 14 and 5 is "14:05" |
| DateRange.ParseDtRangeAsWritten | matsurica_integrated_tool.py:801-879 | fails exactly when the text names no valid date and the fallback is NaT; the end date is the start date, and it reads back as a date; the end time equals the start time unless an end time was found |
| DateRange.TimesOfRangeAsWritten | matsurica_integrated_tool.py:828-877 | as written, a found start time is kept, else 10:00; a found end time is kept, else the end time is the start time |
| DateRange.CorrectionKeepsDates | matsurica_integrated_tool.py:801-879 | the corrected range fails exactly when the written one does, with the same dates and start time |
| DateRange.NoTimeGivesEmptySlot | matsurica_integrated_tool.py:873-877 | as written, a text with no time gives 10:00 to 10:00 |
| DateRange.ParseDtRange | matsurica_integrated_tool.py:801-879 | fails exactly when the text names no valid date and the fallback is NaT; the end date is the start date; the start date reads back as a date |
| DateRange.DatesOfRange | matsurica_integrated_tool.py:808-872 | as written, a valid date in the text is the start and end date; otherwise the fallback's date, or today's |
| DateRange.TimesOfRange | matsurica_integrated_tool.py:828-877 | a found start time is kept, else 10:00; a found end time is kept, else the start time when a start time was found, else 11:00 |
| DateRange.CorrectionOnlyNoTime | matsurica_integrated_tool.py:873-877 | the corrected range equals the written one whenever the text gives a start or an end time |
| ActionType.TextOf | matsurica_integrated_tool.py:725-727 | None gives ""; a text cell gives its text |
| ActionType.KindGuess | matsurica_integrated_tool.py:733-739 | the guess from the kind cell is never a meeting; 電話 in it gives a phone call, else メール gives mail, else 会議 or mtg (any case) gives 社内タスク |
| ActionType.KindGuessDefault | matsurica_integrated_tool.py:724-739 | the kind cell leaves 社外タスク exactly when it holds none of 電話, メール, 会議 or mtg (any case) |
| ActionType.DecideActionType | matsurica_integrated_tool.py:723-751 | 面談 exactly when the method or kind cell is 対面; otherwise a mail word in the lower-cased text gives メール, then a phone word gives 電話 |
| ActionType.OutsideTaskWordsDecide | matsurica_integrated_tool.py:741-747 | without mail or phone words, an outside-task word gives 社外タスク |
| ActionType.InsideTaskWordsDecide | matsurica_integrated_tool.py:741-749 | an inside-task word decides only when no earlier word list hits |
| ActionType.KindCellDecides | matsurica_integrated_tool.py:741-751 | a text without any listed word leaves the kind cell's guess |
| ActionType.FaceToFaceWins | matsurica_integrated_tool.py:729-731 | 対面 in the method cell gives 面談 whatever the text says |
| ActionType.UpperCaseMailWord | matsurica_integrated_tool.py:727-743 | "CC" is a mail word once lower-cased |
| NoteBody.HeadingWordAt | matsurica_integrated_tool.py:669 | any heading word followed by a heading tail is a heading |
| NoteBody.IsMgmtHeading | matsurica_integrated_tool.py:669 | a management heading line holds the mark "■" |
| NoteBody.HeadingWithValueKept | matsurica_integrated_tool.py:669-698 | by the `$` anchor, "■", a heading word, "：" and a non-blank value form no management heading line, so such a line is kept in the body |
| NoteBody.VisitDateLineKept | matsurica_integrated_tool.py:669 | "■訪問日時：3/10" is not a management heading line |
| NoteBody.HeadingLineRecognised | matsurica_integrated_tool.py:669 | "■", a management heading word and "：" form a management heading line |
| NoteBody.Section | matsurica_integrated_tool.py:683-691 | a text without "■活動内容" is kept whole |
| NoteBody.SectionAfterMarker | matsurica_integrated_tool.py:684-687 | only the stripped text after the first "■活動内容" counts |
| NoteBody.KeptLines | matsurica_integrated_tool.py:694-699 | every kept line is non-empty, stripped and not a management heading |
| NoteBody.KeptLinesFromInput | matsurica_integrated_tool.py:694-699 | every kept line is a stripped input line |
| NoteBody.InputLinesKept | matsurica_integrated_tool.py:694-699 | every stripped input line that is non-empty and not a heading is kept |
| NoteBody.DropLeadingMarks | matsurica_integrated_tool.py:704-708 | the result does not start with a leading mark, and stays stripped when its input was |
| NoteBody.ActionBody | matsurica_integrated_tool.py:671-715 | never empty; a cell that is not text gives "内容不明" in quotes; otherwise the body is the placeholder or a stripped text that starts with no leading mark |
| NoteBody.KeepLines | matsurica_integrated_tool.py:694-699 | the line loop keeps exactly the kept lines |
| NoteBody.DropMarks | matsurica_integrated_tool.py:704-708 | the `while` loop removes exactly the leading marks |
| NoteBody.ExtractActionBody | matsurica_integrated_tool.py:671-715 | the step-by-step extraction gives the body, which is never empty |
| HeaderRecovery.Count | matsurica_integrated_tool.py:446 | a count of cells never exceeds the row's length |
| HeaderRecovery.HeaderVerdict | matsurica_integrated_tool.py:443-479 | an empty row fails (division by zero); a data-like row is never heading-like; otherwise heading-like exactly when it is mostly text, holds a heading word or shifts type against the next row |
| HeaderRecovery.FirstHeader | matsurica_integrated_tool.py:438-488 | a heading row found lies within the examined rows |
| HeaderRecovery.HeaderLabel | matsurica_integrated_tool.py:494-499 | a text cell gives its text; a missing cell gives "" |
| HeaderRecovery.HeaderLabels | matsurica_integrated_tool.py:494-500 | one label per cell of the heading row, in order |
| HeaderRecovery.ScanForHeader | matsurica_integrated_tool.py:437-488 | the scan finds the first heading-like row among the examined ones, fails on the first empty row, and otherwise counts every examined row for removal |
| HeaderRecovery.BuildHeaderLabels | matsurica_integrated_tool.py:494-499 | the labels built cell by cell are the heading row's labels |
| HeaderRecovery.RemoveNonHeaderRows | matsurica_integrated_tool.py:426-512 | the row-by-row scan gives the recovered frame |
| HeaderRecovery.RecoverBounds | matsurica_integrated_tool.py:430-507 | a frame of n ≥ 2 rows keeps between 1 and n-1 rows, and they are its last rows in order |
| HeaderRecovery.Recover | matsurica_integrated_tool.py:426-512 | a frame of at most one row comes back unchanged; a recovered frame keeps a run of the last rows, in order |
| HeaderRecovery.ShortFrameUnchanged | matsurica_integrated_tool.py:430-431 | a frame of at most one row comes back unchanged |
| HeaderRecovery.FirstHeaderIsFirst | matsurica_integrated_tool.py:438-488 | every row before the heading row was judged not heading-like, and the heading row was judged heading-like |
| HeaderRecovery.DataRowNeverHeading | matsurica_integrated_tool.py:474-488 | a data-like row is never taken as the heading, whatever the other signals say |
| HeaderRecovery.AtMostFiveChecked | matsurica_integrated_tool.py:438 | at least one and at most min(5, n-1) rows are examined |
| Matching.RawNameAsWritten | matsurica_integrated_tool.py:625 | as written, a falsy cell gives "", NaN gives "nan", text gives its text |
| Matching.RawName | matsurica_integrated_tool.py:625 | a missing cell gives ""; any other cell is read as written |
| Matching.OptionalCell | matsurica_integrated_tool.py:644-645 | no column (or an empty label) gives None |
| Matching.CustomerNames | matsurica_integrated_tool.py:624-625 | one name per customer row, as written: a text cell gives its text, an empty (NaN) cell "nan", a falsy cell "" |
| Matching.CustomerNamesCorrected | matsurica_integrated_tool.py:624-625 | with a missing cell read as no name, a missing cell gives "" and every other cell the name as written |
| Matching.ColumnC | matsurica_integrated_tool.py:608 | column C is "活動先" when present, else the third column, else none |
| Matching.ColumnM | matsurica_integrated_tool.py:609 | column M is the thirteenth column, present exactly when there are at least 13 |
| Matching.ColumnG | matsurica_integrated_tool.py:610 | column G is the seventh column, present exactly when there are at least 7 |
| Matching.CustomerCells | matsurica_integrated_tool.py:644-645 | one id or class cell per customer row |
| Matching.Keys | matsurica_integrated_tool.py:626 | one key per customer |
| Matching.NormColumn | matsurica_integrated_tool.py:613-615 | one key per activity row; every key is "" when the column is missing |
| Matching.Claimant | matsurica_integrated_tool.py:623-646 | the earliest customer whose key hits the row's C, M or G key; None exactly when no customer hits |
| Matching.ClaimantStep | matsurica_integrated_tool.py:630-646 | one more customer takes a row exactly when it is unclaimed and the customer's key hits |
| Matching.ClaimantSettled | matsurica_integrated_tool.py:631-646 | a claimed row is never reassigned by later customers |
| Matching.Owners | matsurica_integrated_tool.py:623-649 | one owner per activity row |
| Matching.MatchedIndices | matsurica_integrated_tool.py:652 | the kept indices are exactly the claimed rows, in ascending order |
| Matching.SameIndices | matsurica_integrated_tool.py:652 | which rows are kept depends only on which rows are claimed |
| Matching.KeptIndices | matsurica_integrated_tool.py:652 | the comprehension's loop gives the claimed rows in order |
| Matching.SetColumn | matsurica_integrated_tool.py:661-663 | an existing column is overwritten in place, a new one is appended |
| Matching.SetColumnAt | matsurica_integrated_tool.py:661-663 | the written column reads back as the values given |
| Matching.SetColumnOther | matsurica_integrated_tool.py:661-663 | every other column keeps its cells |
| Matching.IndexOfAppend | matsurica_integrated_tool.py:661-663 | appending a column does not move an existing one |
| Matching.RowsAt | matsurica_integrated_tool.py:660 | the picked rows are the activity rows at the indices, in order |
| Matching.RowsAtCell | matsurica_integrated_tool.py:660 | every cell of a picked row is the activity row's cell |
| Matching.NameCells | matsurica_integrated_tool.py:661 | one name cell per kept row |
| Matching.ClaimedCells | matsurica_integrated_tool.py:662-663 | one id or class cell per kept row |
| Matching.Pick | matsurica_integrated_tool.py:661-663 | one list element per kept row |
| Matching.MatchedFrame | matsurica_integrated_tool.py:652-665 | the result frame is rectangular |
| Matching.Matching | matsurica_integrated_tool.py:584-665 | fails exactly when no customer-name alias resolves against the customer list |
| Matching.AllRows | matsurica_integrated_tool.py:621 | the rows 0..n-1 |
| Matching.ScanRows | matsurica_integrated_tool.py:631-639 | the candidates whose text holds the key |
| Matching.CollectHits | matsurica_integrated_tool.py:630-639 | `to_fix` holds exactly the remaining rows whose C, M or G key holds the customer key |
| Matching.ClaimRows | matsurica_integrated_tool.py:641-646 | the rows in `to_fix` get the customer's name, id and class; the other rows are unchanged |
| Matching.NoneClaimedYet | matsurica_integrated_tool.py:618-621 | before the first customer every row is remaining and carries nothing |
| Matching.SettledAll | matsurica_integrated_tool.py:618-649 | after the last customer every row carries its owner's name, id and class |
| Matching.AllClaimed | matsurica_integrated_tool.py:648-649 | once no row remains, breaking early changes nothing |
| Matching.ClaimForCustomer | matsurica_integrated_tool.py:624-649 | one customer step keeps the loop state: remaining rows are the unclaimed ones, every row carries its current owner's values |
| Matching.MatchLoop | matsurica_integrated_tool.py:618-649 | after the loop, each row's name, id and class are all those of its owner, the earliest customer whose key hits it, and None without one |
| Matching.ListsFollowOwners | matsurica_integrated_tool.py:652 | the rows with a name are the claimed rows |
| Matching.PickedCells | matsurica_integrated_tool.py:661-663 | the lists written into the kept rows are their owners' name, id and class |
| Matching.MatchedRows | matsurica_integrated_tool.py:652-665 | the kept rows with their three new columns form the matched frame |
| Matching.MatchCustomers | matsurica_integrated_tool.py:584-665 | the step-by-step computation gives the matching result |
| Matching.MatchedRowCells | matsurica_integrated_tool.py:652-665 | result row j is the j-th claimed activity row: the name column holds its owner's name, the id and class columns its owner's cells, every other column the activity row's cell |
| Matching.KeptRowsAreClaimed | matsurica_integrated_tool.py:652-660 | an activity row is kept exactly when some customer's key hits it |
| Matching.BlankNameOwnsNothing | matsurica_integrated_tool.py:626-628 | a customer whose name is blank owns no row |
| Matching.NanNameKey | matsurica_integrated_tool.py:625-626 | as written, an empty name cell gives the key "nan" |
| Matching.NanNameClaimsRow | matsurica_integrated_tool.py:625-633 | as written, a customer with an empty name cell claims a row whose text contains "nano" |
| Matching.MissingNameOwnsNothing | matsurica_integrated_tool.py:625-628 | with the empty cell read as no name, the customer owns no row |
| OutputRecords.ActivityColumnsOf | matsurica_integrated_tool.py:889-895 | the id and body columns found are columns of the activity frame |
| OutputRecords.Get | matsurica_integrated_tool.py:909-918 | a missing column reads as "" |
| OutputRecords.IdKey | matsurica_integrated_tool.py:910-913 | a missing cell gives ""; a text cell gives its stripped text |
| OutputRecords.CustomerIdKeys | matsurica_integrated_tool.py:900-904 | one key per customer row, or none without an id column |
| OutputRecords.IdIndex | matsurica_integrated_tool.py:899-906 | every non-empty key maps to a row that has it, at or before every row that has it |
| OutputRecords.IdIndexFirst | matsurica_integrated_tool.py:905-906 | the index names the first row with its key |
| OutputRecords.BuildIdIndex | matsurica_integrated_tool.py:899-906 | the loop over the id column builds the index |
| OutputRecords.SupportText | matsurica_integrated_tool.py:953-956 | a missing or falsy support cell gives 担当者未設定; a non-empty text gives itself |
| OutputRecords.MainOwner | matsurica_integrated_tool.py:948-956 | an empty or unknown id, or no support column, gives 担当者未設定 |
| OutputRecords.OwnerOfFirstCustomer | matsurica_integrated_tool.py:948-956 | the owner is the support value of the first customer row with the id |
| OutputRecords.OwnerUnknownId | matsurica_integrated_tool.py:950-956 | an id no customer row has gives 担当者未設定 |
| OutputRecords.RowStamp | matsurica_integrated_tool.py:865 | a None date cell gives no fallback timestamp |
| OutputRecords.RangeText | matsurica_integrated_tool.py:921 | None gives ""; a text cell gives its text |
| OutputRecords.Record | matsurica_integrated_tool.py:926-960 | one value per template column, in template order, each that column's rule value |
| OutputRecords.Records | matsurica_integrated_tool.py:908-960 | one record per row when no row fails |
| OutputRecords.RecordsRows | matsurica_integrated_tool.py:908-960 | record i is built from row i's fields |
| OutputRecords.RecordsFailure | matsurica_integrated_tool.py:908-960 | the records fail exactly when some row fails |
| OutputRecords.Output | matsurica_integrated_tool.py:881-963 | the output has exactly the template columns and one rectangular row per activity row |
| OutputRecords.BuildOutput | matsurica_integrated_tool.py:881-963 | the step-by-step computation gives the output |
| OutputRecords.BuildRecords | matsurica_integrated_tool.py:908-962 | the row loop gives the records, stopping at the first failing row |
| OutputRecords.OutputCell | matsurica_integrated_tool.py:926-962 | every cell is the template column's rule value for its row |
| OutputRecords.OutputFailure | matsurica_integrated_tool.py:864-870 | the output fails exactly when some row's date range fails |
| OutputRecords.FieldValue | matsurica_integrated_tool.py:926-960 | 取引先ID holds the customer id key, アクション種別 the classified kind, the four date and time columns the start date, start time, end date and end time of the range, 主担当者 the owner, a body column the report body, the status column 完了, a column without a rule "" |
| OutputRecords.RowFields | matsurica_integrated_tool.py:909-923 | a row fails exactly when its text names no valid date and its date cell is NaT; otherwise the fields hold the stripped id key and a range ending on its start day, which reads back as a date |
| OutputRecords.FixedColumns | matsurica_integrated_tool.py:942-958 | ステータス(必須) reads 完了; a column with no rule reads "" |
| OutputRecords.RowFieldsSpec | matsurica_integrated_tool.py:909-923 | a row's fields hold the stripped id key, the decided action kind, the non-empty extracted body and the first matching customer's owner; its date range ends on the day it starts, and that day reads back as a date |

## Left out

- Reading and writing files, the ZIP container, the sheet-name mapping, `read_activity_robust`, `force_excel_to_csv`, `build_matsurica_csv`, `main`, the GUI and every `print` are not part of this model. `print` has no effect on the results.
- The XML parser and the regular-expression row and cell splitting are inputs. `ParseSheet` receives the parsed cell elements, or the cell texts the scan found.
- The `DATE_TIME_RANGE`, `DATE_ONLY_*` and `TIME_SINGLE` searches are a parameter of `ParseDtRange` (what the scan found, as a `DtScan`). `pd.to_datetime` is a parameter. `datetime.now()` is today's date, given as an argument.
- `Nfkc` covers only the characters the keys depend on: full-width ASCII, the ideographic space and ㈱. The rest of Unicode compatibility normalisation is not modelled.
- `AsciiLower`: `str.lower` is modelled on ASCII letters only.
- `to_sjis_safe` is the identity, because the cp932 encoding is not modelled. Characters outside cp932 would be replaced or dropped by the script.
- Cells that hold a non-integral float are not modelled, nor is the serial conversion of such a float.
- ConvertExcelSerial: a text is converted only when it reads as a whole decimal number. Python's `float()` also accepts "1.5", "1e3", "inf" and "nan". Such texts come back unchanged in the model, while the script converts them or returns a float.
- RowFields: the cell type has no timestamp variant, so `RowFields` never passes a year, and a month/day date always takes today's year. In the script, the date cells that `read_excel` produces are Timestamps, whose year is used (matsurica_integrated_tool.py:820, 849, 974).
- HeaderVerdict: `IsDigitLike` accepts ASCII and full-width digits only. Python's `str.isdigit` accepts every Unicode decimal digit and also characters such as ①, ² and ³, so a text holding only those counts as data-like in the script and not in the model.
- ParseInt: `int()` is modelled on ASCII digits. Python also accepts underscores between digits ("1_0") and non-ASCII decimal digits; such texts fail in the model.
- Columns are strings. Duplicate column labels, non-string labels and the dtype pandas infers for the new matched columns are not modelled.
- `HeaderVerdict` compares ratios by integer cross-multiplication. Python divides floats, which agrees on every row length that occurs in practice.
- `OutputRecords.Output` does not model the `cust_name` and `kubun` values in `build_output`. The script computes them and never uses them.

## Findings

| source | as written | input that shows it | evidently intended | confidence | as-written member | corrected member |
|---|---|---|---|---|---|---|
| matsurica_integrated_tool.py:288-297 | the salvage path searches for `t="s"` inside the captured cell content, but the attribute sits in the `<c …>` tag, which the pattern consumes, so a cell captured on its own is never resolved (only when a self-closing `<c …/>` precedes it does the lazy capture take in the next cell's tag, whose shared string then lands in the earlier cell's column) | `<c r="A1" t="s"><v>0</v></c>` with table entry 0 = 取引先 gives "0" | the type is read from the cell tag, as the XML path does, giving 取引先 | not executed | SheetCells.SalvageIgnoresSharedStrings | SheetCells.SalvageAgreesWithXml |
| matsurica_integrated_tool.py:625 | `str(name or "")`: an empty name cell is NaN, which is truthy, so the name becomes "nan" and its key "nan" | a customer row with an empty name cell and an activity row whose text contains "nano" | an empty name cell is read as no name, so the customer is skipped | not executed | Matching.NanNameClaimsRow | Matching.MissingNameOwnsNothing |
| matsurica_integrated_tool.py:873-877 | the start time is defaulted to 10:00 before the end time, so `start_time if start_time else "11:00"` never reaches 11:00 | a text with no time at all gives 10:00 to 10:00 | a text with no time gives 10:00 to 11:00 | not executed | DateRange.NoTimeGivesEmptySlot | DateRange.TimesOfRange |
