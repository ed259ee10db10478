# Smart toolkit widgets, modelled in Dafny

This project models the computing core of the smart-toolkit-factory widgets. The widgets come in three forms: a React site, a WordPress plugin and a WordPress theme. The model covers:

- **Dates.** Calendar arithmetic (Gregorian day numbers, and the rollover that JavaScript's `new Date(y, m, d)` applies to a day outside its month). Age and date-difference breakdowns in two styles: the theme's field-wise borrow algorithm, and the React tools' date-fns style of whole years, then whole months, then days.
- **The React scientific calculator.** Its display/formula state machine.
- **Text statistics.** Words, characters, sentences, paragraphs, lines, reading and speaking time.
- **The password generator.** Character sets, the generation loop and the strength score.
- **QR codes.** The content builders (URL, `mailto:`, `tel:`) and the image-service URLs, with `encodeURIComponent` and its inverse.
- **The Gmail alias generator.**
- **The YouTube SEO reply parser** and its history.
- **Money and area.** Percentage, GST, profit/loss, area formulas and the EMI (equated monthly instalment) of a loan.
- **The plugin's AJAX dispatch** (`handle_ajax_calculate`) and its five calculation handlers.

Each module is one file:

| module | file | what it holds |
|---|---|---|
| `Base` | base.dfy | `Option`/`Result`, JavaScript white space, `trim`, `split` on a character and on separator runs, `filter`, decimal rendering |
| `Calendar` | calendar.dfy | dates, day numbers, `new Date(y, m, d)` rollover, the next birthday |
| `ThemeDates` | theme_dates.dfy | the theme's age and date-difference pages |
| `ReactDates` | react_dates.dfy | `differenceInYears/Months/Days`, the select boxes, and both React age tools and the date-difference tool |
| `Calculator` | calculator.dfy | `handleButtonClick` of the scientific calculator |
| `TextStats` | text_stats.dfy | the three word counters |
| `Password` | password.dfy | the three password generators and the strength meter |
| `Uri` | uri.dfy | UTF-8 (RFC 3629), `encodeURIComponent` and its decoder |
| `Qr` | qr.dfy | the QR content and URL builders of the plugin page, the plugin script and the React page |
| `EmailAlias` | email_alias.dfy | `generateEmails` |
| `SeoParser` | seo_parser.dfy | `parseGeneratedContent` and `generateSEOContent` |
| `Money` | money.dfy | the theme's percentage, GST and profit/loss pages |
| `Loan` | loan.dfy | the annuity instalment and the balance it leaves |
| `Area` | area.dfy | the theme's area page |
| `PluginAjax` | plugin_ajax.dfy | the AJAX entry point and its handlers |

**Numbers.** Amounts are exact reals, and date fields and counts are integers. A field that `parseFloat` reads as NaN is `None`.

**Outside services.** Things the program gets from outside become parameters:

- random rolls for the password loop;
- the current year and today's date;
- the Gemini reply;
- the record `Calculator.Numerics`, which holds `eval`, `parseInt`, number rendering and the scientific functions;
- the record `PluginAjax.Env`, which holds PHP's `floatval`, `intval`, `sanitize_text_field`, date parsing and `DateTime::diff`.

**Behaviour taken from the code.** In four places the code behaves differently from what a reader might expect. The model keeps the code's behaviour:

- **The birthday itself.** The next birthday moves to the following year only when it falls strictly before today. On the birthday itself, the days-to-next-birthday count is 0 (`Calendar.NextBirthday`). The move keeps the month and day of this year's date, so a February 29th birthday can land one day late (see Findings).
- **Breakdown components.** The components of an age breakdown are not always in range. There are two cases, listed under Findings.
- **An operator after a result.** An operator key pressed after a result clears the "calculated" flag. The operator is appended to the shown value (`Calculator.OperatorKey`).
- **Evaluation.** The formula is evaluated with `eval`, not a parser of its own. `eval` is the abstract `Numerics.eval`.

## Model

| member | source | states |
|---|---|---|
| Base.TrimStart | src/tools/YouTubeSEOExpert.tsx:137 | what is removed is white space only, and what is kept starts with a non-space character and is a suffix of the input |
| Base.TrimEnd | src/tools/YouTubeSEOExpert.tsx:146 | what is removed is white space only, and what is kept ends with a non-space character and is a prefix of the input |
| Base.BlankIffAllSpace | wordpress-plugin/calculator-tools/includes/tools/word-counter.php:100 | `text.trim() === ''` holds exactly when the text is all white space |
| Base.TrimEnds | src/tools/YouTubeSEOExpert.tsx:146 | a trimmed text has non-space characters at both ends |
| Base.TrimKeepsChars | src/tools/YouTubeSEOExpert.tsx:142 | trimming introduces no character |
| Base.TrimOfTrimmed | src/tools/YouTubeSEOExpert.tsx:142 | trimming is the identity on a text with non-space ends |
| Base.Split | wordpress-plugin/calculator-tools/assets/script.js:352 | `split` on one character gives one piece more than there are separators, and no piece holds the separator |
| Base.JoinSplit | src/tools/YouTubeSEOExpert.tsx:116 | joining the pieces of a split with the separator rebuilds the text |
| Base.SplitNone | src/tools/YouTubeSEOExpert.tsx:116 | a text without the separator is its own single piece |
| Base.SplitAround | src/tools/YouTubeSEOExpert.tsx:116 | the first separator ends the first piece, and the rest splits on its own |
| Base.SplitRuns | wordpress-plugin/calculator-tools/includes/tools/word-counter.php:100 | splitting on a separator-run regex gives at least one piece; pieces hold no separator and only characters of the text; the first piece is empty exactly when the text is empty or opens with a separator |
| Base.SplitRunsNonEmpty | wordpress-plugin/calculator-tools/includes/tools/word-counter.php:100 | a trimmed text splits into non-empty pieces only |
| Base.SplitRunsKeeps | wordpress-plugin/calculator-tools/includes/tools/word-counter.php:103 | every non-separator character of the text ends up in some piece |
| Base.Filter | wordpress-plugin/calculator-tools/includes/tools/word-counter.php:100 | `Array.filter` keeps exactly the pieces that pass the test, and changes nothing when all pass |
| Base.FilterKeeps | wordpress-plugin/calculator-tools/includes/tools/word-counter.php:104 | a property all pieces have survives filtering alongside the filter's test |
| Base.NatToString | src/tools/GmailGenerator.tsx:70-72 | the rendered year is a non-empty digit string with no leading zero |
| Base.NatToStringRoundTrip | src/tools/GmailGenerator.tsx:70-72 | reading the rendered digits back gives the number |
| Calendar.YearStep | wordpress-theme/calculator-tools-theme/template-age-calculator.php:65 | each year contributes exactly its own length (365 or 366 days) to the day count |
| Calendar.MonthsFillYear | wordpress-theme/calculator-tools-theme/template-age-calculator.php:65 | the twelve month lengths add up to the year length |
| Calendar.WithinYear | wordpress-theme/calculator-tools-theme/template-age-calculator.php:65 | the day number of a valid date lies within its own year |
| Calendar.BeforeIncreases | wordpress-theme/calculator-tools-theme/template-age-calculator.php:43-46 | an earlier date has a smaller day number |
| Calendar.DayNumberOrder | wordpress-theme/calculator-tools-theme/template-age-calculator.php:43-46 | comparing dates and comparing their day numbers agree in both directions, and equal day numbers mean equal dates |
| Calendar.Roll | src/tools/ImprovedAgeCalculator.tsx:59 | the `Date` constructor's rollover always lands on a valid date |
| Calendar.RollDayNumber | src/tools/ImprovedAgeCalculator.tsx:59 | the rolled date is exactly `day - 1` days after the first of the month, whether the day is before, inside or past the month |
| Calendar.MakeDate | src/tools/ImprovedAgeCalculator.tsx:59 | `new Date(y, monthIndex, day)` always gives a valid date |
| Calendar.MakeDateDayNumber | src/tools/ImprovedAgeCalculator.tsx:59 | a month index outside 0..11 moves whole years; the date is then `day - 1` days after the first of the month reached |
| Calendar.MakeDateOfValid | src/tools/ImprovedAgeCalculator.tsx:59 | a valid date rebuilt from its own fields is unchanged |
| Calendar.DayZeroIsMonthEnd | src/tools/ImprovedAgeCalculator.tsx:48-50 | day 0 of the following month is the last day of the month, so the idiom yields the month length |
| Calendar.MakeDateKeepsYear | wordpress-theme/calculator-tools-theme/template-age-calculator.php:77 | a day from 1 to 31 never leaves the requested year |
| Calendar.RollPastMonthEnd | wordpress-theme/calculator-tools-theme/template-age-calculator.php:77 | a day past the month's end spills into the first days of the next month, never past December |
| Calendar.NextYearIsLater | wordpress-theme/calculator-tools-theme/template-age-calculator.php:78-80 | the same month and day a year on falls after the as-of date |
| Calendar.NextBirthday | wordpress-theme/calculator-tools-theme/template-age-calculator.php:77-81 | the next birthday is a valid date in the as-of year or the next, never before the as-of date, and the as-of date exactly when this year's birthday is that date; it is where the birthday falls in its year, or else March 1st of a leap year for a February 29th birth |
| Calendar.MovedBirthday | wordpress-theme/calculator-tools-theme/template-age-calculator.php:77-81 | moving this year's birthday one year on lands on next year's birthday, except that a February 29th rolled into March 1st stays on March 1st |
| Calendar.FirstBirthday | wordpress-theme/calculator-tools-theme/template-age-calculator.php:77-81 | the corrected next birthday is a birthday of its year, in the as-of year or the next, and not before the as-of date |
| Calendar.FirstBirthdayIsFirst | wordpress-theme/calculator-tools-theme/template-age-calculator.php:77-81 | no birthday falls between the as-of date and the corrected next birthday: it is the first one on or after the as-of date |
| Calendar.NextBirthdayIsFirst | wordpress-theme/calculator-tools-theme/template-age-calculator.php:77-81 | except for a February 29th birth, the pages' next birthday is the first birthday on or after the as-of date |
| Calendar.NextBirthdayKeepsMonthDay | wordpress-theme/calculator-tools-theme/template-age-calculator.php:77-81 | except for a February 29th birth, the next birthday has the birth month and day |
| Calendar.LeapDayBirthdayExample | wordpress-theme/calculator-tools-theme/template-age-calculator.php:77-81 | born 2000-02-29, as of 2023-06-01: the pages name 2024-03-01, the day after the birthday 2024-02-29 |
| ThemeDates.PrecedingMonthLength | wordpress-theme/calculator-tools-theme/template-age-calculator.php:55-56 | the borrowed length is that of the month before the end month (December for January), between 28 and 31 |
| ThemeDates.JanuaryDayZero | wordpress-theme/calculator-tools-theme/template-age-calculator.php:55 | day 0 of January is December 31st of the year before |
| ThemeDates.BorrowBreakdown | wordpress-theme/calculator-tools-theme/template-age-calculator.php:49-62 | months are in 0..11; years and months count the calendar months elapsed, less one when the end day is below the start day; the days are the day difference, plus the borrowed month length when negative; the days come out negative exactly when the start day exceeds the end day plus that length |
| ThemeDates.BreakdownExample | wordpress-theme/calculator-tools-theme/template-age-calculator.php:49-62 | 2000-01-15 to 2024-06-10 is 24 years, 4 months, 26 days |
| ThemeDates.NegativeDaysExample | wordpress-theme/calculator-tools-theme/template-age-calculator.php:53-57 | born 2023-01-31, as of 2023-03-01, the page reports 0 years, 1 month, −2 days |
| ThemeDates.CappedBorrowBreakdown | wordpress-theme/calculator-tools-theme/template-age-calculator.php:53-57 | with the borrow capped, months are in 0..11 and days in 0..30; the month total equals the as-written one; wherever the as-written days are non-negative, both agree |
| ThemeDates.CappedExample | wordpress-theme/calculator-tools-theme/template-age-calculator.php:53-57 | with the capped borrow the same input gives 0 years, 1 month, 1 day |
| ThemeDates.CalculateAge | wordpress-theme/calculator-tools-theme/template-age-calculator.php:22-81 | both alerts and exactly when each appears; a cleared as-of field passes both and shows NaN everywhere; otherwise the breakdown is exactly `ThemeDates.BorrowBreakdown` of the two dates, total days are the day-number difference, total months come from the breakdown, weeks as the floor of days / 7, hours as days × 24, and the days to `Calendar.NextBirthday`, zero exactly on the birthday |
| ThemeDates.AgeFigures | wordpress-theme/calculator-tools-theme/template-age-calculator.php:48-81 | the figures once both alerts pass: the breakdown is exactly `ThemeDates.BorrowBreakdown`, total days are the day-number difference, total months, weeks and hours come from them, and the days to `Calendar.NextBirthday` are zero exactly on the birthday |
| ThemeDates.CalculateDateDifference | wordpress-theme/calculator-tools-theme/template-date-difference.php:34-77 | both alerts and exactly when each appears; on success, the breakdown is exactly `ThemeDates.BorrowBreakdown` of the two dates, total days are the day-number difference, and weeks, hours and minutes come from the days |
| ReactDates.FromIndex | src/tools/ImprovedAgeCalculator.tsx:99-101 | the date with a given month index has a month in 1..12 and that index |
| ReactDates.AddMonths | src/tools/ImprovedAgeCalculator.tsx:99-101 | moving `n` months keeps the day and shifts the month index by `n`; twelve months make a year |
| ReactDates.IndexOrder | src/tools/ImprovedAgeCalculator.tsx:99-101 | calendar order is month-index order, then day order |
| ReactDates.WholeYears | src/tools/ImprovedAgeCalculator.tsx:91 | `n` is the count whose anniversary is on or before the later date and whose next anniversary is after it |
| ReactDates.WholeMonths | src/tools/ImprovedAgeCalculator.tsx:104 | the same characterisation for months, and the count is non-negative when the dates are in order |
| ReactDates.WholeUnitsUnique | src/tools/ImprovedAgeCalculator.tsx:104 | that characterisation determines the month count uniquely |
| ReactDates.YearsFromMonths | src/tools/ImprovedAgeCalculator.tsx:91-104 | whole years are whole months divided by twelve, rounded down |
| ReactDates.DifferenceInYears | src/tools/ImprovedAgeCalculator.tsx:91 | the sign of `differenceInYears` follows the order of its arguments |
| ReactDates.DifferenceInMonths | src/tools/ImprovedAgeCalculator.tsx:104 | the sign of `differenceInMonths` follows the order of its arguments |
| ReactDates.DifferencesAntisymmetric | src/tools/ImprovedAgeCalculator.tsx:91-104 | swapping the arguments negates both differences |
| ReactDates.DifferenceInDays | src/tools/ImprovedAgeCalculator.tsx:105 | the day difference is non-negative exactly when the dates are in order, and zero exactly for equal dates |
| ReactDates.GetDaysInMonth | src/tools/ImprovedAgeCalculator.tsx:48-50 | `getDaysInMonth` is the Gregorian length of the month |
| ReactDates.DayOptions | src/tools/ImprovedAgeCalculator.tsx:52-54 | the day select offers 1 to the month length once year and month are chosen, otherwise 1 to 31 |
| ReactDates.BirthYearOptions | src/tools/ImprovedAgeCalculator.tsx:29 | 100 years, newest first, exactly the current year and the 99 before it |
| ReactDates.SpanYearOptions | src/tools/ImprovedDateDifferenceCalculator.tsx:32 | 100 years, newest first, from 50 ahead down to 49 back |
| ReactDates.AssembleDate | src/tools/ImprovedAgeCalculator.tsx:57-62 | the date changes only when all three selects are set; it is then valid, and it is exactly the selected date when that day exists in the month |
| ReactDates.SetFullYear | src/tools/ImprovedAgeCalculator.tsx:94-96 | the same month and day in the other year, except that February 29th rolls to March 1st in a common year |
| ReactDates.SubtractionBreakdown | src/tools/ImprovedAgeCalculator.tsx:91-101 | the years are the whole years and equal the whole months divided by 12; months and days are non-negative |
| ReactDates.Abs | src/tools/ImprovedAgeCalculator.tsx:121-122 | `Math.abs` is non-negative and equals the value or its negation |
| ReactDates.TwelveMonthsExample | src/tools/ImprovedAgeCalculator.tsx:94-101 | born 2020-03-01, on 2024-02-29, the tool reports 3 years, 12 months, 0 days |
| ReactDates.ClampYear | src/tools/ImprovedAgeCalculator.tsx:94-96 | a year shift that clamps to the month end keeps the month and stays valid |
| ReactDates.ClampedExample | src/tools/ImprovedAgeCalculator.tsx:94-101 | with the clamped shift the same input gives 3 years, 11 months, 27 days |
| ReactDates.ClampedBreakdown | src/tools/ImprovedAgeCalculator.tsx:94-101 | with the clamped shift, years are whole years, months are in 0..11 and days are non-negative |
| ReactDates.ImprovedCalculateAge | src/tools/ImprovedAgeCalculator.tsx:71-129 | both error toasts and exactly when each appears; on success, non-negative parts, total months as whole months, years as total months / 12, total days as the day difference, weeks as its floor / 7; the next birthday is `Calendar.NextBirthday` except that, with the clock past midnight, a birthday falling today is moved a year on; the day count is the difference to it, one less past midnight, because `differenceInDays` counts whole days |
| ReactDates.ClockedNextBirthday | src/tools/ImprovedAgeCalculator.tsx:108-115 | the date `isBefore` against the current time leaves: never before today, and strictly after today once the clock is past midnight |
| ReactDates.ClockExamples | src/tools/ImprovedAgeCalculator.tsx:108-117 | ten calendar days before a birthday the page shows 9 past midnight and 10 at midnight; on the birthday past midnight it shows next year's date |
| ReactDates.BasicCalculateAge | src/tools/AgeCalculator.tsx:24-67 | both error toasts and exactly when each appears; on success, non-negative parts, years as the whole years the adult panel reads, total months as whole months, total days as the day difference, and weeks as its floor / 7 |
| ReactDates.SelectableDateHasAge | src/tools/AgeCalculator.tsx:93 | any date the calendar widget lets the user pick produces an age, not an error |
| ReactDates.AdultYears | src/tools/AgeCalculator.tsx:142-146 | the adult panel appears exactly from 18 years and shows the years past 18 |
| ReactDates.LifeProgress | src/tools/ImprovedAgeCalculator.tsx:132-136 | the share of an 80-year life is capped at 100, reaches 100 exactly at 80 years, and is proportional below that |
| ReactDates.ImprovedDateDifference | src/tools/ImprovedDateDifferenceCalculator.tsx:78-112 | both error toasts and exactly when each appears; on success, days as the day difference, months as whole months, years as months / 12, and weeks, hours and seconds from the days |
| Calculator.FreshKeys | src/pages/Calculator.tsx:74-79 | the substring test that starts a fresh entry after a result accepts exactly the digit and point keys |
| Calculator.ResultKeepingKeys | src/pages/Calculator.tsx:81-83 | the flag-reset test spares exactly the operator keys and "=" |
| Calculator.Factorial | src/pages/Calculator.tsx:51-55 | NaN exactly for negative numbers, otherwise a positive value |
| Calculator.FactorialIsProduct | src/pages/Calculator.tsx:51-55 | on natural numbers `factorial(n)` is the product 1 × … × n |
| Calculator.ReplaceAll | src/pages/Calculator.tsx:59-62 | a global replace introduces only characters of the replacement, drops the replaced character, and is the identity when that character is absent |
| Calculator.SubstituteRemovesGlyphs | src/pages/Calculator.tsx:57-71 | the text handed to `eval` contains none of ×, ÷, π, e |
| Calculator.SubstituteKeepsPlainFormula | src/pages/Calculator.tsx:57-71 | a formula without those glyphs reaches `eval` unchanged |
| Calculator.BackspaceKey | src/pages/Calculator.tsx:94-102 | "←" drops exactly the last character of display and formula, or resets both once the display has one character |
| Calculator.EqualsKey | src/pages/Calculator.tsx:103-116 | a result is shown, appended to the formula after " = " and marked calculated; a failure shows "Error" and changes nothing else |
| Calculator.OperatorKey | src/pages/Calculator.tsx:117-133 | the formula ends with the operator; after a result it starts from the displayed value; a trailing operator is replaced, not doubled; the display shows "0" and the flag is cleared |
| Calculator.PointKey | src/pages/Calculator.tsx:134-139 | "." is appended to display and formula exactly when the display has no point yet |
| Calculator.DigitKey | src/pages/Calculator.tsx:259-269 | a digit replaces a lone "0" and is appended otherwise, and always extends the formula |
| Calculator.FactorialKeyPress | src/pages/Calculator.tsx:231-241 | an unreadable display, or a number deeper than the engine's call stack allows `factorial` (lines 51-55) to recurse, shows "Error" and changes nothing else; a negative number shows "NaN"; otherwise n! is shown, the formula becomes the entry followed by "!", and the result is marked calculated |
| Calculator.ResetFlag | src/pages/Calculator.tsx:81-83 | the flag survives only for the operator keys and "=", and nothing else changes |
| Calculator.Press | src/pages/Calculator.tsx:73-271 | the effect of each key on angle mode, the inverse flag, fresh starts after a result, C, CE, INV/DEG/RAD and the scientific keys, and which keys may leave a result marked as calculated |
| Calculator.FreshEntryAfterResult | src/pages/Calculator.tsx:73-79 | after a result, a digit or point shows just that key as display and formula, whatever the result and formula were |
| Calculator.TypingAfterResult | src/pages/Calculator.tsx:73-269 | two digits typed after a result form a new number: the formula holds both digits, and a leading zero is dropped from the display |
| Calculator.ErrorTimeout | src/pages/Calculator.tsx:110-113 | the error timer clears display and formula and nothing else |
| Calculator.OperatorReplaces | src/pages/Calculator.tsx:117-133 | two operator keys in a row act as the second one alone |
| Calculator.BackspaceUndoesDigit | src/pages/Calculator.tsx:94-102 | "←" undoes a digit typed onto an entry that is not "0" |
| Calculator.InverseTwice | src/pages/Calculator.tsx:246-248 | "INV" twice restores the state |
| Calculator.ClearIdempotent | src/pages/Calculator.tsx:86-90 | "C" gives the initial entry state (keeping the mode flags), and pressing it twice is the same as once |
| Calculator.ConstantKeysDisplay | src/pages/Calculator.tsx:140-147 | π and e show their decimal expansions |
| Calculator.PressKeepsDisplay | src/pages/Calculator.tsx:73-271 | one key press keeps the display non-empty with at most one decimal point |
| Calculator.DisplayAlwaysOk | src/pages/Calculator.tsx:73-271 | after any sequence of key presses the display is non-empty and has at most one decimal point |
| Calculator.TimeoutKeepsDisplay | src/pages/Calculator.tsx:110-113 | the error timer leaves a well-formed display |
| TextStats.NoWordIffSpaces | wordpress-plugin/calculator-tools/includes/tools/word-counter.php:100 | a text has no word exactly when it is all white space |
| TextStats.TrimKeepsWords | wordpress-plugin/calculator-tools/includes/tools/word-counter.php:100 | trimming does not change the word count |
| TextStats.SplitCountsWords | wordpress-plugin/calculator-tools/includes/tools/word-counter.php:100 | the non-empty pieces of the white-space split are the word starts of the text |
| TextStats.PluginWords | wordpress-plugin/calculator-tools/includes/tools/word-counter.php:100 | the plugin page counts exactly the word starts, and zero exactly for blank text |
| TextStats.ScriptWords | wordpress-plugin/calculator-tools/assets/script.js:347 | the plugin script counts the same words without the filter |
| TextStats.ThemeWords | wordpress-theme/calculator-tools-theme/template-word-counter.php:63-64 | the theme counts the same words without the blank guard |
| TextStats.RemoveSpaces | wordpress-plugin/calculator-tools/includes/tools/word-counter.php:102 | removing white space keeps every other character with its multiplicity and no white space |
| TextStats.WordsAtMostLetters | wordpress-plugin/calculator-tools/includes/tools/word-counter.php:100-102 | there are never more words than non-space characters |
| TextStats.AverageWordLength | wordpress-plugin/calculator-tools/includes/tools/word-counter.php:107 | 0 without words; otherwise the average times the word count is the number of non-space characters |
| TextStats.AverageAtLeastOne | wordpress-plugin/calculator-tools/includes/tools/word-counter.php:107 | on a text with words the average word length is at least 1 |
| TextStats.NonBlankPieces | wordpress-plugin/calculator-tools/includes/tools/word-counter.php:103 | no non-blank piece exists exactly when the text holds only white space and separators |
| TextStats.ChunksCounted | wordpress-plugin/calculator-tools/includes/tools/word-counter.php:103 | the non-blank pieces between separator runs number exactly the characters that open a piece: neither space nor separator, and first since the start or the last separator |
| TextStats.PluginSentences | wordpress-plugin/calculator-tools/includes/tools/word-counter.php:103 | the sentences are the reference count of piece openers between runs of `.`, `!`, `?`; none exactly when the text holds only white space and those marks |
| TextStats.ThemeSentences | wordpress-theme/calculator-tools-theme/template-word-counter.php:70-71 | the same reference count and zero condition, without the blank guard |
| TextStats.SentenceCountsAgree | wordpress-plugin/calculator-tools/includes/tools/word-counter.php:103 | the plugin's blank guard changes no sentence count compared with the theme |
| TextStats.ThemeParagraphs | wordpress-theme/calculator-tools-theme/template-word-counter.php:74-75 | the paragraphs are the reference count of piece openers between newline runs; none exactly for blank text, and no counted paragraph contains a newline |
| TextStats.BlankLineMatch | wordpress-plugin/calculator-tools/includes/tools/word-counter.php:104 | a match of `/\n\s*\n/` is white space that starts and ends with a newline |
| TextStats.NoMatchNoBlankLine | wordpress-plugin/calculator-tools/includes/tools/word-counter.php:104 | where the regex finds no match at a newline, no blank line starts there |
| TextStats.SplitBlankLines | wordpress-plugin/calculator-tools/includes/tools/word-counter.php:104 | the split gives at least one piece, the first being a prefix of the text |
| TextStats.NoBlankLineInPieces | wordpress-plugin/calculator-tools/includes/tools/word-counter.php:104 | no piece of the blank-line split contains a blank line |
| TextStats.SplitBlankLinesKeeps | wordpress-plugin/calculator-tools/includes/tools/word-counter.php:104 | every non-space character lands in some piece |
| TextStats.NonBlankHasParagraph | wordpress-plugin/calculator-tools/includes/tools/word-counter.php:104 | a non-blank text has at least one counted paragraph |
| TextStats.ParagraphsAreClean | wordpress-plugin/calculator-tools/includes/tools/word-counter.php:104 | every counted paragraph is non-blank and free of blank lines |
| TextStats.ParagraphsCounted | wordpress-plugin/calculator-tools/includes/tools/word-counter.php:104 | the non-blank pieces of the split on blank lines number exactly the non-space characters that are first since the start or since a white-space run holding two newlines |
| TextStats.MatchSkips | wordpress-plugin/calculator-tools/includes/tools/word-counter.php:104 | a match of the blank-line pattern closes the paragraph, leaving the count as at the start of a text |
| TextStats.PluginParagraphs | wordpress-plugin/calculator-tools/includes/tools/word-counter.php:104 | the paragraphs are that reference count; zero exactly for blank text, and every counted paragraph is non-blank and free of blank lines |
| TextStats.DisplayedParagraphs | wordpress-plugin/calculator-tools/includes/tools/word-counter.php:114 | the `Math.max` never changes the count, and at least one paragraph is shown exactly for non-blank text |
| TextStats.Lines | wordpress-plugin/calculator-tools/includes/tools/word-counter.php:105 | one line more than there are newlines |
| TextStats.CeilDiv | wordpress-plugin/calculator-tools/includes/tools/word-counter.php:106 | the fewest whole minutes that cover the words at the given rate |
| TextStats.ReadingTime | wordpress-plugin/calculator-tools/includes/tools/word-counter.php:106 | the fewest minutes at 200 words a minute, and zero exactly without words |
| TextStats.SpeakingTime | wordpress-theme/calculator-tools-theme/template-word-counter.php:81 | the fewest minutes at 130 words a minute, and zero exactly without words |
| TextStats.CeilDivAntitone | wordpress-theme/calculator-tools-theme/template-word-counter.php:78-81 | a slower rate never takes fewer minutes |
| TextStats.SpeakingNotShorter | wordpress-theme/calculator-tools-theme/template-word-counter.php:78-81 | speaking time is never below reading time |
| TextStats.StatsShown | wordpress-plugin/calculator-tools/includes/tools/word-counter.php:123-127 | the panel is shown exactly when the text has a word |
| TextStats.CopyText | wordpress-plugin/calculator-tools/includes/tools/word-counter.php:136-141 | blank text is refused with "No text to copy!"; any other text is copied verbatim |
| TextStats.UpdateWordCount | wordpress-plugin/calculator-tools/includes/tools/word-counter.php:96-128 | each shown figure is its reference: words as word starts, characters and non-space characters, sentences and paragraphs as the reference counts, lines as newlines + 1, the reading time, and the average word length; at least one paragraph appears exactly when there is a word |
| TextStats.CountText | wordpress-theme/calculator-tools-theme/template-word-counter.php:59-90 | the shown words are the word starts; sentences and paragraphs are the reference counts, none of the latter exactly without words; both times are the exact ceilings at 200 and 130 words a minute, and speaking is never shorter than reading |
| Password.CharRangeMembers | wordpress-plugin/calculator-tools/assets/script.js:299-301 | a character is in the alphabet exactly when its code lies in the range |
| Password.AlphabetMembers | wordpress-plugin/calculator-tools/assets/script.js:299-301 | the three alphabets are exactly the classes `[A-Z]`, `[a-z]`, `[0-9]` the score tests |
| Password.SymbolsAreNotAlphanumeric | wordpress-plugin/calculator-tools/assets/script.js:302-325 | every offered symbol earns the special-character point |
| Password.ThemeSymbolsExtendPlugin | wordpress-theme/calculator-tools-theme/template-password-generator.php:74-78 | the theme's symbols are the plugin's plus `-` and `=` |
| Password.ConcatMembers | wordpress-plugin/calculator-tools/assets/script.js:298-302 | a character is in the built set exactly when its class is selected, and the set is empty exactly when nothing is selected |
| Password.PluginCharset | wordpress-plugin/calculator-tools/assets/script.js:298-306 | the set is never empty, and holds exactly the selected classes, or lowercase when none is selected |
| Password.ThemeCharset | wordpress-theme/calculator-tools-theme/template-password-generator.php:69-78 | the alert appears exactly when no class is selected; otherwise the set is non-empty and holds exactly the selected classes |
| Password.ScriptLength | wordpress-plugin/calculator-tools/assets/script.js:292 | the slider reading is kept when it is a non-zero number, and 12 is used for NaN or 0 |
| Password.Pick | wordpress-plugin/calculator-tools/assets/script.js:310 | a roll in [0, 1) always picks a character of the set |
| Password.PickReaches | wordpress-plugin/calculator-tools/assets/script.js:310 | every character of the set has a roll that picks it |
| Password.Generate | wordpress-plugin/calculator-tools/assets/script.js:308-311 | the password has the requested length (none when it is not positive), and each character is the pick of its own roll |
| Password.EveryPasswordReachable | wordpress-plugin/calculator-tools/assets/script.js:308-311 | every string over the set is produced by some rolls |
| Password.ScriptGenerate | wordpress-plugin/calculator-tools/assets/script.js:288-315 | the length is the slider value or 12, and every character comes from the plugin's set |
| Password.PageGenerate | wordpress-plugin/calculator-tools/includes/tools/password-generator.php:120-145 | the slider length, with every character from the plugin's set |
| Password.ThemeGenerate | wordpress-theme/calculator-tools-theme/template-password-generator.php:62-87 | the alert appears exactly when nothing is selected; otherwise the slider length, with every character from the theme's set |
| Password.Scan | wordpress-plugin/calculator-tools/assets/script.js:322-325 | a class test holds exactly when some character is in the class |
| Password.Score | wordpress-plugin/calculator-tools/assets/script.js:318-328 | the score is at most 7, is 7 exactly when every criterion holds, and is at most 5 below 8 characters |
| Password.SingleClassCapped | wordpress-plugin/calculator-tools/assets/script.js:318-328 | an all-lowercase password scores at most 4 |
| Password.Rate | wordpress-plugin/calculator-tools/assets/script.js:330-333 | each label corresponds exactly to its score band: 7 and up, 5–6, 3–4, below 3 |
| Password.RateMonotone | wordpress-plugin/calculator-tools/assets/script.js:330-333 | a higher score never gets a weaker label |
| Password.LowercaseFallbackAtMostModerate | wordpress-plugin/calculator-tools/assets/script.js:304-306 | a password drawn from the lowercase fallback is never rated above moderate |
| Password.ShortNeverVeryStrong | wordpress-plugin/calculator-tools/assets/script.js:318-333 | a password below 8 characters is never very strong |
| Password.UpperAscii | wordpress-plugin/calculator-tools/assets/script.js:337 | `toUpperCase` maps exactly the ASCII lowercase letters to their capitals |
| Password.ReplaceFirstDash | wordpress-plugin/calculator-tools/assets/script.js:337 | a one-dash `replace` keeps the length and is the identity without a dash |
| Password.ReplaceFirstDashAt | wordpress-plugin/calculator-tools/assets/script.js:337 | only the first dash becomes a space |
| Password.ScriptLabelAgrees | wordpress-plugin/calculator-tools/assets/script.js:337 | the label the script derives from the CSS class matches the plugin page's label for every strength |
| Uri.Utf8 | src/tools/QRCodeGenerator.tsx:48 | UTF-8 of one scalar is 1 to 4 bytes; the lead byte announces the length, the rest are continuation bytes, and one byte means ASCII |
| Uri.Utf8RoundTrip | src/tools/QRCodeGenerator.tsx:48 | decoding a character's UTF-8 bytes under RFC 3629's rules gives the character |
| Uri.HexDigitValue | src/tools/QRCodeGenerator.tsx:48 | the value of a written hex digit is the digit |
| Uri.Escape | src/tools/QRCodeGenerator.tsx:48 | `%XX` escaping takes three characters per byte, all `%` or upper-case hex |
| Uri.ReadEscapesOfEscape | src/tools/QRCodeGenerator.tsx:48 | reading escapes back from escaped bytes gives the bytes |
| Uri.Encode | src/tools/QRCodeGenerator.tsx:48 | `encodeURIComponent` output consists of component characters only, with none of `&`, `=`, `#`, `?`, `+` or space |
| Uri.DecodeStep | src/tools/QRCodeGenerator.tsx:48 | decoding consumes exactly one encoded character |
| Uri.DecodeEncode | src/tools/QRCodeGenerator.tsx:48 | `decodeURIComponent(encodeURIComponent(s))` is `s` |
| Qr.UrlPayload | wordpress-plugin/calculator-tools/includes/tools/qr-code-generator.php:134-139 | the input is kept, or gains "https://"; a non-empty input ends up with a scheme; an input with a scheme is kept |
| Qr.UrlPayloadIdempotent | wordpress-plugin/calculator-tools/includes/tools/qr-code-generator.php:134-139 | applying the URL rule twice is the same as once |
| Qr.MailtoParams | wordpress-plugin/calculator-tools/includes/tools/qr-code-generator.php:148-150 | at most two parameters, each free of `&` and `?`, and none exactly when subject and body are empty |
| Qr.EmailPayload | wordpress-plugin/calculator-tools/includes/tools/qr-code-generator.php:141-155 | nothing without an address; otherwise it starts with "mailto:" and the address |
| Qr.MailtoReadsBack | wordpress-plugin/calculator-tools/includes/tools/qr-code-generator.php:146-153 | splitting at "?" and "&" recovers the address and exactly the parameters, and subject and body decode back |
| Qr.PhonePayload | wordpress-plugin/calculator-tools/includes/tools/qr-code-generator.php:157-162 | empty exactly for an empty number; otherwise "tel:" followed by the number |
| Qr.Payload | wordpress-plugin/calculator-tools/includes/tools/qr-code-generator.php:129-163 | the text tab takes the input as it is |
| Qr.QueryReadsBack | wordpress-plugin/calculator-tools/includes/tools/qr-code-generator.php:174 | a URL built from a base and plain parameters splits back into the base and each parameter |
| Qr.EncodedParamIsPlain | wordpress-plugin/calculator-tools/includes/tools/qr-code-generator.php:172-174 | a parameter whose value is encoded contains no `&` or `?` |
| Qr.EccLetter | wordpress-plugin/calculator-tools/includes/tools/qr-code-generator.php:80-83 | the error-correction letter is one of L, M, Q, H |
| Qr.QrServerParams | wordpress-plugin/calculator-tools/includes/tools/qr-code-generator.php:174 | exactly the size, ecc and encoded data parameters, in that order, all plain |
| Qr.QrServerUrlReadsBack | wordpress-plugin/calculator-tools/includes/tools/qr-code-generator.php:170-174 | the image URL splits back into the service and its three parameters, and the data decodes to the content |
| Qr.Preview | wordpress-plugin/calculator-tools/includes/tools/qr-code-generator.php:184 | content up to 50 characters is shown whole; longer content shows its first 50 characters followed by "..." |
| Qr.GenerateQrCode | wordpress-plugin/calculator-tools/includes/tools/qr-code-generator.php:125-188 | refused exactly for blank content, with the page's message; otherwise the image URL and preview of the active tab's content |
| Qr.BlankUrlInputAccepted | wordpress-plugin/calculator-tools/includes/tools/qr-code-generator.php:134-168 | white space is refused on the text tab but gains a scheme and is accepted on the URL tab |
| Qr.ScriptParams | wordpress-plugin/calculator-tools/assets/script.js:409-412 | exactly the size and encoded data parameters, both plain |
| Qr.ScriptQrUrlReadsBack | wordpress-plugin/calculator-tools/assets/script.js:409-412 | the script's URL splits back into the service and its two parameters, and the text decodes back |
| Qr.UpdateQrCode | wordpress-plugin/calculator-tools/assets/script.js:414-431 | refused exactly for blank text; otherwise the script's URL at the selected size, or 200 |
| Qr.ReactPayload | src/tools/QRCodeGenerator.tsx:37-45 | a URL gains "https://" unless it starts with "http"; email and phone always gain their scheme; text is kept |
| Qr.UrlRulesDiffer | src/tools/QRCodeGenerator.tsx:39 | "httpbin.org" gets no scheme on the React page but gets one on the plugin page |
| Qr.DropFirst | src/tools/QRCodeGenerator.tsx:51 | `substring(1)` is the text without its first character |
| Qr.ChartParams | src/tools/QRCodeGenerator.tsx:51 | exactly the type, size, encoded content, colour and background parameters |
| Qr.ChartParamsPlain | src/tools/QRCodeGenerator.tsx:51 | with colours free of `&` and `?`, every chart parameter is plain |
| Qr.ChartUrlReadsBack | src/tools/QRCodeGenerator.tsx:51 | the chart URL splits back into the service and its five parameters, and the content decodes back |
| Qr.ReactGenerate | src/tools/QRCodeGenerator.tsx:24-54 | refused exactly for empty content (white space is accepted); otherwise the chart URL of the prepared content |
| Qr.ReactSizes | src/tools/QRCodeGenerator.tsx:139-142 | exactly the multiples of 50 from 100 to 500 |
| EmailAlias.Lower | src/tools/GmailGenerator.tsx:28 | `toLowerCase` maps exactly the ASCII capitals to lowercase |
| EmailAlias.Sanitize | src/tools/GmailGenerator.tsx:28-30 | the result holds only `[a-z0-9]`, keeps every lowercased character of that class, and is empty exactly when no such character exists |
| EmailAlias.SanitizeIdempotent | src/tools/GmailGenerator.tsx:28-30 | sanitising twice is the same as once |
| EmailAlias.Locals | src/tools/GmailGenerator.tsx:35-72 | 2 to 14 local parts, all sanitised; the last two are the year variants; with no names only the bare year, twice |
| EmailAlias.Dedup | src/tools/GmailGenerator.tsx:75 | `[...new Set(xs)]` keeps exactly the values of the list, each once |
| EmailAlias.DedupOrder | src/tools/GmailGenerator.tsx:75 | values are kept in order of first appearance |
| EmailAlias.DedupOfDistinct | src/tools/GmailGenerator.tsx:75 | a list without repetitions is unchanged |
| EmailAlias.DedupKeepsFirst | src/tools/GmailGenerator.tsx:75 | the first value stays first |
| EmailAlias.Address | src/tools/GmailGenerator.tsx:36 | `${local}@${domain}` starts with the local part and "@", and ends with "@" and the domain |
| EmailAlias.GenerateEmails | src/tools/GmailGenerator.tsx:18-78 | the error appears exactly when both name fields are empty as typed; otherwise 1 to 14 distinct addresses at the domain, every pattern's address among them and nothing else |
| EmailAlias.UniqueAddresses | src/tools/GmailGenerator.tsx:74-75 | `new Set` of the addresses: distinct, every local part's address present, and nothing else |
| EmailAlias.UniqueAddressesOrder | src/tools/GmailGenerator.tsx:74-75 | the unique addresses keep the order of their first appearance |
| EmailAlias.GeneratedInFirstOrder | src/tools/GmailGenerator.tsx:28-75 | the suggestions are listed in the order their patterns first appear |
| EmailAlias.FullNameFirst | src/tools/GmailGenerator.tsx:35-36 | with both names the first suggestion is first + last |
| EmailAlias.SymbolNamesGiveYearOnly | src/tools/GmailGenerator.tsx:19-72 | names made only of symbols pass the check, but leave only the bare-year address |
| SeoParser.Lines | src/tools/YouTubeSEOExpert.tsx:116 | the kept lines are exactly the non-blank pieces of the newline split |
| SeoParser.TitleOf | src/tools/YouTubeSEOExpert.tsx:137 | a title has non-space ends |
| SeoParser.TitleOfNumbered | src/tools/YouTubeSEOExpert.tsx:136-137 | a line "n. title" is taken as a numbered line and gives back exactly the title |
| SeoParser.StripBrackets | src/tools/YouTubeSEOExpert.tsx:141 | stripping brackets only removes characters |
| SeoParser.TagsOf | src/tools/YouTubeSEOExpert.tsx:141-142 | every parsed tag is non-empty and trimmed |
| SeoParser.HeaderOf | src/tools/YouTubeSEOExpert.tsx:125-134 | a line is a header exactly when it contains one of the three markers, which are tried in order TITLES, DESCRIPTION, TAGS |
| SeoParser.Content | src/tools/YouTubeSEOExpert.tsx:136-143 | content lines keep the section; exactly a numbered line in the titles adds its title (number, dot and spaces removed, trimmed); exactly a non-blank line in the description adds its trimmed text; exactly a non-blank line in the tags replaces the tags; nothing changes before the first header |
| SeoParser.Step | src/tools/YouTubeSEOExpert.tsx:124-143 | a header switches the section and adds no content; any other line stays in its section and adds a title, a description line or the tags exactly as in `SeoParser.Content` |
| SeoParser.RunKeepsShape | src/tools/YouTubeSEOExpert.tsx:124-144 | the loop keeps titles trimmed, description lines non-empty and trimmed, and tags non-empty and trimmed |
| SeoParser.RunAppend | src/tools/YouTubeSEOExpert.tsx:124-144 | the loop over two stretches of lines is the loop over one, then the other |
| SeoParser.PreambleIgnored | src/tools/YouTubeSEOExpert.tsx:124-144 | lines before the first header change nothing |
| SeoParser.ParseLines | src/tools/YouTubeSEOExpert.tsx:115-147 | every title is the title of a numbered line of the reply; titles trimmed, tags non-empty and trimmed, description trimmed |
| SeoParser.Parse | src/tools/YouTubeSEOExpert.tsx:115-147 | the same, for the whole reply text split into its non-blank lines |
| SeoParser.RunTitlesFrom | src/tools/YouTubeSEOExpert.tsx:124-144 | every title the loop collects was there before or is the title of one of its numbered lines |
| SeoParser.PreambleNotParsed | src/tools/YouTubeSEOExpert.tsx:115-147 | header-free lines in front of a reply do not change its parse |
| SeoParser.NoHeaderNothingParsed | src/tools/YouTubeSEOExpert.tsx:115-147 | a reply without headers parses to nothing |
| SeoParser.DescriptionJoined | src/tools/YouTubeSEOExpert.tsx:139-146 | `description += line + ' '` followed by `trim` is the lines joined by single spaces |
| SeoParser.ParsedDescription | src/tools/YouTubeSEOExpert.tsx:138-146 | the parsed description is the trimmed description lines joined by single spaces |
| SeoParser.TagLineRoundTrip | src/tools/YouTubeSEOExpert.tsx:140-143 | a tag line written `[a, b, c]` parses to exactly its tags |
| SeoParser.NoColonNoHeader | src/tools/YouTubeSEOExpert.tsx:125-134 | a line without a colon is never taken for a header |
| SeoParser.RunTitles | src/tools/YouTubeSEOExpert.tsx:136-137 | in the titles section, lines "1. a", "2. b", … add exactly the titles a, b, … |
| SeoParser.RunDescription | src/tools/YouTubeSEOExpert.tsx:138-139 | in the description section, non-blank lines that are not headers add exactly their trimmed texts |
| SeoParser.ReplyRoundTrip | src/tools/YouTubeSEOExpert.tsx:115-147 | a reply laid out as TITLES:, numbered titles, DESCRIPTION:, description lines, TAGS: and `[a, b, c]` parses to exactly those titles, the trimmed description lines joined by single spaces, and those tags |
| SeoParser.Remember | src/tools/YouTubeSEOExpert.tsx:103 | the new entry first, then up to nine older ones in order, and never more than ten |
| SeoParser.RememberedForTen | src/tools/YouTubeSEOExpert.tsx:103 | an entry remains in the history, at its age position, for ten generations |
| SeoParser.RememberAll | src/tools/YouTubeSEOExpert.tsx:103 | after a run of generations the history holds min(10, entries + history) entries |
| SeoParser.GenerateSeoContent | src/tools/YouTubeSEOExpert.tsx:31-113 | a blank topic is refused before any request; a failed request leaves the session alone and shows the service's message, or when it is empty "Failed to generate content" for a service error and "Failed to generate content. Please try again." for a failed request; a reply is parsed, shown and put at the head of the history with the success toast |
| SeoParser.HistoryBounded | src/tools/YouTubeSEOExpert.tsx:103 | the history never exceeds ten entries |
| Money.ShareOfPercent | wordpress-theme/calculator-tools-theme/template-percentage-calculator.php:84-107 | the share of p% of a number in that number is p again |
| Money.PercentOfShare | wordpress-theme/calculator-tools-theme/template-percentage-calculator.php:84-107 | p% of a whole, where p is the share of a part in that whole, is that part |
| Money.WholeOfPercent | wordpress-plugin/calculator-tools/calculator-tools.php:315-326 | the whole recovered from p% of a number is that number |
| Money.PercentTab | wordpress-theme/calculator-tools-theme/template-percentage-calculator.php:75-96 | the alert appears exactly for a non-number; otherwise the result is p% of the number |
| Money.ShareTab | wordpress-theme/calculator-tools-theme/template-percentage-calculator.php:98-119 | the alert appears exactly for a non-number or a zero base; otherwise the result is the share in percent |
| Money.ChangeTab | wordpress-theme/calculator-tools-theme/template-percentage-calculator.php:121-151 | the alert appears exactly for a non-number or a zero original; otherwise original + change = new value, the percentage is the change relative to the original, and "increase" exactly when the value grew |
| Money.NoChangeIsDecrease | wordpress-theme/calculator-tools-theme/template-percentage-calculator.php:130-148 | an unchanged value is labelled "Decrease" |
| Money.GstOnTop | wordpress-theme/calculator-tools-theme/template-gst-calculator.php:73-74 | adding GST keeps the amount as the base, and base + GST = total with GST at the rate |
| Money.GstInside | wordpress-theme/calculator-tools-theme/template-gst-calculator.php:102-103 | removing GST keeps the amount as the total, and base + GST = total with GST at the rate |
| Money.SplitUnique | wordpress-theme/calculator-tools-theme/template-gst-calculator.php:102-103 | a total splits in only one way at a given rate |
| Money.GstRoundTrip | wordpress-theme/calculator-tools-theme/template-gst-calculator.php:64-120 | removing GST from a total with GST added gives the original split |
| Money.AddGst | wordpress-theme/calculator-tools-theme/template-gst-calculator.php:64-91 | the alert appears exactly for a non-number; otherwise a split at the rate based on the amount |
| Money.RemoveGst | wordpress-theme/calculator-tools-theme/template-gst-calculator.php:93-120 | the alert appears exactly for a non-number; otherwise a split at the rate totalling the amount |
| Money.ThemeGstRoundTrip | wordpress-theme/calculator-tools-theme/template-gst-calculator.php:64-120 | on the page, removing GST from an add-mode total shows the same three amounts |
| Money.Margin | wordpress-theme/calculator-tools-theme/template-profit-loss.php:48-49 | cost + difference = selling price, and the percentage is the difference relative to the cost |
| Money.ProfitLoss | wordpress-theme/calculator-tools-theme/template-profit-loss.php:34-76 | both alerts and exactly when each appears; otherwise the amount is the absolute difference, the percentage is its share of the cost, and the verdict is profit or loss exactly as the sale is above or below cost |
| Money.AbsShare | wordpress-theme/calculator-tools-theme/template-profit-loss.php:69-73 | absolute values keep the share relation on a positive cost |
| Money.EqualPricesBreakEven | wordpress-theme/calculator-tools-theme/template-profit-loss.php:48-51 | equal prices break even, with amount and percentage 0 |
| Loan.PowIntIsOne | wordpress-theme/calculator-tools-theme/template-emi-calculator.php:60 | above a base of one only the zero power is one, so the formula's divisor is non-zero for a positive tenure |
| Loan.BalanceClosed | wordpress-theme/calculator-tools-theme/template-emi-calculator.php:60 | the balance after k months in closed form, B·r = P·r·g^k − e·(g^k − 1) |
| Loan.InstallmentClearsLoan | wordpress-theme/calculator-tools-theme/template-emi-calculator.php:60 | paying the instalment every month leaves exactly nothing owed after the tenure |
| Loan.GrowthBound | wordpress-theme/calculator-tools-theme/template-emi-calculator.php:60 | (1 + r)^n − 1 < n·r·(1 + r)^n for a positive rate |
| Loan.InterestPositive | wordpress-theme/calculator-tools-theme/template-emi-calculator.php:60-62 | with a positive rate the instalments add up to more than the principal |
| Loan.CalculateEmi | wordpress-theme/calculator-tools-theme/template-emi-calculator.php:54-62 | on slider values: total = EMI × months, principal + interest = total, the EMI clears the loan, and the interest is positive |
| Area.Rectangle | wordpress-theme/calculator-tools-theme/template-area-calculator.php:69-92 | the alert appears exactly for a non-number; otherwise length × width and 2·(length + width) |
| Area.SquareIsLargest | wordpress-theme/calculator-tools-theme/template-area-calculator.php:78-79 | perimeter² − 16·area is 4·(length − width)², so it is never negative and vanishes for a square |
| Area.Circle | wordpress-theme/calculator-tools-theme/template-area-calculator.php:94-116 | the alert appears exactly for a non-number; otherwise πr² and 2πr |
| Area.DiscIsHalfCircumferenceTimesRadius | wordpress-theme/calculator-tools-theme/template-area-calculator.php:102-103 | twice the area is the circumference times the radius |
| Area.CircleScaling | wordpress-theme/calculator-tools-theme/template-area-calculator.php:102-103 | doubling the radius quadruples the area and doubles the circumference |
| Area.Triangle | wordpress-theme/calculator-tools-theme/template-area-calculator.php:118-136 | the alert appears exactly for a non-number; otherwise twice the area is base × height |
| Area.TriangleIsHalfRectangle | wordpress-theme/calculator-tools-theme/template-area-calculator.php:118-127 | the triangle refuses the same inputs as the rectangle and has half its area |
| PluginAjax.ToolNamed | wordpress-plugin/calculator-tools/calculator-tools.php:267-285 | a tool is found exactly when some case label equals the name |
| PluginAjax.Field | wordpress-plugin/calculator-tools/calculator-tools.php:264-265 | a posted field reads as its value, or "" when missing |
| PluginAjax.SanitizeForm | wordpress-plugin/calculator-tools/calculator-tools.php:265 | the same keys, each value sanitised |
| PluginAjax.Handle | wordpress-plugin/calculator-tools/calculator-tools.php:261-286 | rejected exactly when the nonce is invalid; "Invalid tool type" exactly when no case matches the sanitised name; otherwise the named tool's handler on the sanitised form |
| PluginAjax.Run | wordpress-plugin/calculator-tools/calculator-tools.php:267-283 | no tool handler rejects the request or reports an invalid tool |
| PluginAjax.PercentageReply | wordpress-plugin/calculator-tools/calculator-tools.php:288-328 | no reply exactly for an unknown mode; each zero-divisor error exactly when its divisor is 0; each mode's result satisfies its equation and carries its `%` flag |
| PluginAjax.PercentageModesAgree | wordpress-plugin/calculator-tools/calculator-tools.php:288-328 | each mode computes the theme's matching percentage formula |
| PluginAjax.PercentageRoundTrip | wordpress-plugin/calculator-tools/calculator-tools.php:292-326 | feeding `find`'s result to `calculate` or `value` recovers the percentage or the value |
| PluginAjax.GstReply | wordpress-plugin/calculator-tools/calculator-tools.php:330-352 | `add` gives a split based on the amount; otherwise it fails exactly at rate −100, and else gives a split totalling the amount |
| PluginAjax.GstModesRoundTrip | wordpress-plugin/calculator-tools/calculator-tools.php:335-351 | removing GST from an `add` total at the same rate gives back the `add` amounts |
| PluginAjax.GstAgreesWithTheme | wordpress-plugin/calculator-tools/calculator-tools.php:330-352 | at the theme's rates both plugin modes show what the theme's pages show |
| PluginAjax.Instalment | wordpress-plugin/calculator-tools/calculator-tools.php:359-363 | the instalment is undefined exactly for a zero tenure |
| PluginAjax.InstalmentMeaning | wordpress-plugin/calculator-tools/calculator-tools.php:359-363 | with a positive rate it is the annuity instalment; without interest the instalments add up to the principal |
| PluginAjax.EmiReply | wordpress-plugin/calculator-tools/calculator-tools.php:354-373 | the request fails exactly for a zero tenure |
| PluginAjax.EmiFor | wordpress-plugin/calculator-tools/calculator-tools.php:359-372 | fails exactly for a zero tenure; otherwise total = EMI × tenure and principal + interest = total |
| PluginAjax.EmiTotals | wordpress-plugin/calculator-tools/calculator-tools.php:365-366 | total = EMI × tenure, and principal + interest = total |
| PluginAjax.RateOrder | wordpress-plugin/calculator-tools/calculator-tools.php:356 | dividing by 100 and then 12 is the theme's monthly rate |
| PluginAjax.EmiClearsLoan | wordpress-plugin/calculator-tools/calculator-tools.php:354-373 | with a positive rate and tenure the EMI clears the loan exactly; without interest, the interest is 0 |
| PluginAjax.EmiAgreesWithTheme | wordpress-plugin/calculator-tools/calculator-tools.php:354-373 | on slider values the plugin's reply is the theme's EMI report |
| PluginAjax.ProfitLossReply | wordpress-plugin/calculator-tools/calculator-tools.php:375-391 | fails exactly for a zero cost; otherwise "profit" exactly when selling ≥ cost, amount the absolute difference, and the percentage is its share of the absolute cost, for a negative cost too |
| PluginAjax.ProfitLossAgreesWithTheme | wordpress-plugin/calculator-tools/calculator-tools.php:375-391 | on prices the theme accepts, amount and percentage agree, and "profit" means the theme does not say "Loss" |
| PluginAjax.BreakEvenIsProfit | wordpress-plugin/calculator-tools/calculator-tools.php:382 | a sale at cost is a profit in the plugin and break-even in the theme |
| PluginAjax.AgeReply | wordpress-plugin/calculator-tools/calculator-tools.php:393-409 | fails exactly when the date does not parse; otherwise total months = 12·years + months, weeks are the floor of days / 7, and zero days exactly when the birth date is today |
| PluginAjax.AbsoluteDays | wordpress-plugin/calculator-tools/calculator-tools.php:401-407 | the day count of the interval is non-negative, and zero exactly for equal dates |
| PluginAjax.AbsoluteDaysSymmetric | wordpress-plugin/calculator-tools/calculator-tools.php:401-407 | it counts the same from either end, and is the day-number difference for ordered dates |

## Findings

| source | as written | input that shows it | evidently intended | confidence | as-written member | corrected member |
|---|---|---|---|---|---|---|
| src/tools/ImprovedAgeCalculator.tsx:94-101 | the birth date is moved back by the whole years with `setFullYear`, which rolls February 29th into March 1st, and the months are then counted from that shifted date | born 2020-03-01, today 2024-02-29: reported as 3 years, 12 months, 0 days | months always below 12 (3 years, 11 months, 27 days here) | not executed | ReactDates.TwelveMonthsExample | ReactDates.ClampedBreakdown |
| wordpress-theme/calculator-tools-theme/template-age-calculator.php:53-57 | a negative day count borrows the length of the month before the as-of month, which may be shorter than the birth day | born 2023-01-31, as of 2023-03-01: reported as 0 years, 1 month, −2 days | days never negative (0 years, 1 month, 1 day here) | not executed | ThemeDates.NegativeDaysExample | ThemeDates.CappedBorrowBreakdown |
| wordpress-theme/calculator-tools-theme/template-age-calculator.php:77-81 | a birthday that has passed is moved on with `setFullYear`, which keeps the month and day of this year's date; for a February 29th birth in a common year that date is already March 1st | born 2000-02-29, as of 2023-06-01: next birthday reported as 2024-03-01 | the first birthday on or after the as-of date (2024-02-29 here, a day earlier) | not executed | Calendar.LeapDayBirthdayExample | Calendar.FirstBirthday |

Each as-written member exhibits its counterexample on the modelled page logic (`ReactDates.SubtractionBreakdown`, `ThemeDates.BorrowBreakdown`). The page functions `ReactDates.ImprovedCalculateAge`, `ReactDates.BasicCalculateAge` and `ThemeDates.CalculateAge` keep the as-written breakdown and next birthday, so the model reports what the pages report. `ThemeDates.AgeFigures` and `ThemeDates.CalculateDateDifference` state the breakdown as `ThemeDates.BorrowBreakdown`. The React page's next birthday is `Calendar.NextBirthday` unless its clock is past midnight on the birthday itself. The React tool moves its next birthday the same way (src/tools/ImprovedAgeCalculator.tsx:109-115), so the third row applies to it too. `Calendar.FirstBirthdayIsFirst` proves the corrected next birthday is the first one on or after the as-of date, and `Calendar.NextBirthdayIsFirst` that the pages agree with it for every birth date other than February 29th. The corrected members carry the intended range as a proved postcondition. `ReactDates.ClampedExample` and `ThemeDates.CappedExample` give their results on the same inputs.

## Left out

- Area.SquareIsLargest: proves perimeter² ≥ 16·area, with equality for a square, but not the converse (equality only for a square).
- Password.Score: states the bound, the exact condition for the full 7 points and the short-password cap. It does not state the score for every combination of criteria.
- ReactDates.SubtractionBreakdown: states that months and days are non-negative, but not their exact values. The React tools' months can reach 12, as the Findings show.
- PluginAjax.EmiReply: states only when the request fails. The amounts are stated by PluginAjax.EmiFor, PluginAjax.EmiClearsLoan and PluginAjax.EmiAgreesWithTheme.
- SeoParser.TagsOf: states that every tag is non-empty and trimmed. Its exact content is stated only for well-formed tag lines, by SeoParser.TagLineRoundTrip.
- SeoParser.TitleOf: states only that titles are trimmed. The exact title is given for lines of the form "n. title" by SeoParser.TitleOfNumbered.
- Qr.Payload: states only the text tab. The other tabs are stated by Qr.UrlPayload, Qr.EmailPayload and Qr.PhonePayload.
- Evaluating the calculator's expression with `eval`, and the scientific functions (sin, cos and tan with their inverse forms asin, acos and atan, and log, ln, √ and x², which have none), are fields of the abstract `Numerics` record. Only their effect on the calculator state is modelled.
- The calculator's `x^y` key rewrites `^` for `eval`. In JavaScript that is bitwise XOR, not a power. `eval` is abstract here, so the quirk is not reflected.
- Negative numbers on `factorial`'s non-integer path: `parseInt` is abstract, and a NaN argument (unbounded recursion, caught as "Error") is modelled directly as the "Error" display. The engine's stack depth is the abstract `Numerics.maxDepth`. Past n = 170 the product is `Infinity` in floating point, which is left to the abstract `Numerics.showNat`.
- The clock: time zones and `Date` milliseconds are left out. Dates are calendar dates, and JavaScript date comparisons are day-number comparisons. The one place where the time of day changes a shown figure, the React age page's next birthday and its day count, is modelled by the `pastMidnight` flag of `ReactDates.ImprovedCalculateAge`.
- Rounding and formatting are left out: `toFixed`, `toLocaleString`, `number_format` and PHP `round`. IEEE floating point is replaced by exact reals.
- Strings are sequences of Unicode scalar values. UTF-16 surrogate pairs and non-ASCII case mapping are not modelled.
- Randomness is left out. `Math.random()` rolls are a parameter of the password loop.
- The current year and today's date are parameters.
- The network is left out: the Gemini request, the QR image services and the chart service. The reply or its failure is a parameter, and the URLs are only built.
- date-fns `differenceInYears/Months` are defined by their whole-unit characterisation on calendar dates.
- PHP's `DateTime::diff` is an abstract field of `PluginAjax.Env`, constrained only by the properties stated about `AgeReply`. The same goes for `floatval`, `intval`, `sanitize_text_field` and date parsing.
- A missing POST key reads as the empty string. PHP's warning for it is not modelled.
- PHP 8's `DivisionByZeroError` is the reply `Fatal`.
- The WordPress nonce check is a boolean of the request.
- The user interface is left out: React state rendering, debounce timers, the clipboard API, colours, toasts, charts, ads and routing.
- The media and file tools (file compressor, video to MP3, image and barcode scanning) are not part of this model. They wrap browser and server libraries and compute nothing of their own.
