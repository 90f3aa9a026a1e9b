# One good thing a day — a verified model of the journal's core logic

This project models the logic of a gratitude journal in Dafny. A user writes
one "good thing" a day, may attach a mood score from 1 to 5 and tags, and gets
an AI reflection. The model covers the rules the app applies to those entries:

- **streaks and statistics**: the Stats page, the home page's streak, and the
  streak in the daily reminder e-mail;
- **insights**: the 30-day window, the average mood, weekday groups, the
  happiest day, top themes and the mood chart;
- **the monthly reflection and life-insight functions**: input validation,
  the statistics they compute, the parsing of the AI's reply, and their HTTP
  status codes;
- **the two e-mail jobs**: the daily reminder and the 30-day re-engagement
  mail, including who gets a mail and the counters they report;
- **the timeline**: the calendar grid, mood colours and emoji, the list view
  and the next-month button;
- **memory resurfacing**: the four memory slots and the carousel;
- **the reflection and shareable-quote functions**: validation, the
  `MOOD: X` parser and the gateway's status codes;
- **the client components**: the journal prompt, the tag selector, phone
  login, milestone badges, and Settings (profile defaults, CSV export and
  account deletion).

Conventions used throughout:

- A calendar day is an integer counted from 1970-01-01 (day 0, a Thursday).
- "Now" is a `Clock(today, ms)`: a day plus the milliseconds into that day.
- Text is `seq<char>`. Length limits are measured with `Utf16Length`, which
  counts what JavaScript's `.length` counts.
- A mood is an `Option<int>`. `Tracked(m)` is JavaScript truthiness: present
  and non-zero.
- `MoodOr(m, d)` is `mood || d`.
- Request bodies are a small JSON datatype. An array counts as an object
  body, as `typeof [] === 'object'` makes it.
- Database replies, gateway replies, the clock and `Math.random()` are
  parameters of the operations that use them.
- Client components that hold state are classes whose methods update their
  fields. Requests, inserts and toasts they would send are recorded as
  sequences on the object.

Modules: `Common` (shared values, trimming, JSON, gateway status), `Sorting`,
`Calendar`, `Stats`, `Index`, `DailyReminders`, `Themes` (tag tally and top-5
ranking, shared by Insights and the monthly reflection), `Insights`,
`MonthlyReflection`, `LifeInsight`, `Reengagement`, `Timeline`, `Memories`,
`Reflection`, `Quote`, `JournalPrompt`, `TagSelector`, `PhoneLogin`,
`Milestones`, `Settings`.

## Model

| member | source | states |
|---|---|---|
| Common.FindByDay | src/pages/Timeline.tsx:60-64 | finds an entry on the given day exactly when one exists; the result is one of the entries and lies on that day |
| Common.FirstOnDay | src/pages/Timeline.tsx:60-64 | the index found is the first entry on that day; none is found only when no entry lies on that day |
| Common.AvgMood | src/pages/Insights.tsx:59-61 | average of `mood || 0` over all entries, untracked counting as 0; 0 for no entries; average × count = sum |
| Common.AvgMoodBounds | supabase/functions/generate-monthly-reflection/index.ts:102 | with moods on the 0..5 scale the average stays within 0..5 |
| Common.TrimEmptyIffAllSpace | supabase/functions/generate-reflection/index.ts:26 | the trimmed text is empty exactly when the text is all JavaScript whitespace |
| Common.TrimSpacePrefix | supabase/functions/generate-monthly-reflection/index.ts:196 | leading whitespace does not change the trimmed text |
| Common.Utf16Length | src/components/JournalPrompt.tsx:38 | the UTF-16 length lies between the code-point count and twice it |
| Common.GatewayFailureStatus | supabase/functions/generate-reflection/index.ts:107-125 | a failed AI gateway reply keeps status 429 and 402 and maps every other status to the handler's fallback |
| Common.Distinct | src/pages/Insights.tsx:64-69 | the distinct values: same members as the input, no duplicates |
| Common.DistinctInFirstOrder | src/pages/Insights.tsx:64-69 | the distinct values are listed in the order in which each first occurs (the key order of an object filled as keys are met) |
| Sorting.SortAsc | src/pages/Stats.tsx:59 | the result is ascending and a permutation of the input |
| Sorting.SortDesc | src/pages/Index.tsx:26-28 | the result is descending and a permutation of the input |
| Sorting.SortDescFixesDescending | supabase/functions/send-daily-reminders/index.ts:98-106 | sorting dates that are already newest first leaves them as they are |
| Calendar.NextMonthStart | src/pages/Timeline.tsx:85-86 | the month after a month starts the day after that month ends |
| Calendar.WeekStart | src/pages/Timeline.tsx:87 | the Sunday on or before a day |
| Calendar.WeekEnd | src/pages/Timeline.tsx:88 | the Saturday on or after a day |
| Calendar.ShiftMonthsAdd | src/pages/Timeline.tsx:98 | moving by a months then by b months equals moving by a+b months |
| Calendar.DateOf | src/components/MemoryResurfacing.tsx:35 | the calendar date (year, month, day of month) of a day number: a valid date whose day number is that day |
| Calendar.SameDate | src/components/MemoryResurfacing.tsx:35 | two valid dates with the same day number are the same date |
| Calendar.DateOfDayOf | src/components/MemoryResurfacing.tsx:35 | a valid date's day number converts back to that date |
| Calendar.YearBack | src/components/MemoryResurfacing.tsx:35 | a valid date one year earlier in the same month, on the same day of the month except that 29 February becomes 28 February |
| Calendar.YearAgo | src/components/MemoryResurfacing.tsx:35 | subYears(today, 1): today's date a year back, at the same time of day |
| Calendar.YearAgoDistance | src/components/MemoryResurfacing.tsx:35 | a year back is 365 or 366 days back |
| Stats.TrailingRun | src/pages/Stats.tsx:72-82 | length of the final run of one-day steps: at least 1 for a non-empty list, at most its length |
| Stats.TrailingRunSpec | src/pages/Stats.tsx:72-82 | the final run's days are consecutive and the day just before it does not continue it |
| Stats.LongestRun | src/pages/Stats.tsx:86-98 | length of the longest run of one-day steps, 1..n for a non-empty list |
| Stats.LongestRunIsUpperBound | src/pages/Stats.tsx:86-98 | every run of one-day steps is no longer than LongestRun |
| Stats.LongestRunAttained | src/pages/Stats.tsx:86-98 | some run of one-day steps has exactly LongestRun days |
| Stats.CurrentStreak | src/pages/Stats.tsx:64-82 | non-zero exactly when the latest entry is today or yesterday, and never above the longest streak |
| Stats.RepeatEndsRun | src/pages/Stats.tsx:76 | two entries on the same day cannot sit inside one run |
| Stats.StreaksAtMostDistinctDays | src/pages/Stats.tsx:64-98 | both streaks are bounded by the number of distinct entry days |
| Stats.ScanStreaks | src/pages/Stats.tsx:64-98 | the two loops compute exactly CurrentStreak and LongestRun of the sorted dates |
| Stats.CalculateStats | src/pages/Stats.tsx:53-102 | zeros for no entries; total = entry count; current and longest are the streaks of the sorted days; current ≤ longest ≤ entries |
| Stats.DuplicateDayBreaksStreak | src/pages/Stats.tsx:72-82 | days today-2, today-1, today-1, today give a current streak of 2 although three calendar days are covered |
| Stats.CorrectedStreakIsCalendarWalk | src/pages/Stats.tsx:64-82 | a positive corrected streak k means the k days ending at the latest entry day all have entries and the day before does not |
| Stats.CorrectedStreakIgnoresDuplicates | src/pages/Stats.tsx:64-82 | the corrected streak depends only on the set of entry days |
| Stats.Cell | src/pages/Stats.tsx:109-118 | a heatmap cell has an entry exactly when some entry lies on its day; empty cells have mood 0 |
| Stats.HeatmapData | src/pages/Stats.tsx:104-119 | one cell per day from the first day of the month two months back to the last day of this month, in order |
| Stats.HeatmapSize | src/pages/Stats.tsx:104-119 | the heatmap has between 89 and 92 cells |
| Stats.HeatmapCoversMonths | src/pages/Stats.tsx:104-119 | every day of the three months has its cell in the heatmap |
| Stats.MoodSparkline | src/pages/Stats.tsx:121-125 | the last (up to) 30 entries' `mood || 5`, in order |
| Stats.SparklineInRange | src/pages/Stats.tsx:121-125 | with stored moods on 0..5, every sparkline point is 1..5 |
| Index.CalendarWalk | src/pages/Index.tsx:34-46 | the walk counts k entries equal to today, today-1, …, today-k+1 at the head of the descending list and stops at the first gap |
| Index.WalkDates | src/pages/Index.tsx:34-46 | the for-loop stops at the first date that is not today minus the streak so far: it computes CalendarWalk |
| Index.CalculateStreak | src/pages/Index.tsx:23-49 | the loop computes CalendarWalk of the descending days; 0 for no entries; never more than the entry count |
| Index.NoEntryTodayMeansZero | src/pages/Index.tsx:34-46 | without an entry today the home streak is 0 |
| Index.WalkHasNoRepeats | src/pages/Index.tsx:34-46 | the days counted by the walk are pairwise different |
| Index.NonzeroStreakAgreesWithStats | src/pages/Index.tsx:23-49 | a non-zero home streak equals the Stats page's current streak |
| Index.StreakAtMostStatsCurrent | src/pages/Index.tsx:23-49 | the home streak never exceeds the Stats page's current streak |
| Index.HasEntryToday | src/pages/Index.tsx:66-68 | true exactly when some entry lies on today's UTC day |
| DailyReminders.LeadRun | supabase/functions/send-daily-reminders/index.ts:104-121 | length of the leading run of one-day steps in the newest-first dates; 0 only for none |
| DailyReminders.ReminderStreak | supabase/functions/send-daily-reminders/index.ts:104-121 | the loop computes LeadRun of the dates |
| DailyReminders.LeadRunOfReverse | supabase/functions/send-daily-reminders/index.ts:104-121 | the leading run of the reversed dates is the trailing run of the ascending ones |
| DailyReminders.ReminderStreakAgreesWithStats | supabase/functions/send-daily-reminders/index.ts:104-121 | when the latest entry is today or yesterday the reminder streak equals the Stats page's current streak |
| DailyReminders.MailedStreakIsStatsStreak | supabase/functions/send-daily-reminders/index.ts:98-121 | for a user's rows fetched newest first, whose newest is today or yesterday, the streak computed from them is the Stats page's current streak |
| DailyReminders.DueUserIsSent | supabase/functions/send-daily-reminders/index.ts:66-247 | every due user is among the mails, with the reminder carrying that user's leading-run streak |
| DailyReminders.DueMailCarriesStatsStreak | supabase/functions/send-daily-reminders/index.ts:66-247 | a due user whose newest row is today or yesterday is mailed the Stats page's current streak |
| DailyReminders.StaleStreakExample | supabase/functions/send-daily-reminders/index.ts:104-121 | the reminder streak does not look at today: two old consecutive days count 2 while the Stats streak is 0 |
| DailyReminders.JourneyDay | supabase/functions/send-daily-reminders/index.ts:124-129 | the journey day is one more than the number of entries |
| DailyReminders.Quote | supabase/functions/send-daily-reminders/index.ts:132 | texts of at most 60 UTF-16 units are kept; longer ones keep a prefix and gain "..." |
| DailyReminders.MoodEmoji | supabase/functions/send-daily-reminders/index.ts:133 | ✨ for an untracked mood, the table's emoji for 1..5, undefined otherwise |
| DailyReminders.MoodEmojiInjective | supabase/functions/send-daily-reminders/index.ts:133 | different moods 1..5 get different emoji, none of them ✨ |
| DailyReminders.Subject | supabase/functions/send-daily-reminders/index.ts:148 | the subject starts with "Day " exactly when the streak is positive, and then names streak+1 |
| DailyReminders.Compose | supabase/functions/send-daily-reminders/index.ts:131-148 | the mail goes to the user's address, names journey day entries+1 and quotes nothing for a user without entries |
| DailyReminders.UserOutcome | supabase/functions/send-daily-reminders/index.ts:66-247 | a user who logged today is skipped; a mail is attempted exactly when the user is due (not logged, hour matches, has an e-mail) |
| DailyReminders.AtMostOneLineEach | supabase/functions/send-daily-reminders/index.ts:236-247 | each user adds at most one recipient or one error line |
| DailyReminders.SendsGoToDueUsers | supabase/functions/send-daily-reminders/index.ts:82-86 | every reminder sent is the composed mail of some due user |
| DailyReminders.RemindUser | supabase/functions/send-daily-reminders/index.ts:66-247 | one user's pass adds the recipient or the error line of that user's outcome, and a mail exactly when the user is due |
| DailyReminders.SendDailyReminders | supabase/functions/send-daily-reminders/index.ts:63-248 | for users whose rows come newest first, as the query orders them, the loop's recipients, error lines and mails are those of the per-user outcomes; their total is at most the user count |
| DailyReminders.TodayRows | supabase/functions/send-daily-reminders/index.ts:69-79 | counts the user's entries dated today |
| Themes.ThemeTable | src/pages/Insights.tsx:79-84 | one row per distinct tag in first-seen order, holding the number of times it was used |
| Themes.CountThemes | src/pages/Insights.tsx:79-84 | the tally loop over the entries' tags builds exactly ThemeTable |
| Themes.ThemeTableCoversTags | supabase/functions/generate-monthly-reflection/index.ts:103-109 | a tag has a row exactly when some entry uses it |
| Themes.RankByCount | src/pages/Insights.tsx:86-90 | ranks rows by count, highest first, as a permutation of the table |
| Themes.RankKeepsTies | src/pages/Insights.tsx:86-90 | the ranking is stable: rows with equal counts keep their table order |
| Themes.TopThemes | src/pages/Insights.tsx:86-90 | at most five rows, by count descending, all from the table |
| Themes.TopThemesAreTop | src/pages/Insights.tsx:86-90 | a row left out of the top five has no higher count than any row in it |
| Themes.StrongestTheme | src/pages/Insights.tsx:86-90 | no strongest theme only for an empty table; otherwise a row with the largest count |
| Insights.RecentMembers | src/pages/Insights.tsx:53-57 | the recent entries are exactly the entries within the 30-day window |
| Insights.RecentWindow | src/pages/Insights.tsx:53-57 | an entry is recent when it is less than 30 days old, or exactly 30 days old at midnight |
| Insights.RecentIsSuffix | src/pages/Insights.tsx:53-57 | on date-ordered entries the recent ones are a suffix |
| Insights.UntrackedCountsAsZero | src/pages/Insights.tsx:59-61 | an untracked mood lowers the average: moods 4 and none average 2 |
| Insights.TrackedMoodsOn | src/pages/Insights.tsx:64-69 | the tracked moods of entries on one weekday, all non-zero |
| Insights.WeekdayGroups | src/pages/Insights.tsx:64-69 | one group per distinct weekday in first-seen order, holding that day's tracked moods |
| Insights.GroupByWeekday | src/pages/Insights.tsx:64-69 | the grouping loop builds exactly WeekdayGroups |
| Insights.GroupsCoverWeekdays | src/pages/Insights.tsx:64-69 | a weekday has a group exactly when some recent entry falls on it |
| Insights.EmptyGroupExample | src/pages/Insights.tsx:64-69 | a weekday whose entries are all untracked still gets a group, an empty one |
| Insights.FirstBest | src/pages/Insights.tsx:71-76 | the first group with the highest average |
| Insights.HappiestDay | src/pages/Insights.tsx:71-76 | none for no groups; otherwise a group whose average is the highest of all |
| Insights.ChartData | src/pages/Insights.tsx:93-98 | one chart point per tracked entry, with a non-zero mood |
| Insights.ChartDataAppend | src/pages/Insights.tsx:93-98 | the chart of a concatenation is the concatenation of the charts |
| Insights.ChartPointsFromRows | src/pages/Insights.tsx:93-98 | each chart point comes from an entry with that day and mood |
| Insights.InsightsPage | src/pages/Insights.tsx:111 | the keep-journaling card shows exactly when there are fewer than three entries; otherwise the entry count, average mood, happiest weekday, top themes, strongest theme and chart are those of the recent window |
| Insights.GateCountsAllEntries | src/pages/Insights.tsx:111 | three or more entries all older than the window pass the gate and show statistics computed from zero recent entries |
| MonthlyReflection.ValidateInput | supabase/functions/generate-monthly-reflection/index.ts:15-33 | accepts exactly an object body whose monthStart and monthEnd are strings of the form dddd-dd-dd, returning both |
| MonthlyReflection.AcceptsImpossibleRange | supabase/functions/generate-monthly-reflection/index.ts:27-28 | the date check is textual only: month 13, day 45 and an end before the start pass |
| MonthlyReflection.Positivity | supabase/functions/generate-monthly-reflection/index.ts:111 | "High" from 4, "Good" from 3 below 4, "Growing" below 3 |
| MonthlyReflection.PositivityBySums | supabase/functions/generate-monthly-reflection/index.ts:101-111 | the positivity label read off the mood sum and entry count, without division |
| MonthlyReflection.ThemesLine | supabase/functions/generate-monthly-reflection/index.ts:118-122 | "None tagged" for no themes; otherwise the line starts with the strongest theme |
| MonthlyReflection.LazyEnd | supabase/functions/generate-monthly-reflection/index.ts:191 | the lazy capture ends at the first HIGHLIGHTS: after its start, or at the end of the text |
| MonthlyReflection.SkipBlanksKeepOne | supabase/functions/generate-monthly-reflection/index.ts:191 | skipping the blanks after the marker (keeping one character for `.+?`) does not change the trimmed capture |
| MonthlyReflection.SummaryOf | supabase/functions/generate-monthly-reflection/index.ts:194 | without a SUMMARY: match the whole reply is the summary |
| MonthlyReflection.SummaryOfFormatted | supabase/functions/generate-monthly-reflection/index.ts:191-194 | a reply "SUMMARY:s HIGHLIGHTS:h" yields the trimmed s |
| MonthlyReflection.SplitLines | supabase/functions/generate-monthly-reflection/index.ts:196 | at least one piece, none holding a newline |
| MonthlyReflection.JoinSplit | supabase/functions/generate-monthly-reflection/index.ts:196 | joining the split lines with newlines gives the text back |
| MonthlyReflection.SplitJoin | supabase/functions/generate-monthly-reflection/index.ts:196 | splitting newline-free lines joined by newlines gives the lines back |
| MonthlyReflection.HighlightItem | supabase/functions/generate-monthly-reflection/index.ts:196 | a line is kept exactly when its trimmed text starts with "-" |
| MonthlyReflection.FilterMap | supabase/functions/generate-monthly-reflection/index.ts:196 | `filter` then `map`: no more results than elements |
| MonthlyReflection.FilterMapMembers | supabase/functions/generate-monthly-reflection/index.ts:196 | a value is among the results exactly when the map gives it for some element |
| MonthlyReflection.FilterMapAppend | supabase/functions/generate-monthly-reflection/index.ts:196 | the results of two blocks are those of the first followed by those of the second, so element order is kept |
| MonthlyReflection.FilterMapAllKept | supabase/functions/generate-monthly-reflection/index.ts:196 | when every element is kept, the results are the mapped values one per element |
| MonthlyReflection.Highlights | supabase/functions/generate-monthly-reflection/index.ts:196 | the kept lines' items, no more than there are lines; which items and in what order is stated by HighlightsMembers and HighlightsAppend |
| MonthlyReflection.HighlightsMembers | supabase/functions/generate-monthly-reflection/index.ts:196 | an item is a highlight exactly when some line's trimmed text starts with "-" and that line gives the item |
| MonthlyReflection.HighlightsAppend | supabase/functions/generate-monthly-reflection/index.ts:196 | the highlights keep the order of their lines |
| MonthlyReflection.HighlightsOfDashLines | supabase/functions/generate-monthly-reflection/index.ts:196 | lines "- x" give back their items x, in order |
| MonthlyReflection.HighlightsOf | supabase/functions/generate-monthly-reflection/index.ts:192-197 | no highlights without a HIGHLIGHTS: match; with a match, the highlights of the trimmed capture's lines, as HighlightsOfFormatted shows for a reply in the requested format |
| MonthlyReflection.HighlightsOfFormatted | supabase/functions/generate-monthly-reflection/index.ts:191-197 | a reply "SUMMARY:s HIGHLIGHTS:" followed by a line break and one line "- x" per item yields exactly those items, in order |
| MonthlyReflection.DashLine | supabase/functions/generate-monthly-reflection/index.ts:196 | "- x" becomes the trimmed x |
| MonthlyReflection.IndentedLineKeepsDash | supabase/functions/generate-monthly-reflection/index.ts:196 | an indented line "  - x" (x with no blank at either end, such as "walk") is kept as "- x": the dash survives |
| MonthlyReflection.CorrectedHighlightItem | supabase/functions/generate-monthly-reflection/index.ts:196 | corrected item: kept exactly when the trimmed line starts with "-" |
| MonthlyReflection.CorrectedIgnoresIndent | supabase/functions/generate-monthly-reflection/index.ts:196 | corrected item: leading whitespace does not change the result |
| MonthlyReflection.CorrectedIndentedLine | supabase/functions/generate-monthly-reflection/index.ts:196 | corrected item: "  - x" becomes "x" |
| MonthlyReflection.GenerateMonthlyReflection | supabase/functions/generate-monthly-reflection/index.ts:35-222 | 401 before anything else without a user; 400 on invalid input; rows queried only for valid input; 400 under three entries; gateway failures 429/402/500; success carries the parsed summary, highlights and statistics |
| LifeInsight.MoodValuesCount | supabase/functions/generate-life-insight/index.ts:97 | no mood values exactly when every entry's mood is null |
| LifeInsight.AvgMood | supabase/functions/generate-life-insight/index.ts:97-100 | no average exactly when no mood is present; otherwise average × count = sum |
| LifeInsight.Half | supabase/functions/generate-life-insight/index.ts:103 | the ceiling of half |
| LifeInsight.Trend | supabase/functions/generate-life-insight/index.ts:102-111 | one of improving, declining, stable; stable with fewer than three moods |
| LifeInsight.TrendByCrossMultiplication | supabase/functions/generate-life-insight/index.ts:102-111 | the trend read off integer sums, with no division |
| LifeInsight.CompareMeans | supabase/functions/generate-life-insight/index.ts:108-109 | the half-point comparison of two means equals a comparison of cross-multiplied sums |
| LifeInsight.ConstantMoodsAreStable | supabase/functions/generate-life-insight/index.ts:102-111 | equal moods always give "stable" |
| LifeInsight.MoodLabel | supabase/functions/generate-life-insight/index.ts:115-119 | "not tracked" exactly when the mood is not 1..5 |
| LifeInsight.MoodLabelsDistinct | supabase/functions/generate-life-insight/index.ts:115-119 | different moods 1..5 get different labels |
| LifeInsight.MoodContext | supabase/functions/generate-life-insight/index.ts:143-145 | no mood context exactly when no mood is present; otherwise it carries the count and the trend |
| LifeInsight.AfterGateway | supabase/functions/generate-life-insight/index.ts:171-194 | after the call: a gateway failure keeps 429 and 402 and maps the rest to 500; an insight exactly for an ok reply with content, trimmed |
| LifeInsight.GenerateLifeInsight | supabase/functions/generate-life-insight/index.ts:19-207 | 401 without a header or user; 400 for a non-object body; null insight when there are no entries; AI called otherwise; gateway failures 429/402/500; success is the trimmed reply |
| Reengagement.StaleInDays | supabase/functions/send-reengagement-email/index.ts:82-84 | an entry is stale when more than 30 days old, or exactly 30 days old after midnight |
| Reengagement.Take | supabase/functions/send-reengagement-email/index.ts:98 | the first min(n, length) items |
| Reengagement.RoundDiv | supabase/functions/send-reengagement-email/index.ts:109 | Math.round of a quotient: halves round up |
| Reengagement.AvgMood | supabase/functions/send-reengagement-email/index.ts:107-110 | 3 for no history; NaN exactly when history exists but no mood is tracked; otherwise the rounded average of tracked moods |
| Reengagement.UntrackedHistoryIsNaN | supabase/functions/send-reengagement-email/index.ts:108-109 | one entry without a mood gives NaN |
| Reengagement.CorrectedAvgMood | supabase/functions/send-reengagement-email/index.ts:108-110 | corrected average: 3 when nothing is tracked, the rounded average otherwise |
| Reengagement.CorrectedAvgOnScale | supabase/functions/send-reengagement-email/index.ts:108-110 | corrected average: with moods on 1..5 it is on 1..5 |
| Reengagement.HighMoods | supabase/functions/send-reengagement-email/index.ts:114 | only entries with mood 4 or more, all from the history |
| Reengagement.BestMoments | supabase/functions/send-reengagement-email/index.ts:113-115 | at most three high-mood entries from the history |
| Reengagement.HighMoodsNewestFirst | supabase/functions/send-reengagement-email/index.ts:113-115 | filtering keeps newest-first order |
| Reengagement.HighRowIsChosen | supabase/functions/send-reengagement-email/index.ts:113-115 | a high-mood entry preceded by fewer than three others is chosen |
| Reengagement.HighlightRows | supabase/functions/send-reengagement-email/index.ts:119-140 | the best moments if any, else the three newest entries; empty only for an empty history |
| Reengagement.MoodEmoji | supabase/functions/send-reengagement-email/index.ts:14-20 | an emoji exactly for moods 1..5 |
| Reengagement.Subject | supabase/functions/send-reengagement-email/index.ts:146 | the good-moments subject when there are entries, the miss-you subject otherwise |
| Reengagement.Compose | supabase/functions/send-reengagement-email/index.ts:93-146 | addressed to the profile, at most 50 entries counted, at most three highlights |
| Reengagement.ProfileOutcome | supabase/functions/send-reengagement-email/index.ts:64-360 | skipped exactly when the newest entry is recent; a mail is attempted only for an inactive profile whose history loaded |
| Reengagement.CountsBounded | supabase/functions/send-reengagement-email/index.ts:59-79 | sent + failed never exceeds the profiles checked |
| Reengagement.SendReengagementEmails | supabase/functions/send-reengagement-email/index.ts:37-375 | an error or no profiles end early with no mail; otherwise the counters and mails are those of the per-profile outcomes |
| Reengagement.MailsGoToInactive | supabase/functions/send-reengagement-email/index.ts:81-88 | every attempted mail goes to a profile whose newest entry is 30+ days old or missing |
| Timeline.MoodColor | src/pages/Timeline.tsx:66-73 | the muted colour exactly for an untracked mood; full primary for tracked moods outside 1..4 |
| Timeline.MoodColorsDistinct | src/pages/Timeline.tsx:66-73 | different moods 1..5 get different colours |
| Timeline.MoodEmoji | src/pages/Timeline.tsx:75-82 | empty exactly for an untracked mood; 😄 for tracked moods outside 1..4 |
| Timeline.MoodEmojisDistinct | src/pages/Timeline.tsx:75-82 | different moods 1..5 get different emoji |
| Timeline.GridDays | src/pages/Timeline.tsx:84-89 | consecutive days from the Sunday on or before the 1st to the Saturday on or after the last day |
| Timeline.GridIsWholeWeeks | src/pages/Timeline.tsx:84-89 | the grid has 28 to 42 days, a whole number of weeks, and covers the month |
| Timeline.Cells | src/pages/Timeline.tsx:125-128 | one cell per grid day, carrying the first entry on that day |
| Timeline.CellBadge | src/pages/Timeline.tsx:147-151 | no badge exactly on cells without an entry; a tracked mood shows its emoji |
| Timeline.ClickableIffEntry | src/pages/Timeline.tsx:133-134 | a cell is clickable exactly when some entry lies on its day |
| Timeline.MonthEntries | src/pages/Timeline.tsx:183-187 | the list view holds exactly the entries in the viewed month |
| Timeline.MonthEntriesKeepOrder | src/pages/Timeline.tsx:183-187 | the list view keeps newest-first order |
| Timeline.NextEnabledInCurrentMonth | src/pages/Timeline.tsx:109 | viewing the current month at midnight while now is later that day, the next button is enabled and leads to a month that starts in the future |
| Timeline.CorrectedStaysInPast | src/pages/Timeline.tsx:109 | corrected guard: whenever next is enabled, the next month is no later than the current one |
| Memories.TruncDiv | src/components/MemoryResurfacing.tsx:52 | division truncating toward zero, as differenceInDays does |
| Memories.NearWindow | src/components/MemoryResurfacing.tsx:50-53 | within k days of a reference instant means the day lies in a window around the reference day |
| Memories.OlderThan60InDays | src/components/MemoryResurfacing.tsx:87-91 | more than 60 whole days before now means a day before today-60 |
| Memories.FirstNear | src/components/MemoryResurfacing.tsx:50-53 | none exactly when no entry is near; otherwise an entry of the list |
| Memories.FirstNearIsFirst | src/components/MemoryResurfacing.tsx:50-53 | the entry found is near and no entry before it is |
| Memories.Unchosen | src/components/MemoryResurfacing.tsx:76 | the candidates whose id is not chosen yet |
| Memories.Brightest | src/components/MemoryResurfacing.tsx:75 | exactly the entries with mood 5 |
| Memories.Older | src/components/MemoryResurfacing.tsx:87-91 | exactly the entries older than 60 days |
| Memories.Pick | src/components/MemoryResurfacing.tsx:77 | a random pick: none only from no candidates, else one of them |
| Memories.PushSlot | src/components/MemoryResurfacing.tsx:47-100 | adding a slot's memory keeps slot order and distinct ids and fills only that slot |
| Memories.DatedSlots | src/components/MemoryResurfacing.tsx:49-71 | at most two memories: the first entry within 3 days of subYears(today, 1), then the first entry within 2 days of 30 days ago unless it is the same entry |
| Memories.FillDated | src/components/MemoryResurfacing.tsx:54-71 | the year entry fills the first slot if found; the month entry follows if found and not the same entry; nothing else is added |
| Memories.DrawSlot | src/components/MemoryResurfacing.tsx:73-100 | draws one unchosen candidate for the slot if any exists, else adds nothing |
| Memories.DrawnSlots | src/components/MemoryResurfacing.tsx:73-100 | the brightest-moment draw, then the surprise draw, each on the list left by the one before |
| Memories.LoadMemories | src/components/MemoryResurfacing.tsx:32-108 | no memories on a query error; otherwise at most four, in slot order, with distinct ids, each slot filled by the rule for that slot (the year slot near subYears(today, 1)) |
| Memories.Next | src/components/MemoryResurfacing.tsx:141 | the next index stays in range |
| Memories.Prev | src/components/MemoryResurfacing.tsx:130 | the previous index stays in range |
| Memories.PrevUndoesNext | src/components/MemoryResurfacing.tsx:130-141 | previous undoes next, and next undoes previous |
| Memories.NextTimesWraps | src/components/MemoryResurfacing.tsx:141 | k presses of next move to (i + k) mod n |
| Memories.Shown | src/components/MemoryResurfacing.tsx:110-114 | a memory shows exactly when loading is done, there are memories and the index is within them (the next and previous buttons keep it so), and it is the memory at that index |
| Reflection.ValidateInput | supabase/functions/generate-reflection/index.ts:15-50 | accepts an object body with non-blank text of at most 500 UTF-16 units and a missing/null or integer 1..5 mood; returns the trimmed text |
| Reflection.FiveHundredPasses | supabase/functions/generate-reflection/index.ts:29 | exactly 500 characters is accepted despite the message "less than 500" |
| Reflection.MarkerAt | supabase/functions/generate-reflection/index.ts:136 | a match of MOOD:, optional whitespace and one digit, yielding 0..9 |
| Reflection.FirstMarkerSpec | supabase/functions/generate-reflection/index.ts:136 | the first marker found is the leftmost match |
| Reflection.StripTrailingMarker | supabase/functions/generate-reflection/index.ts:139 | removing a trailing marker leaves a prefix |
| Reflection.ReadMood | supabase/functions/generate-reflection/index.ts:132-141 | no mood exactly when there is no marker, and then the reply is unchanged; otherwise the digit and the reply with a trailing marker removed and trimmed |
| Reflection.ReadsFormattedReply | supabase/functions/generate-reflection/index.ts:132-141 | a reply "x\nMOOD: d" yields the trimmed x and mood d |
| Reflection.MidTextMarkerIsKept | supabase/functions/generate-reflection/index.ts:136-139 | a marker not at the end sets the mood but stays in the text |
| Reflection.OutOfRangeMood | supabase/functions/generate-reflection/index.ts:136-138 | the parser accepts a mood of 9 |
| Reflection.GenerateReflection | supabase/functions/generate-reflection/index.ts:52-156 | 400 on invalid input; the AI is called exactly for valid input with a key; gateway failures 429/402/500; a given mood is kept, a missing one is read from the reply |
| Quote.ValidateInput | supabase/functions/generate-shareable-quote/index.ts:14-34 | accepts exactly an object body with a non-empty, non-blank text of at most 500 UTF-16 units, returning it trimmed; one error message per failure |
| Quote.AcceptedTextIsTrimmed | supabase/functions/generate-shareable-quote/index.ts:33 | the accepted text has no surrounding whitespace |
| Quote.AstralCountsTwice | supabase/functions/generate-shareable-quote/index.ts:29 | the length limit counts each astral character twice |
| Quote.GenerateQuote | supabase/functions/generate-shareable-quote/index.ts:36-176 | 401 for a missing header or user; 400 on invalid input; 500 without an API key; gateway failures 429/402/503; a blank quote gives 500; success is the trimmed quote |
| JournalPrompt.GuardTrims | src/components/JournalPrompt.tsx:33-41 | blank text is refused first, then text over 240 UTF-16 units; anything else passes |
| JournalPrompt.StoredMood | src/components/JournalPrompt.tsx:61 | the reflection's mood wins when truthy, else the picked mood |
| JournalPrompt.PickedMoodIsStored | src/components/JournalPrompt.tsx:47-61 | with a picked mood 1..5, the stored mood is the picked one |
| JournalPrompt.NewRow | src/components/JournalPrompt.tsx:55-63 | the inserted row holds the entry text, the reflection, the stored mood and today's UTC date |
| JournalPrompt.FailureMessage | src/components/JournalPrompt.tsx:74 | the error's message, or the default when it is empty |
| JournalPrompt.View | src/components/JournalPrompt.tsx:80-128 | the completion card exactly when there is an entry today; submit is enabled exactly when not submitting and the text is not blank |
| JournalPrompt.JournalPrompt.constructor | src/components/JournalPrompt.tsx:18-20 | an empty form, no mood, not submitting |
| JournalPrompt.JournalPrompt.SetEntry | src/components/JournalPrompt.tsx:115 | replaces the text and nothing else |
| JournalPrompt.JournalPrompt.SetMood | src/components/JournalPrompt.tsx:108 | replaces the mood and nothing else |
| JournalPrompt.JournalPrompt.HandleSubmit | src/components/JournalPrompt.tsx:32-78 | a guarded text only shows its toast; otherwise one request, the row inserted on success, the form reset on success only, never left submitting |
| JournalPrompt.JournalPrompt.Submit | src/components/JournalPrompt.tsx:43-77 | one reflection request; an insert only when it succeeded; reset and success toast only when both succeeded |
| TagSelector.Without | src/components/TagSelector.tsx:31 | exactly the tags other than the one removed |
| TagSelector.WithoutCounts | src/components/TagSelector.tsx:31 | removes every copy of that tag and keeps the count of every other |
| TagSelector.Toggle | src/components/TagSelector.tsx:29-35 | a selected tag is removed, an unselected one appended; membership flips |
| TagSelector.ToggleTwice | src/components/TagSelector.tsx:29-35 | toggling an unselected tag twice restores the selection |
| TagSelector.ToggleNoDuplicates | src/components/TagSelector.tsx:29-35 | toggling keeps a selection free of duplicates |
| TagSelector.AddCustom | src/components/TagSelector.tsx:37-44 | a custom tag is added, trimmed, exactly when it is not blank and not yet selected |
| TagSelector.AddCustomNoDuplicates | src/components/TagSelector.tsx:37-44 | adding a custom tag keeps the selection free of duplicates |
| TagSelector.TagSelector.constructor | src/components/TagSelector.tsx:26-27 | an empty custom tag and the panel closed |
| TagSelector.TagSelector.TogglePanel | src/components/TagSelector.tsx:56 | the panel flips between open and closed, and the typed tag is kept |
| TagSelector.TagSelector.SetCustomTag | src/components/TagSelector.tsx:68 | the typed tag is the input's text, and the panel stays as it was |
| TagSelector.TagSelector.AddCustomTag | src/components/TagSelector.tsx:37-44 | reports AddCustom's result; on success clears the input and closes the panel, else changes nothing |
| PhoneLogin.Digits | src/components/PhoneLogin.tsx:19 | keeps the digits only; text of digits is unchanged |
| PhoneLogin.FormatPhone | src/components/PhoneLogin.tsx:17-26 | "+1" before digits that do not start with 1, "+" before the rest |
| PhoneLogin.FormatIdempotent | src/components/PhoneLogin.tsx:17-26 | formatting a formatted number changes nothing |
| PhoneLogin.AcceptedNumbers | src/components/PhoneLogin.tsx:28-39 | the formatted number passes exactly when the digits are 1 plus ten digits, or ten digits not starting with 1 |
| PhoneLogin.NoDigitsRefused | src/components/PhoneLogin.tsx:17-39 | input without digits formats to "+" and is refused |
| PhoneLogin.PhoneLogin.constructor | src/components/PhoneLogin.tsx:12-15 | phone step, empty fields, not loading |
| PhoneLogin.PhoneLogin.SetPhone | src/components/PhoneLogin.tsx:179 | the number field holds the typed text, and nothing else changes |
| PhoneLogin.PhoneLogin.SetOtp | src/components/PhoneLogin.tsx:126 | the code field holds the typed text, and nothing else changes |
| PhoneLogin.PhoneLogin.SendOtp | src/components/PhoneLogin.tsx:34-58 | an invalid number only shows an error; a valid one is sent formatted, and on success it is stored and the OTP step shown |
| PhoneLogin.PhoneLogin.VerifyOtp | src/components/PhoneLogin.tsx:61-97 | a code not six long only shows an error; otherwise it is verified, and on success with a user the profile is updated |
| PhoneLogin.PhoneLogin.Back | src/components/PhoneLogin.tsx:99-102 | back to the phone step with the code cleared |
| PhoneLogin.PhoneLogin.TryAgain | src/components/PhoneLogin.tsx:160 | back to the phone step, keeping the code |
| Milestones.ReachedMembers | src/components/MilestoneBadge.tsx:18 | exactly the milestones whose day count the streak reaches |
| Milestones.AchievedIsPrefix | src/components/MilestoneBadge.tsx:10-18 | the achieved milestones are a prefix of the table |
| Milestones.AchievedBounds | src/components/MilestoneBadge.tsx:18-20 | none below 3 days; all four from 30 days |
| Milestones.AchievedMonotone | src/components/MilestoneBadge.tsx:18 | a longer streak never loses a milestone |
| Milestones.Max | src/components/MilestoneBadge.tsx:26 | the largest value, taken from the list |
| Milestones.LatestIsLast | src/components/MilestoneBadge.tsx:26-35 | the latest badge, the one that animates, is exactly the last achieved |
| Settings.Escape | src/pages/Settings.tsx:106 | doubles quotes; text without quotes is unchanged |
| Settings.UnescapeEscape | src/pages/Settings.tsx:106 | undoing the quote doubling gives the text back |
| Settings.FieldRoundTrip | src/pages/Settings.tsx:106 | the quoted field's inner text unescapes to the original |
| Settings.ReflectionText | src/pages/Settings.tsx:106 | the AI reflection, or empty when there is none |
| Settings.Csv | src/pages/Settings.tsx:103-108 | the export starts with the header line |
| Settings.CsvSnoc | src/pages/Settings.tsx:103-108 | each row adds a newline and its record |
| Settings.RecordRoundTrip | src/pages/Settings.tsx:106 | an RFC 4180 reader gets date, entry and reflection back from a record |
| Settings.ExportName | src/pages/Settings.tsx:114 | "gratitude-journal-", today's UTC date, ".csv" |
| Settings.Export | src/pages/Settings.tsx:93-123 | a download exactly when the query succeeded, named ExportName and holding the CSV; otherwise the error message |
| Settings.OrString | src/pages/Settings.tsx:56-57 | the value when present and non-empty, else the fallback |
| Settings.LoadedHour | src/pages/Settings.tsx:58 | the stored hour unless missing or 0, else 20 |
| Settings.LoadedFlag | src/pages/Settings.tsx:59-60 | false only when stored as false |
| Settings.DeletionCalls | src/pages/Settings.tsx:125-151 | entries deleted first, the profile only after that succeeds, sign-out only after both |
| Settings.Settings.constructor | src/pages/Settings.tsx:28-35 | the page's initial state: loading, UTC, hour 20, both switches on |
| Settings.Settings.LoadProfile | src/pages/Settings.tsx:45-67 | a loaded profile sets each field with its default; otherwise only loading ends |
| Settings.Settings.SetTimezone | src/pages/Settings.tsx:181 | the time zone is the chosen one, and nothing else changes |
| Settings.Settings.SetReminderHour | src/pages/Settings.tsx:200-204 | the reminder hour is the chosen option, and nothing else changes |
| Settings.Settings.SetReminderEnabled | src/pages/Settings.tsx:223 | the reminder switch takes the new value, and nothing else changes |
| Settings.Settings.SetAiEnabled | src/pages/Settings.tsx:233 | the AI-reflection switch takes the new value, and nothing else changes |
| Settings.Settings.HandleSave | src/pages/Settings.tsx:69-91 | sends the current settings once and toasts the outcome, changing no setting |
| Settings.Settings.HandleDeleteAccount | src/pages/Settings.tsx:125-151 | performs DeletionCalls; leaves for the sign-in page only after both deletions succeed; toasts the outcome |

## Left out

- Network, database and mail calls (Supabase, the AI gateway, Resend) are not modelled. Their results are parameters. CORS pre-flight replies and logging are left out too.
- The HTML and plain-text bodies of the e-mails and the AI prompts are not modelled. Only the fields that vary by rule are: recipient, subject, streak, journey day, quoted text, emoji and highlight rows.
- Time zones and daylight saving are not modelled. An instant is day × 86400000 + ms. "Today" is one day number; the source uses the UTC day in some places and the local day in others.
- The date parsing at src/pages/Index.tsx:35-36 (`new Date("yyyy-mm-dd")` is UTC midnight, compared with local midnights) is modelled as exact day arithmetic.
- Floating-point rounding (`toFixed(1)`, `Number(...)`) is not modelled. Averages are exact reals.
- Randomness is not modelled. `Math.random()` in the reminder question, the brightest memory and the surprise memory is an index parameter. The shuffle by `sort(() => Math.random() - 0.5)` is modelled as picking any candidate.
- JavaScript object key order is modelled as first-insertion order. Tags that look like array indices, which JavaScript lists first, are not treated specially.
- DailyReminders.Quote: `substring(0, 60)` is cut at 60 code points rather than 60 UTF-16 units, so it can keep a few more units than the source when the text has astral characters.
- Insights.HappiestDay: when any weekday group is empty its average is NaN, and the model reports that as unordered rather than predicting the order the browser's sort would produce.
- The Timeline emoji are modelled as the emoji they were evidently meant to be; the source file holds them in a mis-decoded form.
- The streak a milestone badge receives comes from its caller, which is not part of this model. Page layout, toast styling, confetti and animations are not modelled.
- Settings.LoadProfile: the email field falls back to the signed-in user's address, modelled as a parameter.
- The OTP step's "Try again" and back buttons are disabled while loading. The model does not forbid calling them then.
- Account deletion's sign-out and redirect are recorded as calls. What signing out does is not modelled.
- The order of a user's rows in the reminder job is what the database query promises (`order("entry_date", { ascending: false })`). `DailyReminders.UsersValid` states it as a precondition of the job instead of modelling the query.

## Findings

| source | as written | input that shows it | evidently intended | confidence | as-written member | corrected member |
|---|---|---|---|---|---|---|
| src/pages/Stats.tsx:72-82 | the current-streak loop stops at two entries on the same day | entries on today-2, today-1, today-1 and today give a current streak of 2 | three consecutive calendar days count 3; the streak depends only on which days have entries | not executed | Stats.DuplicateDayBreaksStreak | Stats.CorrectedStreakIgnoresDuplicates |
| supabase/functions/generate-monthly-reflection/index.ts:196 | `h.replace(/^-\s*/, '')` runs on the untrimmed line, after the filter tested the trimmed one | the highlight line "  - walk" becomes "- walk" | the dash is removed from indented lines too, giving "walk" | not executed | MonthlyReflection.IndentedLineKeepsDash | MonthlyReflection.CorrectedIndentedLine |
| supabase/functions/send-reengagement-email/index.ts:108-110 | the average divides by the number of tracked moods, which may be 0 | a history with one entry and no mood gives `Math.round(0 / 0)`, NaN | fall back to 3 when no mood is tracked, as for an empty history | not executed | Reengagement.UntrackedHistoryIsNaN | Reengagement.CorrectedAvgOnScale |
| src/pages/Timeline.tsx:109 | the next-month button compares the viewed instant with the current instant | viewing the current month at an instant earlier than now enables the button, and the next month lies in the future | disable next once the viewed month is the current month | not executed | Timeline.NextEnabledInCurrentMonth | Timeline.CorrectedStaysInPast |
