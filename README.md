# Game event and gacha-pool card scrapers: decision logic in Dafny

Two Selenium scrapers read cards from a Blue Archive wiki and write JSON snapshots:

- `activity.py` reads the event page. Each event card gets category tags from its
  title (`get_activity_types`). It is sorted into ongoing, upcoming or ended by its
  status text. It is kept if it is ongoing or upcoming, or if it is among the first
  five ended cards. Its progress text is turned into a start/end window on a UTC+8
  timeline (`parse_time_range`). That text is either a relative "还剩下N天M小时" or
  an absolute "YYYY/MM/DD[ HH:MM]-YYYY/MM/DD[ HH:MM]".
- `scraper.py` reads the gacha-pool page. It sorts cards with a different set of
  status words. It groups ended cards by their exact progress text and keeps only
  the first group. It then turns "N天" / "M小时" into a signed hour offset
  (`parse_time_delta`). In the main loop it writes that offset into each kept
  pool's `start_time` or `end_time`.

This project models that logic. Browser driving, DOM lookups, logging and JSON output
are not modelled.

Modules:

- `Text`: substring containment, `split`, `strip`, `replace`, ASCII digit runs and
  `int`/`str` on them.
- `Seqs`: subsequences and distinctness.
- `Wrappers`: `Option`.
- `Calendar`: proleptic Gregorian dates and integer minutes on the UTC+8 clock.
  Minute 0 is 0001-01-01 00:00, and day numbers follow Python's `date.toordinal`.
  "Zero minutes" is `TruncHour`.
- `Lifecycles`: `Upcoming | Ongoing | Ended`.
- `Classifier`: `get_activity_types`. It is modelled as the method `GetActivityTypes`,
  which makes the same ten appends. That method is proved equal to a rule-table
  specification, `ActivityTypes`.
- `ActivityTime`: `parse_time_range`. The regular expression `还剩下(\d+)天(\d+)小时` is a
  leftmost search. The `strptime` formats `%Y-%m-%d` and `%Y-%m-%d %H:%M` are parsers
  whose success condition is a well-formed, valid calendar date and time. The lemmas
  are round-trips from calendar values to the text the site shows, and the failure
  cases.
- `ActivityCards`: the event card loop, the `[:5]` retention and the per-card
  processing in the main block. The loop is a method that appends to three lists,
  proved against order-preserving filters. The result is stated for any crawl
  instant, which is a parameter.
- `PoolTime`: `parse_time_delta` and the per-pool time decision.
- `PoolCards`: the pool card loop. The `ended_groups` dictionary is a `map` plus the
  sequence of its keys in insertion order, so Python's dict order is explicit.
  The selection of the first group is proved against `ProgressKeys`/`WithProgress`
  and a multiset partition. The main loop is a method that rewrites an
  `array<PoolCard>` in place.

Integers are unbounded. Timestamps are `int` minutes. Seconds and microseconds are
not represented: every offset is whole hours and every output is hour-truncated, so
they never change a result.

Points where the code's behaviour is easy to misread:

- A window with both ends set may end before it starts: no `start <= end` check
  exists (`ActivityTime.ReversedRangeKept`).
- The relative grammar in `activity.py` always sets only the end, whatever the
  status. Only `scraper.py` makes the side and sign depend on the status.
- The "upcoming" word differs per file. `activity.py` uses "未开始". `scraper.py`
  uses "将开始" and ranks it above "进行中". "未开启" is recognised by neither.
- `scraper.py` does not truncate the crawl instant. It truncates crawl + offset,
  which is the same because offsets are whole hours (`Calendar.TruncHourShift`).
- A zero offset leaves both pool times unset, because `if delta:` is false for
  `timedelta(0)` (`PoolTime.ZeroOffsetNoTimes`). It does not set a time equal to
  the crawl.
- Cards with an empty title or status are not rejected. Only a card whose DOM
  lookup raises is skipped.

## Model

| member | source | states |
|---|---|---|
| Classifier.ApplyRule | activity.py:28-47 | one `if <keyword> in title: types.append(tag)` test, applied to the tags of the rules before it, yields the tags of the rules up to and including it |
| Classifier.GetActivityTypes | activity.py:23-53 | the ten independent tests followed by the fallback produce exactly the rule-table specification: every firing rule's tag in table order, or `["其他"]` when none fires |
| Classifier.TableTagsDistinct | activity.py:28-51 | no two rules share a tag, and the fallback "其他" is not a rule's tag |
| Classifier.FiredTagsMembership | activity.py:28-47 | a tag is among the fired tags iff some rule with that tag fires (no short-circuit) |
| Classifier.FiredTagsInOrder | activity.py:28-47 | the fired tags are a subsequence of the rule table, so they keep table order |
| Classifier.OtherNeverFired | activity.py:28-47 | no firing rule contributes "其他" |
| Classifier.FiredTagsShape | activity.py:28-47 | the fired tags are distinct and in table order |
| Classifier.TagMembership | activity.py:25-53 | the result is never empty; a tag is in it iff a rule with that tag fires, or it is "其他" and no rule fires |
| Classifier.TagsShape | activity.py:28-53 | "其他" is present iff it is alone; the result is `["其他"]` iff no rule fires; the tags are distinct and, when rules fire, in table order |
| Classifier.EventAndTotalWarRules | activity.py:34-37 | on "[活动]总力战" exactly the "[活动]" and "总力战" rules fire |
| Classifier.EventAndTotalWar | activity.py:23-53 | "[活动]总力战" is tagged `["活动", "总力战"]` |
| ActivityTime.SearchFindsMarker | activity.py:63-67 | a match of `还剩下(\d+)天(\d+)小时` implies the text contains "还剩下", so the relative branch is entered whenever the regex matches |
| ActivityTime.RelativeEnd | activity.py:63-77 | when the regex matches N and M, the window has no start and ends at the hour-truncated crawl + (24N + M) hours, never before the truncated crawl |
| ActivityTime.MatchDaysHours | activity.py:66-69 | "还剩下" + digits + "天" + digits + "小时" matches at the start with both digit runs read as decimal |
| ActivityTime.RemainingRoundTrip | activity.py:66-69 | "还剩下{N}天{M}小时…" written with `str` is read back as N days and M hours, whatever follows |
| ActivityTime.ThreeDaysFiveHoursLeft | activity.py:63-77 | "还剩下3天5小时" ends 77 hours after the crawl's hour |
| ActivityTime.MayFirstToFourth | activity.py:72-76 | on the calendar, 2024-05-01 10:00 plus 3 days 5 hours is 2024-05-04 15:00 |
| ActivityTime.ParseField | activity.py:97-102 | a parsed `%m`/`%d`/`%H`/`%M` field lies in its range |
| ActivityTime.ParseDate | activity.py:101-102 | a successful `%Y-%m-%d` parse is a valid calendar date at 00:00 |
| ActivityTime.ParseDateTime | activity.py:97-98 | a successful `%Y-%m-%d %H:%M` parse is a valid date and time |
| ActivityTime.ParseSide | activity.py:95-102 | a side parsed in either format is a valid date and time |
| ActivityTime.FirstSpace | activity.py:97-98 | the date part of a date-and-time ends at the first whitespace character |
| ActivityTime.ParseDashDate | activity.py:101-102 | a valid date shown as YYYY-MM-DD parses back to itself at 00:00 |
| ActivityTime.ParseDashDateTime | activity.py:97-98 | a valid date and time shown as YYYY-MM-DD HH:MM parses back to itself |
| ActivityTime.NormalizeShowDate | activity.py:91-92 | stripping and replacing '/' by '-' turns the site's YYYY/MM/DD into YYYY-MM-DD |
| ActivityTime.NormalizeShowDateTime | activity.py:91-92 | the same for YYYY/MM/DD HH:MM |
| ActivityTime.SplitRange | activity.py:83-88 | two sides without '-' joined by '-' split back into exactly those two parts, and the text contains "-" |
| ActivityTime.AbsoluteBranch | activity.py:63-87 | a text without '还' and with '-' is resolved by the absolute grammar alone |
| ActivityTime.SidesOfRange | activity.py:83-92 | a range of two such sides is resolved from those two sides |
| ActivityTime.DateRangeRoundTrip | activity.py:83-113 | "A-B" for two valid dates at midnight yields exactly start A and end B |
| ActivityTime.DateTimeSides | activity.py:95-111 | two date-and-time sides give their instants truncated to the hour |
| ActivityTime.DateTimeRangeRoundTrip | activity.py:83-113 | "A-B" for two valid dates and times yields A and B with minutes zeroed |
| ActivityTime.MayDates | activity.py:83-113 | 2024-05-01 and 2024-05-10 are valid and shown as "2024/05/01" and "2024/05/10" |
| ActivityTime.FirstToTenthOfMay | activity.py:83-113 | "2024/05/01-2024/05/10" yields start 2024-05-01 00:00 and end 2024-05-10 00:00 |
| ActivityTime.ReversedRangeKept | activity.py:104-113 | a range whose end date is before its start date is returned as is, with end < start |
| ActivityTime.DateChars | activity.py:101-102 | a text that parses as a date holds only digits and '-' |
| ActivityTime.DateTimeChars | activity.py:97-98 | a text that parses as a date and time holds only digits, '-', ':' and whitespace |
| ActivityTime.SideChars | activity.py:95-102 | a parsed side in either format holds only those characters |
| ActivityTime.MarkedSideFails | activity.py:91-102 | a side containing '还' never parses |
| ActivityTime.MalformedRelative | activity.py:63-120 | text containing "还剩下" that the regex rejects falls through and always yields no times |
| ActivityTime.TimedStartBareEnd | activity.py:95-102 | a date-and-time start with a bare-date end fails: the start alone picks the format |
| ActivityTime.BareStartTimedEnd | activity.py:95-102 | a bare-date start with a date-and-time end fails |
| ActivityTime.TimedIsNoBareDate | activity.py:95-102 | a normalised date-and-time contains ':' and does not parse as a bare date |
| ActivityTime.BareDateIsNotTimed | activity.py:95-98 | a normalised bare date does not parse as a date and time |
| ActivityTime.WindowShape | activity.py:55-120 | every result is empty, end-only (relative grammar matched), or start-and-end (exactly two '-' parts, no relative match); every instant is on the hour |
| Calendar.DaysInMonth | activity.py:97-102 | every month has 28 to 31 days |
| Calendar.TruncHour | activity.py:76 | zeroing the minutes gives the unique hour start at or before the instant |
| Calendar.TruncHourShift | activity.py:72-76 | adding whole hours commutes with truncation to the hour |
| Calendar.TruncHourOf | activity.py:110-111 | truncating a date and time's instant equals the instant with minute 0 |
| Calendar.HourStartUnique | activity.py:76 | an instant has only one hour start |
| Calendar.YearStep | activity.py:101-102 | day numbers advance by the year's length from one year to the next |
| Calendar.YearsOrdered | activity.py:101-102 | every day of an earlier year precedes every day of a later one |
| Calendar.MonthsOrdered | activity.py:101-102 | months occupy consecutive, ordered day ranges within the year |
| Calendar.OrdinalInYear | activity.py:101-102 | a date's day number lies within its year |
| Calendar.ToMinutesOrder | activity.py:104-113 | the minute count orders dates and times as the calendar does, and is one-to-one |
| Calendar.BeforeEarlier | activity.py:104-113 | an earlier date and time has a smaller minute count |
| ActivityCards.ActivityLifecycle | activity.py:219-224 | "进行中" wins over "未开始", which wins over "已结束"; a status holding none is dropped |
| ActivityCards.CollectActivityCards | activity.py:154-231 | the scan loop appending to three lists, followed by the retention, yields the specification `SelectActivities` of the scanned cards |
| ActivityCards.BucketStep | activity.py:219-224 | one more scanned card extends exactly the list its status selects |
| ActivityCards.BucketMembership | activity.py:219-224 | a card is in a list iff it was scanned and its status selects that list |
| ActivityCards.BucketSubsequence | activity.py:219-224 | each list keeps scan order |
| ActivityCards.BucketPartition | activity.py:219-224 | the three lists and the dropped cards together account for every scanned card exactly once |
| ActivityCards.Take | activity.py:231 | `s[:n]` has length min(n, len(s)) and is a prefix of `s` |
| ActivityCards.Selection | activity.py:231 | the result is ongoing, then upcoming, then the first min(5, ended) ended cards; no ongoing or upcoming card is dropped; every kept card was scanned and has a status |
| ActivityCards.SelectionKeeps | activity.py:231 | an ongoing or upcoming card is always kept |
| ActivityCards.SelectionFrom | activity.py:231 | a kept card was scanned and has a status |
| ActivityCards.ProcessActivities | activity.py:256-271 | one output per kept card, in order, copying its fields and adding the window `parse_time_range` gives for its progress |
| ActivityCards.ActivityRun | activity.py:247-271 | the crawl instant is truncated to the hour, and the outputs are the kept cards processed against it |
| ActivityCards.ProcessOnTheHour | activity.py:55-120 | a processed card's times are on the hour, and a start never comes without an end |
| ActivityCards.ScenarioStatus | activity.py:219-220 | "进行中" is ongoing |
| ActivityCards.OneDayLeft | activity.py:63-77 | "还剩下1天0小时" ends one day after the crawl's hour |
| ActivityCards.SingleOngoingKept | activity.py:219-231 | a single ongoing card is kept alone |
| ActivityCards.NewYearsDay | activity.py:250-252 | 2024-01-01 00:00 is on the hour and 2024-01-02 00:00 is one day later |
| ActivityCards.ScenarioKept | activity.py:207-231 | an ongoing "[活动]总力战" card scanned alone is kept alone, tagged "活动" and "总力战" |
| ActivityCards.OngoingEventScenario | activity.py:207-271 | with one day left, crawled on the hour, that card is output with no start and an end one day after the crawl |
| PoolTime.TotalHours | scraper.py:18-24 | a missing "天" or "小时" number counts as 0, and with neither the total is 0 |
| PoolTime.ParseTimeDelta | scraper.py:15-30 | an offset exists iff the status holds "将开始", "进行中" or "已结束"; it is +total hours for the first two and −total hours otherwise |
| PoolTime.NumberBeforeHere | scraper.py:18-19 | a digit run directly followed by the unit is read as that number |
| PoolTime.NumberBeforeSkip | scraper.py:18-19 | a digit run not followed by the unit is passed over, as the regex search does |
| PoolTime.NumberBeforeAbsent | scraper.py:18-22 | a text without the unit has no such number |
| PoolTime.DaysOf | scraper.py:18-21 | "N天M小时" has N days |
| PoolTime.HoursOf | scraper.py:19-22 | "N天M小时" has M hours |
| PoolTime.DaysHoursRoundTrip | scraper.py:18-24 | "N天M小时" is 24N + M hours |
| PoolTime.HoursOnly | scraper.py:18-24 | "M小时" alone is M hours |
| PoolTime.DaysOnly | scraper.py:18-24 | "N天" alone is 24N hours |
| PoolTime.PoolWindowCases | scraper.py:172-187 | at most one time is set; one is set iff the offset exists and is non-zero; it is the start iff the status holds "将开始"; the value is the crawl plus the offset, truncated to the hour |
| PoolTime.PoolWindowAroundCrawl | scraper.py:26-29 | upcoming and ongoing times lie after the crawl, ended times at least an hour before it, all on the hour |
| PoolTime.ZeroOffsetNoTimes | scraper.py:178 | a zero offset ("0天0小时") sets neither time |
| PoolCards.PoolLifecycle | scraper.py:116-121 | "将开始" wins over "进行中", which wins over "已结束"; a status holding none is dropped |
| PoolCards.CollectPools | scraper.py:75-142 | the scan loop, with its three lists and `ended_groups` dictionary, followed by the first-group selection, yields the specification `SelectPools` of the scanned pools |
| PoolCards.PoolBucketStep | scraper.py:116-121 | one more scanned pool extends exactly the list its status selects |
| PoolCards.GroupsAppend | scraper.py:123-126 | appending an ended pool to its group, creating the group first if its progress is new, keeps the dictionary equal to the grouping of all ended pools so far, with keys in first-seen order |
| PoolCards.WithProgressStep | scraper.py:126 | a group grows by the new pool exactly when the pool's progress is its key |
| PoolCards.PoolBucketMembership | scraper.py:116-121 | a pool is in a list iff it was scanned and its status selects that list |
| PoolCards.PoolBucketSubsequence | scraper.py:116-121 | each list keeps scan order |
| PoolCards.PoolBucketPartition | scraper.py:116-121 | the three lists and the dropped pools together account for every scanned pool exactly once |
| PoolCards.ProgressKeysMembership | scraper.py:124-125 | a key exists iff some ended pool has that progress |
| PoolCards.ProgressKeysShape | scraper.py:124-125 | keys are distinct, absent iff there are no ended pools, and the first key is the first ended pool's progress |
| PoolCards.ProgressKeysFirstSeen | scraper.py:124-125 | keys are in first-seen order: an earlier key's first pool precedes any pool of a later key |
| PoolCards.WithProgressMembership | scraper.py:126 | a pool is in a group iff it is ended and has the group's progress |
| PoolCards.WithProgressSubsequence | scraper.py:126 | each group keeps scan order |
| PoolCards.GroupsPartition | scraper.py:123-126 | the groups, concatenated in key order, are a permutation of the ended pools |
| PoolCards.RecentEndedShape | scraper.py:133-139 | the kept group is empty iff no pool ended; otherwise it is exactly the ended pools sharing the first ended pool's progress, in scan order |
| PoolCards.OneBatchKeptWhole | scraper.py:133-139 | when all ended pools share one progress text, all are kept |
| PoolCards.PoolSelection | scraper.py:142 | the result is upcoming, then ongoing, then the kept group; no upcoming or ongoing pool is dropped; every kept pool was scanned and has a status |
| PoolCards.PoolSelectionKeeps | scraper.py:142 | an upcoming or ongoing pool is always kept |
| PoolCards.PoolSelectionFrom | scraper.py:142 | a kept pool was scanned and has a status |
| PoolCards.Assigned | scraper.py:172-187 | assigning times changes only `start_time` and `end_time` |
| PoolCards.AssignCard | scraper.py:173-187 | the loop body for one pool yields its assigned times |
| PoolCards.AssignTimes | scraper.py:172-187 | the loop rewrites every pool in the array in place with its assigned times, and changes nothing else |
| PoolCards.PoolRun | scraper.py:163-187 | the kept pools, in order, in a new array, each with its assigned times |
| PoolCards.AssignedTimes | scraper.py:178-187 | an upcoming pool gets only a start, after the crawl; an ongoing pool only an end, after the crawl; an ended pool only an end, before the crawl; all on the hour |
| Text.ContainsChar | activity.py:95 | `ch in s` as a one-character substring agrees with sequence membership |
| Text.Split | activity.py:86 | `str.split` yields at least one part, and no part holds the separator |
| Text.SplitCount | activity.py:86-87 | there is one more part than there are separators in the text |
| Text.SplitWithout | activity.py:86-87 | a text without the separator splits into itself alone |
| Text.JoinSplit | activity.py:86 | joining the parts of a split with the separator gives back the text |
| Text.SplitConcat | activity.py:86-87 | splitting `a + sep + b` gives the parts of `a` followed by the parts of `b` |
| Text.TrimStart | activity.py:91-92 | removes leading whitespace only: the rest is a suffix that starts with no whitespace |
| Text.TrimEnd | activity.py:91-92 | removes trailing whitespace only: the rest is a prefix that ends with no whitespace |
| Text.StripKeeps | activity.py:91-92 | `strip` keeps every non-whitespace character |
| Text.StripWithoutSpace | activity.py:91-92 | `strip` leaves a text without whitespace unchanged |
| Text.ReplaceKeeps | activity.py:91-92 | `replace("/", "-")` keeps every character other than '/' |
| Text.ReplaceAbsent | activity.py:91-92 | `replace` leaves a text without the old character unchanged |
| Text.LeadingDigits | activity.py:66 | `\d+` takes the longest run of digits at the start |
| Text.ShowNat | activity.py:68-69 | produces the digit text of a number, non-empty and all digits; used to write the "还剩下N天M小时" texts of RemainingRoundTrip and DaysHoursRoundTrip |
| Text.ShowNatRoundTrip | activity.py:68-69 | `int(str(n)) == n` |
| Text.Pad2 | activity.py:97-102 | produces two digits showing a number below 100; used to write the dates and clocks that ParseDashDate and ParseDashDateTime read back |
| Text.Pad4 | activity.py:97-102 | produces four digits showing a year below 10000; used to write the years that ParseDashDate and ParseDashDateTime read back |

## Left out

- Browser setup, page loading, scrolling, sleeping and DOM lookups are not modelled.
  The scanned cards are a given sequence of records.
- A card whose DOM lookup raises, and is therefore skipped, is not modelled.
- The outer `except` that returns `[]` is not modelled.
- Logging, `print`, `traceback`, `os.makedirs` and JSON output are not modelled.
- Reading the clock (`datetime.now`, `utcnow`) is not modelled: the crawl instant is
  a parameter.
- ISO-8601 rendering of times (`isoformat`, the appended "+08:00") is not modelled.
  Times are minute counts on the UTC+8 clock. In `scraper.py` the crawl instant is
  parsed from a text ending in "+08:00" (scraper.py:168-169), so it carries that
  offset and `isoformat` already ends in "+08:00". The pool times written at
  scraper.py:181, 184 and 187 then end in "+08:00+08:00". The model does not
  capture that text.
- Seconds and microseconds are not modelled. Every offset is whole hours and every
  output is hour-truncated, so they never change a result.
- The exception handlers around the two grammars (activity.py:78-80 and 114-116) are
  modelled only for parse failures. Overflow of Python's `datetime` range is not
  modelled (years after 9999 or before 1, huge day counts), and neither is `int()`
  on very long digit runs.
- Unicode decimal digits are not modelled: `\d`, `int()` and `strptime` accept them,
  but the model only reads ASCII digits.
- `strptime`'s `%d`/`%m` fields written as a space and a digit (" 5") are not
  modelled.
- `game_card_crawler.py` is not part of this model. It only drives a browser and
  writes JSON.
- ActivityCards.BucketPartition: states the partition by lengths. Together with
  `BucketMembership` this gives "every card in exactly one list or dropped". The
  multiset equation is not stated.
- PoolCards.PoolBucketPartition: states the partition by lengths, with
  `PoolBucketMembership`, in the same way.
- ActivityTime.ThreeDaysFiveHoursLeft: takes the text as its parts ("还剩下", `str(3)`,
  "天", `str(5)`, "小时") rather than as one literal. The text is the same.
- ActivityCards.OneDayLeft: takes the text as its parts, in the same way.
- ActivityCards.OngoingEventScenario: takes the progress text as its parts. It is
  stated for any crawl on the hour rather than one date; `NewYearsDay` supplies
  2024-01-01.
