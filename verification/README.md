# afn-linkedin pipeline core in Dafny

A functional model of the scrape → summarise → deliver pipeline of
afn-linkedin. It collects Databricks blog posts, writes them to a CSV working
set, annotates each one once with a generated summary, and hands the
annotated posts to an n8n webhook on a cron schedule. Every browser,
network, file and database call is replaced by a value or an oracle passed
in as a parameter. What remains is the decision logic, written as pure
functions over immutable datatypes:

- `Utils` models `src/utils.py`: title cleaning, whitespace normalisation,
  URL normalisation, and the first-match pickers over a page.
- `Scraper` models `src/scraper.py`: the card walk, category resolution,
  cover-image priority, fill-only fallback to the post's own page,
  first-wins dedup, the type filter and `_remove_duplicates`.
- `CsvHandler` models `src/csv_handler.py`. A CSV file is a set of columns
  plus a sequence of rows (`map<string, string>`). It covers the
  annotation-preserving merge of `save_posts`, the keep-last dedup, the
  field-wise upsert of `update_posts`, and the queries and statistics.
- `Database` models `src/database.py`: the completion ledger as a sequence
  of distinct links, with insert-if-absent.
- `AiProcessor` models `src/ai_processor.py`: summary validation, summary
  storage, and `process_posts` as a fold of a per-post step over the
  ledger and the storage. The summary generator is the oracle
  `link -> Option<string>`.
- `Pipeline` models `src/main.py`: the three stages and their
  short-circuit sequencing, plus the exit code of `main`.
- `Scheduler` models `scheduler.py`: cron matching, the Portuguese
  description of the schedule, and the once-per-minute run loop as a state
  machine over `last_check_minute` and `last_execution`.
- `Config` models `src/config.py`: the target-type list, webhook
  selection, the load order of errors, the database path, and the
  initialise-once singleton.

Shared helpers live in `Basics` (`Option`, filters, subsequences, counting,
first/last-wins dedup) and `Text` (Python's `str.isspace`, `strip`,
`split()`, `split(c)`, `join`, `find` and `lower`). `Dom` is an abstract
BeautifulSoup tree; CSS selector matching is an oracle
`(selector, element) -> bool`.

## Model

| member | source | states |
|---|---|---|
| `Utils.TitleStartFrom` | src/utils.py:101-102 | the leftmost index from `i` where `[A-Z][a-z]` begins, or None exactly when no index qualifies |
| `Utils.LastSegment` | src/utils.py:97-98 | the searched segment never contains `/`; a title without `/` is searched as is |
| `Utils.TitleMatch` | src/utils.py:101-103 | None iff no capitalised word exists; otherwise the slice that starts at the leftmost match and ends at the end of its line |
| `Utils.LineFrom` | src/utils.py:101 | what `.*` matches from `i`: a slice of the text with no newline, ending at the text's end or just before a newline |
| `Utils.TitleMatchLine` | src/utils.py:101-103 | the regex match is exactly the line from the leftmost capitalised word |
| `Utils.CleanTitle` | src/utils.py:82-105 | the result has no `/`, is stripped, and either starts with a capitalised word on one line or has none; with no capitalised word it is the stripped segment |
| `Utils.CleanTitleHeadline` | src/utils.py:97-105 | when a capitalised word starts at `i` of the last segment, the title is that line from `i`, stripped |
| `Utils.CleanTitleOfMatch` | src/utils.py:101-105 | a regex match is returned stripped |
| `Utils.CleanTitleIdempotent` | src/utils.py:82-105 | cleaning a cleaned title changes nothing |
| `Utils.LastPieceAfterSlash` | src/utils.py:97-98 | only the text after the last `/` survives the split |
| `Utils.TitleMatchWhole` | src/utils.py:101-103 | a one-line segment that starts with a capitalised word is matched whole |
| `Utils.CleanTitleOfPath` | src/utils.py:85-105 | a path `prefix/Seg`, where `Seg` starts with a capitalised word and ends without space, cleans to `Seg` |
| `Utils.CleanTitlePathExample` | test_application.py:249-250 | "Product/2025/12/New Feature Release" cleans to "New Feature Release" |
| `Utils.NormalizeWhitespace` | src/utils.py:108-121 | the same words as the input, with no edge whitespace, and every inner whitespace is a single space between words |
| `Utils.NormalizeWhitespaceEmpty` | src/utils.py:118-121 | the result is empty iff the input has no words |
| `Utils.NormalizeWhitespaceIdempotent` | src/utils.py:118-121 | normalising twice is normalising once |
| `Utils.AuthorityEnd` | src/utils.py:195-197 | the end of the base URL's authority: the first `/`, `?` or `#` |
| `Utils.Origin` | src/utils.py:195-197 | the scheme and host of the base, a prefix of it that ends before a path, query or fragment |
| `Utils.NormalizeUrl` | src/utils.py:176-205 | the branches in source order: empty → empty, `//` → `https:` + url, `http` → unchanged, `/` → origin + url, otherwise the base's relative join |
| `Utils.NormalizeUrlAbsolute` | src/utils.py:187-201 | outside the relative branch, the result is empty, starts with `http`, or is root-relative on an origin-less base |
| `Utils.NormalizeUrlKeepsAbsolute` | src/utils.py:199-201 | any URL starting with `http` is a fixed point |
| `Utils.NormalizeUrlIdempotent` | src/utils.py:187-201 | normalising a normalised URL changes nothing when the relative join yields an absolute URL |
| `Utils.OriginOfHost` | src/utils.py:195-197 | the origin of `https://host` is itself |
| `Utils.NormalizeUrlRootedOnHost` | test_application.py:256-258 | `/blog/test-post` on `https://host` becomes `https://host/blog/test-post` |
| `Utils.ExtractPostType` | src/utils.py:153-169 | None iff no selector matches; otherwise the text of the first matching selector in list order |
| `Utils.ExtractMetaImage` | src/utils.py:128-150 | the first `og:image` meta's content when it is non-empty; otherwise the first `img`'s `src` when that is non-empty, and None when it is missing or empty; the result is never empty |
| `Scraper.FindCardWithin` | src/scraper.py:315-326 | the nearest card among the first `steps` ancestors, or None when none of them is a card |
| `Scraper.FindParentCard` | src/scraper.py:305-326 | at most four ancestors are examined, never the anchor itself; the nearest card wins |
| `Scraper.FirstKeyword` | src/scraper.py:336-341 | the first keyword in list order that is a whole token, or None iff none is |
| `Scraper.ExtractPostTypeFromCard` | src/scraper.py:328-342 | a matching selector wins even with empty text; otherwise the first whole-token keyword; otherwise "" |
| `Scraper.CardTypeFromFirstSelector` | src/scraper.py:331-334 | the first matching selector's text is the card's type |
| `Scraper.ExtractCoverImageFromCard` | src/scraper.py:344-357 | "" without an `img`; otherwise `src`, then `data-src`, then `data-main-image`, normalised |
| `Scraper.ExtractFromIndividualPage` | src/scraper.py:359-401 | None iff the page does not open; the type is the first selector's text or "", the cover is the meta image or "", the title is the first `h1`'s stripped text |
| `Scraper.WithFallback` | src/scraper.py:291-296 | only empty fields are filled from the page; a missing page changes nothing |
| `Scraper.ExtractPostData` | src/scraper.py:256-303 | None, with `seen` unchanged, for a missing href, a non-blog link or a seen link; otherwise the normalised link is added to `seen` and the type is non-empty |
| `Scraper.ExtractPostDataFields` | src/scraper.py:280-303 | card values are kept; the title is `clean_title` of the anchor text; when the page is not opened or does not open, the card's fields stand and a missing type becomes "Unknown" |
| `Scraper.ExtractPostDataFromPage` | src/scraper.py:288-303 | when the card lacks a type or cover and the page opens: type = card, else page, else "Unknown"; cover = card, else page; title = `clean_title` of the anchor text, else of the page's `h1` |
| `Scraper.ExtractPostDataSkipsPageWhenComplete` | src/scraper.py:291-296 | with type and cover both found on the card, the post's page is never consulted |
| `Scraper.ExtractAllLinks` | src/scraper.py:241-254 | the emitted links are the candidate blog links with first-wins dedup over `seen_links` |
| `Scraper.ExtractPostsFromPage` | src/scraper.py:230-254 | every emitted post has a non-empty type |
| `Scraper.ExtractPostsFromPageLinks` | src/scraper.py:241-254 | links follow anchor order, are pairwise distinct and all contain "/blog/" |
| `Scraper.FilterByType` | src/scraper.py:445-450 | an empty filter keeps everything; otherwise exactly the posts of the wanted type, case-insensitively, in order and with their multiplicity |
| `Scraper.RemoveDuplicates` | src/scraper.py:466-480 | an order-preserving subsequence with distinct links |
| `Scraper.RemoveDuplicatesKeepsFirst` | src/scraper.py:466-480 | each survivor is the first post with its link |
| `Scraper.RemoveDuplicatesCovers` | src/scraper.py:466-480 | every input link survives |
| `Scraper.ScrapePosts` | src/scraper.py:413-464 | distinct links, non-empty types, and only posts of the requested or configured type |
| `Scraper.ScrapePostsKeepsAll` | src/scraper.py:423-457 | the scrape is the type filter, with the request overriding the configuration, applied to the page's posts |
| `CsvHandler.AnnotationColumnsDiffer` | src/csv_handler.py:105 | the two annotation columns are distinct |
| `CsvHandler.FillAnnotations` | src/csv_handler.py:62-70 | both annotation cells are present, a missing cell reads as "", and every other cell is unchanged |
| `CsvHandler.LoadPosts` | src/csv_handler.py:40-79 | a missing file or a directory gives []; otherwise one row per stored row, with annotations filled |
| `CsvHandler.LoadedKeys` | src/csv_handler.py:62-72 | the records carry every column of a table with rows, plus both annotation columns; without rows there are no keys |
| `CsvHandler.AddEmptyColumn` | src/csv_handler.py:105-107 | a missing column is added as "" to every row; a present one leaves the frame unchanged |
| `CsvHandler.MergeRow` | src/csv_handler.py:114-120 | each annotation is the incoming value when non-blank, else the prior one; other cells come from the incoming row |
| `CsvHandler.MergeRows` | src/csv_handler.py:113-114 | a left merge: same rows, same order, each merged with its prior row |
| `CsvHandler.Preserve` | src/csv_handler.py:101-124 | the merge keeps the row count and the columns |
| `CsvHandler.PreserveAnnotations` | src/csv_handler.py:113-120 | the first prior row with the link supplies the kept annotations |
| `CsvHandler.PreserveKeepsOtherCells` | src/csv_handler.py:113-114 | non-annotation cells always come from the incoming row |
| `CsvHandler.PreserveWithoutPriorIsIdentity` | src/csv_handler.py:101-104 | without a prior file with links, the frame is unchanged |
| `CsvHandler.FrameOf` | src/csv_handler.py:97 | `pd.DataFrame(posts)` has the posts as rows, and its columns are the keys of every record, NaN-valued ones included |
| `CsvHandler.SavedFrame` | src/csv_handler.py:97-130 | the saved frame has every column of the incoming records |
| `CsvHandler.PersistRow` | src/csv_handler.py:136 | an empty cell is written as nothing and read back as missing |
| `CsvHandler.Persist` | src/csv_handler.py:136 | writing keeps the columns and the row order |
| `CsvHandler.SavePosts` | src/csv_handler.py:81-143 | succeeds iff there are posts and the file is writable and not a directory; failure leaves the file unchanged |
| `CsvHandler.AddEmptyColumnKeepsCells` | src/csv_handler.py:105-107 | adding a column keeps every other cell |
| `CsvHandler.SavedFrameDeduplicated` | src/csv_handler.py:127-130 | with dedup, at most one row per link, and the survivor is the last occurrence |
| `CsvHandler.SavedFrameKeepsEveryLink` | src/csv_handler.py:127-130 | dedup drops no link |
| `CsvHandler.SaveThenLoad` | src/csv_handler.py:40-143 | loading after a save gives back the saved rows, with empty cells missing |
| `CsvHandler.SavedTableValidates` | src/csv_handler.py:210-236 | a saved table with the required columns validates |
| `CsvHandler.AppendPost` | src/csv_handler.py:145-157 | the post is appended to the loaded records and saved with dedup, the loaded columns included |
| `CsvHandler.AppendPostKeepsLink` | src/csv_handler.py:145-157 | the appended post's link is in the saved table |
| `CsvHandler.AppendPostKeepsColumns` | src/csv_handler.py:145-157 | appending to a writable table with rows succeeds and keeps all its columns, even ones empty in every row, so a valid CSV stays valid |
| `CsvHandler.LastIndexOfLink` | src/csv_handler.py:172 | every non-empty link maps to the last index holding it |
| `CsvHandler.LinkIndex` | src/csv_handler.py:172 | with a `link` column, the links map to their last index and `None` is absent; without one, no link is indexed and `None` maps to the last row |
| `CsvHandler.Overlay` | src/csv_handler.py:180 | `dict.update`: the keys are those of the row and of every update |
| `CsvHandler.ApplyUpdates` | src/csv_handler.py:174-183 | the result has the existing rows plus one row per unmatched post |
| `CsvHandler.ApplyUpdatesUpdatesInPlace` | src/csv_handler.py:176-181 | an existing row is overlaid, in order, with every post that targets it |
| `CsvHandler.ApplyUpdatesAppendsUnmatched` | src/csv_handler.py:182-183 | unmatched posts are appended in order |
| `CsvHandler.ApplyUpdatesKeepsUntargeted` | src/csv_handler.py:176-181 | a row no post targets is unchanged |
| `CsvHandler.MatchedStep` | src/csv_handler.py:178-181 | a matched post adds nothing to the appended tail |
| `CsvHandler.UnmatchedStep` | src/csv_handler.py:182-183 | an unmatched post heads the appended tail |
| `CsvHandler.ApplyUpdatesMatchedUnfold` | src/csv_handler.py:176-181 | a matched post updates its row, and the loop continues on the rest |
| `CsvHandler.ApplyUpdatesUnmatchedUnfold` | src/csv_handler.py:182-183 | an unmatched post is appended, and the loop continues on the rest |
| `CsvHandler.Upserted` | src/csv_handler.py:169-183 | no existing row is lost; with no existing rows the result is the posts |
| `CsvHandler.UpsertedUpdatesInPlace` | src/csv_handler.py:169-181 | each loaded row is updated field-wise by the posts `link_map` sends to it, in order |
| `CsvHandler.UpsertedWithoutLinkColumn` | src/csv_handler.py:169-183 | without a `link` column, every link-less post updates the last row, posts with a link are appended, and the other rows are unchanged |
| `CsvHandler.UpsertedAppendsUnmatched` | src/csv_handler.py:182-183 | posts with new links are appended |
| `CsvHandler.UpdatePosts` | src/csv_handler.py:159-187 | the upserted rows are passed through `save_posts`, the loaded columns included |
| `CsvHandler.UpdatePostsKeepsColumns` | src/csv_handler.py:159-187 | updating a writable table with rows succeeds and keeps all its columns, even ones empty in every row, so a valid CSV stays valid |
| `CsvHandler.GetPostsWithoutSummaries` | src/csv_handler.py:189-208 | in order and with their multiplicity, exactly the posts whose `resumo` is missing or blank |
| `CsvHandler.ValidateCsvStructure` | src/csv_handler.py:210-236 | true iff the file exists and has every required column |
| `CsvHandler.TypeCounts` | src/csv_handler.py:251-254 | the keys are exactly the post types that occur |
| `CsvHandler.TypeCountsAreCounts` | src/csv_handler.py:251-254 | each value is the number of posts of that type |
| `CsvHandler.TypesOf` | src/csv_handler.py:253 | one type per post, in order |
| `CsvHandler.TypeCountsSumToTotal` | src/csv_handler.py:247-254 | the per-type counts are the multiset of post types, whose size is the total |
| `CsvHandler.GetStatistics` | src/csv_handler.py:238-261 | total is the number of posts, with + without = total, with counts the non-empty `resumo`, and the type tally counts each post type exactly as often as it occurs, summing to the total |
| `CsvHandler.StatisticsUndercountMissing` | src/csv_handler.py:248-249 | a whitespace-only `resumo` counts as summarised, so "without" never exceeds the posts without summaries |
| `Database.Links` | src/database.py:128-145 | the set of recorded links |
| `Database.MarkAsProcessed` | src/database.py:76-103 | inserted iff the ledger is reachable and the link absent; an insert appends one entry, otherwise nothing changes |
| `Database.IsProcessed` | src/database.py:105-126 | true iff reachable and recorded |
| `Database.GetAllProcessedLinks` | src/database.py:128-145 | the recorded links, or the empty set when unreachable |
| `Database.FilterUnprocessed` | src/database.py:147-166 | an order-preserving subsequence of unrecorded links, with input duplicates kept |
| `Database.DaysOf` | src/database.py:185-188 | the recording day of each row, in order |
| `Database.CountOfDay` | src/database.py:185-188 | the rows recorded on a day number the occurrences of that day |
| `Database.GetStatistics` | src/database.py:168-197 | total is the number of entries; today is the number of rows recorded today, at most the total; zero when unreachable |
| `Database.MarkKeepsValid` | src/database.py:43 | the ledger never holds a link twice |
| `Database.MarkGrowsLinks` | src/database.py:76-103 | marking adds exactly that link to the set, and removes nothing |
| `Database.MarkThenIsProcessed` | src/database.py:89-122 | after marking, the link is processed |
| `Database.MarkTwice` | src/database.py:89-99 | a second mark returns False and changes nothing |
| `Database.DistinctEntriesCount` | src/database.py:43 | distinct entries number as many as the links |
| `Database.TotalIsNumberOfLinks` | src/database.py:179-193 | the total equals the number of distinct recorded links |
| `Database.MarkedLinkIsFiltered` | src/database.py:147-166 | a marked link is filtered out |
| `AiProcessor.ValidateSummary` | src/ai_processor.py:127-147 | false for None, blank, or longer than the maximum (raw length); true otherwise |
| `AiProcessor.LoadSummaries` | src/ai_processor.py:172-191 | the stored records, or [] for an unreadable file |
| `AiProcessor.SaveSummary` | src/ai_processor.py:214-226 | on success the storage grows by exactly the new record; on failure it is unchanged |
| `AiProcessor.GetProcessedLinks` | src/ai_processor.py:228-236 | the set of non-empty links in storage |
| `AiProcessor.SaveSummaryAddsLink` | src/ai_processor.py:214-236 | saving adds the record's link, when non-empty, to the processed links |
| `AiProcessor.Annotate` | src/ai_processor.py:287-290 | `resumo` is the separator plus the summary, `data_resumo` the stamp, and other cells unchanged |
| `AiProcessor.Step` | src/ai_processor.py:270-303 | a recorded link is skipped unchanged; an invalid summary leaves post and state unchanged; a valid one annotates the post |
| `AiProcessor.StepRecords` | src/ai_processor.py:288-303 | an annotation adds the link to the ledger and one record to the storage |
| `AiProcessor.ProcessFrom` | src/ai_processor.py:269-314 | one post and one outcome per input post |
| `AiProcessor.ProcessFromUnfold` | src/ai_processor.py:269-314 | the run is the first step followed by the run on the rest |
| `AiProcessor.RunPostAt` | src/ai_processor.py:270-303 | each post is unchanged unless annotated, and an annotated post carries a valid generated summary and the stamp of its position |
| `AiProcessor.RunGrowsLedger` | src/ai_processor.py:250-314 | processing never removes a link from the ledger |
| `AiProcessor.RunSkipsAndRejects` | src/ai_processor.py:273-285 | a recorded link is skipped; a rejection means the summary was invalid |
| `AiProcessor.ProcessPosts` | src/ai_processor.py:250-314 | [] gives [] with nothing changed; the result has one post per input post |
| `AiProcessor.AnnotatedLinksRecorded` | src/ai_processor.py:273-303 | an annotated link was absent before and is recorded after |
| `AiProcessor.AnnotatesEachLinkOnce` | src/ai_processor.py:272-303 | a link repeated in the input is annotated at most once |
| `AiProcessor.StoreGrowsByAnnotated` | src/ai_processor.py:291-298 | the storage grows by exactly the number of annotations |
| `Pipeline.ToRows` | src/main.py:54-69 | one CSV row per scraped post, with the required columns and the post's link |
| `Pipeline.RunScraping` | src/main.py:41-78 | an empty scrape fails without saving; otherwise the `save_posts` result; cleanup iff a scraper exists |
| `Pipeline.ScrapingLeavesValidCsv` | src/main.py:54-69 | a successful scrape leaves a CSV that validates |
| `Pipeline.RunAiProcessing` | src/main.py:80-120 | an empty CSV fails; otherwise the result of `update_posts(process_posts(posts))` |
| `Pipeline.AiProcessingSucceeds` | src/main.py:91-115 | the stage succeeds iff the CSV has posts and can be written |
| `Pipeline.AiProcessingKeepsValidCsv` | src/main.py:91-115 | on a writable CSV with rows the stage succeeds and leaves a valid CSV valid |
| `Pipeline.RunN8nIntegration` | src/main.py:122-172 | a failed connection test fails first; exactly the posts with a non-blank `resumo` are sent; none to send fails |
| `Pipeline.DeliverySendsSummarised` | src/main.py:133-158 | the posts sent are exactly those `get_posts_without_summaries` leaves out |
| `Pipeline.Ran` | src/main.py:183-199 | scraping always runs; processing runs iff scraping succeeded; delivery iff both did |
| `Pipeline.PipelineShortCircuits` | src/main.py:174-199 | the pipeline succeeds iff all three stages do, and no stage runs after a failure |
| `Pipeline.ExitCode` | src/main.py:226-256 | 0 on success, 130 on interrupt, 1 otherwise |
| `Scheduler.ParseInt` | scheduler.py:107-111 | a decimal numeral parses to its value; "*" and signs alone do not parse |
| `Scheduler.ShowNat` | scheduler.py:107-111 | a numeral whose value is `n` |
| `Scheduler.ParseShowNat` | scheduler.py:107-111 | parsing a shown number gives it back |
| `Scheduler.FieldMatches` | scheduler.py:107-110 | "*" matches anything; a number matches its value; anything else raises |
| `Scheduler.Both` | scheduler.py:106-115 | `all` over the checks, where a raised check raises |
| `Scheduler.ShouldExecuteNow` | scheduler.py:95-115 | a cron without five fields raises |
| `Scheduler.CronFields` | scheduler.py:103-115 | five fields split back out, each checked against its time part |
| `Scheduler.FieldOfNumeral` | scheduler.py:107-110 | a numeral field matches exactly its value |
| `Scheduler.WeekdayOfNumeral` | scheduler.py:111-112 | cron 1..7 is Monday..Sunday, and "0" also matches Sunday |
| `Scheduler.ShouldExecuteNowIff` | scheduler.py:106-115 | true iff every field equals its time component, with the weekday rule |
| `Scheduler.ShouldExecuteNowRaises` | scheduler.py:106-113 | the check raises iff some field is neither "*" nor a number |
| `Scheduler.EveryMinuteMatches` | scheduler.py:106-115 | "* * * * *" matches every moment |
| `Scheduler.ZFill` | scheduler.py:89 | pads to the width and never shortens |
| `Scheduler.LeadingZeros` | scheduler.py:89 | leading zeros keep a numeral's value |
| `Scheduler.ZFillKeepsValue` | scheduler.py:89 | zero-padding keeps the number |
| `Scheduler.WeekdayName` | scheduler.py:71-85 | "0" and "7" are both Domingo; unknown values name themselves |
| `Scheduler.DescribeFields` | scheduler.py:82-93 | "Execucao continua" iff neither weekday nor hour is set; a set weekday gives "toda <name>" first |
| `Scheduler.DayPrefix` | scheduler.py:84-86 | the weekday part is empty iff the weekday is "*" |
| `Scheduler.JoinParts` | scheduler.py:93 | the space-join of the description parts |
| `Scheduler.DescribeHourAndMinute` | scheduler.py:84-93 | hour and minute set give "as HH:MM", zero-padded, after the weekday part |
| `Scheduler.DescribeHourOnly` | scheduler.py:84-93 | only the hour set gives "toda hora H" after the weekday part |
| `Scheduler.DescribeWeekdayOnly` | scheduler.py:84-93 | with no hour, the description is the weekday part alone |
| `Scheduler.DescribeSchedule` | scheduler.py:60-66 | "Formato de cron invalido" iff the cron has no five fields |
| `Scheduler.DescribeOfCron` | scheduler.py:60-93 | a five-field cron is described by its minute, hour and weekday |
| `Scheduler.DescribeIgnoresLoneMinute` | scheduler.py:88-91 | without an hour, the minute plays no part |
| `Scheduler.ScheduleEnabled` | scheduler.py:39 | enabled when unset, otherwise iff the value lower-cases to "true" |
| `Scheduler.ScheduleEnabledIgnoresCase` | scheduler.py:39 | the switch ignores case |
| `Scheduler.ScheduleCron` | scheduler.py:40 | the default cron when unset |
| `Scheduler.DescribeDefaultFields` | scheduler.py:84-93 | minute 0, hour 8, weekday 1 read "toda Segunda-feira as 08:00" |
| `Scheduler.DefaultCronFields` | scheduler.py:40 | the default cron is "0 8 * * 1" |
| `Scheduler.DescribeDefaultCron` | scheduler.py:40-93 | the default cron reads "toda Segunda-feira as 08:00" |
| `Scheduler.Execute` | scheduler.py:117-168 | a completed run succeeds iff its exit code is 0 and sets `last_execution` to its start plus its duration; a timeout or failure is unsuccessful and leaves `last_execution` as it was |
| `Scheduler.Tick` | scheduler.py:184-203 | the minute is recorded first; a repeated minute does nothing; a run needs a match and no run in the last 60 s |
| `Scheduler.TickStarts` | scheduler.py:186-194 | a new minute that matches, after a rest, starts a run |
| `Scheduler.NoRestartWithinAMinute` | scheduler.py:192-194 | no run starts within 60 s of the end of a completed run |
| `Scheduler.RunLoop` | scheduler.py:180-214 | no more runs than observed moments |
| `Scheduler.StartsAtMostOncePerMinute` | scheduler.py:186-188 | no more runs than changes of the minute value |
| `Scheduler.RunScheduler` | scheduler.py:170-214 | disabled means exactly one run; enabled, at most one per minute change |
| `Config.LowerKeepsSpace` | src/config.py:64 | lower-casing keeps whitespace where it was |
| `Config.LowerIdempotent` | src/config.py:64 | lower-casing twice is lower-casing once |
| `Config.CleanTypeIsClean` | src/config.py:64 | a non-blank entry cleans to a stripped, lower-case, comma-free type |
| `Config.CleanTypes` | src/config.py:63-67 | one type per non-blank entry |
| `Config.CleanTypesKeepsEntries` | src/config.py:63-67 | every non-blank entry's cleaned form is kept |
| `Config.CleanTypesAreClean` | src/config.py:63-67 | every kept type is clean |
| `Config.CleanTypesAppend` | src/config.py:63-67 | cleaning distributes over concatenation, so order is kept |
| `Config.CleanTypeOfClean` | src/config.py:64-66 | a clean type is kept as is |
| `Config.CleanTypesOfClean` | src/config.py:63-67 | a list of clean types cleans to itself |
| `Config.TargetPostTypes` | src/config.py:61-67 | one type per non-blank comma entry |
| `Config.TargetPostTypesClean` | src/config.py:63-67 | every type is clean and every non-blank entry is represented |
| `Config.TargetPostTypesRoundTrip` | src/config.py:63-67 | re-joining the list with commas and parsing again gives the same list |
| `Config.TargetPostType` | src/config.py:69 | the first type, or "" |
| `Config.TargetPostTypeFirst` | src/config.py:63-69 | "" iff no entry is non-blank; otherwise the first non-blank entry, cleaned |
| `Config.FirstKept` | src/config.py:63-69 | the first kept type comes from the first non-blank entry |
| `Config.ParseBoolean` | src/config.py:91 | configparser's boolean words, ignoring case; anything else raises |
| `Config.WebhookUrl` | src/config.py:89-92 | the production URL iff `use_production` |
| `Config.Load` | src/config.py:39-100 | the API key is checked first, then the file, then the options before `use_production`, then `use_production`, then the options after it |
| `Config.LoadedSettings` | src/config.py:39-100 | a successful load carries the key, the environment (default "production"), the parsed types and the chosen webhook |
| `Config.DatabasePath` | src/config.py:116-118 | "database/" + name for a relative name; an absolute name replaces the directory |
| `Config.DatabasePathComponents` | src/config.py:116-118 | the path's components are "database" followed by the name's |
| `Config.Construct` | src/config.py:23-37 | the first construction loads; later ones change nothing; a failed load leaves an instance without settings |
| `Config.ConstructOnce` | src/config.py:29-37 | a second construction returns the first instance, and never raises |

## Left out

- `HasType`, `FilterByType`: `Text.Lower` maps ASCII letters only, while Python's `str.lower()` covers Unicode. A post typed "ÉVÉNEMENT" is kept by the source under the filter "événement" and dropped by the model.
- `CleanType`, `TargetPostTypes`: the same ASCII-only lower-casing. "NOTÍCIA" becomes "notÍcia" in the model and "notícia" in the source, so the "lower-case" of `IsCleanType` holds for ASCII letters only.
- `ParseBoolean` and `ScheduleEnabled` use the same `Lower` and are exact. Python lower-cases only one non-ASCII character to an ASCII letter: the Kelvin sign becomes 'k'. No boolean word and not "true" contains 'k'.
- `ParseInt`: accepts optionally signed ASCII decimal numerals only. Python's `int()` also accepts underscores between digits ("1_5" is 15), non-ASCII decimal digits, and surrounding whitespace. For these the model raises where the source matches. Fields produced by `split()` never carry whitespace.
- `DatabasePath`: the model does not apply `pathlib`'s normalisation. `Path('database') / 'a//b'` is "database/a/b" and `/ 'x/'` is "database/x"; the model gives "database/a//b" and "database/x/".
- `AppendPost`, `UpdatePosts`: the incoming records' own NaN-valued keys are not kept; only the loaded table's columns and the keys of non-empty cells reach the saved header. The pipeline's records come from the same table, so this loses nothing there.
- `LinkOf`: a post whose `link` cell is empty is read by pandas as NaN. SQLite binds NaN as NULL, so `is_processed` is false and the `INSERT OR IGNORE` into the NOT NULL column is ignored, and the source summarises such a post again on every run. The model reads the link as "" and records "" in the ledger, so after the first one such posts are skipped.
- `TypeOf`: a `post_type` cell that pandas reads as NaN is a missing cell in the model, so it is counted under "Unknown". The source keeps NaN as a key of its own.
- `Load`: the values of the options the pipeline does not use are not kept. Their `NoSectionError`, `NoOptionError` or `ValueError` is one outcome, `InvalidOption`. Whether such an option is read before or after `use_production` is given by two flags, `readsBefore` and `readsAfter`.
- Browser automation (`SeleniumDriver`): tabs, scrolling and sleeps. Rendering the category page is a `ScrapeRun` value, and visiting a post's own page is the oracle `link -> Option<Node>`.
- HTML parsing and the CSS selector engine: the page is an abstract tree, and selector matching is an oracle.
- The "other" branch of `urljoin`, for a URL that starts neither with `/` nor with `http`: it is an oracle field of the base.
- `NormalizeUrl`: the root-relative branch is the base's origin followed by the path, unchanged. `urljoin` also resolves dot segments ("/blog/../x" on "https://host" is "https://host/x") and drops an empty trailing `?` or `#`. It also joins under a base whose scheme is upper-case ("HTTPS://h") or not http ("ftp://h"); there the model's origin is empty and it returns the bare path.
- The LLM client and the summary prompt (`OpenAIClient`, `SummaryGenerator.generate_summary`): the generator is the oracle `link -> Option<string>`.
- The n8n client (src/n8n_integration.py): the connection test is a boolean, and sending is an oracle over the posts to send.
- Pandas CSV encoding and type inference, JSON and SQLite I/O: files are values. Timestamps, `CURRENT_TIMESTAMP` and `DATE('now')` are given values. A failure to read or write is a boolean.
- Subprocess execution, signals, `time.sleep` and `datetime.now` in scheduler.py: each moment and each run's outcome arrive as values. Durations are whole seconds, not floats. The hourly status log is left out.
- Logging, `AIPostProcessor.get_statistics` and `Application.show_statistics`: they only report.
- Reading `.env` and `config.ini`, and creating directories in `_setup_paths`: file I/O. The float delays `scroll_delay` and `page_load_delay` are not kept.
