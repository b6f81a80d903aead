# metrika-alert: a Dafny model and its proofs

metrika-alert watches the traffic of web counters. It polls ten-minute figures, sums them into sliding
windows, compares each window with the median of the same weekly slot, and sends an alert when a rule fires.
Around that engine stand a poller with a persisted cursor, a report scheduler, the chat bot's rule syntax and
reply splitter, a Markdown renderer, and the export and import of all settings. This project models those
parts in Dafny and proves what they are meant to guarantee.

State that the program updates in place is a class here (`Store.Db`, `Poller.CounterRecord`,
`Reconcile.Poller`, `Evaluator.Evaluator`, `Schedule.ReportScheduler`, `Series.TimeSeries`), loops are loops
with invariants, and each method is tied to a function of its inputs or of the old state; the guarantees are
lemmas about those functions. Code that only computes is functions. `dafny verify dfyconfig.toml` checks
everything.

| file | models |
|---|---|
| Splitter, Markdown, Rendered, Reply | the reply pipeline: splitting by any measure, rendering to HTML and what it shows, position markers |
| Nesting, Markup, References | the tags and character references of a rendered message: balanced, nested, whole, and what cutting it leaves of them |
| PipeFields, RuleText, UrlFilter | the one-line rule syntax, when it is read back as typed, and the API filter expression |
| Series, Baseline | the ten-minute series with its lazy index, window sums, median baselines, verdicts |
| Scopes, Batching, Evaluator | one request per scope, why it decides as separate requests would, alerts and cooldowns |
| Firing | when a rule fires, told by the figures of the API alone |
| Judging, Cases | which rules a passed window was judged for, and concrete situations in which a rule loses its verdict |
| Overlap | one rule's cooldown under overlapping evaluations |
| Poller, Interleaving, Reconcile | the cursor protocol: serial, overlapping and crashing calls, and the live poll loops |
| Clock, Schedule | due times and the recorded last run |
| Keyed, RuleTables | database tables looked up by key; rules by external counter id and by row id |
| Settings, Validated, Goals, Database, Store | the settings payload and its validation, which payloads are accepted, the tables, and the transactions |
| Stored, Destinations, Exports | the rows after an import told by the payload's fields, and an export told by the rows |
| Replace, RoundTrip, Accepted, Merge, MergeTwice, Integrity | what imports guarantee |
| Saving, Typed | rules, reports, counters and destinations from the chat and over REST, and that what is typed is what is saved |
| Upkeep, Changes, Runs, Portable | what saving and dropping single rows does, and what any run of all these operations leaves to export |
| Text | trimming, joining, splitting, decimal numbers |

## Assumptions

Clocks, the API, the network and the user's chat are parameters: a call comes with the moment it happens, the
API is a function from filter, metric and interval to a figure, and failures are chosen by the caller. Figures
are exact reals and the zone has a fixed offset. Texts are sequences of Unicode scalar values. Whether a
regular expression compiles, which metric names resolve and what the application's validator accepts are
arbitrary predicates; of the application's own it is used that a blank metric does not resolve, that case makes
no difference to one, and that what a period's name stands for is a period's name (`Saving.Consistent`). A
transaction commits as a whole, and the table of counters refuses a second row with the same external id. Of the
API it is assumed only that its intervals tile a day (`Scopes.SaneApi`).

## Findings

Where a promised property does not hold of the code, the condition under which it does is proved, both ways,
with an input on which it fails:

- The cursor steps over the midnight window exactly when the step does not divide 1440 minutes
  (`Poller.NoneSkippedIff`): the truncation restarts at each midnight (internal/engine/poller.go:313-322), the
  loop adds whole steps (internal/engine/poller.go:300-305). A counter with rules does not lose a window by it:
  such a step is never the spacing of the API's intervals, so each of its requests is refused
  (internal/engine/evaluator.go:184-187), no window of it is ever judged and its cursor stays
  (`Interleaving.MismatchStops`). Only a counter without rules, which has nothing to judge, steps over midnight
  (`Interleaving.AtLeastOnceIff`, `Interleaving.MidnightMissed`).
- A window counts as done although a scope's request was refused, exactly when some rule fires out of its
  cooldown (internal/engine/evaluator.go:84-89; `Evaluator.Evaluator.EvaluateWindow`, `Judging.LostIff`, input
  `Cases.RefusedScopePasses`). The comment there speaks of every scope failing; one failed scope is enough when
  no alert went out. So windows are passed at least once, but each is judged for all rules at least once exactly
  when no such window can occur (`Interleaving.RulesAtLeastOnceIff`).
- A rule comes to the same from its scope's request as from one of its own exactly when both offer it a verdict
  or neither does and, if both do, its own request reaches back over all it is judged by or no rule of the scope
  asks for more weeks (`Batching.BatchingPreservesIff`). A request offers a verdict exactly when it is not
  refused, the metric is known, and the answer holds the window (`Batching.JudgedIff`). So for windows of up to a
  day only refusals make a difference (`Batching.OnlyRefusals`): more than twenty metrics
  (`Cases.OneGoalTooMany`), or a number of weeks for which the API's intervals are not of the configured step,
  which a deeper neighbour may cause and may also cure (`Cases.NeighbourWidens`). Windows longer than a day plus
  the part of the day that is over may reach behind the range asked for (`Batching.RangeCovers`), and a deeper
  neighbour then changes a verdict (`Cases.NeighbourDecides`), until they are too long for both.
- The cooldown holds per evaluation in flight: evaluations that overlap can each alert once within it, and n of
  them do when all check before any records (`Overlap.AtMostPerCooldown`, `Overlap.Attained`). Records are whole
  seconds, so it is short by the fraction of a second of the alert (`Overlap.SecondLost`).
- A daily schedule sends over a run exactly when a last run is recorded and a later time is reached
  (`Schedule.DailySendsIff`); without a record it never sends (`Schedule.DailyNeedsRecord`), because every look
  puts the next report after itself (internal/engine/schedule.go:138-146).
- Rendered tags are balanced by name, and nest exactly when, among the markers of the text that pair up, what is
  between each two backticks and each two underscores is balanced (`Markup.RenderingNestsIff`, input
  `Markup.TagsCanCross`). An alert longer than a message is cut (internal/vkteams/format.go:76-90); what is sent
  is then well tagged exactly when the cut falls outside every tag and where nothing is open
  (`Markup.TruncationKeepsIff`, input `Markup.CutCanLeaveOpen`), and has only whole character references exactly
  when the cut falls inside none (`References.ReferencesKeptIff`, input `References.CutInsideReference`). Replies
  never reach the cut (`Reply.NoReplyIsCut`).
- A `url~` pattern comes back from a rule text exactly when its pipes split it into trimmed alternatives, of
  which the first is not empty and no other looks like a label, the fields before it are no scopes, those after
  it are labelled, and, if there are any, the reader counts its brackets as closed
  (`RuleText.PatternSurvivesIff`, inputs `RuleText.ClassSwallowsGoals` and `RuleText.UnlabelledAbsorbed`).
- Importing with replacement keeps the target's destinations and schedule when the payload has none; the export
  comes back identical exactly when that does not happen (`RoundTrip.SameExportIff`).
- The export of a database can be imported again exactly when each of its parts would pass the importer's checks
  (`Portable.ExportAcceptedIff`). Imports and everything saved from the chat keep it so. A counter saved over REST
  does exactly when its id is a trimmed number, and a rule exactly when its name is not blank, its floor not
  negative and its baseline at most twelve weeks deep: internal/api/server.go:150-320 does not check that
  (`Runs.StepWellFormedIff`, `Saving.ApiRuleNormalIff`, `Saving.ApiCounterNormalIff`, input
  `Portable.RestRuleBlocksExport`).
- Foreign keys are not enforced (internal/model/repo.go:81-83), so a saved rule or report has its counter exactly
  when that was not deleted while the message was awaited, and dropping a rule leaves its cooldown behind
  (`Runs.StepIntegralIff`, inputs `Portable.RuleOrphaned` and `Portable.CooldownOrphaned`).
- A goal list comes back from its column exactly when all its numbers are positive (`Goals.GoalsKeptIff`).
- README.md of the repository shows a rule with a threshold of 200 (line 103); the code refuses thresholds over
  100 (internal/model/export.go:318, internal/bot/pending.go:274). The model follows the code
  (`Settings.TriggerAcceptedIff`).

## Model

| member | source | states |
|---|---|---|
| Splitter.Utf16Len | internal/bot/split.go:15-26 | the number of runes plus the number of those outside the basic plane, so one of those counts twice and any other once |
| Splitter.HardSplit | internal/bot/split.go:79-95 | its pieces are those of `Cut`, about which losslessness, the bound and greediness are proved |
| Splitter.CutLossless | internal/bot/split.go:79-95 | the pieces of a cut line, put together, are the line |
| Splitter.CutBounded | internal/bot/split.go:79-95 | every piece measures at most the limit when single runes do, for any measure |
| Splitter.CutGreedy | internal/bot/split.go:83-90 | a piece ends only where its next rune would have passed the limit |
| Splitter.SplitMessage | internal/bot/split.go:33-75 | returns the parts of the layout `TextBlocks`, about which the next four rows are proved |
| Splitter.NothingLost | internal/bot/split.go:28-75 | the text is exactly the parts in order, with one newline between blocks and nothing inside a cut line, for any measure and limit |
| Splitter.PartsBounded | internal/bot/split.go:28-75 | if runes and the empty line fit, every part fits, only lines over the limit by themselves are cut, and no block is empty; nothing is assumed about sums or monotony of the measure |
| Splitter.OverlongSplits | internal/bot/split.go:37-75 | a text over a positive limit becomes at least two parts |
| Splitter.NoneClosedEarly | internal/bot/split.go:60-68 | no part of whole lines is closed while its next line would still have fitted |
| Markdown.ConvertPaired | internal/vkteams/format.go:34-71 | the loop writes what `Paired` says for the whole input |
| Markdown.FromMarkdown | internal/vkteams/format.go:22-29 | escapes and then runs the four passes in the order of the code |
| Markdown.PassTokens | internal/vkteams/format.go:34-71 | one pass over HTML is a pass over its tokens that looks at marker runes only: the pairs become tags that stand for exactly those markers, open and close alternate, earlier passes' tags survive whole |
| Markdown.RenderingBalanced | internal/vkteams/format.go:16-71 | the four passes over the tokens of the escaped text give tokens that read as the rendering and erase to the escaped text, contain no other angle bracket, and in which every prefix has at least as many opens as closes per tag name, with equal totals |
| Markdown.NoOtherMarkup | internal/vkteams/format.go:22-71 | every `<` of the output begins one of the six tags |
| Markdown.PairedAppendPlain | internal/vkteams/format.go:34-71 | text without the marker's last rune passes through a pass unchanged at the end of any text |
| Markdown.ItalicSuffix | internal/vkteams/format.go:34-71 | appending an underscored group lengthens the pass's output by the group and one pair of tags, whether or not the text leaves an underscore open |
| Markdown.RenderSuffix | internal/vkteams/format.go:22-71 | the same for the whole rendering: exactly gap, content and seven |
| Markdown.RenderRune | internal/vkteams/format.go:22-29 | a single rune renders as its escape, at most five units |
| Rendered.EscapedShown | internal/vkteams/format.go:22-29 | escaped text, read as a browser reads character references, is the text that was written |
| Rendered.PairedGroup | internal/vkteams/format.go:34-71 | a pass turns the first two markers and the text between them into a tagged text, leaves two with nothing between them as they are, and goes on behind them |
| Rendered.RenderMarked | internal/vkteams/format.go:16-29 | one marked text among plain ones is rendered in bold for two stars or one, as code for backticks, in italics for underscores, and nothing else changes |
| Markdown.TruncateMessage | internal/vkteams/format.go:73-90 | identity up to the limit; above it, the text's start plus the notice, filling the limit exactly |
| Nesting.NestedIff | internal/vkteams/format.go:22-71 | balanced tags of which only one name is ever open twice nest exactly when what is inside each pair of the other names is balanced |
| Markup.RenderedTags | internal/vkteams/format.go:22-71 | every rendering has only whole tags, those the markers of the text became, balanced by name, and only bold is ever opened while open |
| Markup.RenderingNestsIff | internal/vkteams/format.go:22-71 | the tags of a rendering nest exactly when, among the markers of the text that pair up, every name is balanced between each pair of backticks and each pair of underscores |
| Markup.TagsCanCross | internal/vkteams/format.go:22-71 | a bold pair and an italic pair that cross are rendered as tags that cross |
| Markup.TruncationKeepsIff | internal/vkteams/format.go:73-90 | a rendered message sent through truncation is well tagged exactly when it fits, or the cut falls outside every tag and where nothing is open |
| Markup.CutCanLeaveOpen | internal/vkteams/format.go:73-90 | every bold text of 9000 runes or more is sent with its bold left open |
| References.RenderedReferences | internal/vkteams/format.go:22-71 | in every rendering each ampersand begins one of the five references |
| References.ReferencesKeptIff | internal/vkteams/format.go:73-90 | a rendered message sent through truncation has only whole references exactly when it fits, or the cut falls inside none |
| References.CutInsideReference | internal/vkteams/format.go:73-90 | every text of more than 1800 ampersands is sent with a broken reference before the notice |
| Reply.Deliver | internal/bot/bot.go:241-262 | sends the bodies in order, each with its marker when there are several, and stops at the first refusal |
| Reply.BodiesFit | internal/bot/bot.go:244-250 | bodies lay out the whole text and fit, with the reserve free when there are several |
| Reply.WhatIsSplit | internal/bot/bot.go:241-250 | a reply goes out whole up to 4000 units on Telegram and 8800 rendered runes on VK Teams, and is split at 20 less above that |
| Reply.ShortReplyWhole | internal/bot/bot.go:244-250 | a text that fits goes out as it is, in one message without a marker |
| Reply.MarkerReads | internal/bot/bot.go:252-255 | of several messages the i-th is its body and a marker in which i, counted from one, and then the number of messages can be read |
| Reply.MarkerGrowth | internal/bot/bot.go:252-255 | the marker lengthens the rendered message by twelve and its digits, for every body |
| Reply.NoReplyIsCut | internal/bot/vkteams.go:25-40 | no VK Teams message of a reply passes 8800 rendered runes for up to 9999 parts, nor 9000 for fewer than 10^100, so truncation never applies |
| Reply.VkTeamsCarries | internal/bot/vkteams.go:25-34 | the VK Teams measure meets the splitter's conditions |
| Reply.TelegramCarries | internal/bot/telegram.go:27-32 | so does the Telegram measure |
| Reply.TelegramWithinLimit | internal/bot/telegram.go:27-32 | no Telegram message passes 4000 units for fewer than a million parts |
| UrlFilter.UnescapeEscape | internal/engine/urlfilter.go:76-85 | unescaping an escaped value gives it back |
| UrlFilter.LiteralHoldsValue | internal/engine/urlfilter.go:76-85 | the quoted literal ends exactly after the escaped value, whatever the value and what follows |
| UrlFilter.FilterDecodes | internal/engine/urlfilter.go:48-74 | an accepted filter is empty only for a blank value, and else yields the trimmed value and =~ for a pattern or =@ for a substring |
| UrlFilter.SameFilterIff | internal/engine/urlfilter.go:48-74 | accepted filters are equal exactly when trimmed values and operators agree |
| UrlFilter.ExpressionLength | internal/engine/urlfilter.go:65-85 | the expression takes 21 bytes, the value's bytes and one per reserved rune |
| UrlFilter.AcceptedIff | internal/engine/urlfilter.go:48-74 | accepted exactly for blank values, or a known match word, a compiling pattern and at most 1979 escaped bytes |
| PipeFields.SplitPipeFields | internal/bot/pending.go:173-222 | the loop returns the trimmed raw fields of the text |
| PipeFields.RawLossless | internal/bot/pending.go:173-222 | raw fields joined by pipes are the text |
| PipeFields.RoundTripIff | internal/bot/pending.go:173-222 | a list of fields survives joining and splitting exactly when its fields are bracket-neutral, the last needing only to hold no separating pipe; splitting always yields such a list |
| PipeFields.InnerPieces | internal/bot/pending.go:179-220 | texts with closed groups, pipes and all, read the same inside any group however deep |
| PipeFields.NeutralPieces | internal/bot/pending.go:179-220 | pipes in parentheses, in brackets or behind a backslash do not separate, a bracket that closes nothing changes nothing, and fields of such pieces are bracket-neutral |
| PipeFields.TakeUrlScope | internal/bot/pending.go:328-360 | computes the scope, its match word and the remaining fields, or the error, as `UrlScopeOf` |
| RuleText.PatternSurvivesIff | internal/bot/pending.go:173-371 | for any pattern among trimmed, bracket-neutral fields: splitting and taking give back the pattern and the other fields in order exactly under the condition on its alternatives, its brackets and the fields around it |
| RuleText.ScopeSavedIff | internal/bot/pending.go:173-371 | the same for the scope a rule is saved with, which also needs the pattern to make a filter |
| RuleText.RunsOn | internal/bot/pending.go:179-214 | where a pipe does not separate, the fields before it stand and the last one runs on into what follows |
| RuleText.ClassSwallowsGoals | internal/bot/pending.go:190-205 | in `url~[(]\|goals=1` the goals become part of the pattern |
| RuleText.UnlabelledAbsorbed | internal/bot/pending.go:340-352 | unlabelled fields after a pattern, however many, become alternatives of it |
| Series.IndexIsSearch | internal/engine/report_client.go:262-276 | looking up the index map is searching for the last interval that starts at the moment |
| Series.TimeSeries.IndexOf | internal/engine/report_client.go:260-276 | the lazily filled index answers as the search does, on first use and later |
| Series.SearchFinds | internal/engine/report_client.go:260-276 | on a contiguous series each start is found at its own position |
| Series.DeriveIntervals | internal/engine/report_client.go:395-414 | the i-th start is the first one plus i steps |
| Baseline.WindowSum | internal/engine/baseline.go:104-131 | the loop over the lazy index returns the window's total, or nothing when an interval is missing |
| Baseline.WindowTotalIff | internal/engine/baseline.go:104-131 | on a contiguous series the sum exists exactly when the series holds the whole window, and is the sum of that slice |
| Baseline.BuildBaseline | internal/engine/baseline.go:133-154 | the baseline counts the window totals that exist for the past weeks; it is the one in the middle or halfway between the two in the middle; with at most (n-1)/2 of them outside a range it is inside; without any it is zero |
| Baseline.MedianOrderFree | internal/engine/baseline.go:157-169 | permuting the samples does not change the median |
| Baseline.MedianRobust | internal/engine/baseline.go:156-169 | with at most (n-1)/2 samples outside a range the median is inside it, for odd and even n |
| Baseline.OneOutlier | internal/engine/baseline.go:156-169 | one odd week among three or more stays inside the others' range |
| Baseline.BaselineMiddle | internal/engine/baseline.go:133-169 | the same of the function the loop computes |
| Baseline.OddWeeksDecideNothing | internal/engine/baseline.go:133-216 | whatever a minority of the past weeks was, a rule fires when the figure has left the others' range in its direction by its threshold, and does not when it has not left the near end of that range |
| Baseline.OneOddWeek | internal/engine/baseline.go:133-216 | so one odd week among three or more cannot decide it |
| Baseline.SameSlot | internal/engine/baseline.go:86-96 | whole weeks back is the same weekday and minute |
| Baseline.BaselineIndependent | internal/engine/baseline.go:133-154 | two series that agree outside the window under test have the same baseline, for windows up to a week |
| Baseline.EditInside | internal/engine/baseline.go:133-154 | changing a figure inside the window leaves the series alike outside it |
| Baseline.FiresIff | internal/engine/baseline.go:183-216 | over a positive baseline a rule fires exactly when samples and noise floor count and the figure is at most (100-p) or at least (100+p) percent, by direction |
| Baseline.FiresOverZero | internal/engine/baseline.go:183-216 | over a zero baseline exactly a non-zero figure in the rule's direction fires |
| Baseline.FiresBelowZero | internal/engine/baseline.go:183-216 | over a negative baseline the comparisons are the other way round |
| Scopes.GroupByScope | internal/engine/evaluator.go:106-134 | one group per distinct filter, filters ascending, each group the usable rules of that filter in order; an error exactly when no rule is usable |
| Scopes.GroupMembers | internal/engine/evaluator.go:108-118 | a rule is in a group exactly when it is among the rules and needs that filter |
| Scopes.GroupInOrder | internal/engine/evaluator.go:108-118 | a group has its rules in their order |
| Scopes.SameScopeIff | internal/engine/evaluator.go:108-118 | two usable rules are in one group exactly when their trimmed values and, unless blank, their operators agree |
| Scopes.AscendingUnique | internal/engine/evaluator.go:123-127 | the sorted keys depend only on which keys there are, not on the order the map yields them |
| Scopes.RequestedFor | internal/engine/evaluator.go:140-165 | a request asks for exactly the metrics its rules resolve to, each once, and for the most weeks any of those rules wants, at least one |
| Scopes.AnsweredIff | internal/engine/evaluator.go:155-188 | a request is answered exactly when it has one to twenty metrics, the API answers for the pages, and its intervals are of the step or fewer than two |
| Scopes.FetchSeries | internal/engine/evaluator.go:136-189 | returns the series for the distinct metrics and the deepest baseline, with the index of each metric, or the refusal |
| Batching.AnswerReads | internal/engine/evaluator.go:167-188 | reading the answer by interval start gives the API's figure for that filter, metric and start, and nothing outside the dates asked for |
| Batching.RangeCovers | internal/engine/evaluator.go:167-168 | the dates asked for reach a window of some weeks ago exactly when it is at most a day, the part of the day gone and the weeks in between long; so every window the baseline reads, for windows up to a day |
| Batching.JudgedIff | internal/engine/evaluator.go:108-242 | a rule gets a verdict exactly when its scope's request is not refused, its metric is known, and the dates asked for hold the whole window from an interval's start on |
| Batching.BatchingPreservesIff | internal/engine/evaluator.go:108-242 | for every set of rules and every API, a rule comes to the same from the shared, deduplicated request as from its own exactly when both or neither offer a verdict and, if both do, its own reaches back over all it is judged by or no rule of the scope asks for more weeks |
| Batching.OnlyRefusals | internal/engine/evaluator.go:155-187 | for windows of up to a day that start on an interval only refusals make a difference |
| Firing.BaselineUsual | internal/engine/baseline.go:104-169 | the baseline of a rule counts the past weeks its request reaches, and is the middle of the sums of their figures and nothing else |
| Firing.FiresExactly | internal/engine/evaluator.go:108-242 | an enabled rule fires exactly when its request offers it a verdict, reaches at least two of its past weeks, the middle of their sums of figures is not below its floor, and the window's own sum has moved from it by the threshold in the rule's direction |
| Cases.OneGoalTooMany | internal/engine/evaluator.go:145-165 | twenty rules on goals of their own share a request and are judged; with a twenty-first none is, though each fires alone |
| Cases.NeighbourDecides | internal/engine/evaluator.go:155-168 | with two-day windows a rule over two weeks fires only beside a rule over three |
| Cases.NeighbourWidens | internal/engine/evaluator.go:155-187 | where the API widens its intervals beyond two weeks, a rule over three weeks costs one over two its verdict at a step of ten minutes, and gives it one at a step of an hour |
| Evaluator.FiresInScope | internal/engine/evaluator.go:192-213 | a rule fires on the shared series of its scope exactly when its outcome fires |
| Evaluator.Evaluator.EvaluateTrigger | internal/engine/evaluator.go:191-253 | a rule that fires and has no fire record, or one at least its cooldown old, alerts; otherwise nothing changes; the alert is logged and recorded to the whole second; no record is ever later than the clock; `Valid` keeps any two alerts of one rule a cooldown apart, less a second, over the whole life of the evaluator |
| Evaluator.Evaluator.Deliver | internal/engine/evaluator.go:220-241 | adds one alert for the rule and window and then a fire record less than a second older than it, never in the future |
| Evaluator.Evaluator.EvaluateScope | internal/engine/evaluator.go:62-82 | accounts for every rule of the scope; a refused request sends nothing |
| Evaluator.Evaluator.EvaluateWindow | internal/engine/evaluator.go:35-90 | every enabled rule that fires and has no record, or one at least its cooldown old at the start, alerts for the window; nothing alerts that does not fire; the window fails exactly when no alert went out and something could not be judged; by the fire records at its start, it passes if it would at the first clock reading and only if it would at the last |
| Evaluator.Evaluator.CatchUp | internal/engine/poller.go:268-282 | each window of a batch is accounted for in turn, the rules due in it alert for it, and it passes by the fire records at its start; the batch stops only at a window with something unjudged for which every rule that fires is cooling down; no rule alerts twice unless the batch outlasts its cooldown less a second |
| Evaluator.AccountsStep | internal/engine/evaluator.go:72-81 | one more judged rule keeps the account of alerts, fire records and handled rules |
| Evaluator.RefusedScope | internal/engine/evaluator.go:63-70 | rules of a refused scope do not fire, so they are accounted for without an alert |
| Evaluator.StaysSpaced | internal/engine/evaluator.go:214-241 | an alert sent out of cooldown keeps any two alerts of one rule a cooldown apart, less the second lost in storing |
| Evaluator.SpacedOnce | internal/model/repo.go:292-314 | spaced alerts within a stretch shorter than the cooldown are at most one per rule |
| Judging.LostIff | internal/engine/evaluator.go:62-89 | a window one of whose scopes is refused passes exactly when some rule fires out of its cooldown, and the refused scope's rules have no verdict |
| Judging.WholeJudged | internal/engine/evaluator.go:62-89 | in a window with nothing unjudged each usable rule is judged exactly when its scope's answer holds the window, and comes to what it would come to alone exactly when the rest of its scope makes no difference to it |
| Judging.StepMismatch | internal/engine/evaluator.go:181-187 | when the API never spaces its intervals by the configured step, no rule of a counter has a verdict and no window passes |
| Cases.RefusedScopePasses | internal/engine/evaluator.go:62-89 | a window passes because the whole counter's rule fires, while the page's rule, whose scope got no answer, has no verdict |
| Overlap.SlotSpaced | internal/engine/evaluator.go:214-253 | alerts of one rule sent by the same evaluation in flight are a cooldown apart, less a second, whatever the others do |
| Overlap.AtMostPerCooldown | internal/engine/evaluator.go:214-253 | with at most n evaluations in flight, at most n alerts of a rule go out within a cooldown less a second |
| Overlap.Attained | internal/engine/evaluator.go:214-253 | n evaluations that all check before any records send n alerts at one moment when nothing is on record or the record is a cooldown old, and none before that |
| Overlap.SecondLost | internal/model/repo.go:304-316 | after an alert at any moment another goes out a cooldown later less that moment's fraction of a second |
| Poller.PendingWindows | internal/engine/poller.go:287-308 | the loop returns the pending ends, for a counter with or without a cursor |
| Poller.DefaultsFillIn | internal/engine/poller.go:62-98 | settings left out are a 60-minute window every 10 minutes, judged once 20 minutes old, at most 6 at a time |
| Poller.AfternoonWindows | internal/engine/poller.go:287-308 | at 14:35 the newest window ends at 14:10; after an outage since 10:00 the first six come first |
| Poller.NoneSkippedIff | internal/engine/poller.go:300-322 | stepping from a grid point passes over no grid window exactly when the step divides the day |
| Poller.PendingExact | internal/engine/poller.go:287-308 | the pending windows are the next grid windows after the cursor, as many as are settled, up to the catch-up bound |
| Poller.FirstPoll | internal/engine/poller.go:294-298 | a counter without a cursor starts at the newest settled grid window and nothing older |
| Poller.CounterRecord.Advance | internal/engine/poller.go:255-284 | judges pending windows in order; the cursor ends at the last one judged and saved, and a failure ends the call |
| Poller.OneCall | internal/engine/poller.go:255-308 | one call judges consecutive grid windows from the cursor, none past the settle time, at most the bound |
| Poller.SerialExactlyOnce | internal/engine/poller.go:255-308 | over any serial run of calls, with any failures to judge, the judged windows are consecutive from the first cursor to the last: each once, ascending, none skipped |
| Poller.BacklogAfterOne | internal/engine/poller.go:268-308 | a successful call takes the bound off the backlog |
| Poller.Converges | internal/engine/poller.go:268-308 | n successful calls leave the backlog less n times the bound, so zero after backlog/bound rounded up |
| Interleaving.ApplyKeeps | internal/engine/poller.go:255-284 | beginning, judging, saving, failing and crashing of overlapping calls keep the invariant, even as the cursor moves back; a call moves on only from a window whose evaluation passes |
| Interleaving.MismatchStops | internal/engine/poller.go:255-284 | a step other than the API's spacing leaves a counter with rules unjudged and its cursor in place, over every run |
| Interleaving.AtLeastOnce | internal/engine/poller.go:255-344 | after any events every grid window between the first cursor and the current one was passed by an evaluation, for any step when the counter has rules |
| Interleaving.MidnightMissed | internal/engine/poller.go:300-322 | when the step does not divide the day, a run of a counter without rules steps over midnight |
| Interleaving.AtLeastOnceIff | internal/engine/poller.go:255-344 | no run steps over a window exactly when the step divides the day, and a run that does evaluates a counter without rules |
| Interleaving.Resumes | internal/engine/poller.go:255-284 | after a failed call or a crash nothing saved or judged is lost, and the next call has exactly the windows after the saved cursor |
| Interleaving.Completes | internal/engine/poller.go:255-284 | a call whose windows all pass judges every one of them and leaves the cursor at the last |
| Interleaving.WholeMeans | internal/engine/poller.go:255-284 | for a window that counts as whole some evaluation judged each usable rule whose scope's answer held the window |
| Interleaving.RulesAtLeastOnceIff | internal/engine/poller.go:255-344 | a counter with rules has every window behind its cursor judged for all rules at least once, over every interleaving, exactly when no window can have a refused scope and a rule that fires out of its cooldown |
| Reconcile.Poller.Serve | internal/engine/poller.go:166-185 | a missing loop is started, a loop with another interval replaced, the same one left alone; no other entry changes |
| Reconcile.Poller.CancelGone | internal/engine/poller.go:187-194 | exactly the absent counters' loops are cancelled and forgotten, in any order of the map |
| Reconcile.Poller.Reconcile | internal/engine/poller.go:156-230 | afterwards exactly the listed counters are watched, each at its own interval or every minute if that is less than one, kept loops are the same loops, and nothing is started or cancelled when they matched before |
| Reconcile.Poller.StopAll | internal/engine/poller.go:206-214 | nothing is watched and no loop is live |
| Reconcile.OneLiveLoop | internal/engine/poller.go:19-40 | two live loops of one counter are the same loop, the one on record |
| Reconcile.RunRounds | internal/engine/poller.go:136-214 | over any rounds of reconciling and stopping live loops and watched counters stay paired one to one |
| Schedule.ReportScheduler.RunTick | internal/engine/scheduler.go:83-108 | a report that is due and can be recorded is recorded to the second and then sent, and nothing happens otherwise; due is never when off, at once or a gap after the last run when every so often, and past the time of day with a run recorded before it when daily |
| Schedule.RunAppend | internal/engine/scheduler.go:66-108 | a run in two stretches is the run over all ticks |
| Schedule.DailyDueIff | internal/engine/schedule.go:128-160 | due exactly when the last run is before today's time and that time has come |
| Schedule.DailyClock | internal/engine/schedule.go:128-160 | due exactly when the clock shows the hour and minute or later and the last run was on an earlier day or before that time today |
| Schedule.NextDaily | internal/engine/schedule.go:138-150 | the next daily report is at the hour and minute asked for: the first such moment after now without a record, else the first from today on after the last run |
| Schedule.SavedKeepsOrder | internal/model/repo.go:430-449 | dropping the fraction of a second keeps a run on its side of every configured time |
| Schedule.DailyOnce | internal/engine/scheduler.go:83-108 | from a recorded run a day gets exactly one report when it is ahead and some tick reaches its time and can record, and none otherwise |
| Schedule.DailyNotEarly | internal/engine/schedule.go:138-150 | no daily report goes out before its time of day |
| Schedule.DailyNeedsRecord | internal/engine/schedule.go:138-146 | without a recorded run a daily schedule never sends and never records |
| Schedule.DailySendsIff | internal/engine/schedule.go:128-160 | a daily schedule sends over a run exactly when a last run is recorded and some recordable tick reaches a later time |
| Schedule.EveryApart | internal/engine/schedule.go:131-136 | interval reports are the interval apart, less the second lost in storing |
| Schedule.EverySendsIff | internal/engine/schedule.go:131-136 | over any run a tick of an interval schedule sends exactly when it can be recorded and nothing was recorded before it or the last recorded run is at least the gap before it |
| Schedule.EveryInTime | internal/engine/schedule.go:131-136 | so every recordable tick at least the gap after the last report sends one, and so does the first of a run without a record |
| Keyed.PutAllUpserts | internal/model/export.go:491-568 | any list of upserts leaves old rows in place with their ids, merges into each listed key what is listed for it, in order, and adds rows exactly for the listed keys without one |
| Keyed.PutAllTwice | internal/model/export.go:491-568 | upserting the same list again changes nothing, when merging is associative and idempotent |
| Keyed.UniqueKept | internal/model/export.go:493-528 | unique keys stay unique |
| Keyed.InsertAllAppends | internal/model/export.go:516-524 | plain inserts append rows with consecutive fresh ids in the order listed |
| Keyed.OrderedKept | internal/model/db.go:15-44 | ids stay ascending and below the next one, so row order is id order |
| RuleTables.EnsureCounter | internal/model/export.go:530-545 | the id found so far or in the table, which agree |
| RuleTables.ApplyRules | internal/model/export.go:547-599 | applies each rule as an insert or an update, refuses at the first unknown counter, counts each rule once, and gains as many rows as it created; for triggers and reports alike |
| RuleTables.Collect | internal/model/repo.go:138-162 | gathers a counter's rules in row order |
| RuleTables.AllPlacedComeBack | internal/model/export.go:581-589 | rules inserted group by group under consecutive counter rows are listed again under each row exactly as they were given |
| RuleTables.ResolveFlattened | internal/model/export.go:581-589 | nested rules resolve to the row ids of their counters |
| Settings.HeadNormalIff | internal/model/export.go:282-297 | a counter passes unchanged exactly when its id is a number and name and interval are set; what passes is so |
| Settings.TriggerNormalIff | internal/model/export.go:299-347 | a trigger passes unchanged exactly when every field is in range with defaults filled; what passes is so |
| Settings.TriggerAcceptedIff | internal/model/export.go:299-347 | a trigger is accepted exactly under the listed conditions; values in range stay, the others become the defaults |
| Settings.ReportNormalIff | internal/model/export.go:349-375 | the same for reports |
| Settings.ActionNormalIff | internal/model/export.go:400-453 | the same for destinations, over the three types, the chat number read from the target and the target defaulted from the chat |
| Settings.NormaliseEach | internal/model/export.go:377-398 | rewrites a list in place and stops at the first refusal |
| Settings.Validate | internal/model/export.go:277-459 | runs the checks in the code's order; the result is `Normalise` |
| Settings.NormaliseSettles | internal/model/export.go:277-459 | a payload passes unchanged exactly when it is normal, and everything that passes is normal, so validating twice is validating once |
| Validated.HeadAcceptedIff | internal/model/export.go:282-297 | a counter is accepted exactly when its id reads as a number; a missing name becomes the id and a missing interval an hour |
| Validated.ReportAcceptedIff | internal/model/export.go:349-375 | a report is accepted exactly when it has a name, a usable filter, no grouping but by pages and a known period; only a missing match word is filled in |
| Validated.ActionAcceptedIff | internal/model/export.go:400-453 | a destination is accepted exactly when its type is telegram and it names a chat by number or a target that reads as one, vkteams and a target, or webhook and a web address, the general field standing in for a blank one; each missing field is filled in from what is given and the rest stays |
| Validated.PayloadAcceptedIff | internal/model/export.go:277-459 | a payload is accepted exactly when it lists something or names a schedule, and every counter, rule, report and destination in it is acceptable and the schedule reads |
| Goals.FormatGoalIds | internal/model/repo.go:480-486 | prints the list as `FormatGoals` does |
| Goals.ParseGoalIds | internal/model/repo.go:464-478 | reads the positive numbers of a list, skipping the rest |
| Goals.GoalsRoundTrip | internal/model/repo.go:464-486 | a list of 64-bit numbers stored and read again keeps exactly its positive ones, in order |
| Goals.PaddedReads | internal/model/repo.go:464-478 | spaces around a stored number make no difference |
| Goals.GoalsKeptIff | internal/model/repo.go:464-486 | a list comes back unchanged exactly when all its numbers are positive |
| Goals.ReadGoalsSurvive | internal/model/repo.go:464-486 | what was read from a column is stored and read again unchanged |
| Store.ApplyCounters | internal/model/export.go:489-528 | updates or inserts each counter, refuses a repeated external id, notes every row id, counts each counter once |
| Store.ApplyActions | internal/model/export.go:656-687 | updates the matching destination's name or inserts, counting each once |
| Store.Db.Import | internal/model/export.go:276-707 | on success the state is `Imported` and created plus updated are the listed items, created the rows each table gained; on any refusal the database is unchanged |
| Store.Db.Export | internal/model/export.go:178-273 | for a positive id exactly the counter with that row id, and nothing exactly when there is none; else all counters in row order; each with its columns, its token only if asked for, and exactly its own rules and reports in row order; schedule and destinations only for everything |
| Exports.ExportShows | internal/model/export.go:178-273 | the same of the function the method computes, over the tables |
| Store.Db.DeleteCounter | internal/model/repo.go:81-105 | the statements, in order, leave `Deleted` of the old state |
| Store.CountsKept | internal/model/export.go:281-459 | validation does not change how many items are listed |
| Stored.TriggersStored | internal/model/export.go:548-634 | after an import in either mode each trigger listed, or when merging each listed last under its counter and name, has a row under the row of its counter with the columns listed, after defaults, enabled exactly when the payload does not say false; when replacing there are no others and they are in their order |
| Stored.ReportsStored | internal/model/export.go:548-654 | the same of each report, with the goals listed that are positive |
| Stored.CountersStored | internal/model/export.go:489-528 | each counter, or when merging each listed last under its id, has a row with the name, interval and, unless empty when merging, token listed; a merged one keeps its row id and cursor |
| Destinations.ActionsReplaced | internal/model/export.go:461-687 | a replacing import leaves exactly the destinations it lists, field by field, in order, under fresh ids; when it lists none, those that were there |
| Destinations.ActionsMerged | internal/model/export.go:656-687 | a merging import keeps every destination in its place and adds one for a listed destination only where none is the same place: the same chat number or target, the same target, the same address |
| Destinations.SettingsStored | internal/model/export.go:461-488 | the schedule named is set and no other setting; replacing leaves no cooldown, alert or snapshot, merging leaves them all |
| Destinations.IdsFresh | internal/model/db.go:15-44 | no import gives a row an id that its table gave out before |
| Replace.InsertUniqueIff | internal/model/export.go:516-521 | plain inserts are refused exactly when an external id repeats |
| Replace.ReplaceShows | internal/model/export.go:461-707 | a payload laid out as exports are always imports with replacement, and the database then exports exactly it |
| RoundTrip.ExportedNormal | internal/model/export.go:179-273 | what a well-formed database exports passes validation unchanged |
| RoundTrip.ReplaceRoundTrip | internal/model/export.go:179-707 | exporting a well-formed database and importing the result with replacement anywhere gives a database with the same export, up to the target's schedule and destinations where the exported one has none |
| RoundTrip.SameExportIff | internal/model/export.go:179-707 | the export comes back identical exactly when the exported database, or else not the target, has a schedule, and likewise destinations |
| Accepted.AppliedIff | internal/model/export.go:461-707 | a valid payload is applied exactly when, replacing, no external id repeats, and each flat rule names a counter of the payload or, merging, of the database |
| Merge.MergeUpserts | internal/model/export.go:491-654 | after a merge counters, triggers and reports are the old tables with every listed key upserted, and history is untouched |
| Merge.OverwriteMeans | internal/model/export.go:548-634 | a row that is not listed stays as it is; a listed key has the value listed last, in its old row if it had one |
| Merge.LastNameTaken | internal/model/export.go:493-510 | a counter takes the name and interval listed last and keeps its cursor |
| Merge.LastTokenTaken | internal/model/export.go:498-501 | a counter takes the last token listed that is not empty, and keeps its own when there is none |
| Merge.DestinationsMerge | internal/model/export.go:656-687 | merged destinations keep their place, every listed one has a row, and a row has the last name listed for it |
| MergeTwice.MergeIdempotent | internal/model/export.go:276-707 | merging the same payload again leaves the whole database as it is |
| MergeTwice.OwnExportMergesToNothing | internal/model/export.go:179-707 | merging its own export, with or without tokens, leaves a well-formed database with unique rule names as it is |
| Integrity.ImportIntegral | internal/model/export.go:461-707 | in both modes every rule, alert and snapshot still points at a counter and every cooldown at a trigger |
| Integrity.DeleteIntegral | internal/model/repo.go:81-105 | so it does after deleting a counter, and nothing points at the deleted one |
| Integrity.DeletesExactly | internal/model/repo.go:81-105 | exactly the rows scoped to the counter go, and the cooldowns of its rules |
| Integrity.KeptInOrder | internal/model/repo.go:91-103 | the rows that stay keep their order |
| Upkeep.ImportWellFormed | internal/model/export.go:276-707 | an import in either mode keeps every row in the importer's normal form |
| Upkeep.ImportInOrder | internal/model/export.go:461-707 | an import in either mode keeps the ids of every table ascending and below the next one |
| Upkeep.SaveTriggerIntegralIff | internal/model/repo.go:119-136 | a saved rule has its counter exactly when that is still there |
| Upkeep.DropIntegralIff | internal/model/repo.go:184-190 | dropping a rule leaves no orphan exactly when it has no cooldown |
| Saving.BotRuleNormal | internal/bot/pending.go:236-326 | a rule saved from the chat passes the import's checks as it is stored |
| Saving.ApiRuleNormalIff | internal/api/server.go:241-320 | a rule saved over REST passes them exactly when its name is not blank, its floor not negative and its baseline at most twelve weeks deep |
| Saving.ParseGoalList | internal/bot/pending.go:518-536 | the loop reads the list that `GoalsFrom` describes |
| Saving.ReadOptions | internal/bot/pending.go:426-486 | the loop reads the labelled fields of a report as `OptionsFrom` describes |
| Saving.BotReportNormal | internal/bot/pending.go:407-515 | a report saved from the chat passes the checks and is listed as it was saved, goals included |
| Saving.BotCounterNormal | internal/bot/pending.go:97-137 | a counter saved from the chat is in normal form |
| Saving.ApiCounterNormalIff | internal/api/server.go:150-182 | a counter saved over REST is exactly when its id is a trimmed number |
| Saving.BotDestinationNormal | internal/bot/pending.go:551-595 | a destination saved from the chat is in normal form |
| Typed.TypedRuleIff | internal/bot/pending.go:236-326 | a rule typed field by field, with any spaces, its numbers left out or blank, and a scope anywhere among them, is saved exactly when each field is in range, and then with just these values in their places and the defaults for what is left out |
| Typed.TypedReportIff | internal/bot/pending.go:407-515 | the same of a report with its scope, goals, grouping and period, by whichever of its labels |
| Typed.GoalsRead | internal/bot/pending.go:518-536 | a list of goals, with or without labels, spaces and blank parts, is read as the goals it names in order, exactly when there are some and all are positive |
| Typed.LabelsAgree | internal/bot/pending.go:224-234 | the labels a report reads are exactly those, besides the scopes, that a pattern before them does not take in |
| Typed.BlankPart | internal/bot/pending.go:426-436 | blank parts of a report are passed over |
| Typed.TypedCounterIff | internal/bot/pending.go:97-137 | a typed counter is saved exactly when its id and interval read, and then with this name, id, token and interval |
| Typed.TypedDestinationIff | internal/bot/pending.go:551-595 | a typed destination is saved exactly when its type is known and its target fits it, and then with just this target |
| Typed.RestRuleIff | internal/api/server.go:241-320 | a rule sent over REST is saved exactly when name, counter, metric, direction, threshold and filter pass; what is left out is a drop, a floor of 10, four weeks and three hours, and the rest is as sent |
| Typed.RestCounterIff | internal/api/server.go:150-182 | a counter sent over REST is saved exactly when name, id and token are given, with these and hourly if no interval is |
| Typed.RestRuleBack | internal/api/server.go:241-320 | a rule in normal form sent over REST as it is listed is saved as it is, enabled |
| Changes.SavedRuleShown | internal/model/repo.go:119-162 | a rule saved from the chat or over REST is shown by an export last under its counter, just as saved, and nothing else changes |
| Changes.SavedReportShown | internal/model/repo.go:488-532 | likewise a report |
| Changes.SavedCounterShown | internal/model/repo.go:24-62 | a saved counter is shown last, without rules; where its external id is taken nothing changes |
| Changes.SavedDestinationShown | internal/model/repo.go:194-232 | a saved destination is shown last |
| Changes.DropsExactly | internal/model/repo.go:184-242 | dropping a rule, a report or a destination removes its row and touches nothing else |
| Changes.AlertRemembered | internal/model/repo.go:304-316 | a recorded alert sets its rule's cooldown and no other |
| Changes.ScheduleShown | internal/model/repo.go:405-428 | an export shows the schedule set last that reads |
| Runs.StepWellFormedIff | internal/model/repo.go:24-190 | each operation keeps every row in normal form exactly when, if it saves over REST, that fits |
| Runs.StepIntegralIff | internal/model/repo.go:81-310 | each operation keeps every reference with its owner exactly when a saved rule's counter is still there, a dropped rule has no cooldown, and an alert's rule is still there |
| Runs.RunsSound | internal/model/export.go:276-707 | over any run of imports, deletions, saved and dropped rows and recorded alerts from a fresh database tables stay in the order of their ids, rows in normal form if every step fitted, and references whole if every step was tidy |
| Runs.RunsRoundTrip | internal/model/export.go:179-707 | so the export of any database a run of fitting steps reaches can be imported with replacement anywhere and is what is then exported |
| Portable.ExportAcceptedIff | internal/model/export.go:179-707 | for every database the export is accepted with replacement exactly when it has settings, every id reads as a number and none differ in white space only, and every rule, destination and the schedule would pass the checks |
| Portable.RestRuleBlocksExport | internal/api/server.go:276-278 | one rule of thirteen weeks saved over REST, and no import accepts the export |
| Portable.RuleOrphaned | internal/model/repo.go:81-136 | a rule saved after its counter was deleted points at nothing |
| Portable.CooldownOrphaned | internal/model/repo.go:184-190 | a rule dropped after it alerted leaves its cooldown |

## Left out

- HTTP, Telegram and VK Teams transports, long polling, retries, proxies: network plumbing.
- The SQLite driver, SQL text and schema migrations: the tables are state.
- JSON and YAML decoding, configuration, REST handlers other than those that save a counter or a rule, report cards, labels, menus and message wording.
- Floating-point rounding and not-a-number figures: figures are exact reals.
- Daylight saving: the zone offset is fixed, so `Baseline.SameSlot` speaks of such a zone only.
- Texts with invalid UTF-8, which Go would read as replacement runes.
- `ParseSchedule` and the text form of schedules; durations are numbers.
- How metric and period names are read (`ResolveMetric`, `NormalizePeriod`): predicates with the properties named above.
- Switching a saved rule on or off (internal/model/repo.go:176-182): one column of one row.
- Two first polls of a counter without a cursor racing each other, and changes of the schedule during a day.
- Series.DeriveIntervals: takes the start as a moment; reading it from the date text, and the empty result for a date that cannot be read, are not modelled.
- Settings.Validate: works on a copy of the payload; in the code a refused import leaves the caller's payload partly filled with defaults.
- Store.Db.Import: the warnings about counters without a token, the wording of refusals, and failures of the database itself are not modelled.
- Store.ApplyActions: when several stored destinations match a listed one, the first row is taken; the query leaves the choice to the database.
- RuleTables.ApplyRules: one loop serves triggers and reports, nested and flat, in the order of the code's four loops; of two stored rules with the same counter and name the first is updated, a choice the query leaves to the database.
- Integrity.DeleteIntegral: an alert's link to its trigger is not followed.
- Evaluator.Evaluator.EvaluateTrigger: failing reads of the cooldown table and fire records that cannot be saved are not modelled; a delivery error is logged by the code and counts as sent.
- Reconcile.Poller.Reconcile: a failing list of counters, which leaves everything as it is, and cancellation of the parent context are not modelled.
- Schedule.ReportScheduler.RunTick: a stored last run that cannot be read ends the tick in the code; the model reads it without fail.
