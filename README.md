# Polley, modelled in Dafny

Polley is a small polling web application: users create polls, vote on them
and browse public polls, with a light/dark theme and a choice of colour
themes. Vote casting, duplicate detection and result aggregation happen in
database functions whose bodies are not part of the repository. This project
models the logic that does live in the TypeScript code:

- `getClientIP`, which picks the identity of an anonymous voter from the request headers (`ClientIp`, with JavaScript's `split`, `trim` and `join` in `JsStrings`);
- the `POST` and `GET` handlers of `/api/polls`: the authentication gate, the option-count checks, the defaults and the status codes (`PollsApi`);
- the demo page's one-vote-per-reset tally (`DemoPage`);
- the poll card's percentages, winner highlight, status badge, click rule, footer and voting state (`PollCard`);
- the polls page's status filter, counters and sections (`PollsPage`);
- the new-poll editor's bounded options list and its `saving` latch (`NewPollPage`);
- the theme provider's mode/colour state and its coercion of incompatible pairs (`ThemeProvider`);
- the colour switcher's filtered, cyclic palette (`ThemeSwitcher`);
- the `cn` class-name helper (`ClassNames`).

Shared types are in `PollTypes`, and `Option` with JavaScript string truthiness is in `Wrappers`.

Pure code is modelled as datatypes, functions and lemmas. React state cells
that handlers replace are modelled as classes whose methods change them:

- `DemoPage.Demo`;
- `PollCard.CardState`;
- `PollsPage.PollsPageState`;
- `NewPollPage.Editor`;
- `ThemeProvider.Provider`;
- `ThemeSwitcher.Switcher`.

The following are parameters of the model:

- the authentication lookup;
- the database calls;
- the parsed request body;
- `localStorage`;
- the system colour-scheme preference.

The `POST` handler's success response carries no explicit status, so it is
200; the model follows the code.

## Model

| member | source | states |
|---|---|---|
| JsStrings.SkipFrom | src/lib/utils/ip.ts:11 | the scan for the end of the leading whitespace stops at the first character from the position on that is not whitespace, or at the end |
| JsStrings.BackFrom | src/lib/utils/ip.ts:11 | the scan for the start of the trailing whitespace stops just after the last character before the position that is not whitespace, or at 0 |
| JsStrings.TrimStart | src/lib/utils/ip.ts:11 | the result is a suffix of the input, everything dropped is in the trimmed set, and the result does not start with a character of that set, so the suffix is the longest such one |
| JsStrings.TrimEnd | src/lib/utils/ip.ts:11 | the result is a prefix of the input, everything dropped is in the trimmed set, and the result does not end with a character of that set |
| JsStrings.TrimIsSlice | src/lib/utils/ip.ts:11 | the trim is the slice of the input that starts where the leading run of whitespace ends |
| JsStrings.TrimDropsTrailing | src/lib/utils/ip.ts:11 | everything after the trim in the input is whitespace |
| JsStrings.TrimIsMiddlePiece | src/lib/utils/ip.ts:11 | `trim()` returns a contiguous piece of its input and drops only whitespace on either side of it |
| JsStrings.TrimEnds | src/lib/utils/ip.ts:11 | a trimmed string has no whitespace at either end |
| JsStrings.TrimKeepsAbsent | src/lib/utils/ip.ts:11 | trimming introduces no character: one absent from the input is absent from the result |
| JsStrings.TrimOfTrimmed | src/lib/utils/ip.ts:11 | trimming a string with no whitespace at either end leaves it unchanged |
| JsStrings.Split | src/lib/utils/ip.ts:11 | `split(',')` gives at least one piece, and no piece contains the separator |
| JsStrings.JoinSplit | src/lib/utils/ip.ts:11 | joining the pieces of a split with the separator gives back the original string |
| JsStrings.SplitJoin | src/lib/utils.ts:5 | splitting a join of non-empty, separator-free pieces gives back the pieces |
| JsStrings.IndexOf | src/lib/utils/ip.ts:11 | the position of the first separator, or the length when there is none |
| JsStrings.SplitFirstPiece | src/lib/utils/ip.ts:11-12 | the first piece of a split is the text before the first separator |
| JsStrings.JoinAppend | src/lib/utils.ts:5 | joining two non-empty lists of pieces equals joining each and putting one separator between |
| JsStrings.JoinEmptyIff | src/lib/utils.ts:5 | a join of non-empty pieces is empty exactly when there are no pieces |
| JsStrings.SplitWithoutSep | src/lib/utils/ip.ts:11 | a string without the separator splits into itself alone |
| JsStrings.SplitAfterPiece | src/lib/utils/ip.ts:11 | a separator-free piece followed by the separator splits off as the first piece |
| ClientIp.Get | src/lib/utils/ip.ts:5-7 | `headers.get` returns the value exactly when the header is present, and null otherwise |
| ClientIp.TrimAll | src/lib/utils/ip.ts:11 | `map(ip => ip.trim())` keeps the length and trims each piece |
| ClientIp.ForwardedForPiece | src/lib/utils/ip.ts:10-12 | with a non-empty x-forwarded-for the identity is the first comma-separated piece, trimmed |
| ClientIp.ForwardedForWins | src/lib/utils/ip.ts:10-13 | a non-empty x-forwarded-for decides the identity, whatever the other headers say: its text before the first comma, trimmed |
| ClientIp.ForwardedForShape | src/lib/utils/ip.ts:11-12 | an identity from x-forwarded-for contains no comma and has no whitespace at either end |
| ClientIp.LeadingCommaGivesEmpty | src/lib/utils/ip.ts:11-12 | the header ",1.2.3.4" gives the empty identity |
| ClientIp.CfConnectingIpBeatsRealIp | src/lib/utils/ip.ts:6-17 | without a truthy x-forwarded-for, a non-empty cf-connecting-ip is returned verbatim even when x-real-ip is set |
| ClientIp.RealIpVerbatim | src/lib/utils/ip.ts:17 | with only x-real-ip truthy, its value is returned verbatim |
| ClientIp.UnknownFallback | src/lib/utils/ip.ts:21 | the identity is "unknown" when none of the three headers is truthy, and any other identity comes from a truthy header |
| ClientIp.OnlyThreeHeadersMatter | src/lib/utils/ip.ts:3-22 | two requests that agree on the three headers get the same identity |
| ClientIp.HeaderlessIsUnknown | src/lib/utils/ip.ts:21 | a request without the three headers resolves to "unknown" |
| ClassNames.Truthies | src/lib/utils.ts:5 | `filter(Boolean)` keeps only non-empty strings and never grows the list |
| ClassNames.TruthiesMembers | src/lib/utils.ts:5 | a string survives the filter exactly when it is a non-empty argument |
| ClassNames.TruthiesAppend | src/lib/utils.ts:5 | the filter distributes over concatenation of the argument lists, keeping order |
| ClassNames.CnEmptyIff | src/lib/utils.ts:5 | `cn` gives "" exactly when no argument is truthy, so `undefined`, `null`, `false` and "" contribute nothing |
| ClassNames.CnSingle | src/lib/utils.ts:2-6 | `cn(s)` is `s` for a non-empty string and "" for a falsy argument |
| ClassNames.CnAppend | src/lib/utils.ts:5 | `cn(a…, b…)` is `cn(a…)` and `cn(b…)` joined by one space when both are non-empty, and otherwise whichever is non-empty |
| ClassNames.CnSplits | src/lib/utils.ts:5 | when no class name contains a space and at least one argument is truthy, splitting the result at spaces gives back the truthy arguments in argument order |
| PollsApi.Arguments | src/app/api/polls/route.ts:39-47 | the create call receives the title and options unchanged; a falsy description becomes null; absent flags default to public, single-choice and no auth, and present flags pass through |
| PollsApi.Created | src/app/api/polls/route.ts:49-57 | a create error gives 500 "Failed to create poll", and success gives 200 with `{pollId}` |
| PollsApi.Gate | src/app/api/polls/route.ts:11-36 | a request stops before the create call exactly when it is unauthenticated, its body is unreadable, or it fails one of the option-count checks; an unauthenticated request stops with 401, and an authenticated one whose body is unreadable or null stops with 500 "Internal server error" |
| PollsApi.Post | src/app/api/polls/route.ts:6-65 | 401 exactly when auth failed, whatever the body; 500 "Internal server error" for an authenticated request whose body cannot be read or is null, from the catch; 400 "Title and at least 2 options are required" exactly for a missing title or fewer than 2 options; 400 "Maximum 10 options allowed" exactly for more than 10 options, checked after the minimum; 200 only for a valid request; a valid request without an expiry reaches the create call with the defaulted arguments |
| PollsApi.PostRejectsEveryExpiry | src/app/api/polls/route.ts:46-64 | as written, any valid request that carries an expiry gets 500 |
| PollsApi.PostRejectsExpiryExample | src/app/api/polls/route.ts:46-64 | a concrete valid request with an expiry string gets 500 |
| PollsApi.IntendedExpiry | src/app/api/polls/route.ts:46 | the expiry forwarded is the given one when truthy, and null otherwise |
| PollsApi.PostIntended | src/app/api/polls/route.ts:6-65 | the corrected handler gives the same early answers and sends every valid request, expiry included, to the create call |
| PollsApi.PostIntendedAgrees | src/app/api/polls/route.ts:39-57 | without an expiry the corrected handler equals the one as written, and a valid request whose create call succeeds gets 200 |
| PollsApi.UnauthorizedIgnoresBody | src/app/api/polls/route.ts:11-18 | an unauthenticated request gets 401 whatever its body |
| PollsApi.Get | src/app/api/polls/route.ts:67-93 | page and page size default to 0 and 20; a fetch error gives 500 "Failed to fetch polls"; otherwise 200 with the polls, or [] when there are none |
| PollsApi.GetDefaults | src/app/api/polls/route.ts:71-75 | without query parameters the list is fetched with page 0 and page size 20 |
| PollTypes.Occurrences | src/app/polls/demo/page.tsx:35-39 | the number of options with an id is at most the number of options, and 0 exactly when no option has that id |
| PollTypes.UniqueOccursOnce | src/app/polls/demo/page.tsx:12-18 | with distinct ids, each option's id occurs exactly once |
| DemoPage.InitialPollConsistent | src/app/polls/demo/page.tsx:8-24 | the initial data's total, 358, equals 145+89+67+34+23, and its option ids are distinct |
| DemoPage.CountVote | src/app/polls/demo/page.tsx:35-39 | the map keeps the options, their order, ids and texts, and adds one vote to each option with the chosen id and none elsewhere |
| DemoPage.CountVoteSum | src/app/polls/demo/page.tsx:35-39 | the options' vote sum grows by the number of options carrying the chosen id |
| DemoPage.ApplyVote | src/app/polls/demo/page.tsx:33-41 | the update adds one to the total, recounts the options, and leaves every other field unchanged |
| DemoPage.VoteKeepsTallyConsistent | src/app/polls/demo/page.tsx:33-41 | a vote for an existing option keeps total = sum of option votes, and keeps the ids distinct |
| DemoPage.VoteForMissingIdBreaksTally | src/app/polls/demo/page.tsx:35-40 | a vote for an id no option has still raises the total, so the tally stops matching |
| DemoPage.AtMostOneVoteBetweenResets | src/app/polls/demo/page.tsx:30-49 | between resets the total is 358 plus at most one, and the tally stays consistent when the vote was for a demo option |
| DemoPage.Demo.constructor | src/app/polls/demo/page.tsx:27-28 | the page starts with the initial data and no vote |
| DemoPage.Demo.HandleVote | src/app/polls/demo/page.tsx:30-44 | once voted a click changes nothing; otherwise the vote is applied and the latch is set |
| DemoPage.Demo.ResetDemo | src/app/polls/demo/page.tsx:46-49 | a reset restores the initial data and clears the page's own latch; the card's voted flag is not part of the page's state |
| PollCard.OptionPercentage | src/components/poll-card.tsx:74-76 | 0 for an empty poll; otherwise the share in percent, times the total, equals votes × 100; between 0 and 100 when 0 ≤ votes ≤ total; exactly 100 for the only voted-for option |
| PollCard.PercentageSumScaled | src/components/poll-card.tsx:74-76 | the percentages of all options, times the total, add up to the options' vote sum × 100 |
| PollCard.PercentagesSumTo100 | src/components/poll-card.tsx:74-76 | on a consistent poll with votes, the percentages add up to exactly 100 |
| PollCard.MaxVotes | src/components/poll-card.tsx:78 | the maximum is the vote count of some option and no option has more |
| PollCard.WinningIff | src/components/poll-card.tsx:189 | an option is highlighted exactly when no option has more votes and it has at least one |
| PollCard.NoWinnerWithoutVotes | src/components/poll-card.tsx:189 | a poll without votes highlights no option |
| PollCard.TiesAllWin | src/components/poll-card.tsx:189 | options tied with a highlighted option are highlighted too |
| PollCard.StatusColorsDistinct | src/components/poll-card.tsx:65-72 | different statuses get different badge classes |
| PollCard.FooterFor | src/components/poll-card.tsx:277-301 | without the vote button the footer is the details link; with it, "Vote recorded!" exactly when voted; otherwise "Voting closed" exactly for a closed poll and "Not active" exactly for a draft |
| PollCard.FooterBlankIffClickable | src/components/poll-card.tsx:204-301 | on a voting card the footer is blank exactly when the options can be clicked |
| PollCard.CardState.constructor | src/components/poll-card.tsx:44-46 | the card starts with nothing selected, not voting and not voted |
| PollCard.CardState.BeginVote | src/components/poll-card.tsx:48-52 | a vote starts exactly when the card is neither voted nor voting, and then selects the option and marks voting; otherwise nothing changes |
| PollCard.CardState.FinishVote | src/components/poll-card.tsx:57-62 | after the delay `onVote` is called once with the selected option when given, the card is voted and not voting |
| PollCard.CardState.ClickOption | src/components/poll-card.tsx:204 | a click starts a vote exactly when the vote button is shown, the poll is active, the card has not voted and no vote is running |
| PollsPage.FilterPolls | src/app/polls/page.tsx:40-43 | the filtered list holds exactly the loaded polls the tab keeps |
| PollsPage.FilterMultiplicity | src/app/polls/page.tsx:40-43 | a poll the tab keeps occurs in the filtered list exactly as often as in the loaded list, and one it drops never occurs |
| PollsPage.FilterIsSubsequence | src/app/polls/page.tsx:40-43 | the filtered list keeps the loaded order |
| PollsPage.FilterAllIsIdentity | src/app/polls/page.tsx:41 | the 'all' tab shows every loaded poll, in order |
| PollsPage.FilterLengthCounts | src/app/polls/page.tsx:40-45 | the 'active' and 'closed' filters keep as many polls as have that status, counted one poll at a time |
| PollsPage.ActivePolls | src/app/polls/page.tsx:45 | the active counter equals the number of loaded polls whose status is active; so it is at most the number of polls, and 0 exactly when no poll is active |
| PollsPage.ActivePollsAll | src/app/polls/page.tsx:45 | the counter equals the number of polls exactly when every poll is active |
| PollsPage.SumTotalsFromShift | src/app/polls/page.tsx:46 | the reduce from any start value is that value plus the total from 0 |
| PollsPage.TotalVotesAppend | src/app/polls/page.tsx:46 | the votes counter adds up across any split of the loaded list, and the filter is not an input to it |
| PollsPage.ShownSections | src/app/polls/page.tsx:154-174 | the empty state and the grid never show together; the grid shows exactly when loading is done, there is no error and the filtered list is non-empty; the empty state shows exactly when the filtered list is empty instead |
| PollsPage.PollsPageState.constructor | src/app/polls/page.tsx:11-14 | the page starts with no polls, loading, no error and the 'active' tab |
| PollsPage.PollsPageState.SetFilter | src/app/polls/page.tsx:14 | a tab click changes the filter and nothing else |
| PollsPage.PollsPageState.Rendered | src/app/polls/page.tsx:154-186 | the grid shows exactly when loading is over, there is no error and some loaded poll passes the selected tab; the empty state shows exactly when loading is over, there is no error and no loaded poll passes it |
| PollsPage.EmptyMessagesDistinct | src/app/polls/page.tsx:163-165 | each tab's empty state has its own message: a fixed text for 'all', and "No active polls found." and "No closed polls found." from the tab's value |
| PollsPage.InitialRenderIsLoading | src/app/polls/page.tsx:12-14 | the first render shows only the loading section |
| NewPollPage.Appended | src/app/polls/new/page.tsx:28 | Add keeps the options and appends one empty option |
| NewPollPage.Replaced | src/app/polls/new/page.tsx:37-39 | an edit replaces only the entry at the index and keeps the length |
| NewPollPage.WithoutIndexFromSplices | src/app/polls/new/page.tsx:43 | the index filter drops exactly the entry at the index, if it is in range |
| NewPollPage.RemovedSplices | src/app/polls/new/page.tsx:43 | Remove deletes exactly the entry at the index, keeps the order of the rest, and removes nothing for an index out of range |
| NewPollPage.GuardsKeepBounds | src/app/polls/new/page.tsx:28-44 | the enabled operations keep the number of options within [2, 10] |
| NewPollPage.Editor.constructor | src/app/polls/new/page.tsx:9-10 | the form opens with two empty options and not saving |
| NewPollPage.Editor.AddOption | src/app/polls/new/page.tsx:28-29 | Add appends "" exactly when fewer than 10 options are shown, and keeps the bound |
| NewPollPage.Editor.EditOption | src/app/polls/new/page.tsx:37-39 | an edit replaces the entry at the index and keeps the bound |
| NewPollPage.Editor.RemoveOption | src/app/polls/new/page.tsx:43-44 | Remove deletes the entry at the index exactly when more than 2 options are shown, and keeps the bound |
| NewPollPage.Editor.ClickCreate | src/app/polls/new/page.tsx:57 | the create button acts only when not saving, and `saving` never goes back to false |
| ThemeProvider.Coerced | src/components/theme-provider.tsx:48-58 | the coerced colour is always compatible with the mode, a compatible colour is kept, and an incompatible one becomes blue |
| ThemeProvider.CoercedIdempotent | src/components/theme-provider.tsx:48-58 | coercing twice is coercing once |
| ThemeProvider.Flipped | src/components/theme-provider.tsx:70 | `toggleTheme` always switches the mode |
| ThemeProvider.ToggleColorIsCoerced | src/components/theme-provider.tsx:73-77 | the toggle's colour rule is the apply effect's coercion for the target mode |
| ThemeProvider.Provider.constructor | src/components/theme-provider.tsx:19-20 | the provider starts in light mode with the blue colour |
| ThemeProvider.Provider.Load | src/components/theme-provider.tsx:22-37 | a saved mode wins over the system preference, and a saved colour replaces the current one when present |
| ThemeProvider.Provider.Apply | src/components/theme-provider.tsx:39-67 | the root carries exactly one of light/dark, equal to the mode; the colour becomes its coercion, so the pair is compatible, and a compatible colour is kept; the attribute shows the coerced colour; storage gets the mode and the colour the effect started with |
| ThemeProvider.Provider.ToggleTheme | src/components/theme-provider.tsx:69-81 | the mode flips, the colour follows the toggle rule, and the new pair is never light/black or dark/white |
| ThemeProvider.Provider.SetColorTheme | src/components/theme-provider.tsx:20 | the context's setter changes the colour only |
| ThemeProvider.Provider.SetTheme | src/components/theme-provider.tsx:19 | the context's setter changes the mode only |
| ThemeProvider.MountAndApply | src/components/theme-provider.tsx:22-67 | after loading and applying until nothing changes, the pair is compatible, shown on the root and saved as shown |
| ThemeSwitcher.FilterOfferedMembers | src/components/theme-switcher.tsx:22-26 | the filter keeps exactly the palette colours its callback accepts |
| ThemeSwitcher.AvailableLight | src/components/theme-switcher.tsx:7-26 | in light mode the switcher offers blue, green, purple, orange, red and black |
| ThemeSwitcher.AvailableDark | src/components/theme-switcher.tsx:7-26 | in dark mode the switcher offers blue, green, purple, orange, red and white |
| ThemeSwitcher.AvailableThemesValue | src/components/theme-switcher.tsx:7-26 | the available colours are the palette in order without white in light mode and without black in dark mode, six in all |
| ThemeSwitcher.AvailableValues | src/components/theme-switcher.tsx:22-26 | the available colours, position by position |
| ThemeSwitcher.SixDistinct | src/components/theme-switcher.tsx:7-15 | a six-entry list that starts with the palette's first five colours and ends in black or white holds no colour twice |
| ThemeSwitcher.AvailableDistinct | src/components/theme-switcher.tsx:7-26 | no colour is available twice |
| ThemeSwitcher.OfferedPosition | src/components/theme-switcher.tsx:22-26 | every colour the callback accepts sits in the available list |
| ThemeSwitcher.FindIndexFirst | src/components/theme-switcher.tsx:30 | `findIndex` is -1 exactly when the colour is absent, and otherwise the colour's first position |
| ThemeSwitcher.IndexIn | src/components/theme-switcher.tsx:30-31 | the stored index is always a valid position |
| ThemeSwitcher.IndexInFinds | src/components/theme-switcher.tsx:30-31 | the stored index points at the current colour when it is available, and is 0 when it is not |
| ThemeSwitcher.IndexInOfEntry | src/components/theme-switcher.tsx:30-31 | in a list without repeats, an entry's colour is found at that entry's position |
| ThemeSwitcher.NextIndex | src/components/theme-switcher.tsx:35 | the next index is always valid: one more, or 0 after the last |
| ThemeSwitcher.NextInOfEntry | src/components/theme-switcher.tsx:35-45 | a click from an entry's colour selects the entry one place on |
| ThemeSwitcher.RotatedValue | src/components/theme-switcher.tsx:35 | within one lap, k steps of the next index from i reach i + k, wrapped once |
| ThemeSwitcher.ColorAfterIndex | src/components/theme-switcher.tsx:35-45 | k clicks from the colour at i select the colour k places round the list |
| ThemeSwitcher.ReachesEntry | src/components/theme-switcher.tsx:35-45 | from any entry, every entry comes up within one lap of clicks |
| ThemeSwitcher.RotationReturns | src/components/theme-switcher.tsx:35-45 | one lap of clicks comes back to the starting colour |
| ThemeSwitcher.RotationVisitsAll | src/components/theme-switcher.tsx:35-45 | one lap of clicks visits every colour of the list and returns to the start |
| ThemeSwitcher.AvailableRotation | src/components/theme-switcher.tsx:22-45 | six clicks from any offered colour visit every offered colour and come back |
| ThemeSwitcher.SwitcherOffersRejectedColour | src/components/theme-switcher.tsx:22-45 | as written, a click from red selects black in light mode and white in dark mode; the provider rejects that colour and turns it into blue |
| ThemeSwitcher.IntendedLight | src/components/theme-switcher.tsx:22-26 | the corrected filter offers blue, green, purple, orange, red and white in light mode |
| ThemeSwitcher.IntendedDark | src/components/theme-switcher.tsx:22-26 | the corrected filter offers blue, green, purple, orange, red and black in dark mode |
| ThemeSwitcher.IntendedThemesValue | src/components/theme-switcher.tsx:22-26 | the corrected filter keeps the palette in order without black in light mode and without white in dark mode |
| ThemeSwitcher.IntendedValues | src/components/theme-switcher.tsx:22-26 | the corrected list, position by position |
| ThemeSwitcher.IntendedPosition | src/components/theme-switcher.tsx:22-26 | every colour the provider accepts sits in the corrected list |
| ThemeSwitcher.IntendedCompatibleDistinct | src/components/theme-switcher.tsx:22-26 | the corrected list holds each colour the provider accepts, only those, and each once |
| ThemeSwitcher.IntendedNextCompatible | src/components/theme-switcher.tsx:42-45 | with the corrected filter every click selects a colour the provider accepts, which the apply effect keeps |
| ThemeSwitcher.IntendedRotation | src/components/theme-switcher.tsx:35-45 | with the corrected filter, six clicks from any accepted colour visit every accepted colour and come back |
| ThemeSwitcher.Switcher.constructor | src/components/theme-switcher.tsx:19 | the index starts at 0 |
| ThemeSwitcher.Switcher.Sync | src/components/theme-switcher.tsx:29-32 | the effect stores the colour's position among the available colours, or 0 when it is absent |
| ThemeSwitcher.Switcher.HandleColorChange | src/components/theme-switcher.tsx:35-45 | the click sets the colour to the available entry after the current index, which the filter offers, and changes nothing else |

## Left out

- Network, database and authentication calls are inputs: `supabase.auth.getUser`, the `create_poll_with_options` RPC and `getPublicPollsServer`. Their own behaviour is not part of this model.
- `request.json()` is an input. A body that cannot be parsed is `None`, and it gets the 500 that the handler's `catch` produces.
- PollsApi.Get: `parseInt` is not modelled. The query parameters arrive as integers or as absent.
- The `console.error` logging is not modelled, since it has no effect on responses.
- The `setTimeout` delay in the poll card's `handleVote` is not modelled. The vote is two atomic steps, `BeginVote` and `FinishVote`.
- React's batching of state updates, effect scheduling and stale closures are not modelled. Each handler is one atomic state change.
- PollCard.MaxVotes requires at least one option, because `Math.max()` of no values is `-Infinity`.
- PollCard.OptionPercentage is an exact rational. The display's `toFixed(1)` rounding and IEEE floating point are not modelled.
- The default branch of `getStatusColor` is left out, because the status type has no other value.
- The donut drawing and the button's title are not modelled: segment angles, trigonometry and SVG paths.
- Loading polls (`loadPolls`) is I/O. The loaded list, the loading flag and the error are the polls page's state.
- The polls page markup is not modelled beyond which sections are shown and the empty-state message.
- `localStorage` holds already-parsed values. The unchecked casts of arbitrary stored strings to a mode or colour are not modelled.
- The `try`/`catch` around the storage writes is not modelled. A failing write is ignored, so it leaves the stored values as they were.
- The palette entries' `name` and `value` are the same word in every entry, so an entry is modelled by its colour. The swatch colours the switcher draws are not modelled.
- The demo page and its poll card are modelled apart. The card is not remounted by `resetDemo` and keeps its own `hasVoted` (src/components/poll-card.tsx:46), so after a reset the page's latch is clear but the card takes no second click.
- JavaScript strings are sequences of UTF-16 code units. The model's strings are sequences of characters.
- `trim()` removes the whitespace characters listed in `JsStrings.JsWhitespace`.
- The new-poll page's question input is uncontrolled and its create button calls no service, so neither has state to model.

## Findings

| source | as written | input that shows it | evidently intended | confidence | as-written member | corrected member |
|---|---|---|---|---|---|---|
| src/app/api/polls/route.ts:46 | `body.expiresAt?.toISOString()` treats the parsed JSON field as a `Date`. JSON carries only strings, so any present expiry throws, and the `catch` answers 500. | An authenticated `POST` with title "Lunch?", options ["Pizza", "Soup"] and `expiresAt` "2025-01-01T00:00:00.000Z" | Valid polls with an expiry are created, with the expiry forwarded to the create call | not executed | PollsApi.PostRejectsEveryExpiry | PollsApi.PostIntended |
| src/components/theme-switcher.tsx:22-26 | The filter drops black in dark mode and white in light mode. That is the opposite of the provider, which rejects black in light mode and white in dark mode (src/components/theme-provider.tsx:48-55). | Light mode, current colour red: the click selects black, and the apply effect turns it into blue | The switcher offers exactly the colours the provider accepts in the current mode | not executed | ThemeSwitcher.SwitcherOffersRejectedColour | ThemeSwitcher.IntendedNextCompatible |
