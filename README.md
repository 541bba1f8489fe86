# Terminal-style blog front end, modelled in Dafny

The site is a static blog that looks like a chat with a command-line agent. Three browser
scripts sit at its core:

- **assets/js/agent.js** provides the command line.
  - A typed line is parsed into a command name and an argument.
  - `executeCommand` either navigates (`/home`, `/posts [--tag T | --category C]`,
    `/read <slug>`, `/about`), runs a client-side search over the post index (`/search <kw>`,
    or any line that does not start with `/`), shows the help overlay (`/help`), or prints an
    error line.
  - A search result panel replaces any panel already shown.
  - On the post listing, `applyFilters` hides the items that do not carry the `tag` or
    `category` given in the query string. It then reports the count and echoes the command.
  - All navigation is prefixed with the `base` derived from the stylesheet link.
- **assets/js/typing.js** runs the boot sequence.
  - It shows the spinner for 300 ms on a page already visited, or 800 ms on a first visit.
  - It then reveals the content at once, or types the greeting one character per 30 ms tick.
  - On a first visit it records the visit in `localStorage`, under `agent_typed_pages`.
- **assets/js/spinner.js** drives the braille spinner.
  - `start` shows it and sets an 80 ms interval that cycles ten frames; `stop` clears that
    interval and hides the spinner.
  - `start` does not clear an interval that is already running.

The modules follow the scripts:

- `Text`: string primitives with ECMAScript semantics: `trim`, `indexOf`, ASCII `toLowerCase`,
  and number-to-string. `trim` and `\s` use the ECMAScript white-space set, and `\S+` is its complement.
- `Command`: `parseCommand` and the pure dispatch of `executeCommand`.
- `Search`: the `performSearch` filter and the row rendering.
- `Terminal`: the `base` value, the content area and the page actions.
- `Filters`: `applyFilters`.
- `Visits`: `hasVisited` and `markVisited`.
- `Spinner`: the spinner.
- `Boot`: `runSequence` and `typeText`.

Pure code is modelled by functions and lemmas. Each script's mutable page state is a class whose
methods are proved against those functions. The browser's timers become methods that the event
loop calls: `Boot.Sequence.BusyElapsed`, `Boot.Sequence.TypeTick` and `Spinner.Spinner.Tick`.

The model keeps the code's behaviour in these cases:

- `start` leaks an interval when it is called twice.
- `/posts` prefers `--tag` over `--category`.
- With both filters given, `applyFilters` writes a status line about the tag but echoes the
  category.
- A `--tag` with nothing after it does not match, so `/posts --category c --tag` falls through to the
  category. `/posts --tag --category x` instead takes `--category` as the tag value, as the pattern
  `--tag\s+(\S+)` does.

## Model

| member | source | states |
|---|---|---|
| Text.Trim | assets/js/agent.js:38 | the result has no white space at either end and is no longer than the input |
| Text.TrimUnique | assets/js/agent.js:38 | when `s` is white space, then a span starting and ending with non-space, then white space, trimming yields exactly that span |
| Text.TrimAllSpace | assets/js/agent.js:38 | a line of only white space trims to the empty string |
| Text.TrimTrimmed | assets/js/agent.js:52 | trimming a string with no white space at either end gives it back unchanged (trim is idempotent) |
| Text.IndexOf | assets/js/agent.js:45 | -1 exactly when `sub` does not occur; otherwise an index where it occurs, with no earlier occurrence |
| Text.LowerKeepsBlank | assets/js/agent.js:47 | lower-casing keeps a leading `/` and neither adds nor removes blanks |
| Text.Lower | assets/js/agent.js:47 | `toLowerCase` keeps the length, leaves no capital letter, and changes only capitals |
| Text.LowerMapsCapitals | assets/js/agent.js:47 | each ASCII capital becomes its small letter, 32 code points further on |
| Text.LowerOfLower | assets/js/agent.js:51 | a string with no capital letter is its own lower case |
| Text.LowerIdempotent | assets/js/agent.js:212 | lower-casing twice equals lower-casing once |
| Text.NatToString | assets/js/agent.js:251 | a count is written as a non-empty run of decimal digits with no leading zero |
| Text.NatToStringValue | assets/js/agent.js:330 | the decimal text of a count reads back as that count |
| Command.ParseCommand | assets/js/agent.js:37-54 | a trimmed line that does not start with `/` is a `/search` whose argument is the whole line; otherwise the command is the lower-cased text before the first blank, or the whole line, and the argument is the trimmed rest |
| Command.ParseTrimmed | assets/js/agent.js:41-53 | the same split, stated for a line that is already trimmed |
| Command.SplitCommand | assets/js/agent.js:45-53 | a slash line splits at its first blank, or is all command when it has none |
| Command.SpaceIndex | assets/js/agent.js:45-46 | `indexOf(' ')` is -1 exactly when the line has no blank; otherwise it is the first blank |
| Command.ParseShape | assets/js/agent.js:37-54 | every parse has a command that starts with `/` and contains no blank, and an argument with no white space at either end |
| Command.ParseIgnoresSurroundingSpace | assets/js/agent.js:38 | white space around a line never changes its parse |
| Command.ParseNameAndArgument | assets/js/agent.js:45-53 | round trip: `"/" + name + " " + arg` parses back to the lower-cased name and `arg`, for any white-space-free name and trimmed argument |
| Command.FlagToken | assets/js/agent.js:73-74 | the `\S+` capture is non-empty and white-space free, and is exactly the slice that starts where the white space after the flag ends and runs to the end or to the next white space |
| Command.FlagIndexFrom | assets/js/agent.js:73-74 | the first position at or after `from` where `flag\s+\S` matches, or -1 when there is none |
| Command.MatchFlag | assets/js/agent.js:73-74 | None exactly when the pattern matches nowhere; otherwise the value is non-empty and white-space free |
| Command.MatchFlagLeftmost | assets/js/agent.js:73-74 | the captured value is the one at the leftmost place where the pattern matches |
| Command.FlagCapture | assets/js/agent.js:73-74 | round trip: when the flag first matches after any prefix, followed by white space and a white-space-free value that the end or white space follows, the capture is exactly that value |
| Command.FlagRoundTrip | assets/js/agent.js:73-74 | a line that starts with the flag, one space and a white-space-free value, then ends or goes on with white space, gives back exactly that value |
| Command.Slugify | assets/js/agent.js:90 | the slug contains no white space and is no longer than the argument |
| Command.SlugifyNoSpace | assets/js/agent.js:90 | a string with no white space is its own slug |
| Command.SlugifyJoin | assets/js/agent.js:90 | one white-space run between two strings becomes exactly one `-` between their slugs |
| Command.PostsPath | assets/js/agent.js:70-86 | the target is always under `/posts/`, and it is the plain listing exactly when neither `--tag` nor `--category` matches |
| Command.Dispatch | assets/js/agent.js:65-115 | navigation targets start with `/`, and are `/` for `/home` and `/about/` for `/about`; a search carries the non-empty argument of `/search`; help is shown exactly for `/help`; an error is shown exactly for an unknown name, or for `/read` or `/search` without an argument |
| Command.Route | assets/js/agent.js:60-116 | every navigation target starts with `/`, and a search keyword is non-empty with no white space at its ends |
| Command.UnknownQuotesLowerCase | assets/js/agent.js:112-114 | an unknown command routes to the error that quotes its name, and that name is already lower case |
| Command.RouteBareTagFallsThrough | assets/js/agent.js:70-79 | `/posts --category c --tag`, with nothing after `--tag`, navigates to the listing of category `c` (when `c` does not itself end in `--tag`) |
| Command.RouteBareText | assets/js/agent.js:41-42 | a line not starting with `/` searches for the trimmed line, or is the missing-keyword error when that is empty |
| Command.DispatchPosts | assets/js/agent.js:70-86 | `/posts` always navigates; a `--tag` value takes precedence over `--category`; no argument or no match gives the plain listing |
| Command.ParsePosts | assets/js/agent.js:45-53 | `/posts` followed by a space and a trimmed argument parses into `/posts` and that argument |
| Command.ParseSearch | assets/js/agent.js:45-53 | `/search` followed by a space and a trimmed argument parses into `/search` and that argument |
| Command.ParseKnown | assets/js/agent.js:45-53 | a lower-case, white-space-free name after `/`, a space and a trimmed argument parse into that command and that argument |
| Command.RoutePosts | assets/js/agent.js:60-86 | a `/posts` line with a trimmed argument navigates to the listing target computed from that argument |
| Command.RoutePostsTag | assets/js/agent.js:70-77 | round trip: the line `/posts --tag v` navigates to the listing filtered by the encoded `v` |
| Command.RoutePostsTagFirst | assets/js/agent.js:70-77 | `/posts --tag a --category b` navigates to the listing of tag `a`: the tag wins over a category written after it |
| Command.DispatchRead | assets/js/agent.js:88-94 | `/read` with a slug navigates to the article path, which has no white space; without one it is the missing-slug error |
| Command.DispatchSearch | assets/js/agent.js:100-106 | `/search` with a keyword searches for it; without one it is the missing-keyword error |
| Command.DispatchUnknown | assets/js/agent.js:112-114 | an unknown command is an error that quotes it |
| Command.DispatchNavigates | assets/js/agent.js:65-115 | the action navigates exactly for `/home`, `/posts`, `/about` and `/read` with a slug |
| Search.AnyTagHitsIff | assets/js/agent.js:218 | `tags.some(...)` holds exactly when some tag contains the keyword |
| Search.Hits | assets/js/agent.js:216-218 | the `indexOf` test holds exactly when the lower-cased text contains the needle |
| Search.Matches | assets/js/agent.js:214-219 | the filter predicate holds exactly when the title, a present non-empty excerpt, or some tag contains the lower-cased keyword |
| Search.SearchPosts | assets/js/agent.js:214-220 | there are no more results than posts, and each result is one of the posts and matches |
| Search.SearchComplete | assets/js/agent.js:214-220 | a post is among the results exactly when it is one of the posts and matches |
| Search.SearchAppend | assets/js/agent.js:214-220 | filtering a concatenation is the concatenation of the filtered parts, so order is kept |
| Search.SearchIdempotent | assets/js/agent.js:214-220 | filtering the results again changes nothing |
| Search.RenderRows | assets/js/agent.js:259-266 | one row per result, in order, each with the date, the first tag or nothing, the title and the link `base + url` |
| Search.Summary | assets/js/agent.js:249-272 | with results the line begins by quoting the keyword and giving the count; without, it begins with the no-results wording that quotes the keyword |
| Search.PanelFor | assets/js/agent.js:241-273 | the panel holds the rows and the summary for their count, and its echoed `/search` line, for a trimmed keyword, parses back into the same search |
| Terminal.BaseFrom | assets/js/agent.js:18-26 | no link gives the empty base; a non-empty base is the prefix before the first occurrence of `/assets/css/main.css` |
| Terminal.BaseEmpty | assets/js/agent.js:18-26 | the base is empty exactly when there is no link, no marker, or the marker starts the href |
| Terminal.BaseRoundTrip | assets/js/agent.js:18-26 | a site served under prefix `b` gets `b` back as its base |
| Terminal.FirstPanelIndex | assets/js/agent.js:238 | -1 exactly when there is no results panel; otherwise the index of a panel with no panel before it |
| Terminal.RemoveFirstPanel | assets/js/agent.js:238-239 | with no panel nothing changes; otherwise exactly the block at FirstPanelIndex is cut out, the others keep their order, and one panel fewer remains |
| Terminal.ResponseIndex | assets/js/agent.js:180 | the first `#ai-response`, or -1 exactly when there is none |
| Terminal.InsertAfterResponse | assets/js/agent.js:180-185 | the new block goes right after `#ai-response`, keeping everything else in order, or at the end when there is none |
| Terminal.InsertPanelCount | assets/js/agent.js:278-287 | inserting adds one panel when the block is a panel and none otherwise |
| Terminal.ReplacePanel | assets/js/agent.js:237-287 | with at most one panel before, remove-then-insert leaves exactly one panel, the new one |
| Terminal.Terminal.constructor | assets/js/agent.js:18-26 | the page starts with the derived base, no help shown and no navigation |
| Terminal.Terminal.NavigateTo | assets/js/agent.js:122-124 | the browser is sent to `base + path`, and nothing else changes |
| Terminal.Terminal.ShowHelp | assets/js/agent.js:130-134 | the overlay is displayed when the page has one, and nothing else changes |
| Terminal.Terminal.ShowError | assets/js/agent.js:165-185 | one error line is placed after `#ai-response`; without a content area nothing changes; at most one panel remains |
| Terminal.Terminal.ShowSearchResults | assets/js/agent.js:230-291 | the content area ends with exactly one results panel, for this keyword and these rows, in place of the old one |
| Terminal.Terminal.PerformSearch | assets/js/agent.js:210-223 | the panel shows exactly the posts that match the keyword |
| Terminal.Terminal.Execute | assets/js/agent.js:60-116 | the page takes the one action the routed command names, and at most one results panel remains |
| Filters.Shows | assets/js/agent.js:309-319 | an item stays visible exactly when each present filter, lower-cased, is a substring of its lower-cased attribute |
| Filters.Passes | assets/js/agent.js:314-319 | one filter passes exactly when it is absent or empty, or its lower-cased value is a substring of the lower-cased attribute |
| Filters.StatusText | assets/js/agent.js:328-333 | with a tag the status begins with the tag wording and the count; else with a category the category wording and the count; else it is empty |
| Filters.EchoText | assets/js/agent.js:339-343 | the echoed command names the category when one is given, else the tag, else the line is left as it was |
| Filters.EchoReplaysTag | assets/js/agent.js:341 | the echoed tag command, typed into the terminal, navigates back to the same tag listing |
| Filters.CountShown | assets/js/agent.js:307-323 | the visible count never exceeds the number of items |
| Filters.CountShownAll | assets/js/agent.js:307-323 | the count equals the number of items exactly when every item passes |
| Filters.StatusAndEchoDisagree | assets/js/agent.js:326-343 | with both filters, the status speaks of the tag while the echoed command names the category |
| Filters.HideItems | assets/js/agent.js:309-323 | every item is hidden exactly when it fails the filters, and the returned count is the number that pass |
| Filters.Listing.ApplyFilters | assets/js/agent.js:297-344 | with no filter or no items nothing changes; otherwise every item's visibility follows the filters, the status reports the count, and the echo names the filter written last |
| Visits.MarkThenVisited | assets/js/typing.js:16-37 | after a mark that can go through, the page counts as visited |
| Visits.MarkFailsQuietly | assets/js/typing.js:29-37 | when reading, parsing or writing fails, the stored value is unchanged |
| Visits.MarkKeepsOthers | assets/js/typing.js:29-34 | marking one page leaves every other page's entry as it was |
| Visits.MarkIdempotent | assets/js/typing.js:29-34 | marking twice stores what marking once stores |
| Visits.Visited | assets/js/typing.js:16-23 | never visited when storage cannot be read or its value is not an object; marking a page already visited changes nothing |
| Visits.Storage.MarkVisited | assets/js/typing.js:29-37 | the stored value becomes the marked one; the page is visited whenever the mark can go through; other pages are unaffected |
| Spinner.StepsKeepInv | assets/js/spinner.js:17-37 | start, stop and tick keep the frame index in range and `timerId` on a running interval |
| Spinner.Started | assets/js/spinner.js:21-28 | shown, frame 0, the glyph not repainted, `timerId` the new interval, which joins the running ones |
| Spinner.Stopped | assets/js/spinner.js:31-37 | hidden, no `timerId`, the frame and glyph kept; the interval `timerId` named is cleared and every other one keeps running |
| Spinner.Ticked | assets/js/spinner.js:24-27 | the next frame, wrapping from the tenth to the first, with its glyph displayed, and nothing else changed |
| Spinner.FirstTickShowsSecondFrame | assets/js/spinner.js:21-27 | start does not repaint the glyph; the first tick after it shows the second frame |
| Spinner.StartThenStop | assets/js/spinner.js:21-37 | a stop right after a start leaves the same intervals running as before |
| Spinner.DoubleStartLeaks | assets/js/spinner.js:21-37 | two starts and a stop leave the first interval running, with no id to clear it by |
| Spinner.StopWithoutTimer | assets/js/spinner.js:31-37 | a stop with no interval only hides the spinner |
| Spinner.Spinner.constructor | assets/js/spinner.js:11-18 | the element is displayed or not and shows the glyph the page rendered; the script starts at frame 0 with no interval |
| Spinner.Spinner.Start | assets/js/spinner.js:21-28 | the new state is the one `Started` gives, and the invariant is kept |
| Spinner.Spinner.Stop | assets/js/spinner.js:31-37 | the new state is the one `Stopped` gives, and the invariant is kept |
| Spinner.Spinner.Tick | assets/js/spinner.js:24-27 | the new state is the one `Ticked` gives, and the invariant is kept |
| Boot.OrDefault | assets/js/typing.js:77-78 | a present, non-empty attribute is used; otherwise the fallback |
| Boot.Sequence.constructor | assets/js/typing.js:70-73 | every element and class flag is as the page rendered it; the sequence is idle, with nothing recorded and no scroll |
| Boot.Sequence.Run | assets/js/typing.js:70-87 | with no response element nothing happens; otherwise it reads the page id and greeting, looks up the visit, starts the spinner, and sets a 300 or 800 ms busy timeout |
| Boot.Sequence.BusyElapsed | assets/js/typing.js:89-128 | the spinner stops and the response shows; then a revisit reveals at once, a first visit with a greeting starts typing, and any other first visit reveals and records; each changed field is given |
| Boot.Sequence.TypeTick | assets/js/typing.js:45-62 | either the next character is appended, or, once all are typed, the typing class goes, the content fades in and the visit is recorded |
| Boot.Sequence.Reveal | assets/js/typing.js:100-103 | the content fades in when present, and one scroll is requested |
| Boot.Sequence.Record | assets/js/typing.js:116 | one `markVisited(pageId)` |
| Boot.RunToEnd | assets/js/typing.js:70-128 | the sequence finishes exactly when there is a response element; the greeting ends fully typed; a first visit is recorded once and then counts as visited |

## Left out

- HTML assembly and `escapeHtml`: panels and error lines are data (an echoed command, a summary and rows, or a message), not markup.
- `encodeURIComponent`: it is the `encode` parameter, left abstract.
- `URLSearchParams`: the filter parameters are given as optional strings.
- `toLowerCase` is ASCII only: the model does not map non-ASCII letters to lower case.
- `charAt` works on UTF-16 code units; the model types one `char` per tick.
- `JSON.parse` and `JSON.stringify`: the stored value is classified as absent, an object with entries, another JSON value, or unparsable text.
  - A JSON array is treated as a non-object.
  - Writing into an object that has a `__proto__` key is not modelled.
- A stylesheet link without an `href`: the script throws there, and the model has no such page.
- The 5 s removal of an error line, the 100 ms scroll delay, `scrollIntoView` and `output.scrollTop`: these are timing and layout only. Scrolls are counted.
- Event plumbing is not modelled: the Enter key, the `/` shortcut, Escape, overlay clicks, `hideHelp`, the mobile menu, and the calls that run the sequence and `applyFilters` at load.
- `querySelector('#ai-response')` and `.search-results` also match nested elements; the model has one flat list of the content area's children.
- The DOM is modelled as flags: element presence is a set of constant booleans.
- `Terminal.Terminal.constructor` requires at most one `.search-results` panel on the page: the rendered page is assumed to start that way, and `ReplacePanel` and `Terminal.Valid` rely on it.
- Real time: the 80 ms spinner period and the 30 ms typing delay are not modelled, the 300 ms and 800 ms busy times are constants, and the browser's event loop decides the order of calls.
- `Terminal.Terminal.Execute` does not model the error line disappearing after 5 s.
- `Spinner.Spinner.Tick` requires a running interval: a cleared interval never fires, so ticks of stopped intervals are excluded rather than modelled.
