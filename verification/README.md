# TabnTsugu outline logic in Dafny

TabnTsugu is a browser extension. Its tab page takes a snapshot of every
open window and its tabs and writes it out as a Markdown outline:

- a `# Tab List - <date>` title;
- per window, a `## Window n (k tabs)` heading;
- one `- [title](url)` item per tab.

The outline can be edited, saved to a file named after the current minute,
or loaded back. "Open all links" reads an outline and reopens it. The links
whose URL starts with `http` are grouped into runs: first the links before
the first `## Window` line, then those of each `## Window` section. Each
non-empty run becomes a new window holding its links, in order. A section
without such a link opens nothing.

This project models that logic and proves properties of it. All of it comes
from `src/tab/App.tsx`.

| file | module | what it holds |
|---|---|---|
| `text.dfy` | `Wrappers`, `Text` | `Option`, and the JavaScript string operations the page relies on, written out: `startsWith`, `split('\n')`, `padStart`, `String(n)`. Also an `indexOf`-style search that the splitter and the link matcher use. `split('\n')` and `String(n)` come with the inverses the proofs use. |
| `tabs.dfy` | `Tabs` | The host's window and tab records, in which every field is optional. Also the normalisation `loadTabs` applies and the header's total tab count. |
| `outline.dfy` | `Outline` | The outline as a list of lines, and `generateMarkdown` as an appending method proved equal to it. Also a reader for window headings. |
| `link_parser.dfy` | `LinkParser` | The first half of `openAllLinks`: the link pattern `\[([^\]]+)\]\(([^)]+)\)` as a leftmost matcher, and the line scan that groups URLs by window. |
| `bulk_open.dfy` | `BulkOpen` | The second half of `openAllLinks`, as an ordered list of `CreateWindow` / `CreateTab` actions. Also a replay semantics saying what those actions build. |
| `file_name.dfy` | `FileName` | The download name `tabs_<year><MM><DD>_<HH><mm>.md` and a reader for it. |
| `round_trip.dfy` | `RoundTrip` | What "open all links" does to an outline the page generated itself. |
| `workspace.dfy` | `Workspace` | The page state (`windows`, `markdown`) as a class whose handlers replace it. |

Behaviour captured as the code has it:

- A title that is missing or empty becomes `Untitled`, as JavaScript `||` does.
- A missing URL becomes the empty string.
- Windows and tabs without an id are dropped.
- A window whose tabs were not reported gets none.
- Headings say `tab` for exactly one tab and `tabs` otherwise, zero included.
- A line contributes a URL only when its leftmost link match has a URL starting with `http`.
- Empty groups are never opened.
- New windows are opened unfocused; tabs are added to them without a focus flag.
- The year in the file name is not padded; every other field is padded to two digits.
- Tab lines are written as `- [title](url)`. The list marker `- ` is part of each line.

The side conditions under which an outline reads back exactly are these:

- no line breaks anywhere;
- every title non-empty (normalisation guarantees this);
- no `]` in a title;
- no `)` in a URL;
- no `[` in the date.

These conditions belong to the outline format itself. A `]` in a title can
make the tab silently not reopened: when the title has one `]`, not followed
by `(`, and neither the title nor the URL holds a `[`, the tab line holds no
link (`RoundTrip.BracketInTitleLosesTab`). With a `[` after the `]`, a link
may still be found further along the line, so this is not the outcome for
every such title. When the title is non-empty and has no `]`, a URL with
something before its first `)` is read back cut at that `)`
(`RoundTrip.ParenInUrlTruncates`).

## Model

| member | source | states |
|---|---|---|
| Tabs.ToTab | src/tab/App.tsx:33-38 | A host tab with an id keeps its id and gets its window's id. Its title is the host title when that is present and non-empty, and "Untitled" otherwise. Its URL is the host URL, or "" when that is missing. |
| Tabs.NormalizeTabs | src/tab/App.tsx:33-38 | The result holds exactly the normalised versions of the host tabs that have an id. It is no longer than the input, every tab carries the given window id, and every title is non-empty. |
| Tabs.ToWindow | src/tab/App.tsx:31-38 | A host window with an id keeps that id. Its tabs all carry that id and have non-empty titles. Tabs that were not reported give an empty list; reported tabs give exactly NormalizeTabs of them, in host order. |
| Tabs.NormalizeWindows | src/tab/App.tsx:29-39 | The result holds exactly the normalised host windows that have an id. Every tab in it carries its own window's id and has a non-empty title. |
| Tabs.NormalizeTabsAppend | src/tab/App.tsx:33 | Tab normalisation keeps host order: it distributes over concatenation. |
| Tabs.NormalizeWindowsAppend | src/tab/App.tsx:29-31 | Window normalisation keeps host order: it distributes over concatenation. |
| Tabs.TotalTabCountIsAllTabs | src/tab/App.tsx:147-149 | The reduce over windows' tab counts equals the number of tabs listed across all windows. |
| Tabs.NormalizeTabsCount | src/tab/App.tsx:33 | Normalising a window's tabs keeps exactly as many tabs as have an id. |
| Tabs.LoadedTabCount | src/tab/App.tsx:147-149 | After loading, the header's tab count is the number of host tabs that have an id and sit in a window that has one. |
| Outline.TabLines | src/tab/App.tsx:52-54 | Exactly one line per tab, in tab order: line i is `- [title](url)` of tab i. |
| Outline.GenerateMarkdown | src/tab/App.tsx:45-59 | The text built by appending, window by window and tab by tab, is the outline document of the windows. |
| Outline.AppendTabLines | src/tab/App.tsx:52-54 | The inner loop appends exactly the tabs' item lines, each followed by a newline, in tab order. |
| Outline.AppendTabLine | src/tab/App.tsx:53 | Appending one more item line extends the text by that tab's line. |
| Outline.DocumentStart | src/tab/App.tsx:47 | The outline begins with "# Tab List - " followed by the date and a blank line. |
| Outline.WindowText | src/tab/App.tsx:50-55 | A window's block is its heading, a blank line, its item lines and a blank line. |
| Outline.DocumentAppendWindow | src/tab/App.tsx:49-56 | Adding a window at the end appends exactly that window's block, so windows appear in input order. |
| Outline.LinesOfDocument | src/tab/App.tsx:104 | When nothing contains a line break, splitting the outline at newlines gives back its lines, plus the empty piece after the last newline. |
| Outline.DocumentLineCount | src/tab/App.tsx:47-56 | When nothing contains a line break, the outline has 3 + 3·(windows) + (tabs) lines once split. |
| Outline.CountRoundTrip | src/tab/App.tsx:51 | A count followed by " tab)" or " tabs)" reads back as that count. |
| Outline.NumbersRoundTrip | src/tab/App.tsx:51 | The window number, " (" and the counted tabs read back as the number and the count. |
| Outline.HeadingRoundTrip | src/tab/App.tsx:49-51 | The heading of 0-based window i with k tabs reads back as number i+1 and count k. It says "tab" exactly when k = 1 and "tabs" otherwise, zero included. |
| LinkParser.MatchAtSound | src/tab/App.tsx:115 | Whatever the one-position matcher returns is a match of the pattern there. The title is non-empty and has no `]`, the URL is non-empty and has no `)`, and the text is `[title](url)`. |
| LinkParser.MatchAtComplete | src/tab/App.tsx:115 | Every match of the pattern at a position is what the matcher returns there, so the match at a position is unique. |
| LinkParser.FindFrom | src/tab/App.tsx:115 | A found position lies in the line and the matcher succeeds there with the returned groups. |
| LinkParser.FindFromLeftmost | src/tab/App.tsx:115 | Nothing matches before the position found. When nothing is found, nothing matches at all. |
| LinkParser.MatchIsLeftmost | src/tab/App.tsx:115 | `match` returns groups l if and only if l matches at some position and nothing matches at any earlier position. |
| LinkParser.MatchFoundIsLeftmost | src/tab/App.tsx:115 | A successful match is a link at the found position with no link before it. |
| LinkParser.LeftmostIsFound | src/tab/App.tsx:115 | A link with no link before it is what `match` returns. |
| LinkParser.NoBracketNoMatch | src/tab/App.tsx:115 | A line without `[` has no match. |
| LinkParser.NoMatchBeforeEmptyUrl | src/tab/App.tsx:115 | When the first `]` at or after a start position is followed by `()`, no start position from there up to that `]` matches. |
| LinkParser.MatchListItem | src/tab/App.tsx:115 | An item line `- [t](u)` with t non-empty and without `]`, and u without `)`, yields (t, u), or no match when u is empty. |
| LinkParser.EmptyUrlNeverMatches | src/tab/App.tsx:115 | `[t]()` never matches, for a title t without `]`. |
| LinkParser.LineUrl | src/tab/App.tsx:115-116 | A URL a line yields starts with "http" and is the URL group of the line's match. |
| LinkParser.Contribution | src/tab/App.tsx:108-119 | A line contributes at most one URL, always starting with "http", and a `## Window` line contributes none. |
| LinkParser.Scan | src/tab/App.tsx:108-120 | The scan keeps every closed group non-empty and every URL http-prefixed. |
| LinkParser.ParseGroups | src/tab/App.tsx:104-125 | No returned group is empty, and every URL in every group starts with "http". |
| LinkParser.ParseLinkGroups | src/tab/App.tsx:104-125 | The line loop, with its pushes and final push, returns exactly the groups of the scan over split('\n'). |
| LinkParser.ScanLine | src/tab/App.tsx:108-119 | One more line does what the loop body does. A `## Window` line closes the current group and starts an empty one. Otherwise the match's URL is added when it starts with "http", and the state is left alone when it does not. |
| LinkParser.ScanAppend | src/tab/App.tsx:108 | Scanning two blocks of lines is scanning the second from where the first left off. |
| LinkParser.LineUrls | src/tab/App.tsx:108-120 | There are no more contributed URLs than lines. |
| LinkParser.StepKeepsUrls | src/tab/App.tsx:108-119 | Laid end to end, the groups after one more line are those before it followed by that line's URL, if any. |
| LinkParser.ScanKeepsUrls | src/tab/App.tsx:108-120 | Laid end to end, the groups after any lines are those before followed by the lines' URLs, in line order. |
| LinkParser.GroupsKeepDocumentOrder | src/tab/App.tsx:104-125 | Laid end to end, the returned groups are exactly the URLs the lines contribute, in document order. |
| BulkOpen.TabActions | src/tab/App.tsx:137-142 | One tab action per further URL. |
| BulkOpen.NonEmpty | src/tab/App.tsx:129 | The groups that get a window are non-empty, and there are no more of them than groups. |
| BulkOpen.NonEmptyKeepsAll | src/tab/App.tsx:129 | When no group is empty, every group gets a window. |
| BulkOpen.PlanBulkOpen | src/tab/App.tsx:128-144 | The nested loops emit exactly the plan: per group, in order, one unfocused CreateWindow on the first URL, then one CreateTab per further URL into that window. |
| BulkOpen.PlanStep | src/tab/App.tsx:128-129 | One more group appends that group's actions to the plan, and counts one more window exactly when the group is non-empty. |
| BulkOpen.TabActionsStep | src/tab/App.tsx:137-142 | One more iteration of the inner loop appends the tab action for the next URL. |
| BulkOpen.GroupActionsDone | src/tab/App.tsx:129-142 | The window action followed by the inner loop's actions are the group's actions. |
| BulkOpen.PlanLength | src/tab/App.tsx:128-144 | The plan has exactly as many actions as there are URLs. |
| BulkOpen.WindowsCreatedAppend | src/tab/App.tsx:131 | Window creations add up over concatenated action lists. |
| BulkOpen.TabActionsCreateNoWindow | src/tab/App.tsx:138 | Adding tabs creates no window. |
| BulkOpen.PlanWindowCount | src/tab/App.tsx:128-134 | Exactly one window is created per non-empty group. |
| BulkOpen.PlanOpensUnfocused | src/tab/App.tsx:131-134 | No window the plan creates is focused. |
| BulkOpen.TabActionsAreTabs | src/tab/App.tsx:137-142 | The i-th tab action opens the i-th further URL in the group's window. |
| BulkOpen.ReplayAppend | src/tab/App.tsx:128-144 | Carrying out two action lists in turn is carrying out their concatenation. |
| BulkOpen.ReplayTabs | src/tab/App.tsx:137-142 | The tab actions add their URLs, in order, to the target window and change nothing else. |
| BulkOpen.ReplayGroup | src/tab/App.tsx:129-142 | A group's actions create one new window holding exactly that group's URLs, in order. |
| BulkOpen.ReplayPlan | src/tab/App.tsx:128-144 | Carried out in order, the plan never targets a window that does not exist. It leaves one new window per non-empty group, in group order, holding that group's URLs in order. |
| FileName.Pad2 | src/tab/App.tsx:76 | `String(n).padStart(2, '0')` is all digits and reads back as n. Below 100 it is exactly two characters. |
| FileName.Clock | src/tab/App.tsx:76 | The month/day/hour/minute part is nine characters when each field is below 100. |
| FileName.FileName | src/tab/App.tsx:76 | The name starts with "tabs_" and ends with ".md". Its length is 17 plus the length of the unpadded year. |
| FileName.ClockRoundTrip | src/tab/App.tsx:76 | The nine-character part reads back as the 0-based month, day, hour and minute. |
| FileName.FileNameRoundTrip | src/tab/App.tsx:76 | Every name reads back as the moment it was made from, so no two moments to the minute share a name. |
| FileName.Pad2OneDigit | src/tab/App.tsx:76 | A number below ten is padded with one leading zero. |
| FileName.YearExample | src/tab/App.tsx:76 | The year 2024 is written "2024". |
| FileName.ClockExample | src/tab/App.tsx:76 | March 5th, 09:07 (month index 2) is written "0305_0907". |
| FileName.FileNameExample | src/tab/App.tsx:76 | 5 March 2024 at 09:07 gives "tabs_20240305_0907.md". |
| Text.Lines | src/tab/App.tsx:104 | `split('\n')` gives at least one piece, and no piece contains a newline. |
| Text.JoinLines | src/tab/App.tsx:104 | Splitting loses nothing: the pieces joined by newlines are the text, including a last line with no newline after it. |
| Text.LinesOfJoin | src/tab/App.tsx:104 | Joining newline-free pieces and splitting again gives the pieces back. |
| Text.LinesOfUnlines | src/tab/App.tsx:104 | Splitting newline-terminated lines gives the lines back, plus an empty last piece. |
| Text.PadStart | src/tab/App.tsx:76 | Padding reaches the width and ends with the original string. Only fill characters come before it. |
| Text.ParseIntStr | src/tab/App.tsx:76 | `String(year)` reads back as the year, negative years included. |
| Text.ParseNatStr | src/tab/App.tsx:51 | A number written in decimal reads back as itself. |
| RoundTrip.HttpUrls | src/tab/App.tsx:116 | The http URLs of a window's tabs are no more than its tabs, and all start with "http". |
| RoundTrip.Expected | src/tab/App.tsx:110-125 | The expected groups are non-empty and no more than the windows. |
| RoundTrip.StepBlank | src/tab/App.tsx:55 | A blank line leaves the scan unchanged. |
| RoundTrip.StepTitle | src/tab/App.tsx:47 | The title line leaves the scan unchanged when the date has no `[`. |
| RoundTrip.StepHeading | src/tab/App.tsx:51 | Every generated heading is a `## Window` line and closes the current group. |
| RoundTrip.StepTab | src/tab/App.tsx:53 | For a tab meeting the side conditions, its generated item line adds the tab's URL to the current group exactly when the URL starts with "http". |
| RoundTrip.ScanTabLines | src/tab/App.tsx:52-54 | For tabs meeting the side conditions, a window's item lines add that window's http URLs, in tab order. |
| RoundTrip.ScanWindow | src/tab/App.tsx:49-56 | For tabs meeting the side conditions, a window's block closes the previous group and leaves that window's http URLs open. |
| RoundTrip.ScanWindows | src/tab/App.tsx:49-56 | For tabs meeting the side conditions, the blocks of all windows add one group per window that has an http tab, in window order. |
| RoundTrip.ParseGeneratedOutline | src/tab/App.tsx:45-125 | Reading back a generated outline, under the side conditions, gives one group per window that has an http tab. The groups are in window order and hold the window's http URLs in tab order. |
| RoundTrip.ReopenGeneratedOutline | src/tab/App.tsx:45-144 | Under the side conditions, opening all links of a generated outline recreates, in order, one window per original window with an http tab, holding that window's http URLs in tab order. Windows with no http tab are not recreated, and non-http URLs are dropped. |
| RoundTrip.HttpUrlsAppend | src/tab/App.tsx:116 | Filtering http URLs distributes over concatenation. |
| RoundTrip.ExpectedHoldsAllHttpTabs | src/tab/App.tsx:116 | Laid end to end, the expected groups are the http URLs of all tabs, window after window. |
| RoundTrip.BracketInTitleLosesTab | src/tab/App.tsx:115 | A title with one `]`, not followed by `(`, leaves its item line without a match, provided neither the title nor the URL holds a `[`. |
| RoundTrip.ParenInUrlTruncates | src/tab/App.tsx:115 | For a title that is non-empty and has no `]`, a URL with something before its first `)` reads back cut just before that `)`. |
| Workspace.Page.constructor | src/tab/App.tsx:17-18 | The page starts with no windows and an empty outline. |
| Workspace.Page.LoadTabs | src/tab/App.tsx:26-43 | Loading keeps the normalised snapshot, replaces the text with the outline of it, and makes the header count the number of addressable host tabs. |
| Workspace.Page.SetMarkdown | src/tab/App.tsx:91-94 | A loaded file or an edit replaces the text and keeps the snapshot. |
| Workspace.Page.TabCount | src/tab/App.tsx:147-149 | The header count is the number of tabs across the snapshot's windows. |
| Workspace.Page.OpenAllLinks | src/tab/App.tsx:102-144 | The calls made for the current text are the plan of its groups, one per URL. Carried out, they open exactly one window per group with that group's URLs, in order. |

## Left out

- `src/background/index.ts` only registers host listeners and forwards a query; it is not part of this model.
- Host calls (`chrome.windows.getAll`, `chrome.windows.create`, `chrome.tabs.create`) and their `await` sequencing are not modelled. The host's reply is a parameter (`HostWindow` records). The calls made are an ordered list of actions, in which a window is named by its creation ordinal instead of the id the host returns. A failing host call is not modelled.
- Reading the clock and locale formatting (`new Date()`, `toLocaleString`, `getFullYear` and friends) are left out. The date string and the date fields are parameters.
- Clipboard copy and the 2-second "copied" flag are left out: they are a foreign API and a timer.
- The Blob/object-URL/anchor download and the `FileReader` load are left out as I/O. Loading a file is `SetMarkdown` with the file's text.
- React state hooks, the initial `useEffect` load, rendering and JSX are not modelled. State is the `Page` class's two fields.
- General regular expressions are not modelled; only the one fixed pattern is, as a hand-written matcher.
- JavaScript strings are UTF-16 code-unit sequences; here they are `seq<char>`. No encoding or normalisation is modelled.
- FileName.FileName: the length is stated only when month, day, hour and minute are below 100, the range a real date gives.
