# CT amendment tracker — a Dafny model of its core logic

The tracker is a Next.js application. It lists the amendments that the
Connecticut Senate and House file against bills. It groups them by bill,
and it compares two bill or amendment PDFs side by side after extracting
and cleaning their text. Access is by invitation only. This project
models the pure logic inside that application, as immutable datatypes
and functions, and proves what that logic promises:

- **The legislative text reformatter** (`improveTextFormatting`). A
  first pass re-joins district references that the PDF split over three
  lines. A fold over the lines then moves trailing line numbers to the
  front, sets headers and titles apart, and merges wrapped continuation
  lines. Finally a chain of whole-text rewrites runs. Every regular
  expression becomes a predicate over characters (module `Patterns`).
  Every global `replace` becomes one scan, `Rewrites.ReplaceAll`, driven
  by a rule for that pattern.
- **The body-only filter** (`filterText`). This is a one-flag pass that
  drops page furniture and front matter, followed by whitespace and
  punctuation clean-up.
- **The comparison view.** It covers which address each side fetches and
  how two settled fetches become texts and errors. It also covers when
  the diff is recomputed, what each pane shows, the combined listing with
  its `R ` / `L ` markers, and the side headings. The line diff itself
  is an input.
- **The amendment table.** This covers search, the column sort, the
  two-item selection and the comparison link.
- **The by-bill view.** This covers grouping, search, the chamber filter
  and the sort.
- **The shared amendment store.** This covers response checking, chamber
  tagging and the per-bill lookup.
- **The free comparison page.** This covers source and selection
  handlers, the compare gate and the headings.
- **The request gate** (`middleware`).
- **The invitation lifecycle.** This covers creating an invite, with
  rollback when the mail fails, listing invites, registering with an
  invite, and the status shown on the admin page.

Modules follow the program's structure:

| module | holds |
|---|---|
| `Wrappers`, `Text`, `Seqs` | `Option`; string helpers (`trim`, `split`/`join`, case, `includes`, string order); sequence helpers (`filter`, `findIndex`, `new Set`, a sort) |
| `Patterns`, `DistrictJoin`, `Rewrites`, `Reformat` | the reformatter |
| `BodyFilter` | the body-only filter |
| `DiffView`, `Comparison` | the comparison view |
| `Amendments`, `SortState`, `AmendmentList`, `BillGroups`, `ComparePage` | the amendment store and the list pages |
| `Access` | the request gate |
| `Invites` | invitations and registration |

The following are parameters, not modelled code:

- the clock (`now`);
- date parsing (`time: string -> int`);
- the HTTP fetches (`fetch`, `Fetch`, `Outcome`);
- the line diff (`diff`);
- generated ids and invite codes;
- whether the invite mail was sent;
- the password hash.

Paths below are relative to the repository root.

## Model

| member | source | states |
|---|---|---|
| Text.Split | src/app/api/pdf-text/route.ts:22 | `split("\n")` gives at least one piece, and no piece contains a line break |
| Text.JoinSplit | src/app/api/pdf-text/route.ts:22 | joining the pieces of `split("\n")` with line breaks gives back the text |
| Text.SplitJoin | src/app/api/pdf-text/route.ts:176 | splitting the join of break-free lines gives back the lines, so the rewrites start from the fold's lines |
| Text.SplitLastEmpty | src/components/PdfComparison.tsx:225 | the last piece of `split("\n")` is empty exactly when the text is empty or ends in a line break |
| Text.Trim | src/app/api/pdf-text/route.ts:22 | `trim()` is the piece between the leading and trailing white-space runs; it neither starts nor ends with white space |
| Text.TrimIdempotent | src/components/PdfTextExtractor.tsx:52-88 | trimming an already trimmed line changes nothing |
| Text.TrimIgnoresTrailingSpace | src/app/api/pdf-text/route.ts:109 | white space at the end of a string makes no difference to its `trim()`, so removing `\s+` before the number and trimming is trimming the line without its number |
| Text.ContainsIff | src/components/AmendmentList.tsx:27-29 | `includes` holds exactly when the term occurs at some index |
| Text.NatToString | src/components/PdfComparison.tsx:99-101 | a number prints as decimal digits, with no leading zero, that parse back to the number |
| Text.LessTrichotomy | src/components/AmendmentList.tsx:41-45 | of two different strings, exactly one is below the other in code-point order |
| Text.LessTransitive | src/components/AmendmentList.tsx:41-45 | code-point string order is transitive |
| Seqs.Filter | src/components/AmendmentList.tsx:24-31 | `filter` keeps exactly the accepted elements, in order, as a subsequence |
| Seqs.FirstIndex | src/app/dashboard/compare/page.tsx:53 | `find` gives the first accepted element, or none when no element is accepted |
| Seqs.Dedup | src/app/dashboard/by-bill/page.tsx:44 | `[...new Set(s)]` has no duplicates and the same members as `s`, is a subsequence of `s`, and lists them in the order of their first occurrences in `s` |
| Seqs.DedupIntoOrder | src/app/dashboard/by-bill/page.tsx:44 | the elements the set construction adds to what it has seen first occur in the input in the order they are added |
| Seqs.SortBy | src/app/dashboard/by-bill/page.tsx:80-91 | the result is a permutation of the input, sorted by a total preorder, and elements the order cannot tell apart keep their input order, as the stable `Array.prototype.sort` does |
| Patterns.TrailingLineNumber | src/app/api/pdf-text/route.ts:104-109 | a line matches `\s+(\d+)$` exactly when it ends in white space and a maximal digit run; the number is that run and the text is the line without it, trimmed (`SplitsOffNumber`) |
| Patterns.MarkersAreNumbered | src/app/api/pdf-text/route.ts:134 | LCO header and `N of M` lines always start with a number and white space, so the numbered-line branch takes them first |
| DistrictJoin.JoinSplits | src/app/api/pdf-text/route.ts:65-79 | the join pass keeps the number of lines |
| DistrictJoin.JoinSplitsAt | src/app/api/pdf-text/route.ts:65-79 | when no tail piece can head a reference, the left-to-right scan agrees at every index with the per-line description |
| DistrictJoin.DistrictPiecesDisjoint | src/app/api/pdf-text/route.ts:67-72 | an ordinal line or a `Dist.` line can never be an attribution line, so the scan never re-joins consumed lines |
| DistrictJoin.JoinDistricts | src/app/api/pdf-text/route.ts:65-79 | the line count is unchanged; each split reference is glued as `line + suffix + " " + Dist.`; its two consumed lines become empty and stay as blank lines; every other line is kept |
| Reformat.TrimAll | src/app/api/pdf-text/route.ts:22 | one trimmed line per input line |
| Reformat.PreparedLines | src/app/api/pdf-text/route.ts:22-79 | one prepared line per line of the text, none containing a line break |
| Reformat.Separate | src/app/api/pdf-text/route.ts:117-122 | a blank separator is pushed only when the output is non-empty and its last line is not blank; afterwards a non-empty output ends blank |
| Reformat.Renumber | src/app/api/pdf-text/route.ts:107-112 | the renumbered line starts with the number and a space, and is one character longer than number and text together |
| Reformat.Classify | src/app/api/pdf-text/route.ts:85-147 | branch order: blank, numbered and attribution lines pass through; a trailing number is moved for every other line that has one; the LCO/page branch is never chosen |
| Reformat.Place | src/app/api/pdf-text/route.ts:85-171 | at most three lines are added; earlier lines are never changed; a merge only extends a numbered line, never with a heading, never to 120 characters or more; lines stay break-free |
| Reformat.Step | src/app/api/pdf-text/route.ts:82-173 | one loop iteration: the same facts for any line, whatever its kind |
| Reformat.Continue | src/app/api/pdf-text/route.ts:168 | the continuation extends only the last line, by a space and the new line |
| Reformat.RenumberNoNewline | src/app/api/pdf-text/route.ts:107-112 | moving the number keeps a line free of line breaks |
| Reformat.StepPassesThrough | src/app/api/pdf-text/route.ts:86-102 | blank, already numbered, attribution and district-reference lines are emitted unchanged |
| Reformat.StepRenumbers | src/app/api/pdf-text/route.ts:104-113 | any other line ending in white space and digits becomes `"<digits> <rest trimmed>"`, where the rest is the line before the digits, trimmed; the result starts with a number and is no longer than the line |
| Reformat.PlaceSeparatesHeader | src/app/api/pdf-text/route.ts:115-123 | a section header is preceded by a blank line unless it is the first line |
| Reformat.PlaceSeparatesTitle | src/app/api/pdf-text/route.ts:124-133 | an amendment title gets a blank line after it, and one before it unless it is first |
| Reformat.PlaceSeparatesActTitle | src/app/api/pdf-text/route.ts:137-146 | a quoted act title is upper-cased and set off the same way |
| Reformat.FormatFrom | src/app/api/pdf-text/route.ts:82-173 | the fold never shortens the output, never changes a line before the last one, and keeps lines break-free |
| Reformat.FormatLines | src/app/api/pdf-text/route.ts:82-173 | break-free input lines give break-free output lines, and a non-empty input gives a non-empty output |
| Reformat.FormatFromBound | src/app/api/pdf-text/route.ts:157-171 | every output line is at most 120 characters long, or no longer than the longest line given |
| Reformat.FormatLinesBound | src/app/api/pdf-text/route.ts:157-171 | the same bound for the whole main loop |
| Reformat.PostProcess | src/app/api/pdf-text/route.ts:176-219 | after the rewrites, in source order, the text never holds three consecutive line breaks |
| Reformat.ImproveTextFormatting | src/app/api/pdf-text/route.ts:18-222 | empty text comes back unchanged; any result has at most one blank line in a row |
| Reformat.FormattedLinesSurviveJoin | src/app/api/pdf-text/route.ts:176 | for every text, splitting the joined fold output gives back exactly the fold's lines |
| Rewrites.ReplaceAll | src/app/api/pdf-text/route.ts:179-219 | a global replace whose pattern matches nowhere leaves the text unchanged |
| Rewrites.RangeRule | src/app/api/pdf-text/route.ts:216 | the replacement for `word - word` contains no line break |
| Rewrites.CollapseBreaks | src/app/api/pdf-text/route.ts:186 | after `/\n{3,}/g` becomes two breaks, no three breaks follow each other, and a text starts with at most two |
| Rewrites.ReplaceKeeps | src/app/api/pdf-text/route.ts:189-219 | a rewrite whose replacements never add a line-break run keeps the text free of triple breaks |
| Rewrites.QuoteTrimSafe | src/app/api/pdf-text/route.ts:189-191 | trimming quoted text is such a rewrite |
| Rewrites.ActTitleCaseSafe | src/app/api/pdf-text/route.ts:194-196 | upper-casing `AN ACT … .` is such a rewrite |
| Rewrites.PeriodSpaceSafe | src/app/api/pdf-text/route.ts:199 | a space after a period is such a rewrite |
| Rewrites.NumberParenSafe | src/app/api/pdf-text/route.ts:213 | `N) ` spacing is such a rewrite |
| Rewrites.RangeSafe | src/app/api/pdf-text/route.ts:216 | joining ranges is such a rewrite |
| Rewrites.CommaSpaceSafe | src/app/api/pdf-text/route.ts:219 | a space after a comma is such a rewrite |
| Rewrites.UpperNoTriple | src/app/api/pdf-text/route.ts:194-196 | upper-casing keeps every line break where it was |
| Rewrites.CloserPassClean | src/app/api/pdf-text/route.ts:182 | after `/\s+([.,;:)])/g` no white space is left directly before `.,;:)` |
| Rewrites.CloserPassKeepsText | src/app/api/pdf-text/route.ts:182 | that pass only deletes white space: the other characters stay, in order |
| Rewrites.OpenerPassClean | src/app/api/pdf-text/route.ts:183 | after `/([({])\s+/g` no white space is left directly after `(` or `{` |
| Rewrites.OpenerPassKeepsText | src/app/api/pdf-text/route.ts:183 | that pass only deletes white space |
| Rewrites.PassKeepsPairs | src/components/PdfTextExtractor.tsx:97-107 | a global replace whose every match starts with the character it replaces, holds no rejected pair of neighbours and forms none with the next character keeps a text free of such pairs, and keeps its first character |
| Rewrites.PassClearsPairs | src/components/PdfTextExtractor.tsx:97-107 | a global replace whose matches behave so in any text, and which matches wherever a rejected pair starts, leaves no rejected pair at all |
| Rewrites.MarkSpaceKeeps | src/components/PdfTextExtractor.tsx:101-104 | `/,(\w)/g` or `/\.(\w)/g` never creates a pair that neither the mark then a space nor a space then a word character forms |
| Rewrites.MarkSpaceClears | src/components/PdfTextExtractor.tsx:101-104 | after such a pass no mark is directly followed by a word character |
| Rewrites.CommaPassClean | src/components/PdfTextExtractor.tsx:101 | after `/,(\w)/g` becomes `", $1"` no comma is directly followed by a word character |
| Rewrites.PeriodPassClean | src/components/PdfTextExtractor.tsx:104 | after `/\.(\w)/g` becomes `". $1"` no period is directly followed by a word character |
| Rewrites.OpenerKeepsCloserGap | src/components/PdfTextExtractor.tsx:98 | removing white space after `(` or `{` never puts white space before `.,;:)` |
| Rewrites.RangeKeeps | src/components/PdfTextExtractor.tsx:107 | joining `word - word` never creates a pair that a word character and a hyphen do not form |
| Rewrites.RangeHitKeepsText | src/components/PdfTextExtractor.tsx:107 | one `word - word` match loses only the white space on either side of its hyphen |
| Rewrites.PassKeepsText | src/components/PdfTextExtractor.tsx:97-107 | a global replace whose every match keeps the characters other than white space keeps them in the whole text, in order |
| Rewrites.RangePassKeepsText | src/components/PdfTextExtractor.tsx:107 | the range pass only deletes white space |
| BodyFilter.OpenerStage | src/components/PdfTextExtractor.tsx:98 | after the bracket pass there is still no white space before `.,;:)`, and none after `(` or `{` |
| BodyFilter.CommaStage | src/components/PdfTextExtractor.tsx:101 | after the comma pass both bracket facts still hold and no comma is directly followed by a word character |
| BodyFilter.PeriodStage | src/components/PdfTextExtractor.tsx:104 | after the period pass the comma fact still holds and no period is directly followed by a word character |
| BodyFilter.RangeStage | src/components/PdfTextExtractor.tsx:107 | the range pass keeps all four spacing facts |
| BodyFilter.Tidy | src/components/PdfTextExtractor.tsx:96-107 | whatever the input, the five passes leave no white space before `.,;:)`, none after `(` or `{`, and no comma or period directly followed by a word character |
| BodyFilter.SqueezeIsSqueezed | src/components/PdfTextExtractor.tsx:88 | after `/\s+/g` becomes `" "`, every white-space character is a single plain space |
| BodyFilter.SqueezeKeepsText | src/components/PdfTextExtractor.tsx:88 | collapsing white space keeps every other character, in order |
| BodyFilter.Normalize | src/components/PdfTextExtractor.tsx:86-88 | for a trimmed line the captured leading white space is empty, so the line is just collapsed |
| BodyFilter.VisitLine | src/components/PdfTextExtractor.tsx:52-90 | the flag is raised exactly by a trigger line and never lowered; blank lines are kept only once it is up; other lines are kept, collapsed, exactly when not boilerplate and the flag is up |
| BodyFilter.FilterLines | src/components/PdfTextExtractor.tsx:51-91 | the kept lines are never more than the input lines |
| BodyFilter.VisitLineFlagRule | src/components/PdfTextExtractor.tsx:73-80 | the line step follows the flag rule: raised by trigger lines, never lowered |
| BodyFilter.FilterLinesByLine | src/components/PdfTextExtractor.tsx:48-91 | the loop's output equals, in order, what each line contributes under the flag its predecessors set |
| BodyFilter.NothingBeforeTrigger | src/components/PdfTextExtractor.tsx:55-83 | lines before the first trigger, blank ones included, contribute nothing |
| BodyFilter.KeptLinesAreBody | src/components/PdfTextExtractor.tsx:63-90 | every kept line is blank or the collapsed form of an input line that is not boilerplate |
| BodyFilter.NoTriggerNothingKept | src/components/PdfTextExtractor.tsx:48-83 | with no trigger line at all, nothing is kept |
| BodyFilter.FilterText | src/components/PdfTextExtractor.tsx:31-110 | empty text comes back unchanged; a text with no trigger line filters to the empty text; the result has none of the spacing faults the punctuation passes remove: white space before `.,;:)` or after `(` or `{`, a comma or period directly followed by a word character |
| DiffView.Rows | src/components/PdfComparison.tsx:469-471 | one row per piece of `split("\n")`; an empty piece is drawn as a line break and reads back as empty |
| DiffView.RowsRebuild | src/components/PdfComparison.tsx:463-471 | a part's rows read back as the part's text |
| DiffView.LeftPane | src/components/PdfComparison.tsx:461-474 | the left pane has one block per part that is not added, in order, shaded amber when removed |
| DiffView.RightPane | src/components/PdfComparison.tsx:494-507 | the right pane has one block per part that is not removed, in order, shaded blue when added |
| DiffView.LeftPaneShowsLeftText | src/components/PdfComparison.tsx:461-474 | the left pane reads back as the concatenation of the parts that are not added |
| DiffView.RightPaneShowsRightText | src/components/PdfComparison.tsx:494-507 | the right pane reads back as the concatenation of the parts that are not removed |
| DiffView.ShownLines | src/components/PdfComparison.tsx:211-225 | the combined listing's lines of a part are break-free |
| DiffView.ShownLinesRebuild | src/components/PdfComparison.tsx:211-225 | those lines rebuild the part's text, except for the final line break dropped with the trailing empty piece |
| DiffView.PartLines | src/components/PdfComparison.tsx:211-241 | each listed line carries its part's marker |
| DiffView.RenderDiff | src/components/PdfComparison.tsx:202-250 | the message "No differences found." appears exactly when there are no parts; every listed marker is `R `, `L ` or two spaces |
| DiffView.MarkersKnown | src/components/PdfComparison.tsx:239 | every marker in the combined listing is one of the three |
| DiffView.CombinedByPart | src/components/PdfComparison.tsx:207-247 | the listing is, part by part, the lines of exactly the parts that are not white space only |
| DiffView.PartLinesRebuild | src/components/PdfComparison.tsx:209-241 | a shown part's listed lines rebuild its text up to a final line break |
| Comparison.SideUrl | src/components/PdfComparison.tsx:57-58 | a side fetches its explicit address, else its amendment's LCO link, else nothing |
| Comparison.StatusText | src/components/PdfComparison.tsx:99-101 | a missing or zero status shows as `unknown`, and any other as its decimal digits with no leading zero |
| Comparison.FailureMessage | src/components/PdfComparison.tsx:96-101 | every side error starts with the fixed message, which an HTTP error extends |
| Comparison.Settle | src/components/PdfComparison.tsx:85-151 | a fulfilled side sets its text; a failed side keeps its text and sets only its own error; the general error appears exactly when both fail |
| Comparison.Request | src/components/PdfComparison.tsx:67-83 | a side without an address yields empty text, not an error |
| Comparison.Load | src/components/PdfComparison.tsx:50-170 | with no address on either side nothing is fetched and all errors are clear; a side without an address ends with empty text and no error |
| Comparison.DiffGate | src/components/PdfComparison.tsx:182-189 | the diff is replaced only when both texts are non-empty |
| Comparison.GatedPanesShowTexts | src/components/PdfComparison.tsx:182-189 | with both texts present and a faithful diff, the two panes read back as the two texts |
| Comparison.DisplayLabel | src/components/PdfComparison.tsx:329-338 | an explicit label wins; without an amendment the heading is "No amendment selected"; otherwise it is exactly the chamber name, then ` - LCO `, then the number |
| Amendments.Tag | src/context/AmendmentsContext.tsx:82-87 | every item gets the chamber, and all other fields are unchanged |
| Amendments.Accept | src/context/AmendmentsContext.tsx:72-103 | a 401 or a body that is not a list gives an empty list for that chamber only; otherwise the items, tagged |
| Amendments.FetchWith | src/context/AmendmentsContext.tsx:56-110 | for a client resolving a given set of statuses: a rejected request keeps both lists and sets the error, and resolved responses each fill their chamber's list |
| Amendments.FetchAmendments | src/context/AmendmentsContext.tsx:56-110 | without authentication only `loading` clears; a thrown request or a status outside 2xx (which the HTTP client rejects) keeps both lists and sets the error; otherwise each chamber's list comes from its own response |
| Amendments.UnauthorizedCheckUnreachable | src/context/AmendmentsContext.tsx:72-95 | a 401 from either chamber keeps both old lists and shows the fetch error, so the 401 checks never empty a list |
| Amendments.FetchAmendmentsIntended | src/context/AmendmentsContext.tsx:72-95 | with 401 let through, a 401 empties that chamber's list, loads the other and sets no error |
| Amendments.IntendedAgreesWithout401 | src/context/AmendmentsContext.tsx:56-110 | the intended fetch and the program's fetch agree on every fetch without a 401 |
| Amendments.OnSessionChange | src/context/AmendmentsContext.tsx:112-122 | the unauthenticated status clears both lists and `loading`; a pending status changes nothing; an authenticated one runs `fetchAmendments` as the program behaves, so a 401 from either chamber keeps both lists and sets the error |
| Amendments.ByBill | src/context/AmendmentsContext.tsx:128-133 | a bill's lookup holds exactly the amendments of either list with that bill number |
| Amendments.ByBillSplits | src/context/AmendmentsContext.tsx:128-133 | the lookup is the senate matches in order followed by the house matches in order; its length is the sum of the two counts |
| Amendments.SenateFirst | src/context/AmendmentsContext.tsx:129-132 | with tagged lists, no house amendment comes before a senate one |
| SortState.Choose | src/components/AmendmentList.tsx:49-56 | choosing the current column flips the direction, and any other column starts ascending |
| SortState.ChooseTwice | src/app/dashboard/by-bill/page.tsx:95-102 | choosing the current column twice restores the sort |
| SortState.ChooseNewThenAgain | src/app/dashboard/by-bill/page.tsx:95-102 | a new column chosen twice sorts descending |
| AmendmentList.EmptyTermMatches | src/components/AmendmentList.tsx:24-31 | every amendment matches the empty term |
| AmendmentList.Search | src/components/AmendmentList.tsx:24-31 | the search keeps an amendment exactly when the lower-cased term occurs in its lower-cased bill, LCO or calendar number, in list order; the empty term keeps all |
| AmendmentList.AsWrittenInconsistent | src/components/AmendmentList.tsx:34-46 | as written, a value compares below itself, and two empty values, or a missing and an empty one, each claim to go after the other |
| AmendmentList.Compare | src/components/AmendmentList.tsx:34-46 | corrected comparator: falsy values go last and tie with each other; equal values tie; other values follow string order in the chosen direction |
| AmendmentList.CompareAgreesOffTies | src/components/AmendmentList.tsx:34-46 | the correction agrees with the code as written wherever the values differ and are not both falsy |
| AmendmentList.CompareAntisymmetric | src/components/AmendmentList.tsx:34-46 | swapping the operands negates the corrected comparator |
| AmendmentList.CompareTransitive | src/components/AmendmentList.tsx:34-46 | the corrected comparator's "not after" is transitive |
| AmendmentList.LeqIsTotalPreorder | src/components/AmendmentList.tsx:34-46 | the corrected order is total and transitive for every column and direction |
| AmendmentList.SortedRows | src/components/AmendmentList.tsx:33-46 | the rows are a permutation of the search result, sorted by the chosen column and direction, and rows that tie keep their search order |
| AmendmentList.Toggle | src/components/AmendmentList.tsx:59-72 | clicking a selected amendment removes it and keeps the others in order; clicking another appends it and drops the oldest beyond two |
| AmendmentList.ToggleKeepsSelectionValid | src/components/AmendmentList.tsx:59-72 | the selection stays duplicate-free with at most two entries |
| AmendmentList.ToggleUndo | src/components/AmendmentList.tsx:59-72 | with fewer than two selected, clicking a new amendment twice restores the selection |
| AmendmentList.CompareTarget | src/components/AmendmentList.tsx:75-82 | the link exists exactly with two selected and a non-empty list, and it is exactly `/dashboard/bill/<first row's bill>/compare?left=<first selected>&right=<second selected>` |
| BillGroups.GroupsFromLookup | src/app/dashboard/by-bill/page.tsx:27-35 | the `reduce` holds under each bill number exactly that bill's amendments, in order |
| BillGroups.GroupsFromKeys | src/app/dashboard/by-bill/page.tsx:28-35 | the grouping has a key exactly for the bill numbers some amendment carries |
| BillGroups.MaxOf | src/app/dashboard/by-bill/page.tsx:48 | `Math.max` of a non-empty list is a member of it and at least every member |
| BillGroups.LatestDate | src/app/dashboard/by-bill/page.tsx:45-50 | the latest date is the largest amendment time, or 0 for a bill without amendments |
| BillGroups.Chambers | src/app/dashboard/by-bill/page.tsx:44 | the chambers are duplicate-free, are exactly those occurring in the group, and are listed in the order of their first appearance among the group's amendments |
| BillGroups.Groups | src/app/dashboard/by-bill/page.tsx:38-52 | one group per bill, in the bills' order, with `count` equal to the number of its amendments |
| BillGroups.GroupIsBillLookup | src/app/dashboard/by-bill/page.tsx:26-53 | a bill's group holds exactly that bill's senate then house amendments; its chambers and latest date are taken over them |
| BillGroups.SearchGroups | src/app/dashboard/by-bill/page.tsx:56-62 | the search keeps a group exactly when the lower-cased term occurs in its lower-cased bill number; the empty term keeps all |
| BillGroups.ByChamber | src/app/dashboard/by-bill/page.tsx:64-77 | `all` keeps every group; `senate` or `house` needs that chamber; `both` needs both |
| BillGroups.LocaleCompare | src/app/dashboard/by-bill/page.tsx:83-84 | the comparison is 0 exactly for equal numbers and negative exactly when the first is below the second |
| BillGroups.LeqMeaning | src/app/dashboard/by-bill/page.tsx:80-91 | ascending means bill numbers in string order or dates oldest first, and descending means the reverse |
| BillGroups.LeqIsTotalPreorder | src/app/dashboard/by-bill/page.tsx:80-91 | the view's order is total and transitive |
| BillGroups.Visible | src/app/dashboard/by-bill/page.tsx:55-92 | the shown groups are a permutation of the searched and filtered groups, sorted, with exactly the expected members, and groups that tie keep the order they had before the sort |
| BillGroups.TiesMeaning | src/app/dashboard/by-bill/page.tsx:80-91 | two groups tie exactly when they have the same bill number (number column) or the same latest date (date column) |
| BillGroups.Render | src/app/dashboard/by-bill/page.tsx:56-92 | with no search and no chamber filter, the memoised group array is itself left in the shown order; otherwise it is left unchanged |
| BillGroups.AllTiedKeepOrder | src/app/dashboard/by-bill/page.tsx:56-92 | an unfiltered render where every group ties shows the memoised array in its current order |
| BillGroups.NumberThenDate | src/app/dashboard/by-bill/page.tsx:56-92 | sorting by number and then by date, with all latest dates equal, still shows bill-number order |
| ComparePage.Set | src/app/dashboard/compare/page.tsx:74-78 | updating one side leaves the other side and the comparing flag alone |
| ComparePage.SourceChange | src/app/dashboard/compare/page.tsx:42-48 | changing a side's source resets it to that source with no address and no bill or LCO number |
| ComparePage.Choose | src/app/dashboard/compare/page.tsx:50-72 | a bill choice takes the link of the first bill with that number, or `""`; an amendment choice takes the first matching LCO link, or `""`; a typed address is kept verbatim |
| ComparePage.SelectionChange | src/app/dashboard/compare/page.tsx:50-79 | only the chosen side changes, and amendments are looked up senate list first |
| ComparePage.HandleCompare | src/app/dashboard/compare/page.tsx:36-40 | the comparison opens exactly when both sides have an address |
| ComparePage.Label | src/app/dashboard/compare/page.tsx:214-227 | "First PDF"/"Second PDF" for typed addresses, `Bill n` for bills, `Amendment n` for amendments |
| ComparePage.HandlersKeepConsistent | src/app/dashboard/compare/page.tsx:42-79 | every handler keeps each side's bill or LCO number present whenever its address came from one |
| ComparePage.ReadyLabelsKnown | src/app/dashboard/compare/page.tsx:196-227 | once the comparison can open, no heading prints `undefined` |
| Access.AuthApiIsApi | src/middleware.ts:10-18 | `/api/auth` paths are interface paths and neither admin, sign-in nor dashboard paths |
| Access.Anonymous | src/middleware.ts:21-33 | without a session, non-auth interface paths get 401; admin and dashboard pages redirect to sign-in with the path as callback; nothing else is stopped |
| Access.AuthApiAlwaysPasses | src/middleware.ts:12-23 | `/api/auth` paths pass with or without a session |
| Access.SignedInLeavesLogin | src/middleware.ts:36-38 | a signed-in user on `/login…` is sent to the dashboard |
| Access.NonAdminKeptOut | src/middleware.ts:41-48 | a signed-in non-admin on an admin path gets 403 under `/api/` and is sent home otherwise |
| Access.AdminPasses | src/middleware.ts:21-50 | an admin is only ever redirected away from `/login`, and everything else passes |
| Access.Handle | src/middleware.ts:54-64 | paths outside the matcher pass untouched |
| Invites.Delete | src/app/api/admin/invites/route.ts:91-93 | deleting removes exactly the invites with that id and leaves the users |
| Invites.DeleteUndoesAppend | src/app/api/admin/invites/route.ts:87-98 | deleting a just-created invite restores the store exactly |
| Invites.CreateInvite | src/app/api/admin/invites/route.ts:43-108 | 401 without an admin session, 400 without an email or with an active invite, 500 with the store unchanged when the mail fails; otherwise a new active invite expiring a week later, created by the session user |
| Invites.CreateKeepsOneActive | src/app/api/admin/invites/route.ts:57-84 | a request handled on its own never gives an email a second usable invite |
| Invites.RegistrantOf | src/app/api/admin/invites/route.ts:23-30 | the user shown with an invite registered with that invite, and no user means none did |
| Invites.ListInvites | src/app/api/admin/invites/route.ts:13-41 | 401 without an admin session; otherwise every invite once, newest first, each with its registrant |
| Invites.MarkUsed | src/app/api/auth/register/route.ts:61-64 | only the invite with that id is marked used, and nothing else changes |
| Invites.Apply | src/app/api/auth/register/route.ts:51-67 | the user is added and the invite is spent, together |
| Invites.Register | src/app/api/auth/register/route.ts:5-80 | registration succeeds exactly with all three fields, a usable invite for that email and code, and a new email; any failure is a 400 with the store unchanged; the reply never holds the password |
| Invites.RegisterOnce | src/app/api/auth/register/route.ts:17-67 | after a registration its invite redeems nothing, and repeating the request fails without change |
| Invites.CreateInviteKeepsValid | src/app/api/admin/invites/route.ts:77-98 | creating an invite keeps ids unique and every account made with an invite tied to its own spent invite |
| Invites.SeededAdminValid | scripts/createAdmin.ts:18-26 | the store holding only the seeded admin, an account with no invite, is valid |
| Invites.ApplyKeepsValid | src/app/api/auth/register/route.ts:51-67 | adding an account for a new email with an unspent invite keeps the store valid, with or without accounts made without an invite |
| Invites.RegisterKeepsValid | src/app/api/auth/register/route.ts:36-67 | registration keeps unique emails, unique invites per account and spent invites |
| Invites.StatusAt | src/app/admin/invites/page.tsx:175-179 | "Used" exactly when used; "Expired" exactly when unused and past expiry; otherwise "Pending" |
| Invites.PendingAndActive | src/app/admin/invites/page.tsx:175-179 | a usable invite shows pending; a pending invite that is not usable is exactly one expiring at this instant |
| Invites.UserCell | src/app/admin/invites/page.tsx:189 | the cell shows the name, else the email, else `-` |
| Invites.AfterSubmit | src/app/admin/invites/page.tsx:59-88 | success shows a confirmation and clears the field; failure keeps the field and shows the server's message or a default |

## Left out

- Fetching and parsing PDFs, the proxy route, database access, mail
  delivery, the summarisation routes and the scripts are network or
  foreign code. Their results enter as parameters.
- The `diff` library's line-diff algorithm. Its output is an input
  sequence of parts, and `GatedPanesShowTexts` assumes the library's
  reconstruction property.
- Scroll synchronisation, debug panels, loading spinners and all
  rendering beyond which lines a pane or listing shows are DOM and
  floating-point behaviour.
- The quoted-block indentation pass (pdf-text route.ts, lines 202-210)
  never changes the text. Its `.` never matches a line break, so the
  multi-line branch cannot run.
- The district-join pass empties the two lines it consumes (pdf-text
  route.ts, lines 76-77) rather than removing them. The model keeps them
  as blank lines in the same way, so no removal is modelled.
- Case mapping (`toLowerCase`, `toUpperCase`) is ASCII only.
- Characters are Unicode scalar values. So string lengths (the 120-character
  cap of pdf-text route.ts, line 165, among them), `localeCompare` and
  `<`/`>` on strings count and compare code points, not UTF-16 code
  units. The two agree only for text without characters above U+FFFF.
- Text.Lower: letters outside ASCII keep their case, because full
  Unicode case mapping is not modelled.
- BillGroups.LocaleCompare: uses code-point order rather than the
  locale's collation.
- BillGroups.GroupsFrom: bill numbers that name `Object.prototype`
  members (`constructor` and the like) are treated as ordinary keys. In
  the source such a key makes `push` fail.
- BillGroups.LatestDate: times are integers, so an unparsable date (NaN)
  is not modelled.
- Invites.CreateInvite: requires an id that no invite has, because the
  database generates ids. The random 16-byte code is a parameter.
- Invites.Register: requires a user id that no user has, because the
  database generates ids. `findFirst` is taken as the first match in
  list order, and the password hash is a parameter.
- Invites.ListInvites: the order among invites created at the same
  instant is the database's choice. The contract states only that the
  rows are sorted newest first.
- Invites.CreateKeepsOneActive: each request is taken as atomic. The
  check for an active invite and the creation (route.ts, lines 57-65 and
  77-84) are separate queries with no transaction, so two concurrent
  requests for one email can both create an invite. That race is not
  modelled.
- Invites.StatusAt: the page compares against the browser's clock, which
  is the parameter `now`. `toLocaleDateString` is display only.
- Comparison.Load: the outer `catch` (lines 152-167) is left out, because
  no modelled step can throw. The `debugInfo` state is not modelled.
- Access.Decide: the token's `isAdmin` is a boolean. Any other truthy
  value is not modelled.
- The admin invites page's list refresh and its redirect when signed out
  are rendering and navigation.

## Findings

| source | as written | input that shows it | evidently intended | confidence | as-written member | corrected member |
|---|---|---|---|---|---|---|
| src/components/AmendmentList.tsx:34-46 | the comparator never returns 0 for two present values, and it returns 1 for a falsy value before checking whether the other one is falsy too | two rows with the same date give -1 both ways; an empty value against a missing one gives 1 both ways | equal values and two falsy values tie, so the comparator is a consistent order and `sort` has a defined result | not executed | AmendmentList.AsWrittenInconsistent | AmendmentList.Compare |
| src/context/AmendmentsContext.tsx:72-95 | the 401 checks run after the HTTP client has resolved the request, which by default it does only for 2xx statuses | the senate list answers 401 (a lapsed session): the client rejects, the catch sets "Failed to fetch amendments", and both lists keep their old contents | a 401 empties that chamber's list without an error, as the checks are written to do | not executed | Amendments.UnauthorizedCheckUnreachable | Amendments.FetchAmendmentsIntended |

The corrected comparator is the one the table's rows are sorted by
(`AmendmentList.SortedRows`, through `AmendmentList.LeqIsTotalPreorder`).
`AmendmentList.CompareAgreesOffTies` shows that it differs from the code
as written only on ties.

For the amendment store, `Amendments.FetchAmendments` is the program's
behaviour and `Amendments.FetchAmendmentsIntended` the behaviour the 401
checks describe. `Amendments.OnSessionChange` runs the former, as the
program does; the intended fetch has no caller in the model and stands
only as the corrected half of this finding.
`Amendments.IntendedAgreesWithout401` shows the two differ only when a
chamber answers 401.
