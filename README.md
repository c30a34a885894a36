# Favicon manager of a browser tab

This project models the favicon handler of a browser tab
(`Client/Frontend/Browser/FaviconManager.swift`) and proves properties of the model.
A script on the page reports the icons it finds: a dictionary from each icon URL to
its type code, plus a `documentLocation` entry. The handler then does the following:

1. It clears the tab's icons.
2. It drops reports that are malformed, come from an unparsable page URL, or come
   from the browser's own local web server.
3. It collects a candidate `Favicon` for each entry. The entry needs an integer type
   code, a valid URL and a known icon type.
4. It repeats three steps:
   - select the best remaining candidate: going through the list, a later icon
     replaces the best so far when its type is preferred; otherwise it replaces the
     best when both URLs carry a size hint (from `extractNumberFromUrl`) and its hint
     is larger;
   - remove the selected candidate from the list;
   - download it.

   A failed download starts the next round. The first image that arrives is stored in
   the profile, unless the tab is private. If the tab had no icon, the Spotlight
   helper is also told. The resolved favicon (the final URL, the candidate's type and the image's size) is appended to the tab's icons.

Modules:

- `Wrappers`: Swift's optionals.
- `SwiftStrings`: the Swift and Foundation string operations the handler relies on:
  - `Int(text)` with 64-bit bounds;
  - `contains`;
  - NSString's `lastPathComponent`;
  - `componentsSeparatedByString`.
- `SizeHint`: `extractNumberFromUrl`.
- `Favicons`: the value-level model:
  - report screening;
  - candidate collection;
  - one step of the selection loop and its fold;
  - the filter;
  - the download chain, run against a sequence of download outcomes.
- `FaviconManagement`: the stateful handler, with these parts:
  - the tab (`Browser`), whose icon list is updated in place;
  - the manager (`FaviconManager`), whose calls into the favicon store and the
    Spotlight helper are recorded as a ghost event log;
  - the candidate and selection loops, as methods proved equal to the functions in
    `Favicons`.

### The size hint is not only a tie-break

One might expect the size hint to break ties only between icons of the same type.
The code does something else (lines 103-123): the size hint
decides whenever the new icon's type is not strictly preferred. That includes an icon
of a less preferred type with a larger number, which then replaces the current best.

The model follows the code, so the selection depends on the order in which the
dictionary yields its entries:

- `Favicons.LowerTypeLargerNumberReplaces` proves this in general.
- `Favicons.SelectionDependsOnOrder` shows it on a concrete pair of icons.

## Model

| member | source | states |
|---|---|---|
| SwiftStrings.ParseInt | Client/Frontend/Browser/FaviconManager.swift:55 | `Int(text)` yields nil for the empty string; a value it yields lies within 64-bit `Int`; for a digits-only text the value is that text's decimal value |
| SwiftStrings.ParseIntDecimal | Client/Frontend/Browser/FaviconManager.swift:112 | `Int(text)` reads back every in-range decimal rendering: unsigned, with `+`, and with `-` (negated) |
| SwiftStrings.Decimal | Client/Frontend/Browser/FaviconManager.swift:112 | a decimal rendering is non-empty and made of digits only |
| SwiftStrings.DecimalValue | Client/Frontend/Browser/FaviconManager.swift:112 | the digit value of a number's decimal rendering is the number itself |
| SwiftStrings.ContainsInfix | Client/Frontend/Browser/FaviconManager.swift:44 | `contains` holds whenever the needle occurs anywhere inside the text |
| SwiftStrings.StripTrailingSlashes | Client/Frontend/Browser/FaviconManager.swift:108 | the result is a prefix of the path; the dropped characters are all `/` and the result does not end in `/` |
| SwiftStrings.AfterLastSlash | Client/Frontend/Browser/FaviconManager.swift:108 | the result is the longest suffix with no `/`: it is a suffix, it has no `/`, and the character before it is `/` |
| SwiftStrings.AfterLastSlashJoin | Client/Frontend/Browser/FaviconManager.swift:108 | the text after the last slash of `dir/name` is `name` |
| SwiftStrings.LastPathComponentJoin | Client/Frontend/Browser/FaviconManager.swift:108 | `lastPathComponent` of `dir/name` followed by any number of slashes is `name` |
| SwiftStrings.LastPathComponentOf | Client/Frontend/Browser/FaviconManager.swift:108 | `lastPathComponent` of `dir/name` is `name` |
| SwiftStrings.Split | Client/Frontend/Browser/FaviconManager.swift:110 | splitting yields at least one part, and no part holds the separator |
| SwiftStrings.SplitKeepsCharacters | Client/Frontend/Browser/FaviconManager.swift:110 | splitting only drops separators: every character of a part comes from the input |
| SwiftStrings.JoinSplit | Client/Frontend/Browser/FaviconManager.swift:110 | joining the parts with the separator restores the input (round trip) |
| SwiftStrings.SplitAround | Client/Frontend/Browser/FaviconManager.swift:110 | splitting `a + sep + b` gives the parts of `a` followed by the parts of `b` |
| SwiftStrings.SplitWithoutSeparator | Client/Frontend/Browser/FaviconManager.swift:110 | a text without the separator splits into itself alone |
| SwiftStrings.SplitOnlySeparators | Client/Frontend/Browser/FaviconManager.swift:110 | `n` separators split into `n + 1` empty parts |
| SizeHint.LastNumber | Client/Frontend/Browser/FaviconManager.swift:111-116 | when every part is made of digits, the number found by the reverse scan is non-negative and fits in `Int` |
| SizeHint.NumberIn | Client/Frontend/Browser/FaviconManager.swift:109-116 | a number found in a path component is between 0 and `Int.max` |
| SizeHint.ExtractNumberFromUrl | Client/Frontend/Browser/FaviconManager.swift:107-117 | any size hint is between 0 and `Int.max`: the masking removes every sign, so a hint is never negative |
| SizeHint.PartsAreDigits | Client/Frontend/Browser/FaviconManager.swift:109-110 | after `\D` is replaced by spaces, every part between spaces is made of digits only |
| SizeHint.LastNumberSkipsEmpty | Client/Frontend/Browser/FaviconManager.swift:111-115 | trailing empty parts never stop the reverse scan |
| SizeHint.SplitDigitsThenSpaces | Client/Frontend/Browser/FaviconManager.swift:110 | a digit run followed by `n` spaces splits into the run and `n` empty parts |
| SizeHint.SplitMaskedRun | Client/Frontend/Browser/FaviconManager.swift:110 | a masked prefix ending in a space, followed by a digit run and spaces, splits into the prefix's parts, the run, and empty parts |
| SizeHint.SplitAfterSpace | Client/Frontend/Browser/FaviconManager.swift:110 | the text after a final space splits on its own, after the parts before that space |
| SizeHint.LastNumberDropsTrailingSpace | Client/Frontend/Browser/FaviconManager.swift:110-116 | a trailing space adds only an empty part, so the scan finds the same number |
| SizeHint.LastNumberOfMasked | Client/Frontend/Browser/FaviconManager.swift:111-116 | a masked text ending in a space holds the same last number as the text before that space |
| SizeHint.NoDigitsNoNumber | Client/Frontend/Browser/FaviconManager.swift:107-117 | a path component without digits yields nil |
| SizeHint.NumberInLastRun | Client/Frontend/Browser/FaviconManager.swift:109-116 | the hint is the last maximal digit run when its value fits in `Int`; a run that overflows is skipped and the scan falls back to the text before it |
| SizeHint.ExtractNumberFromRun | Client/Frontend/Browser/FaviconManager.swift:107-117 | for `dir/…digits…` whose last digit run fits in `Int`, the hint is that run's value |
| SizeHint.ExtractNumberExample | Client/Frontend/Browser/FaviconManager.swift:106 | `…/icon-72x72.png` gives 72, as the source comment promises |
| Favicons.SelfReferentialReportDropped | Client/Frontend/Browser/FaviconManager.swift:44-46 | a report whose page URL contains the local web server's base is dropped |
| Favicons.CandidatesFromOrder | Client/Frontend/Browser/FaviconManager.swift:50-59 | for any sequence of reported keys, a favicon is collected if and only if its URL is among those keys, its entry passes the line-51/55 test, and it is built from that entry |
| Favicons.CandidatesExactly | Client/Frontend/Browser/FaviconManager.swift:50-59 | a favicon is a candidate if and only if its URL is a reported key other than `documentLocation`, the entry passes the line-55 test, and the favicon is built from that entry as on line 56 |
| Favicons.CandidatesDistinct | Client/Frontend/Browser/FaviconManager.swift:50-57 | no two candidates share a URL, because dictionary keys are unique |
| Favicons.Fold | Client/Frontend/Browser/FaviconManager.swift:98-125 | the selection keeps the current best or picks one of the remaining icons |
| Favicons.BestOf | Client/Frontend/Browser/FaviconManager.swift:97-125 | the best icon is one of the candidates |
| Favicons.FoldAppend | Client/Frontend/Browser/FaviconManager.swift:98-125 | selection over a longer list is one more loop step applied to the selection over the shorter list |
| Favicons.BestOfAppend | Client/Frontend/Browser/FaviconManager.swift:98-125 | the best of a list with one more icon is one loop step from the best of the list |
| Favicons.BestOfSingle | Client/Frontend/Browser/FaviconManager.swift:99-101 | the best of a single candidate is that candidate |
| Favicons.PreferredReplacesBest | Client/Frontend/Browser/FaviconManager.swift:103-104 | an icon whose type is preferred to the current best replaces it |
| Favicons.NumberDecidesOtherwise | Client/Frontend/Browser/FaviconManager.swift:105-123 | an icon whose type is not preferred replaces the best exactly when both URLs carry a size hint and its hint is larger |
| Favicons.FoldKeepsUnnumbered | Client/Frontend/Browser/FaviconManager.swift:105-123 | a best icon without a size hint is kept against icons whose type is not preferred to it |
| Favicons.FirstSeenRetained | Client/Frontend/Browser/FaviconManager.swift:98-123 | when the first icon has no size hint and no type is preferred to its type, it stays the best |
| Favicons.LargerNumberWinsEitherOrder | Client/Frontend/Browser/FaviconManager.swift:105-123 | between two icons of the same, not self-preferred type, the one with the larger size hint wins in either order |
| Favicons.LowerTypeLargerNumberReplaces | Client/Frontend/Browser/FaviconManager.swift:103-123 | a less preferred icon with a larger hint wins when it comes second, and loses when it comes first |
| Favicons.SelectionDependsOnOrder | Client/Frontend/Browser/FaviconManager.swift:98-125 | with the two icons `icon-16x16.png` (type 2) and `icon-72x72.png` (type 1), the two iteration orders select different icons |
| SizeHint.SixteenPixelIcon | Client/Frontend/Browser/FaviconManager.swift:107-117 | `…/icon-16x16.png` gives 16 |
| Favicons.Without | Client/Frontend/Browser/FaviconManager.swift:126 | the filter keeps exactly the icons not equal to the best, and shrinks the list when the best is in it |
| Favicons.WithoutDistinct | Client/Frontend/Browser/FaviconManager.swift:126 | among icons with distinct URLs, filtering out the `k`-th icon removes that position and nothing else |
| Favicons.RemoveAtMultiset | Client/Frontend/Browser/FaviconManager.swift:126 | removing one position removes exactly one copy of its icon |
| Favicons.WithoutAbsent | Client/Frontend/Browser/FaviconManager.swift:126 | filtering out an absent icon changes nothing |
| Favicons.WithoutKeepsDistinct | Client/Frontend/Browser/FaviconManager.swift:126 | filtering keeps URLs distinct and removes exactly one copy of the best icon |
| Favicons.ChainSelectsEachAtMostOnce | Client/Frontend/Browser/FaviconManager.swift:92-127 | the retry chain never downloads an icon twice, downloads only candidates, and makes at most as many attempts as there are candidates |
| Favicons.DownloadedComesFromCandidate | Client/Frontend/Browser/FaviconManager.swift:64-87 | a delivered image belongs to the last icon the chain selected, which is a candidate |
| Favicons.FailuresExhaust | Client/Frontend/Browser/FaviconManager.swift:69-95 | when every URL is valid and every download fails, the chain ends because no candidates are left |
| Favicons.ExhaustedTriedAll | Client/Frontend/Browser/FaviconManager.swift:92-127 | a chain that ran out of candidates tried each candidate exactly once |
| Favicons.ValidUrlsNeverRejected | Client/Frontend/Browser/FaviconManager.swift:64-65 | a chain over icons whose URLs all pass `NSURL(string:)` never stops on a refused URL |
| Favicons.CandidatesHaveValidUrls | Client/Frontend/Browser/FaviconManager.swift:55 | every candidate's URL passed `NSURL(string:)` |
| Favicons.CandidatesNeverRejected | Client/Frontend/Browser/FaviconManager.swift:55-65 | the handler's chain never ends on a refused URL: the check at line 65 repeats the one at line 55, so that branch cannot happen for the handler |
| Favicons.CandidateFailuresExhaust | Client/Frontend/Browser/FaviconManager.swift:50-95 | when every download of the handler's chain fails, each candidate is tried exactly once (the tried icons and the candidates are equal as multisets) and the chain ends silently with none left |
| FaviconManagement.CollectCandidates | Client/Frontend/Browser/FaviconManager.swift:49-59 | the collection loop returns the accepted entries in iteration order: exactly the candidates, with distinct URLs |
| FaviconManagement.SelectBest | Client/Frontend/Browser/FaviconManager.swift:97-125 | the selection loop keeps the best of the icons seen so far and returns the best of the whole list, which is one of the candidates |
| FaviconManagement.FaviconManager.constructor | Client/Frontend/Browser/FaviconManager.swift:15-17 | the manager holds its tab, and no store or Spotlight calls have been made yet |
| FaviconManagement.FaviconManager.RecordIcon | Client/Frontend/Browser/FaviconManager.swift:81-87 | a delivered icon is appended to the tab. Unless the tab is private, the store receives it, and the Spotlight helper receives the image when the tab had no icon before |
| FaviconManagement.FaviconManager.DownloadBestIcon | Client/Frontend/Browser/FaviconManager.swift:64-127 | the tab gains the resolved icon of the chain's first delivered image and nothing else. The calls are the store call and, for a tab that had no icon, the Spotlight call; a private tab makes none. At most one icon is appended |
| FaviconManagement.FaviconManager.UserContentController | Client/Frontend/Browser/FaviconManager.swift:35-131 | without a tab, nothing happens. A rejected report leaves the tab's icons empty and makes no calls. An accepted report runs the chain over the candidates, starting from an empty icon list, so a delivered image also reaches the Spotlight helper unless the tab is private |

## Left out

- Loading the page script in `init` (lines 19-24) is left out. It reads a bundle file and registers a user script.
- The handler names at lines 27-33 are left out. They are constant strings used for registration.
- The image download (`SDWebImageManager`, line 66) is replaced by a sequence of outcomes, one per started download: failed, or loaded with a final URL and an image. When the outcomes run out, the download is taken as not yet completed.
- The download options (line 62: low priority, and a memory-only cache for private tabs) affect only how the image library schedules and caches the download, so they are not modelled.
- Image sizes are given as integers. The truncation of the floating-point `CGSize` at lines 70-71 is not modelled.
- `NSDate()` (lines 56 and 67) is a clock reading, so the model's `Favicon` has no date.
- The bodies of `makeFaviconAvailable` and `noFaviconAvailable` (lines 133-142) talk to the Spotlight helper. The model records the call as an event.
- The failure branch at lines 73-76 tests for a single `.Guess` candidate, but its body is commented out. The model gives it no effect.
- Concurrency is not modelled. The completion handler given to the image library at line 66 runs later. A report that arrives while an earlier chain is still downloading can interleave with it. The model runs one report's chain to its end, sequentially.
- `NSURL(string:)`, `IconType(rawValue:)` and `isPreferredTo` are defined outside this file. They are parameters of the model (`Platform`), and the results hold for every choice of them.
- `WebServer.sharedInstance.base` is also a parameter of the model.
- The `Favicon` type is defined outside this file. The model compares favicons by value for the filter at line 126.
- `String.contains` is an extension defined outside this file. The model reads it as substring containment, so an empty needle is always contained.
- `\D` and `Int(...)` are modelled for ASCII digits only. Other Unicode decimal digits are not modelled.
- `Int` is taken to be 64 bits wide.
- The weak reference to the tab is modelled as a nullable field. Its release by the system is not modelled.
- `LegacyWebViewScripting.swift` is not part of this model. It registers message handlers and user scripts with a legacy web view (lines 17-52) and holds no favicon logic.
