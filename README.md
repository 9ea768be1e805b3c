# Job directory search, modelled in Dafny

This project models the client-side search core of the LinkedIn job
directory page (`_site/assets/js/main.js`, class `JobDirectoryApp`):

- `editDistance(a, b)`: the Levenshtein table filled row by row. It is
  modelled as the method `EditDistance.EditDistance` over a two-dimensional
  array. The method is proved to return `Dist(a, b)`, the recurrence that the
  table implements. That recurrence is then proved equal to the textbook
  Levenshtein distance, and symmetric, zero exactly on equal strings, and
  bounded.
- `fuzzySearch(text, term)`: a pure predicate (`Fuzzy.FuzzySearch`). It uses
  `includes` (`Text.Contains`), `split(' ')` (`Text.Split`) and
  `max(1, floor(0.2 * length))` as integer `max(1, length / 5)`
  (`Fuzzy.Tolerance`).
- `filterContent(term)` with `updateResultsCount`, `showNoResults` and
  `hideNoResults`: the part of the page they control. This is which items
  are displayed, the "Showing n of m results" banner and the "no results"
  box. It is given as the datatype `Filtering.View`, which is a field of the
  class `Directory.JobDirectoryApp`. The filter as written is modelled
  beside it, together with two ways it goes wrong (see "Findings").
- `addToSearchHistory(term)` and the click log of `trackLinkClick`: bounded
  lists held in fields of the class. Both are specified by
  `Logs.PushHistory` and `Logs.AppendClick`.

Files: `text.dfy` holds the string operations, `edit_distance.dfy` the edit
distance, `fuzzy.dfy` the matching rule, `logs.dfy` the history and click
log, `filter.dfy` the display decision and `app.dfy` the application object.

## Model

| member | source | states |
|---|---|---|
| `EditDistance.EditDistance` | _site/assets/js/main.js:153-179 | The nested-loop fill of the `(len b + 1) x (len a + 1)` table returns `Dist(a, b)`. Row 0 and column 0 make the distance against the empty string equal the other string's length. |
| `EditDistance.Dist` | _site/assets/js/main.js:164-178 | Deliberately without a contract of its own: the recurrence that the table cells hold, over a prefix of `a` and a prefix of `b`. What it promises is stated by `EditDistance.EditDistance`, `EditDistance.DistIsLevenshtein`, `EditDistance.DistBounds` and the other lemmas below. |
| `EditDistance.Levenshtein` | _site/assets/js/main.js:153-179 | The independent textbook reference against which the table's recurrence is checked. It is never more than the longer length. |
| `EditDistance.DistPrefixStep` | _site/assets/js/main.js:164-175 | One table cell: equal characters copy the diagonal. Otherwise the cell is the least of diagonal, left and up, each plus one. |
| `EditDistance.Min3` | _site/assets/js/main.js:169-173 | `Math.min` of three: the result is at most each argument and equals one of them. |
| `EditDistance.DistIsLevenshtein` | _site/assets/js/main.js:164-178 | Copying the diagonal on equal characters, without weighing the other neighbours, gives the textbook Levenshtein distance. |
| `EditDistance.DistStepA` | _site/assets/js/main.js:169-173 | Dropping the last character of `a` changes the distance by at most one, in either direction. |
| `EditDistance.DistStepB` | _site/assets/js/main.js:169-173 | Dropping the last character of `b` changes the distance by at most one, in either direction. |
| `EditDistance.DistSelf` | _site/assets/js/main.js:166-167 | Every string is at distance 0 from itself. |
| `EditDistance.DistZeroIff` | _site/assets/js/main.js:164-178 | The distance is 0 if and only if the strings are equal. |
| `EditDistance.DistSymmetric` | _site/assets/js/main.js:153-179 | `editDistance(a, b) == editDistance(b, a)`. |
| `EditDistance.DistBounds` | _site/assets/js/main.js:156-178 | The distance is at least the difference of the lengths and at most the longer length. |
| `EditDistance.DistNoCommonChar` | _site/assets/js/main.js:168-173 | Strings with no character in common are exactly the longer length apart. |
| `EditDistance.DistDeleteOne` | _site/assets/js/main.js:164-178 | Leaving out one character costs at most one edit. |
| `EditDistance.KittenSitting` | _site/assets/js/main.js:153-179 | "kitten" and "sitting" are 3 edits apart. It is derived row by row through the table, one lemma per row (`KittenSittingRow1` to `KittenSittingRow7`). |
| `Text.Contains` | _site/assets/js/main.js:138 | `includes`: true if and only if the pattern occurs at some index. |
| `Text.ContainsTail` | _site/assets/js/main.js:138 | The occurrences past index 0 are the occurrences in the tail, shifted by one. |
| `Text.ContainsTransitive` | _site/assets/js/main.js:138-143 | A substring of a substring is a substring. |
| `Text.ContainsChars` | _site/assets/js/main.js:143 | Every character of a substring occurs in the string. |
| `Text.Split` | _site/assets/js/main.js:141 | `split(' ')`: at least one word, none containing the separator, each a substring. The first word is a prefix. Joining the words with the separator gives back the string. |
| `Text.SplitNoSeparator` | _site/assets/js/main.js:141 | A string without the separator splits into itself alone. |
| `Text.SplitConcat` | _site/assets/js/main.js:141 | Splitting `t1 + sep + t2` gives the words of `t1` followed by the words of `t2`. |
| `Text.SplitJoin` | _site/assets/js/main.js:146 | Splitting inverts joining words that do not contain the separator. |
| `Text.ToLower` | _site/assets/js/main.js:113 | `toLowerCase`: same length. Each upper-case ASCII letter becomes its lower-case letter (code + 32), no upper-case ASCII letter is left, and every other character is unchanged. |
| `Fuzzy.Tolerance` | _site/assets/js/main.js:148 | The allowed distance is at least 1. It is exactly 1 for words shorter than 10. From 10 characters up it is the length divided by 5, rounded down. |
| `Fuzzy.FuzzySearch` | _site/assets/js/main.js:136-151 | Deliberately without a contract of its own: `fuzzySearch`, the whole-term `includes` test or else the per-word test. What it promises is stated by `Fuzzy.MatchIffAllWordsMatch`, `Fuzzy.ConjunctiveQuery` and the lemmas below. |
| `Fuzzy.AllWordsMatch` | _site/assets/js/main.js:141-150 | Deliberately without a contract of its own: `words.every(...)` over `term.split(' ')`. `Fuzzy.SingleWordQuery` and `Fuzzy.FailingWordFails` state what it promises. |
| `Fuzzy.WordMatches` | _site/assets/js/main.js:142-149 | Deliberately without a contract of its own: one word's test, `includes` or else some text word within tolerance. `Fuzzy.EmptyWordPasses`, `Fuzzy.OneCharWordMatches` and `Fuzzy.ForeignWordFails` state what it promises. |
| `Fuzzy.MatchIffAllWordsMatch` | _site/assets/js/main.js:136-151 | The whole-term test is only a shortcut: a text matches exactly when every word of the term is a substring of the text or is within tolerance of one of the text's words. |
| `Fuzzy.SingleWordQuery` | _site/assets/js/main.js:141-149 | A term without a space matches exactly when that one word passes. |
| `Fuzzy.SubstringMatches` | _site/assets/js/main.js:138 | A text matches any term it contains, in particular the empty term. |
| `Fuzzy.ConjunctiveQuery` | _site/assets/js/main.js:141-150 | `t1 + " " + t2` matches exactly the texts that match both `t1` and `t2`. |
| `Fuzzy.FailingWordFails` | _site/assets/js/main.js:142-150 | One failing word makes the whole term fail. |
| `Fuzzy.EmptyWordPasses` | _site/assets/js/main.js:142-149 | The empty words that repeated spaces produce always pass, and so does any word of the text itself. |
| `Fuzzy.OneDeletionMatches` | _site/assets/js/main.js:146-148 | A one-word term that misses one character of a one-word text matches it. |
| `Fuzzy.ForeignWordFails` | _site/assets/js/main.js:143-149 | A word of two or more characters, none of which occurs in the text, never passes. |
| `Fuzzy.MisspelledExample` | _site/assets/js/main.js:136-151 | "microsft" finds "microsoft". |
| `Fuzzy.TwoWords` | _site/assets/js/main.js:141 | Two space-free words joined by one space split back into the two. |
| `Fuzzy.ExampleWords` | _site/assets/js/main.js:141 | "acme xyz" splits into "acme" and "xyz". |
| `Fuzzy.UnmatchedWord` | _site/assets/js/main.js:143-149 | "xyz" passes neither as a substring of "acme corp" nor as a near miss of one of its words. |
| `Fuzzy.UnmatchedWordExample` | _site/assets/js/main.js:136-151 | "acme xyz" does not find "acme corp". |
| `Fuzzy.OneCharWordMatches` | _site/assets/js/main.js:145-149 | A one-character term matches every text that has a one-character word, wherever that word stands. The term may even be a single space, which splits into two empty words. |
| `Fuzzy.WildcardExample` | _site/assets/js/main.js:136-151 | "*" finds "s & p global". |
| `Fuzzy.ForeignQueryExample` | _site/assets/js/main.js:136-151 | "xyz" does not find "s & p global". |
| `Logs.PushHistory` | _site/assets/js/main.js:199-205 | A known term leaves the history unchanged. A new term becomes the first entry, followed by the old entries in order, cut to `min(old length + 1, 10)`. No other term appears. At most 10 entries are kept. Distinctness is preserved. |
| `Logs.AppendClick` | _site/assets/js/main.js:220-222 | The log grows by one up to 100 entries. The new click is last, and the entries before it are the most recent old ones in order. Below 100 entries the log is just extended. |
| `Filtering.Visibility` | _site/assets/js/main.js:112-125 | One decision per item, in item order: displayed if and only if the name fuzzy-matches the term. |
| `Filtering.CountShown` | _site/assets/js/main.js:112-127 | `visibleCount` is at most the number of items. It equals that number if and only if every item is displayed, and is 0 if and only if none is. |
| `Filtering.FilterView` | _site/assets/js/main.js:90-134 | Items displayed are exactly those whose lower-cased name matches (all of them for the empty term), and the count counts them. The banner shows if and only if some item is hidden. The "no results" box shows if and only if a non-empty term hides every item. |
| `Filtering.FilterViewAsWritten` | _site/assets/js/main.js:90-134 | `filterContent` as written: items are displayed exactly when they match. With an empty term the "no results" box keeps its previous state; otherwise it shows exactly when every item is hidden. |
| `Filtering.BannerShown` | _site/assets/js/main.js:308-310 | The banner is displayed when the count is below the total. For a count within the total, it is hidden exactly when every item is shown. |
| `Filtering.ClearingRestoresPage` | _site/assets/js/main.js:95-105 | The empty term displays every item with a full count, no banner and no "no results" box. |
| `Filtering.ClearingKeepsNoResults` | _site/assets/js/main.js:95-105 | As written, clearing after a search that matched nothing displays every item but leaves the "no results" box displayed. |
| `Filtering.ClearingKeepsNoResultsExample` | _site/assets/js/main.js:95-133 | With the single item "acme corp", searching "acme xyz" and then clearing leaves the "no results" box displayed. |
| `Filtering.PatternRejected` | _site/assets/js/main.js:187 | Deliberately without a contract of its own: a sufficient condition only for `new RegExp('(' + term + ')', 'gi')` to throw. A leading `*` or `+` is a quantifier with nothing to repeat. Other rejected terms are not recognised (see "Left out"). |
| `Filtering.AbortedShown` | _site/assets/js/main.js:112-125 | The item flags after `highlightMatch` throws in the loop. Every item up to the first match gets its own decision, and every item after it keeps its previous flag. |
| `Filtering.FilterViewHighlighting` | _site/assets/js/main.js:90-134 | `filterContent` as written, including the regular expression that `highlightMatch` (line 187) builds from the raw term. When the pattern is rejected and an item matches, the loop aborts and the count, banner and "no results" box keep their old state. The contract states only the length. `Filtering.RejectedPatternKeepsState` states that the count, banner and box stay as they were, and `Filtering.RejectedPatternKeepsNoResults` states the case after a zero-result search. |
| `Filtering.RejectedPatternKeepsState` | _site/assets/js/main.js:113-133 | As written, when the term is rejected as a pattern and some item matches it, `highlightMatch` (line 187) throws inside the item loop. So lines 127-133 never run, and the count, the banner and the "no results" box keep the state the previous search left, whatever that state was. |
| `Filtering.RejectedPatternKeepsNoResults` | _site/assets/js/main.js:112-133 | After a search that matched nothing, a rejected term that matches some item displays it, but leaves the count stale and the "no results" box on screen. The completed filter would hide the box. |
| `Filtering.MissShowsNoResults` | _site/assets/js/main.js:112-133 | A non-empty term that matches no item displays the "no results" box, whether or not its pattern is rejected, because `highlightMatch` is never reached. |
| `Filtering.RejectedPatternAfterMiss` | _site/assets/js/main.js:90-134 | For any single item: a first term that matches nothing displays the box. A rejected second term that matches the item then displays the item and leaves the box. |
| `Filtering.RejectedPatternExample` | _site/assets/js/main.js:90-134 | With the single item "s & p global", searching "xyz" and then "*" displays the item with the "no results" box still on screen. |
| `Directory.JobDirectoryApp.Names` | _site/assets/js/main.js:92 | The names begin with the lower-cased names of the companies, one per company and in order, and continue with those of the universities. So the name at each index belongs to the item at that index of `AllItems`, the companies followed by the universities. |
| `Directory.JobDirectoryApp.constructor` | _site/assets/js/main.js:7-15 | The items and the search history are loaded once, the history from storage (line 12). The click log field starts as the stored log, which the constructor itself does not read. Every item starts displayed, with neither banner nor "no results" box. |
| `Directory.JobDirectoryApp.UpdateResultsCount` | _site/assets/js/main.js:308-310 | The banner reports the count and is displayed if and only if the count is below the total. |
| `Directory.JobDirectoryApp.ShowNoResults` | _site/assets/js/main.js:313-342 | Displays the "no results" box and changes nothing else. |
| `Directory.JobDirectoryApp.HideNoResults` | _site/assets/js/main.js:344-349 | Hides the "no results" box and changes nothing else. |
| `Directory.JobDirectoryApp.FilterContent` | _site/assets/js/main.js:90-134 | The page ends as `FilterView` says. The empty-term branch also hides the "no results" box, and `highlightMatch` is taken to return (see Findings). |
| `Directory.JobDirectoryApp.MatchItems` | _site/assets/js/main.js:112-125 | The loop over all items yields exactly `Visibility` of the lower-cased names, and `visibleCount` is the number of items displayed. |
| `Directory.JobDirectoryApp.AddToSearchHistory` | _site/assets/js/main.js:199-205 | The history becomes `PushHistory` of the old one. A history of at most ten distinct terms stays so. A new term ends up first. |
| `Directory.JobDirectoryApp.TrackLinkClick` | _site/assets/js/main.js:207-222 | The click log becomes `AppendClick` of the old one with a record of company, link, time and search box content. The search box content is empty when the page has no search box. The log never exceeds 100 entries. |

## Left out

- DOM work is not modelled: section display, `fade-in` classes, element creation, the banner and box markup, `initializeStats`, `addScrollToTop`, `addUserPreferences`, `showPreferences`, `savePreferences`, `applyTheme` and `toggleAnimations`. Only the visibility decisions are kept, in `Filtering.View`.
- `highlightMatch` and `removeHighlight` are not modelled as HTML rewriting, which depends on the browser's DOM. The one effect of `highlightMatch` on the filter, the exception that an invalid pattern throws, is modelled by `Filtering.FilterViewHighlighting`.
- Directory.JobDirectoryApp.FilterContent: assumes `highlightMatch` returns, which is the corrected behaviour of the second finding. As written, a term that is no valid regular expression throws at the first matching item; see `Filtering.FilterViewHighlighting`.
- Directory.JobDirectoryApp.MatchItems: assumes, as `FilterContent` does, that `highlightMatch` returns for every matching item.
- Filtering.PatternRejected: covers only terms that start with `*` or `+`. Other terms that `new RegExp` rejects, such as `(`, `[`, `?` or `c++`, throw as well but are not recognised, so the as-written model treats them as completing.
- Filtering.FilterViewHighlighting: does not model the sections. Line 109 hides every section before the loop, and only the sections of the items the loop reaches are displayed again.
- Local storage and JSON parsing are not modelled. The stored history and click log are constructor arguments, and the writes are the field updates.
- Directory.JobDirectoryApp.TrackLinkClick: the source reads the click log from local storage again on every click (line 220) and keeps no copy of its own. The field `linkClicks` holds that stored log. It equals what storage holds only while this page is the only writer of the `linkClicks` key; another tab writing it is not modelled.
- `debounce`, the `setTimeout` click feedback, event-listener wiring, keyboard shortcuts and console analytics (`setupAnalytics`, `updateSearchStats`, `performAdvancedSearch`) are not modelled. They are timer, event-loop and logging behaviour.
- `handleSearch` and `handleSearchKeydown` are not modelled. They are event glue, and JavaScript's `trim` follows Unicode's notion of white space. `handleSearch` lower-cases and trims the input, calls `addToSearchHistory` when the term is not empty, and then calls `filterContent` and `updateSearchStats`. `handleSearchKeydown` lower-cases and trims the term, then passes it to `performAdvancedSearch`, which only logs and is not modelled.
- `loadData` is not modelled. The items it reads from the page are passed to the constructor, and the click timestamp is a parameter.
- Text.ToLower: maps only ASCII `A`-`Z`, while JavaScript's `toLowerCase` applies full Unicode case mapping.
- Fuzzy.Tolerance: is the integer `length / 5` instead of `Math.floor(length * 0.2)` in floating point. The two agree for all string lengths a page can hold, because the double nearest 0.2 lies slightly above 1/5.
- Strings are sequences of Dafny characters. JavaScript compares UTF-16 code units, so characters outside the Basic Multilingual Plane count as two in the source and one here.

## Findings

| source | as written | input that shows it | evidently intended | confidence | as-written member | corrected member |
|---|---|---|---|---|---|---|
| _site/assets/js/main.js:95-105 | With an empty term, `filterContent` displays every item and returns before `hideNoResults()`, so a "no results" box from an earlier search stays on screen. The same happens through the box's own "Clear Search" button (line 336) and the Escape shortcut (lines 242-245). | One item "acme corp": search "acme xyz" (the box appears), then clear the search. | Clearing the search also hides the "no results" box. | high (not executed) | `Filtering.FilterViewAsWritten`, shown by `Filtering.ClearingKeepsNoResults` and `Filtering.ClearingKeepsNoResultsExample` | `Filtering.FilterView`, its contract and `Filtering.ClearingRestoresPage`, implemented by `Directory.JobDirectoryApp.FilterContent` |
| _site/assets/js/main.js:181-189 | `highlightMatch` builds `new RegExp('(' + term + ')', 'gi')` from the unescaped term. A term such as `*` is no valid pattern, so the call throws at the first matching item (line 119). The item loop stops, `updateResultsCount` and the "no results" update never run, and later items keep their old display. | One item "s & p global": search "xyz" (the box appears), then search "*". The item matches through its word "s", is displayed, and the "no results" box stays. | The term is escaped before it becomes a pattern, so the filter always completes. | high (not executed) | `Filtering.FilterViewHighlighting`, shown by `Filtering.RejectedPatternKeepsNoResults` and `Filtering.RejectedPatternExample` | `Filtering.FilterView`, whose contract gives the count and the box for every term, implemented by `Directory.JobDirectoryApp.FilterContent` |
