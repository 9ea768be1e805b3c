/** What `filterContent(searchTerm)` and `updateResultsCount(count)` decide
    for the page: which items are displayed, the count in the "Showing n of
    m results" banner, whether that banner is displayed and whether the
    "no results" box is displayed. Items are given by their lower-cased
    names, companies first, then universities. */
module Filtering {
  import opened Fuzzy

  /** The part of the page the filter controls. `shown` has one entry per
      item; `count` is the number the results banner reports. */
  datatype View = View(shown: seq<bool>, count: nat, bannerShown: bool, noResultsShown: bool)

  /** The item-by-item match decision for a non-empty term, in item order. */
  function Visibility(names: seq<string>, term: string): (shown: seq<bool>)
    ensures |shown| == |names|
    ensures forall k :: 0 <= k < |names| ==> shown[k] == FuzzySearch(names[k], term)
  {
    if |names| == 0 then []
    else Visibility(names[..|names| - 1], term) + [FuzzySearch(names[|names| - 1], term)]
  }

  /** Deciding one more item extends the decisions by that item's. */
  lemma VisibilityStep(names: seq<string>, i: nat, term: string, shown: seq<bool>, matches: bool)
    requires i < |names| && shown == Visibility(names[..i], term) && matches == FuzzySearch(names[i], term)
    ensures shown + [matches] == Visibility(names[..i + 1], term)
  {
    assert names[..i + 1][..i] == names[..i];
  }

  /** How many items are displayed. */
  function CountShown(shown: seq<bool>): (n: nat)
    ensures n <= |shown|
    ensures n == |shown| <==> forall k :: 0 <= k < |shown| ==> shown[k]
    ensures n == 0 <==> forall k :: 0 <= k < |shown| ==> !shown[k]
  {
    if |shown| == 0 then 0
    else CountShown(shown[..|shown| - 1]) + (if shown[|shown| - 1] then 1 else 0)
  }

  /** Counting one more decision adds one exactly when it displays. */
  lemma CountShownStep(shown: seq<bool>, shownItem: bool)
    ensures CountShown(shown + [shownItem]) == CountShown(shown) + if shownItem then 1 else 0
  {
    assert (shown + [shownItem])[..|shown|] == shown;
  }

  /** `updateResultsCount`: the banner is displayed when fewer items than
      the total are shown, so it is hidden exactly when every item is. */
  function BannerShown(count: nat, total: nat): (b: bool)
    ensures count <= total ==> (b <==> count != total)
  {
    count < total
  }

  /** `filterContent` as written. With an empty term it displays every item
      and updates the banner, then returns before touching the "no
      results" box, which keeps whatever state `noResultsBefore` it had. */
  function FilterViewAsWritten(names: seq<string>, term: string, noResultsBefore: bool): (v: View)
    ensures |v.shown| == |names|
    ensures forall k :: 0 <= k < |names| ==> (v.shown[k] <==> FuzzySearch(names[k], term))
    ensures v.noResultsShown <==>
      if term == "" then noResultsBefore else forall k :: 0 <= k < |names| ==> !v.shown[k]
  {
    if term == "" then
      View(seq(|names|, _ => true), |names|, BannerShown(|names|, |names|), noResultsBefore)
    else
      FilterView(names, term)
  }

  /** `filterContent` with the empty-term branch also hiding the "no
      results" box, as the non-empty branch does whenever something is
      shown. It displays exactly the items whose name fuzzy-matches the
      term (all of them for the empty term), counts them, displays the
      banner exactly when some item is hidden and the "no results" box
      exactly when a non-empty term hides every item. */
  function FilterView(names: seq<string>, term: string): (v: View)
    ensures |v.shown| == |names|
    ensures forall k :: 0 <= k < |names| ==> (v.shown[k] <==> FuzzySearch(names[k], term))
    ensures v.count == CountShown(v.shown)
    ensures v.bannerShown <==> exists k :: 0 <= k < |names| && !v.shown[k]
    ensures v.noResultsShown <==> term != "" && forall k :: 0 <= k < |names| ==> !v.shown[k]
  {
    if term == "" then
      View(seq(|names|, _ => true), |names|, BannerShown(|names|, |names|), false)
    else
      var shown := Visibility(names, term);
      var count := CountShown(shown);
      View(shown, count, BannerShown(count, |names|), count == 0)
  }

  /** Clearing the query restores the whole page: every item displayed, a
      full count, and neither the banner nor the "no results" box. */
  lemma ClearingRestoresPage(names: seq<string>)
    ensures var v := FilterView(names, "");
      && (forall k :: 0 <= k < |names| ==> v.shown[k])
      && v.count == |names| && !v.bannerShown && !v.noResultsShown
  {
  }

  /** As written, clearing the query after a search that matched nothing
      leaves the "no results" box displayed on top of the full list. */
  lemma ClearingKeepsNoResults(names: seq<string>, term: string)
    requires |names| > 0 && term != ""
    requires forall k :: 0 <= k < |names| ==> !FuzzySearch(names[k], term)
    ensures var afterSearch := FilterViewAsWritten(names, term, false);
      var afterClear := FilterViewAsWritten(names, "", afterSearch.noResultsShown);
      && afterSearch.noResultsShown
      && (forall k :: 0 <= k < |names| ==> afterClear.shown[k])
      && afterClear.noResultsShown
  {
    assert !Visibility(names, term)[0];
  }

  /** One such directory and query: the single item "acme corp" and the
      query "acme xyz". */
  lemma ClearingKeepsNoResultsExample()
    ensures var afterSearch := FilterViewAsWritten(["acme corp"], "acme xyz", false);
      afterSearch.noResultsShown && FilterViewAsWritten(["acme corp"], "", afterSearch.noResultsShown).noResultsShown
  {
    UnmatchedWordExample();
    ClearingKeepsNoResults(["acme corp"], "acme xyz");
  }

  /** A sufficient condition for `highlightMatch` to throw: it builds the
      pattern `(` + term + `)`, and a term that starts with the quantifier
      `*` or `+` leaves that quantifier with nothing to repeat, which
      `new RegExp` rejects with a `SyntaxError`. */
  predicate PatternRejected(term: string) {
    |term| > 0 && (term[0] == '*' || term[0] == '+')
  }

  /** The display flags after the item loop of `filterContent` when
      `highlightMatch` throws, given each item's match decision: every item
      up to the first matching one gets its decision, that item is
      displayed, and the loop stops there, so every later item keeps its
      previous flag from `before`. */
  function AbortedShown(matches: seq<bool>, before: seq<bool>): (shown: seq<bool>)
    requires |before| == |matches|
    ensures |shown| == |matches|
    ensures forall k :: 0 <= k < |matches| && (forall j :: 0 <= j < k ==> !matches[j]) ==> shown[k] == matches[k]
    ensures forall j, k :: 0 <= j < k < |matches| && matches[j] ==> shown[k] == before[k]
  {
    if |matches| == 0 then []
    else if matches[0] then [true] + before[1..]
    else [false] + AbortedShown(matches[1..], before[1..])
  }

  /** `filterContent` as written, with the regular expression that
      `highlightMatch` builds from the raw term: when the pattern is
      rejected and some item matches, the call throws inside the item
      loop, and the count, the banner and the "no results" box keep the
      state they had in `before`. */
  function FilterViewHighlighting(names: seq<string>, term: string, before: View): (v: View)
    requires |before.shown| == |names|
    ensures |v.shown| == |names|
  {
    var matches := Visibility(names, term);
    if term != "" && PatternRejected(term) && exists k :: 0 <= k < |names| && matches[k] then
      before.(shown := AbortedShown(matches, before.shown))
    else
      FilterViewAsWritten(names, term, before.noResultsShown)
  }

  /** As written, a term the pattern builder rejects that matches some item
      leaves the count, the banner and the "no results" box exactly as the
      previous search left them: after "Showing 3 of 10", searching "*"
      still reads "Showing 3 of 10". */
  lemma RejectedPatternKeepsState(names: seq<string>, term: string, before: View, m: nat)
    requires |before.shown| == |names| && PatternRejected(term)
    requires m < |names| && FuzzySearch(names[m], term)
    ensures var v := FilterViewHighlighting(names, term, before);
      && v.count == before.count
      && v.bannerShown == before.bannerShown
      && v.noResultsShown == before.noResultsShown
  {
    assert Visibility(names, term)[m];
  }

  /** As written, after a search that matched nothing, a term the pattern
      builder rejects that does match an item displays that item and still
      leaves the "no results" box on screen, where the completed filter
      hides it. */
  lemma RejectedPatternKeepsNoResults(names: seq<string>, term: string, before: View, m: nat)
    requires |before.shown| == |names| && before.noResultsShown
    requires PatternRejected(term) && m < |names| && FuzzySearch(names[m], term)
    ensures var v := FilterViewHighlighting(names, term, before);
      && v.noResultsShown && v.count == before.count
      && (exists k :: 0 <= k < |names| && v.shown[k])
      && ((forall j :: 0 <= j < m ==> !FuzzySearch(names[j], term)) ==> v.shown[m])
      && !FilterView(names, term).noResultsShown
  {
    var matches := Visibility(names, term);
    FirstMatch(matches, m);
    var first :| 0 <= first < |matches| && matches[first] && forall j :: 0 <= j < first ==> !matches[j];
    assert FilterViewHighlighting(names, term, before).shown[first];
  }

  /** Some match comes first. */
  lemma {:induction false} FirstMatch(matches: seq<bool>, m: nat)
    requires m < |matches| && matches[m]
    ensures exists first :: 0 <= first < |matches| && matches[first] && (forall j :: 0 <= j < first ==> !matches[j])
    decreases m
  {
    if exists j :: 0 <= j < m && matches[j] {
      var j :| 0 <= j < m && matches[j];
      FirstMatch(matches, j);
    }
  }

  /** A non-empty term that matches no item displays the "no results"
      box, whether or not its pattern is rejected. */
  lemma MissShowsNoResults(names: seq<string>, term: string, before: View)
    requires |before.shown| == |names| && term != ""
    requires forall k :: 0 <= k < |names| ==> !FuzzySearch(names[k], term)
    ensures FilterViewHighlighting(names, term, before).noResultsShown
  {
    var matches := Visibility(names, term);
    assert !exists k :: 0 <= k < |names| && matches[k];
    assert FilterViewHighlighting(names, term, before) == FilterView(names, term);
  }

  /** The two searches of the example below, for any one item: a first
      term that matches nothing displays the "no results" box, and a
      rejected second term that matches the item leaves it on screen. */
  lemma RejectedPatternAfterMiss(name: string, miss: string, hit: string)
    requires miss != "" && !FuzzySearch(name, miss)
    requires PatternRejected(hit) && FuzzySearch(name, hit)
    ensures var searched := FilterViewHighlighting([name], miss, FilterView([name], ""));
      var v := FilterViewHighlighting([name], hit, searched);
      searched.noResultsShown && v.shown[0] && v.noResultsShown && !FilterView([name], hit).noResultsShown
  {
    var names := [name];
    var loaded := FilterView(names, "");
    MissShowsNoResults(names, miss, loaded);
    var searched := FilterViewHighlighting(names, miss, loaded);
    RejectedPatternKeepsNoResults(names, hit, searched, 0);
    var v := FilterViewHighlighting(names, hit, searched);
    assert v.shown[0];
  }

  /** One such page: the single item "s & p global". The query "xyz"
      matches nothing and displays the "no results" box; the query "*"
      then matches the item, displays it and leaves the box on screen. */
  lemma RejectedPatternExample(name: string, miss: string, hit: string)
    requires name == "s & p global" && miss == "xyz" && hit == "*"
    ensures var searched := FilterViewHighlighting([name], miss, FilterView([name], ""));
      var v := FilterViewHighlighting([name], hit, searched);
      searched.noResultsShown && v.shown[0] && v.noResultsShown && !FilterView([name], hit).noResultsShown
  {
    ForeignQueryExample(name, miss);
    WildcardExample();
    RejectedPatternAfterMiss(name, miss, hit);
  }
}
