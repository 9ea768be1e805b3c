/** The application object `JobDirectoryApp`: the companies and
    universities read from the page once at start-up, the search history
    and click log it keeps in local storage, and the part of the page its
    filter controls. */
module Directory {
  import opened Text
  import opened Fuzzy
  import opened Logs
  import opened Filtering

  /** A directory entry: the trimmed link text and the link target. */
  datatype Item = Item(name: string, url: string)

  datatype Option<T> = None | Some(value: T)

  class JobDirectoryApp {
    const companies: seq<Item>
    const universities: seq<Item>
    var searchHistory: seq<string>
    var linkClicks: seq<Click>
    var view: View

    /** The items the filter walks over: the companies followed by the universities. */
    function AllItems(): seq<Item> {
      companies + universities
    }

    /** The lower-cased item names the filter matches against: those of
        the companies, then those of the universities, so that the name at
        each index belongs to the item at that index. */
    function Names(): (names: seq<string>)
      ensures |names| == |companies| + |universities|
      ensures forall k :: 0 <= k < |names| ==> names[k] == ToLower(AllItems()[k].name)
      ensures names[..|companies|] == seq(|companies|, k requires 0 <= k < |companies| => ToLower(companies[k].name))
      ensures names[|companies|..] == seq(|universities|, k requires 0 <= k < |universities| => ToLower(universities[k].name))
    {
      seq(|AllItems()|, k requires 0 <= k < |AllItems()| => ToLower(AllItems()[k].name))
    }

    /** What `addToSearchHistory` maintains: at most ten distinct terms. */
    ghost predicate HistoryWellFormed()
      reads this
    {
      |searchHistory| <= MaxHistory && Distinct(searchHistory)
    }

    /** The page as loaded: every item displayed, neither the banner nor
        the "no results" box present. The history and the click log are
        whatever local storage held. */
    constructor (companies: seq<Item>, universities: seq<Item>, storedHistory: seq<string>, storedClicks: seq<Click>)
      ensures this.companies == companies && this.universities == universities
      ensures searchHistory == storedHistory && linkClicks == storedClicks
      ensures view == FilterView(Names(), "")
    {
      this.companies := companies;
      this.universities := universities;
      searchHistory := storedHistory;
      linkClicks := storedClicks;
      var total := |companies + universities|;
      view := View(seq(total, _ => true), total, false, false);
    }

    /** `updateResultsCount(count)`: the banner reports `count` and is
        displayed only when fewer than all items are shown. */
    method UpdateResultsCount(count: nat)
      modifies this`view
      ensures view == old(view).(count := count, bannerShown := BannerShown(count, |AllItems()|))
    {
      var total := |companies| + |universities|;
      view := view.(count := count, bannerShown := count < total);
    }

    method ShowNoResults()
      modifies this`view
      ensures view == old(view).(noResultsShown := true)
    {
      view := view.(noResultsShown := true);
    }

    method HideNoResults()
      modifies this`view
      ensures view == old(view).(noResultsShown := false)
    {
      view := view.(noResultsShown := false);
    }

    /** `filterContent(searchTerm)`, with the empty-term branch hiding the
        "no results" box: the page ends up as `FilterView` describes. */
    method FilterContent(term: string)
      modifies this`view
      ensures view == FilterView(Names(), term)
    {
      var allItems := companies + universities;
      if term == "" {
        var everything := seq(|allItems|, _ => true);
        view := view.(shown := everything);
        UpdateResultsCount(|allItems|);
        HideNoResults();
        return;
      }
      var shown, visibleCount := MatchItems(term);
      view := view.(shown := shown);
      UpdateResultsCount(visibleCount);
      if visibleCount == 0 {
        ShowNoResults();
      } else {
        HideNoResults();
      }
    }

    /** The loop of `filterContent` over all items: each item's lower-cased
        name is matched against the term and the matches are counted. */
    method MatchItems(term: string) returns (shown: seq<bool>, visibleCount: nat)
      ensures shown == Visibility(Names(), term)
      ensures visibleCount == CountShown(shown)
    {
      var allItems := companies + universities;
      ghost var names := Names();
      shown := [];
      visibleCount := 0;
      for i := 0 to |allItems|
        invariant shown == Visibility(names[..i], term)
        invariant visibleCount == CountShown(shown)
      {
        var matches := FuzzySearch(ToLower(allItems[i].name), term);
        VisibilityStep(names, i, term, shown, matches);
        CountShownStep(shown, matches);
        shown := shown + [matches];
        if matches {
          visibleCount := visibleCount + 1;
        }
      }
      assert names[..|allItems|] == names;
    }

    /** `addToSearchHistory(term)`: a new term is put in front and the list
        cut to ten; a known term changes nothing. */
    method AddToSearchHistory(term: string)
      modifies this`searchHistory
      ensures searchHistory == PushHistory(old(searchHistory), term)
      ensures old(HistoryWellFormed()) ==> HistoryWellFormed()
      ensures |searchHistory| > 0 && (term !in old(searchHistory) ==> searchHistory[0] == term)
    {
      if term !in searchHistory {
        searchHistory := [term] + searchHistory;
        searchHistory := searchHistory[..Min(MaxHistory, |searchHistory|)];
      }
    }

    /** `trackLinkClick`: record the clicked company, its link, the time and
        the search box's content (empty when the page has no search box),
        keeping the last hundred records. */
    method TrackLinkClick(company: string, url: string, timestamp: string, searchInput: Option<string>)
      modifies this`linkClicks
      ensures linkClicks == AppendClick(old(linkClicks), Click(company, url, timestamp,
                                          if searchInput.Some? then searchInput.value else ""))
      ensures |linkClicks| <= MaxClicks
    {
      var clickData := Click(company, url, timestamp, if searchInput.Some? then searchInput.value else "");
      var clicks := linkClicks;
      clicks := clicks + [clickData];
      linkClicks := if |clicks| <= MaxClicks then clicks else clicks[|clicks| - MaxClicks..];
    }
  }
}
