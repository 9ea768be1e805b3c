/** The two bounded logs the directory keeps in local storage: the search
    history (most recent first, distinct terms, at most ten) and the link
    click log (oldest first, the last hundred clicks). */
module Logs {

  const MaxHistory: nat := 10
  const MaxClicks: nat := 100

  function Min(x: nat, y: nat): nat {
    if x <= y then x else y
  }

  /** No term occurs twice. */
  predicate Distinct(s: seq<string>) {
    forall i, j :: 0 <= i < j < |s| ==> s[i] != s[j]
  }

  /** The search history after `addToSearchHistory(term)`: a term already
      present leaves it unchanged; a new term goes to the front and the
      oldest entries beyond ten drop off the end. */
  function PushHistory(history: seq<string>, term: string): (r: seq<string>)
    ensures term in r
    ensures term in history ==> r == history
    ensures term !in history ==> |r| == Min(|history| + 1, MaxHistory)
    ensures term !in history ==> r[0] == term && r[1..] == history[..|r| - 1]
    ensures |history| <= MaxHistory ==> |r| <= MaxHistory
    ensures forall t :: t in r ==> t == term || t in history
    ensures Distinct(history) ==> Distinct(r)
  {
    if term in history then history
    else
      var pushed := [term] + history;
      var r := pushed[..Min(MaxHistory, |pushed|)];
      assert r[0] == term;
      r
  }

  /** One entry of the click log. */
  datatype Click = Click(company: string, url: string, timestamp: string, searchQuery: string)

  /** The click log after a click is appended and only the last hundred
      entries are kept (`clicks.slice(-100)`). */
  function AppendClick(log: seq<Click>, click: Click): (r: seq<Click>)
    ensures |r| == Min(|log| + 1, MaxClicks)
    ensures r[|r| - 1] == click
    ensures forall k :: 0 <= k < |r| - 1 ==> r[k] == log[|log| - (|r| - 1) + k]
    ensures |log| < MaxClicks ==> r == log + [click]
  {
    var clicks := log + [click];
    if |clicks| <= MaxClicks then clicks else clicks[|clicks| - MaxClicks..]
  }
}
