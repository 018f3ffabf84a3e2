/** The reusable search box (`components/SearchBar.jsx`): its term, whether the
    suggestion list is open, and which suggestions it offers. */
module SearchBar {
  import opened Text
  import opened Lists

  /** A suggestion as the box reads it; "" stands for a missing category or excerpt. */
  datatype Suggestion = Suggestion(title: string, category: string, excerpt: string)

  datatype BoxState = BoxState(term: string, showSuggestions: bool)

  const MaxSuggestions: nat := 4

  /** A suggestion matches when the term is in its title, category or excerpt. */
  predicate Matches(term: string, s: Suggestion) {
    MatchesCi(s.title, term)
    || (s.category != "" && MatchesCi(s.category, term))
    || (s.excerpt != "" && MatchesCi(s.excerpt, term))
  }

  function MatchesFn(term: string): Suggestion -> bool {
    (s: Suggestion) => Matches(term, s)
  }

  /** `filteredSuggestions`: the first four matches, in the order given. */
  function FilteredSuggestions(suggestions: seq<Suggestion>, term: string): (r: seq<Suggestion>)
    ensures |r| <= MaxSuggestions
    ensures forall i :: 0 <= i < |r| ==> Matches(term, r[i])
    ensures |r| <= |Filter(suggestions, MatchesFn(term))|
    ensures r == Filter(suggestions, MatchesFn(term))[..|r|]
    ensures |r| == if |Filter(suggestions, MatchesFn(term))| < MaxSuggestions
                   then |Filter(suggestions, MatchesFn(term))| else MaxSuggestions
  {
    var all := Filter(suggestions, MatchesFn(term));
    var r := Take(all, MaxSuggestions);
    assert forall i :: 0 <= i < |r| ==> r[i] == all[i];
    r
  }

  /** A suggestion is offered only when it is one of the given ones and matches. */
  lemma OfferedAreMatching(suggestions: seq<Suggestion>, term: string, s: Suggestion)
    ensures s in FilteredSuggestions(suggestions, term) ==> s in suggestions && Matches(term, s)
  {
    var all := Filter(suggestions, MatchesFn(term));
    if s in FilteredSuggestions(suggestions, term) {
      assert s in all;
      FilterMembership(suggestions, MatchesFn(term), s);
    }
  }

  /** An empty term offers the first four suggestions. */
  lemma EmptyTermOffersFirst(suggestions: seq<Suggestion>)
    ensures FilteredSuggestions(suggestions, "") == suggestions[..if |suggestions| < MaxSuggestions then |suggestions| else MaxSuggestions]
  {
    forall i | 0 <= i < |suggestions| ensures MatchesFn("")(suggestions[i]) {
      MatchesEmpty(suggestions[i].title);
    }
    FilterAll(suggestions, MatchesFn(""));
  }

  /** `handleSearchChange(value)`: the list opens exactly when there is text. */
  function SearchChange(s: BoxState, value: string): (r: BoxState)
    ensures r.term == value
    ensures r.showSuggestions <==> |value| > 0
  {
    BoxState(value, |value| > 0)
  }

  /** Focusing the input opens the list. */
  function Focus(s: BoxState): (r: BoxState)
    ensures r.showSuggestions && r.term == s.term
  {
    s.(showSuggestions := true)
  }

  /** What the dropdown shows: the filtered suggestions while the list is open, nothing
      while it is closed. */
  function Offered(s: BoxState, suggestions: seq<Suggestion>): seq<Suggestion> {
    if s.showSuggestions then FilteredSuggestions(suggestions, s.term) else []
  }

  /** After typing, the dropdown shows the first four matches of what was typed, and nothing
      once the field is cleared. */
  lemma SearchChangeOffers(s: BoxState, value: string, suggestions: seq<Suggestion>)
    ensures value == "" ==> Offered(SearchChange(s, value), suggestions) == []
    ensures value != "" ==> Offered(SearchChange(s, value), suggestions) == FilteredSuggestions(suggestions, value)
    ensures forall x :: x in Offered(SearchChange(s, value), suggestions) ==> x in suggestions && Matches(value, x)
  {
    forall x | x in Offered(SearchChange(s, value), suggestions) ensures x in suggestions && Matches(value, x) {
      OfferedAreMatching(suggestions, value, x);
    }
  }

  /** `handleSuggestionClick(suggestion)`: the term becomes the title and the list closes. */
  function SuggestionClick(s: BoxState, suggestion: Suggestion): (r: BoxState)
    ensures r.term == suggestion.title && !r.showSuggestions
  {
    BoxState(suggestion.title, false)
  }

  /** A click closes the dropdown; focusing the field again offers the matches of the
      clicked title. */
  lemma ClickClosesThenFocusReopens(s: BoxState, suggestions: seq<Suggestion>, x: Suggestion)
    ensures Offered(SuggestionClick(s, x), suggestions) == []
    ensures Offered(Focus(SuggestionClick(s, x)), suggestions) == FilteredSuggestions(suggestions, x.title)
  {
  }

  /** After a click the clicked suggestion is still among the matches of the new term. */
  lemma ClickedSuggestionStillMatches(s: BoxState, suggestion: Suggestion)
    ensures Matches(SuggestionClick(s, suggestion).term, suggestion)
  {
    MatchesSelf(suggestion.title);
  }
}
