/** The tab bar and the `switch_tab` callback of index.py. */
module Index {
  import opened Outcomes

  /** What the "content" div can show. The analysis layout has no entry:
      its import is commented out, so the name is never bound. */
  datatype Content = OverviewLayout | Paragraph(text: string)

  const OverviewTabId: string := "tab-overview"
  /** The Analysis tab's id as declared, misspelt. */
  const AnalysisTabId: string := "tab-anaylsis"
  /** The ids of the tabs of the tab bar, in order. */
  const DeclaredTabIds: seq<string> := [OverviewTabId, AnalysisTabId]
  /** The tab that is active when the page loads. */
  const InitialTabId: string := OverviewTabId
  const PlaceholderText: string := "This shouldn't be displayed for now..."

  /** `switch_tab(tab_chosen)`: the overview layout for "tab-overview"; for
      "tab-analysis" the branch evaluates the unbound `analysis_layout` and
      raises NameError; any other id gives the placeholder paragraph. */
  function SwitchTab(tabChosen: string): (r: Result<Content>)
    ensures r == Ok(OverviewLayout) <==> tabChosen == "tab-overview"
    ensures r.Raised? <==> tabChosen == "tab-analysis"
    ensures r.Raised? ==> r.exn == NameError("analysis_layout")
    ensures r.Ok? && tabChosen != "tab-overview" ==> r.value == Paragraph(PlaceholderText)
  {
    if tabChosen == "tab-overview" then Ok(OverviewLayout)
    else if tabChosen == "tab-analysis" then Raised(NameError("analysis_layout"))
    else Ok(Paragraph(PlaceholderText))
  }

  /** The page opens on the overview layout. */
  lemma InitialContentIsOverview()
    ensures SwitchTab(InitialTabId) == Ok(OverviewLayout)
  {
  }

  /** The declared Analysis tab id does not match the callback's
      "tab-analysis", so choosing that tab shows the placeholder. */
  lemma AnalysisTabShowsPlaceholder()
    ensures AnalysisTabId != "tab-analysis"
    ensures SwitchTab(AnalysisTabId) == Ok(Paragraph(PlaceholderText))
  {
    assert AnalysisTabId[7] != "tab-analysis"[7];
  }

  /** No tab of the tab bar reaches the `analysis_layout` branch, so the
      callback never raises on a tab the user can choose. */
  lemma DeclaredTabsNeverRaise()
    ensures forall id :: id in DeclaredTabIds ==> SwitchTab(id).Ok?
  {
    AnalysisTabShowsPlaceholder();
  }

  /** Every id other than the two the callback tests gives the placeholder. */
  lemma OtherTabsShowPlaceholder(tabChosen: string)
    requires tabChosen != "tab-overview" && tabChosen != "tab-analysis"
    ensures SwitchTab(tabChosen) == Ok(Paragraph(PlaceholderText))
  {
  }
}
