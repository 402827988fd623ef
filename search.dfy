/** One press of "Search Jobs": the guard on the site list, the single call to
    the scraper, and the outcome the main area shows. */
module Search {
  import opened Wrappers
  import opened Jobs
  import opened SiteSelection
  import opened JobType
  import opened SiteFilter

  /** The sidebar's widget values at the moment of the search. */
  datatype SearchForm = SearchForm(
    searchTerm: string,
    location: string,
    boards: Checkboxes,
    resultsWanted: int,
    hoursOld: int,
    isRemote: bool,
    jobTypeOption: string,
    countryIndeed: string)

  /** The keyword arguments of the scraper call. */
  datatype ScrapeParams = ScrapeParams(
    siteName: seq<string>,
    searchTerm: string,
    location: string,
    resultsWanted: int,
    hoursOld: int,
    countryIndeed: string,
    isRemote: bool,
    jobType: Option<string>,
    verbose: int)

  /** The external scraper: given the arguments, a result table or the message
      of the exception it raised. */
  type Scraper = ScrapeParams -> Result<seq<Row>>

  /** What the main area shows after the run. */
  datatype Outcome =
    | Idle                           // the button was not pressed
    | NoBoardSelected(error: string) // the guard refused an empty site list
    | SearchFailed(error: string)    // the scraper raised
    | NoJobs                         // the scraper returned an empty table
    | Found(jobs: seq<Row>)          // the scraper returned rows

  const NoBoardMessage: string := "Please select at least one job board."
  const SearchErrorPrefix: string := "An error occurred during the search: "

  /** The verbosity the app always asks for. */
  const Verbosity: int := 1

  /** The arguments the app passes: the checkbox site list, the mapped job type,
      the other widget values unchanged and a fixed verbosity. */
  function BuildParams(form: SearchForm): (p: ScrapeParams)
    ensures p.siteName == SelectedSites(form.boards)
    ensures p.jobType == JobTypeFilter(form.jobTypeOption)
    ensures p.jobType == None <==> form.jobTypeOption == AnyOption
    ensures p.searchTerm == form.searchTerm && p.location == form.location
    ensures p.resultsWanted == form.resultsWanted && p.hoursOld == form.hoursOld
    ensures p.countryIndeed == form.countryIndeed && p.isRemote == form.isRemote
    ensures p.verbose == 1
  {
    ScrapeParams(
      SelectedSites(form.boards), form.searchTerm, form.location, form.resultsWanted,
      form.hoursOld, form.countryIndeed, form.isRemote, JobTypeFilter(form.jobTypeOption), Verbosity)
  }

  /** The main area's control flow for one rerun of the script. */
  function RunSearch(pressed: bool, form: SearchForm, scrape: Scraper): (o: Outcome)
    ensures !pressed <==> o == Idle
  {
    if !pressed then Idle
    else if SelectedSites(form.boards) == [] then NoBoardSelected(NoBoardMessage)
    else
      match scrape(BuildParams(form))
      case Err(e) => SearchFailed(SearchErrorPrefix + e)
      case Ok(jobs) => if |jobs| > 0 then Found(jobs) else NoJobs
  }

  /** With no board ticked the search is refused with the corrective message,
      whatever the scraper would do: it is never consulted. */
  lemma EmptySiteListNeverSearches(form: SearchForm, s1: Scraper, s2: Scraper)
    requires !(form.boards.indeed || form.boards.linkedin || form.boards.zipRecruiter ||
               form.boards.glassdoor || form.boards.google || form.boards.bayt)
    ensures RunSearch(true, form, s1) == RunSearch(true, form, s2) == NoBoardSelected(NoBoardMessage)
  {
    EmptyIffNothingTicked(form.boards);
  }

  /** With a board ticked the outcome depends on the scraper only through one
      call, made with the assembled site list: two scrapers that answer that call
      alike give the same outcome. */
  lemma SearchCallsScraperOnce(form: SearchForm, s1: Scraper, s2: Scraper)
    requires SelectedSites(form.boards) != []
    requires s1(BuildParams(form)) == s2(BuildParams(form))
    ensures RunSearch(true, form, s1) == RunSearch(true, form, s2)
    ensures RunSearch(true, form, s1) != NoBoardSelected(NoBoardMessage)
  {
  }

  /** A pressed search with a board ticked reports the scraper's answer: its
      exception as an error message, an empty table as "no jobs", and otherwise
      exactly the table it returned. */
  lemma SearchReportsScraperAnswer(form: SearchForm, scrape: Scraper)
    requires SelectedSites(form.boards) != []
    ensures var answer, o := scrape(BuildParams(form)), RunSearch(true, form, scrape);
      && (o.SearchFailed? <==> answer.Err?)
      && (answer.Err? ==> o.error == SearchErrorPrefix + answer.message)
      && (o == NoJobs <==> answer == Ok([]))
      && (o.Found? <==> answer.Ok? && answer.value != [])
      && (o.Found? ==> o.jobs == answer.value)
  {
  }

  /** The form of the quick test run: Indeed only, "software engineer" in
      "San Francisco, CA", five results, 72 hours, country USA. */
  function QuickTestForm(): SearchForm
  {
    SearchForm("software engineer", "San Francisco, CA",
               Checkboxes(true, false, false, false, false, false), 5, 72, false, AnyOption, "USA")
  }

  /** Against a scraper that returns five Indeed rows for the Indeed-only site
      list, the search finds the five rows, and the default board filter shows
      all five, each tagged "indeed". */
  lemma QuickTestScenario(scrape: Scraper, rows: seq<Row>)
    requires |rows| == 5 && forall i :: 0 <= i < 5 ==> rows[i].site == "indeed"
    requires forall p: ScrapeParams :: p.siteName == ["indeed"] ==> scrape(p) == Ok(rows)
    ensures BuildParams(QuickTestForm()).siteName == ["indeed"]
    ensures RunSearch(true, QuickTestForm(), scrape) == Found(rows)
    ensures FilterBySite(rows, UniqueSites(rows)) == rows
    ensures forall r :: r in FilterBySite(rows, UniqueSites(rows)) ==> r.site == "indeed"
  {
    var form := QuickTestForm();
    var f := Flags(form.boards);
    assert f == [true, false, false, false, false, false];
    assert SelectedSites(form.boards) == ["indeed"] by {
      var n := AllSites;
      assert Pick(f[5..], n[5..]) == [];
      assert Pick(f[4..], n[4..]) == [];
      assert Pick(f[3..], n[3..]) == [];
      assert Pick(f[2..], n[2..]) == [];
      assert Pick(f[1..], n[1..]) == [];
    }
    DefaultSelectionShowsAll(rows);
  }

  /** A scraper that raises turns into the error message, and nothing is found. */
  lemma FailingScraperScenario(form: SearchForm, scrape: Scraper, message: string)
    requires SelectedSites(form.boards) != []
    requires scrape(BuildParams(form)) == Err(message)
    ensures RunSearch(true, form, scrape) == SearchFailed(SearchErrorPrefix + message)
  {
  }
}
