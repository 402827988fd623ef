# Lucy job search: the app's own logic, modelled and proved in Dafny

Lucy is a Streamlit front end over the `scrape_jobs` function of the JobSpy library.
The app itself does only a little computation around that call, all of it in
`jobspy_app.py`. This project models that part:

- **Site list** (`SiteSelection`). The six board checkboxes become the list of site
  identifiers. Each ticked box appends its identifier, in the fixed order indeed,
  linkedin, zip_recruiter, glassdoor, google, bayt.
- **Job type** (`JobType`). The select box's sentinel `"Any"` becomes "no filter"
  (`None`). Every other option becomes its lower-cased form.
- **Search run** (`Search`). An empty site list is refused with an error message
  and the scraper is not called. Otherwise the scraper is called once with the
  assembled arguments. An exception it raises becomes an error message. An empty
  table gives the "no jobs" warning, and any other table is shown.
- **Board filter** (`SiteFilter`). The distinct sites of the table, in order of
  first appearance, are the filter's options and its default. A non-empty selection
  keeps the rows of the selected sites in table order. An empty selection keeps
  every row.
- **Salary line** (`Salary`, `Thousands`). Optional minimum and maximum amounts and
  an optional interval become `$min - $max (interval)`, `$min` or `$max`. Each
  amount is printed with Python's `{:,}` grouping.

The three imperative parts of the source keep their imperative form. Building the site
list by successive appends is `SiteSelection.AssembleSiteNames`. Building
`salary_range` by conditional concatenation is `Salary.BuildSalaryRange`, and the
loop over the displayed rows is `Salary.RenderSalaries`. Each method is proved equal
to a reference function (`SelectedSites`, `SalaryLine`), and the lemmas
state what those functions promise. Expressions in the source are Dafny
functions: the job-type mapping, the `isin` filter, `unique()` and the outer
`if`/`try`.

The scraper is a parameter of type `ScrapeParams -> Result<seq<Row>>`. "Never
called" is stated as: the outcome is the same for every scraper. "Called once with
the site list" is stated as: two scrapers that give the same answer for
`BuildParams(form)` give the same outcome.

Files: `wrappers.dfy` (Option, Result), `seqs.dfy` (subsequence, distinctness),
`jobs.dfy` (the result row), `site_selection.dfy`, `job_type.dfy`, `site_filter.dfy`,
`thousands.dfy`, `salary.dfy`, `search.dfy`.

## Model

| member | source | states |
|---|---|---|
| SiteSelection.AssembleSiteNames | jobspy_app.py:36-48 | the six conditional appends build exactly `SelectedSites(c)`, the ticked identifiers picked from the fixed checkbox order |
| SiteSelection.SelectedSitesMembers | jobspy_app.py:36-48 | an identifier is in the site list iff its checkbox is ticked |
| SiteSelection.SelectedSitesOrdered | jobspy_app.py:36-48 | the site list is a subsequence of indeed, linkedin, zip_recruiter, glassdoor, google, bayt, so it keeps the checkbox order and has at most 6 entries |
| SiteSelection.SelectedSitesDistinct | jobspy_app.py:36-48 | no identifier appears twice in the site list |
| SiteSelection.EmptyIffNothingTicked | jobspy_app.py:36-48 | the site list is empty exactly when none of the six boxes is ticked, the case the guard refuses |
| JobType.JobTypeFilter | jobspy_app.py:56-58 | the result is `None` iff the option is the sentinel `"Any"`; otherwise it has the option's length, no upper-case letter, and each character is the option's character lower-cased |
| JobType.JobTypeFilterOnOptions | jobspy_app.py:56-58 | over the five select-box options: `"Any"` gives `None`, and the others give "full-time", "part-time", "contract", "internship" |
| JobType.JobTypeFilterInjectiveOnOptions | jobspy_app.py:56-58 | different options of the select box give different scraper filters |
| JobType.LowerIdempotent | jobspy_app.py:58 | lower-casing leaves no upper-case ASCII letter, and applying it twice changes nothing more |
| Search.BuildParams | jobspy_app.py:74-84 | the scraper arguments carry the assembled site list and exactly the mapped job type `JobTypeFilter(option)` (`None` iff "Any"), the other widget values unchanged, and verbosity 1 |
| Search.RunSearch | jobspy_app.py:67-96 | the outcome is `Idle` exactly when the button was not pressed |
| Search.EmptySiteListNeverSearches | jobspy_app.py:67-69 | with no box ticked, every scraper gives the same outcome, the "Please select at least one job board." error, so the scraper is never consulted |
| Search.SearchCallsScraperOnce | jobspy_app.py:70-91 | with a ticked box, the outcome depends on the scraper only through its answer to the one call with `BuildParams(form)`, and the guard error does not occur |
| Search.SearchReportsScraperAnswer | jobspy_app.py:91-96 | with a ticked box, an exception becomes "An error occurred during the search: " plus its message; an empty table gives NoJobs; otherwise the rows are exactly the returned table |
| Search.FailingScraperScenario | jobspy_app.py:163-164 | a scraper that raises leads to the search-error message and to no rows |
| Search.QuickTestScenario | test_jobspy.py:5-13 | the Indeed-only form calls the scraper with ["indeed"]; five Indeed rows returned are found, and the default board filter shows all five, each with site "indeed" |
| SiteFilter.KeepSites | jobspy_app.py:107 | the `isin` mask keeps only rows of the table whose site is selected, never more rows than the table; `KeepSitesCounts` and `KeepSitesStable` state which rows and in what order |
| SiteFilter.FilterBySite | jobspy_app.py:105-109 | the shown rows come from the table and are no more than it, and with a non-empty selection all have a selected site; `FilterBySiteSpec` states the result exactly |
| SiteFilter.UniqueSites | jobspy_app.py:98 | the distinct-site list is no longer than the table and starts with the first row's site; `UniqueSitesSpec` and `UniqueSitesFirstSeen` state its contents and order |
| SiteFilter.FilterBySiteSpec | jobspy_app.py:105-109 | for a non-empty selection, each row is kept as often as in the table if its site is selected, otherwise dropped; the kept rows stay in table order and are no more than the table; an empty selection returns the table unchanged |
| SiteFilter.KeepSitesCounts | jobspy_app.py:107 | the `isin` mask keeps each row of a selected site with its multiplicity and removes every other row |
| SiteFilter.KeepSitesStable | jobspy_app.py:107 | the masked rows are a subsequence of the table, so their relative order is kept |
| SiteFilter.KeepSitesAppend | jobspy_app.py:107 | masking a concatenation of two tables gives the concatenation of the two masked tables |
| SiteFilter.UniqueSitesSpec | jobspy_app.py:98 | the distinct-site list holds exactly the sites that occur in the table, each once |
| SiteFilter.UniqueSitesFirstSeen | jobspy_app.py:98 | if one site comes before another in the distinct-site list, the first site occurs in the table before every row of the second |
| SiteFilter.DefaultSelectionShowsAll | jobspy_app.py:98-109 | for a non-empty table, the default selection (all distinct sites) shows every row, in table order |
| Salary.SalaryLine | jobspy_app.py:130-143 | a salary line exists iff at least one of the two amounts is known |
| Salary.BuildSalaryRange | jobspy_app.py:130-143 | the source's conditional concatenation gives `SalaryLine(row)`: `$min - $max`, `$min` or `$max`, then ` (interval)` if the interval is known, and no line without amounts |
| Salary.RenderSalaries | jobspy_app.py:115-143 | the loop over the displayed rows gives one salary line per row, in row order, each equal to `SalaryLine` of its row |
| Salary.SalaryLineMentionsInterval | jobspy_app.py:140-141 | a salary line ends with `)` exactly when the interval is known |
| Salary.SalaryLineDeterminesRange | jobspy_app.py:130-141 | when both amounts are known, equal salary lines mean equal minimum, maximum and interval, so the line can be read back |
| Salary.OneAmountLineIsAmbiguous | jobspy_app.py:132-138 | a minimum alone and a maximum alone of the same amount print the same line |
| Salary.SalaryLineRangeExample | jobspy_app.py:130-143 | 50000 to 70000 yearly prints "$50,000 - $70,000 (yearly)" |
| Salary.SalaryLineMaxOnlyExample | jobspy_app.py:130-143 | a maximum of 90000 alone, without interval, prints "$90,000"; a row with no amount prints no line |
| Thousands.FormatThousands | jobspy_app.py:133 | the `{:,}` text is non-empty and starts with '-' for a negative amount; `FormatWithoutCommas` and `GroupCommaPositions` state its digits and comma positions |
| Thousands.FormatWithoutCommas | jobspy_app.py:133 | removing the commas from a `{:,}`-formatted integer gives its plain decimal form, with a minus sign for a negative number |
| Thousands.GroupCommaPositions | jobspy_app.py:133 | in the grouped digits a comma stands exactly at the positions that are a multiple of four from the end, so the first group has 1 to 3 digits and each later group has 3; the length grows by (digits - 1) / 3 |
| Thousands.FormatInjective | jobspy_app.py:133 | two different integers never print the same way |
| Thousands.FormatSign | jobspy_app.py:133 | the formatted text starts with '-' exactly when the amount is negative |
| Thousands.FormatEndsWithDigit | jobspy_app.py:133 | a formatted amount is non-empty and ends with a digit |
| Thousands.FormatBelowThousand | jobspy_app.py:133 | an amount from 0 to 999 prints as its plain decimal form, with no comma |
| Thousands.DecimalRoundTrip | jobspy_app.py:133 | reading back the decimal digits of a natural number gives the number |
| Thousands.FormatNegative | jobspy_app.py:133 | -1234 prints as "-1,234" |

## Left out

- Streamlit calls: page setup, widgets, layout, columns, expanders, spinner, markdown, JSON view and download button (jobspy_app.py:6-33, 87-88, 112, 116-128, 145-160, 165-168). These are display only. The messages of lines 69, 161 and 164 are modelled as outcomes of `Search.RunSearch`. The widget values are inputs of the model (`SearchForm`, the filter selection), and the slider bounds are not enforced.
- `scrape_jobs` (jobspy_app.py:91) is external network code. It is the `Scraper` parameter, a function returning a table or an exception message.
- The CSV export via `DataFrame.to_csv` with `QUOTE_NONNUMERIC` and a backslash escape character (jobspy_app.py:153). Its quoting rules live in pandas, which is not part of this model.
- Floating point and NaN: amounts are `Option<int>`, taken after the source's `int(...)` truncation. `None` stands for NaN. `int()` of an infinite amount would raise, and that case is not modelled.
- Only the salary text of the per-row detail rendering is modelled (jobspy_app.py:116-150), without the `**Salary:** ` label that line 143 puts before it. The other lines are not modelled: the expander title, the capitalised board name, company, location, the job type (shown only when truthy), the posting date (shown only when not NaN), the apply link and the description.
- JobType.JobTypeFilter: lower-cases ASCII letters only. Python's `str.lower` also folds non-ASCII letters, which never occur in the five options.
- An exception raised after the scraper returns, for example while rendering a row, is also caught by the source's `try` (jobspy_app.py:163-164). The model catches only the scraper's own exception.
- The "Found N jobs" and "Displaying N jobs" headers (jobspy_app.py:94, 112) are not modelled. `SiteFilter.FilterBySiteSpec` gives the displayed count's bound.
- The sort controls, the job-type result filter and the timed progress bar belong to a second app variant. That variant is not part of this model.
- The site filter is applied to any selection given as input. The source's multiselect only offers the distinct sites, and that restriction is not imposed.

## Notes on the source

- Every amount goes through `int(...)` before `{:,}` (jobspy_app.py:133-138), so a fractional amount is truncated and never shown raw.
- The sentinel test `job_type != "Any"` is case-sensitive. Any other text, including "any", is passed on lower-cased.
