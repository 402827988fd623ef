/** One row of the result table returned by the scraper, reduced to the columns the model uses. */
module Jobs {
  import opened Wrappers

  /** A job posting. The salary amounts are the values after the app's `int(...)`
      truncation; `None` stands for a missing (NaN) cell. */
  datatype Row = Row(
    site: string,
    minAmount: Option<int>,
    maxAmount: Option<int>,
    interval: Option<string>)
}
