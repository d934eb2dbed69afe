/**
 * The job record that flows through the funnel. The scraper hands out one
 * dictionary per posting; a key the posting lacks is `None` here, and the field
 * `id` is a parameter type because the ranking reply and the scraper disagree on
 * what an id is.
 */
module Jobs {
  import opened Options

  /** What `job.get('location')` can hold. */
  datatype Location =
    | Structured(city: Option<string>, state: Option<string>, country: Option<string>)  // a dict
    | TextLocation(text: string)                                                        // a str
    | NoLocation                                                                         // missing, or any other type

  /** What `job.get('min_amount')` / `job.get('max_amount')` can hold. */
  datatype Amount =
    | Absent                // missing, `None`, or another falsy value: `or 0` turns it into 0
    | Num(value: real)      // a value `float()` accepts (0 included)
    | NaN                   // pandas' marker for a missing number: truthy, and compares false with everything
    | NonNumeric            // a truthy value `float()` refuses

  datatype Job<Id> = Job(
    id: Id,
    jobUrl: Option<string>,
    title: Option<string>,
    company: Option<string>,
    description: Option<string>,
    location: Location,
    jobLevel: Option<string>,
    jobType: Option<string>,
    experienceRange: Option<seq<int>>,  // `Some(t)` when the value is a tuple `t`
    minAmount: Amount,
    maxAmount: Amount,
    minYears: Option<int>,
    maxYears: Option<int>,
    matchReason: Option<string>)
}
