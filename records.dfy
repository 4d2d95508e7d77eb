/**
 * The values the scraper passes around: looked-up document nodes, the raw
 * lookups for one listing, the extracted listing, the record stored in the
 * results dictionary, and the exception kinds the model distinguishes.
 */
module Records {
  import opened Wrappers

  /** A found document node; only its `.text` is ever read. */
  datatype Tag = Tag(text: string)

  /** The exceptions raised by the modelled code. */
  datatype Error =
    | AttributeError     // `.text` read on a lookup that found nothing
    | UnboundLocalError  // `currency_check` with a code missing from its table

  /**
   * Everything looked up for one listing: the link and the title from the
   * search-results node, the description text of the detail page, and the
   * results (present or absent) of each tree search on the detail page.
   */
  datatype RawListing = RawListing(
    link: string,
    title: string,
    salaryGross: Option<Tag>,  // span with data-qa vacancy-salary-compensation-type-gross
    salaryNet: Option<Tag>,    // span with data-qa vacancy-salary-compensation-type-net
    companyLink: Option<Tag>,  // a with data-qa vacancy-company-name
    companyHeader: Option<Tag>,// a with data-qa bloko-header-2
    rawAddress: Option<Tag>,   // span with data-qa vacancy-view-raw-address
    location: Option<Tag>,     // p with data-qa vacancy-view-location
    text: string)

  /** The six values `get_all_values` returns for one listing. */
  datatype Vacancy = Vacancy(
    link: string,
    title: string,
    salary: Option<string>,
    company: string,
    city: string,
    text: string)

  /** The value stored under a title: `{'link', 'salary', 'company', 'city'}`. */
  datatype Entry = Entry(link: string, salary: Option<string>, company: string, city: string)

  /** The results dictionary, keyed by vacancy title. */
  type Data = map<string, Entry>

  function EntryOf(v: Vacancy): Entry
  {
    Entry(v.link, v.salary, v.company, v.city)
  }
}
