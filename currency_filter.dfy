/**
 * `currency_check`: keep the entries whose salary mentions the sign of the
 * requested currency.
 */
module CurrencyFilter {
  import opened Wrappers
  import opened Text
  import opened Records

  /** `currency_sign_dict`: the closed table of supported codes and their printed signs. */
  const CurrencySigns: map<string, string> := map["RUR" := "\U{20BD}", "USD" := "$", "EUR" := "\U{20AC}"]

  /** `salary is not None and curr in salary`. */
  predicate HasSign(salary: Option<string>, sign: string)
  {
    salary.Some? && Contains(salary.value, sign)
  }

  /**
   * `currency_check(currency_code, data)`: the sub-dictionary of the entries
   * whose salary is present and contains the currency's sign, values
   * unchanged. A code outside the table leaves `data_dict` unbound, so the
   * `return` raises UnboundLocalError.
   */
  method CurrencyCheck(currencyCode: string, data: Data) returns (r: Result<Data, Error>)
    ensures r.Failure? <==> currencyCode !in {"RUR", "USD", "EUR"}
    ensures r.Failure? ==> r.error == UnboundLocalError
    ensures r.Success? ==> r.value.Keys <= data.Keys
    ensures r.Success? ==> forall key :: key in r.value ==> r.value[key] == data[key]
    ensures r.Success? ==> forall key :: key in data ==>
      (key in r.value <==> data[key].salary.Some? && IsSubstring(CurrencySigns[currencyCode], data[key].salary.value))
  {
    if currencyCode !in CurrencySigns {
      return Failure(UnboundLocalError);
    }
    var curr := CurrencySigns[currencyCode];
    var dataDict: Data := map[];
    var remaining := data.Keys;
    while remaining != {}
      invariant remaining <= data.Keys
      invariant dataDict.Keys <= data.Keys - remaining
      invariant forall key :: key in dataDict ==> dataDict[key] == data[key]
      invariant forall key :: key in data && key !in remaining ==>
        (key in dataDict <==> data[key].salary.Some? && IsSubstring(curr, data[key].salary.value))
      decreases remaining
    {
      var key :| key in remaining;
      var valDict := data[key];
      var salary := valDict.salary;
      if salary.Some? {
        ContainsIsSubstring(salary.value, curr);
      }
      if HasSign(salary, curr) {
        dataDict := dataDict[key := valDict];
      }
      remaining := remaining - {key};
    }
    return Success(dataDict);
  }
}
