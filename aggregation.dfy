/**
 * The listing aggregator `get_vacancies_data` over already-fetched lookups:
 * extract every listing's values, keep the listings whose description passes
 * the keyword filter, and store each under its title.
 *
 * The code guards against repeated titles with `check_vacancy_name_repeat`,
 * but a dictionary holds at most one key equal to a title, so the repeat
 * count is at most one, the guard is never true and the suffixed-key branch
 * never runs: a repeated title overwrites the earlier entry.
 */
module Aggregation {
  import opened Wrappers
  import opened Text
  import opened Records
  import opened Keywords
  import opened Fields

  /** `count_dict_keys_repeats`: how many keys of `data` equal `name`. */
  function CountDictKeysRepeats(name: string, data: Data): (n: nat)
    ensures n == if name in data then 1 else 0
  {
    var repeats := set key | key in data.Keys && name == key;
    assert repeats == if name in data then {name} else {};
    |repeats|
  }

  /** `check_vacancy_name_repeat`: never true, since a title is at most one key. */
  function CheckVacancyNameRepeat(name: string, data: Data): (r: bool)
    ensures !r
  {
    if name in data then
      var repeatCount := CountDictKeysRepeats(name, data);
      if repeatCount > 1 then true else false
    else false
  }

  /** The listing's description passes the keyword filter. */
  predicate Passes(v: Vacancy, keyWords: seq<string>)
  {
    CheckKeyWordInText(keyWords, v.text)
  }

  /**
   * One pass of the loop body in `get_vacancies_data`: a listing that fails
   * the keyword filter leaves `data` unchanged; one that passes is stored
   * under its title, overwriting any earlier entry, and no suffixed key is
   * ever made.
   */
  function InsertListing(data: Data, v: Vacancy, keyWords: seq<string>): (d: Data)
    ensures !Passes(v, keyWords) ==> d == data
    ensures Passes(v, keyWords) ==> d.Keys == data.Keys + {v.title} && d[v.title] == EntryOf(v)
    ensures forall key :: key in data && key != v.title ==> key in d && d[key] == data[key]
  {
    if CheckKeyWordInText(keyWords, v.text) then
      var dictValues := EntryOf(v);
      if CheckVacancyNameRepeat(v.title, data) then
        var repeatCount := CountDictKeysRepeats(v.title, data);
        data[v.title + "_" + IntToString(repeatCount + 1) := dictValues]
      else
        data[v.title := dictValues]
    else data
  }

  /** The dictionary after inserting `vacancies` in order into an empty one. */
  function Collect(vacancies: seq<Vacancy>, keyWords: seq<string>): Data
  {
    if vacancies == [] then map[]
    else InsertListing(Collect(vacancies[..|vacancies| - 1], keyWords), vacancies[|vacancies| - 1], keyWords)
  }

  /** Titles of the listings that pass the keyword filter. */
  ghost function PassingTitles(vacancies: seq<Vacancy>, keyWords: seq<string>): set<string>
  {
    set i | 0 <= i < |vacancies| && Passes(vacancies[i], keyWords) :: vacancies[i].title
  }

  /** The keys are exactly the titles of the passing listings. */
  lemma {:induction false} CollectKeys(vacancies: seq<Vacancy>, keyWords: seq<string>)
    ensures Collect(vacancies, keyWords).Keys == PassingTitles(vacancies, keyWords)
    decreases |vacancies|
  {
    if vacancies != [] {
      var n := |vacancies| - 1;
      var front := vacancies[..n];
      CollectKeys(front, keyWords);
      assert forall i :: 0 <= i < n ==> front[i] == vacancies[i];
      if Passes(vacancies[n], keyWords) {
        assert PassingTitles(vacancies, keyWords) == PassingTitles(front, keyWords) + {vacancies[n].title};
      } else {
        assert PassingTitles(vacancies, keyWords) == PassingTitles(front, keyWords);
      }
    }
  }

  /** Listing `j` passes and no later passing listing has its title. */
  ghost predicate IsLastPassing(vacancies: seq<Vacancy>, keyWords: seq<string>, j: int)
  {
    && 0 <= j < |vacancies|
    && Passes(vacancies[j], keyWords)
    && forall k :: j < k < |vacancies| && Passes(vacancies[k], keyWords) ==> vacancies[k].title != vacancies[j].title
  }

  /** Each title holds the entry of the last passing listing with that title. */
  lemma {:induction false} CollectLastWins(vacancies: seq<Vacancy>, keyWords: seq<string>, j: int)
    requires IsLastPassing(vacancies, keyWords, j)
    ensures vacancies[j].title in Collect(vacancies, keyWords)
    ensures Collect(vacancies, keyWords)[vacancies[j].title] == EntryOf(vacancies[j])
    decreases |vacancies|
  {
    var n := |vacancies| - 1;
    var front := vacancies[..n];
    if j < n {
      assert IsLastPassing(front, keyWords, j) by {
        forall k | j < k < |front| && Passes(front[k], keyWords)
          ensures front[k].title != front[j].title
        {
          assert front[k] == vacancies[k];
        }
      }
      CollectLastWins(front, keyWords, j);
    }
  }

  /** Every key has a last passing listing, so CollectLastWins fixes every value. */
  lemma {:induction false} CollectValues(vacancies: seq<Vacancy>, keyWords: seq<string>, title: string)
    requires title in Collect(vacancies, keyWords)
    ensures exists j :: IsLastPassing(vacancies, keyWords, j) && vacancies[j].title == title
                        && Collect(vacancies, keyWords)[title] == EntryOf(vacancies[j])
  {
    CollectKeys(vacancies, keyWords);
    var i :| 0 <= i < |vacancies| && Passes(vacancies[i], keyWords) && vacancies[i].title == title;
    var j := LastPassingFrom(vacancies, keyWords, i);
    CollectLastWins(vacancies, keyWords, j);
  }

  /** The last passing listing at or after `i` with the title of listing `i`. */
  ghost function LastPassingFrom(vacancies: seq<Vacancy>, keyWords: seq<string>, i: int): (j: int)
    requires 0 <= i < |vacancies| && Passes(vacancies[i], keyWords)
    ensures IsLastPassing(vacancies, keyWords, j) && vacancies[j].title == vacancies[i].title
    decreases |vacancies| - i
  {
    if forall k :: i < k < |vacancies| && Passes(vacancies[k], keyWords) ==> vacancies[k].title != vacancies[i].title then i
    else
      var k :| i < k < |vacancies| && Passes(vacancies[k], keyWords) && vacancies[k].title == vacancies[i].title;
      LastPassingFrom(vacancies, keyWords, k)
  }

  /** Two passing listings with one title leave one key, holding the second. */
  lemma RepeatedTitleOverwrites(a: Vacancy, b: Vacancy, keyWords: seq<string>)
    requires a.title == b.title && Passes(a, keyWords) && Passes(b, keyWords)
    ensures Collect([a, b], keyWords) == map[a.title := EntryOf(b)]
  {
    assert [a, b][..1] == [a];
    assert [a][..0] == [];
    assert Collect([], keyWords) == map[];
    var first := Collect([a], keyWords);
    assert first == InsertListing(map[], a, keyWords);
    assert first.Keys == {a.title};
    var both := Collect([a, b], keyWords);
    assert both.Keys == {a.title} && both[a.title] == EntryOf(b);
  }

  /** The values of every listing, or the first AttributeError raised. */
  function ExtractAll(raws: seq<RawListing>): Result<seq<Vacancy>, Error>
  {
    if raws == [] then Success([])
    else
      var front :- ExtractAll(raws[..|raws| - 1]);
      var last :- GetAllValues(raws[|raws| - 1]);
      Success(front + [last])
  }

  /** Extraction fails, with AttributeError, exactly when some listing lacks a mandatory node, and otherwise yields each listing's values in order. */
  lemma {:induction false} ExtractAllSpec(raws: seq<RawListing>)
    ensures ExtractAll(raws).Failure? <==> exists i :: 0 <= i < |raws| && GetAllValues(raws[i]).Failure?
    ensures ExtractAll(raws).Failure? ==> ExtractAll(raws).error == AttributeError
    ensures ExtractAll(raws).Success? ==>
      && |ExtractAll(raws).value| == |raws|
      && forall i :: 0 <= i < |raws| ==> Success(ExtractAll(raws).value[i]) == GetAllValues(raws[i])
    decreases |raws|
  {
    if raws != [] {
      var n := |raws| - 1;
      var front := raws[..n];
      ExtractAllSpec(front);
      assert forall i :: 0 <= i < n ==> front[i] == raws[i];
      if ExtractAll(front).Failure? {
        var i :| 0 <= i < n && GetAllValues(front[i]).Failure?;
        assert GetAllValues(raws[i]).Failure?;
      }
    }
  }

  /**
   * `get_vacancies_data` after the page fetches: extract each listing in
   * order; an AttributeError aborts the pass, otherwise the result is every
   * passing listing stored under its title.
   */
  method GetVacanciesData(raws: seq<RawListing>, keyWords: seq<string>) returns (r: Result<Data, Error>)
    ensures r.Failure? <==> exists i :: 0 <= i < |raws| && GetAllValues(raws[i]).Failure?
    ensures r.Failure? ==> r.error == AttributeError
    ensures r.Success? ==> ExtractAll(raws).Success? && r.value == Collect(ExtractAll(raws).value, keyWords)
  {
    var data: Data := map[];
    ghost var vacancies: seq<Vacancy> := [];
    for idx := 0 to |raws|
      invariant ExtractAll(raws[..idx]) == Success(vacancies)
      invariant data == Collect(vacancies, keyWords)
    {
      var values := GetAllValues(raws[idx]);
      if values.Failure? {
        return Failure(values.error);
      }
      assert raws[..idx + 1][..idx] == raws[..idx];
      data := InsertListing(data, values.value, keyWords);
      vacancies := vacancies + [values.value];
    }
    assert raws[..|raws|] == raws;
    ExtractAllSpec(raws);
    return Success(data);
  }
}
