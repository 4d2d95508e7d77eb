/**
 * `build_url`: the search-results address for one query, assembled by plain
 * concatenation (the search text is not URL-encoded).
 */
module UrlBuilder {
  import opened Text

  /** The fixed search endpoint, up to and including the `?`. */
  const Host: string := "https://spb.hh.ru/search/vacancy?"

  /** `''.join([f'area={n}&' for n in area_list])`: one `area=n&` per region code. */
  function AreaChunks(areas: seq<int>): string
  {
    if areas == [] then "" else "area=" + IntToString(areas[0]) + "&" + AreaChunks(areas[1..])
  }

  /** `build_url(search_text, area_list, currency_code, page_numb, only_with_salary)`. */
  function BuildUrl(searchText: string, areas: seq<int>, currencyCode: string, page: int, onlyWithSalary: bool): (url: string)
    ensures Host <= url
  {
    var textPart := "text=" + searchText;
    var areaPart := "&" + DropLast(AreaChunks(areas));
    var currencyPart := "&currency_code=" + currencyCode;
    var pagePart := "&page=" + IntToString(page);
    var salaryPart := if onlyWithSalary then "&only_with_salary=true" else "";
    Host + textPart + areaPart + currencyPart + pagePart + salaryPart
  }

  /** One `area=n` query parameter per region code, in the given order. */
  function AreaParams(areas: seq<int>): (ps: seq<string>)
    ensures |ps| == |areas|
    ensures forall i :: 0 <= i < |areas| ==> ps[i] == "area=" + IntToString(areas[i])
  {
    seq(|areas|, i requires 0 <= i < |areas| => "area=" + IntToString(areas[i]))
  }

  /**
   * The query the search page expects, as a list of `name=value` parameters in
   * order: text, one area per region code, currency code, page, and the
   * salary flag only when it is set.
   */
  function QueryParams(searchText: string, areas: seq<int>, currencyCode: string, page: int, onlyWithSalary: bool): seq<string>
  {
    ["text=" + searchText] + AreaParams(areas) + TailParams(currencyCode, page, onlyWithSalary)
  }

  /** Dropping the trailing `&` of the area chunks leaves the area parameters joined by `&`. */
  lemma {:induction false} AreaChunksJoin(areas: seq<int>)
    ensures DropLast(AreaChunks(areas)) == Join("&", AreaParams(areas))
    decreases |areas|
  {
    if areas != [] {
      var head := "area=" + IntToString(areas[0]);
      var rest := areas[1..];
      assert AreaParams(areas) == [head] + AreaParams(rest);
      if rest == [] {
        assert AreaChunks(areas) == head + "&";
      } else {
        AreaChunksJoin(rest);
        var tail := AreaChunks(rest);
        assert |tail| > 0;
        assert AreaChunks(areas) == head + "&" + tail;
        assert DropLast(head + "&" + tail) == head + "&" + DropLast(tail);
        JoinAppend("&", [head], AreaParams(rest));
      }
    }
  }

  /** With at least one region code, the address is the host followed by the query parameters joined by `&`. */
  lemma BuildUrlIsQuery(searchText: string, areas: seq<int>, currencyCode: string, page: int, onlyWithSalary: bool)
    requires areas != []
    ensures BuildUrl(searchText, areas, currencyCode, page, onlyWithSalary)
         == Host + Join("&", QueryParams(searchText, areas, currencyCode, page, onlyWithSalary))
  {
    var t := "text=" + searchText;
    var a := AreaParams(areas);
    var tail := TailParams(currencyCode, page, onlyWithSalary);
    var q := QueryParams(searchText, areas, currencyCode, page, onlyWithSalary);
    assert q == [t] + (a + tail);
    AreaChunksJoin(areas);
    JoinAppend("&", a, tail);
    JoinAppend("&", [t], a + tail);
    assert Join("&", q) == t + "&" + (Join("&", a) + "&" + Join("&", tail));
    TailJoin(currencyCode, page, onlyWithSalary);
    Reassociate(Host, t, Join("&", a), "&currency_code=" + currencyCode, "&page=" + IntToString(page),
                if onlyWithSalary then "&only_with_salary=true" else "", Join("&", tail));
  }

  /** The currency, page and (when set) salary parameters. */
  function TailParams(currencyCode: string, page: int, onlyWithSalary: bool): seq<string>
  {
    ["currency_code=" + currencyCode, "page=" + IntToString(page)]
      + (if onlyWithSalary then ["only_with_salary=true"] else [])
  }

  /** The last three parts of the address are the `&` followed by the tail parameters joined by `&`. */
  lemma TailJoin(currencyCode: string, page: int, onlyWithSalary: bool)
    ensures "&" + Join("&", TailParams(currencyCode, page, onlyWithSalary))
         == ("&currency_code=" + currencyCode) + ("&page=" + IntToString(page))
            + (if onlyWithSalary then "&only_with_salary=true" else "")
  {
    TailTextJoin(currencyCode, IntToString(page), onlyWithSalary);
  }

  /** TailJoin for any page text. */
  lemma TailTextJoin(currencyCode: string, pageText: string, onlyWithSalary: bool)
    ensures "&" + Join("&", ["currency_code=" + currencyCode, "page=" + pageText]
                            + (if onlyWithSalary then ["only_with_salary=true"] else []))
         == ("&currency_code=" + currencyCode) + ("&page=" + pageText)
            + (if onlyWithSalary then "&only_with_salary=true" else "")
  {
    var c := "currency_code=" + currencyCode;
    var p := "page=" + pageText;
    assert "&currency_code=" + currencyCode == "&" + c by {
      assert "&currency_code=" == "&" + "currency_code=";
    }
    assert "&page=" + pageText == "&" + p by {
      assert "&page=" == "&" + "page=";
    }
    if onlyWithSalary {
      var f := "only_with_salary=true";
      assert "&only_with_salary=true" == "&" + f;
      assert [c, p] + [f] == [c, p, f];
      JoinThree("&", c, p, f);
    } else {
      assert [c, p] + [] == [c, p];
      JoinTwo("&", c, p);
      assert ("&" + c) + ("&" + p) + "" == ("&" + c) + ("&" + p);
    }
  }

  lemma JoinTwo(sep: string, c: string, p: string)
    ensures sep + Join(sep, [c, p]) == (sep + c) + (sep + p)
  {
  }

  lemma JoinThree(sep: string, c: string, p: string, f: string)
    ensures sep + Join(sep, [c, p, f]) == (sep + c) + (sep + p) + (sep + f)
  {
    assert [c, p, f][1..] == [p, f];
    assert [p, f][1..] == [f];
    assert Join(sep, [p, f]) == p + sep + f;
  }

  /** Regrouping the concatenation that BuildUrl performs, once the tail `x + y + z` is `&` and the joined tail `j`. */
  lemma Reassociate(h: string, t: string, a: string, x: string, y: string, z: string, j: string)
    requires "&" + j == x + y + z
    ensures h + t + ("&" + a) + x + y + z == h + (t + "&" + (a + "&" + j))
  {
    var u := h + t + ("&" + a);
    assert u + x + y + z == u + ("&" + j);
    assert u + ("&" + j) == h + (t + "&" + (a + "&" + j));
  }

  /**
   * With no region code, `''[:-1]` leaves a lone `&`, so the address carries
   * an empty parameter between the text and the currency code: `&&currency_code=`.
   */
  lemma BuildUrlWithoutAreas(searchText: string, currencyCode: string, page: int, onlyWithSalary: bool)
    ensures BuildUrl(searchText, [], currencyCode, page, onlyWithSalary)
         == Host + Join("&", ["text=" + searchText, ""] + QueryParams(searchText, [], currencyCode, page, onlyWithSalary)[1..])
  {
    var t := "text=" + searchText;
    var tail := TailParams(currencyCode, page, onlyWithSalary);
    assert AreaParams([]) == [];
    assert QueryParams(searchText, [], currencyCode, page, onlyWithSalary) == [t] + tail;
    assert ([t] + tail)[1..] == tail;
    JoinAppend("&", [t, ""], tail);
    assert [t, ""][1..] == [""];
    assert Join("&", [t, ""]) == t + "&" + "";
    assert DropLast(AreaChunks([])) == "";
    TailJoin(currencyCode, page, onlyWithSalary);
    Reassociate(Host, t, "", "&currency_code=" + currencyCode, "&page=" + IntToString(page),
                if onlyWithSalary then "&only_with_salary=true" else "", Join("&", tail));
  }

  /** `s` ends with `suffix`. */
  predicate EndsWith(s: string, suffix: string)
  {
    |suffix| <= |s| && s[|s| - |suffix|..] == suffix
  }

  /** The address ends with the salary flag exactly when the flag is set. */
  lemma SalaryFlagIffSet(searchText: string, areas: seq<int>, currencyCode: string, page: int, onlyWithSalary: bool)
    ensures EndsWith(BuildUrl(searchText, areas, currencyCode, page, onlyWithSalary), "&only_with_salary=true")
        <==> onlyWithSalary
  {
    var url := BuildUrl(searchText, areas, currencyCode, page, onlyWithSalary);
    var pageText := IntToString(page);
    if !onlyWithSalary {
      assert url[|url| - 1] == pageText[|pageText| - 1];
      assert IsDigit(url[|url| - 1]);
      assert "&only_with_salary=true"[21] == 'e';
    }
  }
}
