/** The dashboard's pure helpers: which series the charts show for the chosen
    time frame, which URL the CSV export asks for and what file it saves, and
    the years offered in the year picker. The current date is a parameter. */
module Dashboard {
  import opened Wrappers
  import opened Text

  // ---------------------------------------------------------------------
  // Series selection
  // ---------------------------------------------------------------------

  /** The sales series shown for a time frame; an unknown one shows the daily. */
  function CurrentSalesData<T>(timeFrame: string, daily: T, weekly: T, monthly: T, yearly: T): (r: T)
    ensures timeFrame !in {"weekly", "monthly", "yearly"} ==> r == daily
  {
    if timeFrame == "daily" then daily
    else if timeFrame == "weekly" then weekly
    else if timeFrame == "monthly" then monthly
    else if timeFrame == "yearly" then yearly
    else daily
  }

  /** The top-products list shown for a time frame; an unknown one shows the day's. */
  function CurrentProductData<T>(timeFrame: string, day: T, month: T, year: T): (r: T)
    ensures timeFrame !in {"month", "year"} ==> r == day
  {
    if timeFrame == "day" then day
    else if timeFrame == "month" then month
    else if timeFrame == "year" then year
    else day
  }

  /** The sales time frames the page offers. */
  predicate KnownSalesFrame(timeFrame: string)
  {
    timeFrame in {"daily", "weekly", "monthly", "yearly"}
  }

  /** The endpoint the displayed sales series was fetched from (before any
      query string). */
  function DisplayedSalesPath(timeFrame: string): string
  {
    CurrentSalesData(timeFrame, "/dashboard/dailysales", "/dashboard/weeklysales",
                     "/dashboard/monthlysales", "/dashboard/yearlysales")
  }

  /** The endpoint the displayed product list was fetched from. */
  function DisplayedProductPath(timeFrame: string): string
  {
    CurrentProductData(timeFrame, "/dashboard/productSales", "/dashboard/productSalesByMonth",
                       "/dashboard/productSalesByYear")
  }

  // ---------------------------------------------------------------------
  // Export and refetch URLs
  // ---------------------------------------------------------------------

  /** `exportSalesCSV`'s endpoint: the month and year are added for the
      monthly and the yearly frame alike. */
  function SalesExportEndpoint(timeFrame: string, month: int, year: int): string
  {
    var endpoint := "/dashboard/" + timeFrame + "sales" + "?" + "export=csv";
    if timeFrame == "monthly" || timeFrame == "yearly" then
      endpoint + "&" + "month=" + IntText(month) + "&" + "year=" + IntText(year)
    else endpoint
  }

  function SalesExportFilename(timeFrame: string): string
  {
    timeFrame + "_sales.csv"
  }

  /** `exportProductsCSV`'s endpoint. */
  function ProductExportEndpoint(timeFrame: string, month: int, year: int): string
  {
    if timeFrame == "month" then
      "/dashboard/productSalesByMonth" + "?" + "export=csv" + "&" + "month=" + IntText(month)
        + "&" + "year=" + IntText(year)
    else if timeFrame == "year" then
      "/dashboard/productSalesByYear" + "?" + "export=csv" + "&" + "year=" + IntText(year)
    else "/dashboard/productSales" + "?" + "export=csv"
  }

  function ProductExportFilename(timeFrame: string): string
  {
    timeFrame + "_products.csv"
  }

  /** The URL the page refetches the selected sales series from when the
      month, year or frame changes; the daily and weekly series are not
      refetched. */
  function SalesRefetch(timeFrame: string, month: int, year: int): Option<string>
  {
    if timeFrame == "monthly" then
      Some("/dashboard/monthlysales" + "?" + "month=" + IntText(month) + "&" + "year=" + IntText(year))
    else if timeFrame == "yearly" then
      Some("/dashboard/yearlysales" + "?" + "year=" + IntText(year))
    else None
  }

  /** The URL the page refetches the selected product list from. */
  function ProductRefetch(timeFrame: string, month: int, year: int): Option<string>
  {
    if timeFrame == "month" then
      Some("/dashboard/productSalesByMonth" + "?" + "month=" + IntText(month) + "&" + "year=" + IntText(year))
    else if timeFrame == "year" then
      Some("/dashboard/productSalesByYear" + "?" + "year=" + IntText(year))
    else None
  }

  // ---------------------------------------------------------------------
  // Properties of the URLs
  // ---------------------------------------------------------------------

  /** A URL made of a path and its query parameters. */
  function Url(path: string, params: seq<string>): string
    requires |params| >= 1
  {
    path + "?" + Join(params, '&')
  }

  /** The path of a URL, before its first `?`. */
  function Path(url: string): string
  {
    CutAt(url, '?').0
  }

  /** The query parameters of a URL, between its `&`s. */
  function Params(url: string): seq<string>
  {
    Split(CutAt(url, '?').1, '&')
  }

  /** A path and parameters free of the separators. */
  predicate Separable(path: string, params: seq<string>)
  {
    '?' !in path && |params| >= 1 && forall i :: 0 <= i < |params| ==> '&' !in params[i]
  }

  /** A URL splits back into its path and its parameters. */
  lemma UrlParts(path: string, params: seq<string>)
    requires Separable(path, params)
    ensures Path(Url(path, params)) == path
    ensures Params(Url(path, params)) == params
  {
    CutAtFirst(path, '?', Join(params, '&'));
    SplitJoin(params, '&');
  }

  /** Two URLs are equal only when their paths and their parameters are. */
  lemma UrlInjective(path1: string, params1: seq<string>, path2: string, params2: seq<string>)
    requires Separable(path1, params1) && Separable(path2, params2)
    requires Url(path1, params1) == Url(path2, params2)
    ensures path1 == path2 && params1 == params2
  {
    UrlParts(path1, params1);
    UrlParts(path2, params2);
  }

  /** A rendered number holds no separator of a URL. */
  lemma IntTextFree(n: int)
    ensures '&' !in IntText(n) && '?' !in IntText(n)
  {
  }

  /** A parameter `key=n` holds no `&`. */
  lemma ParamFree(key: string, n: int)
    requires '&' !in key
    ensures '&' !in key + IntText(n)
  {
    IntTextFree(n);
  }

  // The endpoints are built by concatenation; these say which URL each
  // concatenation is, for any path, keys and values.

  lemma UrlOfOne(path: string, a: string)
    ensures path + "?" + a == Url(path, [a])
  {
  }

  lemma UrlOfTwo(path: string, a: string, b: string)
    ensures path + "?" + a + "&" + b == Url(path, [a, b])
  {
    assert [a, b][1..] == [b];
    assert Join([a, b], '&') == a + "&" + b;
    assert path + "?" + a + "&" + b == path + "?" + (a + "&" + b);
  }

  lemma UrlOfThree(path: string, a: string, b: string, c: string)
    ensures path + "?" + a + "&" + b + "&" + c == Url(path, [a, b, c])
  {
    assert [a, b, c][1..] == [b, c];
    assert [b, c][1..] == [c];
    assert Join([b, c], '&') == b + "&" + c;
    assert Join([a, b, c], '&') == a + "&" + Join([b, c], '&');
    assert path + "?" + a + "&" + b + "&" + c == path + "?" + (a + "&" + (b + "&" + c));
  }

  /** `path?key=v`. */
  lemma UrlOfParam(path: string, key: string, v: string)
    ensures path + "?" + key + v == Url(path, [key + v])
  {
    UrlOfOne(path, key + v);
  }

  /** `path?a&key=v`. */
  lemma UrlOfParamAfter(path: string, a: string, key: string, v: string)
    ensures path + "?" + a + "&" + key + v == Url(path, [a, key + v])
  {
    UrlOfTwo(path, a, key + v);
  }

  /** `path?key1=v1&key2=v2`. */
  lemma UrlOfParams(path: string, key1: string, v1: string, key2: string, v2: string)
    ensures path + "?" + key1 + v1 + "&" + key2 + v2 == Url(path, [key1 + v1, key2 + v2])
  {
    UrlOfTwo(path, key1 + v1, key2 + v2);
  }

  /** `path?a&key1=v1&key2=v2`. */
  lemma UrlOfParamsAfter(path: string, a: string, key1: string, v1: string, key2: string, v2: string)
    ensures path + "?" + a + "&" + key1 + v1 + "&" + key2 + v2 == Url(path, [a, key1 + v1, key2 + v2])
  {
    UrlOfThree(path, a, key1 + v1, key2 + v2);
  }

  /** The filter a sales series is refetched with. */
  function SalesFilter(timeFrame: string, month: int, year: int): seq<string>
  {
    if timeFrame == "monthly" then ["month=" + IntText(month), "year=" + IntText(year)]
    else if timeFrame == "yearly" then ["year=" + IntText(year)]
    else []
  }

  /** The parameters of the sales export. */
  function SalesExportParams(timeFrame: string, month: int, year: int): seq<string>
  {
    if timeFrame == "monthly" || timeFrame == "yearly"
    then ["export=csv", "month=" + IntText(month), "year=" + IntText(year)]
    else ["export=csv"]
  }

  /** The filter a product list is refetched with. */
  function ProductFilter(timeFrame: string, month: int, year: int): seq<string>
  {
    if timeFrame == "month" then ["month=" + IntText(month), "year=" + IntText(year)]
    else if timeFrame == "year" then ["year=" + IntText(year)]
    else []
  }

  /** The parameters of every list here are free of `&`. */
  lemma ParamsFree(timeFrame: string, month: int, year: int)
    ensures forall p :: p in SalesExportParams(timeFrame, month, year) ==> '&' !in p
    ensures forall p :: p in SalesFilter(timeFrame, month, year) ==> '&' !in p
    ensures forall p :: p in ["export=csv"] + ProductFilter(timeFrame, month, year) ==> '&' !in p
  {
    ParamFree("month=", month);
    ParamFree("year=", year);
  }

  lemma SalesExportUrl(timeFrame: string, month: int, year: int)
    ensures SalesExportEndpoint(timeFrame, month, year)
         == Url("/dashboard/" + timeFrame + "sales", SalesExportParams(timeFrame, month, year))
  {
    var path := "/dashboard/" + timeFrame + "sales";
    if timeFrame == "monthly" || timeFrame == "yearly" {
      UrlOfParamsAfter(path, "export=csv", "month=", IntText(month), "year=", IntText(year));
    } else {
      UrlOfOne(path, "export=csv");
    }
  }

  /** The displayed series of an offered frame comes from `/dashboard/<frame>sales`. */
  lemma DisplayedSalesPathShape(timeFrame: string)
    requires KnownSalesFrame(timeFrame)
    ensures DisplayedSalesPath(timeFrame) == "/dashboard/" + timeFrame + "sales"
    ensures '?' !in DisplayedSalesPath(timeFrame)
  {
    SalesPaths();
    assert '?' !in timeFrame;
    FreeOfQuery("/dashboard/", timeFrame, "sales");
  }

  lemma SalesPaths()
    ensures "/dashboard/dailysales" == "/dashboard/" + "daily" + "sales"
    ensures "/dashboard/weeklysales" == "/dashboard/" + "weekly" + "sales"
    ensures "/dashboard/monthlysales" == "/dashboard/" + "monthly" + "sales"
    ensures "/dashboard/yearlysales" == "/dashboard/" + "yearly" + "sales"
  {
  }

  lemma FreeOfQuery(front: string, middle: string, back: string)
    requires '?' !in front && '?' !in middle && '?' !in back
    ensures '?' !in front + middle + back
  {
  }

  /** For every time frame the page offers, the sales export asks the endpoint
      of the series on screen, with `export=csv` and, for the monthly and the
      yearly frame, the month and the year. */
  lemma SalesExportMatchesDisplay(timeFrame: string, month: int, year: int)
    requires KnownSalesFrame(timeFrame)
    ensures SalesExportEndpoint(timeFrame, month, year)
         == Url(DisplayedSalesPath(timeFrame), SalesExportParams(timeFrame, month, year))
    ensures Separable(DisplayedSalesPath(timeFrame), SalesExportParams(timeFrame, month, year))
  {
    DisplayedSalesPathShape(timeFrame);
    ParamsFree(timeFrame, month, year);
    SalesExportUrl(timeFrame, month, year);
    var ps := SalesExportParams(timeFrame, month, year);
    assert forall i :: 0 <= i < |ps| ==> ps[i] in ps;
  }

  /** A time frame the page does not know shows the daily series but exports
      another endpoint. The page's tabs set only the four known frames, so the
      page itself never reaches this case: the lemma says what the default
      branch of the selection would do, not what a user can trigger. */
  lemma UnknownSalesFrameMismatch(timeFrame: string, month: int, year: int)
    requires !KnownSalesFrame(timeFrame) && '?' !in timeFrame
    ensures Path(SalesExportEndpoint(timeFrame, month, year)) != DisplayedSalesPath(timeFrame)
  {
    var path := "/dashboard/" + timeFrame + "sales";
    SalesExportUrl(timeFrame, month, year);
    UrlParts(path, ["export=csv"]);
    SalesPaths();
    FramedDistinct("/dashboard/", timeFrame, "daily", "sales");
  }

  /** Paths that differ only in the middle part are different. */
  lemma FramedDistinct(front: string, a: string, b: string, back: string)
    requires a != b
    ensures front + a + back != front + b + back
  {
    if |a| == |b| {
      var i :| 0 <= i < |a| && a[i] != b[i];
      assert (front + a + back)[|front| + i] != (front + b + back)[|front| + i];
    }
  }

  lemma SalesRefetchUrl(timeFrame: string, month: int, year: int)
    ensures SalesRefetch(timeFrame, month, year).Some? <==> SalesFilter(timeFrame, month, year) != []
    ensures SalesRefetch(timeFrame, month, year).Some? ==>
      SalesRefetch(timeFrame, month, year).value
        == Url("/dashboard/" + timeFrame + "sales", SalesFilter(timeFrame, month, year))
  {
    if timeFrame == "monthly" {
      UrlOfParams("/dashboard/monthlysales", "month=", IntText(month), "year=", IntText(year));
    } else if timeFrame == "yearly" {
      UrlOfParam("/dashboard/yearlysales", "year=", IntText(year));
    }
  }

  /** The monthly and yearly series are refetched from the path they are shown
      from, with a filter whose every parameter the export also sends; the
      yearly export adds the month, which the yearly refetch leaves out. */
  lemma SalesRefetchAgreesWithExport(timeFrame: string, month: int, year: int)
    ensures SalesRefetch(timeFrame, month, year).Some? <==> SalesFilter(timeFrame, month, year) != []
    ensures SalesRefetch(timeFrame, month, year).Some? ==>
      SalesRefetch(timeFrame, month, year).value
        == Url(DisplayedSalesPath(timeFrame), SalesFilter(timeFrame, month, year))
      && Separable(DisplayedSalesPath(timeFrame), SalesFilter(timeFrame, month, year))
    ensures forall p :: p in SalesFilter(timeFrame, month, year) ==>
      p in SalesExportParams(timeFrame, month, year)
    ensures timeFrame == "yearly" ==>
      "month=" + IntText(month) !in SalesFilter(timeFrame, month, year)
      && "month=" + IntText(month) in SalesExportParams(timeFrame, month, year)
  {
    SalesRefetchUrl(timeFrame, month, year);
    if timeFrame == "monthly" || timeFrame == "yearly" {
      DisplayedSalesPathShape(timeFrame);
      ParamsFree(timeFrame, month, year);
      var ps := SalesFilter(timeFrame, month, year);
      assert forall i :: 0 <= i < |ps| ==> ps[i] in ps;
    }
    if timeFrame == "yearly" {
      assert ("month=" + IntText(month))[0] != ("year=" + IntText(year))[0];
    }
  }

  lemma ProductExportUrl(timeFrame: string, month: int, year: int)
    ensures ProductExportEndpoint(timeFrame, month, year)
         == Url(DisplayedProductPath(timeFrame), ["export=csv"] + ProductFilter(timeFrame, month, year))
  {
    var m, y := IntText(month), IntText(year);
    if timeFrame == "month" {
      UrlOfParamsAfter("/dashboard/productSalesByMonth", "export=csv", "month=", m, "year=", y);
      assert ["export=csv"] + ["month=" + m, "year=" + y] == ["export=csv", "month=" + m, "year=" + y];
    } else if timeFrame == "year" {
      UrlOfParamAfter("/dashboard/productSalesByYear", "export=csv", "year=", y);
      assert ["export=csv"] + ["year=" + y] == ["export=csv", "year=" + y];
    } else {
      UrlOfOne("/dashboard/productSales", "export=csv");
      assert ["export=csv"] + [] == ["export=csv"];
    }
  }

  lemma ProductRefetchUrl(timeFrame: string, month: int, year: int)
    ensures ProductRefetch(timeFrame, month, year).Some? <==> ProductFilter(timeFrame, month, year) != []
    ensures ProductRefetch(timeFrame, month, year).Some? ==>
      ProductRefetch(timeFrame, month, year).value
        == Url(DisplayedProductPath(timeFrame), ProductFilter(timeFrame, month, year))
  {
    if timeFrame == "month" {
      UrlOfParams("/dashboard/productSalesByMonth", "month=", IntText(month), "year=", IntText(year));
    } else if timeFrame == "year" {
      UrlOfParam("/dashboard/productSalesByYear", "year=", IntText(year));
    }
  }

  /** No path of a product list has a query part of its own. */
  lemma ProductPathFree(timeFrame: string)
    ensures '?' !in DisplayedProductPath(timeFrame)
  {
  }

  /** For every time frame, known or not, the product export asks the endpoint
      of the list on screen, with `export=csv` in front of exactly the filter
      the list was refetched with. */
  lemma ProductExportMatchesDisplay(timeFrame: string, month: int, year: int)
    ensures ProductExportEndpoint(timeFrame, month, year)
         == Url(DisplayedProductPath(timeFrame), ["export=csv"] + ProductFilter(timeFrame, month, year))
    ensures Separable(DisplayedProductPath(timeFrame), ["export=csv"] + ProductFilter(timeFrame, month, year))
    ensures ProductRefetch(timeFrame, month, year).Some? <==> ProductFilter(timeFrame, month, year) != []
    ensures ProductRefetch(timeFrame, month, year).Some? ==>
      ProductRefetch(timeFrame, month, year).value
        == Url(DisplayedProductPath(timeFrame), ProductFilter(timeFrame, month, year))
  {
    ProductExportUrl(timeFrame, month, year);
    ProductRefetchUrl(timeFrame, month, year);
    ProductSeparable(timeFrame, month, year);
  }

  lemma ProductSeparable(timeFrame: string, month: int, year: int)
    ensures Separable(DisplayedProductPath(timeFrame), ["export=csv"] + ProductFilter(timeFrame, month, year))
  {
    ProductPathFree(timeFrame);
    ParamsFree(timeFrame, month, year);
    var ps := ["export=csv"] + ProductFilter(timeFrame, month, year);
    assert forall i :: 0 <= i < |ps| ==> ps[i] in ps;
  }

  /** Different time frames save to different files, and a sales file never
      has a product file's name. */
  lemma ExportFilenamesDistinct(a: string, b: string)
    ensures SalesExportFilename(a) == SalesExportFilename(b) ==> a == b
    ensures ProductExportFilename(a) == ProductExportFilename(b) ==> a == b
    ensures SalesExportFilename(a) != ProductExportFilename(b)
  {
    var s := SalesExportFilename(a);
    var p := ProductExportFilename(b);
    if s == SalesExportFilename(b) {
      assert a == s[..|a|];
    }
    if ProductExportFilename(a) == p {
      assert a == ProductExportFilename(a)[..|a|];
    }
    assert s[|s| - 9] == 's';
    assert p[|p| - 9] == 'd';
  }

  // ---------------------------------------------------------------------
  // Year picker
  // ---------------------------------------------------------------------

  datatype YearOption = YearOption(value: int, caption: string)

  /** `yearOptions`: the current year and the four before it. */
  function YearOptions(currentYear: int): seq<YearOption>
  {
    seq(5, i requires 0 <= i < 5 => YearOption(currentYear - i, IntText(currentYear - i)))
  }

  /** Five options, from the current year down, one year apart, each captioned
      with its own number. */
  lemma YearOptionsDescending(currentYear: int)
    requires currentYear >= 4
    ensures var r := YearOptions(currentYear);
      |r| == 5 && r[0].value == currentYear
      && (forall i, j :: 0 <= i < j < 5 ==> r[i].value > r[j].value)
      && (forall i :: 0 <= i < 4 ==> r[i + 1].value == r[i].value - 1)
      && (forall i :: 0 <= i < 5 ==> AllDigits(r[i].caption) && ParseNat(r[i].caption) == r[i].value)
  {
    var r := YearOptions(currentYear);
    forall i | 0 <= i < 5
      ensures AllDigits(r[i].caption) && ParseNat(r[i].caption) == r[i].value
    {
      assert r[i].caption == IntText(currentYear - i);
    }
  }
}
