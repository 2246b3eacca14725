/**
 * `get_products_url` and `get_suggestions`: pulling product-detail URLs out
 * of page-listing responses, then a suggestion metric out of product responses.
 * Responses are the JSON shapes the code reads; a `None` list entry is a URL
 * whose fetch gave up.
 */
module Extraction {
  import opened Wrappers
  import Decimal

  // ---------------------------------------------------------------- pages

  /** One entry of `data.products`; the code reads only its `id`. */
  datatype ProductSummary = ProductSummary(id: nat)

  /** The `data` object of a page; `products` may be missing. */
  datatype PageData = PageData(products: Option<seq<ProductSummary>>)

  /** A page-listing response; `status` and `data` may be missing. */
  datatype PageResponse = PageResponse(status: Option<int>, data: Option<PageData>)

  const ProductEndpoint := "https://api.digikala.com/v1/product/"

  /** `page.get("data", {}).get("products", [])`. */
  function ListedProducts(page: PageResponse): seq<ProductSummary> {
    match page.data
    case None => []
    case Some(d) => d.products.GetOr([])
  }

  /** The filter of the comprehension: present, status 200, a non-empty product list. */
  predicate Contributes(page: Option<PageResponse>) {
    page.Some? && page.value.status == Some(200) && |ListedProducts(page.value)| > 0
  }

  /** `f"https://api.digikala.com/v1/product/{id}/"`. */
  function ProductUrl(id: nat): string {
    ProductEndpoint + Decimal.NatToDecimal(id) + "/"
  }

  /** The products a page contributes: all of them, or none when it is filtered out. */
  function Contribution(page: Option<PageResponse>): seq<ProductSummary> {
    if Contributes(page) then ListedProducts(page.value) else []
  }

  /** The product URLs of one page, in its order. */
  function PageUrls(page: Option<PageResponse>): seq<string> {
    var ps := Contribution(page);
    seq(|ps|, i requires 0 <= i < |ps| => ProductUrl(ps[i].id))
  }

  /** `get_products_url`: page order first, then the order inside each page. */
  function ProductUrls(pages: seq<Option<PageResponse>>): (urls: seq<string>)
    ensures |urls| == ContributedCount(pages)
    decreases |pages|
  {
    if |pages| == 0 then [] else PageUrls(pages[0]) + ProductUrls(pages[1..])
  }

  /** The number of products on the pages that pass the filter. */
  function ContributedCount(pages: seq<Option<PageResponse>>): nat
    decreases |pages|
  {
    if |pages| == 0 then 0 else |Contribution(pages[0])| + ContributedCount(pages[1..])
  }

  /** Products listed before page `i` that pass the filter: the offset of page `i`'s URLs. */
  function Offset(pages: seq<Option<PageResponse>>, i: nat): nat
    requires i <= |pages|
  {
    ContributedCount(pages[..i])
  }

  /** The listing of two runs of pages is the listing of the first followed by that of the second. */
  lemma {:induction false} ProductUrlsAppend(a: seq<Option<PageResponse>>, b: seq<Option<PageResponse>>)
    ensures ProductUrls(a + b) == ProductUrls(a) + ProductUrls(b)
    ensures ContributedCount(a + b) == ContributedCount(a) + ContributedCount(b)
    decreases |a|
  {
    if |a| > 0 {
      assert (a + b)[1..] == a[1..] + b;
      ProductUrlsAppend(a[1..], b);
    } else {
      assert a + b == b;
    }
  }

  /**
   * Order: product `j` of page `i` (when the page passes the filter) sits at
   * position `Offset(pages, i) + j` of the output.
   */
  lemma ProductUrlsAt(pages: seq<Option<PageResponse>>, i: nat, j: nat)
    requires i < |pages| && Contributes(pages[i]) && j < |ListedProducts(pages[i].value)|
    ensures Offset(pages, i) + j < |ProductUrls(pages)|
    ensures ProductUrls(pages)[Offset(pages, i) + j] == ProductUrl(ListedProducts(pages[i].value)[j].id)
  {
    var before, from := pages[..i], pages[i..];
    assert pages == before + from;
    ProductUrlsAppend(before, from);
    var here := PageUrls(pages[i]);
    assert ProductUrls(from) == here + ProductUrls(pages[i + 1..]) by {
      assert from[0] == pages[i] && from[1..] == pages[i + 1..];
    }
    var k := Offset(pages, i) + j;
    assert k == |ProductUrls(before)| + j;
    assert ProductUrls(pages) == ProductUrls(before) + (here + ProductUrls(pages[i + 1..]));
    assert j < |here| && here[j] == ProductUrl(ListedProducts(pages[i].value)[j].id);
  }

  /** Every output URL comes from some product on a page that passes the filter. */
  lemma {:induction false} ProductUrlsFrom(pages: seq<Option<PageResponse>>, k: nat)
    requires k < |ProductUrls(pages)|
    ensures exists i, j ::
      && 0 <= i < |pages| && Contributes(pages[i])
      && 0 <= j < |ListedProducts(pages[i].value)|
      && ProductUrls(pages)[k] == ProductUrl(ListedProducts(pages[i].value)[j].id)
    decreases |pages|
  {
    var head := PageUrls(pages[0]);
    if k < |head| {
      assert ProductUrls(pages)[k] == head[k];
      assert Contributes(pages[0]);
    } else {
      ProductUrlsFrom(pages[1..], k - |head|);
      var i, j :| 0 <= i < |pages[1..]| && Contributes(pages[1..][i])
        && 0 <= j < |ListedProducts(pages[1..][i].value)|
        && ProductUrls(pages[1..])[k - |head|] == ProductUrl(ListedProducts(pages[1..][i].value)[j].id);
      assert pages[1..][i] == pages[i + 1];
    }
  }

  /** Absent, non-200 and empty pages contribute nothing: blanking one out changes no output. */
  lemma DroppedPage(pages: seq<Option<PageResponse>>, i: nat)
    requires i < |pages| && !Contributes(pages[i])
    ensures ProductUrls(pages[i := None]) == ProductUrls(pages)
  {
    var blanked := pages[i := None];
    assert pages == pages[..i] + [pages[i]] + pages[i + 1..];
    assert blanked == pages[..i] + [None] + pages[i + 1..];
    ProductUrlsAppend(pages[..i] + [pages[i]], pages[i + 1..]);
    ProductUrlsAppend(pages[..i], [pages[i]]);
    ProductUrlsAppend(pages[..i] + [None], pages[i + 1..]);
    ProductUrlsAppend(pages[..i], [None]);
    var none: seq<Option<PageResponse>> := [None];
    assert ProductUrls([pages[i]]) == [] && ProductUrls(none) == [] by {
      assert [pages[i]][1..] == [] && none[1..] == [];
    }
  }

  /** Distinct product ids give distinct URLs. */
  lemma ProductUrlInjective(a: nat, b: nat)
    ensures ProductUrl(a) == ProductUrl(b) ==> a == b
  {
    if ProductUrl(a) == ProductUrl(b) {
      var da, db := Decimal.NatToDecimal(a), Decimal.NatToDecimal(b);
      assert |da| == |db|;
      assert da == ProductUrl(a)[|ProductEndpoint|..|ProductEndpoint| + |da|];
      assert db == ProductUrl(b)[|ProductEndpoint|..|ProductEndpoint| + |db|];
      Decimal.DecimalInjective(a, b);
    }
  }

  // ---------------------------------------------------------- suggestions

  /** The suggestion metric of a product; both fields are numbers in the API. */
  datatype Suggestion = Suggestion(count: int, percentage: int)

  /** `data.product.url`, which carries the site-relative `uri`. */
  datatype ProductLink = ProductLink(uri: string)

  /** `data.product` of a product-detail response; `url` and `suggestion` may be missing. */
  datatype ProductDetail = ProductDetail(url: Option<ProductLink>, suggestion: Option<Suggestion>)

  /** A product-detail response, reduced to its `data.product` object. */
  datatype ProductResponse = ProductResponse(product: ProductDetail)

  const SiteBase := "https://www.digikala.com"
  const NoSuggestion := Suggestion(0, 0)

  /** One `(key, value)` item of a Python dict. */
  type Entry = (string, Suggestion)

  /** The filter of the dict comprehension: present and with a `url`. */
  predicate Kept(r: Option<ProductResponse>) {
    r.Some? && r.value.product.url.Some?
  }

  /** The key of a kept response: the full product URL. */
  function KeyOf(r: Option<ProductResponse>): string
    requires Kept(r)
  {
    SiteBase + r.value.product.url.value.uri
  }

  /** The value of a kept response: its suggestion, or `{count: 0, percentage: 0}`. */
  function ValueOf(r: Option<ProductResponse>): Suggestion
    requires Kept(r)
  {
    r.value.product.suggestion.GetOr(NoSuggestion)
  }

  /** The keys of an insertion-ordered dict. */
  function Keys(d: seq<Entry>): set<string> {
    set i | 0 <= i < |d| :: d[i].0
  }

  /** No key twice. */
  predicate UniqueKeys(d: seq<Entry>) {
    forall i, j :: 0 <= i < j < |d| ==> d[i].0 != d[j].0
  }

  /** `d[key]`, or `None` when the key is missing. */
  function Lookup(d: seq<Entry>, key: string): Option<Suggestion>
    decreases |d|
  {
    if |d| == 0 then None else if d[0].0 == key then Some(d[0].1) else Lookup(d[1..], key)
  }

  /**
   * `d[key] = value` on a Python dict: an existing key keeps its place and
   * takes the new value; a new key goes to the end.
   */
  function Put(d: seq<Entry>, key: string, value: Suggestion): (r: seq<Entry>)
    ensures |r| == |d| || |r| == |d| + 1
    ensures Lookup(r, key) == Some(value)
    decreases |d|
  {
    if |d| == 0 then [(key, value)]
    else if d[0].0 == key then [(key, value)] + d[1..]
    else [d[0]] + Put(d[1..], key, value)
  }

  /** `Put` keeps keys unique, adds exactly `key`, and `key` now maps to `value`. */
  lemma {:induction false} PutSpec(d: seq<Entry>, key: string, value: Suggestion)
    requires UniqueKeys(d)
    ensures UniqueKeys(Put(d, key, value))
    ensures Keys(Put(d, key, value)) == Keys(d) + {key}
    ensures Lookup(Put(d, key, value), key) == Some(value)
    ensures forall k :: k != key ==> Lookup(Put(d, key, value), k) == Lookup(d, k)
    ensures |Put(d, key, value)| == if key in Keys(d) then |d| else |d| + 1
    decreases |d|
  {
    if |d| > 0 {
      KeysCons(d);
      if d[0].0 == key {
        var r := Put(d, key, value);
        assert r[1..] == d[1..];
        KeysCons(r);
        assert Keys(r) == Keys(d);
        assert UniqueKeys(r) by {
          forall i, j | 0 <= i < j < |r| ensures r[i].0 != r[j].0 {
            assert r[i].0 == d[i].0 && r[j].0 == d[j].0;
          }
        }
      } else {
        PutSpec(d[1..], key, value);
        var r := Put(d, key, value);
        assert r[1..] == Put(d[1..], key, value);
        KeysCons(r);
        assert d[0].0 !in Keys(d[1..]) by {
          forall j | 0 <= j < |d[1..]| ensures d[1..][j].0 != d[0].0 {
            assert d[1..][j] == d[j + 1];
          }
        }
        assert UniqueKeys(r) by {
          forall i, j | 0 <= i < j < |r| ensures r[i].0 != r[j].0 {
            if i == 0 {
              assert r[j].0 in Keys(r[1..]) by { assert r[1..][j - 1] == r[j]; }
            } else {
              assert r[i] == r[1..][i - 1] && r[j] == r[1..][j - 1];
            }
          }
        }
      }
    } else {
      var r := Put(d, key, value);
      assert Keys(r) == {key} by { assert r[0].0 == key; }
    }
  }

  /** How the keys of a dict split into its first key and the rest. */
  lemma KeysCons(d: seq<Entry>)
    requires |d| > 0
    ensures Keys(d) == {d[0].0} + Keys(d[1..])
    ensures UniqueKeys(d) ==> UniqueKeys(d[1..])
  {
    forall k | k in Keys(d) ensures k in {d[0].0} + Keys(d[1..]) {
      var i :| 0 <= i < |d| && d[i].0 == k;
      if i > 0 { assert d[1..][i - 1] == d[i]; }
    }
    forall k | k in Keys(d[1..]) ensures k in Keys(d) {
      var i :| 0 <= i < |d[1..]| && d[1..][i].0 == k;
      assert d[i + 1].0 == k;
    }
    if UniqueKeys(d) {
      forall i, j | 0 <= i < j < |d[1..]| ensures d[1..][i].0 != d[1..][j].0 {
        assert d[1..][i] == d[i + 1] && d[1..][j] == d[j + 1];
      }
    }
  }

  /** One step of the dict comprehension. */
  function Step(d: seq<Entry>, r: Option<ProductResponse>): seq<Entry> {
    if Kept(r) then Put(d, KeyOf(r), ValueOf(r)) else d
  }

  /** `get_suggestions`: the comprehension, evaluated left to right. */
  function Suggestions(responses: seq<Option<ProductResponse>>): (d: seq<Entry>)
    ensures |d| <= |responses|
    decreases |responses|
  {
    if |responses| == 0 then []
    else Step(Suggestions(responses[..|responses| - 1]), responses[|responses| - 1])
  }

  /** The number of present responses. */
  function PresentCount(responses: seq<Option<ProductResponse>>): nat
    decreases |responses|
  {
    if |responses| == 0 then 0
    else PresentCount(responses[..|responses| - 1]) + (if responses[|responses| - 1].Some? then 1 else 0)
  }

  /**
   * The dict has unique keys, exactly the keys of the kept responses, and no
   * more entries than there are present responses (so `#Lost data` is never negative).
   */
  lemma {:induction false} SuggestionsKeys(responses: seq<Option<ProductResponse>>)
    ensures UniqueKeys(Suggestions(responses))
    ensures forall k :: k in Keys(Suggestions(responses)) <==>
      exists i :: 0 <= i < |responses| && Kept(responses[i]) && KeyOf(responses[i]) == k
    ensures |Suggestions(responses)| <= PresentCount(responses) <= |responses|
    decreases |responses|
  {
    if |responses| > 0 {
      var init := responses[..|responses| - 1];
      var last := responses[|responses| - 1];
      SuggestionsKeys(init);
      if Kept(last) {
        PutSpec(Suggestions(init), KeyOf(last), ValueOf(last));
      }
      forall k ensures k in Keys(Suggestions(responses)) <==>
        exists i :: 0 <= i < |responses| && Kept(responses[i]) && KeyOf(responses[i]) == k
      {
        if k in Keys(Suggestions(responses)) {
          if Kept(last) && k == KeyOf(last) {
            assert Kept(responses[|responses| - 1]) && KeyOf(responses[|responses| - 1]) == k;
          } else {
            var i :| 0 <= i < |init| && Kept(init[i]) && KeyOf(init[i]) == k;
            assert responses[i] == init[i];
          }
        } else {
          forall i | 0 <= i < |responses| && Kept(responses[i]) ensures KeyOf(responses[i]) != k {
            if i < |init| { assert responses[i] == init[i]; }
          }
        }
      }
    }
  }

  /**
   * Later overwrites earlier: a kept response whose key no later kept response
   * repeats supplies the value stored under that key.
   */
  lemma {:induction false} SuggestionsLastWins(responses: seq<Option<ProductResponse>>, i: nat)
    requires i < |responses| && Kept(responses[i])
    requires forall j :: i < j < |responses| && Kept(responses[j]) ==> KeyOf(responses[j]) != KeyOf(responses[i])
    ensures Lookup(Suggestions(responses), KeyOf(responses[i])) == Some(ValueOf(responses[i]))
    decreases |responses|
  {
    var init := responses[..|responses| - 1];
    var last := responses[|responses| - 1];
    SuggestionsKeys(init);
    if i == |responses| - 1 {
      PutSpec(Suggestions(init), KeyOf(last), ValueOf(last));
    } else {
      assert init[i] == responses[i];
      SuggestionsLastWins(init, i);
      if Kept(last) {
        PutSpec(Suggestions(init), KeyOf(last), ValueOf(last));
      }
    }
  }
}
