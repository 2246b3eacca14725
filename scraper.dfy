/**
 * The `DigiKalaScraper` object: the state its methods update in place
 * (`TOTAL_SUCCESS`, `category_name`) and the methods that update it.
 */
module Scraper {
  import opened Wrappers
  import UrlBuilder
  import opened Fetcher

  /** The number of requests in `rs` that returned a body. */
  function FetchedCount<T>(rs: seq<RequestResult<T>>): nat
    decreases |rs|
  {
    if |rs| == 0 then 0 else FetchedCount(rs[..|rs| - 1]) + (if rs[|rs| - 1].Fetched? then 1 else 0)
  }

  /** Every body fetched adds one to the count, and the count never exceeds the number of requests. */
  lemma {:induction false} FetchedCountBound<T>(rs: seq<RequestResult<T>>)
    ensures FetchedCount(rs) <= |rs|
    ensures FetchedCount(rs) == |rs| <==> forall i :: 0 <= i < |rs| ==> rs[i].Fetched?
    decreases |rs|
  {
    if |rs| > 0 {
      var init := rs[..|rs| - 1];
      FetchedCountBound(init);
      if forall i :: 0 <= i < |rs| ==> rs[i].Fetched? {
        assert forall i :: 0 <= i < |init| ==> init[i] == rs[i];
      } else if FetchedCount(rs) == |rs| {
        assert rs[|rs| - 1].Fetched? && FetchedCount(init) == |init|;
        forall i | 0 <= i < |rs| ensures rs[i].Fetched? {
          if i < |init| { assert init[i] == rs[i]; }
        }
      }
    }
  }

  class DigiKalaScraper {
    /** `TOTAL_SUCCESS`: the number of 200 answers received so far. */
    var totalSuccess: nat
    /** `category_name`: set by `ParseUrl`, used to name the output file. */
    var categoryName: string

    constructor ()
      ensures totalSuccess == 0 && categoryName == ""
    {
      totalSuccess := 0;
      categoryName := "";
    }

    /**
     * `parse_url`: returns the search template and records the category. On a
     * URL with fewer than five segments Python raises before the assignment,
     * so the field keeps its old value and no template is returned.
     */
    method ParseUrl(url: string) returns (template: Option<string>)
      modifies this`categoryName
      ensures var p := UrlBuilder.ParseUrl(url);
        && (p.Some? ==> template == Some(p.value.template) && categoryName == p.value.category)
        && (p.None? ==> template == None && categoryName == old(categoryName))
    {
      var p := UrlBuilder.ParseUrl(url);
      if p.Some? {
        categoryName := p.value.category;
        template := Some(p.value.template);
      } else {
        template := None;
      }
    }

    /**
     * `make_request`: the retry loop over the script `outcomes`. Returns what
     * `Run` says, with the number of attempts made, and adds one to
     * `totalSuccess` exactly when a body is returned.
     */
    method MakeRequest<T>(outcomes: seq<Outcome<T>>, retries: int) returns (result: RequestResult<T>, attempts: nat)
      modifies this`totalSuccess
      ensures (result, attempts) == Run(outcomes, retries)
      ensures totalSuccess == old(totalSuccess) + (if result.Fetched? then 1 else 0)
    {
      var left := retries;
      var i := 0;
      while left > 0
        invariant 0 <= i <= |outcomes|
        invariant totalSuccess == old(totalSuccess)
        invariant Run(outcomes, retries) == (Run(outcomes[i..], left).0, Run(outcomes[i..], left).1 + i)
        decreases |outcomes| - i
      {
        if i == |outcomes| {
          // The source would issue another GET here, which the script does not describe.
          return Pending, i;
        }
        assert outcomes[i..][1..] == outcomes[i + 1..];
        var o := outcomes[i];
        match o {
          case Response(status, body) =>
            if status == 200 {
              totalSuccess := totalSuccess + 1;
              return Fetched(body), i + 1;
            } else {
              left := left - 1;
            }
          case Timeout =>
            left := left - 1;
          case ConnectionError =>
        }
        i := i + 1;
      }
      return GaveUp, i;
    }

    /**
     * `fetch_data`: one request per URL with the `MAX_RETRIES` budget, results
     * in input order; `scripts[k]` is what the server does for the `k`-th URL.
     * The concurrency gate and `asyncio.gather` are modelled as running the
     * requests one after another.
     */
    method FetchData<T>(scripts: seq<seq<Outcome<T>>>) returns (results: seq<RequestResult<T>>)
      modifies this`totalSuccess
      ensures |results| == |scripts|
      ensures forall k :: 0 <= k < |scripts| ==> results[k] == Run(scripts[k], MaxRetries).0
      ensures totalSuccess == old(totalSuccess) + FetchedCount(results)
    {
      results := [];
      while |results| < |scripts|
        invariant |results| <= |scripts|
        invariant forall k :: 0 <= k < |results| ==> results[k] == Run(scripts[k], MaxRetries).0
        invariant totalSuccess == old(totalSuccess) + FetchedCount(results)
      {
        var r, _ := MakeRequest(scripts[|results|], MaxRetries);
        assert (results + [r])[..|results|] == results;
        results := results + [r];
      }
    }
  }
}
