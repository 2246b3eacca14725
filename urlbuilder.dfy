/**
 * `parse_url`: turns a category listing URL into the search-endpoint
 * template of the API, to which a page number is appended.
 */
module UrlBuilder {
  import opened Wrappers
  import opened Strings

  const CategoriesEndpoint := "https://api.digikala.com/v1/categories/"
  const SearchInfix := "/search/"
  const PagePrefix := "page="
  /** The marker stripped from the fifth path segment. */
  const CategoryMarker := "category-"

  /** What `parse_url` produces: the value it stores in `category_name` and the template it returns. */
  datatype ParsedUrl = ParsedUrl(category: string, template: string)

  /** The query separator put before `page=`: `&` after an existing query, `?` otherwise. */
  function PageSeparator(query: string): char {
    if |query| != 0 then '&' else '?'
  }

  /**
   * `parse_url`. Fewer than five `/`-separated segments make Python's
   * `splitted[4]` raise, which is `None` here.
   */
  function ParseUrl(url: string): (r: Option<ParsedUrl>)
    ensures r.None? <==> |Split(url, '/')| < 5
    ensures r.Some? ==>
      var parts := Split(url, '/');
      var query := parts[|parts| - 1];
      && r.value.category == RemoveAll(parts[4], CategoryMarker)
      && CategoriesEndpoint + r.value.category + SearchInfix + query <= r.value.template
      && |r.value.template| >= |PagePrefix| + 1
      && r.value.template[|r.value.template| - |PagePrefix|..] == PagePrefix
      && r.value.template[|r.value.template| - |PagePrefix| - 1] == PageSeparator(query)
  {
    var parts := Split(url, '/');
    if |parts| < 5 then None
    else
      var category := RemoveAll(parts[4], CategoryMarker);
      var query := parts[|parts| - 1];
      var t := CategoriesEndpoint + category + SearchInfix + query + [PageSeparator(query)] + PagePrefix;
      assert t == (CategoriesEndpoint + category + SearchInfix + query) + ([PageSeparator(query)] + PagePrefix);
      Some(ParsedUrl(category, t))
  }

  /**
   * Reads a template back into its category and query. This is the partner
   * that shows the template determines both and that the separator is the
   * one `parse_url` picks.
   */
  function DecodeTemplate(t: string): Option<(string, string)> {
    if !(CategoriesEndpoint <= t) then None
    else
      var parts := Split(t[|CategoriesEndpoint|..], '/');
      if |parts| != 3 || parts[1] != "search" then None
      else
        var tail := parts[2];
        if |tail| < |PagePrefix| + 1 || tail[|tail| - |PagePrefix|..] != PagePrefix then None
        else
          var query := tail[..|tail| - |PagePrefix| - 1];
          if tail[|tail| - |PagePrefix| - 1] != PageSeparator(query) then None
          else Some((parts[0], query))
  }

  /** The category and the query both come back out of the template. */
  lemma TemplateRoundTrip(url: string)
    requires ParseUrl(url).Some?
    ensures
      var parts := Split(url, '/');
      DecodeTemplate(ParseUrl(url).value.template)
        == Some((ParseUrl(url).value.category, parts[|parts| - 1]))
  {
    var parts := Split(url, '/');
    SplitShape(url, '/');
    var query := parts[|parts| - 1];
    assert '/' !in parts[4] && '/' !in query;
    RemoveAllShrinks(parts[4], CategoryMarker);
    DecodeBuilt(RemoveAll(parts[4], CategoryMarker), query);
  }

  /** Decoding a template built from a slash-free category and query. */
  lemma DecodeBuilt(category: string, query: string)
    requires '/' !in category && '/' !in query
    ensures DecodeTemplate(CategoriesEndpoint + category + SearchInfix + query + [PageSeparator(query)] + PagePrefix)
      == Some((category, query))
  {
    var tail := query + [PageSeparator(query)] + PagePrefix;
    assert '/' !in tail by {
      assert forall i :: 0 <= i < |tail| ==> tail[i] != '/' by {
        forall i | 0 <= i < |tail| ensures tail[i] != '/' {
          if i < |query| { assert tail[i] == query[i]; }
        }
      }
    }
    var pieces := [category, "search", tail];
    assert SeparatorFree(pieces, '/');
    var t := CategoriesEndpoint + category + SearchInfix + query + [PageSeparator(query)] + PagePrefix;
    assert pieces[1..][1..] == [tail];
    assert Join(pieces[1..], '/') == "search" + ['/'] + tail;
    assert Join(pieces, '/') == category + ['/'] + ("search" + ['/'] + tail);
    assert t == CategoriesEndpoint + Join(pieces, '/');
    assert CategoriesEndpoint <= t;
    assert t[|CategoriesEndpoint|..] == Join(pieces, '/');
    SplitJoin(pieces, '/');
    assert tail[|tail| - |PagePrefix|..] == PagePrefix;
    assert tail[..|tail| - |PagePrefix| - 1] == query;
  }

  /** The usual input `.../category-<slug>/...` gives back `<slug>` as the category. */
  lemma CategoryIsSlug(url: string, slug: string)
    requires |Split(url, '/')| >= 5
    requires Split(url, '/')[4] == CategoryMarker + slug
    requires !Occurs(slug, CategoryMarker)
    ensures ParseUrl(url).Some? && ParseUrl(url).value.category == slug
  {
    StripLeading(CategoryMarker, slug);
  }
}
