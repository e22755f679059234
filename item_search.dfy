/**
 * `request_itemids` (functions/gee_delivery.py): one quick-search POST, then
 * a GET of each page's `_next` link until a page lists no item.
 *
 * The catalogue's answers are an input: `pages[0]` answers the POST and
 * `pages[k]` answers the k-th GET.
 */
module ItemSearch {
  import opened Wrappers

  /** One page of search results: its item ids and its `_links._next` entry, if any. */
  datatype Page = Page(ids: seq<string>, next: Option<string>)

  /** The POST made to start the search. */
  datatype SearchRequest<F> = SearchRequest(url: string, itemTypes: seq<string>, filter: F)

  /** A page that still listed items had no `_next` link (a `KeyError`). */
  datatype SearchError = MissingNextLink(page: nat)

  /** The walk stops at this page: it lists nothing, or it has no link to follow. */
  predicate Ends(p: Page) {
    p.ids == [] || p.next.None?
  }

  /** Some page from index `j` on stops the walk. */
  predicate Terminates(pages: seq<Page>, j: nat) {
    exists t :: j <= t < |pages| && Ends(pages[t])
  }

  /** The first page from index `j` on that stops the walk. */
  function FirstEnd(pages: seq<Page>, j: nat): (t: nat)
    requires Terminates(pages, j)
    ensures j <= t < |pages| && Ends(pages[t])
    ensures forall i :: j <= i < t ==> !Ends(pages[i])
    decreases |pages| - j
  {
    if Ends(pages[j]) then j
    else
      assert Terminates(pages, j + 1) by {
        var t :| j <= t < |pages| && Ends(pages[t]);
        assert t != j;
      }
      FirstEnd(pages, j + 1)
  }

  /** The ids of the pages, in order. */
  function Flatten(pages: seq<Page>): (ids: seq<string>)
    ensures forall k :: 0 <= k < |pages| ==> forall id :: id in pages[k].ids ==> id in ids
  {
    if pages == [] then [] else pages[0].ids + Flatten(pages[1..])
  }

  /** The `_next` links of the pages, in order. */
  function NextLinks(pages: seq<Page>): (links: seq<string>)
    requires forall k :: 0 <= k < |pages| ==> pages[k].next.Some?
    ensures |links| == |pages| && forall k :: 0 <= k < |pages| ==> links[k] == pages[k].next.value
  {
    if pages == [] then [] else [pages[0].next.value] + NextLinks(pages[1..])
  }

  /**
   * The ids collected from page `j` on, page by page as the loop of lines
   * 31-43 does: a page's ids are kept, an empty page ends the walk, and a
   * non-empty page without a `_next` link raises.
   */
  function Walk(pages: seq<Page>, j: nat): Result<seq<string>, SearchError>
    requires Terminates(pages, j)
    decreases |pages| - j
  {
    if pages[j].ids == [] then Ok([])
    else if pages[j].next.None? then Err(MissingNextLink(j))
    else
      assert Terminates(pages, j + 1) by {
        var t :| j <= t < |pages| && Ends(pages[t]);
        assert t != j;
      }
      match Walk(pages, j + 1)
      case Err(e) => Err(e)
      case Ok(rest) => Ok(pages[j].ids + rest)
  }

  /**
   * The walk returns the ids of every page up to the first page that stops
   * it when that page is empty, and fails at that page otherwise.
   */
  lemma {:induction false} WalkClosedForm(pages: seq<Page>, j: nat)
    requires Terminates(pages, j)
    ensures var t := FirstEnd(pages, j);
      Walk(pages, j) == if pages[t].ids == [] then Ok(Flatten(pages[j..t])) else Err(MissingNextLink(t))
    decreases |pages| - j
  {
    var t := FirstEnd(pages, j);
    if t == j {
      assert pages[j..t] == [];
    } else {
      assert Terminates(pages, j + 1) by {
        assert j + 1 <= t;
      }
      assert FirstEnd(pages, j + 1) == t;
      WalkClosedForm(pages, j + 1);
      assert pages[j..t][1..] == pages[j + 1..t];
    }
  }

  /** Pages after the first empty one are never looked at. */
  lemma PagesAfterEndUnread(pages: seq<Page>, others: seq<Page>)
    requires Terminates(pages, 0)
    ensures var t := FirstEnd(pages, 0);
      Terminates(pages[..t + 1] + others, 0)
      && FirstEnd(pages[..t + 1] + others, 0) == t
      && Walk(pages[..t + 1] + others, 0) == Walk(pages, 0)
  {
    var t := FirstEnd(pages, 0);
    var q := pages[..t + 1] + others;
    assert q[t] == pages[t];
    assert Terminates(q, 0);
    FirstEndOfPrefix(pages, q, 0, t);
    WalkClosedForm(pages, 0);
    WalkClosedForm(q, 0);
    assert q[0..t] == pages[0..t];
  }

  lemma {:induction false} FirstEndOfPrefix(pages: seq<Page>, q: seq<Page>, j: nat, t: nat)
    requires j <= t < |pages| && t < |q| && Ends(pages[t])
    requires forall i :: j <= i <= t ==> q[i] == pages[i]
    requires forall i :: j <= i < t ==> !Ends(pages[i])
    ensures Terminates(pages, j) && Terminates(q, j)
    ensures FirstEnd(q, j) == t && FirstEnd(pages, j) == t
    decreases t - j
  {
    if j < t {
      FirstEndOfPrefix(pages, q, j + 1, t);
    }
  }

  /**
   * `request_itemids(satellite_product, img_filter, planet_session,
   * planet_baseURL)`: the search request it posts, the links it gets, and
   * the ids it returns.
   */
  method RequestItemIds<F>(product: string, filter: F, baseUrl: string, pages: seq<Page>)
    returns (r: Result<seq<string>, SearchError>, search: SearchRequest<F>, gets: seq<string>)
    requires Terminates(pages, 0)
    ensures search == SearchRequest(baseUrl + "/quick-search", [product], filter)
    ensures r == Walk(pages, 0)
    ensures gets == NextLinks(pages[..FirstEnd(pages, 0)])
  {
    var t := FirstEnd(pages, 0);
    search := SearchRequest(baseUrl + "/quick-search", [product], filter);
    var i := 0;
    var current := pages[0].ids;
    var itemIds := current;
    gets := [];
    while current != []
      invariant 0 <= i <= t
      invariant current == pages[i].ids
      invariant itemIds == Flatten(pages[..i + 1])
      invariant gets == NextLinks(pages[..i])
      decreases t - i
    {
      if pages[i].next.None? {
        assert Ends(pages[i]) && i == t;
        WalkClosedForm(pages, 0);
        assert Walk(pages, 0) == Err(MissingNextLink(i));
        return Err(MissingNextLink(i)), search, gets;
      }
      gets := gets + [pages[i].next.value];
      assert pages[..i + 1] == pages[..i] + [pages[i]];
      i := i + 1;
      current := pages[i].ids;
      FlattenSnoc(pages[..i], pages[i]);
      assert pages[..i + 1] == pages[..i] + [pages[i]];
      itemIds := itemIds + current;
    }
    assert Ends(pages[i]);
    assert i == t;
    WalkClosedForm(pages, 0);
    FlattenSnoc(pages[..i], pages[i]);
    assert pages[..i + 1] == pages[..i] + [pages[i]];
    assert pages[0..i] == pages[..i];
    assert itemIds == Flatten(pages[..i]) + [];
    assert itemIds == Flatten(pages[0..t]);
    assert Walk(pages, 0) == Ok(itemIds);
    r := Ok(itemIds);
  }

  lemma {:induction false} FlattenSnoc(pages: seq<Page>, p: Page)
    ensures Flatten(pages + [p]) == Flatten(pages) + p.ids
  {
    if pages == [] {
      assert [p][1..] == [];
    } else {
      assert (pages + [p])[1..] == pages[1..] + [p];
      FlattenSnoc(pages[1..], p);
    }
  }

  /** An empty first page means no page is fetched and no id is returned. */
  lemma EmptyFirstPage(pages: seq<Page>)
    requires pages != [] && pages[0].ids == []
    ensures Terminates(pages, 0) && FirstEnd(pages, 0) == 0 && Walk(pages, 0) == Ok([])
  {
    assert Ends(pages[0]);
  }
}
