/** Problem 2, the stateful part: the `useContactData` hook holds the
    accumulated contacts, the loading indicator and the next-page cursor;
    `loadData`, `nextPage`, `setQuery` and the scroll handler update them.
    The network is not modelled: a request is returned to the caller, and the
    decoded response is handed back in as a `Page`. */
module ContactStore {
  import opened Seqs
  import opened Contacts

  datatype Option<T> = None | Some(value: T)

  /** The first page of the contact API. */
  const INITIAL_URL: string := "https://contact.mediusware.com/api/contacts/?format=json"

  /** A decoded API response: the page's contacts and the cursor of the next page. */
  datatype Page = Page(results: seq<Contact>, next: Option<string>)

  /** One call of `loadData`: the URL it fetches and its two options. */
  datatype Request = Request(url: string, resetPage: bool, useLoading: bool)

  /** The cursor is truthy: present and not the empty string. */
  predicate IsCursor(url: Option<string>) {
    url.Some? && url.value != ""
  }

  /** The scrolled region shows its last pixel. */
  predicate AtBottom(scrollTop: int, clientHeight: int, scrollHeight: int) {
    scrollTop + clientHeight == scrollHeight
  }

  /** The URL of the first page of a search. */
  function SearchUrl(query: string): string {
    INITIAL_URL + "&search=" + query
  }

  class ContactData {
    var data: seq<Contact>
    var isLoading: bool
    var nextPageUrl: Option<string>

    /** The hook's initial state: nothing loaded, not loading, the first page as cursor. */
    constructor ()
      ensures data == [] && !isLoading && nextPageUrl == Some(INITIAL_URL)
    {
      data := [];
      isLoading := false;
      nextPageUrl := Some(INITIAL_URL);
    }

    /** `api.data`: the accumulated contacts without repeats. */
    function View(): (r: seq<Contact>)
      reads this
      ensures NoDuplicates(r)
      ensures forall c :: c in r <==> c in data
    {
      RemoveDuplicate(data)
    }

    /** `loadData` up to its `await`: the indicator goes up when the call uses it. */
    method Start(req: Request)
      modifies this
      ensures isLoading == (req.useLoading || old(isLoading))
      ensures data == old(data) && nextPageUrl == old(nextPageUrl)
    {
      if req.useLoading {
        isLoading := true;
      }
    }

    /** `loadData` after its `await`: the indicator goes down when the call
        uses it, the page's cursor is recorded, and the page's contacts either
        replace the accumulated ones or are appended after them. */
    method Finish(req: Request, page: Page)
      modifies this
      ensures isLoading == (!req.useLoading && old(isLoading))
      ensures nextPageUrl == page.next
      ensures data == if req.resetPage then page.results else old(data) + page.results
      ensures req.resetPage ==> View() == RemoveDuplicate(page.results)
      ensures !req.resetPage ==> old(data) <= data && old(View()) <= View()
    {
      if req.useLoading {
        isLoading := false;
      }
      nextPageUrl := page.next;
      if req.resetPage {
        data := page.results;
      } else {
        RemoveDuplicateOfAppend(data, page.results);
        data := data + page.results;
      }
    }

    /** `loadData` when its response arrives before any other event: a
        loading call ends with the indicator down, a background call leaves
        it as it was. */
    method LoadData(req: Request, page: Page)
      modifies this
      ensures isLoading == (!req.useLoading && old(isLoading))
      ensures nextPageUrl == page.next
      ensures data == if req.resetPage then page.results else old(data) + page.results
    {
      Start(req);
      Finish(req, page);
    }

    /** The mount effect: `loadData(initialUrl)` with the default options,
        appending and using the indicator. */
    method Mount() returns (req: Request)
      modifies this
      ensures req == Request(INITIAL_URL, false, true)
      ensures isLoading && data == old(data) && nextPageUrl == old(nextPageUrl)
    {
      req := Request(INITIAL_URL, false, true);
      Start(req);
    }

    /** `nextPage`: with a truthy cursor, a background append of that page;
        otherwise nothing. It never touches the indicator. */
    method NextPage() returns (req: Option<Request>)
      modifies this
      ensures req.Some? <==> IsCursor(old(nextPageUrl))
      ensures req.Some? ==> req.value == Request(old(nextPageUrl).value, false, false)
      ensures data == old(data) && isLoading == old(isLoading) && nextPageUrl == old(nextPageUrl)
    {
      if IsCursor(nextPageUrl) {
        var r := Request(nextPageUrl.value, false, false);
        Start(r);
        req := Some(r);
      } else {
        req := None;
      }
    }

    /** `setQuery`: reload from the first page of the search, replacing the
        accumulated contacts, with the indicator up until the page arrives. */
    method SetQuery(query: string) returns (req: Request)
      modifies this
      ensures req == Request(SearchUrl(query), true, true)
      ensures isLoading && data == old(data) && nextPageUrl == old(nextPageUrl)
    {
      req := Request(SearchUrl(query), true, true);
      Start(req);
    }

    /** `handleScroll`: asks for the next page only when the dialog element
        exists, nothing is loading with the indicator, and the region is
        scrolled to the bottom. */
    method HandleScroll(hasTarget: bool, scrollTop: int, clientHeight: int, scrollHeight: int)
      returns (req: Option<Request>)
      modifies this
      ensures req.Some? <==>
              hasTarget && !old(isLoading) && AtBottom(scrollTop, clientHeight, scrollHeight) && IsCursor(old(nextPageUrl))
      ensures req.Some? ==> req.value == Request(old(nextPageUrl).value, false, false)
      ensures data == old(data) && isLoading == old(isLoading) && nextPageUrl == old(nextPageUrl)
    {
      if !hasTarget || isLoading {
        req := None;
        return;
      }
      if AtBottom(scrollTop, clientHeight, scrollHeight) {
        req := NextPage();
      } else {
        req := None;
      }
    }
  }

  /** Reaching the bottom twice before the next page arrives requests that
      page twice: a background load does not raise the indicator, so the
      scroll guard lets the second request through. */
  method ScrollTwiceBeforeResponse(first: Page, scrollTop: int, clientHeight: int)
    returns (a: Option<Request>, b: Option<Request>)
    requires IsCursor(first.next)
    ensures a.Some? && a == b && a.value.url == first.next.value
  {
    var store := new ContactData();
    var mount := store.Mount();
    store.Finish(mount, first);
    a := store.HandleScroll(true, scrollTop, clientHeight, scrollTop + clientHeight);
    b := store.HandleScroll(true, scrollTop, clientHeight, scrollTop + clientHeight);
  }

  /** While a search is loading, reaching the bottom requests nothing, and the
      search's page then replaces every contact accumulated before it. */
  method SearchDiscardsEarlierPages(first: Page, query: string, found: Page, scrollTop: int, clientHeight: int)
    returns (during: Option<Request>, shown: seq<Contact>)
    ensures during == None
    ensures shown == RemoveDuplicate(found.results)
  {
    var store := new ContactData();
    var mount := store.Mount();
    store.Finish(mount, first);
    var search := store.SetQuery(query);
    during := store.HandleScroll(true, scrollTop, clientHeight, scrollTop + clientHeight);
    store.Finish(search, found);
    shown := store.View();
  }

  /** On mount the page load and the empty search of the search box start
      together. When the search page arrives first, the mount page is then
      appended after it: the raw list holds both pages, and when the mount
      page repeats contacts of the search page, the view hides the repeats. */
  method MountRacesEmptySearch(first: Page, found: Page)
    returns (raw: seq<Contact>, shown: seq<Contact>, loading: bool)
    ensures raw == found.results + first.results
    ensures shown == RemoveDuplicate(raw) && !loading
    ensures (forall c :: c in first.results ==> c in found.results) ==> shown == RemoveDuplicate(found.results)
  {
    var store := new ContactData();
    var mount := store.Mount();
    var search := store.SetQuery("");
    store.Finish(search, found);
    store.Finish(mount, first);
    raw, shown, loading := store.data, store.View(), store.isLoading;
    if forall c :: c in first.results ==> c in found.results {
      RemoveDuplicateOfAppendSeen(found.results, first.results);
    }
  }
}
