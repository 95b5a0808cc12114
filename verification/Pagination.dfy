/** The link paginator of support-runtime/src/paginate.rs against any deterministic server. */
module Pagination {
  import opened Sequences
  import opened Links
  import LinkFields

  /** A URL: what is sent of it, and its fragment, which is not. */
  datatype Url = Url(sent: string, fragment: Option<string>)

  /** What fetching a URL comes to: a failure before or after sending, or a response with its `Link` values. */
  datatype Reply =
    | Unbuildable
    | TransportFailure
    | Responded(success: bool, links: seq<Option<string>>, decodes: bool)

  datatype PageError = PaginationCycle(url: Url) | RequestConstruction | Transport | Status | Decode

  datatype PageResult = Fetched | Failed(error: PageError)

  /** A server, with the client's decoding of its responses, and how a reference is resolved against a URL. */
  datatype Web = Web(serves: string -> Reply, resolves: (Url, string) -> Option<Url>)

  predicate IsSent(reply: Reply) {
    !reply.Unbuildable?
  }

  predicate IsPage(reply: Reply) {
    reply.Responded? && reply.success && reply.decodes
  }

  /** The URL that the response to `url` links on to. */
  function LinkedFrom(web: Web, url: Url): Option<Url> {
    var reply := web.serves(url.sent);
    if !IsPage(reply) then None
    else
      var target :- FirstNextOf(reply.links);
      web.resolves(url, target)
  }

  /** A well-formed page links on to the reference of its first link that names `next`. */
  lemma RenderedPageLinks(web: Web, url: Url, fields: seq<LinkFields.Field>)
    requires IsPage(web.serves(url.sent)) && web.serves(url.sent).links == LinkFields.Rendered(fields)
    requires forall k :: 0 <= k < |fields| ==> LinkFields.IsField(fields[k])
    ensures LinkedFrom(web, url) == match LinkFields.FirstNextLink(LinkFields.AllEntries(fields))
                                    case None => None
                                    case Some(target) => web.resolves(url, target)
  {
    LinkFields.RenderedFieldsRead(fields);
  }

  /** Follows the links: the URL `n` links on from `first`, while every page before it decodes and links on. */
  function Orbit(web: Web, first: Option<Url>, n: nat): Option<Url> {
    if n == 0 then first
    else
      var url :- Orbit(web, first, n - 1);
      LinkedFrom(web, url)
  }

  class LinkPaginator {
    const web: Web
    ghost const first: Option<Url>
    var next: Option<Url>
    /** Every URL requested, its fragment removed. */
    var fetched: set<string>
    /** The URLs requested, in order, and whether an error ended the chain. */
    ghost var requested: seq<string>
    ghost var failed: bool

    constructor (web: Web, first: Option<Url>)
      ensures Valid() && this.web == web && this.first == first && requested == [] && next == first && !failed
    {
      this.web, this.first, next, fetched, requested, failed := web, first, first, {}, [], false;
    }

    /** The requests so far are the distinct URLs of the orbit, in order; armed, the next one is armed. */
    ghost predicate Valid()
      reads this
    {
      && (forall i :: 0 <= i < |requested| ==>
            Orbit(web, first, i).Some? && Orbit(web, first, i).value.sent == requested[i])
      && (forall i, j :: 0 <= i < j < |requested| ==> requested[i] != requested[j])
      && (forall s :: s in fetched ==> s in requested || failed)
      && (forall s :: s in requested ==> s in fetched)
      && (!failed ==> next == Orbit(web, first, |requested|))
      && (failed ==> next.None?)
    }

    /** Fetches and decodes the next page; `None` at the end of the chain. */
    method NextPage() returns (page: Option<PageResult>)
      requires Valid()
      modifies this
      ensures Valid()
      ensures page.None? <==> old(next).None?
      ensures page.None? ==> next == old(next) && requested == old(requested) && failed == old(failed)
      ensures page.Some? ==>
        var url := old(next).value;
        var reply := web.serves(url.sent);
        if url.sent in old(requested) then page.value == Failed(PaginationCycle(url)) && requested == old(requested)
        else
          && requested == (if IsSent(reply) then old(requested) + [url.sent] else old(requested))
          && page.value == match reply
                           case Unbuildable => Failed(RequestConstruction)
                           case TransportFailure => Failed(Transport)
                           case Responded(success, _, decodes) =>
                             if success && decodes then Fetched else if success then Failed(Decode) else Failed(Status)
      ensures page.Some? ==> (failed <==> page.value.Failed?) && (failed ==> next.None?)
    {
      // An armed paginator has not failed.
      assert next.Some? ==> !failed;
      if next.None? {
        return None;
      }
      var url := next.value;
      next := None;
      if url.sent in fetched {
        failed := true;
        return Some(Failed(PaginationCycle(url)));
      }
      fetched := fetched + {url.sent};
      var reply := web.serves(url.sent);
      if reply.Unbuildable? {
        failed := true;
        return Some(Failed(RequestConstruction));
      }
      requested := requested + [url.sent];
      if reply.TransportFailure? {
        failed := true;
        return Some(Failed(Transport));
      }
      page := HandleResponse(url, reply);
    }

    /** Gate on the status, read the link, decode; only a decoded page arms the next one. */
    method HandleResponse(url: Url, reply: Reply) returns (page: Option<PageResult>)
      requires reply == web.serves(url.sent) && reply.Responded? && next.None?
      modifies this`next, this`failed
      ensures page == Some(if !reply.success then Failed(Status) else if !reply.decodes then Failed(Decode) else Fetched)
      ensures failed <==> page.value.Failed? || old(failed)
      ensures next == LinkedFrom(web, url)
    {
      if !reply.success {
        failed := true;
        return Some(Failed(Status));
      }
      var target := NextLinkTarget(reply.links);
      var linked := if target.Some? then web.resolves(url, target.value) else None;
      if !reply.decodes {
        failed := true;
        return Some(Failed(Decode));
      }
      next := linked;
      page := Some(Fetched);
    }
  }

  lemma {:induction false} DistinctFit(urls: seq<string>, universe: set<string>)
    requires forall i, j :: 0 <= i < j < |urls| ==> urls[i] != urls[j]
    requires forall s :: s in urls ==> s in universe
    ensures |urls| <= |universe|
  {
    if urls != [] {
      var front, last := urls[..|urls| - 1], urls[|urls| - 1];
      DistinctFit(front, universe - {last});
      assert last in universe;
    }
  }

  /** A server whose links stay among the URLs of `universe`. */
  ghost predicate Stays(web: Web, universe: set<string>) {
    forall url: Url :: url.sent in universe && LinkedFrom(web, url).Some? ==> LinkedFrom(web, url).value.sent in universe
  }

  lemma {:induction false} OrbitStays(web: Web, first: Option<Url>, universe: set<string>, n: nat)
    requires Stays(web, universe) && (first.Some? ==> first.value.sent in universe)
    ensures var url := Orbit(web, first, n); url.Some? ==> url.value.sent in universe
  {
    if n > 0 {
      OrbitStays(web, first, universe, n - 1);
    }
  }

  /** How a chain came to its end. */
  datatype Ending = Exhausted | Cycle(url: Url) | Broken(error: PageError)

  /**
   * Follows a chain to its end over the finitely many URLs of `universe`: every page requested once, in
   * the order of the links, and no more requests than there are URLs.
   */
  method FollowAll(web: Web, first: Option<Url>, ghost universe: set<string>)
    returns (ending: Ending, pages: nat, ghost requested: seq<string>)
    requires Stays(web, universe) && (first.Some? ==> first.value.sent in universe)
    ensures |requested| <= |universe| && pages <= |requested|
    ensures forall i :: 0 <= i < |requested| ==>
      Orbit(web, first, i).Some? && Orbit(web, first, i).value.sent == requested[i]
    ensures forall i, j :: 0 <= i < j < |requested| ==> requested[i] != requested[j]
    ensures forall i :: 0 <= i < pages ==> IsPage(web.serves(requested[i]))
    ensures ending.Exhausted? ==> pages == |requested| && Orbit(web, first, pages).None?
    ensures ending.Cycle? ==> pages == |requested| && Orbit(web, first, pages) == Some(ending.url)
                              && ending.url.sent in requested
    ensures ending.Broken? ==> !ending.error.PaginationCycle? && Orbit(web, first, pages).Some?
                               && !IsPage(web.serves(Orbit(web, first, pages).value.sent))
  {
    var paginator := new LinkPaginator(web, first);
    pages := 0;
    while true
      invariant fresh(paginator) && paginator.Valid() && paginator.web == web && paginator.first == first
      invariant !paginator.failed && pages == |paginator.requested|
      invariant forall i :: 0 <= i < pages ==> IsPage(web.serves(paginator.requested[i]))
      invariant pages <= |universe|
      decreases |universe| - pages
    {
      ghost var before := paginator.requested;
      ghost var armed := paginator.next;
      var page := paginator.NextPage();
      requested := paginator.requested;
      forall s | s in requested
        ensures s in universe
      {
        var i :| 0 <= i < |requested| && requested[i] == s;
        OrbitStays(web, first, universe, i);
      }
      DistinctFit(requested, universe);
      if page.None? {
        return Exhausted, pages, requested;
      }
      match page.value
      case Failed(PaginationCycle(url)) => return Cycle(url), pages, requested;
      case Failed(error) => return Broken(error), pages, requested;
      case Fetched => pages := pages + 1;
    }
  }
}
