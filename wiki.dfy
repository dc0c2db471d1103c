/** The Confluence REST calls the weekly-report job makes, as an in-memory
    space of pages: look a page up by title, list the children of a page,
    create a page, copy a page under another and retitle a page. */
module Wiki {
  import opened Results

  /** A page as the REST API describes it: its id, title, parent page (none
      at the space root), body and version number. */
  datatype Page = Page(id: nat, title: string, parent: Option<nat>, body: string, version: nat)

  /** Why Confluence refuses an update: no such page, or a version number
      other than the current one plus one (HTTP 409). */
  datatype WikiError = NotFound | Conflict

  /** Position of the first page titled `title` at or after `from`. */
  function TitleIndex(pages: seq<Page>, title: string, from: nat): (r: Option<nat>)
    requires from <= |pages|
    ensures r.Some? ==> from <= r.value < |pages| && pages[r.value].title == title
    ensures forall j :: from <= j < |pages| && (r.None? || j < r.value) ==> pages[j].title != title
    decreases |pages| - from
  {
    if from == |pages| then None
    else if pages[from].title == title then Some(from)
    else TitleIndex(pages, title, from + 1)
  }

  /** `get_page_by_title`: the first result of the title search, if any. */
  function PageByTitle(pages: seq<Page>, title: string): (r: Option<Page>)
    ensures r.None? <==> forall p :: p in pages ==> p.title != title
    ensures r.Some? ==> r.value in pages && r.value.title == title
  {
    match TitleIndex(pages, title, 0)
    case None => None
    case Some(k) => Some(pages[k])
  }

  /** `get_child_pages`: the pages whose parent is `parent`, in the order
      the space holds them. */
  function Children(pages: seq<Page>, parent: nat): (r: seq<Page>)
    ensures forall p :: p in r <==> p in pages && p.parent == Some(parent)
    ensures |r| <= |pages|
  {
    if pages == [] then []
    else (if pages[0].parent == Some(parent) then [pages[0]] else []) + Children(pages[1..], parent)
  }

  /** Every page's id is its position, its version is at least 1 and its
      parent, if any, was created before it. */
  predicate WellFormed(pages: seq<Page>) {
    forall i :: 0 <= i < |pages| ==>
      pages[i].id == i && 1 <= pages[i].version
      && (pages[i].parent.Some? ==> pages[i].parent.value < i)
  }

  /** Pages listed in increasing order of id. */
  predicate InIdOrder(pages: seq<Page>) {
    forall i, j :: 0 <= i < j < |pages| ==> pages[i].id < pages[j].id
  }

  /** A well-formed space lists its pages in creation order. */
  lemma WellFormedInIdOrder(pages: seq<Page>)
    requires WellFormed(pages)
    ensures InIdOrder(pages)
  {
  }

  /** The child listing keeps the space's order, so in a well-formed space
      the children come in creation order. */
  lemma {:induction false} ChildrenInOrder(pages: seq<Page>, parent: nat)
    requires InIdOrder(pages)
    ensures InIdOrder(Children(pages, parent))
  {
    if pages != [] {
      var rest := Children(pages[1..], parent);
      TailInIdOrder(pages);
      ChildrenInOrder(pages[1..], parent);
      if pages[0].parent == Some(parent) {
        HeadBeforeTail(pages, rest);
        ConsInIdOrder(pages[0], rest);
      }
    }
  }

  lemma TailInIdOrder(pages: seq<Page>)
    requires pages != [] && InIdOrder(pages)
    ensures InIdOrder(pages[1..])
  {
    forall i, j | 0 <= i < j < |pages| - 1 ensures pages[1..][i].id < pages[1..][j].id {
      assert pages[1..][i] == pages[i + 1] && pages[1..][j] == pages[j + 1];
    }
  }

  lemma HeadBeforeTail(pages: seq<Page>, rest: seq<Page>)
    requires pages != [] && InIdOrder(pages)
    requires forall q :: q in rest ==> q in pages[1..]
    ensures forall q :: q in rest ==> pages[0].id < q.id
  {
    forall q | q in rest ensures pages[0].id < q.id {
      var k :| 0 <= k < |pages[1..]| && pages[1..][k] == q;
      assert pages[k + 1] == q;
    }
  }

  lemma ConsInIdOrder(x: Page, rest: seq<Page>)
    requires InIdOrder(rest) && forall q :: q in rest ==> x.id < q.id
    ensures InIdOrder([x] + rest)
  {
    var r := [x] + rest;
    forall i, j | 0 <= i < j < |r| ensures r[i].id < r[j].id {
      assert r[j] == rest[j - 1] && r[j] in rest;
      if i > 0 {
        assert r[i] == rest[i - 1];
      }
    }
  }

  /** A page of a well-formed space is found again at the position its id names. */
  lemma PageAtId(pages: seq<Page>, p: Page)
    requires WellFormed(pages) && p in pages
    ensures p.id < |pages| && pages[p.id] == p
  {
    var i :| 0 <= i < |pages| && pages[i] == p;
  }

  /** Pages added later never hide an earlier page from the title search. */
  lemma {:induction false} TitleIndexAppend(pages: seq<Page>, more: seq<Page>, title: string, from: nat)
    requires from <= |pages| && TitleIndex(pages, title, from).Some?
    ensures TitleIndex(pages + more, title, from) == TitleIndex(pages, title, from)
    decreases |pages| - from
  {
    assert (pages + more)[from] == pages[from];
    if pages[from].title != title {
      TitleIndexAppend(pages, more, title, from + 1);
    }
  }

  lemma PageByTitleAppend(pages: seq<Page>, more: seq<Page>, title: string)
    requires PageByTitle(pages, title).Some?
    ensures PageByTitle(pages + more, title) == PageByTitle(pages, title)
  {
    TitleIndexAppend(pages, more, title, 0);
  }

  /** A page just added to a well-formed space has no children yet. */
  lemma NoChildrenYet(pages: seq<Page>, p: Page)
    requires WellFormed(pages) && p.parent != Some(|pages|)
    ensures Children(pages + [p], |pages|) == []
  {
    var c := Children(pages + [p], |pages|);
    if c != [] {
      assert c[0] in c;
      PageInAppended(pages, p, c[0]);
    }
  }

  lemma PageInAppended(pages: seq<Page>, p: Page, q: Page)
    requires WellFormed(pages) && p.parent != Some(|pages|)
    requires q in pages + [p]
    ensures q.parent != Some(|pages|)
  {
    if q in pages {
      PageAtId(pages, q);
    }
  }

  /** A Confluence space: the pages it holds, in creation order. */
  class Wiki {
    var pages: seq<Page>

    predicate Valid()
      reads this
    {
      WellFormed(pages)
    }

    constructor (initial: seq<Page>)
      ensures pages == initial
    {
      pages := initial;
    }

    /** `create_page`: a new page, version 1, under `parent` or at the root. */
    method CreatePage(parent: Option<nat>, title: string, content: string) returns (page: Page)
      requires Valid() && (parent.Some? ==> parent.value < |pages|)
      modifies this
      ensures Valid()
      ensures page == Page(|old(pages)|, title, parent, content, 1)
      ensures pages == old(pages) + [page]
    {
      page := Page(|pages|, title, parent, content, 1);
      pages := pages + [page];
    }

    /** `copy_page`: a new page, version 1, under `destination`, with the
        title and body of page `id`. */
    method CopyPage(id: nat, destination: nat) returns (copy: Page)
      requires Valid() && id < |pages| && destination < |pages|
      modifies this
      ensures Valid()
      ensures copy == Page(|old(pages)|, old(pages)[id].title, Some(destination), old(pages)[id].body, 1)
      ensures pages == old(pages) + [copy]
    {
      copy := Page(|pages|, pages[id].title, Some(destination), pages[id].body, 1);
      pages := pages + [copy];
    }

    /** `update_page`: retitles page `id`, accepted only with the next
        version number; nothing else about the page changes. */
    method UpdatePage(id: nat, title: string, version: nat) returns (r: Result<Page, WikiError>)
      requires Valid()
      modifies this
      ensures Valid()
      ensures id >= |old(pages)| ==> r == Err(NotFound) && pages == old(pages)
      ensures id < |old(pages)| && version != old(pages)[id].version + 1 ==>
                r == Err(Conflict) && pages == old(pages)
      ensures id < |old(pages)| && version == old(pages)[id].version + 1 ==>
                r == Ok(old(pages)[id].(title := title, version := version))
                && pages == old(pages)[id := r.value]
    {
      if id >= |pages| {
        return Err(NotFound);
      }
      if version != pages[id].version + 1 {
        return Err(Conflict);
      }
      var updated := pages[id].(title := title, version := version);
      pages := pages[id := updated];
      return Ok(updated);
    }
  }
}
