/**
 * CommentsRepository (src/comments/comments.repository.ts): the paginated,
 * sorted listing of getAll as functions, and the stored collection with
 * createComment and deleteComment as a class.
 *
 * getAll defaults its parameters, turns the direction into 1 or -1, counts
 * the whole collection (its filter is empty), asks the store for the window
 * [skip, skip + pageSize) of the collection in sort order, and echoes the
 * page parameters back. A failure of the count or of the fetch is caught;
 * here it is the distinct result StorageFailure.
 */
module Comments {
  import opened Options
  import opened Ordering
  import opened CommentTypes
  import opened Search

  /** A page number or page size: a number of at least one. */
  type Pos = n: int | n >= 1 witness 1

  /** RequestParams: every listing parameter may be absent. */
  datatype RequestParams = RequestParams(
    sortBy: Option<string>,
    sortDirection: Option<string>,
    pageNumber: Option<Pos>,
    pageSize: Option<Pos>)

  /** The parameters once defaulted. */
  datatype Query = Query(sortBy: string, sortDirection: string, pageNumber: Pos, pageSize: Pos)

  const DefaultSortBy: string := "createdAt"
  const Asc: string := "asc"
  const Desc: string := "desc"
  const DefaultPageNumber: Pos := 1
  const DefaultPageSize: Pos := 10

  /** A one-field sort: the field's name and 1 (ascending) or -1 (descending). */
  datatype SortKey = SortKey(field: string, direction: int)

  datatype ResponseBody = ResponseBody(
    pagesCount: nat,
    page: Pos,
    pageSize: Pos,
    totalCount: nat,
    items: seq<Comment>)

  datatype ListResult = Listed(body: ResponseBody) | StorageFailure

  // ---------------------------------------------------------------------
  // Parameters
  // ---------------------------------------------------------------------

  /** Each absent parameter takes its default; a present one is kept. */
  function Normalize(params: RequestParams): (q: Query)
    ensures params.sortBy.Some? ==> q.sortBy == params.sortBy.value
    ensures params.sortBy.None? ==> q.sortBy == DefaultSortBy
    ensures params.sortDirection.Some? ==> q.sortDirection == params.sortDirection.value
    ensures params.sortDirection.None? ==> q.sortDirection == Desc
    ensures params.pageNumber.Some? ==> q.pageNumber == params.pageNumber.value
    ensures params.pageNumber.None? ==> q.pageNumber == DefaultPageNumber
    ensures params.pageSize.Some? ==> q.pageSize == params.pageSize.value
    ensures params.pageSize.None? ==> q.pageSize == DefaultPageSize
  {
    Query(
      params.sortBy.GetOr(DefaultSortBy),
      params.sortDirection.GetOr(Desc),
      params.pageNumber.GetOr(DefaultPageNumber),
      params.pageSize.GetOr(DefaultPageSize))
  }

  /** The sort order value: 1 exactly for "asc", -1 for anything else. */
  function Direction(sortDirection: string): (r: int)
    ensures r == 1 <==> sortDirection == Asc
    ensures r == -1 <==> sortDirection != Asc
  {
    if sortDirection == Asc then 1 else -1
  }

  /** The sort record: empty when sortBy or sortDirection is the empty (falsy) string. */
  function SortSpec(q: Query): (s: Option<SortKey>)
    ensures s.Some? <==> q.sortBy != "" && q.sortDirection != ""
    ensures s.Some? ==> s.value.field == q.sortBy && s.value.direction == Direction(q.sortDirection)
  {
    if q.sortBy != "" && q.sortDirection != "" then Some(SortKey(q.sortBy, Direction(q.sortDirection)))
    else None
  }

  /** The number of records before the requested page. */
  function Skip(q: Query): (r: nat)
    ensures r == (q.pageNumber - 1) * q.pageSize
  {
    (q.pageNumber - 1) * q.pageSize
  }

  /** Math.ceil(count / pageSize): the fewest pages that hold `count` records. */
  function PagesCount(count: nat, pageSize: Pos): (r: nat)
    ensures r * pageSize >= count
    ensures r == 0 || (r - 1) * pageSize < count
  {
    (count + pageSize - 1) / pageSize
  }

  // ---------------------------------------------------------------------
  // Sort order
  // ---------------------------------------------------------------------

  /** The field paths a stored comment document has. */
  const StoredPaths: set<string> :=
    {"id", "content", "createdAt", "sourceId", "authorInfo.userId", "authorInfo.userLogin"}

  /**
   * The value a stored comment holds at the field path `field`; None when
   * the document has no such path (the API name `commentatorInfo` among them).
   */
  function FieldValue(c: Comment, field: string): (v: Option<string>)
    ensures v.Some? <==> field in StoredPaths
    ensures field == "authorInfo.userLogin" ==> v == Some(c.authorInfo.userLogin)
    ensures field == "createdAt" ==> v == Some(c.createdAt)
  {
    if field == "id" then Some(c.id)
    else if field == "content" then Some(c.content)
    else if field == "createdAt" then Some(c.createdAt)
    else if field == "sourceId" then Some(c.sourceId)
    else if field == "authorInfo.userId" then Some(c.authorInfo.userId)
    else if field == "authorInfo.userLogin" then Some(c.authorInfo.userLogin)
    else None
  }

  /** `a` may come before `b` under `key`. */
  predicate Precedes(a: Comment, b: Comment, key: SortKey) {
    if key.direction == 1 then KeyLe(FieldValue(a, key.field), FieldValue(b, key.field))
    else KeyLe(FieldValue(b, key.field), FieldValue(a, key.field))
  }

  lemma PrecedesTotal(a: Comment, b: Comment, key: SortKey)
    ensures Precedes(a, b, key) || Precedes(b, a, key)
  {
    KeyLeTotal(FieldValue(a, key.field), FieldValue(b, key.field));
  }

  lemma PrecedesTransitive(a: Comment, b: Comment, c: Comment, key: SortKey)
    requires Precedes(a, b, key) && Precedes(b, c, key)
    ensures Precedes(a, c, key)
  {
    var x, y, z := FieldValue(a, key.field), FieldValue(b, key.field), FieldValue(c, key.field);
    if key.direction == 1 {
      KeyLeTransitive(x, y, z);
    } else {
      KeyLeTransitive(z, y, x);
    }
  }

  ghost predicate SortedBy(s: seq<Comment>, key: SortKey) {
    forall i, j :: 0 <= i < j < |s| ==> Precedes(s[i], s[j], key)
  }

  /** `c` placed before the first element it may precede. */
  function Insert(c: Comment, s: seq<Comment>, key: SortKey): (r: seq<Comment>)
    ensures multiset(r) == multiset(s) + multiset{c}
  {
    if s == [] then [c]
    else if Precedes(c, s[0], key) then [c] + s
    else
      assert s == [s[0]] + s[1..];
      [s[0]] + Insert(c, s[1..], key)
  }

  lemma {:induction false} InsertSorted(c: Comment, s: seq<Comment>, key: SortKey)
    requires SortedBy(s, key)
    ensures SortedBy(Insert(c, s, key), key)
  {
    if s != [] && Precedes(c, s[0], key) {
      forall j | 1 <= j < |s| + 1 ensures Precedes(c, ([c] + s)[j], key) {
        if j > 1 {
          PrecedesTransitive(c, s[0], s[j - 1], key);
        }
      }
    } else if s != [] {
      var rest := Insert(c, s[1..], key);
      InsertSorted(c, s[1..], key);
      PrecedesTotal(c, s[0], key);
      forall x | x in multiset(rest) ensures Precedes(s[0], x, key) {
        assert x in multiset(s[1..]) + multiset{c};
        if x != c {
          var k :| 0 <= k < |s[1..]| && s[1..][k] == x;
          assert s[k + 1] == x;
        }
      }
      var r := [s[0]] + rest;
      forall i, j | 0 <= i < j < |r| ensures Precedes(r[i], r[j], key) {
        if i == 0 {
          assert r[j] in multiset(rest);
        } else {
          assert r[i] == rest[i - 1] && r[j] == rest[j - 1];
        }
      }
    }
  }

  /** The collection in the order of `key`; equal keys keep their storage order. */
  function SortBy(s: seq<Comment>, key: SortKey): (r: seq<Comment>)
    ensures multiset(r) == multiset(s)
    ensures SortedBy(r, key)
  {
    if s == [] then []
    else
      var rest := SortBy(s[1..], key);
      InsertSorted(s[0], rest, key);
      assert s == [s[0]] + s[1..];
      Insert(s[0], rest, key)
  }

  /** A sort on a path no stored comment has leaves the collection in storage order. */
  lemma {:induction false} SortByMissingField(s: seq<Comment>, key: SortKey)
    requires key.field !in StoredPaths
    ensures SortBy(s, key) == s
  {
    if s != [] {
      SortByMissingField(s[1..], key);
      assert s == [s[0]] + s[1..];
      if s[1..] != [] {
        assert Precedes(s[0], s[1..][0], key);
      }
    }
  }

  /** Sorting by the response's `commentatorInfo.userLogin` does not order by login. */
  lemma ApiAuthorPathIsNotStored(s: seq<Comment>, direction: int)
    ensures SortBy(s, SortKey("commentatorInfo.userLogin", direction)) == s
  {
    SortByMissingField(s, SortKey("commentatorInfo.userLogin", direction));
  }

  /** The collection in the order the sort record asks for: storage order when it is empty. */
  function Arrange(all: seq<Comment>, sort: Option<SortKey>): (r: seq<Comment>)
    ensures multiset(r) == multiset(all) && |r| == |all|
    ensures sort.None? ==> r == all
    ensures sort.Some? ==> SortedBy(r, sort.value)
  {
    match sort
    case None => all
    case Some(key) =>
      var r := SortBy(all, key);
      assert |r| == |multiset(r)| == |multiset(all)| == |all|;
      r
  }

  /** skip(skip).limit(limit): the records at positions [skip, skip + limit). */
  function Window(s: seq<Comment>, skip: nat, limit: nat): (r: seq<Comment>)
    ensures |r| == if skip >= |s| then 0 else if |s| - skip < limit then |s| - skip else limit
    ensures forall k :: 0 <= k < |r| ==> r[k] == s[skip + k]
    ensures multiset(r) <= multiset(s)
  {
    if skip >= |s| then []
    else if |s| - skip < limit then MultisetSlice(s, skip, |s|); s[skip..|s|]
    else MultisetSlice(s, skip, skip + limit); s[skip..skip + limit]
  }

  // ---------------------------------------------------------------------
  // getAll
  // ---------------------------------------------------------------------

  /**
   * getAll over the stored collection `all`; `storageOk` is whether the count
   * and the fetch both completed.
   */
  function Listing(all: seq<Comment>, params: RequestParams, storageOk: bool): (r: ListResult)
    ensures r.StorageFailure? <==> !storageOk
    ensures r.Listed? ==>
      var q := Normalize(params);
      && r.body.page == q.pageNumber
      && r.body.pageSize == q.pageSize
      && r.body.totalCount == |all|
      && r.body.pagesCount == PagesCount(|all|, q.pageSize)
  {
    if !storageOk then StorageFailure
    else
      var q := Normalize(params);
      var skip := Skip(q);
      var count := |all|;
      var arranged := Arrange(all, SortSpec(q));
      var items := Window(arranged, skip, q.pageSize);
      Listed(ResponseBody(PagesCount(count, q.pageSize), q.pageNumber, q.pageSize, count, items))
  }

  lemma MultisetSlice(s: seq<Comment>, i: nat, j: nat)
    requires i <= j <= |s|
    ensures multiset(s[i..j]) <= multiset(s)
  {
    assert s == s[..i] + s[i..j] + s[j..];
  }

  function Min(a: int, b: int): (m: int) {
    if a < b then a else b
  }

  /**
   * The items are the sorted collection from position skip on: as many as
   * fit in a page, fewer on the last page, none past it.
   */
  lemma ListingWindow(all: seq<Comment>, params: RequestParams)
    ensures Listing(all, params, true).Listed?
    ensures var q := Normalize(params);
      var skip := (q.pageNumber - 1) * q.pageSize;
      var arranged := Arrange(all, SortSpec(q));
      var items := Listing(all, params, true).body.items;
      && |items| == (if skip >= |all| then 0 else Min(q.pageSize, |all| - skip))
      && forall k :: 0 <= k < |items| ==> items[k] == arranged[skip + k]
  {
  }

  /** Under a sort record, the items of a page are in that record's order. */
  lemma ListingItemsOrdered(all: seq<Comment>, params: RequestParams)
    requires SortSpec(Normalize(params)).Some?
    ensures SortedBy(Listing(all, params, true).body.items, SortSpec(Normalize(params)).value)
  {
    var q := Normalize(params);
    var key := SortSpec(q).value;
    var skip := Skip(q);
    var arranged := Arrange(all, SortSpec(q));
    var items := Listing(all, params, true).body.items;
    forall i, j | 0 <= i < j < |items| ensures Precedes(items[i], items[j], key) {
      assert items[i] == arranged[skip + i] && items[j] == arranged[skip + j];
    }
  }

  /**
   * Record i of `count` records falls on page i / p + 1, at offset i % p, and
   * that page is no later than PagesCount(count, p).
   */
  lemma PageOfRecord(i: nat, count: nat, p: Pos)
    requires i < count
    ensures (i / p) * p + i % p == i && i % p < p
    ensures i / p + 1 <= PagesCount(count, p)
  {
    NonEmptyPageBound(count, p, i / p + 1);
  }

  /** A page that starts inside the collection is no later than pagesCount. */
  lemma NonEmptyPageBound(count: nat, pageSize: Pos, page: Pos)
    requires (page - 1) * pageSize < count
    ensures page <= PagesCount(count, pageSize)
  {
    var n := PagesCount(count, pageSize);
    if n < page {
      MulMonotone(n, page - 1, pageSize);
    }
  }

  /**
   * Record (page - 1) * pageSize + offset of the sorted collection is item
   * `offset` of page `page`, and that page is no later than pagesCount;
   * with PageOfRecord and PositionUnique, every record is on exactly one page.
   */
  lemma RecordOnPage(all: seq<Comment>, sortBy: Option<string>, sortDirection: Option<string>,
                     pageSize: Pos, page: Pos, offset: nat)
    requires offset < pageSize && (page - 1) * pageSize + offset < |all|
    ensures var params := RequestParams(sortBy, sortDirection, Some(page), Some(pageSize));
      var r := Listing(all, params, true);
      var arranged := Arrange(all, SortSpec(Normalize(params)));
      && offset < |r.body.items|
      && r.body.items[offset] == arranged[(page - 1) * pageSize + offset]
      && page <= r.body.pagesCount
  {
    var params := RequestParams(sortBy, sortDirection, Some(page), Some(pageSize));
    ItemAtOffset(all, params, offset);
    NonEmptyPageBound(|all|, pageSize, page);
  }

  /** Offset m of a page is record skip + m of the sorted collection, when there is one. */
  lemma ItemAtOffset(all: seq<Comment>, params: RequestParams, m: nat)
    requires m < Normalize(params).pageSize
    requires Skip(Normalize(params)) + m < |all|
    ensures var items := Listing(all, params, true).body.items;
      && m < |items|
      && items[m] == Arrange(all, SortSpec(Normalize(params)))[Skip(Normalize(params)) + m]
  {
    ListingWindow(all, params);
  }

  /** Two pages never share a position: page and offset are determined by the record's index. */
  lemma PositionUnique(pageSize: Pos, page: Pos, offset: nat, page': Pos, offset': nat)
    requires offset < pageSize && offset' < pageSize
    requires (page - 1) * pageSize + offset == (page' - 1) * pageSize + offset'
    ensures page == page' && offset == offset'
  {
    if page < page' {
      MulMonotone(page, page' - 1, pageSize);
    } else if page' < page {
      MulMonotone(page', page - 1, pageSize);
    }
  }

  lemma MulMonotone(a: nat, b: nat, p: Pos)
    requires a <= b
    ensures a * p <= b * p
  {
  }

  /** A page past pagesCount is empty. */
  lemma PagePastLastEmpty(all: seq<Comment>, params: RequestParams)
    requires Normalize(params).pageNumber > PagesCount(|all|, Normalize(params).pageSize)
    ensures Listing(all, params, true).body.items == []
  {
    var q := Normalize(params);
    var pagesCount := PagesCount(|all|, q.pageSize);
    MulMonotone(pagesCount, q.pageNumber - 1, q.pageSize);
    ListingWindow(all, params);
  }

  /**
   * With no parameters: page 1 of size 10, the newest-first order by
   * createdAt, and so the first min(10, count) records in that order.
   */
  lemma DefaultListing(all: seq<Comment>)
    ensures var r := Listing(all, RequestParams(None, None, None, None), true);
      var newestFirst := Arrange(all, Some(SortKey("createdAt", -1)));
      && r.body.page == 1 && r.body.pageSize == 10 && r.body.totalCount == |all|
      && r.body.items == newestFirst[..Min(10, |all|)]
  {
    var params := RequestParams(None, None, None, None);
    ListingWindow(all, params);
  }

  /** 25 records at page size 10: three pages, and page 3 holds the last 5. */
  lemma TwentyFiveRecordsThirdPage(all: seq<Comment>)
    requires |all| == 25
    ensures var r := Listing(all, RequestParams(None, None, Some(3), Some(10)), true);
      && r.body.pagesCount == 3
      && r.body.totalCount == 25
      && |r.body.items| == 5
      && r.body.items == Arrange(all, Some(SortKey("createdAt", -1)))[20..]
  {
    var params := RequestParams(None, None, Some(3), Some(10));
    var q := Normalize(params);
    assert q == Query("createdAt", "desc", 3, 10);
    assert Skip(q) == 20;
    assert PagesCount(25, 10) == 3;
    ListingWindow(all, params);
    var items := Listing(all, params, true).body.items;
    var arranged := Arrange(all, Some(SortKey("createdAt", -1)));
    assert |items| == 5;
    assert forall k :: 0 <= k < 5 ==> items[k] == arranged[20..][k];
  }

  /** Every listed item is a stored record. */
  lemma ListingItemsAreStored(all: seq<Comment>, params: RequestParams)
    ensures multiset(Listing(all, params, true).body.items) <= multiset(all)
  {
    var q := Normalize(params);
    var arranged := Arrange(all, SortSpec(q));
    assert Listing(all, params, true).body.items == Window(arranged, Skip(q), q.pageSize);
  }

  /** A failed count or fetch is reported as such, never as an empty page. */
  lemma FailureIsNotAnEmptyPage(all: seq<Comment>, params: RequestParams)
    ensures Listing(all, params, false) == StorageFailure
    ensures Listing(all, params, true) != StorageFailure
  {
  }

  // ---------------------------------------------------------------------
  // The stored collection: createComment and deleteComment
  // ---------------------------------------------------------------------

  /** The first stored comment with `id`, the one deleteOne({ id }) picks. */
  function IndexOfId(s: seq<Comment>, id: string): (r: Option<nat>)
    ensures r.None? <==> forall j :: 0 <= j < |s| ==> s[j].id != id
    ensures r.Some? ==> r.value < |s| && s[r.value].id == id
    ensures r.Some? ==> forall j :: 0 <= j < r.value ==> s[j].id != id
  {
    FirstIndex(s, (c: Comment) => c.id == id)
  }

  /** deleteOne({ id }): the first comment with `id` is removed, all others stay in order. */
  function DeleteOne(s: seq<Comment>, id: string): (r: seq<Comment>)
    ensures (forall j :: 0 <= j < |s| ==> s[j].id != id) ==> r == s
    ensures (exists j :: 0 <= j < |s| && s[j].id == id) ==>
      exists k :: 0 <= k < |s| && s[k].id == id && (forall j :: 0 <= j < k ==> s[j].id != id) &&
        r == s[..k] + s[k + 1..]
  {
    match IndexOfId(s, id)
    case None => s
    case Some(k) => s[..k] + s[k + 1..]
  }

  ghost predicate UniqueIds(s: seq<Comment>) {
    forall i, j :: 0 <= i < j < |s| ==> s[i].id != s[j].id
  }

  /** createComment with an id no stored comment has keeps ids unique. */
  lemma CreateKeepsUniqueIds(s: seq<Comment>, c: Comment)
    requires UniqueIds(s) && forall j :: 0 <= j < |s| ==> s[j].id != c.id
    ensures UniqueIds(s + [c])
  {
  }

  /**
   * When ids are unique (setId draws a fresh one, and CreateKeepsUniqueIds
   * shows a fresh id keeps them unique), deleteComment leaves no
   * comment with `id` and keeps every other comment.
   */
  lemma DeleteWithUniqueIds(s: seq<Comment>, id: string)
    requires UniqueIds(s)
    ensures forall c :: c in DeleteOne(s, id) ==> c.id != id
    ensures forall c :: c in s && c.id != id ==> c in DeleteOne(s, id)
    ensures |DeleteOne(s, id)| == if IndexOfId(s, id).Some? then |s| - 1 else |s|
  {
    var r := DeleteOne(s, id);
    match IndexOfId(s, id)
    case None =>
    case Some(k) =>
      assert r == s[..k] + s[k + 1..];
      forall c | c in r ensures c.id != id {
        var j :| 0 <= j < |r| && r[j] == c;
        if j < k {
          assert c == s[j];
        } else {
          assert c == s[j + 1];
        }
      }
      forall c | c in s && c.id != id ensures c in r {
        var j :| 0 <= j < |s| && s[j] == c;
        if j < k {
          assert r[j] == c;
        } else {
          assert j > k && r[j - 1] == c;
        }
      }
  }

  /** The comments collection behind CommentsRepository, in storage order. */
  class CommentsRepository {
    var comments: seq<Comment>

    constructor (existing: seq<Comment>)
      ensures comments == existing
    {
      comments := existing;
    }

    /** `storageOk` is whether countDocuments and find both completed. */
    method GetAll(params: RequestParams, storageOk: bool) returns (r: ListResult)
      ensures r == Listing(comments, params, storageOk)
    {
      if !storageOk {
        return StorageFailure;
      }
      var q := Normalize(params);
      var sort := SortSpec(q);
      var pageSizeNumber := q.pageSize;
      var pageNumberNum := q.pageNumber;
      var skip: nat := (pageNumberNum as int - 1) * pageSizeNumber;
      var count := |comments|;
      var pagesCount := PagesCount(count, pageSizeNumber);
      var found := Window(Arrange(comments, sort), skip, pageSizeNumber);
      return Listed(ResponseBody(pagesCount, pageNumberNum, pageSizeNumber, count, found));
    }

    /** `id` and `createdAt` are what setId and setDateOfCreatedAt assign. */
    method CreateComment(data: CreateCommentType, id: string, createdAt: string) returns (c: Comment)
      modifies this
      ensures c.content == data.content && c.authorInfo == data.authorInfo && c.sourceId == data.sourceId
      ensures c.id == id && c.createdAt == createdAt
      ensures comments == old(comments) + [c]
    {
      c := Comment(id, data.authorInfo, data.content, createdAt, data.sourceId);
      comments := comments + [c];
    }

    /** Returns deleteOne's deletedCount. */
    method DeleteComment(id: string) returns (deletedCount: nat)
      modifies this
      ensures comments == DeleteOne(old(comments), id)
      ensures deletedCount == if IndexOfId(old(comments), id).Some? then 1 else 0
    {
      var found := IndexOfId(comments, id);
      if found.None? {
        return 0;
      }
      var k := found.value;
      comments := comments[..k] + comments[k + 1..];
      deletedCount := 1;
    }
  }
}
