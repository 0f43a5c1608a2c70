/** `index`: the requester's appointments that are not canceled, ordered by
    date, twenty per page. */
module Listing {
  import opened Records

  /** Records per page (`limit: 20`). */
  const PageSize: nat := 20

  /** The `where` clause of the query: owned by the requester, not canceled. */
  predicate Selected(a: Appointment, requester: int) {
    a.userId == requester && Live(a)
  }

  /** The rows of the table that the `where` clause keeps, in table order;
      each kept row occurs as often as in the table. */
  function Listed(table: seq<Appointment>, requester: int): (r: seq<Appointment>)
    ensures forall a :: multiset(r)[a] == if Selected(a, requester) then multiset(table)[a] else 0
  {
    if table == [] then []
    else
      var rest := Listed(table[1..], requester);
      assert table == [table[0]] + table[1..];
      if Selected(table[0], requester) then [table[0]] + rest else rest
  }

  /** Ascending by date (`order: ['date']`). */
  predicate SortedByDate(s: seq<Appointment>) {
    forall i, j :: 0 <= i < j < |s| ==> s[i].date <= s[j].date
  }

  /** Puts `x` into a sorted sequence, before the first later-or-equal date. */
  function Insert(x: Appointment, s: seq<Appointment>): (r: seq<Appointment>)
    requires SortedByDate(s)
    ensures SortedByDate(r)
    ensures multiset(r) == multiset(s) + multiset{x}
    ensures |r| == |s| + 1
    ensures r[0] == x || (s != [] && r[0] == s[0])
  {
    if s == [] || x.date <= s[0].date then [x] + s
    else
      var rest := Insert(x, s[1..]);
      assert s == [s[0]] + s[1..];
      assert s[0].date <= rest[0].date;
      [s[0]] + rest
  }

  /** Orders a table by date. The relative order of rows with equal dates is
      left to the database by the source; here it is the table order, the
      same for every page. */
  function SortByDate(s: seq<Appointment>): (r: seq<Appointment>)
    ensures SortedByDate(r)
    ensures multiset(r) == multiset(s)
  {
    if s == [] then []
    else
      assert s == [s[0]] + s[1..];
      Insert(s[0], SortByDate(s[1..]))
  }

  /** At most `PageSize` records of `s`, starting at `offset`
      (`limit` and `offset` of the query). */
  function Page(s: seq<Appointment>, offset: nat): (r: seq<Appointment>)
    ensures |r| == if offset >= |s| then 0 else if |s| - offset < PageSize then |s| - offset else PageSize
    ensures forall i :: 0 <= i < |r| ==> r[i] == s[offset + i]
    ensures forall a :: a in r ==> a in s
    ensures SortedByDate(s) ==> SortedByDate(r)
  {
    if offset >= |s| then []
    else if |s| - offset < PageSize then s[offset..]
    else s[offset..offset + PageSize]
  }

  /** The page number from the query string; absent means the first page. */
  function PageNumber(page: Option<int>): int {
    match page
    case None => 1
    case Some(p) => p
  }

  /** `index`: page `p` of the requester's live appointments sorted by date.
      The offset `(p - 1) * 20` goes to the database unchecked, and a page below
      1 makes it negative, which the database refuses with an error that
      escapes the action. */
  function Index(table: seq<Appointment>, requester: int, page: Option<int>): (r: Response<seq<Appointment>>)
    ensures r.Ok? <==> PageNumber(page) >= 1
    ensures r.Ok? ==> |r.value| <= PageSize
    ensures r.Ok? ==> SortedByDate(r.value)
    ensures r.Ok? ==> forall a :: a in r.value ==> a in table && Selected(a, requester)
  {
    var p := PageNumber(page);
    if p < 1 then Thrown
    else
      var all := SortByDate(Listed(table, requester));
      SortedMembers(table, requester);
      Ok(Page(all, (p - 1) * PageSize))
  }

  /** The sorted list that `index` pages through holds exactly the rows the
      `where` clause keeps. */
  lemma SortedMembers(table: seq<Appointment>, requester: int)
    ensures forall a :: a in SortByDate(Listed(table, requester)) <==> a in table && Selected(a, requester)
  {
  }

  /** Page `p` is the slice `[(p - 1) * 20, (p - 1) * 20 + 20)` of the sorted
      list, cut short at its end; a page past the end is empty. */
  lemma {:induction false} PageIsSlice(table: seq<Appointment>, requester: int, p: int)
    requires p >= 1
    ensures var all := SortByDate(Listed(table, requester));
            var lo := (p - 1) * PageSize;
            var hi := lo + PageSize;
            Index(table, requester, Some(p)) ==
              Ok(if lo >= |all| then [] else if hi >= |all| then all[lo..] else all[lo..hi])
  {
    var all := SortByDate(Listed(table, requester));
    var lo := (p - 1) * PageSize;
    var page := Page(all, lo);
    assert Index(table, requester, Some(p)) == Ok(page);
    if lo >= |all| {
    } else if lo + PageSize >= |all| {
      assert page == all[lo..];
    } else {
      assert page == all[lo..lo + PageSize];
    }
  }

  /** Paging loses nothing: every non-canceled appointment of the requester
      is on some page of the sorted list, with ties in table order. */
  lemma {:induction false} EveryListedRowIsOnAPage(table: seq<Appointment>, requester: int, a: Appointment)
    requires a in table && Selected(a, requester)
    ensures exists p: int :: p >= 1 && a in Index(table, requester, Some(p)).value
  {
    var all := SortByDate(Listed(table, requester));
    SortedMembers(table, requester);
    var k :| 0 <= k < |all| && all[k] == a;
    var p := k / PageSize + 1;
    var page := Index(table, requester, Some(p)).value;
    assert page == Page(all, (p - 1) * PageSize);
    assert page[k - (p - 1) * PageSize] == a;
  }

  /** Pages follow each other in date order: nothing on a later page is
      earlier than anything on an earlier page. */
  lemma PagesInDateOrder(table: seq<Appointment>, requester: int, p: int, q: int)
    requires 1 <= p < q
    ensures forall i, j :: 0 <= i < |Index(table, requester, Some(p)).value| && 0 <= j < |Index(table, requester, Some(q)).value|
              ==> Index(table, requester, Some(p)).value[i].date <= Index(table, requester, Some(q)).value[j].date
  {
  }
}
