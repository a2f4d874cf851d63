/** The pagination of `get_conversation_history` and of the admin panel, and
    the page-navigation control `render_pagination`. The store's query
    (`order_by(timestamp, DESCENDING).limit(size).offset(...)`) and pandas'
    `iloc` slice are both modelled as one slice of an already ordered sequence. */
module Paging {
  /** Page size of the user's chat history. */
  const HistoryPageSize: nat := 10
  /** Page size of the admin panel. */
  const AdminPageSize: nat := 20

  function Min(a: int, b: int): (m: int) {
    if a <= b then a else b
  }

  /** `(total + page_size - 1) // page_size`: the number of pages needed. */
  function TotalPages(total: nat, size: nat): (n: nat)
    requires size > 0
    ensures n * size >= total
    ensures n == 0 || (n - 1) * size < total
    ensures n == 0 <==> total == 0
  {
    var n := (total + size - 1) / size;
    assert total + size - 1 == n * size + (total + size - 1) % size;
    n
  }

  /** Index of the first item of page `page` (pages count from 1). */
  function Offset(page: nat, size: nat): (off: nat)
    requires page >= 1
  {
    (page - 1) * size
  }

  /** The items of page `page`: at most `size` of them, from the page's offset
      on; nothing once the offset is past the end. */
  function PageOf<T>(items: seq<T>, page: nat, size: nat): (r: seq<T>)
    requires page >= 1 && size > 0
    ensures |r| <= size
    ensures Offset(page, size) >= |items| ==> r == []
    ensures Offset(page, size) < |items| ==> |r| == Min(size, |items| - Offset(page, size))
    ensures Offset(page, size) + |r| <= |items| || r == []
    ensures forall k :: 0 <= k < |r| ==> r[k] == items[Offset(page, size) + k]
  {
    var off := Offset(page, size);
    if off >= |items| then [] else items[off..Min(off + size, |items|)]
  }

  // ---------------------------------------------------------------------
  // Pages against an independent definition: cutting the sequence into
  // consecutive blocks of `size`.

  /** The sequence cut into blocks of `size`, the last one possibly shorter. */
  function Blocks<T>(items: seq<T>, size: nat): (bs: seq<seq<T>>)
    requires size > 0
    decreases |items|
  {
    if items == [] then []
    else if |items| <= size then [items]
    else [items[..size]] + Blocks(items[size..], size)
  }

  function Flatten<T>(xss: seq<seq<T>>): (xs: seq<T>) {
    if xss == [] then [] else xss[0] + Flatten(xss[1..])
  }

  lemma {:induction false} FlattenBlocks<T>(items: seq<T>, size: nat)
    requires size > 0
    ensures Flatten(Blocks(items, size)) == items
    decreases |items|
  {
    if items != [] && |items| > size {
      FlattenBlocks(items[size..], size);
      assert items == items[..size] + items[size..];
    }
  }

  lemma MulMono(a: nat, b: nat, c: nat)
    requires a <= b
    ensures a * c <= b * c
  {
  }

  /** Dropping the first page moves every later page down by one. */
  lemma PageShift<T>(items: seq<T>, page: nat, size: nat)
    requires page >= 1 && size > 0 && |items| > size
    ensures PageOf(items, page + 1, size) == PageOf(items[size..], page, size)
  {
    assert Offset(page + 1, size) == Offset(page, size) + size;
  }

  /** The two bounds of `TotalPages` pin it down: it is the least page count
      whose pages hold all the items. */
  lemma PageCountUnique(total: nat, size: nat, n: nat)
    requires size > 0 && total > 0
    requires n * size >= total && (n - 1) * size < total
    ensures n == TotalPages(total, size)
  {
    var t := TotalPages(total, size);
    if n < t {
      MulMono(n, t - 1, size);
    } else if n > t {
      MulMono(t, n - 1, size);
    }
  }

  /** Removing one full page's worth of items removes one page. */
  lemma TotalPagesStep(total: nat, size: nat)
    requires size > 0 && total > size
    ensures TotalPages(total, size) == TotalPages(total - size, size) + 1
  {
    var m := TotalPages(total - size, size);
    assert (m + 1) * size == m * size + size;
    assert m * size == (m - 1) * size + size;
    PageCountUnique(total, size, m + 1);
  }

  lemma OnePage(total: nat, size: nat)
    requires 0 < total <= size
    ensures TotalPages(total, size) == 1
  {
    PageCountUnique(total, size, 1);
  }

  /** There are as many blocks as pages, and block `p - 1` is page `p`. */
  lemma {:induction false} BlocksArePages<T>(items: seq<T>, size: nat)
    requires size > 0
    ensures |Blocks(items, size)| == TotalPages(|items|, size)
    ensures forall p :: 1 <= p <= |Blocks(items, size)| ==>
              Blocks(items, size)[p - 1] == PageOf(items, p, size)
    decreases |items|
  {
    if items == [] {
    } else if |items| <= size {
      OnePage(|items|, size);
      assert PageOf(items, 1, size) == items;
    } else {
      var rest := items[size..];
      var bs := Blocks(items, size);
      BlocksArePages(rest, size);
      TotalPagesStep(|items|, size);
      assert bs == [items[..size]] + Blocks(rest, size);
      forall p | 1 <= p <= |bs|
        ensures bs[p - 1] == PageOf(items, p, size)
      {
        if p == 1 {
          assert PageOf(items, 1, size) == items[..size];
        } else {
          assert bs[p - 1] == Blocks(rest, size)[p - 2];
          PageShift(items, p - 1, size);
        }
      }
    }
  }

  /** The pages 1..total_pages, one after another, are exactly the items:
      no item is skipped or shown twice. */
  lemma PagesCoverItems<T>(items: seq<T>, size: nat)
    requires size > 0
    ensures |Blocks(items, size)| == TotalPages(|items|, size)
    ensures Flatten(Blocks(items, size)) == items
    ensures forall p :: 1 <= p <= TotalPages(|items|, size) ==>
              Blocks(items, size)[p - 1] == PageOf(items, p, size)
  {
    BlocksArePages(items, size);
    FlattenBlocks(items, size);
  }

  /** A page past the last one is empty. */
  lemma PastLastPageEmpty<T>(items: seq<T>, page: nat, size: nat)
    requires size > 0 && page > TotalPages(|items|, size)
    ensures PageOf(items, page, size) == []
  {
    MulMono(TotalPages(|items|, size), page - 1, size);
  }

  /** Every page from 1 to the last holds at least one item. */
  lemma PagesUpToLastNonEmpty<T>(items: seq<T>, page: nat, size: nat)
    requires size > 0 && 1 <= page <= TotalPages(|items|, size)
    ensures PageOf(items, page, size) != []
  {
    MulMono(page - 1, TotalPages(|items|, size) - 1, size);
  }

  // ---------------------------------------------------------------------
  // Stored messages

  /** A stored message; the timestamp is abstracted to a number that grows
      with time. */
  datatype Message = Message(id: string, input: string, response: string, timestamp: int)

  /** One row of the admin panel: a message and the key it is stored under. */
  datatype AdminRow = AdminRow(userId: string, message: Message)

  ghost predicate NewestFirst(ms: seq<Message>) {
    forall i, j :: 0 <= i < j < |ms| ==> ms[i].timestamp >= ms[j].timestamp
  }

  /** Reading the store either yields the owner's messages, newest first, or
      raises. */
  datatype StoreRead = Read(messages: seq<Message>) | Raised(error: string)

  /** The dictionary `get_conversation_history` returns. */
  datatype History =
    | HistoryPage(messages: seq<Message>, total: nat, page: nat, totalPages: nat)
    | HistoryError(error: string)

  /** `get_conversation_history`: one page of the owner's messages, the total
      count, the page asked for and the page count. */
  function GetConversationHistory(store: StoreRead, page: nat, size: nat): (h: History)
    requires page >= 1 && size > 0
    ensures store.Raised? <==> h.HistoryError?
    ensures store.Raised? ==> h.error == store.error
    ensures store.Read? ==> && h.messages == PageOf(store.messages, page, size)
                            && h.total == |store.messages| && h.page == page
                            && h.totalPages * size >= h.total
                            && (h.totalPages == 0 || (h.totalPages - 1) * size < h.total)
  {
    match store
    case Raised(e) => HistoryError(e)
    case Read(ms) => HistoryPage(PageOf(ms, page, size), |ms|, page, TotalPages(|ms|, size))
  }

  /** A page of a newest-first sequence is newest first, and every message on
      it is at least as new as every message on any later page. */
  lemma PageNewestFirst(ms: seq<Message>, page: nat, later: nat, size: nat)
    requires NewestFirst(ms) && 1 <= page < later && size > 0
    ensures NewestFirst(PageOf(ms, page, size))
    ensures forall i, j :: 0 <= i < |PageOf(ms, page, size)| && 0 <= j < |PageOf(ms, later, size)| ==>
              PageOf(ms, page, size)[i].timestamp >= PageOf(ms, later, size)[j].timestamp
  {
    var a := PageOf(ms, page, size);
    var b := PageOf(ms, later, size);
    MulMono(page, later - 1, size);
    assert Offset(page, size) + size <= Offset(later, size);
    forall i, j | 0 <= i < j < |a|
      ensures a[i].timestamp >= a[j].timestamp
    {
      assert a[i] == ms[Offset(page, size) + i] && a[j] == ms[Offset(page, size) + j];
    }
    forall i, j | 0 <= i < |a| && 0 <= j < |b|
      ensures a[i].timestamp >= b[j].timestamp
    {
      assert a[i] == ms[Offset(page, size) + i] && b[j] == ms[Offset(later, size) + j];
    }
  }

  /** A message saved strictly after all the others is the newest: however
      the store orders the history newest first, that message opens page 1. */
  lemma SavedMessageOpensPageOne(all: seq<Message>, m: Message, size: nat)
    requires NewestFirst(all) && size > 0 && m in all
    requires forall k :: 0 <= k < |all| && all[k] != m ==> all[k].timestamp < m.timestamp
    ensures PageOf(all, 1, size) != [] && PageOf(all, 1, size)[0] == m
  {
    var i :| 0 <= i < |all| && all[i] == m;
    assert all[0].timestamp >= all[i].timestamp || i == 0;
  }

  /** The admin panel's pagination over all rows, newest first: the rows of
      page `adminPage`, 20 to a page, and the page count. */
  function AdminView(rows: seq<AdminRow>, adminPage: nat): (v: (seq<AdminRow>, nat))
    requires adminPage >= 1
    ensures |v.0| <= AdminPageSize
    ensures Offset(adminPage, AdminPageSize) >= |rows| ==> v.0 == []
    ensures Offset(adminPage, AdminPageSize) < |rows| ==>
              |v.0| == Min(AdminPageSize, |rows| - Offset(adminPage, AdminPageSize))
    ensures forall k :: 0 <= k < |v.0| ==> v.0[k] == rows[Offset(adminPage, AdminPageSize) + k]
    ensures v.1 * AdminPageSize >= |rows| && (v.1 == 0 || (v.1 - 1) * AdminPageSize < |rows|)
  {
    (PageOf(rows, adminPage, AdminPageSize), TotalPages(|rows|, AdminPageSize))
  }

  /** Past the admin panel's last page there is nothing to show; up to it
      every page shows at least one row. */
  lemma AdminPagesInRange(rows: seq<AdminRow>, adminPage: nat)
    requires adminPage >= 1
    ensures adminPage > AdminView(rows, adminPage).1 <==> AdminView(rows, adminPage).0 == []
  {
    if adminPage > TotalPages(|rows|, AdminPageSize) {
      PastLastPageEmpty(rows, adminPage, AdminPageSize);
    } else {
      PagesUpToLastNonEmpty(rows, adminPage, AdminPageSize);
    }
  }

  /** 25 messages at 10 a page make 3 pages: 10, 10 and 5 messages, and a
      4th page is empty. */
  lemma TwentyFiveMessages<T>(items: seq<T>)
    requires |items| == 25
    ensures TotalPages(|items|, HistoryPageSize) == 3
    ensures |PageOf(items, 1, HistoryPageSize)| == 10
    ensures |PageOf(items, 2, HistoryPageSize)| == 10
    ensures PageOf(items, 3, HistoryPageSize) == items[20..]
    ensures PageOf(items, 4, HistoryPageSize) == []
  {
  }

  // ---------------------------------------------------------------------
  // Navigation

  /** The button clicked on a rerun, if any. */
  datatype Click = NoClick | First | Prev | Next | Last

  /** A button is clickable unless the control disables it: First and Prev
      on the first page, Next and Last on the last. */
  predicate Enabled(click: Click, current: int, total: int) {
    match click
    case NoClick => false
    case First => current > 1
    case Prev => current > 1
    case Next => current < total
    case Last => current < total
  }

  /** `render_pagination`: the page shown after the rerun. With one page or
      none no control is drawn; a disabled button does nothing. */
  function Navigate(current: int, total: int, click: Click): (p: int)
    ensures total <= 1 || !Enabled(click, current, total) ==> p == current
    ensures 1 <= current <= total ==> 1 <= p <= total
    ensures current >= 1 ==> p >= 1
    ensures click == First && p != current ==> p == 1 && current > 1
    ensures click == Last && p != current ==> p == total && current < total
    ensures click == Prev ==> p == current || p == current - 1
    ensures click == Next ==> p == current || p == current + 1
    ensures total > 1 && Enabled(click, current, total) ==>
      p == match click
           case First => 1
           case Prev => current - 1
           case Next => current + 1
           case Last => total
           case NoClick => current
  {
    if total <= 1 then current
    else
      match click
      case First => if current > 1 then 1 else current
      case Prev => if current > 1 then current - 1 else current
      case Next => if current < total then current + 1 else current
      case Last => if current < total then total else current
      case NoClick => current
  }

  /** Next then Prev comes back to the same page, and so does Prev then Next. */
  lemma NextPrevInverse(current: int, total: int)
    requires 1 <= current <= total
    ensures current < total ==> Navigate(Navigate(current, total, Next), total, Prev) == current
    ensures current > 1 ==> Navigate(Navigate(current, total, Prev), total, Next) == current
  {
  }

  /** The page shown after clicking Next `k` times from page `current`. */
  function NextTimes(current: int, total: int, k: nat): (p: int)
    decreases k
  {
    if k == 0 then current else NextTimes(Navigate(current, total, Next), total, k - 1)
  }

  /** Clicking Next `k` times from page `current` reaches page `current + k`
      while that page exists: every page is reachable from the first. */
  lemma {:induction false} NextReachesEveryPage(current: int, total: int, k: nat)
    requires 1 <= current && current + k <= total
    ensures NextTimes(current, total, k) == current + k
    decreases k
  {
    if k > 0 {
      NextReachesEveryPage(current + 1, total, k - 1);
    }
  }
}
