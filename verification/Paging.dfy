/** The LIMIT/OFFSET arithmetic shared by all paged queries (manager/src/query_manager.cpp). */
module Paging {

  const INT_MAX := 0x7fff_ffff
  const DEFAULT_PAGE_SIZE := 100

  /** A product of two ints as a two's complement 32-bit machine stores it. */
  function ToInt32(n: int): int {
    var u := n % 0x1_0000_0000;
    if u <= INT_MAX then u else u - 0x1_0000_0000
  }

  function PageNumber(page: int): (p: int)
    ensures p >= 1
  {
    if page < 1 then 1 else page
  }

  function PageSize(size: int): (k: int)
    ensures k >= 1
  {
    if size < 1 then DEFAULT_PAGE_SIZE else size
  }

  /** The number of rows before a page, before it is cut to an int. */
  function Offset(page: int, size: int): (n: nat)
    ensures n == (PageNumber(page) - 1) * PageSize(size)
  {
    Nonnegative(PageNumber(page) - 1, PageSize(size));
    (PageNumber(page) - 1) * PageSize(size)
  }

  lemma Nonnegative(a: nat, b: nat)
    ensures a * b >= 0
  {
  }

  function Min(a: nat, b: nat): nat {
    if a < b then a else b
  }

  /** Rows offset .. offset + limit - 1 of a result. */
  function Slice<T>(rows: seq<T>, offset: nat, limit: nat): seq<T> {
    rows[Min(offset, |rows|)..Min(offset + limit, |rows|)]
  }

  /** What a page request returns: a negative offset is a query error, which yields no rows. */
  function Page<T>(rows: seq<T>, page: int, size: int): seq<T> {
    var offset := ToInt32(Offset(page, size));
    if offset < 0 then [] else Slice(rows, offset, PageSize(size))
  }

  lemma ToInt32Fits(n: nat)
    ensures ToInt32(n) == n <==> n <= INT_MAX
  {
  }

  lemma PageWhenFits<T>(rows: seq<T>, page: int, size: int)
    requires Offset(page, size) <= INT_MAX
    ensures Page(rows, page, size) == Slice(rows, Offset(page, size), PageSize(size))
  {
    ToInt32Fits(Offset(page, size));
  }

  /** On a table of up to 2^31 - 1 rows a page request goes wrong exactly if its offset does not fit an int and, cut
      to one, lands on a row: it then returns rows where there should be none. */
  lemma PageWrongExactlyWhen<T>(rows: seq<T>, page: int, size: int)
    requires |rows| <= INT_MAX
    ensures Page(rows, page, size) != Slice(rows, Offset(page, size), PageSize(size)) <==>
            Offset(page, size) > INT_MAX && 0 <= ToInt32(Offset(page, size)) < |rows|
  {
    var offset := Offset(page, size);
    ToInt32Fits(offset);
    if offset > INT_MAX {
      assert Slice(rows, offset, PageSize(size)) == [];
      var wrong := ToInt32(offset);
      if 0 <= wrong < |rows| {
        assert |Slice(rows, wrong, PageSize(size))| > 0;
      }
    }
  }

  /** Page 65537 of size 65536 of any short table is the table instead of nothing. */
  lemma WrongPageExample<T>(rows: seq<T>)
    requires 0 < |rows| <= 65536
    ensures Page(rows, 65537, 65536) == rows && Slice(rows, Offset(65537, 65536), 65536) == []
  {
    assert Offset(65537, 65536) == 0x1_0000_0000;
    assert ToInt32(0x1_0000_0000) == 0;
  }

  lemma PageWhenNot(page: int, size: int) returns (rows: seq<nat>)
    requires Offset(page, size) > INT_MAX
    ensures Page(rows, page, size) != Slice(rows, Offset(page, size), PageSize(size))
  {
    // a row where the cut offset lands; if it is negative, no short table tells
    var offset, wrong := Offset(page, size), ToInt32(Offset(page, size));
    rows := seq(if wrong >= 0 then wrong + 1 else offset + 1, i => i);
    if wrong >= 0 {
      assert wrong < offset;
      assert |Slice(rows, wrong, PageSize(size))| > 0;
    } else {
      assert Slice(rows, offset, PageSize(size)) == [offset];
    }
  }

  /** A page request returns its slice of every result exactly when the offset fits an int. */
  lemma PageExactlyWhen(page: int, size: int)
    ensures (forall rows: seq<nat> :: Page(rows, page, size) == Slice(rows, Offset(page, size), PageSize(size)))
            <==> Offset(page, size) <= 2_147_483_647
  {
    if Offset(page, size) > INT_MAX {
      var rows := PageWhenNot(page, size);
    } else {
      forall rows: seq<nat>
        ensures Page(rows, page, size) == Slice(rows, Offset(page, size), PageSize(size))
      {
        PageWhenFits(rows, page, size);
      }
    }
  }

  /** A request without a positive page means the first one; without a positive size, pages of 100. */
  lemma PageDefaults<T>(rows: seq<T>, page: int, size: int)
    ensures page < 1 ==> Page(rows, page, size) == Page(rows, 1, size)
    ensures size < 1 ==> Page(rows, page, size) == Page(rows, page, 100)
    ensures size >= 1 ==> Page(rows, 1, size) == rows[..if size < |rows| then size else |rows|]
  {
  }

  /** Pages 1 to n one after the other. */
  function Pages<T>(rows: seq<T>, n: nat, size: int): seq<T> {
    if n == 0 then [] else Pages(rows, n - 1, size) + Page(rows, n, size)
  }

  lemma OffsetNext(n: nat, size: int)
    requires n >= 1
    ensures Offset(n + 1, size) == Offset(n, size) + PageSize(size)
    ensures Offset(1, size) == 0
  {
  }

  lemma {:induction false} OffsetMonotone(m: nat, n: nat, size: int)
    requires 1 <= m <= n
    ensures Offset(m, size) <= Offset(n, size)
  {
  }

  lemma {:induction false} PagesArePrefix<T>(rows: seq<T>, n: nat, size: int)
    requires n >= 1 && Offset(n, size) <= INT_MAX
    ensures Pages(rows, n, size) == rows[..Min(Offset(n + 1, size), |rows|)]
  {
    var m: nat :| m + 1 == n;
    if m > 0 {
      OffsetMonotone(m, n, size);
      PagesArePrefix(rows, m, size);
    }
    OnePageMore(rows, m, n, size);
  }

  lemma OnePageMore<T>(rows: seq<T>, m: nat, n: nat, size: int)
    requires n == m + 1 && Offset(n, size) <= INT_MAX
    requires m > 0 ==> Pages(rows, m, size) == rows[..Min(Offset(n, size), |rows|)]
    ensures Pages(rows, n, size) == rows[..Min(Offset(n + 1, size), |rows|)]
  {
    OffsetNext(n, size);
    PageWhenFits(rows, n, size);
    var lo, hi := Min(Offset(n, size), |rows|), Min(Offset(n + 1, size), |rows|);
    assert Page(rows, n, size) == rows[lo..hi];
    assert Pages(rows, m, size) == rows[..lo];
    assert rows[..lo] + rows[lo..hi] == rows[..hi];
  }

  /** A page with enough rows left is full, and starts where the one before ends. */
  lemma FullPage<T>(rows: seq<T>, p: nat, size: int)
    requires p >= 1 && Offset(p, size) <= INT_MAX && Offset(p + 1, size) <= |rows|
    ensures Offset(p + 1, size) == Offset(p, size) + PageSize(size)
    ensures Page(rows, p, size) == rows[Offset(p, size)..Offset(p + 1, size)]
  {
    OffsetNext(p, size);
    PageWhenFits(rows, p, size);
  }

  /** Pages 1 to the last, whose offset must fit an int, give back the whole result: no row is missing, repeated or
      out of place; and every page that can be filled is full. */
  lemma PagesPartition<T>(rows: seq<T>, last: nat, size: int)
    requires last >= 1 && Offset(last, size) <= INT_MAX && Offset(last + 1, size) >= |rows|
    ensures Pages(rows, last, size) == rows
    ensures forall p: nat | 1 <= p <= last && Offset(p + 1, size) <= |rows| ::
              |Page(rows, p, size)| == PageSize(size)
  {
    PagesArePrefix(rows, last, size);
    assert rows[..|rows|] == rows;
    forall p: nat | 1 <= p <= last && Offset(p + 1, size) <= |rows|
      ensures |Page(rows, p, size)| == PageSize(size)
    {
      OffsetMonotone(p, last, size);
      FullPage(rows, p, size);
    }
  }
}
