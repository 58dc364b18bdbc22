/** One page of a mailbox: fifty messages, newest first, by sequence number. */
module Paging {
  import opened Basics

  const PER_PAGE := 50
  const U32 := 0x1_0000_0000

  /** Unsigned 32-bit arithmetic of a release build. */
  function Wrap(x: int): nat { x % U32 }

  function SaturatingSub(a: nat, b: nat): nat { if a >= b then a - b else 0 }

  function TotalPages(total: nat): nat { Wrap(Wrap(total + PER_PAGE) - 1) / PER_PAGE }

  /** The page a request is clamped to. */
  function ClampPage(total: nat, page: nat): (p: nat)
    ensures p >= 1
  {
    var p := if page < TotalPages(total) then page else TotalPages(total);
    if p > 1 then p else 1
  }

  /** The first and last sequence number a page asks for. */
  function Query(total: nat, page: nat): (nat, nat) {
    var end := SaturatingSub(total, Wrap((ClampPage(total, page) - 1) * PER_PAGE));
    var start := SaturatingSub(end, PER_PAGE - 1);
    (if start > 1 then start else 1, end)
  }

  function Reversed<T>(s: seq<T>): seq<T> {
    if s == [] then [] else Reversed(s[1..]) + [s[0]]
  }

  lemma {:induction false} ReversedAppend<T>(a: seq<T>, b: seq<T>)
    ensures Reversed(a + b) == Reversed(b) + Reversed(a)
  {
    if a == [] {
      assert a + b == b;
      assert Reversed(b) + [] == Reversed(b);
    } else {
      assert (a + b)[1..] == a[1..] + b;
      ReversedAppend(a[1..], b);
    }
  }

  lemma {:induction false} ReversedLength<T>(s: seq<T>)
    ensures |Reversed(s)| == |s|
  {
    if s != [] {
      ReversedLength(s[1..]);
    }
  }

  /** What `fetch_headers` answers for a mailbox holding `messages`, oldest first. */
  function Page<T>(messages: seq<T>, page: nat): (seq<T>, nat)
    requires |messages| < U32
  {
    if messages == [] then ([], 0)
    else
      QueryInRange(|messages|, page);
      var (start, end) := Query(|messages|, page);
      (Reversed(messages[start - 1..end]), TotalPages(|messages|))
  }

  /** Every query names existing messages: at least one, at most fifty. */
  lemma QueryInRange(total: nat, page: nat)
    requires 1 <= total < U32
    ensures var (start, end) := Query(total, page); 1 <= start <= end <= total && end - start < PER_PAGE
  {
    PageCount(total);
  }

  /** The page count is right exactly when `total + 49` fits in 32 bits; past
      that it wraps to none. */
  lemma PageCount(total: nat)
    requires 1 <= total < U32
    ensures total <= U32 - PER_PAGE ==> (TotalPages(total) - 1) * PER_PAGE < total <= TotalPages(total) * PER_PAGE
    ensures total > U32 - PER_PAGE ==> TotalPages(total) == 0
  {
    if total < U32 - PER_PAGE {
      assert Wrap(total + PER_PAGE) == total + PER_PAGE;
      assert Wrap(total + PER_PAGE - 1) == total + PER_PAGE - 1;
    } else if total == U32 - PER_PAGE {
      assert Wrap(total + PER_PAGE) == 0 && Wrap(-1) == U32 - 1;
    } else {
      assert Wrap(total + PER_PAGE) == total + PER_PAGE - U32;
      assert Wrap(total + PER_PAGE - U32 - 1) == total + PER_PAGE - U32 - 1;
    }
  }

  lemma QueryIs(total: nat, page: nat)
    requires 1 <= total <= U32 - PER_PAGE && 1 <= page <= TotalPages(total)
    ensures Query(total, page) == (SaturatingSub(total, page * PER_PAGE) + 1, total - (page - 1) * PER_PAGE)
  {
    PageCount(total);
    assert ClampPage(total, page) == page;
    assert Wrap((page - 1) * PER_PAGE) == (page - 1) * PER_PAGE;
  }

  method FetchHeaders<T>(messages: seq<T>, page: nat) returns (headers: seq<T>, totalPages: nat)
    requires |messages| < U32
    ensures (headers, totalPages) == Page(messages, page)
  {
    if |messages| == 0 {
      return [], 0;
    }
    totalPages := TotalPages(|messages|);
    QueryInRange(|messages|, page);
    var (start, end) := Query(|messages|, page);
    headers := [];
    for number := start to end + 1
      invariant headers == messages[start - 1..number - 1]
    {
      headers := headers + [messages[number - 1]];
    }
    headers := Reversed(headers);
  }

  /** Pages 1 to `n`, one after the other. */
  function Pages<T>(messages: seq<T>, n: nat): seq<T>
    requires |messages| < U32
  {
    if n == 0 then [] else Pages(messages, n - 1) + Page(messages, n).0
  }

  lemma {:induction false} PagesAreTheNewest<T>(messages: seq<T>, n: nat)
    requires 1 <= |messages| <= U32 - PER_PAGE && n <= TotalPages(|messages|)
    ensures Pages(messages, n) == Reversed(messages[SaturatingSub(|messages|, n * PER_PAGE)..])
  {
    PageCount(|messages|);
    if n > 0 {
      PagesAreTheNewest(messages, n - 1);
      QueryInRange(|messages|, n);
      QueryIs(|messages|, n);
      var (start, end) := Query(|messages|, n);
      ReversedAppend(messages[start - 1..end], messages[end..]);
      assert messages[start - 1..end] + messages[end..] == messages[start - 1..];
    } else {
      assert messages[|messages|..] == [];
    }
  }

  /** Pages 1 to the last, taken in order, are the whole mailbox newest first,
      with no gap and no overlap, exactly when it holds at most 2^32 - 50 messages. */
  lemma PagesTileTheMailbox<T>(messages: seq<T>)
    requires |messages| < U32
    ensures Pages(messages, Page(messages, 1).1) == Reversed(messages) <==> |messages| <= U32 - PER_PAGE
  {
    ReversedLength(messages);
    if messages != [] {
      PageCount(|messages|);
      if |messages| <= U32 - PER_PAGE {
        PagesAreTheNewest(messages, TotalPages(|messages|));
        assert messages[0..] == messages;
      }
    }
  }

  /** Every page but the last holds fifty, the last between one and fifty. */
  lemma PageSizes<T>(messages: seq<T>, page: nat)
    requires 1 <= |messages| <= U32 - PER_PAGE && 1 <= page <= TotalPages(|messages|)
    ensures var size, last := |Page(messages, page).0|, page == TotalPages(|messages|);
            if last then size == |messages| - (page - 1) * PER_PAGE && 1 <= size <= PER_PAGE else size == PER_PAGE
  {
    PageCount(|messages|);
    QueryInRange(|messages|, page);
    QueryIs(|messages|, page);
    var (start, end) := Query(|messages|, page);
    ReversedLength(messages[start - 1..end]);
  }

  lemma SamePage<T>(messages: seq<T>, p: nat, q: nat)
    requires |messages| < U32 && ClampPage(|messages|, p) == ClampPage(|messages|, q)
    ensures Page(messages, p) == Page(messages, q)
  {
    assert Query(|messages|, p) == Query(|messages|, q);
  }

  /** A request before the first page or past the last answers with that page. */
  lemma OutOfRangeClamps<T>(messages: seq<T>, page: nat)
    requires 1 <= |messages| <= U32 - PER_PAGE
    ensures page == 0 ==> Page(messages, page) == Page(messages, 1)
    ensures page > TotalPages(|messages|) ==> Page(messages, page) == Page(messages, TotalPages(|messages|))
  {
    PageCount(|messages|);
    if page == 0 {
      SamePage(messages, page, 1);
    } else if page > TotalPages(|messages|) {
      SamePage(messages, page, TotalPages(|messages|));
    }
  }
}
