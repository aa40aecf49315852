/** The update history of internal/api/updates.go: the in-place filter and the page window. */
module Paging {
  import opened Types

  /** Go's int on the supported platforms. Every operation below is proved not to leave it. */
  newtype int64 = x: int | -0x8000_0000_0000_0000 <= x < 0x8000_0000_0000_0000

  const MAX_PAGE_SIZE: int64 := 1000

  /** A query parameter as strconv.Atoi sees it. */
  datatype Param = Absent | Malformed | Number(value: int64)

  datatype Window = BadPage | BadPageSize | Window(start: int64, end: int64)

  // ---------------------------------------------------------------- what is meant

  function Min(a: int, b: int): int {
    if a < b then a else b
  }

  /** The items of one page, counted from 1, in unbounded arithmetic. */
  function Page<T>(items: seq<T>, page: int, size: nat): seq<T>
    requires page >= 1
  {
    items[Min(FirstOf(page, size), |items|)..Min(FirstOf(page, size) + size, |items|)]
  }

  /** How many items come before the page. */
  function FirstOf(page: int, size: nat): (n: nat)
    requires page >= 1
    ensures n + size == page * size
  {
    (page - 1) * size
  }

  /** Pages 1 to n, one after the other. */
  function Pages<T>(items: seq<T>, n: nat, size: nat): seq<T> {
    if n == 0 then [] else Pages(items, n - 1, size) + Page(items, n, size)
  }

  function Historical(updates: seq<Update>): seq<Update> {
    if updates == [] then []
    else
      var last := updates[|updates| - 1];
      Historical(updates[..|updates| - 1]) + if last.kind.Preview? then [] else [last]
  }

  function PageNumber(page: Param): (n: int64)
    ensures ValidPage(page) ==> n >= 1
  {
    if page.Number? then page.value else 1
  }

  /** The page size asked for; none, or 0, asks for everything. */
  function PageSize(size: Param, total: int64): (n: int64)
    ensures ValidSize(size) && total >= 0 ==> n >= 0
  {
    if size.Number? && size.value != 0 then size.value else total
  }

  predicate ValidPage(page: Param) {
    page.Absent? || (page.Number? && page.value >= 1)
  }

  predicate ValidSize(size: Param) {
    size.Absent? || (size.Number? && 0 <= size.value <= MAX_PAGE_SIZE)
  }

  // ---------------------------------------------------------------- what the code does

  /** pageWindow. The bound on `total` is half the range of int: the length of any slice of records is far below. */
  method PageWindow(page: Param, size: Param, total: int64) returns (w: Window)
    requires 0 <= total < 0x4000_0000_0000_0000
    ensures w.BadPage? <==> !ValidPage(page)
    ensures w.BadPageSize? <==> ValidPage(page) && !ValidSize(size)
    ensures w.Window? ==>
              var number, each := PageNumber(page) as int, PageSize(size, total) as int;
              && w.start as int == Min(FirstOf(number, each), total as int)
              && w.end as int == Min(FirstOf(number, each) + each, total as int)
  {
    var number, each := 1, total;
    if !page.Absent? {
      if page.Malformed? || page.value < 1 {
        return BadPage;
      }
      number := page.value;
    }
    if !size.Absent? {
      if size.Malformed? || size.value < 0 || size.value > MAX_PAGE_SIZE {
        return BadPageSize;
      }
      each := size.value;
      if each == 0 {
        each := total;
      }
    }
    w := Clamp(number, each, total);
  }

  /** The arithmetic half of pageWindow. */
  method Clamp(number: int64, each: int64, total: int64) returns (w: Window)
    requires number >= 1 && 0 <= each && 0 <= total < 0x4000_0000_0000_0000
    requires each <= MAX_PAGE_SIZE || each == total
    requires each == 0 ==> total == 0
    ensures w.Window?
    ensures w.start as int == Min(FirstOf(number as int, each as int), total as int)
    ensures w.end as int == Min(FirstOf(number as int, each as int) + each as int, total as int)
  {
    if total == 0 {
      return Window(0, 0);
    }
    var start := total;
    GuardIsExact(number as int, each as int, total as int);
    if number - 1 <= total / each {
      start := (number - 1) * each;
    }
    if start > total {
      start := total;
    }
    var end := start + each;
    w := Window(start, if end < total then end else total);
  }

  lemma NonNegative(a: int, b: int)
    requires a >= 0 && b >= 0
    ensures a * b >= 0
  {
  }

  /** The overflow guard admits exactly the pages that begin within the list, so the product it protects is at
      most `total`. */
  lemma GuardIsExact(number: int, each: int, total: int)
    requires number >= 1 && each >= 1 && total >= 0
    ensures number - 1 <= total / each <==> (number - 1) * each <= total
    ensures number * each == (number - 1) * each + each
  {
    var q := total / each;
    assert total == q * each + total % each;
    if number - 1 <= q {
      NonNegative(q - (number - 1), each);
    } else {
      NonNegative(number - 1 - (q + 1), each);
    }
  }

  /** historicalUpdates: the kept records move to the front of the array they came in. */
  method HistoricalUpdates(a: array<Update>) returns (n: nat)
    modifies a
    ensures n <= a.Length
    ensures a[..n] == Historical(old(a[..]))
    ensures a[n..] == old(a[n..])
  {
    n := 0;
    for i := 0 to a.Length
      invariant n <= i && a[..n] == Historical(old(a[..])[..i])
      invariant forall k | n <= k < a.Length :: a[k] == old(a[k])
    {
      assert old(a[..])[..i + 1][..i] == old(a[..])[..i];
      if !a[i].kind.Preview? {
        a[n] := a[i];
        n := n + 1;
      }
    }
    assert old(a[..])[..a.Length] == old(a[..]);
  }

  /** getStackUpdates on a listed history. */
  method GetStackUpdates(a: array<Update>, page: Param, size: Param) returns (w: Window, infos: seq<Update>)
    requires a.Length < 0x4000_0000_0000_0000
    modifies a
    ensures w.Window? <==> ValidPage(page) && ValidSize(size)
    ensures var history := Historical(old(a[..]));
            && |history| <= a.Length
            && (w.Window? ==> infos == Page(history, PageNumber(page) as int, PageSize(size, |history| as int64) as int))
  {
    var n := HistoricalUpdates(a);
    w := PageWindow(page, size, n as int64);
    infos := [];
    if w.Window? {
      infos := a[..n][w.start..w.end];
    }
  }

  // ---------------------------------------------------------------- paging is a partition

  /** The first n pages are the first n * size items, each once and in order. */
  lemma {:induction false} PagesArePrefix<T>(items: seq<T>, n: nat, size: nat)
    ensures Pages(items, n, size) == items[..Min(n * size, |items|)]
  {
    if n > 0 {
      PagesArePrefix(items, n - 1, size);
      NonNegative(n - 1, size);
      assert n * size == FirstOf(n, size) + size;
    }
  }

  /** Enough pages are the whole history, and every page after that is empty. */
  lemma PagesPartition<T>(items: seq<T>, n: nat, size: nat)
    requires |items| <= n * size
    ensures Pages(items, n, size) == items
    ensures forall page | page > n :: Page(items, page, size) == []
  {
    PagesArePrefix(items, n, size);
    assert items[..|items|] == items;
    forall page | page > n ensures Page(items, page, size) == [] {
      NonNegative(page - 1 - n, size);
      assert FirstOf(page, size) == n * size + (page - 1 - n) * size;
    }
  }

  /** Where the records of the history come from. */
  function Places(updates: seq<Update>): (places: seq<nat>)
    ensures forall i | 0 <= i < |places| :: places[i] < |updates|
    ensures forall i, j | 0 <= i < j < |places| :: places[i] < places[j]
  {
    if updates == [] then []
    else
      var n := |updates| - 1;
      Places(updates[..n]) + if updates[n].kind.Preview? then [] else [n]
  }

  /** The history is exactly the records that are not previews, in their order. */
  lemma {:induction false} HistoricalIsSelection(updates: seq<Update>, k: nat)
    requires k < |updates|
    ensures |Places(updates)| == |Historical(updates)|
    ensures forall i | 0 <= i < |Places(updates)| :: Historical(updates)[i] == updates[Places(updates)[i]]
    ensures k in Places(updates) <==> !updates[k].kind.Preview?
  {
    var n := |updates| - 1;
    if n > 0 {
      HistoricalIsSelection(updates[..n], if k < n then k else 0);
    }
    assert k < n ==> updates[k] == updates[..n][k];
    assert k == n ==> k !in Places(updates[..n]);
  }
}
