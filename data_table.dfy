/**
 * The generic table component: free-text search over a chosen set of keys,
 * page count, the slice shown for the current page, and the previous/next
 * buttons. Everything here is a pure function of the table's inputs and its
 * two pieces of view state (the query and the current page).
 */
module DataTable {
  import opened Rows

  /** The value an item holds under a key, as far as search can see it. */
  datatype Value = Absent | Null | Flag(b: bool) | Text(s: string)

  /** An item of the table is a record from key to value. */
  type Item = map<string, Value>

  /** The component's props that change what is shown (the defaults are `true`, `true`, 10). */
  datatype Props = Props(searchable: bool, searchKeys: Option<seq<string>>, pagination: bool, pageSize: nat)

  /** The view state: the search box contents and the current page. */
  datatype View = View(query: string, page: int)

  const DefaultPageSize: nat := 10

  /** The table's state on first render. */
  function InitialView(): (v: View)
    ensures v.query == "" && v.page == 1
  {
    View("", 1)
  }

  /** A key the item does not have reads as `undefined`. */
  function Get(item: Item, key: string): Value {
    if key in item then item[key] else Absent
  }

  /** JavaScript truthiness of the value. */
  predicate IsTruthy(v: Value) {
    match v
    case Absent => false
    case Null => false
    case Flag(b) => b
    case Text(s) => s != ""
  }

  /** `String(value)` for a truthy value. */
  function Str(v: Value): string {
    match v
    case Flag(b) => if b then "true" else "false"
    case Text(s) => s
    case Absent => "undefined"
    case Null => "null"
  }

  /** `s.includes(q)`, walking the start position along `s`. */
  predicate Contains(s: string, q: string) {
    q <= s || (s != [] && Contains(s[1..], q))
  }

  /** `q` occurs in `s` starting at position `i`. */
  predicate OccursAt(s: string, q: string, i: int) {
    0 <= i <= |s| - |q| && s[i..i + |q|] == q
  }

  /** `Contains` is "some window of `s` equals `q`". */
  lemma {:induction false} ContainsIff(s: string, q: string)
    ensures Contains(s, q) <==> exists i :: OccursAt(s, q, i)
  {
    if q <= s {
      assert OccursAt(s, q, 0);
    } else if s == [] {
      assert q != [];
    } else {
      ContainsIff(s[1..], q);
      if Contains(s[1..], q) {
        var i :| OccursAt(s[1..], q, i);
        assert s[i + 1..i + 1 + |q|] == s[1..][i..i + |q|];
        assert OccursAt(s, q, i + 1);
      }
      if exists i :: OccursAt(s, q, i) {
        var i :| OccursAt(s, q, i);
        assert i > 0;
        assert s[1..][i - 1..i - 1 + |q|] == s[i..i + |q|];
        assert OccursAt(s[1..], q, i - 1);
      }
    }
  }

  /** One search key hits: its value is truthy and its lower-cased string contains the lower-cased query. */
  predicate KeyHits(item: Item, key: string, query: string, lower: string -> string) {
    IsTruthy(Get(item, key)) && Contains(lower(Str(Get(item, key))), lower(query))
  }

  /** `searchKeys.some(...)`. */
  function AnyKeyHits(item: Item, keys: seq<string>, query: string, lower: string -> string): (r: bool)
    ensures r <==> exists k :: k in keys && KeyHits(item, k, query, lower)
  {
    if keys == [] then false
    else KeyHits(item, keys[0], query, lower) || AnyKeyHits(item, keys[1..], query, lower)
  }

  /** `data.filter(...)` with the search predicate. */
  function Search(data: seq<Item>, keys: seq<string>, query: string, lower: string -> string): (r: seq<Item>)
    ensures |r| <= |data|
    ensures forall x :: x in r <==> x in data && AnyKeyHits(x, keys, query, lower)
  {
    if data == [] then []
    else
      assert data == [data[0]] + data[1..];
      (if AnyKeyHits(data[0], keys, query, lower) then [data[0]] else []) + Search(data[1..], keys, query, lower)
  }

  /** Searching a concatenation searches the parts in order. */
  lemma {:induction false} SearchAppend(a: seq<Item>, b: seq<Item>, keys: seq<string>, query: string, lower: string -> string)
    ensures Search(a + b, keys, query, lower) == Search(a, keys, query, lower) + Search(b, keys, query, lower)
  {
    if a == [] {
      assert a + b == b;
    } else {
      assert (a + b)[1..] == a[1..] + b;
      SearchAppend(a[1..], b, keys, query, lower);
    }
  }

  /** When every item hits, in particular, search keeps the list as it is. */
  lemma {:induction false} SearchKeepsHits(data: seq<Item>, keys: seq<string>, query: string, lower: string -> string)
    requires forall j :: 0 <= j < |data| ==> AnyKeyHits(data[j], keys, query, lower)
    ensures Search(data, keys, query, lower) == data
  {
    if data != [] {
      assert forall j :: 0 <= j < |data[1..]| ==> data[1..][j] == data[j + 1];
      SearchKeepsHits(data[1..], keys, query, lower);
      assert data == [data[0]] + data[1..];
    }
  }

  /** True when the search box takes effect: searchable, a non-empty query and some `searchKeys` array. */
  predicate Searching(props: Props, query: string) {
    props.searchable && query != "" && props.searchKeys.Some?
  }

  /** `filteredData`. */
  function Filtered(data: seq<Item>, props: Props, query: string, lower: string -> string): (r: seq<Item>)
    ensures !Searching(props, query) ==> r == data
    ensures Searching(props, query) ==>
      forall x :: x in r <==> x in data && exists k :: k in props.searchKeys.value && KeyHits(x, k, query, lower)
  {
    if Searching(props, query) then Search(data, props.searchKeys.value, query, lower) else data
  }

  /** An empty `searchKeys` array is still present: a non-empty query then filters every row out. */
  lemma EmptyKeysHideEverything(data: seq<Item>, props: Props, query: string, lower: string -> string)
    requires props.searchable && query != "" && props.searchKeys == Some([])
    ensures Filtered(data, props, query, lower) == []
  {
    SearchWithoutKeys(data, query, lower);
  }

  /** With no keys to look at, search keeps nothing. */
  lemma {:induction false} SearchWithoutKeys(data: seq<Item>, query: string, lower: string -> string)
    ensures Search(data, [], query, lower) == []
  {
    if data != [] {
      SearchWithoutKeys(data[1..], query, lower);
    }
  }

  /** `Math.ceil(n / size)` for a positive size. */
  function CeilDiv(n: nat, size: nat): (r: nat)
    requires size > 0
    ensures r * size >= n
    ensures r == 0 || (r - 1) * size < n
  {
    if n == 0 then 0 else 1 + CeilDiv(if n <= size then 0 else n - size, size)
  }

  /** `totalPages`. */
  function TotalPages(n: nat, props: Props): (r: nat)
    requires props.pageSize > 0
    ensures props.pagination ==> r * props.pageSize >= n && (r == 0 || (r - 1) * props.pageSize < n)
    ensures !props.pagination ==> r == 1
  {
    if props.pagination then CeilDiv(n, props.pageSize) else 1
  }

  /** Where a `slice` bound lands in a list of length `len` (negative bounds count from the end). */
  function SliceBound(x: int, len: nat): (r: nat)
    ensures r <= len
    ensures 0 <= x <= len ==> r == x
  {
    if x < 0 then (if len + x < 0 then 0 else len + x) else if x > len then len else x
  }

  /** `Array.prototype.slice(start, end)`. */
  function Slice<T>(s: seq<T>, start: int, end: int): seq<T> {
    var a := SliceBound(start, |s|);
    var b := SliceBound(end, |s|);
    if a < b then s[a..b] else []
  }

  function Min(a: int, b: int): int { if a <= b then a else b }

  function Max(a: int, b: int): int { if a >= b then a else b }

  /** `paginatedData`: the rows shown for page `page`. */
  function PageOf<T>(filtered: seq<T>, page: int, props: Props): seq<T> {
    if props.pagination then Slice(filtered, (page - 1) * props.pageSize, page * props.pageSize) else filtered
  }

  /** A slice with bounds `0 <= lo <= hi` is the window `[lo, hi)` cut to the list. */
  lemma SliceIsWindow<T>(s: seq<T>, lo: int, hi: int)
    requires 0 <= lo <= hi
    ensures Slice(s, lo, hi) == s[Min(lo, |s|)..Min(hi, |s|)]
  {
  }

  /** With pagination, page `p >= 1` is the window `[(p-1)*size, p*size)` cut to the list, so it holds at most `size` rows. */
  lemma PageIsWindow<T>(filtered: seq<T>, page: int, props: Props)
    requires props.pagination && page >= 1
    ensures PageOf(filtered, page, props) ==
      filtered[Min((page - 1) * props.pageSize, |filtered|)..Min(page * props.pageSize, |filtered|)]
    ensures |PageOf(filtered, page, props)| <= props.pageSize
  {
    var size := props.pageSize;
    var lo := (page - 1) * size;
    var hi := page * size;
    assert hi == lo + size;
    assert lo >= 0;
    SliceIsWindow(filtered, lo, hi);
  }

  /** Pages `1..k` in order, concatenated. */
  function PagesThrough<T>(filtered: seq<T>, k: nat, props: Props): seq<T>
    requires props.pagination
  {
    if k == 0 then [] else PagesThrough(filtered, k - 1, props) + PageOf(filtered, k, props)
  }

  /** One more page is `size` more rows. */
  lemma MulStep(k: nat, size: nat)
    requires k > 0
    ensures k * size == (k - 1) * size + size
    ensures (k - 1) * size >= 0
  {
  }

  /** Pages `1..k` together are the first `k * size` rows. */
  lemma {:induction false} PagesThroughIsPrefix<T>(filtered: seq<T>, k: nat, props: Props)
    requires props.pagination
    ensures PagesThrough(filtered, k, props) == filtered[..Min(k * props.pageSize, |filtered|)]
  {
    if k > 0 {
      var size := props.pageSize;
      var lo := (k - 1) * size;
      var hi := k * size;
      MulStep(k, size);
      PagesThroughIsPrefix(filtered, k - 1, props);
      PageIsWindow(filtered, k, props);
      var a := Min(lo, |filtered|);
      var b := Min(hi, |filtered|);
      var prev := PagesThrough(filtered, k - 1, props);
      var page := PageOf(filtered, k, props);
      assert prev == filtered[..a];
      assert page == filtered[a..b];
      assert filtered[..a] + filtered[a..b] == filtered[..b];
    }
  }

  /** Pages `1..totalPages` concatenate to the whole filtered list. */
  lemma PagesCoverFiltered<T>(filtered: seq<T>, props: Props)
    requires props.pagination && props.pageSize > 0
    ensures PagesThrough(filtered, TotalPages(|filtered|, props), props) == filtered
  {
    PagesThroughIsPrefix(filtered, TotalPages(|filtered|, props), props);
  }

  /** A page past the last one shows no rows. */
  lemma PagePastEndIsEmpty<T>(filtered: seq<T>, page: int, props: Props)
    requires props.pagination && props.pageSize > 0 && page > TotalPages(|filtered|, props)
    ensures PageOf(filtered, page, props) == []
  {
    var size := props.pageSize;
    var total := TotalPages(|filtered|, props);
    MulMonotone(page - 1, total, size);
    MulMonotone(page, page - 1, size);
    SliceIsWindow(filtered, (page - 1) * size, page * size);
  }

  /** Multiplying by a size keeps the order. */
  lemma MulMonotone(a: int, b: nat, size: nat)
    requires a >= b
    ensures a * size >= b * size
  {
  }

  /** The pager appears only with pagination on and more than one page. */
  predicate ShowsPager(props: Props, totalPages: nat) {
    props.pagination && totalPages > 1
  }

  /** The pager appears exactly when pagination is on and the filtered rows do not fit on one page. */
  lemma PagerShownIff(n: nat, props: Props)
    requires props.pageSize > 0
    ensures ShowsPager(props, TotalPages(n, props)) <==> props.pagination && n > props.pageSize
  {
    if props.pagination {
      var total := TotalPages(n, props);
      if total > 1 {
        assert (total - 1) * props.pageSize >= props.pageSize;
      }
    }
  }

  /** The two pager buttons. */
  datatype Nav = Previous | Following

  /** The page after pressing a button: `Math.max(p - 1, 1)` or `Math.min(p + 1, totalPages)`. */
  function Step(page: int, totalPages: int, m: Nav): int {
    match m
    case Previous => Max(page - 1, 1)
    case Following => Min(page + 1, totalPages)
  }

  /** A button is disabled on the first page (previous) or the last page (next). */
  predicate Disabled(page: int, totalPages: int, m: Nav) {
    match m
    case Previous => page == 1
    case Following => page == totalPages
  }

  /** Within the page range, an enabled button moves exactly one page, and a disabled one would not move at all. */
  lemma StepMovesOne(page: int, totalPages: int, m: Nav)
    requires 1 <= page <= totalPages
    ensures 1 <= Step(page, totalPages, m) <= totalPages
    ensures Disabled(page, totalPages, m) ==> Step(page, totalPages, m) == page
    ensures !Disabled(page, totalPages, m) && m.Previous? ==> Step(page, totalPages, m) == page - 1
    ensures !Disabled(page, totalPages, m) && m.Following? ==> Step(page, totalPages, m) == page + 1
  {
  }

  /**
   * For any page, also one left behind when the filtered list shrank: "previous"
   * never goes below 1 and "next" never goes past the last page. From a page past
   * the end, "next" (which is then enabled) jumps back to the last page.
   */
  lemma StepBounds(page: int, totalPages: int)
    ensures Step(page, totalPages, Previous) >= 1
    ensures Step(page, totalPages, Following) <= totalPages
    ensures page > 1 ==> Step(page, totalPages, Previous) == page - 1
    ensures page <= 1 ==> Step(page, totalPages, Previous) == 1
    ensures page < totalPages ==> Step(page, totalPages, Following) == page + 1
    ensures page >= totalPages ==> Step(page, totalPages, Following) == totalPages
    ensures page > totalPages ==> !Disabled(page, totalPages, Following)
  {
  }

  /** Pressing buttons in turn. */
  function Navigate(page: int, totalPages: int, moves: seq<Nav>): int
    decreases |moves|
  {
    if moves == [] then page else Navigate(Step(page, totalPages, moves[0]), totalPages, moves[1..])
  }

  /** No sequence of button presses leaves the range `1..totalPages`. */
  lemma {:induction false} NavigateStaysInRange(page: int, totalPages: int, moves: seq<Nav>)
    requires 1 <= page <= totalPages
    ensures 1 <= Navigate(page, totalPages, moves) <= totalPages
    decreases |moves|
  {
    if moves != [] {
      StepMovesOne(page, totalPages, moves[0]);
      NavigateStaysInRange(Step(page, totalPages, moves[0]), totalPages, moves[1..]);
    }
  }

  /**
   * From any page `>= 1`, even one past the end, button presses never go below
   * page 1, and once "next" has been pressed the page is back in `1..totalPages`.
   */
  lemma {:induction false} NavigateReentersRange(page: int, totalPages: int, moves: seq<Nav>)
    requires page >= 1 && totalPages >= 1
    ensures Navigate(page, totalPages, moves) >= 1
    ensures Following in moves ==> Navigate(page, totalPages, moves) <= totalPages
    decreases |moves|
  {
    if moves != [] {
      var next := Step(page, totalPages, moves[0]);
      StepBounds(page, totalPages);
      if moves[0] == Following {
        NavigateStaysInRange(next, totalPages, moves[1..]);
      } else {
        assert moves == [moves[0]] + moves[1..];
        NavigateReentersRange(next, totalPages, moves[1..]);
      }
    }
  }

  /** Typing in the search box: the query changes and the page goes back to 1. */
  function OnSearch(v: View, query: string): (r: View)
    ensures r.query == query && r.page == 1
  {
    View(query, 1)
  }

  /** After typing, the table shows the first `pageSize` matching rows. */
  lemma SearchShowsFirstPage(data: seq<Item>, props: Props, v: View, query: string, lower: string -> string)
    requires props.pagination
    ensures PageOf(Filtered(data, props, OnSearch(v, query).query, lower), OnSearch(v, query).page, props) ==
      Filtered(data, props, query, lower)[..Min(props.pageSize, |Filtered(data, props, query, lower)|)]
  {
    PageIsWindow(Filtered(data, props, query, lower), 1, props);
  }
}
