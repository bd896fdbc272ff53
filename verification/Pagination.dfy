/** Page slices and the links between them. */
module Pagination {
  import opened Wrappers

  datatype Config = Config(defaultSize: int, maximum: int)

  datatype Link = Link(page: int, size: int)

  datatype Page<T> = Page(results: seq<T>, count: nat, next: Option<Link>, previous: Option<Link>)

  function Resolve(size: Option<int>, default: int, maximum: int): (r: int)
    ensures r >= 1
    ensures r <= maximum || r == 1
    ensures size.Some? && 1 <= size.value <= maximum ==> r == size.value
    ensures size.Some? && size.value > maximum >= 1 ==> r == maximum
    ensures size.Some? && size.value < 1 ==> r == 1
    ensures size.None? && 1 <= default <= maximum ==> r == default
    ensures size.None? && default > maximum >= 1 ==> r == maximum
    ensures size.None? && default < 1 ==> r == 1
  {
    var asked := if size.Some? then size.value else default;
    var capped := if asked < maximum then asked else maximum;
    if capped < 1 then 1 else capped
  }

  /** `list[start:end]` for 1-based pages: what is left of the slice inside the list. */
  function Slice<T>(list: seq<T>, page: int, size: int): seq<T>
    requires page >= 1 && size >= 1
  {
    var start := (page - 1) * size;
    var end := start + size;
    if start >= |list| then [] else if end >= |list| then list[start..] else list[start..end]
  }

  function TotalPages(count: nat, size: int): (n: int)
    requires size >= 1
    ensures n >= 1
  {
    var items: int := count;
    var n := -((-items) / size);
    if n < 1 then 1 else n
  }

  /** A list endpoint: slices with `paginate`, then builds links with the size that came back. */
  function Answer<T>(conf: Config, list: seq<T>, page: int, size: Option<int>): (p: Page<T>)
    requires page >= 1
  {
    var used := Resolve(size, conf.defaultSize, conf.maximum);
    var linked := Resolve(Some(used), conf.defaultSize, conf.maximum);
    var total := TotalPages(|list|, linked);
    Page(Slice(list, page, used), |list|,
         if page < total then Some(Link(page + 1, linked)) else None,
         if page > 1 then Some(Link(page - 1, linked)) else None)
  }

  /** Without a size the configured default counts, as far as the cap admits it. */
  lemma DefaultSize<T>(conf: Config, list: seq<T>, page: int)
    requires page >= 1 && 1 <= conf.defaultSize
    ensures var size := if conf.defaultSize <= conf.maximum then conf.defaultSize
                        else if conf.maximum < 1 then 1 else conf.maximum;
            Answer(conf, list, page, None) == Answer(conf, list, page, Some(size))
  {
  }

  /** An answer counts the whole list, and a page behind the last is empty. */
  lemma AnswerCounts<T>(conf: Config, list: seq<T>, page: int, size: Option<int>)
    requires page >= 1
    ensures var answer := Answer(conf, list, page, size);
            && answer.count == |list|
            && ((page - 1) * Resolve(size, conf.defaultSize, conf.maximum) >= |list| ==> answer.results == [])
            && |answer.results| <= Resolve(size, conf.defaultSize, conf.maximum)
  {
  }

  /** The clamp applied to its own result changes nothing, so slice and links use one size. */
  lemma ResolveIdempotent(size: Option<int>, conf: Config)
    ensures var used := Resolve(size, conf.defaultSize, conf.maximum);
            Resolve(Some(used), conf.defaultSize, conf.maximum) == used
  {
  }

  /** A slice taken under overriding bounds keeps its size in the links exactly when the configured cap admits it. */
  lemma OverridesAgreeWithinCap(size: Option<int>, default: int, maximum: int, conf: Config)
    ensures var used := Resolve(size, default, maximum);
            Resolve(Some(used), conf.defaultSize, conf.maximum) == used <==> used <= conf.maximum || used == 1
  {
  }

  lemma CeilingDivision(count: nat, size: int)
    requires size >= 1
    ensures var n := TotalPages(count, size);
            count <= n * size && (count > 0 ==> (n - 1) * size < count) && (count == 0 ==> n == 1)
  {
    var items: int := count;
    var q := (-items) / size;
    assert q * size <= -items < q * size + size;
    var n := -q;
    assert n * size == -(q * size);
    assert (n - 1) * size == n * size - size;
    if n < 1 {
      MultiplyMonotone(n, 0, size);
    }
  }

  /** All pages from one on, as a client gets them that follows `next` until there is none. */
  function Crawl<T>(conf: Config, list: seq<T>, page: int, size: Option<int>): (pages: seq<Page<T>>)
    requires page >= 1
    decreases if Answer(conf, list, page, size).next.None? then 0
              else TotalPages(|list|, Answer(conf, list, page, size).next.value.size) - page
  {
    var answer := Answer(conf, list, page, size);
    match answer.next
    case None => [answer]
    case Some(link) =>
      ResolveIdempotent(size, conf);
      ResolveIdempotent(Some(link.size), conf);
      [answer] + Crawl(conf, list, link.page, Some(link.size))
  }

  function Items<T>(pages: seq<Page<T>>): seq<T> {
    if pages == [] then [] else pages[0].results + Items(pages[1..])
  }

  lemma {:induction false} CrawlFrom<T>(conf: Config, list: seq<T>, page: int, size: Option<int>)
    requires page >= 1
    requires page <= TotalPages(|list|, Resolve(size, conf.defaultSize, conf.maximum))
    ensures var used := Resolve(size, conf.defaultSize, conf.maximum);
            var start := (page - 1) * used;
            && start <= |list|
            && Items(Crawl(conf, list, page, size)) == list[start..]
            && |Crawl(conf, list, page, size)| == TotalPages(|list|, used) - page + 1
    decreases TotalPages(|list|, Resolve(size, conf.defaultSize, conf.maximum)) - page
  {
    var used := Resolve(size, conf.defaultSize, conf.maximum);
    var total := TotalPages(|list|, used);
    ResolveIdempotent(size, conf);
    PageSlice(list, page, used);
    var answer := Answer(conf, list, page, size);
    if page == total {
      assert Crawl(conf, list, page, size) == [answer];
      assert Items([answer]) == answer.results + Items([]);
    } else {
      CrawlFrom(conf, list, page + 1, Some(used));
      var rest := Crawl(conf, list, page + 1, Some(used));
      assert Crawl(conf, list, page, size) == [answer] + rest;
      assert Items([answer] + rest) == answer.results + Items(([answer] + rest)[1..]);
      assert ([answer] + rest)[1..] == rest;
    }
  }

  /** An inner page is full and the next starts where it ends; the last page runs to the end of the list. */
  lemma PageSlice<T>(list: seq<T>, page: int, size: int)
    requires size >= 1 && 1 <= page <= TotalPages(|list|, size)
    ensures var start, next := (page - 1) * size, page * size;
            && 0 <= start <= |list|
            && (page == TotalPages(|list|, size) ==> Slice(list, page, size) == list[start..])
            && (page < TotalPages(|list|, size) ==>
                  next <= |list| && Slice(list, page, size) + list[next..] == list[start..])
  {
    var total := TotalPages(|list|, size);
    CeilingDivision(|list|, size);
    MultiplyMonotone(0, page - 1, size);
    MultiplyMonotone(page - 1, total - 1, size);
    var start, next := (page - 1) * size, page * size;
    assert next == start + size;
    if page < total {
      MultiplyMonotone(page, total - 1, size);
      assert list[start..] == list[start..next] + list[next..];
    }
  }

  lemma MultiplyMonotone(a: int, b: int, size: int)
    requires a <= b && size >= 1
    ensures a * size <= b * size
  {
  }

  /**
    Following `next` from page 1 ends after as many pages as the ceiling of count over size (one when
    empty) and yields exactly the whole list, each item once and in order.
  */
  lemma CrawlIsWholeList<T>(conf: Config, list: seq<T>, size: Option<int>)
    ensures var used := Resolve(size, conf.defaultSize, conf.maximum);
            var pages := Crawl(conf, list, 1, size);
            && Items(pages) == list
            && |pages| >= 1
            && |list| <= |pages| * used
            && (list != [] ==> (|pages| - 1) * used < |list|)
            && (list == [] ==> |pages| == 1)
  {
    var used := Resolve(size, conf.defaultSize, conf.maximum);
    CrawlFrom(conf, list, 1, size);
    CeilingDivision(|list|, used);
    assert list[0 * used..] == list;
  }

  /** `previous` undoes `next`: both links carry the size of the page they came from. */
  lemma PreviousUndoesNext<T>(conf: Config, list: seq<T>, page: int, size: Option<int>)
    requires page >= 1 && Answer(conf, list, page, size).next.Some?
    ensures var here := Answer(conf, list, page, size);
            var there := Answer(conf, list, here.next.value.page, Some(here.next.value.size));
            there.previous == Some(Link(page, here.next.value.size))
            && Answer(conf, list, page, Some(here.next.value.size)) == here
  {
    ResolveIdempotent(size, conf);
  }
}
