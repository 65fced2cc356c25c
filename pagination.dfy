/** What BoltRepository.Query in system/db/repo/bolt.go returns, as pure functions of a
    bucket's entries and the query options: the clamping of bad input, the start/end
    window with its tail-page correction, and the cursor walk in either direction. */
module Pagination {
  import opened Buckets

  datatype QueryOptions = QueryOptions(count: int, offset: int, order: string)

  /** A negative count is corrected to -1, the "whole bucket" sentinel. */
  function ClampCount(count: int): int
  {
    if count < 0 then -1 else count
  }

  /** A negative offset is corrected to 0. */
  function ClampOffset(offset: int): int
  {
    if offset < 0 then 0 else offset
  }

  /** Cursor positions [start, end) of the walk that make up the page. */
  datatype Window = Window(start: int, end: int)

  /** The first position collected: positions before a negative start do not exist. */
  function Lo(w: Window): nat
  {
    if w.start < 0 then 0 else w.start
  }

  /** The window arithmetic of Query for a bucket of n keys and clamped options. */
  function QueryWindow(count: int, offset: int, n: nat): (w: Window)
    requires count >= -1 && offset >= 0
    ensures Lo(w) <= w.end <= n
    ensures count == -1 ==> w == Window(0, n)
  {
    var start := if count == -1 then 0 else count * offset;
    var end := if count == -1 then n else start + count;
    var start' := if start > n then n - count else start;
    var end' := if end > n then n else end;
    Window(start', end')
  }

  /** The cursor walk: first to last key for "asc"; last to first for "desc", for the
      empty string and for every other order. */
  function Walk(es: seq<Entry>, order: string): seq<string>
  {
    if order == "asc" then Values(es) else Reverse(Values(es))
  }

  /** The page Query returns for an existing bucket with entries es. */
  function ExpectedPage(es: seq<Entry>, opts: QueryOptions): seq<string>
  {
    var w := QueryWindow(ClampCount(opts.count), ClampOffset(opts.offset), |es|);
    Walk(es, opts.order)[Lo(w)..w.end]
  }

  /** Position i of the walk holds the value of the i-th smallest key ("asc") or of the
      i-th largest key (any other order). */
  lemma WalkAt(es: seq<Entry>, order: string, i: nat)
    requires i < |es|
    ensures |Walk(es, order)| == |es|
    ensures Walk(es, order)[i] == es[if order == "asc" then i else |es| - 1 - i].value
  {
    var vs := Values(es);
    if order != "asc" {
      assert Reverse(vs)[i] == vs[|es| - 1 - i];
    }
  }

  /** Every order other than "asc" is treated as "desc". */
  lemma QueryDefaultOrder(es: seq<Entry>, opts: QueryOptions)
    requires opts.order != "asc"
    ensures ExpectedPage(es, opts) == ExpectedPage(es, opts.(order := "desc"))
  {
  }

  /** A negative count returns the whole bucket, whatever the offset. */
  lemma QueryWholeBucket(es: seq<Entry>, opts: QueryOptions)
    requires opts.count < 0
    ensures ExpectedPage(es, opts) == Walk(es, opts.order)
  {
  }

  /** An empty bucket yields an empty page for every option. */
  lemma QueryEmptyBucket(es: seq<Entry>, opts: QueryOptions)
    requires es == []
    ensures ExpectedPage(es, opts) == []
  {
  }

  /** An in-range offset gives positions count*offset up to count*offset+count, cut at
      the end of the bucket. */
  lemma QueryInRange(es: seq<Entry>, opts: QueryOptions)
    requires opts.count >= 0
    requires opts.count * ClampOffset(opts.offset) <= |es|
    ensures var start := opts.count * ClampOffset(opts.offset);
            var end := if start + opts.count <= |es| then start + opts.count else |es|;
            ExpectedPage(es, opts) == Walk(es, opts.order)[start..end]
  {
  }

  /** An offset that runs past the bucket returns the tail page: the last count
      positions of the walk. */
  lemma QueryOvershootTail(es: seq<Entry>, opts: QueryOptions)
    requires 0 <= opts.count <= |es|
    requires opts.count * ClampOffset(opts.offset) > |es|
    ensures ExpectedPage(es, opts) == Walk(es, opts.order)[|es| - opts.count..]
    ensures |ExpectedPage(es, opts)| == opts.count
  {
  }

  /** When count exceeds the bucket, an overshooting offset makes start negative and
      the whole bucket is returned. */
  lemma QueryOvershootWhole(es: seq<Entry>, opts: QueryOptions)
    requires opts.count > |es|
    requires opts.count * ClampOffset(opts.offset) > |es|
    ensures ExpectedPage(es, opts) == Walk(es, opts.order)
  {
  }

  /** A start that lands exactly on the end of the bucket is not corrected: the page
      is empty. */
  lemma QueryStartAtEnd(es: seq<Entry>, opts: QueryOptions)
    requires opts.count >= 0
    requires opts.count * ClampOffset(opts.offset) == |es|
    ensures ExpectedPage(es, opts) == []
  {
  }

  /** A page never holds more than count values. */
  lemma QueryPageSize(es: seq<Entry>, opts: QueryOptions)
    requires opts.count >= 0
    ensures |ExpectedPage(es, opts)| <= opts.count
  {
  }

  /** The i-th value of the page is the value at cursor position Lo + i of the walk. */
  lemma {:induction false} QueryPageAt(es: seq<Entry>, opts: QueryOptions, i: nat)
    requires i < |ExpectedPage(es, opts)|
    ensures var w := QueryWindow(ClampCount(opts.count), ClampOffset(opts.offset), |es|);
            var p := Lo(w) + i;
            p < |es| &&
            ExpectedPage(es, opts)[i] == es[if opts.order == "asc" then p else |es| - 1 - p].value
  {
    var w := QueryWindow(ClampCount(opts.count), ClampOffset(opts.offset), |es|);
    WalkAt(es, opts.order, Lo(w) + i);
  }

  /** A sequence holding, at each index j, the value at cursor position Lo + j of the
      walk, for every position of the window, is the expected page. */
  lemma PageFromPositions(es: seq<Entry>, opts: QueryOptions, posts: seq<string>)
    requires var w := QueryWindow(ClampCount(opts.count), ClampOffset(opts.offset), |es|);
      && |posts| == w.end - Lo(w)
      && forall j :: 0 <= j < |posts| ==>
           posts[j] == es[if opts.order == "asc" then Lo(w) + j else |es| - 1 - (Lo(w) + j)].value
    ensures posts == ExpectedPage(es, opts)
  {
    var w := QueryWindow(ClampCount(opts.count), ClampOffset(opts.offset), |es|);
    var page := ExpectedPage(es, opts);
    forall j | 0 <= j < |posts|
      ensures posts[j] == page[j]
    {
      WalkAt(es, opts.order, Lo(w) + j);
    }
  }

  /** 25 keys, count 10, offset 3: start 30 overshoots and is reset to 15, so the page
      is positions 15 to 24. */
  lemma QueryTailExample(es: seq<Entry>, order: string)
    requires |es| == 25
    ensures ExpectedPage(es, QueryOptions(10, 3, order)) == Walk(es, order)[15..25]
  {
    QueryOvershootTail(es, QueryOptions(10, 3, order));
  }

  /** Keys "1" to "5" holding "v1" to "v5", count 2, offset 0, descending. */
  lemma QueryDescendingExample()
    ensures ExpectedPage(FivePosts(), QueryOptions(2, 0, "desc")) == ["v5", "v4"]
  {
    var vs := Values(FivePosts());
    assert vs == ["v1", "v2", "v3", "v4", "v5"];
    assert Reverse(vs)[0..2] == ["v5", "v4"];
  }

  function FivePosts(): seq<Entry>
  {
    [Entry("1", "v1"), Entry("2", "v2"), Entry("3", "v3"), Entry("4", "v4"), Entry("5", "v5")]
  }
}
