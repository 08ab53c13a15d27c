/**
 * The per-code collector: it pages through the entries of one code,
 * resolves each entry's main author, counts entries per author, keeps
 * one seeded min-hash representative per author (or every entry, in
 * bulk mode), and keeps the authors with the most entries.
 *
 * The pages are an input: pages[i] is what the i-th page request
 * returned, a page or the error the client raised.
 */
module CollectEntries {
  import opened Wrappers
  import opened Json
  import opened Text
  import opened Selection
  import NomadApi

  /** The two values of --query-by. */
  datatype QueryBy = ProgramName | ParserName

  /** The exceptions collect_code lets through. */
  datatype CollectError =
    | Api(error: NomadApi.ApiError)      // raised while fetching a page
    | NotAnObject(what: string)          // .get on a record or its metadata that is not a dictionary
    | Unhashable(id: Value)              // TypeError from `entry_id in seen` on a list or dictionary id

  // ---------------------------------------------------------------------
  // normalize_author

  /** An author value becomes a name: a stripped string, a dictionary's name or email, or its serialisation. */
  function NormalizeAuthor(raw: Value, dumps: Value -> string): (r: Option<string>)
    ensures !raw.Str? && !raw.Obj? ==> r.None?
    ensures raw.Str? ==> r == if Strip(raw.s) == [] then None else Some(Strip(raw.s))
    ensures raw.Obj? ==> r.Some?
    ensures raw.Obj? && UsableName(Get(raw.fields, "name")) ==> r == Some(Strip(Get(raw.fields, "name").s))
    ensures raw.Obj? && !UsableName(Get(raw.fields, "name")) && UsableName(Get(raw.fields, "email")) ==>
      r == Some(Strip(Get(raw.fields, "email").s))
    ensures raw.Obj? && !UsableName(Get(raw.fields, "name")) && !UsableName(Get(raw.fields, "email")) ==>
      r == Some(dumps(raw))
  {
    match raw
    case Str(s) => if Strip(s) == "" then None else Some(Strip(s))
    case Obj(fields) =>
      if UsableName(Get(fields, "name")) then Some(Strip(Get(fields, "name").s))
      else if UsableName(Get(fields, "email")) then Some(Strip(Get(fields, "email").s))
      else Some(dumps(raw))
    case _ => None
  }

  /** A string that is not blank. */
  predicate UsableName(v: Value)
  {
    v.Str? && Strip(v.s) != ""
  }

  /** A name taken from a string, a name or an email normalizes to itself. */
  lemma NormalizeAuthorIdempotent(raw: Value, dumps: Value -> string)
    requires NormalizeAuthor(raw, dumps).Some?
    requires raw.Str? || UsableName(Get(raw.fields, "name")) || UsableName(Get(raw.fields, "email"))
    ensures NormalizeAuthor(Str(NormalizeAuthor(raw, dumps).value), dumps) == NormalizeAuthor(raw, dumps)
  {
    var src := if raw.Str? then raw.s
      else if UsableName(Get(raw.fields, "name")) then Get(raw.fields, "name").s
      else Get(raw.fields, "email").s;
    assert NormalizeAuthor(raw, dumps) == Some(Strip(src));
    NormalizeStripped(src, dumps);
  }

  lemma NormalizeStripped(v: string, dumps: Value -> string)
    requires Strip(v) != []
    ensures NormalizeAuthor(Str(Strip(v)), dumps) == Some(Strip(v))
  {
    NormalizeString(Strip(v), Strip(Strip(v)), dumps);
    StripIdempotent(v);
  }

  lemma NormalizeString(w: string, stripped: string, dumps: Value -> string)
    requires Strip(w) == stripped
    ensures NormalizeAuthor(Str(w), dumps) == if stripped == [] then None else Some(stripped)
  {
  }

  // ---------------------------------------------------------------------
  // Classifying the records of the stream

  /** An accepted record: its entry id and its resolved author. */
  datatype Accepted = Accepted(id: Value, author: string)

  /** entry.get(author_quantity) or entry.get("metadata", {}).get("main_author"). */
  function RawAuthor(fields: map<string, Value>, authorQuantity: string): (r: Result<Value, CollectError>)
    ensures Truthy(Get(fields, authorQuantity)) ==> r == Success(Get(fields, authorQuantity))
    ensures !Truthy(Get(fields, authorQuantity)) && "metadata" !in fields ==> r == Success(Null)
    ensures !Truthy(Get(fields, authorQuantity)) && "metadata" in fields ==>
      (r.Failure? <==> !fields["metadata"].Obj?) &&
      (r.Success? ==> r.value == Get(fields["metadata"].fields, "main_author"))
  {
    var direct := Get(fields, authorQuantity);
    if Truthy(direct) then Success(direct)
    else if "metadata" !in fields then Success(Null)
    else if fields["metadata"].Obj? then Success(Get(fields["metadata"].fields, "main_author"))
    else Failure(NotAnObject("metadata"))
  }

  /** What the scan does with one record: raise, skip it, or accept it with its id and author. */
  function Classify(record: Value, authorQuantity: string, dumps: Value -> string): (r: Result<Option<Accepted>, CollectError>)
    ensures !record.Obj? ==> r == Failure(NotAnObject("entry"))
    ensures record.Obj? && !Truthy(Get(record.fields, "entry_id")) ==> r == Success(None)
    ensures r.Success? && r.value.Some? ==>
      record.Obj? && r.value.value.id == Get(record.fields, "entry_id") && Truthy(r.value.value.id) &&
      r.value.value.author != "" &&
      RawAuthor(record.fields, authorQuantity).Success? &&
      NormalizeAuthor(RawAuthor(record.fields, authorQuantity).value, dumps) == Some(r.value.value.author)
    ensures record.Obj? && Truthy(Get(record.fields, "entry_id")) && RawAuthor(record.fields, authorQuantity).Success? ==>
      var author := NormalizeAuthor(RawAuthor(record.fields, authorQuantity).value, dumps);
      (r.Success? && r.value.None?) <==> (author.None? || author.value == "")
  {
    if !record.Obj? then Failure(NotAnObject("entry"))
    else
      var entryId := Get(record.fields, "entry_id");
      if !Truthy(entryId) then Success(None)
      else match RawAuthor(record.fields, authorQuantity)
        case Failure(e) => Failure(e)
        case Success(raw) =>
          var author := NormalizeAuthor(raw, dumps);
          if author.None? || author.value == "" then Success(None)
          else Success(Some(Accepted(entryId, author.value)))
  }

  /** The records the scan accepts, in stream order, or the first error among them. */
  function AcceptAll(records: seq<Value>, authorQuantity: string, dumps: Value -> string): Result<seq<Accepted>, CollectError>
  {
    if records == [] then Success([])
    else match AcceptAll(records[..|records| - 1], authorQuantity, dumps)
      case Failure(e) => Failure(e)
      case Success(acc) =>
        match Classify(records[|records| - 1], authorQuantity, dumps)
        case Failure(e) => Failure(e)
        case Success(None) => Success(acc)
        case Success(Some(a)) => Success(acc + [a])
  }

  /** Accepted records come from the stream in order, each with a non-empty id and author. */
  lemma {:induction false} AcceptAllSound(records: seq<Value>, authorQuantity: string, dumps: Value -> string)
    requires AcceptAll(records, authorQuantity, dumps).Success?
    ensures var acc := AcceptAll(records, authorQuantity, dumps).value;
      |acc| <= |records| && forall k :: 0 <= k < |acc| ==> Truthy(acc[k].id) && acc[k].author != ""
  {
    if records != [] {
      var p := records[..|records| - 1];
      AcceptAllSound(p, authorQuantity, dumps);
      var acc := AcceptAll(p, authorQuantity, dumps).value;
      var c := Classify(records[|records| - 1], authorQuantity, dumps);
      assert c.Success?;
      if c.value.Some? {
        assert AcceptAll(records, authorQuantity, dumps).value == acc + [c.value.value];
      } else {
        assert AcceptAll(records, authorQuantity, dumps).value == acc;
      }
    }
  }

  // ---------------------------------------------------------------------
  // Counting entries per author

  /** How many accepted records have author a. */
  function Count(acc: seq<Accepted>, a: string): (n: nat)
    ensures n <= |acc|
  {
    if acc == [] then 0
    else Count(acc[..|acc| - 1], a) + (if acc[|acc| - 1].author == a then 1 else 0)
  }

  /** The authors of acc in the order they are first met: the keys of author_counts. */
  function AuthorsOf(acc: seq<Accepted>): (r: seq<string>)
    ensures forall k, l :: 0 <= k < l < |r| ==> r[k] != r[l]
    ensures forall a :: a in r <==> Count(acc, a) > 0
  {
    if acc == [] then []
    else
      var prev := AuthorsOf(acc[..|acc| - 1]);
      var a := acc[|acc| - 1].author;
      if a in prev then prev else prev + [a]
  }

  /** author_counts.items(): each author with its count, in first-seen order. */
  function Tally(acc: seq<Accepted>): (r: seq<(string, int)>)
    ensures |r| == |AuthorsOf(acc)|
    ensures forall k :: 0 <= k < |r| ==> r[k] == (AuthorsOf(acc)[k], Count(acc, AuthorsOf(acc)[k]))
  {
    var authors := AuthorsOf(acc);
    seq(|authors|, k requires 0 <= k < |authors| => (authors[k], Count(acc, authors[k]) as int))
  }

  /** The sum of the counts of the given authors. */
  function SumCounts(authors: seq<string>, acc: seq<Accepted>): nat
  {
    if authors == [] then 0 else SumCounts(authors[..|authors| - 1], acc) + Count(acc, authors[|authors| - 1])
  }

  /** Every accepted record is counted once: the counts of all authors add up to total_entries. */
  lemma {:induction false} TallySum(acc: seq<Accepted>)
    ensures SumCounts(AuthorsOf(acc), acc) == |acc|
  {
    if acc != [] {
      var p, x := acc[..|acc| - 1], acc[|acc| - 1];
      assert acc == p + [x];
      TallySum(p);
      var prev := AuthorsOf(p);
      SumCountsStep(prev, p, x);
      if x.author !in prev {
        var now := prev + [x.author];
        assert AuthorsOf(acc) == now;
        assert now[..|now| - 1] == prev;
        assert Count(p, x.author) == 0;
        assert SumCounts(now, acc) == SumCounts(prev, acc) + Count(acc, x.author);
      }
    }
  }

  /** Appending x raises the sum by one when x's author is listed, and leaves it otherwise. */
  lemma {:induction false} SumCountsStep(authors: seq<string>, p: seq<Accepted>, x: Accepted)
    requires forall k, l :: 0 <= k < l < |authors| ==> authors[k] != authors[l]
    ensures SumCounts(authors, p + [x]) == SumCounts(authors, p) + (if x.author in authors then 1 else 0)
  {
    var acc := p + [x];
    assert acc[..|acc| - 1] == p;
    if authors != [] {
      var q := authors[..|authors| - 1];
      SumCountsStep(q, p, x);
      assert x.author in authors <==> x.author in q || x.author == authors[|authors| - 1];
      if x.author == authors[|authors| - 1] {
        assert x.author !in q;
      }
    }
  }

  // ---------------------------------------------------------------------
  // Ranking the authors: sorted(author_counts.items(), key=lambda x: -x[1])[:max_authors]

  /** Places x after every element of a count at least x's. */
  function InsertByCount(x: (string, int), s: seq<(string, int)>): (r: seq<(string, int)>)
    ensures |r| == |s| + 1
  {
    if s == [] then [x]
    else if s[0].1 >= x.1 then [s[0]] + InsertByCount(x, s[1..])
    else [x] + s
  }

  /** A stable sort by non-increasing count. */
  function SortByCountDesc(s: seq<(string, int)>): (r: seq<(string, int)>)
    ensures |r| == |s|
  {
    if s == [] then [] else InsertByCount(s[|s| - 1], SortByCountDesc(s[..|s| - 1]))
  }

  predicate NonIncreasing(s: seq<(string, int)>)
  {
    forall k, l :: 0 <= k < l < |s| ==> s[k].1 >= s[l].1
  }

  /** The elements of s with count c, in their order. */
  function WithCount(s: seq<(string, int)>, c: int): (r: seq<(string, int)>)
    ensures |r| <= |s|
  {
    if s == [] then []
    else WithCount(s[..|s| - 1], c) + (if s[|s| - 1].1 == c then [s[|s| - 1]] else [])
  }

  lemma {:induction false} WithCountAppend(a: seq<(string, int)>, b: seq<(string, int)>, c: int)
    ensures WithCount(a + b, c) == WithCount(a, c) + WithCount(b, c)
    decreases |b|
  {
    if b == [] {
      assert a + b == a;
    } else {
      var b' := b[..|b| - 1];
      assert (a + b)[..|a + b| - 1] == a + b';
      WithCountAppend(a, b', c);
    }
  }

  lemma {:induction false} WithCountCons(x: (string, int), s: seq<(string, int)>, c: int)
    ensures WithCount([x] + s, c) == (if x.1 == c then [x] else []) + WithCount(s, c)
  {
    WithCountAppend([x], s, c);
    assert [x][..0] == [];
  }

  /** Inserting keeps every element of the list and adds x. */
  lemma {:induction false} InsertByCountPerm(x: (string, int), s: seq<(string, int)>)
    ensures multiset(InsertByCount(x, s)) == multiset(s) + multiset{x}
    decreases |s|
  {
    if s != [] && s[0].1 >= x.1 {
      InsertByCountPerm(x, s[1..]);
      assert s == [s[0]] + s[1..];
    }
  }

  /** Inserting x under a bound m that x and every element meet keeps the bound. */
  lemma {:induction false} InsertByCountBounded(x: (string, int), s: seq<(string, int)>, m: int)
    requires x.1 <= m && forall k :: 0 <= k < |s| ==> s[k].1 <= m
    ensures forall k :: 0 <= k < |InsertByCount(x, s)| ==> InsertByCount(x, s)[k].1 <= m
    decreases |s|
  {
    if s != [] && s[0].1 >= x.1 {
      InsertByCountBounded(x, s[1..], m);
    }
  }

  lemma {:induction false} InsertByCountSorted(x: (string, int), s: seq<(string, int)>)
    requires NonIncreasing(s)
    ensures NonIncreasing(InsertByCount(x, s))
    decreases |s|
  {
    if s != [] && s[0].1 >= x.1 {
      var t := s[1..];
      InsertByCountSorted(x, t);
      InsertByCountBounded(x, t, s[0].1);
    }
  }

  lemma {:induction false} InsertByCountStable(x: (string, int), s: seq<(string, int)>, c: int)
    requires NonIncreasing(s)
    ensures WithCount(InsertByCount(x, s), c) == WithCount(s + [x], c)
    decreases |s|
  {
    if s == [] {
      assert s + [x] == [x];
    } else if s[0].1 >= x.1 {
      var t := s[1..];
      InsertByCountStable(x, t, c);
      assert s + [x] == [s[0]] + (t + [x]);
      WithCountCons(s[0], InsertByCount(x, t), c);
      WithCountCons(s[0], t + [x], c);
    } else {
      WithCountCons(x, s, c);
      WithCountAppend(s, [x], c);
      assert [x][..0] == [];
      if x.1 == c {
        NoneWithCount(s, c);
      }
    }
  }

  /** In a non-increasing list that starts above c, nothing has count c. */
  lemma {:induction false} NoneWithCount(s: seq<(string, int)>, c: int)
    requires NonIncreasing(s) && s != [] && s[0].1 < c
    ensures WithCount(s, c) == []
  {
    if |s| > 1 {
      var p := s[..|s| - 1];
      NoneWithCount(p, c);
    } else {
      assert s[..0] == [];
    }
  }

  /** The sort is a permutation, orders by non-increasing count, and keeps the input order among equal counts. */
  lemma {:induction false} SortByCountDescCorrect(s: seq<(string, int)>)
    ensures NonIncreasing(SortByCountDesc(s))
    ensures multiset(SortByCountDesc(s)) == multiset(s)
    ensures forall c :: WithCount(SortByCountDesc(s), c) == WithCount(s, c)
  {
    if s != [] {
      var p, x := s[..|s| - 1], s[|s| - 1];
      SortByCountDescCorrect(p);
      InsertByCountSorted(x, SortByCountDesc(p));
      InsertByCountPerm(x, SortByCountDesc(p));
      assert s == p + [x];
      forall c
        ensures WithCount(SortByCountDesc(s), c) == WithCount(s, c)
      {
        InsertByCountStable(x, SortByCountDesc(p), c);
        WithCountAppend(SortByCountDesc(p), [x], c);
        WithCountAppend(p, [x], c);
      }
    }
  }

  /** Python's s[:n], where a negative n drops that many elements from the end. */
  function PyPrefix<T>(s: seq<T>, n: int): (r: seq<T>)
    ensures |r| <= |s| && r == s[..|r|]
    ensures n >= 0 ==> |r| == if n <= |s| then n else |s|
    ensures n < 0 ==> |r| == if -n <= |s| then |s| + n else 0
  {
    if n >= 0 then (if n <= |s| then s[..n] else s)
    else if -n <= |s| then s[..|s| + n] else []
  }

  /** A failure among the first n records is the failure of the whole stream. */
  lemma {:induction false} AcceptAllPrefixFailure(records: seq<Value>, n: nat, authorQuantity: string, dumps: Value -> string)
    requires n <= |records| && AcceptAll(records[..n], authorQuantity, dumps).Failure?
    ensures AcceptAll(records, authorQuantity, dumps) == AcceptAll(records[..n], authorQuantity, dumps)
    decreases |records|
  {
    if n == |records| {
      assert records[..n] == records;
    } else {
      var p := records[..|records| - 1];
      assert p[..n] == records[..n];
      AcceptAllPrefixFailure(p, n, authorQuantity, dumps);
    }
  }

  // ---------------------------------------------------------------------
  // iter_code_entries

  /** The page results a page source hands out: a page, or the error fetch_entries_page raised. */
  type PageResult = Result<NomadApi.Page, NomadApi.ApiError>

  /** The iteration ends after this page: the fetch raised, or the cursor is falsy. */
  predicate Stops(p: PageResult)
  {
    p.Failure? || !Truthy(p.value.next)
  }

  /** The index of the first page after which the iteration ends, or |pages| when none does. */
  function FirstStop(pages: seq<PageResult>): (n: nat)
    ensures n <= |pages|
    ensures forall j :: 0 <= j < n ==> !Stops(pages[j])
    ensures n < |pages| ==> Stops(pages[n])
  {
    if pages == [] then 0
    else if Stops(pages[0]) then 0
    else 1 + FirstStop(pages[1..])
  }

  /** The records of the successful pages among the first n, in order. */
  function Gathered(pages: seq<PageResult>, n: nat): seq<Value>
    requires n <= |pages|
  {
    if n == 0 then []
    else Gathered(pages, n - 1) + (if pages[n - 1].Success? then pages[n - 1].value.records else [])
  }

  /** What the iteration yields: the records of every page up to and including the one it stops at. */
  function Yielded(pages: seq<PageResult>): seq<Value>
    requires FirstStop(pages) < |pages|
  {
    Gathered(pages, FirstStop(pages) + 1)
  }

  /** The error the iteration raises after its last record, if the page it stops at is a failure. */
  function StreamError(pages: seq<PageResult>): (r: Option<NomadApi.ApiError>)
    requires FirstStop(pages) < |pages|
    ensures r.Some? <==> pages[FirstStop(pages)].Failure?
    ensures r.Some? ==> r.value == pages[FirstStop(pages)].error
  {
    var p := pages[FirstStop(pages)];
    if p.Failure? then Some(p.error) else None
  }

  /** page_after for the j-th request: none for the first, the previous page's cursor afterwards. */
  function Cursor(pages: seq<PageResult>, j: nat): (r: Value)
    requires j <= FirstStop(pages)
    ensures j == 0 ==> r == Null
    ensures j > 0 ==> pages[j - 1].Success? && r == pages[j - 1].value.next && Truthy(r)
  {
    if j == 0 then Null else pages[j - 1].value.next
  }

  /** The query of iter_code_entries: {"parser_name": code}, or {code_quantity: code} by program name. */
  function QueryFor(code: string, queryBy: QueryBy, codeQuantity: string): (r: Value)
    ensures r.Obj? && |r.fields| == 1
    ensures queryBy == ParserName ==> r.fields == map["parser_name" := Str(code)]
    ensures queryBy == ProgramName ==> r.fields == map[codeQuantity := Str(code)]
  {
    var key := if queryBy == ParserName then "parser_name" else codeQuantity;
    Obj(map[key := Str(code)])
  }

  /**
   * iter_code_entries over a page source: the query it builds, the
   * records it yields, the page_after_value of every fetch_entries_page
   * call it makes, and the error it raises.
   */
  method IterCodeEntries(code: string, queryBy: QueryBy, codeQuantity: string, pages: seq<PageResult>)
    returns (query: Value, records: seq<Value>, cursors: seq<Value>, err: Option<NomadApi.ApiError>)
    requires FirstStop(pages) < |pages|
    ensures query == QueryFor(code, queryBy, codeQuantity)
    ensures records == Yielded(pages) && err == StreamError(pages)
    ensures |cursors| == FirstStop(pages) + 1
    ensures forall j :: 0 <= j < |cursors| ==> cursors[j] == Cursor(pages, j)
  {
    var pageAfter := Null;
    query := QueryFor(code, queryBy, codeQuantity);
    records, cursors := [], [];
    ghost var n := FirstStop(pages);
    var i := 0;
    while true
      invariant i <= n
      invariant records == Gathered(pages, i)
      invariant pageAfter == Cursor(pages, i)
      invariant |cursors| == i
      invariant forall j :: 0 <= j < i ==> cursors[j] == Cursor(pages, j)
      decreases n - i
    {
      cursors := cursors + [pageAfter];
      var page := pages[i];
      if page.Success? {
        records := records + page.value.records;
      }
      if Stops(page) {
        IterLast(pages, i);
        break;
      }
      IterStep(pages, i);
      pageAfter := page.value.next;
      i := i + 1;
    }
    err := if pages[i].Failure? then Some(pages[i].error) else None;
  }

  /** The page that stops the iteration: its records are the last ones yielded. */
  lemma IterLast(pages: seq<PageResult>, i: nat)
    requires i <= FirstStop(pages) && i < |pages| && Stops(pages[i])
    ensures i == FirstStop(pages)
    ensures Yielded(pages) == Gathered(pages, i) + (if pages[i].Success? then pages[i].value.records else [])
  {
  }

  /** One page that does not stop the iteration: its records are gathered and its cursor is the next one. */
  lemma IterStep(pages: seq<PageResult>, i: nat)
    requires i <= FirstStop(pages) && i < |pages| && !Stops(pages[i])
    ensures i < FirstStop(pages)
    ensures Gathered(pages, i + 1) == Gathered(pages, i) + pages[i].value.records
    ensures Cursor(pages, i + 1) == pages[i].value.next
  {
  }

  /** The first request carries no cursor; every later one carries the cursor of the page before it. */
  lemma RequestCursors(query: Value, pageSize: int, includeFields: seq<string>, pages: seq<PageResult>, j: nat)
    requires j <= FirstStop(pages)
    ensures var p := NomadApi.EntriesPayload(query, pageSize, includeFields, Cursor(pages, j)).fields["pagination"].fields;
      (j == 0 ==> "page_after_value" !in p) &&
      (j > 0 ==> p["page_after_value"] == pages[j - 1].value.next)
  {
  }

  /** Gathered only reads the pages it counts. */
  lemma {:induction false} GatheredPrefix(pages: seq<PageResult>, more: seq<PageResult>, n: nat)
    requires n <= |pages|
    ensures Gathered(pages + more, n) == Gathered(pages, n)
  {
    if n > 0 {
      GatheredPrefix(pages, more, n - 1);
      assert (pages + more)[n - 1] == pages[n - 1];
    }
  }

  /** Pages after the one the iteration stops at are never requested: they change neither the records nor the error. */
  lemma {:induction false} PagesAfterStopUnread(pages: seq<PageResult>, more: seq<PageResult>)
    requires FirstStop(pages) < |pages|
    ensures FirstStop(pages + more) == FirstStop(pages)
    ensures Yielded(pages + more) == Yielded(pages)
    ensures StreamError(pages + more) == StreamError(pages)
  {
    var n := FirstStop(pages);
    var all := pages + more;
    assert forall j :: 0 <= j <= n ==> all[j] == pages[j];
    FirstStopAt(all, n);
    GatheredPrefix(pages, more, n + 1);
  }

  /** FirstStop is the index of the first stopping page. */
  lemma {:induction false} FirstStopAt(pages: seq<PageResult>, n: nat)
    requires n < |pages| && Stops(pages[n])
    requires forall j :: 0 <= j < n ==> !Stops(pages[j])
    ensures FirstStop(pages) == n
  {
    if n > 0 {
      assert !Stops(pages[0]);
      assert forall j :: 0 <= j < n - 1 ==> pages[1..][j] == pages[j + 1];
      FirstStopAt(pages[1..], n - 1);
    }
  }

  /** A single page with a falsy cursor is the whole stream. */
  lemma SinglePage(page: NomadApi.Page)
    requires !Truthy(page.next)
    ensures FirstStop([Success(page)]) == 0
    ensures Yielded([Success(page)]) == page.records && StreamError([Success(page)]) == None
  {
    assert Gathered([Success(page)], 0) == [];
  }

  // ---------------------------------------------------------------------
  // The records collect_code keeps

  /** The key the parser-mode candidate is tagged with: the source spells it "entry_pointpoint". */
  const CandidateParserKey := "entry_pointpoint"

  /** The candidate dictionary of sampling mode for an accepted record. */
  function Candidate(a: Accepted, code: string, queryBy: QueryBy): (r: Entry)
    ensures EntryId(r) == a.id && Get(r, "main_author") == Str(a.author) && Get(r, "dataset_id") == Null
    ensures queryBy == ParserName ==> Get(r, CandidateParserKey) == Str(code) && "code" !in r && "entry_point" !in r
    ensures queryBy == ProgramName ==> Get(r, "code") == Str(code) && CandidateParserKey !in r
  {
    var key := if queryBy == ParserName then CandidateParserKey else "code";
    map["entry_id" := a.id, "main_author" := Str(a.author), "dataset_id" := Null, key := Str(code)]
  }

  /** The record kept for an accepted record in bulk mode. */
  function BulkRecord(a: Accepted, code: string, queryBy: QueryBy): (r: Entry)
    ensures EntryId(r) == a.id && Get(r, "main_author") == Str(a.author) && Get(r, "dataset_id") == Null
    ensures queryBy == ParserName ==> Get(r, "entry_point") == Str(code) && "code" !in r
    ensures queryBy == ProgramName ==> Get(r, "code") == Str(code) && "entry_point" !in r
  {
    var key := if queryBy == ParserName then "entry_point" else "code";
    map["entry_id" := a.id, "main_author" := Str(a.author), "dataset_id" := Null, key := Str(code)]
  }

  /** all_entries after the scan: one bulk record per accepted record, in stream order. */
  function BulkRecords(acc: seq<Accepted>, code: string, queryBy: QueryBy): (r: seq<Entry>)
    ensures |r| == |acc|
  {
    if acc == [] then [] else BulkRecords(acc[..|acc| - 1], code, queryBy) + [BulkRecord(acc[|acc| - 1], code, queryBy)]
  }

  /** The k-th bulk record is the one for the k-th accepted record. */
  lemma {:induction false} BulkRecordsAt(acc: seq<Accepted>, code: string, queryBy: QueryBy)
    ensures forall k :: 0 <= k < |acc| ==> BulkRecords(acc, code, queryBy)[k] == BulkRecord(acc[k], code, queryBy)
  {
    if acc != [] {
      var p := acc[..|acc| - 1];
      BulkRecordsAt(p, code, queryBy);
      assert forall k :: 0 <= k < |p| ==> p[k] == acc[k];
    }
  }

  /** The candidates of one author, in stream order. */
  function Candidates(acc: seq<Accepted>, author: string, code: string, queryBy: QueryBy): (r: seq<Entry>)
    ensures |r| == Count(acc, author)
    ensures forall k :: 0 <= k < |r| ==> Get(r[k], "main_author") == Str(author)
  {
    if acc == [] then []
    else
      var last := acc[|acc| - 1];
      Candidates(acc[..|acc| - 1], author, code, queryBy) + (if last.author == author then [Candidate(last, code, queryBy)] else [])
  }

  /** Python's truthiness of representatives.get(author): a stored, non-empty dictionary. */
  predicate TruthyEntry(o: Option<Entry>)
  {
    o.Some? && o.value != map[]
  }

  /**
   * The representative after the candidates cs arrived one by one:
   * each is picked against the current one with
   * stable_pick([candidate] + ([current] if current else [])).
   */
  function FoldRep(cs: seq<Entry>, seed: int, h: Hash): Option<Entry>
  {
    if cs == [] then None
    else
      var current := FoldRep(cs[..|cs| - 1], seed, h);
      Pick([cs[|cs| - 1]] + (if TruthyEntry(current) then [current.value] else []), seed, h)
  }

  /** The running representative is a candidate of minimal digest, and exists exactly when some candidate has an id. */
  lemma {:induction false} FoldRepMinimal(cs: seq<Entry>, seed: int, h: Hash)
    ensures FoldRep(cs, seed, h).None? <==> forall i :: 0 <= i < |cs| ==> !HasId(cs[i])
    ensures FoldRep(cs, seed, h).Some? ==>
      var b := FoldRep(cs, seed, h).value;
      HasId(b) && b in cs && IsMinimal(cs, seed, h, b)
  {
    if cs != [] {
      var p, x := cs[..|cs| - 1], cs[|cs| - 1];
      assert cs == p + [x];
      FoldRepMinimal(p, seed, h);
      var current := FoldRep(p, seed, h);
      if current.Some? {
        assert "entry_id" in current.value;
      }
      var l := [x] + (if TruthyEntry(current) then [current.value] else []);
      PickIsEarliestMinimum(l, seed, h);
      assert l[0] == x;
      if current.Some? {
        assert l[1] == current.value;
        FoldRepStep(p, x, seed, h, current.value, Pick(l, seed, h).value);
      } else {
        FoldRepFirst(p, x, seed, h, Pick(l, seed, h));
      }
    }
  }

  /** When nothing before x had an id, the representative is x if it has one. */
  lemma FoldRepFirst(p: seq<Entry>, x: Entry, seed: int, h: Hash, b: Option<Entry>)
    requires forall i :: 0 <= i < |p| ==> !HasId(p[i])
    requires b.None? <==> !HasId(x)
    requires b.Some? ==> b.value == x
    ensures b.None? <==> forall i :: 0 <= i < |p + [x]| ==> !HasId((p + [x])[i])
    ensures b.Some? ==> HasId(b.value) && b.value in p + [x] && IsMinimal(p + [x], seed, h, b.value)
  {
    var cs := p + [x];
    assert cs[|cs| - 1] == x;
    if b.Some? {
      forall j | 0 <= j < |cs| && HasId(cs[j])
        ensures !Less(Digest(h, seed, cs[j]), Digest(h, seed, x))
      {
        assert j == |cs| - 1;
        LessIrreflexive(Digest(h, seed, x));
      }
    }
  }

  /** Picking between x and the current minimum c of p gives a minimum of p + [x]. */
  lemma FoldRepStep(p: seq<Entry>, x: Entry, seed: int, h: Hash, c: Entry, b: Entry)
    requires HasId(c) && c in p && IsMinimal(p, seed, h, c)
    requires b == x || b == c
    requires HasId(b) && IsMinimal([x, c], seed, h, b)
    ensures b in p + [x] && IsMinimal(p + [x], seed, h, b)
  {
    var cs := p + [x];
    var db, dc := Digest(h, seed, b), Digest(h, seed, c);
    var xc := [x, c];
    assert xc[0] == x && xc[1] == c;
    assert !Less(dc, db);
    forall j | 0 <= j < |cs| && HasId(cs[j])
      ensures !Less(Digest(h, seed, cs[j]), db)
    {
      if j == |p| {
        assert cs[j] == x;
      } else {
        assert cs[j] == p[j];
        var dj := Digest(h, seed, cs[j]);
        assert !Less(dj, dc);
        if Less(dj, db) {
          LessTotal(dj, dc);
          if dj != dc { LessTransitive(dc, dj, db); }
        }
      }
    }
  }

  /** The running representative has the digest of stable_pick over all candidates, and is that pick when digests are distinct. */
  lemma FoldRepIsPick(cs: seq<Entry>, seed: int, h: Hash)
    ensures FoldRep(cs, seed, h).None? <==> Pick(cs, seed, h).None?
    ensures FoldRep(cs, seed, h).Some? ==>
      Digest(h, seed, FoldRep(cs, seed, h).value) == Digest(h, seed, Pick(cs, seed, h).value)
    ensures DistinctDigests(cs, seed, h) ==> FoldRep(cs, seed, h) == Pick(cs, seed, h)
  {
    FoldRepMinimal(cs, seed, h);
    PickIsEarliestMinimum(cs, seed, h);
    if FoldRep(cs, seed, h).Some? {
      var f, q := FoldRep(cs, seed, h).value, Pick(cs, seed, h).value;
      var df, dq := Digest(h, seed, f), Digest(h, seed, q);
      var i :| 0 <= i < |cs| && cs[i] == f;
      var j :| 0 <= j < |cs| && cs[j] == q;
      assert !Less(df, dq) && !Less(dq, df);
      LessTotal(df, dq);
    }
  }

  /** With distinct digests, the representative does not depend on the order in which the candidates arrived. */
  lemma FoldRepOrderFree(cs: seq<Entry>, ts: seq<Entry>, seed: int, h: Hash)
    requires forall x :: x in cs <==> x in ts
    requires DistinctDigests(cs, seed, h) && DistinctDigests(ts, seed, h)
    ensures FoldRep(cs, seed, h) == FoldRep(ts, seed, h)
  {
    FoldRepIsPick(cs, seed, h);
    FoldRepIsPick(ts, seed, h);
    PickDependsOnlyOnMembers(cs, ts, seed, h);
  }

  // ---------------------------------------------------------------------
  // collect_code

  /** The arguments collect_code uses; code_quantity is the program-name quantity of the search schema. */
  datatype Settings = Settings(
    authorQuantity: string,
    seed: int,
    maxAuthors: int,
    queryBy: QueryBy,
    collectAll: bool,
    codeQuantity: string)

  /** A row of code_overview.csv. */
  datatype OverviewRow = OverviewRow(code: string, nEntries: int, nMainAuthors: int, nDatasets: int)

  /** A row of code_author_overview.csv. */
  datatype AuthorRow = AuthorRow(code: string, mainAuthor: string, nEntries: int, nDatasets: int)

  /** A row of code_author_dataset_overview.csv. */
  datatype DatasetRow = DatasetRow(code: string, mainAuthor: string, datasetId: string, nEntries: int)

  /** A row of global_author_dataset_overview.csv. */
  datatype GlobalRow = GlobalRow(mainAuthor: string, datasetId: string, nEntries: int)

  /** The six results of collect_code. */
  datatype CodeOutput = CodeOutput(
    picked: seq<Entry>,
    authorRows: seq<AuthorRow>,
    datasetRows: seq<DatasetRow>,
    globalRows: seq<GlobalRow>,
    totalEntries: int,
    overview: OverviewRow)

  /** top_authors: the tally sorted by non-increasing count, cut to max_authors. */
  function TopAuthors(acc: seq<Accepted>, maxAuthors: int): seq<(string, int)>
  {
    PyPrefix(SortByCountDesc(Tally(acc)), maxAuthors)
  }

  /** rep["picked_by"] = "scan"; rep["bucket_entry_count"] = count */
  function Tag(rep: Entry, count: int): (r: Entry)
    ensures EntryId(r) == EntryId(rep) && Get(r, "main_author") == Get(rep, "main_author")
    ensures Get(r, "picked_by") == Str("scan") && Get(r, "bucket_entry_count") == Int(count)
    ensures r.Keys == rep.Keys + {"picked_by", "bucket_entry_count"}
    ensures forall k :: k in rep && k != "picked_by" && k != "bucket_entry_count" ==> r[k] == rep[k]
  {
    rep["picked_by" := Str("scan")]["bucket_entry_count" := Int(count)]
  }

  /** representatives.get(author) */
  function GetRep(reps: map<string, Option<Entry>>, author: string): Option<Entry>
  {
    if author in reps then reps[author] else None
  }

  /**
   * The tagged representatives of the top authors, skipping an author
   * without one: rep gives representatives.get(author) and count
   * author_counts[author].
   */
  function TaggedReps(top: seq<(string, int)>, rep: string -> Option<Entry>, count: string -> int): seq<Entry>
  {
    if top == [] then []
    else
      var prev := TaggedReps(top[..|top| - 1], rep, count);
      var author := top[|top| - 1].0;
      if !TruthyEntry(rep(author)) then prev else prev + [Tag(rep(author).value, count(author))]
  }

  /** representatives.get after the scan over acc, as a function of the author. */
  function RepFn(acc: seq<Accepted>, code: string, queryBy: QueryBy, seed: int, h: Hash): string -> Option<Entry>
  {
    a => RepOf(acc, a, code, queryBy, seed, h)
  }

  /** author_counts after the scan over acc, as a function of the author. */
  function CountFn(acc: seq<Accepted>): string -> int
  {
    a => Count(acc, a)
  }

  /** The rows of code_author_overview for the top authors. */
  function AuthorRows(code: string, top: seq<(string, int)>): (r: seq<AuthorRow>)
    ensures |r| == |top|
    ensures forall k :: 0 <= k < |top| ==> r[k] == AuthorRow(code, top[k].0, top[k].1, 0)
  {
    seq(|top|, k requires 0 <= k < |top| => AuthorRow(code, top[k].0, top[k].1, 0))
  }

  /** The entries sampling mode keeps: the tagged representatives of the ranked authors, deduplicated. */
  function Sampled(acc: seq<Accepted>, code: string, s: Settings, h: Hash): seq<Entry>
  {
    DedupFrom({}, TaggedReps(TopAuthors(acc, s.maxAuthors), RepFn(acc, code, s.queryBy, s.seed, h), CountFn(acc)))
  }

  /** The TypeError deduplicate_entries raises in sampling mode, if any: the first unhashable id among the tagged representatives. */
  function SampledError(acc: seq<Accepted>, code: string, s: Settings, h: Hash): Option<Value>
  {
    FirstUnhashable(TaggedReps(TopAuthors(acc, s.maxAuthors), RepFn(acc, code, s.queryBy, s.seed, h), CountFn(acc)))
  }

  /** The end of collect_code over the accepted records acc: the TypeError of sampling mode, or the six results. */
  function Ranked(acc: seq<Accepted>, code: string, s: Settings, h: Hash): Result<CodeOutput, CollectError>
  {
    if !s.collectAll && SampledError(acc, code, s, h).Some? then Failure(Unhashable(SampledError(acc, code, s, h).value))
    else Success(ScanOutput(acc, code, s, h))
  }

  /** What collect_code returns for the accepted records acc when nothing raises. */
  function ScanOutput(acc: seq<Accepted>, code: string, s: Settings, h: Hash): CodeOutput
  {
    var top := TopAuthors(acc, s.maxAuthors);
    var picked := if s.collectAll then BulkRecords(acc, code, s.queryBy) else Sampled(acc, code, s, h);
    CodeOutput(picked, AuthorRows(code, top), [], [], |acc|, OverviewRow(code, |acc|, |AuthorsOf(acc)|, 0))
  }

  /**
   * collect_code over a page source: the first record that raises, else
   * the error the page source raises, else the output over the accepted
   * records of the whole stream.
   */
  function CodeOutcome(pages: seq<PageResult>, code: string, s: Settings, dumps: Value -> string, h: Hash): Result<CodeOutput, CollectError>
    requires FirstStop(pages) < |pages|
  {
    match AcceptAll(Yielded(pages), s.authorQuantity, dumps)
    case Failure(e) => Failure(e)
    case Success(acc) =>
      if StreamError(pages).Some? then Failure(Api(StreamError(pages).value))
      else Ranked(acc, code, s, h)
  }

  /** The dictionaries of the scan: author_counts with its key order, representatives, all_entries and total_entries. */
  datatype ScanState = ScanState(
    order: seq<string>,
    counts: map<string, int>,
    reps: map<string, Option<Entry>>,
    allEntries: seq<Entry>,
    total: int)

  /**
   * st is the state of the scan after the accepted records acc: bulk
   * mode fills all_entries and leaves representatives empty, sampling
   * mode the other way round.
   */
  ghost predicate Describes(st: ScanState, acc: seq<Accepted>, code: string, s: Settings, h: Hash)
  {
    CountsDescribe(st, acc) &&
    st.allEntries == BulkRecords(BulkPart(acc, s), code, s.queryBy) &&
    RepsDescribe(st.reps, SamplePart(acc, s), code, s.queryBy, s.seed, h)
  }

  /** The records all_entries is built from: all of them in bulk mode, none otherwise. */
  function BulkPart(acc: seq<Accepted>, s: Settings): seq<Accepted>
  {
    if s.collectAll then acc else []
  }

  /** The records representatives is built from: all of them in sampling mode, none otherwise. */
  function SamplePart(acc: seq<Accepted>, s: Settings): seq<Accepted>
  {
    if s.collectAll then [] else acc
  }

  /** author_counts, its key order and total_entries after acc. */
  ghost predicate CountsDescribe(st: ScanState, acc: seq<Accepted>)
  {
    st.order == AuthorsOf(acc) &&
    (forall a :: a in st.counts <==> Count(acc, a) > 0) &&
    (forall a :: a in st.counts ==> st.counts[a] == Count(acc, a)) &&
    st.total == |acc|
  }

  /** representatives after acc: every author's running representative. */
  ghost predicate RepsDescribe(reps: map<string, Option<Entry>>, acc: seq<Accepted>, code: string, queryBy: QueryBy, seed: int, h: Hash)
  {
    forall a :: GetRep(reps, a) == FoldRep(Candidates(acc, a, code, queryBy), seed, h)
  }

  /** The scan loop of collect_code over the yielded records. */
  method ScanRecords(records: seq<Value>, code: string, s: Settings, dumps: Value -> string, h: Hash)
    returns (r: Result<ScanState, CollectError>)
    ensures AcceptAll(records, s.authorQuantity, dumps).Failure? ==> r == Failure(AcceptAll(records, s.authorQuantity, dumps).error)
    ensures AcceptAll(records, s.authorQuantity, dumps).Success? ==>
      r.Success? && Describes(r.value, AcceptAll(records, s.authorQuantity, dumps).value, code, s, h)
  {
    var st := ScanState([], map[], map[], [], 0);
    ghost var acc: seq<Accepted> := [];
    var i := 0;
    while i < |records|
      invariant 0 <= i <= |records|
      invariant AcceptAll(records[..i], s.authorQuantity, dumps) == Success(acc)
      invariant Describes(st, acc, code, s, h)
    {
      var next;
      next, acc := ScanStep(records, i, st, code, s, dumps, h, acc);
      if next.Failure? {
        AcceptAllPrefixFailure(records, i + 1, s.authorQuantity, dumps);
        return Failure(next.error);
      }
      st := next.value;
      i := i + 1;
    }
    assert records[..i] == records;
    return Success(st);
  }

  /** One turn of the scan loop: classify records[i] and, when accepted, count it. */
  method ScanStep(records: seq<Value>, i: nat, st: ScanState, code: string, s: Settings, dumps: Value -> string, h: Hash,
                  ghost acc: seq<Accepted>)
    returns (next: Result<ScanState, CollectError>, ghost acc': seq<Accepted>)
    requires i < |records|
    requires AcceptAll(records[..i], s.authorQuantity, dumps) == Success(acc)
    requires Describes(st, acc, code, s, h)
    ensures next.Failure? ==> AcceptAll(records[..i + 1], s.authorQuantity, dumps) == Failure(next.error)
    ensures next.Success? ==>
      AcceptAll(records[..i + 1], s.authorQuantity, dumps) == Success(acc') && Describes(next.value, acc', code, s, h)
  {
    var c := Classify(records[i], s.authorQuantity, dumps);
    assert records[..i + 1][..i] == records[..i] && records[..i + 1][i] == records[i];
    if c.Failure? {
      return Failure(c.error), acc;
    }
    if c.value.Some? {
      var st' := Accept(st, c.value.value, code, s, h, acc);
      return Success(st'), acc + [c.value.value];
    }
    return Success(st), acc;
  }

  /** The update of the scan for one accepted record. */
  method Accept(st: ScanState, x: Accepted, code: string, s: Settings, h: Hash, ghost acc: seq<Accepted>)
    returns (next: ScanState)
    requires Describes(st, acc, code, s, h)
    ensures Describes(next, acc + [x], code, s, h)
  {
    var name := x.author;
    var order := if name in st.counts then st.order else st.order + [name];
    var counts := st.counts[name := (if name in st.counts then st.counts[name] else 0) + 1];
    var reps, allEntries := st.reps, st.allEntries;
    if s.collectAll {
      allEntries := allEntries + [BulkRecord(x, code, s.queryBy)];
      assert (acc + [x])[..|acc|] == acc;
      assert SamplePart(acc + [x], s) == SamplePart(acc, s);
    } else {
      assert BulkPart(acc + [x], s) == BulkPart(acc, s);
      var current := GetRep(reps, name);
      var candidate := Candidate(x, code, s.queryBy);
      var pick := StablePick([candidate] + (if TruthyEntry(current) then [current.value] else []), s.seed, h);
      RepsStep(reps, acc, x, code, s.queryBy, s.seed, h, pick);
      reps := reps[name := pick];
    }
    next := ScanState(order, counts, reps, allEntries, st.total + 1);
    CountsStep(st, acc, x, next);
  }

  /** The counts part of the update keeps CountsDescribe. */
  lemma CountsStep(st: ScanState, acc: seq<Accepted>, x: Accepted, next: ScanState)
    requires CountsDescribe(st, acc)
    requires next.order == if x.author in st.counts then st.order else st.order + [x.author]
    requires next.counts == st.counts[x.author := (if x.author in st.counts then st.counts[x.author] else 0) + 1]
    requires next.total == st.total + 1
    ensures CountsDescribe(next, acc + [x])
  {
    ScanCountStep(acc, x);
    forall a ensures (a in next.counts <==> Count(acc + [x], a) > 0) && (a in next.counts ==> next.counts[a] == Count(acc + [x], a)) {
      if a != x.author {
        assert (a in next.counts <==> a in st.counts) && (a in next.counts ==> next.counts[a] == st.counts[a]);
      }
    }
  }

  /** The representatives part of the update keeps RepsDescribe. */
  lemma RepsStep(reps: map<string, Option<Entry>>, acc: seq<Accepted>, x: Accepted, code: string, queryBy: QueryBy,
                 seed: int, h: Hash, pick: Option<Entry>)
    requires RepsDescribe(reps, acc, code, queryBy, seed, h)
    requires var current := GetRep(reps, x.author);
      pick == Pick([Candidate(x, code, queryBy)] + (if TruthyEntry(current) then [current.value] else []), seed, h)
    ensures RepsDescribe(reps[x.author := pick], acc + [x], code, queryBy, seed, h)
  {
    RepStep(acc, x, x.author, code, queryBy, seed, h);
    var reps' := reps[x.author := pick];
    forall a ensures GetRep(reps', a) == FoldRep(Candidates(acc + [x], a, code, queryBy), seed, h) {
      if a != x.author {
        assert GetRep(reps', a) == GetRep(reps, a);
      }
    }
  }

  /** One more accepted record raises its author's count by one and leaves the rest. */
  lemma ScanCountStep(acc: seq<Accepted>, x: Accepted)
    ensures AuthorsOf(acc + [x]) == if Count(acc, x.author) > 0 then AuthorsOf(acc) else AuthorsOf(acc) + [x.author]
    ensures forall a :: Count(acc + [x], a) == Count(acc, a) + (if a == x.author then 1 else 0)
  {
    assert (acc + [x])[..|acc|] == acc;
  }

  /** One more accepted record changes only its own author's representative, to the pick against the current one. */
  lemma RepStep(acc: seq<Accepted>, x: Accepted, name: string, code: string, queryBy: QueryBy, seed: int, h: Hash)
    requires x.author == name
    ensures var current := FoldRep(Candidates(acc, name, code, queryBy), seed, h);
      FoldRep(Candidates(acc + [x], name, code, queryBy), seed, h) ==
        Pick([Candidate(x, code, queryBy)] + (if TruthyEntry(current) then [current.value] else []), seed, h)
    ensures forall a :: a != name ==> Candidates(acc + [x], a, code, queryBy) == Candidates(acc, a, code, queryBy)
  {
    var all := acc + [x];
    assert all[..|all| - 1] == acc;
    var cs := Candidates(all, name, code, queryBy);
    assert cs[..|cs| - 1] == Candidates(acc, name, code, queryBy);
  }

  /** The loop over top_authors in sampling mode: each author's representative, tagged, when it has one. */
  method TagRepresentatives(top: seq<(string, int)>, reps: map<string, Option<Entry>>, counts: map<string, int>,
                            ghost acc: seq<Accepted>, code: string, queryBy: QueryBy, seed: int, h: Hash)
    returns (tagged: seq<Entry>)
    requires RepsDescribe(reps, acc, code, queryBy, seed, h)
    requires forall k :: 0 <= k < |top| ==> top[k].0 in counts && counts[top[k].0] == Count(acc, top[k].0)
    ensures tagged == TaggedReps(top, RepFn(acc, code, queryBy, seed, h), CountFn(acc))
  {
    ghost var rf, cf := RepFn(acc, code, queryBy, seed, h), CountFn(acc);
    tagged := [];
    var i := 0;
    while i < |top|
      invariant 0 <= i <= |top|
      invariant tagged == TaggedReps(top[..i], rf, cf)
    {
      var author := top[i].0;
      var rep := GetRep(reps, author);
      RepFnAt(reps, acc, code, queryBy, seed, h, author);
      TaggedRepsSnoc(top, i, rf, cf);
      if TruthyEntry(rep) {
        tagged := tagged + [Tag(rep.value, counts[author])];
      }
      i := i + 1;
    }
    assert top[..i] == top;
  }

  /** The representative function agrees with the representatives dictionary. */
  lemma RepFnAt(reps: map<string, Option<Entry>>, acc: seq<Accepted>, code: string, queryBy: QueryBy, seed: int, h: Hash, a: string)
    requires RepsDescribe(reps, acc, code, queryBy, seed, h)
    ensures RepFn(acc, code, queryBy, seed, h)(a) == GetRep(reps, a)
  {
  }

  /** One more top author adds its tagged representative, if it has one. */
  lemma TaggedRepsSnoc(top: seq<(string, int)>, i: nat, rep: string -> Option<Entry>, count: string -> int)
    requires i < |top|
    ensures TaggedReps(top[..i + 1], rep, count) ==
      if TruthyEntry(rep(top[i].0)) then TaggedReps(top[..i], rep, count) + [Tag(rep(top[i].0).value, count(top[i].0))]
      else TaggedReps(top[..i], rep, count)
  {
    assert top[..i + 1][..i] == top[..i] && top[..i + 1][i] == top[i];
  }

  /** Every ranked author has entries, and is ranked with its count. */
  lemma TopAuthorsCounts(acc: seq<Accepted>, maxAuthors: int)
    ensures var top := TopAuthors(acc, maxAuthors);
      forall k :: 0 <= k < |top| ==> Count(acc, top[k].0) > 0 && top[k].1 == Count(acc, top[k].0)
  {
    var tally := Tally(acc);
    var sorted := SortByCountDesc(tally);
    var top := TopAuthors(acc, maxAuthors);
    SortByCountDescCorrect(tally);
    forall k | 0 <= k < |top|
      ensures Count(acc, top[k].0) > 0 && top[k].1 == Count(acc, top[k].0)
    {
      assert top[k] == sorted[k];
      assert sorted[k] in multiset(tally);
      var i :| 0 <= i < |tally| && tally[i] == sorted[k];
    }
  }

  /**
   * collect_code over a page source: iterate, scan, rank the authors,
   * then keep every bulk record or the deduplicated tagged representatives.
   */
  method CollectCode(code: string, s: Settings, dumps: Value -> string, h: Hash, pages: seq<PageResult>)
    returns (r: Result<CodeOutput, CollectError>)
    requires FirstStop(pages) < |pages|
    ensures r == CodeOutcome(pages, code, s, dumps, h)
  {
    var query, records, cursors, err := IterCodeEntries(code, s.queryBy, s.codeQuantity, pages);
    var scan := ScanRecords(records, code, s, dumps, h);
    if scan.Failure? {
      return Failure(scan.error);
    }
    if err.Some? {
      return Failure(Api(err.value));
    }
    r := Rank(scan.value, AcceptAll(records, s.authorQuantity, dumps).value, code, s, h);
  }

  /**
   * The end of collect_code: rank the authors and build the six results
   * from the scanned state, or pass on the TypeError of deduplicate_entries.
   */
  method Rank(st: ScanState, ghost acc: seq<Accepted>, code: string, s: Settings, h: Hash) returns (r: Result<CodeOutput, CollectError>)
    requires Describes(st, acc, code, s, h)
    ensures r == Ranked(acc, code, s, h)
  {
    var top := RankAuthors(st.order, st.counts, acc, s.maxAuthors);
    var picked;
    if s.collectAll {
      picked := st.allEntries;
    } else {
      TopAuthorsCounts(acc, s.maxAuthors);
      var tagged := TagRepresentatives(top, st.reps, st.counts, acc, code, s.queryBy, s.seed, h);
      var unique := DeduplicateEntries(tagged);
      if unique.Failure? {
        return Failure(Unhashable(unique.error));
      }
      picked := unique.value;
    }
    r := Success(CodeOutput(picked, AuthorRows(code, top), [], [], st.total, OverviewRow(code, st.total, |st.order|, 0)));
  }

  /** sorted(author_counts.items(), key=lambda x: -x[1])[:max_authors] */
  method RankAuthors(order: seq<string>, counts: map<string, int>, ghost acc: seq<Accepted>, maxAuthors: int)
    returns (top: seq<(string, int)>)
    requires order == AuthorsOf(acc)
    requires forall a :: a in order ==> a in counts && counts[a] == Count(acc, a)
    ensures top == TopAuthors(acc, maxAuthors)
  {
    var items := seq(|order|, k requires 0 <= k < |order| => (order[k], counts[order[k]]));
    assert |items| == |Tally(acc)| && forall k :: 0 <= k < |items| ==> items[k] == Tally(acc)[k];
    assert items == Tally(acc);
    top := PyPrefix(SortByCountDesc(items), maxAuthors);
  }

  // ---------------------------------------------------------------------
  // What collect_code's results say about the stream

  /** Nothing after the page the iteration stops at changes the outcome of collect_code. */
  lemma CodeOutcomeUnread(pages: seq<PageResult>, more: seq<PageResult>, code: string, s: Settings, dumps: Value -> string, h: Hash)
    requires FirstStop(pages) < |pages|
    ensures FirstStop(pages + more) < |pages + more|
    ensures CodeOutcome(pages + more, code, s, dumps, h) == CodeOutcome(pages, code, s, dumps, h)
  {
    PagesAfterStopUnread(pages, more);
  }

  /** The overview row counts every accepted record once and every author once; no dataset rows are produced. */
  lemma OverviewCounts(acc: seq<Accepted>, code: string, s: Settings, h: Hash)
    ensures var o := ScanOutput(acc, code, s, h);
      o.totalEntries == |acc| && o.overview.nEntries == SumCounts(AuthorsOf(acc), acc) &&
      o.overview.code == code && o.overview.nMainAuthors == |AuthorsOf(acc)| && o.overview.nDatasets == 0 &&
      o.datasetRows == [] && o.globalRows == []
  {
    TallySum(acc);
  }

  /** The ranking keeps distinct authors that have entries, each with its count, by non-increasing count. */
  lemma TopAuthorsRanked(acc: seq<Accepted>, maxAuthors: int)
    ensures var top := TopAuthors(acc, maxAuthors);
      (maxAuthors >= 0 ==> |top| == if maxAuthors <= |AuthorsOf(acc)| then maxAuthors else |AuthorsOf(acc)|) &&
      |top| <= |AuthorsOf(acc)| && NonIncreasing(top) &&
      (forall k :: 0 <= k < |top| ==> Count(acc, top[k].0) > 0 && top[k].1 == Count(acc, top[k].0)) &&
      (forall k, l :: 0 <= k < l < |top| ==> top[k].0 != top[l].0)
  {
    var tally := Tally(acc);
    var sorted := SortByCountDesc(tally);
    var top := TopAuthors(acc, maxAuthors);
    SortByCountDescCorrect(tally);
    TopAuthorsCounts(acc, maxAuthors);
    TallyDistinct(acc);
    PermutationDistinct(sorted, tally);
    forall k, l | 0 <= k < l < |top| ensures top[k].0 != top[l].0 {
      assert top[k] == sorted[k] && top[l] == sorted[l];
    }
    forall k, l | 0 <= k < l < |top| ensures top[k].1 >= top[l].1 {
      assert top[k] == sorted[k] && top[l] == sorted[l];
    }
  }

  /** An author the ranking leaves out has no more entries than any author it keeps. */
  lemma TopAuthorsLeftOut(acc: seq<Accepted>, maxAuthors: int, a: string)
    requires Count(acc, a) > 0
    requires forall k :: 0 <= k < |TopAuthors(acc, maxAuthors)| ==> TopAuthors(acc, maxAuthors)[k].0 != a
    ensures forall k :: 0 <= k < |TopAuthors(acc, maxAuthors)| ==> TopAuthors(acc, maxAuthors)[k].1 >= Count(acc, a)
  {
    var tally := Tally(acc);
    var sorted := SortByCountDesc(tally);
    var top := TopAuthors(acc, maxAuthors);
    SortByCountDescCorrect(tally);
    var i :| 0 <= i < |AuthorsOf(acc)| && AuthorsOf(acc)[i] == a;
    assert tally[i] == (a, Count(acc, a));
    assert tally[i] in multiset(sorted);
    var j :| 0 <= j < |sorted| && sorted[j] == tally[i];
    forall k | 0 <= k < |top| ensures sorted[k].0 != a {
      assert top[k] == sorted[k];
    }
    assert sorted[j].0 == a;
    forall k | 0 <= k < |top| ensures top[k].1 >= Count(acc, a) {
      assert top[k] == sorted[k];
    }
  }

  /** Authors with equal counts are ranked in the order the stream first met them. */
  lemma TopAuthorsStable(acc: seq<Accepted>, maxAuthors: int, c: int)
    ensures var t := WithCount(TopAuthors(acc, maxAuthors), c);
      |t| <= |WithCount(Tally(acc), c)| && t == WithCount(Tally(acc), c)[..|t|]
  {
    var sorted := SortByCountDesc(Tally(acc));
    SortByCountDescCorrect(Tally(acc));
    var top := TopAuthors(acc, maxAuthors);
    assert sorted == top + sorted[|top|..];
    WithCountAppend(top, sorted[|top|..], c);
  }

  /** code_author_overview has one row per ranked author, with its count and no datasets. */
  lemma AuthorRowsOfTop(acc: seq<Accepted>, code: string, s: Settings, h: Hash)
    ensures var rows := ScanOutput(acc, code, s, h).authorRows;
      var top := TopAuthors(acc, s.maxAuthors);
      |rows| == |top| &&
      forall k :: 0 <= k < |rows| ==>
        rows[k].code == code && rows[k].mainAuthor == top[k].0 && rows[k].nEntries == top[k].1 && rows[k].nDatasets == 0
  {
  }

  /** A permutation of a list without repeats has no repeats. */
  lemma PermutationDistinct<T>(s: seq<T>, t: seq<T>)
    requires multiset(s) == multiset(t)
    requires forall k, l :: 0 <= k < l < |t| ==> t[k] != t[l]
    ensures forall k, l :: 0 <= k < l < |s| ==> s[k] != s[l]
  {
    forall k, l | 0 <= k < l < |s| ensures s[k] != s[l] {
      if s[k] == s[l] {
        MultiplicityTwo(s, k, l);
        DistinctMultiplicity(t, s[k]);
      }
    }
  }

  /** Two positions holding the same element make it occur at least twice. */
  lemma MultiplicityTwo<T>(s: seq<T>, k: nat, l: nat)
    requires k < l < |s| && s[k] == s[l]
    ensures multiset(s)[s[k]] >= 2
  {
    assert s == s[..l] + [s[l]] + s[l + 1..];
    assert s[k] in s[..l];
  }

  /** In a list without repeats, nothing occurs twice. */
  lemma {:induction false} DistinctMultiplicity<T>(s: seq<T>, x: T)
    requires forall k, l :: 0 <= k < l < |s| ==> s[k] != s[l]
    ensures multiset(s)[x] <= 1
  {
    if s != [] {
      var p := s[..|s| - 1];
      assert s == p + [s[|s| - 1]];
      DistinctMultiplicity(p, x);
      if x == s[|s| - 1] {
        assert x !in p;
      }
    }
  }

  /** author_counts.items() has no repeated item. */
  lemma TallyDistinct(acc: seq<Accepted>)
    ensures forall k, l :: 0 <= k < l < |Tally(acc)| ==> Tally(acc)[k] != Tally(acc)[l]
  {
  }

  /** The representative of author a after the scan over acc. */
  function RepOf(acc: seq<Accepted>, a: string, code: string, queryBy: QueryBy, seed: int, h: Hash): Option<Entry>
  {
    FoldRep(Candidates(acc, a, code, queryBy), seed, h)
  }

  /** The keys of the ids of the accepted records of author a. */
  function AuthorIds(acc: seq<Accepted>, a: string): set<Value>
  {
    if acc == [] then {}
    else AuthorIds(acc[..|acc| - 1], a) + (if acc[|acc| - 1].author == a then {HashKey(acc[|acc| - 1].id)} else {})
  }

  /** The keys of the ids of all accepted records. */
  function AllIds(acc: seq<Accepted>): set<Value>
  {
    if acc == [] then {} else AllIds(acc[..|acc| - 1]) + {HashKey(acc[|acc| - 1].id)}
  }

  /** Each accepted record's id differs from the ids before it, as Python compares them. */
  ghost predicate DistinctIds(acc: seq<Accepted>)
  {
    acc == [] || (DistinctIds(acc[..|acc| - 1]) && HashKey(acc[|acc| - 1].id) !in AllIds(acc[..|acc| - 1]))
  }

  /** Every candidate of a carries the id of an accepted record of a. */
  lemma {:induction false} CandidatesFrom(acc: seq<Accepted>, a: string, code: string, queryBy: QueryBy)
    ensures forall k :: 0 <= k < |Candidates(acc, a, code, queryBy)| ==>
      IdKey(Candidates(acc, a, code, queryBy)[k]) in AuthorIds(acc, a)
  {
    if acc != [] {
      var p, x := acc[..|acc| - 1], acc[|acc| - 1];
      CandidatesFrom(p, a, code, queryBy);
      var cs, ps := Candidates(acc, a, code, queryBy), Candidates(p, a, code, queryBy);
      assert AuthorIds(acc, a) == AuthorIds(p, a) + (if x.author == a then {HashKey(x.id)} else {});
      assert cs == ps + (if x.author == a then [Candidate(x, code, queryBy)] else []);
      forall k | 0 <= k < |cs| ensures IdKey(cs[k]) in AuthorIds(acc, a) {
        if k < |ps| {
          assert cs[k] == ps[k];
          assert IdKey(ps[k]) in AuthorIds(p, a);
        } else {
          assert x.author == a;
          assert cs[k] == Candidate(x, code, queryBy);
          assert IdKey(cs[k]) == HashKey(x.id);
        }
      }
    }
  }

  /** An author's ids are ids of the stream, truthy when every accepted id is. */
  lemma {:induction false} AuthorIdsProper(acc: seq<Accepted>, a: string)
    ensures AuthorIds(acc, a) <= AllIds(acc)
    ensures (forall k :: 0 <= k < |acc| ==> Truthy(acc[k].id)) ==> forall v :: v in AuthorIds(acc, a) ==> Truthy(v)
    ensures (forall k :: 0 <= k < |acc| ==> Hashable(acc[k].id)) ==> forall v :: v in AuthorIds(acc, a) ==> Hashable(v)
  {
    if acc != [] {
      var p := acc[..|acc| - 1];
      AuthorIdsProper(p, a);
      assert forall k :: 0 <= k < |p| ==> p[k] == acc[k];
    }
  }

  /** With distinct ids, two authors share no id. */
  lemma {:induction false} AuthorIdsDisjoint(acc: seq<Accepted>, a: string, b: string)
    requires DistinctIds(acc) && a != b
    ensures AuthorIds(acc, a) !! AuthorIds(acc, b)
  {
    if acc != [] {
      var p := acc[..|acc| - 1];
      AuthorIdsDisjoint(p, a, b);
      AuthorIdsProper(p, a);
      AuthorIdsProper(p, b);
    }
  }

  /** An author with entries has a representative: a candidate of minimal digest, with one of the author's ids. */
  lemma RepExists(acc: seq<Accepted>, a: string, code: string, queryBy: QueryBy, seed: int, h: Hash)
    requires forall k :: 0 <= k < |acc| ==> Truthy(acc[k].id)
    requires Count(acc, a) > 0
    ensures var cs := Candidates(acc, a, code, queryBy);
      var rep := RepOf(acc, a, code, queryBy, seed, h);
      TruthyEntry(rep) && HasId(rep.value) && rep.value in cs && IsMinimal(cs, seed, h, rep.value) &&
      IdKey(rep.value) in AuthorIds(acc, a)
  {
    var cs := Candidates(acc, a, code, queryBy);
    RepSome(acc, a, code, queryBy, seed, h);
    FoldRepMinimal(cs, seed, h);
    CandidatesFrom(acc, a, code, queryBy);
    var rep := RepOf(acc, a, code, queryBy, seed, h).value;
    var k :| 0 <= k < |cs| && cs[k] == rep;
  }

  /** An author with entries has a stored, non-empty representative. */
  lemma RepSome(acc: seq<Accepted>, a: string, code: string, queryBy: QueryBy, seed: int, h: Hash)
    requires forall k :: 0 <= k < |acc| ==> Truthy(acc[k].id)
    requires Count(acc, a) > 0
    ensures TruthyEntry(RepOf(acc, a, code, queryBy, seed, h))
  {
    var cs := Candidates(acc, a, code, queryBy);
    CandidatesFrom(acc, a, code, queryBy);
    AuthorIdsProper(acc, a);
    assert IdKey(cs[0]) in AuthorIds(acc, a);
    FoldRepMinimal(cs, seed, h);
    assert "entry_id" in RepOf(acc, a, code, queryBy, seed, h).value;
  }

  /** When every author has a representative, each contributes its tagged representative, in order. */
  lemma {:induction false} TaggedRepsAll(top: seq<(string, int)>, rep: string -> Option<Entry>, count: string -> int)
    requires forall k :: 0 <= k < |top| ==> TruthyEntry(rep(top[k].0))
    ensures |TaggedReps(top, rep, count)| == |top|
    ensures forall k :: 0 <= k < |top| ==>
      rep(top[k].0).Some? && TaggedReps(top, rep, count)[k] == Tag(rep(top[k].0).value, count(top[k].0))
  {
    if top != [] {
      var p := top[..|top| - 1];
      assert forall k :: 0 <= k < |p| ==> p[k] == top[k];
      TaggedRepsAll(p, rep, count);
    }
  }

  /**
   * p is author a's representative tagged as collect_code tags it:
   * picked_by "scan", the author's entry count, and one of the
   * author's candidates of minimal digest.
   */
  ghost predicate PickedFor(p: Entry, acc: seq<Accepted>, a: string, code: string, s: Settings, h: Hash)
  {
    var cs := Candidates(acc, a, code, s.queryBy);
    var rep := RepOf(acc, a, code, s.queryBy, s.seed, h);
    rep.Some? && p == Tag(rep.value, Count(acc, a)) &&
    Get(p, "picked_by") == Str("scan") && Get(p, "main_author") == Str(a) &&
    Get(p, "bucket_entry_count") == Int(Count(acc, a)) &&
    HasId(p) && rep.value in cs && IsMinimal(cs, s.seed, h, rep.value)
  }

  /** The j-th tagged representative is picked for the j-th ranked author. */
  lemma TaggedRepsPicked(acc: seq<Accepted>, code: string, s: Settings, h: Hash)
    requires forall k :: 0 <= k < |acc| ==> Truthy(acc[k].id)
    ensures var top := TopAuthors(acc, s.maxAuthors);
      var t := TaggedReps(top, RepFn(acc, code, s.queryBy, s.seed, h), CountFn(acc));
      |t| == |top| && forall j :: 0 <= j < |top| ==> PickedFor(t[j], acc, top[j].0, code, s, h)
  {
    var top := TopAuthors(acc, s.maxAuthors);
    var rep, count := RepFn(acc, code, s.queryBy, s.seed, h), CountFn(acc);
    TopAuthorsCounts(acc, s.maxAuthors);
    forall k | 0 <= k < |top| ensures TruthyEntry(rep(top[k].0)) {
      RepSome(acc, top[k].0, code, s.queryBy, s.seed, h);
    }
    TaggedRepsAll(top, rep, count);
    var t := TaggedReps(top, rep, count);
    forall j | 0 <= j < |top| ensures PickedFor(t[j], acc, top[j].0, code, s, h) {
      RepExists(acc, top[j].0, code, s.queryBy, s.seed, h);
    }
  }

  /**
   * In sampling mode the entries kept have distinct ids, are each picked
   * for a ranked author, and include every ranked author's representative id.
   */
  lemma SampledPicks(acc: seq<Accepted>, code: string, s: Settings, h: Hash)
    requires forall k :: 0 <= k < |acc| ==> Truthy(acc[k].id)
    ensures var picked := Sampled(acc, code, s, h);
      var top := TopAuthors(acc, s.maxAuthors);
      |picked| <= |top| && UniqueIds(picked) &&
      (forall k :: 0 <= k < |picked| ==> exists j :: 0 <= j < |top| && PickedFor(picked[k], acc, top[j].0, code, s, h)) &&
      (forall j :: 0 <= j < |top| ==>
        RepOf(acc, top[j].0, code, s.queryBy, s.seed, h).Some? &&
        IdKey(RepOf(acc, top[j].0, code, s.queryBy, s.seed, h).value) in Ids(picked))
  {
    var top := TopAuthors(acc, s.maxAuthors);
    var t := TaggedReps(top, RepFn(acc, code, s.queryBy, s.seed, h), CountFn(acc));
    TaggedRepsPicked(acc, code, s, h);
    DedupPicked(t, top, acc, code, s, h);
  }

  /** Deduplicating the tagged representatives keeps what PickedFor says of them and all their ids. */
  lemma DedupPicked(t: seq<Entry>, top: seq<(string, int)>, acc: seq<Accepted>, code: string, s: Settings, h: Hash)
    requires |t| == |top| && forall j :: 0 <= j < |top| ==> PickedFor(t[j], acc, top[j].0, code, s, h)
    ensures var picked := DedupFrom({}, t);
      |picked| <= |top| && UniqueIds(picked) &&
      (forall k :: 0 <= k < |picked| ==> exists j :: 0 <= j < |top| && PickedFor(picked[k], acc, top[j].0, code, s, h)) &&
      (forall j :: 0 <= j < |top| ==>
        RepOf(acc, top[j].0, code, s.queryBy, s.seed, h).Some? &&
        IdKey(RepOf(acc, top[j].0, code, s.queryBy, s.seed, h).value) in Ids(picked))
  {
    var picked := DedupFrom({}, t);
    DedupFromIds({}, t);
    SubsequenceMembers(picked, t);
    forall k | 0 <= k < |picked| ensures exists j :: 0 <= j < |top| && PickedFor(picked[k], acc, top[j].0, code, s, h) {
      var j :| 0 <= j < |t| && t[j] == picked[k];
      assert PickedFor(t[j], acc, top[j].0, code, s, h);
    }
    forall j | 0 <= j < |top|
      ensures IdKey(RepOf(acc, top[j].0, code, s.queryBy, s.seed, h).value) in Ids(picked)
    {
      var rep := RepOf(acc, top[j].0, code, s.queryBy, s.seed, h);
      assert PickedFor(t[j], acc, top[j].0, code, s, h);
      assert t[j] == Tag(rep.value, Count(acc, top[j].0));
      assert HasId(t[j]) && IdKey(t[j]) == IdKey(rep.value);
    }
  }

  /** With distinct entry ids in the stream, sampling mode keeps exactly one tagged representative per ranked author, in rank order. */
  lemma SampledPicksComplete(acc: seq<Accepted>, code: string, s: Settings, h: Hash)
    requires forall k :: 0 <= k < |acc| ==> Truthy(acc[k].id)
    requires DistinctIds(acc)
    ensures var picked := Sampled(acc, code, s, h);
      var top := TopAuthors(acc, s.maxAuthors);
      |picked| == |top| && forall j :: 0 <= j < |top| ==> PickedFor(picked[j], acc, top[j].0, code, s, h)
  {
    var top := TopAuthors(acc, s.maxAuthors);
    var t := TaggedReps(top, RepFn(acc, code, s.queryBy, s.seed, h), CountFn(acc));
    TaggedRepsPicked(acc, code, s, h);
    TopAuthorsRanked(acc, s.maxAuthors);
    forall k, l | 0 <= k < l < |t| ensures IdKey(t[k]) != IdKey(t[l]) {
      RepExists(acc, top[k].0, code, s.queryBy, s.seed, h);
      RepExists(acc, top[l].0, code, s.queryBy, s.seed, h);
      AuthorIdsDisjoint(acc, top[k].0, top[l].0);
    }
    DedupFromUnique({}, t);
  }

  /**
   * Sampling mode raises exactly when the representative of some ranked
   * author has an unhashable id, and never when every accepted id is hashable.
   */
  lemma SampledErrorWhen(acc: seq<Accepted>, code: string, s: Settings, h: Hash)
    requires forall k :: 0 <= k < |acc| ==> Truthy(acc[k].id)
    ensures var top := TopAuthors(acc, s.maxAuthors);
      SampledError(acc, code, s, h).None? <==>
        forall j :: 0 <= j < |top| && RepOf(acc, top[j].0, code, s.queryBy, s.seed, h).Some? ==>
          Hashable(EntryId(RepOf(acc, top[j].0, code, s.queryBy, s.seed, h).value))
    ensures (forall k :: 0 <= k < |acc| ==> Hashable(acc[k].id)) ==> SampledError(acc, code, s, h).None?
  {
    var top := TopAuthors(acc, s.maxAuthors);
    var t := TaggedReps(top, RepFn(acc, code, s.queryBy, s.seed, h), CountFn(acc));
    TaggedRepsPicked(acc, code, s, h);
    TopAuthorsCounts(acc, s.maxAuthors);
    forall j | 0 <= j < |top|
      ensures HasId(t[j]) && EntryId(t[j]) == EntryId(RepOf(acc, top[j].0, code, s.queryBy, s.seed, h).value)
    {
      assert PickedFor(t[j], acc, top[j].0, code, s, h);
    }
    if forall k :: 0 <= k < |acc| ==> Hashable(acc[k].id) {
      forall j | 0 <= j < |top| ensures Hashable(EntryId(t[j])) {
        RepExists(acc, top[j].0, code, s.queryBy, s.seed, h);
        AuthorIdsProper(acc, top[j].0);
      }
    }
  }

  /** In bulk mode every accepted record is kept, in stream order, with its id, author and code. */
  lemma BulkPicks(acc: seq<Accepted>, code: string, s: Settings, h: Hash)
    requires s.collectAll
    ensures var picked := ScanOutput(acc, code, s, h).picked;
      |picked| == |acc| &&
      forall k :: 0 <= k < |acc| ==>
        picked[k] == BulkRecord(acc[k], code, s.queryBy) &&
        EntryId(picked[k]) == acc[k].id && Get(picked[k], "main_author") == Str(acc[k].author)
  {
    BulkRecordsAt(acc, code, s.queryBy);
  }
}
