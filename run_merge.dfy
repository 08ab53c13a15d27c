/**
 * The run of collect(): collect every requested code in turn, then merge
 * this run's rows into the tables a previous run left behind.
 *
 * The previous tables are an input (read_csv of the four CSV files), and
 * so are the page sources of the codes: sources[i] is what the page
 * requests for codes[i] return.  The files are an output: the tables to
 * write and the entries file of every code that picked something.
 */
module RunMerge {
  import opened Wrappers
  import opened Json
  import opened Text
  import opened Selection
  import opened CollectEntries
  import NomadApi

  // ---------------------------------------------------------------------
  // include_fields

  /** args.include_fields, or entry_id, the author quantity and the datasets quantity when none are given. */
  function IncludeFields(given: seq<string>, authorQuantity: string, datasetsQuantity: string): (r: seq<string>)
    ensures |r| > 0
    ensures given != [] ==> r == given
    ensures given == [] ==> r[0] == "entry_id" && authorQuantity in r && datasetsQuantity in r
  {
    if given != [] then given else ["entry_id", authorQuantity, datasetsQuantity]
  }

  /** Since the include fields are never empty, every page request of a run asks for those fields. */
  lemma IncludeFieldsRequested(given: seq<string>, authorQuantity: string, datasetsQuantity: string,
                               query: Value, pageSize: int, pageAfter: Value)
    ensures var p := NomadApi.EntriesPayload(query, pageSize, IncludeFields(given, authorQuantity, datasetsQuantity), pageAfter);
      "required" in p.fields &&
      p.fields["required"] == Obj(map["include" := Arr(NomadApi.StrList(IncludeFields(given, authorQuantity, datasetsQuantity)))])
  {
  }

  // ---------------------------------------------------------------------
  // The per-code loop

  /** What the loop over args.codes accumulates. */
  datatype RunOutput = RunOutput(
    overviewRows: seq<OverviewRow>,
    authorRows: seq<AuthorRow>,
    datasetRows: seq<DatasetRow>,
    globalRows: seq<GlobalRow>,
    totalPicked: int,
    codesProcessed: int,
    files: seq<EntriesFile>)

  /** A write_jsonl of the picked entries of a code. */
  datatype EntriesFile = EntriesFile(code: string, entries: seq<Entry>)

  const EntriesSuffix: string := ".jsonl"

  /** The file name of an entries file: normalize_code_name(code) + ".jsonl". */
  function FileName(f: EntriesFile): (r: string)
    ensures |r| > |EntriesSuffix| && r[|r| - |EntriesSuffix|..] == EntriesSuffix
    ensures AllSafe(r[..|r| - |EntriesSuffix|]) && r[0] != '_'
  {
    var stem := NormalizeCodeName(f.code);
    assert (stem + EntriesSuffix)[..|stem|] == stem;
    stem + EntriesSuffix
  }

  /** The loop's state after one more code whose collect_code returned o. */
  function AddCode(run: RunOutput, code: string, o: CodeOutput): RunOutput
  {
    RunOutput(
      run.overviewRows + [o.overview],
      run.authorRows + o.authorRows,
      run.datasetRows + o.datasetRows,
      run.globalRows + o.globalRows,
      run.totalPicked + |o.picked|,
      run.codesProcessed + 1,
      if o.picked != [] then run.files + [EntriesFile(code, o.picked)] else run.files)
  }

  /** One page source per code, each reaching a last page. */
  predicate SourcesFor(codes: seq<string>, sources: seq<seq<PageResult>>)
  {
    |sources| == |codes| && forall i :: 0 <= i < |sources| ==> FirstStop(sources[i]) < |sources[i]|
  }

  /** What collect_code returns or raises for each code. */
  function Outcomes(codes: seq<string>, s: Settings, dumps: Value -> string, h: Hash,
                    sources: seq<seq<PageResult>>): (r: seq<Result<CodeOutput, CollectError>>)
    requires SourcesFor(codes, sources)
    ensures |r| == |codes|
  {
    seq(|codes|, i requires 0 <= i < |codes| => CodeOutcome(sources[i], codes[i], s, dumps, h))
  }

  /**
   * The loop over the first n codes, given what collect_code does for
   * each: the first exception it raises, or the accumulated output.
   */
  function RunPrefix(codes: seq<string>, outcomes: seq<Result<CodeOutput, CollectError>>, n: nat): Result<RunOutput, CollectError>
    requires |outcomes| == |codes| && n <= |codes|
  {
    if n == 0 then Success(RunOutput([], [], [], [], 0, 0, []))
    else
      match RunPrefix(codes, outcomes, n - 1)
      case Failure(e) => Failure(e)
      case Success(run) =>
        match outcomes[n - 1]
        case Failure(e) => Failure(e)
        case Success(o) => Success(AddCode(run, codes[n - 1], o))
  }

  /** The number of entries written to the entries files. */
  function FilesTotal(files: seq<EntriesFile>): nat
  {
    if files == [] then 0 else FilesTotal(files[..|files| - 1]) + |files[|files| - 1].entries|
  }

  /**
   * The loop over args.codes: collect_code for each code in order,
   * stopping at the first exception.
   */
  method CollectCodes(codes: seq<string>, s: Settings, dumps: Value -> string, h: Hash, sources: seq<seq<PageResult>>)
    returns (r: Result<RunOutput, CollectError>)
    requires SourcesFor(codes, sources)
    ensures r == RunPrefix(codes, Outcomes(codes, s, dumps, h, sources), |codes|)
  {
    ghost var outcomes := Outcomes(codes, s, dumps, h, sources);
    var run := RunOutput([], [], [], [], 0, 0, []);
    for i := 0 to |codes|
      invariant RunPrefix(codes, outcomes, i) == Success(run)
    {
      var o := CollectAt(codes, s, dumps, h, sources, i);
      if o.Failure? {
        FailureStays(codes, outcomes, i + 1);
        return Failure(o.error);
      }
      RunStep(codes, outcomes, i);
      run := Record(run, codes[i], o.value);
    }
    return Success(run);
  }

  /**
   * The bookkeeping after collect_code returned for a code: count it and
   * its picked entries, append its rows, and write its entries file when
   * it picked something.
   */
  method Record(run: RunOutput, code: string, out: CodeOutput) returns (next: RunOutput)
    ensures next == AddCode(run, code, out)
  {
    var overviewRows, authorRows, datasetRows, globalRows, totalPicked, codesProcessed, files :=
      run.overviewRows, run.authorRows, run.datasetRows, run.globalRows, run.totalPicked, run.codesProcessed, run.files;
    codesProcessed := codesProcessed + 1;
    totalPicked := totalPicked + |out.picked|;
    overviewRows := overviewRows + [out.overview];
    authorRows := authorRows + out.authorRows;
    datasetRows := datasetRows + out.datasetRows;
    globalRows := globalRows + out.globalRows;
    if out.picked != [] {
      files := files + [EntriesFile(code, out.picked)];
    }
    next := RunOutput(overviewRows, authorRows, datasetRows, globalRows, totalPicked, codesProcessed, files);
  }

  /** collect_code for the i-th code. */
  method CollectAt(codes: seq<string>, s: Settings, dumps: Value -> string, h: Hash, sources: seq<seq<PageResult>>, i: nat)
    returns (o: Result<CodeOutput, CollectError>)
    requires SourcesFor(codes, sources) && i < |codes|
    ensures o == Outcomes(codes, s, dumps, h, sources)[i]
  {
    o := CollectCode(codes[i], s, dumps, h, sources[i]);
  }

  /** A code collect_code returns for adds its output to the run. */
  lemma RunStep(codes: seq<string>, outcomes: seq<Result<CodeOutput, CollectError>>, n: nat)
    requires |outcomes| == |codes| && n < |codes|
    requires RunPrefix(codes, outcomes, n).Success? && outcomes[n].Success?
    ensures RunPrefix(codes, outcomes, n + 1) == Success(AddCode(RunPrefix(codes, outcomes, n).value, codes[n], outcomes[n].value))
  {
  }

  /** Once a code raises, the run ends with that exception. */
  lemma {:induction false} FailureStays(codes: seq<string>, outcomes: seq<Result<CodeOutput, CollectError>>, n: nat)
    requires |outcomes| == |codes| && n <= |codes|
    requires RunPrefix(codes, outcomes, n).Failure?
    ensures RunPrefix(codes, outcomes, |codes|) == RunPrefix(codes, outcomes, n)
    decreases |codes| - n
  {
    if n < |codes| {
      assert RunPrefix(codes, outcomes, n + 1) == RunPrefix(codes, outcomes, n);
      FailureStays(codes, outcomes, n + 1);
    }
  }

  /** The rows of a successful outcome carry its code, and its dataset and global rows are empty. */
  predicate RowsOf(code: string, outcome: Result<CodeOutput, CollectError>)
  {
    outcome.Success? ==>
      outcome.value.overview.code == code &&
      (forall k :: 0 <= k < |outcome.value.authorRows| ==> outcome.value.authorRows[k].code == code) &&
      outcome.value.datasetRows == [] && outcome.value.globalRows == []
  }

  /** The rows collect_code returns for a code all carry that code, and the dataset and global rows are empty. */
  lemma CodeRows(codes: seq<string>, s: Settings, dumps: Value -> string, h: Hash, sources: seq<seq<PageResult>>)
    requires SourcesFor(codes, sources)
    ensures forall i :: 0 <= i < |codes| ==> RowsOf(codes[i], Outcomes(codes, s, dumps, h, sources)[i])
  {
  }

  /**
   * A run that gets through the first n codes has processed n codes and
   * has one overview row per code, in order.
   */
  lemma {:induction false} RunOverview(codes: seq<string>, outcomes: seq<Result<CodeOutput, CollectError>>, n: nat)
    requires |outcomes| == |codes| && n <= |codes|
    requires forall i :: 0 <= i < |codes| ==> RowsOf(codes[i], outcomes[i])
    requires RunPrefix(codes, outcomes, n).Success?
    ensures RunPrefix(codes, outcomes, n).value.codesProcessed == n
    ensures |RunPrefix(codes, outcomes, n).value.overviewRows| == n
    ensures forall k :: 0 <= k < n ==> RunPrefix(codes, outcomes, n).value.overviewRows[k].code == codes[k]
  {
    if n > 0 {
      RunOverview(codes, outcomes, n - 1);
      RunStep(codes, outcomes, n - 1);
      assert RowsOf(codes[n - 1], outcomes[n - 1]);
    }
  }

  /** A run that gets through the first n codes has author rows of those codes only. */
  lemma {:induction false} RunRows(codes: seq<string>, outcomes: seq<Result<CodeOutput, CollectError>>, n: nat)
    requires |outcomes| == |codes| && n <= |codes|
    requires forall i :: 0 <= i < |codes| ==> RowsOf(codes[i], outcomes[i])
    requires RunPrefix(codes, outcomes, n).Success?
    ensures forall k :: 0 <= k < |RunPrefix(codes, outcomes, n).value.authorRows| ==>
      RunPrefix(codes, outcomes, n).value.authorRows[k].code in codes[..n]
  {
    if n > 0 {
      RunRows(codes, outcomes, n - 1);
      RunStep(codes, outcomes, n - 1);
      var prev := RunPrefix(codes, outcomes, n - 1).value.authorRows;
      var added := outcomes[n - 1].value.authorRows;
      assert RowsOf(codes[n - 1], outcomes[n - 1]);
      assert forall k :: 0 <= k < |added| ==> added[k].code == codes[n - 1];
      AuthorRowsSnoc(prev, added, codes, n);
    }
  }

  lemma AuthorRowsSnoc(prev: seq<AuthorRow>, added: seq<AuthorRow>, codes: seq<string>, n: nat)
    requires 0 < n <= |codes|
    requires forall k :: 0 <= k < |prev| ==> prev[k].code in codes[..n - 1]
    requires forall k :: 0 <= k < |added| ==> added[k].code == codes[n - 1]
    ensures forall k :: 0 <= k < |prev + added| ==> (prev + added)[k].code in codes[..n]
  {
    assert codes[..n] == codes[..n - 1] + [codes[n - 1]];
    forall k | 0 <= k < |prev + added|
      ensures (prev + added)[k].code in codes[..n]
    {
      if k < |prev| {
        assert (prev + added)[k] == prev[k];
      } else {
        assert (prev + added)[k] == added[k - |prev|];
      }
    }
  }

  /** A run has no dataset or global rows, since collect_code returns none. */
  lemma {:induction false} RunNoDetail(codes: seq<string>, outcomes: seq<Result<CodeOutput, CollectError>>, n: nat)
    requires |outcomes| == |codes| && n <= |codes|
    requires forall i :: 0 <= i < |codes| ==> RowsOf(codes[i], outcomes[i])
    requires RunPrefix(codes, outcomes, n).Success?
    ensures RunPrefix(codes, outcomes, n).value.datasetRows == []
    ensures RunPrefix(codes, outcomes, n).value.globalRows == []
  {
    if n > 0 {
      RunNoDetail(codes, outcomes, n - 1);
      RunStep(codes, outcomes, n - 1);
      assert RowsOf(codes[n - 1], outcomes[n - 1]);
    }
  }

  /** A run that gets through the first n codes counts in total_picked exactly the entries it wrote. */
  lemma {:induction false} RunPicked(codes: seq<string>, outcomes: seq<Result<CodeOutput, CollectError>>, n: nat)
    requires |outcomes| == |codes| && n <= |codes|
    requires RunPrefix(codes, outcomes, n).Success?
    ensures RunPrefix(codes, outcomes, n).value.totalPicked == FilesTotal(RunPrefix(codes, outcomes, n).value.files)
  {
    if n > 0 {
      RunPicked(codes, outcomes, n - 1);
      RunStep(codes, outcomes, n - 1);
      var files := RunPrefix(codes, outcomes, n).value.files;
      if outcomes[n - 1].value.picked != [] {
        assert files[..|files| - 1] == RunPrefix(codes, outcomes, n - 1).value.files;
      }
    }
  }

  /** Each entries file of a run is non-empty and belongs to one of the codes processed. */
  lemma {:induction false} RunFiles(codes: seq<string>, outcomes: seq<Result<CodeOutput, CollectError>>, n: nat)
    requires |outcomes| == |codes| && n <= |codes|
    requires RunPrefix(codes, outcomes, n).Success?
    ensures forall k :: 0 <= k < |RunPrefix(codes, outcomes, n).value.files| ==>
      RunPrefix(codes, outcomes, n).value.files[k].entries != [] &&
      RunPrefix(codes, outcomes, n).value.files[k].code in codes[..n]
  {
    if n > 0 {
      RunFiles(codes, outcomes, n - 1);
      RunStep(codes, outcomes, n - 1);
      var prev := RunPrefix(codes, outcomes, n - 1).value.files;
      var files := RunPrefix(codes, outcomes, n).value.files;
      assert codes[..n] == codes[..n - 1] + [codes[n - 1]];
      forall k | 0 <= k < |files|
        ensures files[k].entries != [] && files[k].code in codes[..n]
      {
        if k < |prev| {
          assert files[k] == prev[k];
        }
      }
    }
  }

  // ---------------------------------------------------------------------
  // code_overview: a dictionary keyed by code

  /** The codes of some rows. */
  function Codes(rows: seq<OverviewRow>): set<string>
  {
    set k | 0 <= k < |rows| :: rows[k].code
  }

  /** No two rows share a code, as the values of a dictionary keyed by code. */
  predicate UniqueCodes(rows: seq<OverviewRow>)
  {
    forall j, k :: 0 <= j < k < |rows| ==> rows[j].code != rows[k].code
  }

  /** The position of the first row with the code, or |rows| when no row has it. */
  function IndexOf(rows: seq<OverviewRow>, code: string): (i: nat)
    ensures i <= |rows|
    ensures i < |rows| ==> rows[i].code == code
    ensures forall j :: 0 <= j < i ==> rows[j].code != code
    ensures code in Codes(rows) ==> i < |rows|
  {
    if rows == [] then 0
    else if rows[0].code == code then 0
    else
      var i := 1 + IndexOf(rows[1..], code);
      assert forall j :: 1 <= j < |rows| ==> rows[j] == rows[1..][j - 1];
      i
  }

  /** d[row["code"]] = row: the row with the same code is replaced in place, or the row is appended. */
  function Upsert(rows: seq<OverviewRow>, row: OverviewRow): seq<OverviewRow>
  {
    var i := IndexOf(rows, row.code);
    if i < |rows| then rows[i := row] else rows + [row]
  }

  /** The dictionary after d[row["code"]] = row for every row of run, in order. */
  function UpsertAll(rows: seq<OverviewRow>, run: seq<OverviewRow>): seq<OverviewRow>
  {
    if run == [] then rows else Upsert(UpsertAll(rows, run[..|run| - 1]), run[|run| - 1])
  }

  /** The last row of rows with the code. */
  function Last(rows: seq<OverviewRow>, code: string): (r: Option<OverviewRow>)
    ensures r.Some? <==> code in Codes(rows)
    ensures r.Some? ==> r.value.code == code
  {
    if rows == [] then None
    else if rows[|rows| - 1].code == code then Some(rows[|rows| - 1])
    else
      assert Codes(rows) == Codes(rows[..|rows| - 1]) + {rows[|rows| - 1].code};
      Last(rows[..|rows| - 1], code)
  }

  /** The row the code of row ends with once run is written over it. */
  function Final(run: seq<OverviewRow>, row: OverviewRow): (r: OverviewRow)
    ensures r.code == row.code
  {
    match Last(run, row.code)
    case Some(last) => last
    case None => row
  }

  /** The dictionary comprehension over the prior rows, then the loop over this run's rows. */
  function MergedOverview(prior: seq<OverviewRow>, run: seq<OverviewRow>): seq<OverviewRow>
  {
    UpsertAll(UpsertAll([], prior), run)
  }

  /**
   * R is rows with run written over it: each row of rows became its
   * code's final row, and each row after them is the last row of run
   * with a code rows does not have.
   */
  ghost predicate UpsertedFrom(r: seq<OverviewRow>, rows: seq<OverviewRow>, run: seq<OverviewRow>)
  {
    UniqueCodes(r) && |rows| <= |r| &&
    (forall k :: 0 <= k < |rows| ==> r[k] == Final(run, rows[k])) &&
    (forall k :: |rows| <= k < |r| ==> Last(run, r[k].code) == Some(r[k]) && r[k].code !in Codes(rows)) &&
    Codes(r) == Codes(rows) + Codes(run)
  }

  lemma CodesSnoc(rows: seq<OverviewRow>, x: OverviewRow)
    ensures Codes(rows + [x]) == Codes(rows) + {x.code}
  {
    assert forall k :: 0 <= k < |rows| ==> (rows + [x])[k] == rows[k];
    assert (rows + [x])[|rows|] == x;
  }

  lemma LastSnoc(run: seq<OverviewRow>, x: OverviewRow, code: string)
    ensures Last(run + [x], code) == if x.code == code then Some(x) else Last(run, code)
  {
    assert (run + [x])[..|run|] == run;
  }

  /** One more row written over the dictionary keeps it described by UpsertedFrom. */
  lemma UpsertStep(r: seq<OverviewRow>, rows: seq<OverviewRow>, run: seq<OverviewRow>, x: OverviewRow)
    requires UpsertedFrom(r, rows, run)
    ensures UpsertedFrom(Upsert(r, x), rows, run + [x])
  {
    CodesSnoc(run, x);
    var i := IndexOf(r, x.code);
    if i < |r| {
      UpsertReplaces(r, rows, run, x, i);
    } else {
      CodesSnoc(r, x);
      UpsertAppends(r, rows, run, x);
    }
  }

  /** The row replaces the one with its code. */
  lemma UpsertReplaces(r: seq<OverviewRow>, rows: seq<OverviewRow>, run: seq<OverviewRow>, x: OverviewRow, i: nat)
    requires UpsertedFrom(r, rows, run)
    requires i < |r| && r[i].code == x.code
    requires Codes(run + [x]) == Codes(run) + {x.code}
    ensures UpsertedFrom(r[i := x], rows, run + [x])
  {
    var u := r[i := x];
    forall k | 0 <= k < |rows|
      ensures u[k] == Final(run + [x], rows[k])
    {
      LastSnoc(run, x, rows[k].code);
      if rows[k].code == x.code {
        assert r[k].code == x.code;
      }
    }
    forall k | |rows| <= k < |u|
      ensures Last(run + [x], u[k].code) == Some(u[k])
    {
      LastSnoc(run, x, u[k].code);
    }
    assert forall k :: 0 <= k < |u| ==> u[k].code == r[k].code;
    assert Codes(u) == Codes(r);
  }

  /** A row with a new code is appended. */
  lemma UpsertAppends(r: seq<OverviewRow>, rows: seq<OverviewRow>, run: seq<OverviewRow>, x: OverviewRow)
    requires UpsertedFrom(r, rows, run)
    requires x.code !in Codes(r)
    requires Codes(run + [x]) == Codes(run) + {x.code}
    requires Codes(r + [x]) == Codes(r) + {x.code}
    ensures UpsertedFrom(r + [x], rows, run + [x])
  {
    var u := r + [x];
    forall k | 0 <= k < |rows|
      ensures u[k] == Final(run + [x], rows[k])
    {
      LastSnoc(run, x, rows[k].code);
      assert rows[k].code in Codes(rows);
    }
    forall k | |rows| <= k < |u|
      ensures Last(run + [x], u[k].code) == Some(u[k])
    {
      LastSnoc(run, x, u[k].code);
      if k < |r| {
        assert r[k].code in Codes(r);
      }
    }
  }

  /** UpsertAll, characterised: each prior row becomes its final row, and new codes follow. */
  lemma {:induction false} UpsertAllSpec(rows: seq<OverviewRow>, run: seq<OverviewRow>)
    requires UniqueCodes(rows)
    ensures UpsertedFrom(UpsertAll(rows, run), rows, run)
    decreases |run|
  {
    if run == [] {
      assert forall k :: 0 <= k < |rows| ==> Final(run, rows[k]) == rows[k];
    } else {
      var p := run[..|run| - 1];
      UpsertAllSpec(rows, p);
      assert run == p + [run[|run| - 1]];
      UpsertStep(UpsertAll(rows, p), rows, p, run[|run| - 1]);
    }
  }

  /** Writing rows with new, distinct codes appends them in order. */
  lemma {:induction false} UpsertAllFresh(rows: seq<OverviewRow>, run: seq<OverviewRow>)
    requires UniqueCodes(run)
    requires forall k :: 0 <= k < |run| ==> run[k].code !in Codes(rows)
    ensures UpsertAll(rows, run) == rows + run
    decreases |run|
  {
    if run != [] {
      var p := run[..|run| - 1];
      var x := run[|run| - 1];
      assert forall k :: 0 <= k < |p| ==> p[k] == run[k];
      UpsertAllFresh(rows, p);
      FreshIndex(rows, p, x);
      assert UpsertAll(rows, run) == Upsert(rows + p, x);
      assert rows + p + [x] == rows + run;
    }
  }

  /** A code neither in rows nor in p has no position in rows + p. */
  lemma FreshIndex(rows: seq<OverviewRow>, p: seq<OverviewRow>, x: OverviewRow)
    requires x.code !in Codes(rows)
    requires forall k :: 0 <= k < |p| ==> p[k].code != x.code
    ensures IndexOf(rows + p, x.code) == |rows + p|
  {
    forall j | 0 <= j < |rows + p|
      ensures (rows + p)[j].code != x.code
    {
      if j < |rows| {
        assert (rows + p)[j] == rows[j];
        assert rows[j].code in Codes(rows);
      } else {
        assert (rows + p)[j] == p[j - |rows|];
      }
    }
  }

  /** Writing rows whose codes are all present replaces rows in place and adds none. */
  lemma {:induction false} UpsertAllPresent(rows: seq<OverviewRow>, run: seq<OverviewRow>)
    requires UniqueCodes(rows)
    requires Codes(run) <= Codes(rows)
    ensures |UpsertAll(rows, run)| == |rows|
    ensures forall k :: 0 <= k < |rows| ==> UpsertAll(rows, run)[k] == Final(run, rows[k])
    decreases |run|
  {
    if run != [] {
      var p := run[..|run| - 1];
      var x := run[|run| - 1];
      assert run == p + [x];
      CodesSnoc(p, x);
      UpsertAllPresent(rows, p);
      UpsertAllSpec(rows, p);
      var r := UpsertAll(rows, p);
      assert x.code in Codes(r);
      var i := IndexOf(r, x.code);
      forall c {
        LastSnoc(p, x, c);
      }
      forall k | 0 <= k < |rows|
        ensures r[i := x][k] == Final(run, rows[k])
      {
        if rows[k].code == x.code {
          assert r[k].code == x.code;
        }
      }
    }
  }

  /**
   * The merged overview: one row per code of the prior table or this
   * run, the row this run wrote last for a processed code, and the prior
   * row read last otherwise.
   */
  lemma OverviewMerge(prior: seq<OverviewRow>, run: seq<OverviewRow>)
    ensures UniqueCodes(MergedOverview(prior, run))
    ensures Codes(MergedOverview(prior, run)) == Codes(prior) + Codes(run)
    ensures forall k :: 0 <= k < |MergedOverview(prior, run)| && MergedOverview(prior, run)[k].code in Codes(run) ==>
      Last(run, MergedOverview(prior, run)[k].code) == Some(MergedOverview(prior, run)[k])
    ensures forall k :: 0 <= k < |MergedOverview(prior, run)| && MergedOverview(prior, run)[k].code !in Codes(run) ==>
      Last(prior, MergedOverview(prior, run)[k].code) == Some(MergedOverview(prior, run)[k])
  {
    var p := UpsertAll([], prior);
    UpsertAllSpec([], prior);
    UpsertAllSpec(p, run);
    var m := MergedOverview(prior, run);
    forall k | 0 <= k < |m| && m[k].code in Codes(run)
      ensures Last(run, m[k].code) == Some(m[k])
    {
      if k < |p| {
        assert m[k] == Final(run, p[k]);
      }
    }
  }

  /**
   * For a prior table with one row per code (as this program writes it),
   * every prior row keeps its position: a processed code's row is this
   * run's row, an unprocessed code's row is unchanged, and the rows of
   * new codes follow.
   */
  lemma OverviewMergeInPlace(prior: seq<OverviewRow>, run: seq<OverviewRow>)
    requires UniqueCodes(prior)
    ensures |prior| <= |MergedOverview(prior, run)|
    ensures forall k :: 0 <= k < |prior| && prior[k].code in Codes(run) ==>
      Last(run, prior[k].code) == Some(MergedOverview(prior, run)[k])
    ensures forall k :: 0 <= k < |prior| && prior[k].code !in Codes(run) ==> MergedOverview(prior, run)[k] == prior[k]
    ensures forall k :: |prior| <= k < |MergedOverview(prior, run)| ==>
      MergedOverview(prior, run)[k].code !in Codes(prior) && Last(run, MergedOverview(prior, run)[k].code) == Some(MergedOverview(prior, run)[k])
  {
    assert forall k :: 0 <= k < |prior| ==> prior[k].code !in Codes([]);
    UpsertAllFresh([], prior);
    assert UpsertAll([], prior) == prior;
    UpsertAllSpec(prior, run);
  }

  /** Merging this run's overview rows a second time changes nothing. */
  lemma OverviewIdempotent(prior: seq<OverviewRow>, run: seq<OverviewRow>)
    ensures MergedOverview(MergedOverview(prior, run), run) == MergedOverview(prior, run)
  {
    var m := MergedOverview(prior, run);
    OverviewMerge(prior, run);
    UpsertAllOwn(m);
    UpsertAllFixed(m, run);
  }

  /** Reading back a table with one row per code gives the same rows. */
  lemma UpsertAllOwn(m: seq<OverviewRow>)
    requires UniqueCodes(m)
    ensures UpsertAll([], m) == m
  {
    assert forall k :: 0 <= k < |m| ==> m[k].code !in Codes([]);
    UpsertAllFresh([], m);
  }

  /** Writing rows that are already each code's last row changes nothing. */
  lemma UpsertAllFixed(m: seq<OverviewRow>, run: seq<OverviewRow>)
    requires UniqueCodes(m) && Codes(run) <= Codes(m)
    requires forall k :: 0 <= k < |m| && m[k].code in Codes(run) ==> Last(run, m[k].code) == Some(m[k])
    ensures UpsertAll(m, run) == m
  {
    UpsertAllPresent(m, run);
    var r := UpsertAll(m, run);
    forall k | 0 <= k < |m|
      ensures r[k] == m[k]
    {
      assert r[k] == Final(run, m[k]);
    }
  }

  /** The loop at the end of collect() that writes this run's overview rows over the prior ones. */
  method MergeOverview(prior: seq<OverviewRow>, run: seq<OverviewRow>) returns (merged: seq<OverviewRow>)
    ensures merged == MergedOverview(prior, run)
  {
    merged := UpsertAll([], prior);
    for i := 0 to |run|
      invariant merged == UpsertAll(UpsertAll([], prior), run[..i])
    {
      assert run[..i + 1][..i] == run[..i];
      merged := Upsert(merged, run[i]);
    }
    assert run[..|run|] == run;
  }

  // ---------------------------------------------------------------------
  // code_author_overview and code_author_dataset_overview: filter, then append

  function AuthorCode(r: AuthorRow): string { r.code }

  function DatasetCode(r: DatasetRow): string { r.code }

  /** The rows whose code is not processed in this run, in order. */
  function Unprocessed<R>(rows: seq<R>, codeOf: R -> string, codes: set<string>): seq<R>
  {
    if rows == [] then []
    else
      var rest := Unprocessed(rows[..|rows| - 1], codeOf, codes);
      if codeOf(rows[|rows| - 1]) in codes then rest else rest + [rows[|rows| - 1]]
  }

  /** The filter works row by row: it distributes over concatenation. */
  lemma {:induction false} UnprocessedAppend<R>(a: seq<R>, b: seq<R>, codeOf: R -> string, codes: set<string>)
    ensures Unprocessed(a + b, codeOf, codes) == Unprocessed(a, codeOf, codes) + Unprocessed(b, codeOf, codes)
    decreases |b|
  {
    if b == [] {
      assert a + b == a;
    } else {
      var p := b[..|b| - 1];
      UnprocessedAppend(a, p, codeOf, codes);
      assert (a + b)[..|a + b| - 1] == a + p;
    }
  }

  /** The filter keeps exactly the rows whose code is not processed. */
  lemma {:induction false} UnprocessedMembers<R>(rows: seq<R>, codeOf: R -> string, codes: set<string>)
    ensures forall x :: x in Unprocessed(rows, codeOf, codes) <==> x in rows && codeOf(x) !in codes
    decreases |rows|
  {
    if rows != [] {
      var p := rows[..|rows| - 1];
      UnprocessedMembers(p, codeOf, codes);
      assert rows == p + [rows[|rows| - 1]];
    }
  }

  /** No kept row has a processed code. */
  lemma {:induction false} UnprocessedCodes<R>(rows: seq<R>, codeOf: R -> string, codes: set<string>)
    ensures forall k :: 0 <= k < |Unprocessed(rows, codeOf, codes)| ==> codeOf(Unprocessed(rows, codeOf, codes)[k]) !in codes
    decreases |rows|
  {
    if rows != [] {
      UnprocessedCodes(rows[..|rows| - 1], codeOf, codes);
    }
  }

  /** A single row is kept exactly when its code is not processed. */
  lemma UnprocessedSingle<R>(x: R, codeOf: R -> string, codes: set<string>)
    ensures Unprocessed([x], codeOf, codes) == if codeOf(x) in codes then [] else [x]
  {
    assert [x][..0] == [];
  }

  /** Rows with no processed code pass the filter unchanged. */
  lemma {:induction false} UnprocessedKeepsAll<R>(rows: seq<R>, codeOf: R -> string, codes: set<string>)
    requires forall k :: 0 <= k < |rows| ==> codeOf(rows[k]) !in codes
    ensures Unprocessed(rows, codeOf, codes) == rows
    decreases |rows|
  {
    if rows != [] {
      UnprocessedKeepsAll(rows[..|rows| - 1], codeOf, codes);
    }
  }

  /** Rows of processed codes are all dropped. */
  lemma {:induction false} UnprocessedDropsAll<R>(rows: seq<R>, codeOf: R -> string, codes: set<string>)
    requires forall k :: 0 <= k < |rows| ==> codeOf(rows[k]) in codes
    ensures Unprocessed(rows, codeOf, codes) == []
    decreases |rows|
  {
    if rows != [] {
      UnprocessedDropsAll(rows[..|rows| - 1], codeOf, codes);
    }
  }

  /** The prior rows kept, followed by this run's rows. */
  function MergedRows<R>(prior: seq<R>, run: seq<R>, codeOf: R -> string, codes: set<string>): seq<R>
  {
    Unprocessed(prior, codeOf, codes) + run
  }

  /** When this run's rows all have processed codes, merging them a second time changes nothing. */
  lemma MergedRowsIdempotent<R>(prior: seq<R>, run: seq<R>, codeOf: R -> string, codes: set<string>)
    requires forall k :: 0 <= k < |run| ==> codeOf(run[k]) in codes
    ensures MergedRows(MergedRows(prior, run, codeOf, codes), run, codeOf, codes) == MergedRows(prior, run, codeOf, codes)
  {
    var kept := Unprocessed(prior, codeOf, codes);
    UnprocessedAppend(kept, run, codeOf, codes);
    UnprocessedCodes(prior, codeOf, codes);
    UnprocessedKeepsAll(kept, codeOf, codes);
    UnprocessedDropsAll(run, codeOf, codes);
    assert Unprocessed(kept + run, codeOf, codes) == kept + [];
  }

  // ---------------------------------------------------------------------
  // global_author_dataset_overview: recomputed sums, sorted by key

  /** The (main_author, dataset_id) key of global_counts. */
  type Key = (string, string)

  function KeyOf(r: DatasetRow): Key { (r.mainAuthor, r.datasetId) }

  function GlobalKey(r: GlobalRow): Key { (r.mainAuthor, r.datasetId) }

  /** Python's order on pairs of strings: by the first, then by the second. */
  predicate KeyLess(a: Key, b: Key)
  {
    Less(a.0, b.0) || (a.0 == b.0 && Less(a.1, b.1))
  }

  lemma KeyLessIrreflexive(a: Key)
    ensures !KeyLess(a, a)
  {
    LessIrreflexive(a.0);
    LessIrreflexive(a.1);
  }

  lemma KeyLessTransitive(a: Key, b: Key, c: Key)
    requires KeyLess(a, b) && KeyLess(b, c)
    ensures KeyLess(a, c)
  {
    if Less(a.0, b.0) && Less(b.0, c.0) {
      LessTransitive(a.0, b.0, c.0);
    } else if a.0 == b.0 && b.0 == c.0 {
      LessTransitive(a.1, b.1, c.1);
    }
  }

  lemma KeyLessTotal(a: Key, b: Key)
    ensures a == b || KeyLess(a, b) || KeyLess(b, a)
  {
    LessTotal(a.0, b.0);
    LessTotal(a.1, b.1);
  }

  /** The keys strictly increase along the sequence. */
  predicate Increasing(s: seq<Key>)
  {
    forall i, j :: 0 <= i < j < |s| ==> KeyLess(s[i], s[j])
  }

  /** The keys of the rows, each once. */
  function RowKeys(rows: seq<DatasetRow>): set<Key>
  {
    set k | 0 <= k < |rows| :: KeyOf(rows[k])
  }

  /** The keys of global_counts, in the order they were first added. */
  function KeysOf(rows: seq<DatasetRow>): (r: seq<Key>)
    ensures forall i, j :: 0 <= i < j < |r| ==> r[i] != r[j]
    ensures forall key :: key in r <==> key in RowKeys(rows)
  {
    if rows == [] then []
    else
      var prev := KeysOf(rows[..|rows| - 1]);
      var key := KeyOf(rows[|rows| - 1]);
      assert RowKeys(rows) == RowKeys(rows[..|rows| - 1]) + {key} by {
        assert forall k :: 0 <= k < |rows| - 1 ==> rows[..|rows| - 1][k] == rows[k];
      }
      if key in prev then prev else prev + [key]
  }

  /** The sum of n_entries over the rows with the key. */
  function SumFor(rows: seq<DatasetRow>, key: Key): int
  {
    if rows == [] then 0
    else SumFor(rows[..|rows| - 1], key) + (if KeyOf(rows[|rows| - 1]) == key then rows[|rows| - 1].nEntries else 0)
  }

  /** Insert a key into increasing keys. */
  function InsertKey(x: Key, s: seq<Key>): (r: seq<Key>)
    ensures |r| == |s| + 1
    ensures forall y :: y in r <==> y == x || y in s
  {
    if s == [] then [x]
    else if KeyLess(s[0], x) then [s[0]] + InsertKey(x, s[1..])
    else [x] + s
  }

  /** sorted() over keys. */
  function SortKeys(s: seq<Key>): (r: seq<Key>)
    ensures |r| == |s|
    ensures forall y :: y in r <==> y in s
  {
    if s == [] then [] else InsertKey(s[|s| - 1], SortKeys(s[..|s| - 1]))
  }

  lemma {:induction false} InsertKeySorted(x: Key, s: seq<Key>)
    requires Increasing(s) && x !in s
    ensures Increasing(InsertKey(x, s))
    decreases |s|
  {
    if s != [] {
      if KeyLess(s[0], x) {
        InsertKeySorted(x, s[1..]);
        var t := InsertKey(x, s[1..]);
        forall j | 0 <= j < |t|
          ensures KeyLess(s[0], t[j])
        {
          assert t[j] in t;
          if t[j] != x {
            var m :| 0 <= m < |s[1..]| && s[1..][m] == t[j];
            assert s[m + 1] == t[j];
          }
        }
        var r := InsertKey(x, s);
        assert r == [s[0]] + t;
        forall i, j | 0 <= i < j < |r|
          ensures KeyLess(r[i], r[j])
        {
          if i > 0 {
            assert r[i] == t[i - 1] && r[j] == t[j - 1];
          }
        }
      } else {
        KeyLessTotal(s[0], x);
        var r := InsertKey(x, s);
        assert r == [x] + s;
        forall j | 0 <= j < |s|
          ensures KeyLess(x, s[j])
        {
          if j > 0 {
            KeyLessTransitive(x, s[0], s[j]);
          }
        }
        forall i, j | 0 <= i < j < |r|
          ensures KeyLess(r[i], r[j])
        {
          if i > 0 {
            assert r[i] == s[i - 1] && r[j] == s[j - 1];
          }
        }
      }
    }
  }

  /** Sorting distinct keys gives strictly increasing keys. */
  lemma {:induction false} SortKeysSorted(s: seq<Key>)
    requires forall i, j :: 0 <= i < j < |s| ==> s[i] != s[j]
    ensures Increasing(SortKeys(s))
    decreases |s|
  {
    if s != [] {
      var p := s[..|s| - 1];
      SortKeysSorted(p);
      assert s[|s| - 1] !in p;
      InsertKeySorted(s[|s| - 1], SortKeys(p));
    }
  }

  /** The table built from sorted(global_counts.items()). */
  function GlobalTable(rows: seq<DatasetRow>): seq<GlobalRow>
  {
    var ks := SortKeys(KeysOf(rows));
    seq(|ks|, k requires 0 <= k < |ks| => GlobalRow(ks[k].0, ks[k].1, SumFor(rows, ks[k])))
  }

  /**
   * The global table has one row per (main_author, dataset_id) key of
   * the detail rows, in strictly increasing key order, and each row's
   * n_entries is the sum over the detail rows with that key.
   */
  lemma GlobalTableSpec(rows: seq<DatasetRow>)
    ensures forall i, j :: 0 <= i < j < |GlobalTable(rows)| ==> KeyLess(GlobalKey(GlobalTable(rows)[i]), GlobalKey(GlobalTable(rows)[j]))
    ensures forall k :: 0 <= k < |GlobalTable(rows)| ==> GlobalKey(GlobalTable(rows)[k]) in RowKeys(rows)
    ensures forall k :: 0 <= k < |GlobalTable(rows)| ==> GlobalTable(rows)[k].nEntries == SumFor(rows, GlobalKey(GlobalTable(rows)[k]))
    ensures forall key :: key in RowKeys(rows) ==> exists k :: 0 <= k < |GlobalTable(rows)| && GlobalKey(GlobalTable(rows)[k]) == key
  {
    var ks := SortKeys(KeysOf(rows));
    SortKeysSorted(KeysOf(rows));
    var t := GlobalTable(rows);
    assert forall k :: 0 <= k < |t| ==> GlobalKey(t[k]) == ks[k];
    forall key | key in RowKeys(rows)
      ensures exists k :: 0 <= k < |t| && GlobalKey(t[k]) == key
    {
      assert key in ks;
      var k :| 0 <= k < |ks| && ks[k] == key;
      assert GlobalKey(t[k]) == key;
    }
  }

  /** counts and keys are global_counts and its key order after the rows. */
  ghost predicate Tallied(rows: seq<DatasetRow>, counts: map<Key, int>, keys: seq<Key>)
  {
    keys == KeysOf(rows) &&
    (forall key :: key in counts <==> key in keys) &&
    (forall key :: key in counts ==> counts[key] == SumFor(rows, key)) &&
    (forall key :: key !in counts ==> SumFor(rows, key) == 0)
  }

  /** One more row adds its n_entries to its key's count, adding the key when new. */
  lemma TalliedStep(rows: seq<DatasetRow>, i: nat, counts: map<Key, int>, keys: seq<Key>, counts': map<Key, int>, keys': seq<Key>)
    requires i < |rows| && Tallied(rows[..i], counts, keys)
    requires var key := KeyOf(rows[i]);
      counts' == counts[key := (if key in counts then counts[key] else 0) + rows[i].nEntries] &&
      keys' == if key in counts then keys else keys + [key]
    ensures Tallied(rows[..i + 1], counts', keys')
  {
    KeysOfSnoc(rows, i);
    forall key
      ensures SumFor(rows[..i + 1], key) == SumFor(rows[..i], key) + (if KeyOf(rows[i]) == key then rows[i].nEntries else 0)
    {
      SumForSnoc(rows, i, key);
    }
  }

  lemma KeysOfSnoc(rows: seq<DatasetRow>, i: nat)
    requires i < |rows|
    ensures KeysOf(rows[..i + 1]) ==
      if KeyOf(rows[i]) in KeysOf(rows[..i]) then KeysOf(rows[..i]) else KeysOf(rows[..i]) + [KeyOf(rows[i])]
  {
    assert rows[..i + 1][..i] == rows[..i];
  }

  lemma SumForSnoc(rows: seq<DatasetRow>, i: nat, key: Key)
    requires i < |rows|
    ensures SumFor(rows[..i + 1], key) == SumFor(rows[..i], key) + (if KeyOf(rows[i]) == key then rows[i].nEntries else 0)
  {
    assert rows[..i + 1][..i] == rows[..i];
  }

  /** The rows of a table from keys and their counts. */
  function CountsTable(ks: seq<Key>, counts: map<Key, int>): (r: seq<GlobalRow>)
    requires forall key :: key in ks ==> key in counts
    ensures |r| == |ks|
    ensures forall k :: 0 <= k < |ks| ==> r[k] == GlobalRow(ks[k].0, ks[k].1, counts[ks[k]])
  {
    seq(|ks|, k requires 0 <= k < |ks| => GlobalRow(ks[k].0, ks[k].1, counts[ks[k]]))
  }

  /** The table of the tallied counts, in sorted key order, is the global table. */
  lemma TalliedTable(rows: seq<DatasetRow>, counts: map<Key, int>, keys: seq<Key>)
    requires Tallied(rows, counts, keys)
    ensures forall key :: key in SortKeys(keys) ==> key in counts
    ensures CountsTable(SortKeys(keys), counts) == GlobalTable(rows)
  {
  }

  /**
   * The accumulation loop over the merged detail rows into global_counts,
   * then the table of its sorted items.
   */
  method RecomputeGlobal(rows: seq<DatasetRow>) returns (table: seq<GlobalRow>)
    ensures table == GlobalTable(rows)
  {
    var counts: map<Key, int> := map[];
    var keys: seq<Key> := [];
    for i := 0 to |rows|
      invariant Tallied(rows[..i], counts, keys)
    {
      var key := KeyOf(rows[i]);
      var sofar := if key in counts then counts[key] else 0;
      var keys' := if key in counts then keys else keys + [key];
      var counts' := counts[key := sofar + rows[i].nEntries];
      TalliedStep(rows, i, counts, keys, counts', keys');
      counts, keys := counts', keys';
    }
    assert rows[..|rows|] == rows;
    TalliedTable(rows, counts, keys);
    table := CountsTable(SortKeys(keys), counts);
  }

  // ---------------------------------------------------------------------
  // collect()

  /** The four tables, as read from or written to the CSV files. */
  datatype Tables = Tables(
    overview: seq<OverviewRow>,
    authors: seq<AuthorRow>,
    datasets: seq<DatasetRow>,
    global: seq<GlobalRow>)

  /** The set of args.codes. */
  function CodeSet(codes: seq<string>): set<string>
  {
    set k | 0 <= k < |codes| :: codes[k]
  }

  /** The tables collect() writes after a run; the prior global table is not read back. */
  function Merged(prior: Tables, codes: set<string>, run: RunOutput): Tables
  {
    var datasets := MergedRows(prior.datasets, run.datasetRows, DatasetCode, codes);
    Tables(
      MergedOverview(prior.overview, run.overviewRows),
      MergedRows(prior.authors, run.authorRows, AuthorCode, codes),
      datasets,
      GlobalTable(datasets))
  }

  /** What collect() writes: the tables, the entries files, and the two totals of the run metadata. */
  datatype Written = Written(tables: Tables, files: seq<EntriesFile>, codesProcessed: int, totalPicked: int)

  /**
   * collect() over a prior state, given what collect_code returns or
   * raises for each code: the first exception, or everything it writes.
   */
  function CollectOutcome(prior: Tables, codes: seq<string>, outcomes: seq<Result<CodeOutput, CollectError>>): Result<Written, CollectError>
    requires |outcomes| == |codes|
  {
    match RunPrefix(codes, outcomes, |codes|)
    case Failure(e) => Failure(e)
    case Success(run) => Success(Written(Merged(prior, CodeSet(codes), run), run.files, run.codesProcessed, run.totalPicked))
  }

  /** collect(): filter the prior detail rows, run every code, then merge and recompute. */
  method Collect(prior: Tables, codes: seq<string>, s: Settings, dumps: Value -> string, h: Hash,
                 sources: seq<seq<PageResult>>) returns (r: Result<Written, CollectError>)
    requires SourcesFor(codes, sources)
    ensures r == CollectOutcome(prior, codes, Outcomes(codes, s, dumps, h, sources))
  {
    var toProcess := CodeSet(codes);
    var keptAuthors := Unprocessed(prior.authors, AuthorCode, toProcess);
    var keptDatasets := Unprocessed(prior.datasets, DatasetCode, toProcess);
    var run := CollectCodes(codes, s, dumps, h, sources);
    if run.Failure? {
      return Failure(run.error);
    }
    var overview := MergeOverview(prior.overview, run.value.overviewRows);
    var authors := keptAuthors + run.value.authorRows;
    var datasets := keptDatasets + run.value.datasetRows;
    var global := RecomputeGlobal(datasets);
    return Success(Written(Tables(overview, authors, datasets, global), run.value.files, run.value.codesProcessed, run.value.totalPicked));
  }

  /** Running collect() twice with the same results for the same codes writes the same tables. */
  lemma MergedIdempotent(prior: Tables, codes: set<string>, run: RunOutput)
    requires forall k :: 0 <= k < |run.authorRows| ==> run.authorRows[k].code in codes
    requires forall k :: 0 <= k < |run.datasetRows| ==> run.datasetRows[k].code in codes
    ensures Merged(Merged(prior, codes, run), codes, run) == Merged(prior, codes, run)
  {
    OverviewIdempotent(prior.overview, run.overviewRows);
    MergedRowsIdempotent(prior.authors, run.authorRows, AuthorCode, codes);
    MergedRowsIdempotent(prior.datasets, run.datasetRows, DatasetCode, codes);
  }

  /**
   * After a successful run, running it again over the tables it wrote
   * writes them again: collect() over its own output is a fixpoint.
   * Every collect_code outcome satisfies the requirement on the rows (CodeRows).
   */
  lemma CollectIdempotent(prior: Tables, codes: seq<string>, outcomes: seq<Result<CodeOutput, CollectError>>)
    requires |outcomes| == |codes|
    requires forall i :: 0 <= i < |codes| ==> RowsOf(codes[i], outcomes[i])
    requires CollectOutcome(prior, codes, outcomes).Success?
    ensures CollectOutcome(CollectOutcome(prior, codes, outcomes).value.tables, codes, outcomes) == CollectOutcome(prior, codes, outcomes)
  {
    RunRows(codes, outcomes, |codes|);
    RunNoDetail(codes, outcomes, |codes|);
    var run := RunPrefix(codes, outcomes, |codes|).value;
    assert codes[..|codes|] == codes;
    forall k | 0 <= k < |run.authorRows|
      ensures run.authorRows[k].code in CodeSet(codes)
    {
      var c := run.authorRows[k].code;
      assert c in codes;
      var j :| 0 <= j < |codes| && codes[j] == c;
    }
    MergedIdempotent(prior, CodeSet(codes), run);
  }

  /**
   * The run metadata after a successful run: every code was processed,
   * total_picked_entries is the number of entries written to entries
   * files, and the dataset table holds only the prior rows of the other
   * codes, since collect_code returns no dataset rows.
   */
  lemma CollectTotals(prior: Tables, codes: seq<string>, outcomes: seq<Result<CodeOutput, CollectError>>)
    requires |outcomes| == |codes|
    requires forall i :: 0 <= i < |codes| ==> RowsOf(codes[i], outcomes[i])
    requires CollectOutcome(prior, codes, outcomes).Success?
    ensures CollectOutcome(prior, codes, outcomes).value.codesProcessed == |codes|
    ensures CollectOutcome(prior, codes, outcomes).value.totalPicked == FilesTotal(CollectOutcome(prior, codes, outcomes).value.files)
    ensures forall k :: 0 <= k < |CollectOutcome(prior, codes, outcomes).value.files| ==>
      CollectOutcome(prior, codes, outcomes).value.files[k].entries != [] &&
      CollectOutcome(prior, codes, outcomes).value.files[k].code in codes
    ensures CollectOutcome(prior, codes, outcomes).value.tables.datasets == Unprocessed(prior.datasets, DatasetCode, CodeSet(codes))
  {
    RunOverview(codes, outcomes, |codes|);
    RunPicked(codes, outcomes, |codes|);
    RunFiles(codes, outcomes, |codes|);
    RunNoDetail(codes, outcomes, |codes|);
    assert codes[..|codes|] == codes;
  }
}
