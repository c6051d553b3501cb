/** Token usage per job and model (scripts/cron_usage_report.ts). */
module CronUsage {
  import opened Text
  import opened SessionKeys

  /** A field of the log: absent, null, or a number (its integer part). */
  datatype Field = Undefined | Null | Number(n: int)

  datatype Usage = Usage(total: Field, input: Field, output: Field)

  /** A finished run, as it is read from a line of the log. */
  datatype Entry = Entry(ts: int, jobId: string, model: Option<string>, usage: Option<Usage>)

  datatype Query = Query(from: int, to: int, jobId: string, model: string)

  datatype Totals = Totals(runs: nat, missing: nat, input: nat, output: nat, total: nat)

  const ZERO := Totals(0, 0, 0, 0, 0)

  function Plus(a: Totals, b: Totals): Totals {
    Totals(a.runs + b.runs, a.missing + b.missing, a.input + b.input, a.output + b.output, a.total + b.total)
  }

  function ModelOf(e: Entry): string {
    if e.model.None? || TrimJs(e.model.value) == "" then "<unknown>" else TrimJs(e.model.value)
  }

  /** `a ?? b`. */
  function Else(a: Field, b: Field): Field { if a.Number? then a else b }

  predicate HasUsage(e: Entry) {
    e.usage.Some? && Else(e.usage.value.total, Else(e.usage.value.input, e.usage.value.output)) != Undefined
  }

  function Tokens(f: Field, otherwise: nat): nat {
    if !f.Number? then otherwise else if f.n < 0 then 0 else f.n
  }

  predicate Selected(q: Query, e: Entry) {
    && q.from <= e.ts <= q.to
    && (q.jobId != "" ==> e.jobId == q.jobId)
    && (q.model != "" ==> ModelOf(e) == q.model)
  }

  /** What one run adds. */
  function Share(e: Entry): Totals {
    if !HasUsage(e) then Totals(1, 1, 0, 0, 0)
    else
      var input, output := Tokens(e.usage.value.input, 0), Tokens(e.usage.value.output, 0);
      Totals(1, 0, input, output, Tokens(e.usage.value.total, input + output))
  }

  /** The sum over the runs that satisfy `pick`. */
  function Sum(es: seq<Entry>, pick: Entry -> bool): Totals {
    if es == [] then ZERO
    else
      var n := |es| - 1;
      Plus(Sum(es[..n], pick), if pick(es[n]) then Share(es[n]) else ZERO)
  }

  function ForJob(q: Query, job: string): Entry -> bool { (e: Entry) => Selected(q, e) && e.jobId == job }

  function ForModel(q: Query, job: string, model: string): Entry -> bool {
    (e: Entry) => Selected(q, e) && e.jobId == job && ModelOf(e) == model
  }

  datatype Job = Job(totals: Totals, models: map<string, Totals>)

  function TotalOf(r: map<string, Job>, j: string): Totals { if j in r then r[j].totals else ZERO }

  function RowOf(r: map<string, Job>, j: string, m: string): Totals {
    if j in r && m in r[j].models then r[j].models[m] else ZERO
  }

  /** The report holds just the jobs, and per job just the models, that had
      selected runs, each with the sum over those. */
  ghost predicate Reports(q: Query, es: seq<Entry>, r: map<string, Job>) {
    && (forall j :: TotalOf(r, j) == Sum(es, ForJob(q, j)) && (j in r <==> Sum(es, ForJob(q, j)).runs > 0))
    && (forall j, m :: RowOf(r, j, m) == Sum(es, ForModel(q, j, m))
                       && (j in r && m in r[j].models <==> Sum(es, ForModel(q, j, m)).runs > 0))
  }

  ghost function SumRows(rows: map<string, Totals>): Totals
  {
    if rows == map[] then ZERO
    else
      var m :| m in rows;
      Plus(rows[m], SumRows(rows - {m}))
  }

  lemma PlusSwap(a: Totals, b: Totals, c: Totals)
    ensures Plus(a, Plus(b, c)) == Plus(b, Plus(a, c)) && Plus(Plus(a, b), c) == Plus(Plus(a, c), b)
            && Plus(ZERO, c) == c
  {
  }

  lemma {:induction false} SumRowsWithout(rows: map<string, Totals>, m: string)
    requires m in rows
    ensures SumRows(rows) == Plus(rows[m], SumRows(rows - {m}))
    decreases |rows|
  {
    var k :| k in rows && SumRows(rows) == Plus(rows[k], SumRows(rows - {k}));
    if k != m {
      var a, b := rows - {k}, rows - {m};
      SumRowsWithout(a, m);
      SumRowsWithout(b, k);
      assert a - {m} == b - {k} && a[m] == rows[m] && b[k] == rows[k];
      PlusSwap(rows[k], rows[m], SumRows(a - {m}));
    }
  }

  lemma SumRowsUpdate(rows: map<string, Totals>, m: string, more: Totals)
    ensures SumRows(rows[m := Plus(if m in rows then rows[m] else ZERO, more)]) == Plus(SumRows(rows), more)
  {
    hide Plus, SumRows;
    var before := if m in rows then rows[m] else ZERO;
    var after, rest := rows[m := Plus(before, more)], rows - {m};
    SumRowsWithout(after, m);
    assert after - {m} == rest;
    PlusSwap(before, more, SumRows(rest));
    PlusSwap(more, before, SumRows(rest));
    if m in rows { SumRowsWithout(rows, m); } else { assert rest == rows; }
    PlusComm(SumRows(rows), more);
    PlusComm(before, more);
  }

  lemma PlusComm(a: Totals, b: Totals)
    ensures Plus(a, b) == Plus(b, a)
  {
  }

  /** How many of the picked runs have usage. */
  function Counted(es: seq<Entry>, pick: Entry -> bool): nat {
    if es == [] then 0
    else
      var n := |es| - 1;
      Counted(es[..n], pick) + if pick(es[n]) && HasUsage(es[n]) then 1 else 0
  }

  lemma {:induction false} RunsSplit(es: seq<Entry>, pick: Entry -> bool)
    ensures Sum(es, pick).runs == Sum(es, pick).missing + Counted(es, pick)
  {
    if es == [] {
    } else {
      RunsSplit(es[..|es| - 1], pick);
    }
  }

  lemma SumSnoc(es: seq<Entry>, e: Entry, pick: Entry -> bool)
    ensures Sum(es + [e], pick) == Plus(Sum(es, pick), if pick(e) then Share(e) else ZERO)
  {
    assert (es + [e])[..|es|] == es;
  }

  /** The report with a run added to its job and to its row. */
  function Extended(r: map<string, Job>, e: Entry): map<string, Job> {
    var j, m := e.jobId, ModelOf(e);
    r[j := Job(Plus(TotalOf(r, j), Share(e)),
               (if j in r then r[j].models else map[])[m := Plus(RowOf(r, j, m), Share(e))])]
  }

  lemma ExtendedAt(r: map<string, Job>, e: Entry, j: string, m: string)
    ensures var r2 := Extended(r, e);
            && TotalOf(r2, j) == (if j == e.jobId then Plus(TotalOf(r, j), Share(e)) else TotalOf(r, j))
            && (j in r2 <==> j in r || j == e.jobId)
            && RowOf(r2, j, m)
               == (if j == e.jobId && m == ModelOf(e) then Plus(RowOf(r, j, m), Share(e)) else RowOf(r, j, m))
            && (j in r2 && m in r2[j].models <==> (j in r && m in r[j].models) || (j == e.jobId && m == ModelOf(e)))
  {
    hide Share, ModelOf;
  }

  lemma ReportsNext(q: Query, es: seq<Entry>, e: Entry, r: map<string, Job>)
    requires Reports(q, es, r)
    ensures Reports(q, es + [e], if Selected(q, e) then Extended(r, e) else r)
  {
    hide Sum, Share, ModelOf, Extended, TotalOf, RowOf, Selected;
    var r2 := if Selected(q, e) then Extended(r, e) else r;
    ShareCounts(e);
    forall j ensures TotalOf(r2, j) == Sum(es + [e], ForJob(q, j))
                     && (j in r2 <==> Sum(es + [e], ForJob(q, j)).runs > 0)
    {
      SumSnoc(es, e, ForJob(q, j));
      ExtendedAt(r, e, j, "");
      PlusZero(Sum(es, ForJob(q, j)));
    }
    forall j, m
      ensures RowOf(r2, j, m) == Sum(es + [e], ForModel(q, j, m))
      ensures j in r2 && m in r2[j].models <==> Sum(es + [e], ForModel(q, j, m)).runs > 0
    {
      SumSnoc(es, e, ForModel(q, j, m));
      ExtendedAt(r, e, j, m);
      PlusZero(Sum(es, ForModel(q, j, m)));
    }
  }

  lemma PlusZero(a: Totals)
    ensures Plus(a, ZERO) == a
  {
  }

  lemma ShareCounts(e: Entry)
    ensures Share(e).runs == 1
  {
  }

  /** Every job's totals are the sums over its rows. */
  ghost predicate RowsAddUp(r: map<string, Job>) { forall j | j in r :: r[j].totals == SumRows(r[j].models) }

  lemma ExtendedAddsUp(r: map<string, Job>, e: Entry)
    requires RowsAddUp(r)
    ensures RowsAddUp(Extended(r, e))
  {
    hide SumRows, Share, ModelOf, Plus;
    var rows := if e.jobId in r then r[e.jobId].models else map[];
    SumRowsUpdate(rows, ModelOf(e), Share(e));
    NoRows();
  }

  lemma NoRows()
    ensures SumRows(map[]) == ZERO
  {
  }

  /** Counts one run in the totals of its job and in its row. */
  method AddRun(entry: Entry, job: Totals, row: Totals) returns (jobTotals: Totals, modelAgg: Totals)
    ensures jobTotals == Plus(job, Share(entry)) && modelAgg == Plus(row, Share(entry))
  {
    hide Tokens;
    jobTotals := job.(runs := job.runs + 1);
    modelAgg := row.(runs := row.runs + 1);
    if !HasUsage(entry) {
      jobTotals := jobTotals.(missing := jobTotals.missing + 1);
      modelAgg := modelAgg.(missing := modelAgg.missing + 1);
      return;
    }
    var input := Tokens(entry.usage.value.input, 0);
    var output := Tokens(entry.usage.value.output, 0);
    var total := Tokens(entry.usage.value.total, input + output);
    jobTotals := jobTotals.(input := jobTotals.input + input);
    jobTotals := jobTotals.(output := jobTotals.output + output);
    jobTotals := jobTotals.(total := jobTotals.total + total);
    modelAgg := modelAgg.(input := modelAgg.input + input);
    modelAgg := modelAgg.(output := modelAgg.output + output);
    modelAgg := modelAgg.(total := modelAgg.total + total);
  }

  method Aggregate(q: Query, entries: seq<Entry>) returns (totalsByJob: map<string, Job>)
    ensures Reports(q, entries, totalsByJob) && RowsAddUp(totalsByJob)
  {
    hide Reports, RowsAddUp, SumRows, Selected, Share, Plus, ModelOf, Sum, Extended;
    totalsByJob := map[];
    NothingReported(q);
    for i := 0 to |entries|
      invariant Reports(q, entries[..i], totalsByJob) && RowsAddUp(totalsByJob)
    {
      var entry := entries[i];
      assert entries[..i + 1] == entries[..i] + [entry];
      ReportsNext(q, entries[..i], entry, totalsByJob);
      ExtendedAddsUp(totalsByJob, entry);
      if !Selected(q, entry) {
        continue;
      }
      var jobId, model := entry.jobId, ModelOf(entry);
      var jobAgg := if jobId in totalsByJob then totalsByJob[jobId] else Job(ZERO, map[]);
      var jobTotals, modelAgg :=
          AddRun(entry, jobAgg.totals, if model in jobAgg.models then jobAgg.models[model] else ZERO);
      ExtendedIs(totalsByJob, entry, jobTotals, modelAgg);
      totalsByJob := totalsByJob[jobId := Job(jobTotals, jobAgg.models[model := modelAgg])];
    }
    assert entries[..|entries|] == entries;
  }

  lemma ExtendedIs(r: map<string, Job>, e: Entry, jobTotals: Totals, modelAgg: Totals)
    requires jobTotals == Plus(TotalOf(r, e.jobId), Share(e))
             && modelAgg == Plus(RowOf(r, e.jobId, ModelOf(e)), Share(e))
    ensures var jobAgg := if e.jobId in r then r[e.jobId] else Job(ZERO, map[]);
            Extended(r, e) == r[e.jobId := Job(jobTotals, jobAgg.models[ModelOf(e) := modelAgg])]
  {
    hide Share, ModelOf, Plus;
  }

  lemma NothingReported(q: Query)
    ensures Reports(q, [], map[]) && RowsAddUp(map[])
  {
  }

  /** In every report each job's runs and tokens are the sums over its models,
      and its runs are those without usage plus those counted. */
  lemma ReportBalances(q: Query, es: seq<Entry>, r: map<string, Job>, j: string)
    requires Reports(q, es, r) && RowsAddUp(r) && j in r
    ensures r[j].totals == SumRows(r[j].models)
    ensures r[j].totals.runs == r[j].totals.missing + Counted(es, ForJob(q, j))
    ensures forall m | m in r[j].models ::
            r[j].models[m].runs == r[j].models[m].missing + Counted(es, ForModel(q, j, m))
  {
    hide Sum, SumRows, Counted;
    RunsSplit(es, ForJob(q, j));
    assert TotalOf(r, j) == Sum(es, ForJob(q, j));
    forall m | m in r[j].models ensures r[j].models[m].runs == r[j].models[m].missing + Counted(es, ForModel(q, j, m)) {
      RunsSplit(es, ForModel(q, j, m));
      assert RowOf(r, j, m) == Sum(es, ForModel(q, j, m));
    }
  }

  // ---- what one run is worth ----

  /** A number of tokens, at least 0; anything else counts as 0. */
  function Worth(f: Field): nat { if f.Number? && f.n > 0 then f.n else 0 }

  /** Models are named without outer spaces, and a run without one is a run of the
      model <unknown>. */
  lemma ModelIsTrimmed(e: Entry)
    ensures ModelOf(e) != "" && TrimJs(ModelOf(e)) == ModelOf(e)
    ensures e.model.Some? && TrimJs(e.model.value) != "" ==> ModelOf(e) == TrimJs(e.model.value)
    ensures ModelOf(e.(model := None)) == ModelOf(e.(model := Some(""))) == ModelOf(e.(model := Some("<unknown>")))
         == "<unknown>"
  {
    assert TrimJs("<unknown>") == "<unknown>" && TrimJs("") == "";
    if e.model.Some? { TrimTwice(e.model.value); }
  }

  /** Input and output are taken each from its own field, the total from its own
      or else as their sum; a run has usage when one of them is a number, or the
      output is null. */
  lemma ShareIs(e: Entry)
    ensures Share(e).runs == 1 && Share(e).missing == if HasUsage(e) then 0 else 1
    ensures HasUsage(e) <==>
              e.usage.Some? && (e.usage.value.total.Number? || e.usage.value.input.Number?
                                || e.usage.value.output != Undefined)
    ensures e.usage.Some? ==>
              var u := e.usage.value;
              && Share(e).input == Worth(u.input) && Share(e).output == Worth(u.output)
              && Share(e).total == if u.total.Number? then Worth(u.total) else Worth(u.input) + Worth(u.output)
  {
  }

  /** The field of every picked run, added up. */
  function SumOf(es: seq<Entry>, pick: Entry -> bool, field: Totals -> nat): nat {
    if es == [] then 0
    else SumOf(es[..|es| - 1], pick, field) + if pick(es[|es| - 1]) then field(Share(es[|es| - 1])) else 0
  }

  lemma {:induction false} SumByField(es: seq<Entry>, pick: Entry -> bool)
    ensures Sum(es, pick).runs == SumOf(es, pick, (t: Totals) => t.runs)
    ensures Sum(es, pick).input == SumOf(es, pick, (t: Totals) => t.input)
    ensures Sum(es, pick).output == SumOf(es, pick, (t: Totals) => t.output)
    ensures Sum(es, pick).total == SumOf(es, pick, (t: Totals) => t.total)
  {
    hide Share;
    if es == [] {
    } else {
      SumByField(es[..|es| - 1], pick);
    }
  }

  lemma {:induction false} SomePicked(es: seq<Entry>, pick: Entry -> bool)
    ensures Sum(es, pick).runs > 0 <==> exists i :: 0 <= i < |es| && pick(es[i])
  {
    hide HasUsage;
    if es == [] {
    } else {
      var n := |es| - 1;
      SomePicked(es[..n], pick);
      hide Share, Sum;
      RunsSnoc(es, pick);
      assert forall i | 0 <= i < n :: es[..n][i] == es[i];
    }
  }

  lemma RunsSnoc(es: seq<Entry>, pick: Entry -> bool)
    requires es != []
    ensures Sum(es, pick).runs == Sum(es[..|es| - 1], pick).runs + if pick(es[|es| - 1]) then 1 else 0
  {
    hide HasUsage;
  }

  /** A job is in the report if and only if a run of it is in the time asked for,
      both ends included, and fits the filters on job and model. */
  lemma JobReportedIff(q: Query, es: seq<Entry>, r: map<string, Job>, j: string)
    requires Reports(q, es, r)
    ensures j in r <==>
            exists i :: 0 <= i < |es| && es[i].jobId == j && q.from <= es[i].ts <= q.to
                        && (q.jobId == "" || q.jobId == j) && (q.model == "" || q.model == ModelOf(es[i]))
  {
    SomePicked(es, ForJob(q, j));
    hide Sum, ModelOf;
    assert forall i | 0 <= i < |es| :: ForJob(q, j)(es[i]) <==> Selected(q, es[i]) && es[i].jobId == j;
  }
}
