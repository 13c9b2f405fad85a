/** The validation workflow over a store: looking a data point up and
    running the rules on it, the status transitions (review, validate,
    reject, outdated), batch validation and the automatic pass over pending
    high-confidence data points. */
module Workflow {
  import opened Common
  import opened Schema
  import opened Store
  import opened ValidationRules

  /** `validate_data_point` searches the newest 1000 data points only. */
  const LookupLimit := 1000

  /** The note written on a data point validated automatically. */
  const AutoNote := "Auto-validated: high confidence, passed all checks"

  /** The reviewer name recorded when automatic validation defers to a person. */
  const AutoReviewer := "auto"

  /** The pending data points the automatic pass looks at, at most 100. */
  const PendingOnly := RowFilter(None, None, None, Some(Pending))
  const AutoLimit := 100

  /** Whether `id` is among the newest `LookupLimit` of `rowCount` rows. */
  predicate InWindow(rowCount: nat, id: int) {
    1 <= id <= rowCount && id > rowCount - LookupLimit
  }

  function IdIs(id: int): View -> bool {
    (v: View) => v.row.id == id
  }

  function Outside(rowCount: nat): int -> bool {
    (id: int) => !InWindow(rowCount, id)
  }

  function Inside(rowCount: nat): int -> bool {
    (id: int) => InWindow(rowCount, id)
  }

  /** The data point `validate_data_point(id)` finds, if any. */
  function Lookup(t: Tables, id: int): Option<View> {
    if InWindow(|t.rows|, id) then Some(ViewOf(t, t.rows[id - 1])) else None
  }

  /** The search of `validate_data_point` over the newest 1000 data points
      finds an id exactly when it lies in the window, and then finds the
      joined row with that id. */
  lemma LookupFinds(t: Tables, id: int)
    requires WellFormed(t)
    ensures var q := Query(t, NoFilter, LookupLimit);
            var pos := FirstWhere(q, IdIs(id));
            && (pos.Some? <==> InWindow(|t.rows|, id))
            && (pos.Some? ==> Lookup(t, id) == Some(q[pos.value]))
  {
    var q := Query(t, NoFilter, LookupLimit);
    var n := |t.rows|;
    NewestRows(t);
    if InWindow(n, id) {
      assert q[n - id] == ViewOf(t, t.rows[id - 1]);
      assert IdIs(id)(q[n - id]);
      forall j | 0 <= j < n - id
        ensures !IdIs(id)(q[j])
      {
        assert q[j].row.id == n - j;
      }
      FirstWhereAt(q, IdIs(id), n - id);
    } else {
      forall j | 0 <= j < |q|
        ensures !IdIs(id)(q[j])
      {
        assert q[j].row.id == n - j;
      }
    }
  }

  /** Without filters the query gives the newest rows in reverse order of
      insertion: position k holds the row with id n - k. */
  lemma NewestRows(t: Tables)
    requires WellFormed(t)
    ensures var q := Query(t, NoFilter, LookupLimit);
            && |q| == (if |t.rows| <= LookupLimit then |t.rows| else LookupLimit)
            && forall k :: 0 <= k < |q| ==>
                 q[k] == ViewOf(t, t.rows[|t.rows| - 1 - k]) && q[k].row.id == |t.rows| - k
  {
    var p := RowPred(t, NoFilter);
    var all := NewestFirst(t.rows, p);
    NewestFirstAll(t.rows, p);
    var q := Query(t, NoFilter, LookupLimit);
    ViewsAt(t, Take(all, LookupLimit));
    forall k | 0 <= k < |q|
      ensures q[k] == ViewOf(t, t.rows[|t.rows| - 1 - k])
    {
      assert Take(all, LookupLimit)[k] == all[k];
    }
  }

  /** What `validate_data_point(id)` returns on a store in state `t`. */
  function Validation(t: Tables, rules: seq<Rule>, id: int, year: int): ValidationResult {
    match Lookup(t, id)
    case None => NotFound(id)
    case Some(dp) => Assess(rules, id, dp, year)
  }

  /** An id outside the window is rejected whatever the rules; under the
      default rules nothing else is. */
  lemma ValidationRejects(t: Tables, rules: seq<Rule>, id: int, year: int)
    ensures !InWindow(|t.rows|, id) ==>
              Validation(t, rules, id, year) == NotFound(id) && Validation(t, rules, id, year).recommendation == Reject
    ensures NeverRejectsFound(rules) ==>
              (Validation(t, rules, id, year).recommendation == Reject <==> !InWindow(|t.rows|, id))
  {
  }

  /** The validation of an id depends only on the taxonomy, the number of
      rows and the row with that id. */
  lemma ValidationFrame(t: Tables, u: Tables, rules: seq<Rule>, id: int, year: int)
    requires u.sectors == t.sectors && u.subcategories == t.subcategories
    requires u.dimensions == t.dimensions && u.sources == t.sources
    requires |u.rows| == |t.rows|
    requires 1 <= id <= |t.rows| ==> u.rows[id - 1] == t.rows[id - 1]
    ensures Validation(u, rules, id, year) == Validation(t, rules, id, year)
  {
  }

  /** Validating twice with the same validator, time and no notes is
      validating once. */
  lemma ValidateIdempotent(r: Row, validator: string, now: Timestamp)
    ensures ApplyValidation(ApplyValidation(r, Validated, validator, None, now), Validated, validator, None, now)
            == ApplyValidation(r, Validated, validator, None, now)
  {
  }

  /** What the automatic pass does to a pending data point of high
      confidence: validate it when no error rule fails, otherwise put it in
      review under the automatic reviewer. */
  function AutoDecision(t: Tables, rules: seq<Rule>, year: int, r: Row, validator: string,
                        now: Timestamp): Row {
    if Validation(t, rules, r.id, year).passed
    then ApplyValidation(r, Validated, validator, Some(AutoNote), now)
    else ApplyValidation(r, InReview, AutoReviewer, Some("Review started by " + AutoReviewer), now)
  }

  function IsHigh(v: View): bool {
    v.row.confidence == High
  }

  function AutoPasses(t: Tables, rules: seq<Rule>, year: int): View -> bool {
    (v: View) => v.row.confidence == High && Validation(t, rules, v.row.id, year).passed
  }

  /** Whether one of the first `upto` scanned data points has this id. */
  predicate Scanned(scan: seq<View>, upto: nat, id: int) {
    exists m :: 0 <= m < upto && m < |scan| && scan[m].row.id == id
  }

  class ValidationWorkflow {
    const db: Database
    const rules: seq<Rule>

    /** The rules given, or the default rules when none (or none at all)
        are given. */
    constructor (db: Database, rules: Option<seq<Rule>>)
      ensures this.db == db
      ensures this.rules == RulesOrDefault(rules)
    {
      this.db := db;
      this.rules := RulesOrDefault(rules);
    }

    /** `validate_data_point`: reads the newest 1000 data points, takes the
        first with the id, and runs every rule on it. */
    method ValidateDataPoint(id: int, currentYear: int) returns (result: ValidationResult)
      requires db.Valid()
      ensures result == Validation(db.Current(), rules, id, currentYear)
    {
      var points := db.GetDataPoints(NoFilter, LookupLimit);
      var k := 0;
      while k < |points| && points[k].row.id != id
        invariant 0 <= k <= |points|
        invariant forall j :: 0 <= j < k ==> points[j].row.id != id
      {
        k := k + 1;
      }
      LookupFinds(db.Current(), id);
      if k == |points| {
        result := NotFound(id);
      } else {
        FirstWhereAt(points, IdIs(id), k);
        result := CheckRules(rules, id, points[k], currentYear);
      }
    }

    /** `start_review`: the data point goes to review under the reviewer. */
    method StartReview(id: int, reviewer: string, now: Timestamp) returns (ok: bool)
      requires db.Valid()
      modifies db
      ensures db.Valid()
      ensures db.sectors == old(db.sectors) && db.subcategories == old(db.subcategories)
      ensures db.dimensions == old(db.dimensions) && db.sources == old(db.sources)
      ensures ok <==> 1 <= id <= |old(db.rows)|
      ensures db.rows == UpdatedRows(old(db.rows), id, InReview, reviewer,
                                     Some("Review started by " + reviewer), now)
      ensures db.log == UpdatedLog(old(db.log), old(db.rows), id, InReview, reviewer, now)
    {
      ok := db.UpdateDataPointValidation(id, InReview, reviewer, Some("Review started by " + reviewer), now);
    }

    /** `validate_item`: the rules are run first, but their verdict does
        not stop the update; the notes are kept unless new ones are given. */
    method ValidateItem(id: int, validator: string, notes: Option<string>, currentYear: int,
                        now: Timestamp) returns (ok: bool)
      requires db.Valid()
      modifies db
      ensures db.Valid()
      ensures db.sectors == old(db.sectors) && db.subcategories == old(db.subcategories)
      ensures db.dimensions == old(db.dimensions) && db.sources == old(db.sources)
      ensures ok <==> 1 <= id <= |old(db.rows)|
      ensures db.rows == UpdatedRows(old(db.rows), id, Validated, validator, notes, now)
      ensures db.log == UpdatedLog(old(db.log), old(db.rows), id, Validated, validator, now)
    {
      var checked := ValidateDataPoint(id, currentYear);
      ok := db.UpdateDataPointValidation(id, Validated, validator, notes, now);
    }

    /** `reject_item`: the reason goes into the notes. */
    method RejectItem(id: int, validator: string, reason: string, now: Timestamp) returns (ok: bool)
      requires db.Valid()
      modifies db
      ensures db.Valid()
      ensures db.sectors == old(db.sectors) && db.subcategories == old(db.subcategories)
      ensures db.dimensions == old(db.dimensions) && db.sources == old(db.sources)
      ensures ok <==> 1 <= id <= |old(db.rows)|
      ensures db.rows == UpdatedRows(old(db.rows), id, Rejected, validator, Some("Rejected: " + reason), now)
      ensures db.log == UpdatedLog(old(db.log), old(db.rows), id, Rejected, validator, now)
    {
      ok := db.UpdateDataPointValidation(id, Rejected, validator, Some("Rejected: " + reason), now);
    }

    /** `mark_outdated`: recorded as done by the system; an absent or empty
        reason gives the stock note. */
    method MarkOutdated(id: int, reason: Option<string>, now: Timestamp) returns (ok: bool)
      requires db.Valid()
      modifies db
      ensures db.Valid()
      ensures db.sectors == old(db.sectors) && db.subcategories == old(db.subcategories)
      ensures db.dimensions == old(db.dimensions) && db.sources == old(db.sources)
      ensures ok <==> 1 <= id <= |old(db.rows)|
      ensures db.rows == UpdatedRows(old(db.rows), id, Outdated, "system",
                                     Some(if Given(reason) then reason.value else "Marked outdated by system"), now)
      ensures db.log == UpdatedLog(old(db.log), old(db.rows), id, Outdated, "system", now)
    {
      var note := if Given(reason) then reason.value else "Marked outdated by system";
      ok := db.UpdateDataPointValidation(id, Outdated, "system", Some(note), now);
    }

    /** One id of `batch_validate`: validated unless the rules recommend
        rejecting it. */
    method BatchStep(ghost t0: Tables, id: int, validator: string, currentYear: int, now: Timestamp)
      returns (done: bool)
      requires db.Valid()
      requires db.sectors == t0.sectors && db.subcategories == t0.subcategories
      requires db.dimensions == t0.dimensions && db.sources == t0.sources
      modifies db
      ensures db.Valid()
      ensures db.sectors == old(db.sectors) && db.subcategories == old(db.subcategories)
      ensures db.dimensions == old(db.dimensions) && db.sources == old(db.sources)
      ensures done <==> Validation(old(db.Current()), rules, id, currentYear).recommendation != Reject
      ensures done ==> InWindow(|old(db.rows)|, id)
      ensures NeverRejectsFound(rules) && InWindow(|old(db.rows)|, id) ==> done
      ensures db.rows == if done then UpdatedRows(old(db.rows), id, Validated, validator, None, now)
                         else old(db.rows)
      ensures db.log == if done then UpdatedLog(old(db.log), old(db.rows), id, Validated, validator, now)
                        else old(db.log)
      ensures Accepted(old(db.rows), t0.rows, Accepts(t0, rules, currentYear)) ==>
                Accepted(db.rows, t0.rows, Accepts(t0, rules, currentYear))
      ensures Accepted(old(db.rows), t0.rows, Accepts(t0, rules, currentYear)) && done ==>
                Accepts(t0, rules, currentYear)(id)
    {
      var result := ValidateDataPoint(id, currentYear);
      ValidationRejects(db.Current(), rules, id, currentYear);
      ghost var before := db.rows;
      if result.recommendation != Reject {
        done := ValidateItem(id, validator, None, currentYear, now);
      } else {
        done := false;
      }
      if Accepted(before, t0.rows, Accepts(t0, rules, currentYear)) {
        assert db.Current().(rows := before) == t0.(rows := before);
        AcceptedStep(before, t0, rules, currentYear, id, done, validator, now);
        if done && before[id - 1] == t0.rows[id - 1] {
          ValidationFrame(t0, t0.(rows := before), rules, id, currentYear);
        }
      }
    }

    /** `batch_validate`: every id is either validated or counted as
        failed. An id is only validated when it lies in the lookup window,
        and then its row ends up validated by the validator however often
        the id is listed. Under rules that never reject a data point that was
        found (the default rules are such) exactly the ids outside the window
        fail, and every row in the window with a listed id is validated. */
    method BatchValidate(ids: seq<int>, validator: string, currentYear: int, now: Timestamp)
      returns (validated: nat, failed: nat)
      requires db.Valid()
      modifies db
      ensures db.Valid()
      ensures db.sectors == old(db.sectors) && db.subcategories == old(db.subcategories)
      ensures db.dimensions == old(db.dimensions) && db.sources == old(db.sources)
      ensures validated + failed == |ids|
      ensures |db.rows| == |old(db.rows)|
      ensures |db.log| == |old(db.log)| + validated
      ensures old(db.log) <= db.log
      ensures forall k :: |old(db.log)| <= k < |db.log| ==>
                BatchEntry(db.log[k], old(db.Current()), rules, currentYear, ids, validator, now)
      ensures NeverRejectsFound(rules) ==>
                RecordIds(db.log[|old(db.log)|..]) == Filter(ids, Inside(|old(db.rows)|))
      ensures failed >= |Filter(ids, Outside(|old(db.rows)|))|
      ensures forall j :: 0 <= j < |db.rows| ==>
                db.rows[j] == old(db.rows)[j]
                || (j + 1 in ids && InWindow(|old(db.rows)|, j + 1)
                    && db.rows[j] == ApplyValidation(old(db.rows)[j], Validated, validator, None, now))
      ensures forall j :: 0 <= j < |db.rows| && db.rows[j] != old(db.rows)[j] ==>
                Validation(old(db.Current()), rules, j + 1, currentYear).recommendation != Reject
      ensures NeverRejectsFound(rules) ==> failed == |Filter(ids, Outside(|old(db.rows)|))|
      ensures NeverRejectsFound(rules) ==> forall j :: 0 <= j < |db.rows| ==>
                db.rows[j] == if j + 1 in ids && InWindow(|old(db.rows)|, j + 1)
                              then ApplyValidation(old(db.rows)[j], Validated, validator, None, now)
                              else old(db.rows)[j]
    {
      ghost var t0 := db.Current();
      ghost var log0 := db.log;
      validated, failed := 0, 0;
      for i := 0 to |ids|
        invariant BatchProgress(t0, log0, ids, i, validated, failed, validator, currentYear, now)
      {
        validated, failed := BatchRound(t0, log0, ids, i, validated, failed, validator, currentYear, now);
      }
      BatchLogDone(db.log, log0, t0, rules, currentYear, ids, validator, now);
      assert ids[..|ids|] == ids;
    }

    /** The state while `batch_validate` runs, after the first `i` ids. */
    ghost predicate BatchProgress(t0: Tables, log0: seq<LogEntry>, ids: seq<int>, i: nat, validated: nat,
                                  failed: nat, validator: string, year: int, now: Timestamp)
      reads db
    {
      && i <= |ids|
      && db.Valid()
      && db.sectors == t0.sectors && db.subcategories == t0.subcategories
      && db.dimensions == t0.dimensions && db.sources == t0.sources
      && validated + failed == i
      && |db.log| == |log0| + validated
      && BatchLog(db.log, log0, t0, rules, year, ids[..i], validator, now)
      && failed >= |Filter(ids[..i], Outside(|t0.rows|))|
      && BatchRows(db.rows, t0.rows, ids[..i], validator, now)
      && Accepted(db.rows, t0.rows, Accepts(t0, rules, year))
      && (NeverRejectsFound(rules) ==> failed == |Filter(ids[..i], Outside(|t0.rows|))|)
      && (NeverRejectsFound(rules) ==> BatchRowsExact(db.rows, t0.rows, ids[..i], validator, now))
      && (NeverRejectsFound(rules) ==> BatchLogExact(db.log, log0, |t0.rows|, ids[..i]))
    }

    /** One id of `batch_validate`, with its counting. */
    method BatchRound(ghost t0: Tables, ghost log0: seq<LogEntry>, ids: seq<int>, i: nat, validated: nat,
                      failed: nat, validator: string, year: int, now: Timestamp)
      returns (validated': nat, failed': nat)
      requires i < |ids|
      requires BatchProgress(t0, log0, ids, i, validated, failed, validator, year, now)
      modifies db
      ensures BatchProgress(t0, log0, ids, i + 1, validated', failed', validator, year, now)
    {
      ghost var n := |t0.rows|;
      assert ids[..i + 1] == ids[..i] + [ids[i]];
      FilterSnoc(ids[..i], ids[i], Outside(n));
      ghost var before, beforeLog := db.rows, db.log;
      var done := BatchStep(t0, ids[i], validator, year, now);
      BatchRowsStep(before, t0.rows, ids[..i], ids[i], done, validator, now);
      BatchLogStep(beforeLog, log0, t0, rules, year, ids[..i], ids[i], done, before, validator, now);
      if NeverRejectsFound(rules) {
        BatchRowsExactStep(before, t0.rows, ids[..i], ids[i], done, validator, now);
        BatchLogExactStep(beforeLog, log0, n, ids[..i], ids[i], done, before, validator, now);
      }
      validated' := validated + if done then 1 else 0;
      failed' := failed + if done then 0 else 1;
    }

    /** One data point of `auto_validate_high_confidence`: a high-confidence
        one is validated when it passes and put in review otherwise; any
        other is left alone (counted as flagged by the caller). */
    method AutoStep(ghost t0: Tables, dp: View, validator: string, currentYear: int, now: Timestamp)
      returns (passed: bool)
      requires db.Valid()
      requires db.sectors == t0.sectors && db.subcategories == t0.subcategories
      requires db.dimensions == t0.dimensions && db.sources == t0.sources
      requires |db.rows| == |t0.rows|
      requires 1 <= dp.row.id <= |db.rows| && db.rows[dp.row.id - 1] == dp.row == t0.rows[dp.row.id - 1]
      modifies db
      ensures db.Valid()
      ensures db.sectors == old(db.sectors) && db.subcategories == old(db.subcategories)
      ensures db.dimensions == old(db.dimensions) && db.sources == old(db.sources)
      ensures passed <==> AutoPasses(t0, rules, currentYear)(dp)
      ensures db.rows == if IsHigh(dp)
                         then old(db.rows)[dp.row.id - 1 := Decider(t0, rules, currentYear, validator, now)(dp.row)]
                         else old(db.rows)
      ensures db.log == if IsHigh(dp)
                        then old(db.log) + [AutoEntry(|old(db.log)| + 1, dp, passed, validator, now)]
                        else old(db.log)
    {
      ValidationFrame(t0, db.Current(), rules, dp.row.id, currentYear);
      passed := false;
      if dp.row.confidence == High {
        var result := ValidateDataPoint(dp.row.id, currentYear);
        var ok;
        if result.passed {
          ok := ValidateItem(dp.row.id, validator, Some(AutoNote), currentYear, now);
          passed := true;
        } else {
          ok := StartReview(dp.row.id, AutoReviewer, now);
        }
      }
    }

    /** `AutoStep` on the data point at position `k` of the scan, with the
        change log read as the run of entries written for the scan so far. */
    method AutoStepLogged(ghost t0: Tables, ghost log0: seq<LogEntry>, pending: seq<View>, k: nat,
                          validator: string, currentYear: int, now: Timestamp)
      returns (passed: bool)
      requires k < |pending|
      requires db.Valid()
      requires db.sectors == t0.sectors && db.subcategories == t0.subcategories
      requires db.dimensions == t0.dimensions && db.sources == t0.sources
      requires |db.rows| == |t0.rows|
      requires 1 <= pending[k].row.id <= |db.rows|
      requires db.rows[pending[k].row.id - 1] == pending[k].row == t0.rows[pending[k].row.id - 1]
      requires db.log == log0 + AutoEntries(Filter(pending[..k], IsHigh), |log0|, AutoPasses(t0, rules, currentYear),
                                            validator, now)
      modifies db
      ensures db.Valid()
      ensures db.sectors == old(db.sectors) && db.subcategories == old(db.subcategories)
      ensures db.dimensions == old(db.dimensions) && db.sources == old(db.sources)
      ensures passed <==> AutoPasses(t0, rules, currentYear)(pending[k])
      ensures db.rows == if IsHigh(pending[k])
                         then old(db.rows)[pending[k].row.id - 1 :=
                                             Decider(t0, rules, currentYear, validator, now)(pending[k].row)]
                         else old(db.rows)
      ensures db.log == log0 + AutoEntries(Filter(pending[..k + 1], IsHigh), |log0|,
                                           AutoPasses(t0, rules, currentYear), validator, now)
    {
      passed := AutoStep(t0, pending[k], validator, currentYear, now);
      AutoLogNext(old(db.log), db.log, log0, pending, k, AutoPasses(t0, rules, currentYear), passed,
                  validator, now);
    }

    /** The state of the automatic pass after `k` scanned data points. */
    ghost predicate AutoProgress(t0: Tables, log0: seq<LogEntry>, pending: seq<View>, k: nat,
                                 autoValidated: nat, flagged: nat, year: int, validator: string,
                                 now: Timestamp)
      reads db
    {
      && k <= |pending|
      && db.Valid()
      && db.sectors == t0.sectors && db.subcategories == t0.subcategories
      && db.dimensions == t0.dimensions && db.sources == t0.sources
      && autoValidated + flagged == k
      && autoValidated == |Filter(pending[..k], AutoPasses(t0, rules, year))|
      && db.log == log0 + AutoEntries(Filter(pending[..k], IsHigh), |log0|, AutoPasses(t0, rules, year),
                                      validator, now)
      && AutoRows(db.rows, t0.rows, pending, k, Decider(t0, rules, year, validator, now))
    }

    /** One scanned data point of the automatic pass, with its counting. */
    method AutoRound(ghost t0: Tables, ghost log0: seq<LogEntry>, pending: seq<View>, k: nat,
                     autoValidated: nat, flagged: nat, year: int, validator: string, now: Timestamp)
      returns (autoValidated': nat, flagged': nat)
      requires ScanRows(t0, pending) && k < |pending|
      requires AutoProgress(t0, log0, pending, k, autoValidated, flagged, year, validator, now)
      modifies db
      ensures AutoProgress(t0, log0, pending, k + 1, autoValidated', flagged', year, validator, now)
    {
      FilterCountStep(pending, k, AutoPasses(t0, rules, year));
      ScanPosition(t0, pending, k);
      AutoRowsStep(db.rows, t0.rows, pending, k, Decider(t0, rules, year, validator, now));
      var passed := AutoStepLogged(t0, log0, pending, k, validator, year, now);
      autoValidated' := autoValidated + if passed then 1 else 0;
      flagged' := flagged + if passed then 0 else 1;
    }

    /** `auto_validate_high_confidence`: scans the newest 100 pending data
        points; every one is either auto-validated or flagged for review;
        exactly the high-confidence ones are written, each as
        `AutoDecision` says, judged on the store as it was before the pass,
        and the log gains one entry for each of them, in scan order. */
    method AutoValidateHighConfidence(validator: string, currentYear: int, now: Timestamp)
      returns (autoValidated: nat, flagged: nat)
      requires db.Valid()
      modifies db
      ensures db.Valid()
      ensures db.sectors == old(db.sectors) && db.subcategories == old(db.subcategories)
      ensures db.dimensions == old(db.dimensions) && db.sources == old(db.sources)
      ensures var scan := Query(old(db.Current()), PendingOnly, AutoLimit);
              && autoValidated + flagged == |scan|
              && autoValidated == |Filter(scan, AutoPasses(old(db.Current()), rules, currentYear))|
              && db.log == old(db.log) + AutoEntries(Filter(scan, IsHigh), |old(db.log)|,
                                                      AutoPasses(old(db.Current()), rules, currentYear),
                                                      validator, now)
      ensures |db.rows| == |old(db.rows)|
      ensures forall j :: 0 <= j < |db.rows| ==>
                db.rows[j] == if old(db.rows)[j].confidence == High
                                 && Scanned(Query(old(db.Current()), PendingOnly, AutoLimit), AutoLimit, j + 1)
                              then AutoDecision(old(db.Current()), rules, currentYear, old(db.rows)[j], validator, now)
                              else old(db.rows)[j]
    {
      ghost var t0 := db.Current();
      ghost var log0 := db.log;
      var pending := db.GetDataPoints(PendingOnly, AutoLimit);
      QueryScanRows(t0, PendingOnly, AutoLimit);
      autoValidated, flagged := 0, 0;
      for k := 0 to |pending|
        invariant AutoProgress(t0, log0, pending, k, autoValidated, flagged, currentYear, validator, now)
      {
        autoValidated, flagged := AutoRound(t0, log0, pending, k, autoValidated, flagged, currentYear,
                                            validator, now);
      }
      assert pending[..|pending|] == pending;
      AutoRowsFinal(db.rows, t0.rows, pending, Decider(t0, rules, currentYear, validator, now));
    }
  }

  /** The rows while `batch_validate` runs: each is as it was, or validated
      by the validator with its id among those done and in the window. */
  ghost predicate BatchRows(rows: seq<Row>, rows0: seq<Row>, done: seq<int>, validator: string,
                            now: Timestamp) {
    |rows| == |rows0|
    && forall j :: 0 <= j < |rows0| ==>
         rows[j] == rows0[j]
         || (j + 1 in done && InWindow(|rows0|, j + 1)
             && rows[j] == ApplyValidation(rows0[j], Validated, validator, None, now))
  }

  /** The same, when every id in the window gets validated. */
  ghost predicate BatchRowsExact(rows: seq<Row>, rows0: seq<Row>, done: seq<int>, validator: string,
                                 now: Timestamp) {
    |rows| == |rows0|
    && forall j :: 0 <= j < |rows0| ==>
         rows[j] == if j + 1 in done && InWindow(|rows0|, j + 1)
                    then ApplyValidation(rows0[j], Validated, validator, None, now)
                    else rows0[j]
  }

  lemma BatchRowsStep(rows: seq<Row>, rows0: seq<Row>, done: seq<int>, id: int, validated: bool,
                      validator: string, now: Timestamp)
    requires BatchRows(rows, rows0, done, validator, now)
    requires validated ==> InWindow(|rows0|, id)
    ensures BatchRows(if validated then UpdatedRows(rows, id, Validated, validator, None, now) else rows,
                      rows0, done + [id], validator, now)
  {
    if validated {
      ValidateIdempotent(rows0[id - 1], validator, now);
    }
  }

  lemma BatchRowsExactStep(rows: seq<Row>, rows0: seq<Row>, done: seq<int>, id: int, validated: bool,
                           validator: string, now: Timestamp)
    requires BatchRowsExact(rows, rows0, done, validator, now)
    requires validated <==> InWindow(|rows0|, id)
    ensures BatchRowsExact(if validated then UpdatedRows(rows, id, Validated, validator, None, now) else rows,
                           rows0, done + [id], validator, now)
  {
    if validated {
      ValidateIdempotent(rows0[id - 1], validator, now);
    }
  }

  /** Every row that differs from its state in `t0` belongs to an id that
      validation against `t0` does not reject. */
  ghost predicate Accepted(rows: seq<Row>, rows0: seq<Row>, accepts: int -> bool) {
    |rows| == |rows0|
    && forall j :: 0 <= j < |rows| && rows[j] != rows0[j] ==> accepts(j + 1)
  }

  /** Whether validation against a fixed store accepts an id. */
  function Accepts(t: Tables, rules: seq<Rule>, year: int): int -> bool {
    (id: int) => Validation(t, rules, id, year).recommendation != Reject
  }

  /** Validating an id that is not rejected in the current state keeps
      `Accepted`: if its row is still as in `t0`, so is its validation. */
  lemma AcceptedStep(rows: seq<Row>, t0: Tables, rules: seq<Rule>, year: int, id: int, validated: bool,
                     validator: string, now: Timestamp)
    requires Accepted(rows, t0.rows, Accepts(t0, rules, year))
    requires validated ==> Validation(t0.(rows := rows), rules, id, year).recommendation != Reject
    ensures Accepted(if validated then UpdatedRows(rows, id, Validated, validator, None, now) else rows,
                     t0.rows, Accepts(t0, rules, year))
  {
    if validated && 1 <= id <= |rows| && rows[id - 1] == t0.rows[id - 1] {
      ValidationFrame(t0, t0.(rows := rows), rules, id, year);
    }
  }

  /** `AutoDecision` on a fixed store, as a function of the row. */
  function Decider(t: Tables, rules: seq<Rule>, year: int, validator: string, now: Timestamp): Row -> Row {
    (r: Row) => AutoDecision(t, rules, year, r, validator, now)
  }

  /** The rows while the automatic pass runs: those of high confidence
      among the first `k` scanned are decided, the rest are as they were. */
  ghost predicate AutoRows(rows: seq<Row>, rows0: seq<Row>, scan: seq<View>, k: nat, decide: Row -> Row) {
    |rows| == |rows0|
    && forall j :: 0 <= j < |rows0| ==>
         rows[j] == if rows0[j].confidence == High && Scanned(scan, k, j + 1)
                    then decide(rows0[j])
                    else rows0[j]
  }

  lemma AutoRowsStep(rows: seq<Row>, rows0: seq<Row>, scan: seq<View>, k: nat, decide: Row -> Row)
    requires k < |scan|
    requires 1 <= scan[k].row.id <= |rows0| && rows0[scan[k].row.id - 1] == scan[k].row
    requires !Scanned(scan, k, scan[k].row.id)
    requires AutoRows(rows, rows0, scan, k, decide)
    ensures rows[scan[k].row.id - 1] == scan[k].row
    ensures AutoRows(if IsHigh(scan[k]) then rows[scan[k].row.id - 1 := decide(scan[k].row)] else rows,
                     rows0, scan, k + 1, decide)
  {
    var id := scan[k].row.id;
    forall x | 1 <= x <= |rows0|
      ensures Scanned(scan, k + 1, x) <==> Scanned(scan, k, x) || x == id
    {
      if Scanned(scan, k + 1, x) && x != id {
        var m :| 0 <= m < k + 1 && m < |scan| && scan[m].row.id == x;
        assert m < k;
      }
    }
  }

  lemma AutoRowsFinal(rows: seq<Row>, rows0: seq<Row>, scan: seq<View>, decide: Row -> Row)
    requires |scan| <= AutoLimit
    requires AutoRows(rows, rows0, scan, |scan|, decide)
    ensures AutoRows(rows, rows0, scan, AutoLimit, decide)
  {
  }

  /** Counting the matches of one more element of a prefix. */
  lemma FilterNext<T>(xs: seq<T>, k: nat, p: T -> bool)
    requires k < |xs|
    ensures Filter(xs[..k + 1], p) == Filter(xs[..k], p) + if p(xs[k]) then [xs[k]] else []
  {
    assert xs[..k + 1] == xs[..k] + [xs[k]];
    FilterSnoc(xs[..k], xs[k], p);
  }

  lemma FilterCountStep<T>(xs: seq<T>, k: nat, p: T -> bool)
    requires k < |xs|
    ensures |Filter(xs[..k + 1], p)| == |Filter(xs[..k], p)| + if p(xs[k]) then 1 else 0
  {
    assert xs[..k + 1] == xs[..k] + [xs[k]];
    FilterSnoc(xs[..k], xs[k], p);
  }

  /** A scan as a query returns it: each scanned data point carries the row
      stored under its id, and the ids strictly decrease. */
  ghost predicate ScanRows(t: Tables, scan: seq<View>) {
    && (forall k :: 0 <= k < |scan| ==>
          1 <= scan[k].row.id <= |t.rows| && t.rows[scan[k].row.id - 1] == scan[k].row)
    && (forall a, b :: 0 <= a < b < |scan| ==> scan[a].row.id > scan[b].row.id)
  }

  lemma QueryScanRows(t: Tables, f: RowFilter, limit: int)
    requires WellFormed(t)
    ensures ScanRows(t, Query(t, f, limit))
  {
    var scan := Query(t, f, limit);
    QueryNewestFirst(t, f, limit);
    forall k | 0 <= k < |scan|
      ensures 1 <= scan[k].row.id <= |t.rows| && t.rows[scan[k].row.id - 1] == scan[k].row
    {
      QuerySound(t, f, limit, k);
      var idx :| 0 <= idx < |t.rows| && t.rows[idx] == scan[k].row;
    }
  }

  /** A scanned data point sits at its id's position in the table, and no
      earlier scanned one has its id. */
  lemma ScanPosition(t: Tables, scan: seq<View>, k: nat)
    requires ScanRows(t, scan)
    requires k < |scan|
    ensures 1 <= scan[k].row.id <= |t.rows| && t.rows[scan[k].row.id - 1] == scan[k].row
    ensures !Scanned(scan, k, scan[k].row.id)
  {
  }

  // ---------------------------------------------------------------- change log of the batch drivers

  /** The record ids of a run of log entries, in order. */
  function RecordIds(es: seq<LogEntry>): (ids: seq<int>)
    ensures |ids| == |es|
  {
    if es == [] then [] else RecordIds(es[..|es| - 1]) + [es[|es| - 1].recordId]
  }

  lemma RecordIdsSnoc(es: seq<LogEntry>, e: LogEntry)
    ensures RecordIds(es + [e]) == RecordIds(es) + [e.recordId]
  {
    assert (es + [e])[..|es|] == es;
  }

  /** An entry `batch_validate` appends: the update of a listed id in the
      window to validated by the validator, an id that validation against the
      store as the batch found it does not reject. */
  ghost predicate BatchEntry(e: LogEntry, t0: Tables, rules: seq<Rule>, year: int, ids: seq<int>,
                             validator: string, now: Timestamp) {
    && e.recordId in ids && InWindow(|t0.rows|, e.recordId)
    && Accepts(t0, rules, year)(e.recordId)
    && e.oldValue.Some? && e.oldValue.value.StatusWas?
    && e == UpdateEntry(e.id, e.recordId, e.oldValue.value.status, Validated, validator, now)
  }

  /** The change log while `batch_validate` runs: the earlier entries are
      kept and every new one is a batch entry for an id done so far. */
  ghost predicate BatchLog(log: seq<LogEntry>, log0: seq<LogEntry>, t0: Tables, rules: seq<Rule>, year: int,
                           done: seq<int>, validator: string, now: Timestamp) {
    && log0 <= log
    && forall k :: |log0| <= k < |log| ==> BatchEntry(log[k], t0, rules, year, done, validator, now)
  }

  /** The same, when every id in the window gets validated: the new entries
      name exactly the ids done so far that lie in the window, in order. */
  ghost predicate BatchLogExact(log: seq<LogEntry>, log0: seq<LogEntry>, rowCount: nat, done: seq<int>) {
    log0 <= log && RecordIds(log[|log0|..]) == Filter(done, Inside(rowCount))
  }

  lemma BatchLogDone(log: seq<LogEntry>, log0: seq<LogEntry>, t0: Tables, rules: seq<Rule>, year: int,
                     ids: seq<int>, validator: string, now: Timestamp)
    requires BatchLog(log, log0, t0, rules, year, ids[..|ids|], validator, now)
    requires NeverRejectsFound(rules) ==> BatchLogExact(log, log0, |t0.rows|, ids[..|ids|])
    ensures BatchLog(log, log0, t0, rules, year, ids, validator, now)
    ensures NeverRejectsFound(rules) ==> BatchLogExact(log, log0, |t0.rows|, ids)
  {
    assert ids[..|ids|] == ids;
  }

  lemma BatchLogStep(log: seq<LogEntry>, log0: seq<LogEntry>, t0: Tables, rules: seq<Rule>, year: int,
                     done: seq<int>, id: int, validated: bool, rows: seq<Row>, validator: string,
                     now: Timestamp)
    requires BatchLog(log, log0, t0, rules, year, done, validator, now)
    requires validated ==> InWindow(|t0.rows|, id) && Accepts(t0, rules, year)(id) && 1 <= id <= |rows|
    ensures BatchLog(if validated then UpdatedLog(log, rows, id, Validated, validator, now) else log,
                     log0, t0, rules, year, done + [id], validator, now)
  {
    var log' := if validated then UpdatedLog(log, rows, id, Validated, validator, now) else log;
    forall k | |log0| <= k < |log'|
      ensures BatchEntry(log'[k], t0, rules, year, done + [id], validator, now)
    {
      if k < |log| {
        assert log'[k] == log[k];
      }
    }
  }

  lemma BatchLogExactStep(log: seq<LogEntry>, log0: seq<LogEntry>, rowCount: nat, done: seq<int>, id: int,
                          validated: bool, rows: seq<Row>, validator: string, now: Timestamp)
    requires BatchLogExact(log, log0, rowCount, done)
    requires validated <==> InWindow(rowCount, id)
    requires validated ==> 1 <= id <= |rows|
    ensures BatchLogExact(if validated then UpdatedLog(log, rows, id, Validated, validator, now) else log,
                          log0, rowCount, done + [id])
  {
    FilterSnoc(done, id, Inside(rowCount));
    if validated {
      var e := UpdateEntry(|log| + 1, id, rows[id - 1].status, Validated, validator, now);
      assert (log + [e])[|log0|..] == log[|log0|..] + [e];
      RecordIdsSnoc(log[|log0|..], e);
    }
  }

  /** The entry the automatic pass appends for a high-confidence data point:
      validated by the validator when it passes, put in review by the
      automatic reviewer otherwise. */
  function AutoEntry(logId: nat, v: View, passes: bool, validator: string, now: Timestamp): LogEntry {
    if passes
    then UpdateEntry(logId, v.row.id, v.row.status, Validated, validator, now)
    else UpdateEntry(logId, v.row.id, v.row.status, InReview, AutoReviewer, now)
  }

  /** The entries the automatic pass appends for the high-confidence data
      points `highs`, in order, numbered on from `base`; `passes` says which
      of them pass validation. */
  function AutoEntries(highs: seq<View>, base: nat, passes: View -> bool, validator: string,
                       now: Timestamp): (es: seq<LogEntry>)
    ensures |es| == |highs|
  {
    if highs == [] then []
    else AutoEntries(highs[..|highs| - 1], base, passes, validator, now)
         + [AutoEntry(base + |highs|, highs[|highs| - 1], passes(highs[|highs| - 1]), validator, now)]
  }

  /** Entry `m` of the run is the one for `highs[m]`, with log id `base + m + 1`. */
  lemma {:induction false} AutoEntriesAt(highs: seq<View>, base: nat, passes: View -> bool, validator: string,
                                         now: Timestamp, m: nat)
    requires m < |highs|
    ensures AutoEntries(highs, base, passes, validator, now)[m]
            == AutoEntry(base + m + 1, highs[m], passes(highs[m]), validator, now)
    decreases |highs|
  {
    if m < |highs| - 1 {
      AutoEntriesAt(highs[..|highs| - 1], base, passes, validator, now, m);
    }
  }

  lemma AutoLogNext(log: seq<LogEntry>, log': seq<LogEntry>, log0: seq<LogEntry>, pending: seq<View>, k: nat,
                    passes: View -> bool, passed: bool, validator: string, now: Timestamp)
    requires k < |pending|
    requires log == log0 + AutoEntries(Filter(pending[..k], IsHigh), |log0|, passes, validator, now)
    requires passed == passes(pending[k])
    requires log' == if IsHigh(pending[k])
                     then log + [AutoEntry(|log| + 1, pending[k], passed, validator, now)]
                     else log
    ensures log' == log0 + AutoEntries(Filter(pending[..k + 1], IsHigh), |log0|, passes, validator, now)
  {
    FilterNext(pending, k, IsHigh);
    var highs := Filter(pending[..k], IsHigh);
    if IsHigh(pending[k]) {
      var es := AutoEntries(highs, |log0|, passes, validator, now);
      var e := AutoEntry(|log| + 1, pending[k], passed, validator, now);
      AutoEntriesSnoc(highs, pending[k], |log0|, passes, validator, now);
      assert log + [e] == log0 + (es + [e]);
    } else {
      assert highs + [] == highs;
    }
  }

  lemma AutoEntriesSnoc(highs: seq<View>, v: View, base: nat, passes: View -> bool, validator: string,
                        now: Timestamp)
    ensures AutoEntries(highs + [v], base, passes, validator, now)
            == AutoEntries(highs, base, passes, validator, now)
               + [AutoEntry(base + |highs| + 1, v, passes(v), validator, now)]
  {
    assert (highs + [v])[..|highs|] == highs;
  }
}
