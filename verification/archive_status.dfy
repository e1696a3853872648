/**
 * The archive check of the CI job: which files of a forecast run have reached
 * the FDB. For each ensemble member of a model's collection, one parameter per
 * file type is looked up and the steps it is listed for give one row of 0/1
 * cells. Times are seconds since 1970-01-01T00:00 UTC.
 */
module ArchiveStatus {
  import opened Wrappers
  import opened Decimal
  import Calendar
  import Describe

  /** The ensemble collection of one model; interval and delay are in seconds. */
  datatype Collection = Collection(model: string, members: nat, steps: nat, forecasts: nat, interval: int, delay: int)

  /** A parameter whose presence stands for one file type (the file suffix). */
  datatype Parameter = Parameter(id: string, fileSuffix: string, isConstant: bool, fieldFilter: map<string, string>)

  /** [member][step] cells: 1 when the data is archived, 0 when not. */
  type Matrix = seq<seq<int>>

  /** The status per file suffix, in insertion order (a Python dict). */
  type Status = seq<(string, Matrix)>

  datatype CheckError =
    | UnknownModel(model: string)            // KeyError from COLLECTIONS[model]
    | QueryFailed(cause: Describe.DescribeError)

  /** What get_param_status asks of the FDB for one member: list_all_values("step", **filter). */
  type StepQuery = Describe.Request -> Result<map<string, set<Describe.Value>>, Describe.DescribeError>

  /** The query the check makes: list_all_values as written. */
  function AsWrittenQuery(fdb: Describe.Listing): StepQuery
  {
    (f: Describe.Request) => Describe.ListAllValuesAsWritten(["step"], f, fdb)
  }

  /** The query with list_all_values corrected to skip a requested key it never created. */
  function CorrectedQuery(fdb: Describe.Listing): StepQuery
  {
    (f: Describe.Request) => Describe.ListAllValuesSpec(["step"], f, fdb)
  }

  const HOUR := 3600
  const MINUTE := 60

  const ICON_CH1 := Collection("icon-ch1-eps", 11, 33, 8, 3 * HOUR, 2 * HOUR + 30 * MINUTE)
  const ICON_CH2 := Collection("icon-ch2-eps", 21, 121, 4, 6 * HOUR, 3 * HOUR + 30 * MINUTE)

  const COLLECTIONS: map<string, Collection> := map["icon-ch1-eps" := ICON_CH1, "icon-ch2-eps" := ICON_CH2]

  /** Constant fields ('c'), pressure-level fields ('p') and the model-level file (no suffix). */
  const PARAMS: seq<Parameter> := [
    Parameter("500004", "c", true, map["levtype" := "sfc"]),
    Parameter("500006", "p", false, map["levelist" := "200", "levtype" := "pl"]),
    Parameter("500001", "", false, map["levelist" := "1", "levtype" := "ml"])
  ]

  /** Every collection is stored under its own model name and runs at a positive interval. */
  lemma CollectionsWellFormed()
    ensures forall m | m in COLLECTIONS :: COLLECTIONS[m].model == m && COLLECTIONS[m].interval > 0
  {
  }

  /**
   * last_run_time: the latest run start on the interval grid (counted from the epoch)
   * that is no later than `from` less the archival delay.
   */
  function LastRunTime(c: Collection, from: int): (r: int)
    requires c.interval > 0
    ensures r % c.interval == 0
    ensures r <= from - c.delay < r + c.interval
  {
    var q := (from - c.delay) / c.interval;
    DivModUnique(q * c.interval, c.interval, q, 0);
    q * c.interval
  }

  /** The run start is the only grid point with the adjusted time in its interval. */
  lemma LastRunTimeUnique(c: Collection, from: int, k: int)
    requires c.interval > 0
    requires k * c.interval <= from - c.delay < k * c.interval + c.interval
    ensures LastRunTime(c, from) == k * c.interval
  {
    DivModUnique(from - c.delay, c.interval, k, from - c.delay - k * c.interval);
  }

  /** A later time never maps to an earlier run. */
  lemma LastRunTimeMonotone(c: Collection, a: int, b: int)
    requires c.interval > 0 && a <= b
    ensures LastRunTime(c, a) <= LastRunTime(c, b)
  {
    var i := c.interval;
    var qa, qb := (a - c.delay) / i, (b - c.delay) / i;
    assert qa * i <= a - c.delay <= b - c.delay < qb * i + i;
    if qa > qb {
      assert (qa - qb) * i == qa * i - qb * i;
      MulAtLeast(qa - qb, i);
    }
    if qa < qb {
      assert (qb - qa) * i == qb * i - qa * i;
      MulAtLeast(qb - qa, i);
    }
  }

  /** 2025-01-01T00:00Z. */
  const NEW_YEAR_2025 := 1735689600

  /**
   * ICON-CH1 runs every three hours with a delay of 2h30: from 02:45 to 04:45 the latest run is
   * 00:00, at 05:45 it is 03:00, at 08:45 and 09:45 it is 06:00; at 03:30 it is still 00:00.
   */
  lemma LastRunTimeCh1Examples()
    ensures LastRunTime(ICON_CH1, NEW_YEAR_2025 + 2 * HOUR + 45 * MINUTE) == NEW_YEAR_2025
    ensures LastRunTime(ICON_CH1, NEW_YEAR_2025 + 3 * HOUR + 45 * MINUTE) == NEW_YEAR_2025
    ensures LastRunTime(ICON_CH1, NEW_YEAR_2025 + 4 * HOUR + 45 * MINUTE) == NEW_YEAR_2025
    ensures LastRunTime(ICON_CH1, NEW_YEAR_2025 + 5 * HOUR + 45 * MINUTE) == NEW_YEAR_2025 + 3 * HOUR
    ensures LastRunTime(ICON_CH1, NEW_YEAR_2025 + 8 * HOUR + 45 * MINUTE) == NEW_YEAR_2025 + 6 * HOUR
    ensures LastRunTime(ICON_CH1, NEW_YEAR_2025 + 9 * HOUR + 45 * MINUTE) == NEW_YEAR_2025 + 6 * HOUR
    ensures LastRunTime(ICON_CH1, NEW_YEAR_2025 + 3 * HOUR + 30 * MINUTE) == NEW_YEAR_2025
  {
    assert NEW_YEAR_2025 == 160712 * (3 * HOUR);
    LastRunTimeUnique(ICON_CH1, NEW_YEAR_2025 + 2 * HOUR + 45 * MINUTE, 160712);
    LastRunTimeUnique(ICON_CH1, NEW_YEAR_2025 + 3 * HOUR + 45 * MINUTE, 160712);
    LastRunTimeUnique(ICON_CH1, NEW_YEAR_2025 + 4 * HOUR + 45 * MINUTE, 160712);
    LastRunTimeUnique(ICON_CH1, NEW_YEAR_2025 + 5 * HOUR + 45 * MINUTE, 160713);
    LastRunTimeUnique(ICON_CH1, NEW_YEAR_2025 + 8 * HOUR + 45 * MINUTE, 160714);
    LastRunTimeUnique(ICON_CH1, NEW_YEAR_2025 + 9 * HOUR + 45 * MINUTE, 160714);
    LastRunTimeUnique(ICON_CH1, NEW_YEAR_2025 + 3 * HOUR + 30 * MINUTE, 160712);
  }

  /**
   * ICON-CH2 runs every six hours with a delay of 3h30: at 03:45, 04:45, 06:45 and 08:45 the
   * latest run is 00:00, at 09:45 and 10:45 it is 06:00.
   */
  lemma LastRunTimeCh2Examples()
    ensures LastRunTime(ICON_CH2, NEW_YEAR_2025 + 3 * HOUR + 45 * MINUTE) == NEW_YEAR_2025
    ensures LastRunTime(ICON_CH2, NEW_YEAR_2025 + 4 * HOUR + 45 * MINUTE) == NEW_YEAR_2025
    ensures LastRunTime(ICON_CH2, NEW_YEAR_2025 + 6 * HOUR + 45 * MINUTE) == NEW_YEAR_2025
    ensures LastRunTime(ICON_CH2, NEW_YEAR_2025 + 8 * HOUR + 45 * MINUTE) == NEW_YEAR_2025
    ensures LastRunTime(ICON_CH2, NEW_YEAR_2025 + 9 * HOUR + 45 * MINUTE) == NEW_YEAR_2025 + 6 * HOUR
    ensures LastRunTime(ICON_CH2, NEW_YEAR_2025 + 10 * HOUR + 45 * MINUTE) == NEW_YEAR_2025 + 6 * HOUR
  {
    assert NEW_YEAR_2025 == 80356 * (6 * HOUR);
    LastRunTimeUnique(ICON_CH2, NEW_YEAR_2025 + 3 * HOUR + 45 * MINUTE, 80356);
    LastRunTimeUnique(ICON_CH2, NEW_YEAR_2025 + 4 * HOUR + 45 * MINUTE, 80356);
    LastRunTimeUnique(ICON_CH2, NEW_YEAR_2025 + 6 * HOUR + 45 * MINUTE, 80356);
    LastRunTimeUnique(ICON_CH2, NEW_YEAR_2025 + 8 * HOUR + 45 * MINUTE, 80356);
    LastRunTimeUnique(ICON_CH2, NEW_YEAR_2025 + 9 * HOUR + 45 * MINUTE, 80357);
    LastRunTimeUnique(ICON_CH2, NEW_YEAR_2025 + 10 * HOUR + 45 * MINUTE, 80357);
  }

  /** The request fields shared by every member: parameter, model, date and time. */
  function BaseFilter(model: string, p: Parameter, date: string, time: string): Describe.Request
  {
    map["param" := p.id, "model" := model, "date" := date, "time" := time]
  }

  /** The FDB request for one member: the shared fields, the member number and the field filter. */
  function MemberFilter(model: string, p: Parameter, date: string, time: string, member: nat): Describe.Request
  {
    BaseFilter(model, p, date, time)["number" := ToDecimal(member)] + p.fieldFilter
  }

  /** Setting a key again and merging the same dictionary again forgets the earlier setting. */
  lemma Reassign(base: map<string, string>, extra: map<string, string>, key: string, x: string, y: string)
    ensures (base[key := x] + extra)[key := y] + extra == base[key := y] + extra
  {
    var lhs, rhs := (base[key := x] + extra)[key := y] + extra, base[key := y] + extra;
    assert lhs.Keys == rhs.Keys;
    forall k | k in lhs
      ensures lhs[k] == rhs[k]
    {
      if k in extra {
        assert lhs[k] == extra[k] == rhs[k];
      } else if k == key {
        assert lhs[k] == y == rhs[k];
      } else {
        assert lhs[k] == base[k] == rhs[k];
      }
    }
  }

  /**
   * The filter dictionary is reused from member to member: overwriting the number and
   * merging the field filter again gives the same request as a fresh one.
   */
  lemma ReusedFilter(model: string, p: Parameter, date: string, time: string, member: nat)
    ensures MemberFilter(model, p, date, time, member)["number" := ToDecimal(member + 1)] + p.fieldFilter
         == MemberFilter(model, p, date, time, member + 1)
  {
    Reassign(BaseFilter(model, p, date, time), p.fieldFilter, "number", ToDecimal(member), ToDecimal(member + 1));
  }

  /** The number of step cells per member: one for a constant parameter, every step otherwise. */
  function Width(c: Collection, p: Parameter): nat
  {
    if p.isConstant then 1 else c.steps
  }

  /** `.get("step", [])` on the values listed for a member. */
  function StepsPresent(values: map<string, set<Describe.Value>>): set<Describe.Value>
  {
    if "step" in values then values["step"] else {}
  }

  /** One row: for each step below width, 1 when its decimal form is among the listed steps. */
  function StepsRow(present: set<Describe.Value>, width: nat): seq<int>
  {
    seq(width, s requires 0 <= s < width => if Describe.Str(ToDecimal(s)) in present then 1 else 0)
  }

  /** The rows of members 0 .. n-1 as `rowOf` gives them, in member order; the first failing member stops the loop. */
  function Rows(rowOf: nat -> Result<seq<int>, CheckError>, n: nat): Result<Matrix, CheckError>
  {
    if n == 0 then Success([])
    else
      match Rows(rowOf, n - 1)
      case Failure(e) => Failure(e)
      case Success(rows) =>
        match rowOf(n - 1)
        case Failure(e) => Failure(e)
        case Success(row) => Success(rows + [row])
  }

  /** The row of one member: the steps the FDB lists for its request, as 0/1 cells. */
  function MemberRow(query: StepQuery, model: string, p: Parameter, date: string, time: string, width: nat, member: nat)
    : Result<seq<int>, CheckError>
  {
    match query(MemberFilter(model, p, date, time, member))
    case Failure(e) => Failure(QueryFailed(e))
    case Success(values) => Success(StepsRow(StepsPresent(values), width))
  }

  /** MemberRow as a function of the member alone. */
  function MemberRowOf(query: StepQuery, model: string, p: Parameter, date: string, time: string, width: nat)
    : nat -> Result<seq<int>, CheckError>
  {
    (member: nat) => MemberRow(query, model, p, date, time, width, member)
  }

  /** The rows of members 0 .. n-1 of one parameter. */
  function ParamRows(query: StepQuery, model: string, p: Parameter, date: string, time: string, width: nat, n: nat)
    : Result<Matrix, CheckError>
  {
    Rows(MemberRowOf(query, model, p, date, time, width), n)
  }

  /** get_param_status as a value: an unknown model raises, otherwise one row per member. */
  function ParamStatusOf(query: StepQuery, model: string, p: Parameter, date: string, time: string)
    : Result<Matrix, CheckError>
  {
    if model !in COLLECTIONS then Failure(UnknownModel(model))
    else ParamRows(query, model, p, date, time, Width(COLLECTIONS[model], p), COLLECTIONS[model].members)
  }

  /** get_param_status: looks up the collection, then queries the steps listed for each member. */
  method GetParamStatus(query: StepQuery, model: string, p: Parameter, date: string, time: string)
    returns (r: Result<Matrix, CheckError>)
    ensures r == ParamStatusOf(query, model, p, date, time)
  {
    if model !in COLLECTIONS {
      return Failure(UnknownModel(model));
    }
    var numMembers := COLLECTIONS[model].members;
    var numSteps: nat;
    if p.isConstant {
      numSteps := 1;
    } else {
      numSteps := COLLECTIONS[model].steps;
    }
    r := MemberRows(query, model, p, date, time, numSteps, numMembers);
  }

  /** The member loop of get_param_status, reusing one filter dictionary for every member. */
  method MemberRows(query: StepQuery, model: string, p: Parameter, date: string, time: string, numSteps: nat, numMembers: nat)
    returns (r: Result<Matrix, CheckError>)
    ensures r == ParamRows(query, model, p, date, time, numSteps, numMembers)
  {
    ghost var rowOf := MemberRowOf(query, model, p, date, time, numSteps);
    var filterValues := BaseFilter(model, p, date, time);
    var status: Matrix := [];
    var member: nat := 0;
    while member < numMembers
      invariant member <= numMembers
      invariant Rows(rowOf, member) == Success(status)
      invariant member > 0 ==> filterValues == MemberFilter(model, p, date, time, member - 1)
      invariant member == 0 ==> filterValues == BaseFilter(model, p, date, time)
    {
      if member > 0 {
        ReusedFilter(model, p, date, time, member - 1);
      }
      filterValues := filterValues["number" := ToDecimal(member)];
      filterValues := filterValues + p.fieldFilter;
      var values := query(filterValues);
      MemberRowOfListing(query, model, p, date, time, numSteps, member, values);
      RowsStep(rowOf, member, status);
      if values.Failure? {
        RowsFailure(rowOf, member + 1, numMembers);
        return Failure(QueryFailed(values.error));
      }
      var stepsPresent := StepsPresent(values.value);
      var stepsStatus := StepsRow(stepsPresent, numSteps);
      status := status + [stepsStatus];
      member := member + 1;
    }
    return Success(status);
  }

  /** The row of a member, given what the FDB lists for its request. */
  lemma MemberRowOfListing(query: StepQuery, model: string, p: Parameter, date: string, time: string, width: nat,
                           member: nat, values: Result<map<string, set<Describe.Value>>, Describe.DescribeError>)
    requires values == query(MemberFilter(model, p, date, time, member))
    ensures MemberRowOf(query, model, p, date, time, width)(member)
      == if values.Failure? then Failure(QueryFailed(values.error)) else Success(StepsRow(StepsPresent(values.value), width))
  {
  }

  /** One more member: its failure, or its row appended. */
  lemma RowsStep(rowOf: nat -> Result<seq<int>, CheckError>, n: nat, rows: Matrix)
    requires Rows(rowOf, n) == Success(rows)
    ensures Rows(rowOf, n + 1)
      == if rowOf(n).Failure? then Failure(rowOf(n).error) else Success(rows + [rowOf(n).value])
  {
  }

  /** A failing member is the result of every longer member loop. */
  lemma {:induction false} RowsFailure(rowOf: nat -> Result<seq<int>, CheckError>, n: nat, m: nat)
    requires n <= m && Rows(rowOf, n).Failure?
    ensures Rows(rowOf, m) == Rows(rowOf, n)
    decreases m - n
  {
    if n < m {
      RowsFailure(rowOf, n, m - 1);
    }
  }

  /** The field filter only names keys of the FDB schema. */
  predicate FieldsInSchema(p: Parameter)
  {
    Describe.InSchema(p.fieldFilter)
  }

  /** A member's request only names schema keys when the field filter does. */
  lemma MemberFilterInSchema(model: string, p: Parameter, date: string, time: string, member: nat)
    requires FieldsInSchema(p)
    ensures Describe.InSchema(MemberFilter(model, p, date, time, member))
  {
    assert "param" == Describe.SCHEMA_KEYS[8] && "model" == Describe.SCHEMA_KEYS[2];
    assert "date" == Describe.SCHEMA_KEYS[0] && "time" == Describe.SCHEMA_KEYS[5] && "number" == Describe.SCHEMA_KEYS[3];
  }

  /** With the corrected query, the steps present for a member are exactly the steps its listing carries. */
  lemma StepsPresentAreListed(model: string, p: Parameter, date: string, time: string, member: nat, fdb: Describe.Listing)
    requires FieldsInSchema(p)
    ensures var f := MemberFilter(model, p, date, time, member);
      && CorrectedQuery(fdb)(f).Success?
      && forall v: Describe.Value :: v in StepsPresent(CorrectedQuery(fdb)(f).value)
                 <==> v.Str? && Describe.Carries(fdb(f), "step", v.text)
  {
    MemberFilterInSchema(model, p, date, time, member);
    Describe.StepIsText();
    Describe.SingleTextKey("step", MemberFilter(model, p, date, time, member), fdb);
  }

  /** A row of `width` cells, each 0 or 1, and 1 exactly where the listing carries that step. */
  predicate RowMatches(row: seq<int>, width: nat, listing: seq<Describe.Record>)
  {
    && |row| == width
    && forall s | 0 <= s < width :: (row[s] == 0 || row[s] == 1) && (row[s] == 1 <==> Describe.Carries(listing, "step", ToDecimal(s)))
  }

  lemma StepsRowMatches(present: set<Describe.Value>, width: nat, listing: seq<Describe.Record>)
    requires forall v: Describe.Value :: v in present <==> v.Str? && Describe.Carries(listing, "step", v.text)
    ensures RowMatches(StepsRow(present, width), width, listing)
  {
  }

  /** With the corrected query, row m of the members below n matches the listing of member m. */
  lemma {:induction false} ParamRowsMeaning(fdb: Describe.Listing, model: string, p: Parameter, date: string, time: string, width: nat, n: nat)
    requires FieldsInSchema(p)
    ensures ParamRows(CorrectedQuery(fdb), model, p, date, time, width, n).Success?
    ensures var rows := ParamRows(CorrectedQuery(fdb), model, p, date, time, width, n).value;
      && |rows| == n
      && forall m | 0 <= m < n :: RowMatches(rows[m], width, fdb(MemberFilter(model, p, date, time, m)))
  {
    if n > 0 {
      var query := CorrectedQuery(fdb);
      ParamRowsMeaning(fdb, model, p, date, time, width, n - 1);
      var rows := ParamRows(query, model, p, date, time, width, n - 1).value;
      var f := MemberFilter(model, p, date, time, n - 1);
      StepsPresentAreListed(model, p, date, time, n - 1, fdb);
      var present := StepsPresent(query(f).value);
      RowsStep(MemberRowOf(query, model, p, date, time, width), n - 1, rows);
      assert MemberRowOf(query, model, p, date, time, width)(n - 1) == Success(StepsRow(present, width));
      StepsRowMatches(present, width, fdb(f));
      var rows' := rows + [StepsRow(present, width)];
      forall m | 0 <= m < n
        ensures RowMatches(rows'[m], width, fdb(MemberFilter(model, p, date, time, m)))
      {
        if m < n - 1 {
          assert rows'[m] == rows[m];
        }
      }
    }
  }

  /**
   * With the corrected query, for a known model get_param_status gives one row per member, of
   * one cell for a constant parameter and one per step otherwise, 1 exactly where the member's
   * listing carries the step.
   */
  lemma ParamStatusMeaning(fdb: Describe.Listing, model: string, p: Parameter, date: string, time: string)
    requires FieldsInSchema(p) && model in COLLECTIONS
    ensures ParamStatusOf(CorrectedQuery(fdb), model, p, date, time).Success?
    ensures var c, rows := COLLECTIONS[model], ParamStatusOf(CorrectedQuery(fdb), model, p, date, time).value;
      && |rows| == c.members
      && forall m | 0 <= m < c.members ::
           RowMatches(rows[m], if p.isConstant then 1 else c.steps, fdb(MemberFilter(model, p, date, time, m)))
  {
    var c := COLLECTIONS[model];
    ParamRowsMeaning(fdb, model, p, date, time, Width(c, p), c.members);
  }

  /** Every member below n has something listed for its request. */
  predicate MembersListed(fdb: Describe.Listing, model: string, p: Parameter, date: string, time: string, n: nat)
  {
    forall m | 0 <= m < n :: fdb(MemberFilter(model, p, date, time, m)) != []
  }

  /**
   * The query as written fails with KeyError('step') for a member whose request lists
   * nothing, and agrees with the corrected query otherwise.
   */
  lemma MemberRowAsWritten(fdb: Describe.Listing, model: string, p: Parameter, date: string, time: string, width: nat, member: nat)
    requires FieldsInSchema(p)
    ensures MemberRow(AsWrittenQuery(fdb), model, p, date, time, width, member)
         == if fdb(MemberFilter(model, p, date, time, member)) == [] then Failure(QueryFailed(Describe.MissingKey("step")))
            else MemberRow(CorrectedQuery(fdb), model, p, date, time, width, member)
  {
    MemberFilterInSchema(model, p, date, time, member);
    Describe.AsWrittenSingleKey("step", MemberFilter(model, p, date, time, member), fdb);
  }

  /**
   * The member loop as written: the rows of the corrected query when every member has
   * something listed, and otherwise KeyError('step') from the first member with nothing.
   */
  lemma ParamRowsAsWritten(fdb: Describe.Listing, model: string, p: Parameter, date: string, time: string, width: nat, n: nat)
    requires FieldsInSchema(p)
    ensures ParamRows(AsWrittenQuery(fdb), model, p, date, time, width, n)
         == if MembersListed(fdb, model, p, date, time, n) then ParamRows(CorrectedQuery(fdb), model, p, date, time, width, n)
            else Failure(QueryFailed(Describe.MissingKey("step")))
  {
    var asWritten := MemberRowOf(AsWrittenQuery(fdb), model, p, date, time, width);
    var corrected := MemberRowOf(CorrectedQuery(fdb), model, p, date, time, width);
    forall m | 0 <= m < n
      ensures corrected(m).Success?
      ensures asWritten(m) == corrected(m) || asWritten(m) == Failure(QueryFailed(Describe.MissingKey("step")))
      ensures asWritten(m).Success? <==> fdb(MemberFilter(model, p, date, time, m)) != []
    {
      MemberRowAsWritten(fdb, model, p, date, time, width, m);
      StepsPresentAreListed(model, p, date, time, m, fdb);
    }
    RowsOneError(asWritten, corrected, n, QueryFailed(Describe.MissingKey("step")));
  }

  /**
   * When the corrected rows never fail and each row as written is either the corrected one
   * or the error e, the rows as written are the corrected ones unless some member fails,
   * and then they are e.
   */
  lemma {:induction false} RowsOneError(asWritten: nat -> Result<seq<int>, CheckError>, corrected: nat -> Result<seq<int>, CheckError>,
                                        n: nat, e: CheckError)
    requires forall m | 0 <= m < n :: corrected(m).Success?
    requires forall m | 0 <= m < n :: asWritten(m) == corrected(m) || asWritten(m) == Failure(e)
    ensures Rows(asWritten, n) == if forall m | 0 <= m < n :: asWritten(m).Success? then Rows(corrected, n) else Failure(e)
  {
    if n > 0 {
      RowsOneError(asWritten, corrected, n - 1, e);
      if forall m | 0 <= m < n - 1 :: asWritten(m).Success? {
        RowsSucceed(corrected, n - 1);
        var rows := Rows(corrected, n - 1).value;
        RowsStep(asWritten, n - 1, rows);
        RowsStep(corrected, n - 1, rows);
      } else {
        RowsFailure(asWritten, n - 1, n);
      }
    }
  }

  /** Rows that never fail give a matrix. */
  lemma {:induction false} RowsSucceed(rowOf: nat -> Result<seq<int>, CheckError>, n: nat)
    requires forall m | 0 <= m < n :: rowOf(m).Success?
    ensures Rows(rowOf, n).Success?
  {
    if n > 0 {
      RowsSucceed(rowOf, n - 1);
    }
  }

  /**
   * get_param_status as written: KeyError('step') when some member of a known model has
   * nothing listed, and the corrected result otherwise.
   */
  lemma ParamStatusAsWritten(fdb: Describe.Listing, model: string, p: Parameter, date: string, time: string)
    requires FieldsInSchema(p)
    ensures ParamStatusOf(AsWrittenQuery(fdb), model, p, date, time)
         == if model in COLLECTIONS && !MembersListed(fdb, model, p, date, time, COLLECTIONS[model].members)
            then Failure(QueryFailed(Describe.MissingKey("step")))
            else ParamStatusOf(CorrectedQuery(fdb), model, p, date, time)
  {
    if model in COLLECTIONS {
      var c := COLLECTIONS[model];
      ParamRowsAsWritten(fdb, model, p, date, time, Width(c, p), c.members);
    }
  }

  /**
   * get_param_status fails for a model without a collection and for a member whose request
   * lists nothing, and for nothing else.
   */
  lemma ParamStatusFailure(fdb: Describe.Listing, model: string, p: Parameter, date: string, time: string)
    requires FieldsInSchema(p)
    ensures ParamStatusOf(AsWrittenQuery(fdb), model, p, date, time).Failure?
        <==> model !in COLLECTIONS || !MembersListed(fdb, model, p, date, time, COLLECTIONS[model].members)
  {
    ParamStatusAsWritten(fdb, model, p, date, time);
    if model in COLLECTIONS {
      ParamStatusMeaning(fdb, model, p, date, time);
    }
  }

  /** The keys of a status dictionary, in order. */
  function Suffixes(status: Status): seq<string>
  {
    seq(|status|, i requires 0 <= i < |status| => status[i].0)
  }

  /** `status[key]`, or None when the key is absent. */
  function Lookup(status: Status, key: string): Option<Matrix>
  {
    if status == [] then None
    else if status[0].0 == key then Some(status[0].1)
    else Lookup(status[1..], key)
  }

  /** `status[key] = m`: replaces the value in place, or appends a new entry. */
  function Assign(status: Status, key: string, m: Matrix): (r: Status)
    ensures Lookup(r, key) == Some(m)
    ensures forall k | k != key :: Lookup(r, k) == Lookup(status, k)
    ensures key !in Suffixes(status) ==> r == status + [(key, m)]
    ensures key in Suffixes(status) ==> Suffixes(r) == Suffixes(status)
  {
    if status == [] then [(key, m)]
    else if status[0].0 == key then
      assert Suffixes(status)[0] == key;
      [(key, m)] + status[1..]
    else
      var rest := Assign(status[1..], key, m);
      assert Suffixes(status) == [status[0].0] + Suffixes(status[1..]);
      assert Suffixes([status[0]] + rest) == [status[0].0] + Suffixes(rest);
      [status[0]] + rest
  }

  /** The status dictionary of the given parameters, each assigned under its file suffix in turn. */
  function StatusFrom(statusOf: Parameter -> Result<Matrix, CheckError>, params: seq<Parameter>): Result<Status, CheckError>
  {
    if params == [] then Success([])
    else
      var p := params[|params| - 1];
      match StatusFrom(statusOf, params[..|params| - 1])
      case Failure(e) => Failure(e)
      case Success(status) =>
        match statusOf(p)
        case Failure(e) => Failure(e)
        case Success(m) => Success(Assign(status, p.fileSuffix, m))
  }

  /** get_param_status of one model, date and time, as a function of the parameter. */
  function ParamStatus(query: StepQuery, model: string, date: string, time: string): Parameter -> Result<Matrix, CheckError>
  {
    p => ParamStatusOf(query, model, p, date, time)
  }

  /** The status of the given parameters of one model, date and time. */
  function StatusOfParams(query: StepQuery, model: string, params: seq<Parameter>, date: string, time: string)
    : Result<Status, CheckError>
  {
    StatusFrom(ParamStatus(query, model, date, time), params)
  }

  /** get_archive_status as a value: date as %Y%m%d and time as %H00 of the forecast start. */
  function ArchiveStatusOf(query: StepQuery, model: string, forecastTime: int): Result<Status, CheckError>
  {
    var t := Calendar.FromTimestamp(forecastTime);
    StatusOfParams(query, model, PARAMS, Calendar.DateString(t), Calendar.HourString(t))
  }

  /** A failure for some parameter is the failure of the whole status. */
  lemma {:induction false} StatusFromFailure(statusOf: Parameter -> Result<Matrix, CheckError>, params: seq<Parameter>, n: nat)
    requires n <= |params| && StatusFrom(statusOf, params[..n]).Failure?
    ensures StatusFrom(statusOf, params) == StatusFrom(statusOf, params[..n])
    decreases |params| - n
  {
    if n < |params| {
      assert params[..n + 1][..n] == params[..n];
      StatusFromFailure(statusOf, params, n + 1);
    } else {
      assert params[..n] == params;
    }
  }

  /** get_archive_status: the status of every parameter, keyed by its file suffix. */
  method GetArchiveStatus(query: StepQuery, model: string, forecastTime: int) returns (r: Result<Status, CheckError>)
    ensures r == ArchiveStatusOf(query, model, forecastTime)
  {
    var t := Calendar.FromTimestamp(forecastTime);
    var dateStr := Calendar.DateString(t);
    var timeStr := Calendar.HourString(t);
    r := CollectStatus(query, model, dateStr, timeStr);
  }

  /** The parameter loop of get_archive_status. */
  method CollectStatus(query: StepQuery, model: string, dateStr: string, timeStr: string) returns (r: Result<Status, CheckError>)
    ensures r == StatusOfParams(query, model, PARAMS, dateStr, timeStr)
  {
    ghost var statusOf := ParamStatus(query, model, dateStr, timeStr);
    var archiveStatus: Status := [];
    var i := 0;
    while i < |PARAMS|
      invariant 0 <= i <= |PARAMS|
      invariant StatusFrom(statusOf, PARAMS[..i]) == Success(archiveStatus)
    {
      var p := PARAMS[i];
      var paramStatus := GetParamStatus(query, model, p, dateStr, timeStr);
      assert statusOf(p) == paramStatus;
      StatusFromStep(statusOf, PARAMS, i, archiveStatus);
      if paramStatus.Failure? {
        StatusFromFailure(statusOf, PARAMS, i + 1);
        return Failure(paramStatus.error);
      }
      archiveStatus := Assign(archiveStatus, p.fileSuffix, paramStatus.value);
      i := i + 1;
    }
    assert PARAMS[..i] == PARAMS;
    return Success(archiveStatus);
  }

  /** One more parameter: its failure, or its status assigned under its file suffix. */
  lemma StatusFromStep(statusOf: Parameter -> Result<Matrix, CheckError>, params: seq<Parameter>, i: nat, status: Status)
    requires i < |params| && StatusFrom(statusOf, params[..i]) == Success(status)
    ensures StatusFrom(statusOf, params[..i + 1])
      == if statusOf(params[i]).Failure? then Failure(statusOf(params[i]).error)
         else Success(Assign(status, params[i].fileSuffix, statusOf(params[i]).value))
  {
    assert params[..i + 1][..i] == params[..i];
  }

  /** get_archive_status raises KeyError for a model without a collection. */
  lemma ArchiveStatusUnknownModel(query: StepQuery, model: string, forecastTime: int)
    requires model !in COLLECTIONS
    ensures ArchiveStatusOf(query, model, forecastTime) == Failure(UnknownModel(model))
  {
    var t := Calendar.FromTimestamp(forecastTime);
    var date, time := Calendar.DateString(t), Calendar.HourString(t);
    var statusOf := ParamStatus(query, model, date, time);
    assert PARAMS[..1][..0] == [] && PARAMS[..1][0] == PARAMS[0];
    assert statusOf(PARAMS[0]) == Failure(UnknownModel(model));
    assert StatusFrom(statusOf, PARAMS[..1]) == Failure(UnknownModel(model));
    StatusFromFailure(statusOf, PARAMS, 1);
  }

  /** The field filters of the parameters only name schema keys. */
  lemma ParamsInSchema()
    ensures forall i | 0 <= i < |PARAMS| :: FieldsInSchema(PARAMS[i])
  {
    assert "levtype" == Describe.SCHEMA_KEYS[7] && "levelist" == Describe.SCHEMA_KEYS[10];
  }

  /**
   * With the corrected query, for a known model get_archive_status holds the entries 'c', 'p'
   * and '' in that order, each the status of the parameter with that suffix.
   */
  lemma ArchiveStatusKnownModel(fdb: Describe.Listing, model: string, forecastTime: int)
    requires model in COLLECTIONS
    ensures ArchiveStatusOf(CorrectedQuery(fdb), model, forecastTime).Success?
    ensures var t := Calendar.FromTimestamp(forecastTime);
      var status := ArchiveStatusOf(CorrectedQuery(fdb), model, forecastTime).value;
      && Suffixes(status) == ["c", "p", ""]
      && forall i | 0 <= i < 3 ::
           Success(status[i].1) == ParamStatusOf(CorrectedQuery(fdb), model, PARAMS[i], Calendar.DateString(t), Calendar.HourString(t))
  {
    var t := Calendar.FromTimestamp(forecastTime);
    StatusOfKnownModel(fdb, model, Calendar.DateString(t), Calendar.HourString(t));
  }

  /** With the corrected query, the status of the three parameters for a known model, in order. */
  lemma StatusOfKnownModel(fdb: Describe.Listing, model: string, date: string, time: string)
    requires model in COLLECTIONS
    ensures StatusOfParams(CorrectedQuery(fdb), model, PARAMS, date, time).Success?
    ensures var status := StatusOfParams(CorrectedQuery(fdb), model, PARAMS, date, time).value;
      && Suffixes(status) == ["c", "p", ""]
      && forall i | 0 <= i < 3 :: Success(status[i].1) == ParamStatusOf(CorrectedQuery(fdb), model, PARAMS[i], date, time)
  {
    var statusOf := ParamStatus(CorrectedQuery(fdb), model, date, time);
    KnownModelParamsSucceed(fdb, model, date, time);
    ParamSuffixes();
    StatusFromDistinct(statusOf, PARAMS);
    ParamSuffixEntries(StatusFrom(statusOf, PARAMS).value);
  }

  /** A status whose entries follow the parameters has the keys 'c', 'p' and ''. */
  lemma ParamSuffixEntries(status: Status)
    requires |status| == |PARAMS| && forall i | 0 <= i < |PARAMS| :: status[i].0 == PARAMS[i].fileSuffix
    ensures Suffixes(status) == ["c", "p", ""]
  {
    assert Suffixes(status)[0] == "c" && Suffixes(status)[1] == "p" && Suffixes(status)[2] == "";
  }

  /** With the corrected query, for a known model every parameter has a status. */
  lemma KnownModelParamsSucceed(fdb: Describe.Listing, model: string, date: string, time: string)
    requires model in COLLECTIONS
    ensures forall i | 0 <= i < |PARAMS| ::
      ParamStatus(CorrectedQuery(fdb), model, date, time)(PARAMS[i]) == ParamStatusOf(CorrectedQuery(fdb), model, PARAMS[i], date, time)
      && ParamStatusOf(CorrectedQuery(fdb), model, PARAMS[i], date, time).Success?
  {
    ParamsInSchema();
    forall i | 0 <= i < |PARAMS|
      ensures ParamStatusOf(CorrectedQuery(fdb), model, PARAMS[i], date, time).Success?
    {
      ParamStatusMeaning(fdb, model, PARAMS[i], date, time);
    }
  }

  /** The file suffixes of the parameters: 'c', 'p' and '', no two alike. */
  lemma ParamSuffixes()
    ensures PARAMS[0].fileSuffix == "c" && PARAMS[1].fileSuffix == "p" && PARAMS[2].fileSuffix == ""
    ensures forall i, j | 0 <= i < j < |PARAMS| :: PARAMS[i].fileSuffix != PARAMS[j].fileSuffix
  {
  }

  /**
   * When every parameter has a status and no two share a file suffix, the status dictionary
   * holds one entry per parameter, in the order of the parameters.
   */
  lemma {:induction false} StatusFromDistinct(statusOf: Parameter -> Result<Matrix, CheckError>, params: seq<Parameter>)
    requires forall i | 0 <= i < |params| :: statusOf(params[i]).Success?
    requires forall i, j | 0 <= i < j < |params| :: params[i].fileSuffix != params[j].fileSuffix
    ensures StatusFrom(statusOf, params).Success?
    ensures var status := StatusFrom(statusOf, params).value;
      && |status| == |params|
      && forall i | 0 <= i < |params| :: status[i].0 == params[i].fileSuffix && Success(status[i].1) == statusOf(params[i])
  {
    if params != [] {
      var n := |params| - 1;
      var init := params[..n];
      assert forall i | 0 <= i < n :: init[i] == params[i];
      StatusFromDistinct(statusOf, init);
      var status := StatusFrom(statusOf, init).value;
      assert params[n].fileSuffix !in Suffixes(status) by {
        forall i | 0 <= i < |status|
          ensures Suffixes(status)[i] != params[n].fileSuffix
        {
          assert Suffixes(status)[i] == params[i].fileSuffix;
        }
      }
      var m := statusOf(params[n]).value;
      assert StatusFrom(statusOf, params) == Success(Assign(status, params[n].fileSuffix, m));
      assert Assign(status, params[n].fileSuffix, m) == status + [(params[n].fileSuffix, m)];
      EntriesSnoc(statusOf, params, status, m);
    }
  }

  /** One entry per parameter, in order: appending the last parameter's entry keeps that shape. */
  lemma EntriesSnoc(statusOf: Parameter -> Result<Matrix, CheckError>, params: seq<Parameter>, status: Status, m: Matrix)
    requires |params| == |status| + 1
    requires forall i | 0 <= i < |status| ::
      status[i].0 == params[i].fileSuffix && Success(status[i].1) == statusOf(params[i])
    requires statusOf(params[|status|]) == Success(m)
    ensures var r := status + [(params[|status|].fileSuffix, m)];
      forall i | 0 <= i < |params| :: r[i].0 == params[i].fileSuffix && Success(r[i].1) == statusOf(params[i])
  {
  }

  /** Every member of a known model has something listed for every parameter of the run starting at t. */
  predicate RunListed(fdb: Describe.Listing, model: string, t: int)
  {
    var d := Calendar.FromTimestamp(t);
    && model in COLLECTIONS
    && forall i | 0 <= i < |PARAMS| :: MembersListed(fdb, model, PARAMS[i], Calendar.DateString(d), Calendar.HourString(d), COLLECTIONS[model].members)
  }

  /**
   * When the corrected statuses never fail and each status as written is either the corrected
   * one or the error e, the dictionary as written is the corrected one unless some parameter
   * fails, and then it is e.
   */
  lemma {:induction false} StatusFromOneError(asWritten: Parameter -> Result<Matrix, CheckError>,
                                              corrected: Parameter -> Result<Matrix, CheckError>,
                                              params: seq<Parameter>, e: CheckError)
    requires forall i | 0 <= i < |params| :: corrected(params[i]).Success?
    requires forall i | 0 <= i < |params| :: asWritten(params[i]) == corrected(params[i]) || asWritten(params[i]) == Failure(e)
    ensures StatusFrom(asWritten, params)
         == if forall i | 0 <= i < |params| :: asWritten(params[i]).Success? then StatusFrom(corrected, params)
            else Failure(e)
  {
    if params != [] {
      var n := |params| - 1;
      var init := params[..n];
      assert forall i | 0 <= i < n :: init[i] == params[i];
      assert params[..n + 1] == params;
      StatusFromOneError(asWritten, corrected, init, e);
      if forall i | 0 <= i < n :: asWritten(init[i]).Success? {
        assert (forall i | 0 <= i < |params| :: asWritten(params[i]).Success?) <==> asWritten(params[n]).Success?;
        StatusFromSucceeds(corrected, init);
        var status := StatusFrom(corrected, init).value;
        StatusFromStep(asWritten, params, n, status);
        StatusFromStep(corrected, params, n, status);
      } else {
        var i :| 0 <= i < n && asWritten(init[i]).Failure?;
        assert !asWritten(params[i]).Success?;
        StatusFromFailure(asWritten, params, n);
      }
    }
  }


  /** The corrected statuses never failing, their dictionary never fails. */
  lemma {:induction false} StatusFromSucceeds(statusOf: Parameter -> Result<Matrix, CheckError>, params: seq<Parameter>)
    requires forall i | 0 <= i < |params| :: statusOf(params[i]).Success?
    ensures StatusFrom(statusOf, params).Success?
  {
    if params != [] {
      var n := |params| - 1;
      assert forall i | 0 <= i < n :: params[..n][i] == params[i];
      StatusFromSucceeds(statusOf, params[..n]);
    }
  }

  /**
   * get_archive_status as written, for a known model: KeyError('step') when some member has
   * nothing listed for some parameter of the run, and the corrected status otherwise.
   */
  lemma ArchiveStatusAsWritten(fdb: Describe.Listing, model: string, t: int)
    requires model in COLLECTIONS
    ensures ArchiveStatusOf(AsWrittenQuery(fdb), model, t)
         == if RunListed(fdb, model, t) then ArchiveStatusOf(CorrectedQuery(fdb), model, t)
            else Failure(QueryFailed(Describe.MissingKey("step")))
  {
    var d := Calendar.FromTimestamp(t);
    var date, time := Calendar.DateString(d), Calendar.HourString(d);
    var asWritten, corrected := ParamStatus(AsWrittenQuery(fdb), model, date, time), ParamStatus(CorrectedQuery(fdb), model, date, time);
    KnownModelParamsSucceed(fdb, model, date, time);
    ParamsInSchema();
    forall i | 0 <= i < |PARAMS|
      ensures asWritten(PARAMS[i]) == corrected(PARAMS[i]) || asWritten(PARAMS[i]) == Failure(QueryFailed(Describe.MissingKey("step")))
      ensures asWritten(PARAMS[i]).Success? <==> MembersListed(fdb, model, PARAMS[i], date, time, COLLECTIONS[model].members)
    {
      ParamStatusAsWritten(fdb, model, PARAMS[i], date, time);
    }
    StatusFromOneError(asWritten, corrected, PARAMS, QueryFailed(Describe.MissingKey("step")));
  }
}
