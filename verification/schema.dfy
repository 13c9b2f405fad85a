/** The tables of the data-point store and the read queries over them.

    A data point's value lives in exactly one of three columns (numeric, text,
    structured); here that is a tagged union, `StoredValue`, and the three
    nullable columns the rows expose to readers are derived from it.
    Validation status and confidence are enumerations. Row and log ids are
    the AUTOINCREMENT ids: the row at position i of a table has id i + 1. */
module Schema {
  import opened Common

  /** Wall-clock instants are supplied by the caller. */
  type Timestamp = int

  /** A JSON text (`json.dumps` output); its contents are not interpreted. */
  type Blob = string

  // ---------------------------------------------------------------- enums

  datatype Status = Pending | InReview | Validated | Rejected | Outdated

  /** The store keeps whatever confidence text it is given; the four listed
      levels are the enumeration proper and anything else is `Unlisted`. */
  datatype Confidence = High | Medium | Low | Unverified | Unlisted(text: string)

  const ConfidenceLevels: seq<string> := ["high", "medium", "low", "unverified"]

  function ConfidenceLabel(c: Confidence): string {
    match c
    case High => "high"
    case Medium => "medium"
    case Low => "low"
    case Unverified => "unverified"
    case Unlisted(s) => s
  }

  /** Reads a confidence text as stored: the label is kept exactly, and it is
      one of the four levels precisely when it is listed. */
  function ParseConfidence(s: string): (c: Confidence)
    ensures ConfidenceLabel(c) == s
    ensures c.Unlisted? <==> s !in ConfidenceLevels
  {
    if s == "high" then High
    else if s == "medium" then Medium
    else if s == "low" then Low
    else if s == "unverified" then Unverified
    else Unlisted(s)
  }

  lemma ParseLabelRoundTrip(c: Confidence)
    requires !c.Unlisted? || c.text !in ConfidenceLevels
    ensures ParseConfidence(ConfidenceLabel(c)) == c
  {
  }

  // ---------------------------------------------------------------- values

  /** The dynamically typed value handed to `add_data_point`. `PyObject`
      stands for any other object that `json.dumps` can encode (a list or a
      tuple) and carries the text `str()` gives it; a dict's contents are
      likewise taken to be encodable. */
  datatype PyValue =
    | PyInt(i: int)
    | PyFloat(f: real)
    | PyBool(b: bool)
    | PyDict(json: Blob)
    | PyStr(s: string)
    | PyNone
    | PyObject(repr: string)

  /** `isinstance(v, (int, float))`; a bool is an int in Python. */
  predicate IsNumber(v: PyValue) {
    v.PyInt? || v.PyFloat? || v.PyBool?
  }

  /** The value as it is stored: exactly one representation by construction. */
  datatype StoredValue = Numeric(x: real) | Text(s: string) | Structured(json: Blob)

  /** Chooses the column for a value: numbers (bools included) go to the
      numeric column, dicts to the structured column, and everything else,
      `None` included, to the text column through `str()`. */
  function ResolveValue(v: PyValue): (s: StoredValue)
    ensures s.Numeric? <==> IsNumber(v)
    ensures s.Structured? <==> v.PyDict?
    ensures s.Text? <==> !IsNumber(v) && !v.PyDict?
    ensures v.PyNone? ==> s == Text("None")
    ensures v.PyBool? ==> s == Numeric(if v.b then 1.0 else 0.0)
  {
    match v
    case PyInt(i) => Numeric(i as real)
    case PyFloat(f) => Numeric(f)
    case PyBool(b) => Numeric(if b then 1.0 else 0.0)
    case PyDict(j) => Structured(j)
    case PyStr(s) => Text(s)
    case PyNone => Text("None")
    case PyObject(r) => Text(r)
  }

  /** The three nullable columns `value`, `value_text`, `value_json`. */
  datatype Columns = Columns(value: Option<real>, valueText: Option<string>, valueJson: Option<Blob>)

  function PresentCount(c: Columns): nat {
    (if c.value.Some? then 1 else 0)
    + (if c.valueText.Some? then 1 else 0)
    + (if c.valueJson.Some? then 1 else 0)
  }

  /** The columns a stored value occupies: exactly one of them is non-null,
      and reading them back gives the value again. */
  function ColumnsOf(v: StoredValue): (c: Columns)
    ensures PresentCount(c) == 1
    ensures FromColumns(c) == Some(v)
  {
    match v
    case Numeric(x) => Columns(Some(x), None, None)
    case Text(s) => Columns(None, Some(s), None)
    case Structured(j) => Columns(None, None, Some(j))
  }

  /** Reads a value back from its columns; defined exactly when one column
      is populated, and then it is the value those columns hold. */
  function FromColumns(c: Columns): (v: Option<StoredValue>)
    ensures v.Some? <==> PresentCount(c) == 1
    ensures v.Some? ==> c == match v.value
                            case Numeric(x) => Columns(Some(x), None, None)
                            case Text(s) => Columns(None, Some(s), None)
                            case Structured(j) => Columns(None, None, Some(j))
  {
    if PresentCount(c) != 1 then None
    else if c.value.Some? then Some(Numeric(c.value.value))
    else if c.valueText.Some? then Some(Text(c.valueText.value))
    else Some(Structured(c.valueJson.value))
  }

  // ---------------------------------------------------------------- tables

  datatype Sector = Sector(id: nat, name: string, description: string)
  datatype Subcategory = Subcategory(id: nat, sectorId: nat, name: string)
  datatype Dimension = Dimension(id: nat, name: string, unit: string, description: string)
  datatype Source = Source(id: nat, name: string, url: Option<string>, sourceType: string,
                           reliability: real, lastAccessed: Timestamp, metadata: Option<Blob>)

  /** A row of `data_points`. `sourceId` is whatever the caller passed: the
      store does not check it against `sources`. */
  datatype Row = Row(
    id: nat,
    sectorId: Option<nat>,
    subcategoryId: Option<nat>,
    dimensionId: nat,
    value: StoredValue,
    year: Option<int>,
    quarter: Option<int>,
    month: Option<int>,
    sourceId: Option<int>,
    confidence: Confidence,
    status: Status,
    validatedBy: Option<string>,
    validatedAt: Option<Timestamp>,
    notes: Option<string>,
    metadata: Option<Blob>,
    createdAt: Timestamp,
    updatedAt: Timestamp)

  datatype LogKind = Insert | Update | Delete

  /** The snapshots the store writes into the change log. */
  datatype LogPayload =
    | Inserted(dimension: string, value: PyValue, sector: Option<string>, year: Option<int>)
    | StatusWas(status: Status)
    | StatusSet(status: Status, validatedBy: string)

  /** A row of `changes_log`. */
  datatype LogEntry = LogEntry(
    id: nat,
    tableName: string,
    recordId: int,
    kind: LogKind,
    oldValue: Option<LogPayload>,
    newValue: Option<LogPayload>,
    changedBy: string,
    reason: Option<string>,
    createdAt: Timestamp)

  /** A consistent snapshot of the store's tables (the change log aside). */
  datatype Tables = Tables(
    sectors: seq<Sector>,
    subcategories: seq<Subcategory>,
    dimensions: seq<Dimension>,
    sources: seq<Source>,
    rows: seq<Row>)

  ghost predicate SectorsWellFormed(ss: seq<Sector>) {
    && (forall i :: 0 <= i < |ss| ==> ss[i].id == i + 1)
    && (forall i, j :: 0 <= i < j < |ss| ==> ss[i].name != ss[j].name)
  }

  ghost predicate SubcategoriesWellFormed(cs: seq<Subcategory>, sectorCount: nat) {
    && (forall i :: 0 <= i < |cs| ==> cs[i].id == i + 1 && 1 <= cs[i].sectorId <= sectorCount)
    && (forall i, j :: 0 <= i < j < |cs| ==> cs[i].sectorId != cs[j].sectorId || cs[i].name != cs[j].name)
  }

  ghost predicate DimensionsWellFormed(ds: seq<Dimension>) {
    && (forall i :: 0 <= i < |ds| ==> ds[i].id == i + 1)
    && (forall i, j :: 0 <= i < j < |ds| ==> ds[i].name != ds[j].name)
  }

  ghost predicate SourcesWellFormed(ss: seq<Source>) {
    forall i :: 0 <= i < |ss| ==> ss[i].id == i + 1
  }

  /** A row's dimension, sector and subcategory exist, and its subcategory
      belongs to its sector. */
  ghost predicate RefsValid(t: Tables, dimensionId: nat, sectorId: Option<nat>, subcategoryId: Option<nat>) {
    && 1 <= dimensionId <= |t.dimensions|
    && (sectorId.Some? ==> 1 <= sectorId.value <= |t.sectors|)
    && (subcategoryId.Some? ==>
          && sectorId.Some?
          && 1 <= subcategoryId.value <= |t.subcategories|
          && t.subcategories[subcategoryId.value - 1].sectorId == sectorId.value)
  }

  ghost predicate RowsWellFormed(t: Tables) {
    forall i :: 0 <= i < |t.rows| ==>
      t.rows[i].id == i + 1 && RefsValid(t, t.rows[i].dimensionId, t.rows[i].sectorId, t.rows[i].subcategoryId)
  }

  ghost predicate WellFormed(t: Tables) {
    && SectorsWellFormed(t.sectors)
    && SubcategoriesWellFormed(t.subcategories, |t.sectors|)
    && DimensionsWellFormed(t.dimensions)
    && SourcesWellFormed(t.sources)
    && RowsWellFormed(t)
  }

  ghost predicate LogWellFormed(log: seq<LogEntry>) {
    forall i :: 0 <= i < |log| ==> log[i].id == i + 1
  }

  // ---------------------------------------------------------------- lookups by name

  /** Python truthiness of an optional text argument: `None` and `""` are
      both "not given". */
  predicate Given(o: Option<string>) {
    o.Some? && o.value != ""
  }

  function DimensionNameIs(name: string): Dimension -> bool {
    (d: Dimension) => d.name == name
  }

  function SectorNameIs(name: string): Sector -> bool {
    (s: Sector) => s.name == name
  }

  function SubcategoryIs(sectorId: nat, name: string): Subcategory -> bool {
    (c: Subcategory) => c.sectorId == sectorId && c.name == name
  }

  function SubcategoryOf(sectorId: nat): Subcategory -> bool {
    (c: Subcategory) => c.sectorId == sectorId
  }

  /** The `name` columns the taxonomy tables are listed by. */
  function SectorKey(s: Sector): string { s.name }
  function SubcategoryKey(c: Subcategory): string { c.name }
  function DimensionKey(d: Dimension): string { d.name }

  datatype Refs = Refs(dimensionId: nat, sectorId: Option<nat>, subcategoryId: Option<nat>)

  datatype StoreError = UnknownDimension(name: string)

  datatype Result<T> = Ok(value: T) | Err(error: StoreError)

  /** Resolves the names given to `add_data_point` to ids. An unknown
      dimension is an error; an unknown (or empty) sector name leaves the
      sector unset; a subcategory is looked up only within a found sector,
      and is left unset when it is not there. */
  function ResolveRefs(t: Tables, dimensionName: string, sectorName: Option<string>,
                       subcategoryName: Option<string>): (r: Result<Refs>)
    requires WellFormed(t)
    ensures r.Err? <==> forall j :: 0 <= j < |t.dimensions| ==> t.dimensions[j].name != dimensionName
    ensures r.Err? ==> r.error == UnknownDimension(dimensionName)
    ensures r.Ok? ==> RefsValid(t, r.value.dimensionId, r.value.sectorId, r.value.subcategoryId)
    ensures r.Ok? ==> t.dimensions[r.value.dimensionId - 1].name == dimensionName
    ensures r.Ok? ==>
      (r.value.sectorId.Some? <==>
         Given(sectorName) && exists j :: 0 <= j < |t.sectors| && t.sectors[j].name == sectorName.value)
    ensures r.Ok? && r.value.sectorId.Some? ==> t.sectors[r.value.sectorId.value - 1].name == sectorName.value
    ensures r.Ok? ==>
      (r.value.subcategoryId.Some? <==>
         && r.value.sectorId.Some?
         && Given(subcategoryName)
         && exists j :: 0 <= j < |t.subcategories| &&
              t.subcategories[j].sectorId == r.value.sectorId.value &&
              t.subcategories[j].name == subcategoryName.value)
    ensures r.Ok? && r.value.subcategoryId.Some? ==>
      t.subcategories[r.value.subcategoryId.value - 1].name == subcategoryName.value
  {
    match FirstWhere(t.dimensions, DimensionNameIs(dimensionName))
    case None => Err(UnknownDimension(dimensionName))
    case Some(d) =>
      var sector := if Given(sectorName) then FirstWhere(t.sectors, SectorNameIs(sectorName.value)) else None;
      var sub := if sector.Some? && Given(subcategoryName)
                 then FirstWhere(t.subcategories, SubcategoryIs(sector.value + 1, subcategoryName.value))
                 else None;
      Ok(Refs(d + 1,
              if sector.Some? then Some(sector.value + 1) else None,
              if sub.Some? then Some(sub.value + 1) else None))
  }

  // ---------------------------------------------------------------- new rows

  /** The arguments of `add_data_point`. */
  datatype DataPointInput = DataPointInput(
    dimensionName: string,
    value: PyValue,
    sectorName: Option<string>,
    subcategoryName: Option<string>,
    year: Option<int>,
    quarter: Option<int>,
    month: Option<int>,
    sourceId: Option<int>,
    confidence: string,
    notes: Option<string>,
    metadata: Option<Blob>)

  /** `add_data_point(dimension_name, value)` with every keyword argument at
      its default: confidence "medium", everything else unset. */
  function DefaultInput(dimensionName: string, value: PyValue): (i: DataPointInput)
    ensures ParseConfidence(i.confidence) == Medium
  {
    DataPointInput(dimensionName, value, None, None, None, None, None, None, "medium", None, None)
  }

  /** The row `add_data_point` inserts: pending, never validated, created and
      updated now, with the value in the column `ResolveValue` picks. */
  function NewRow(id: nat, refs: Refs, input: DataPointInput, now: Timestamp): (r: Row)
    ensures r.id == id && r.status == Pending
    ensures r.validatedBy.None? && r.validatedAt.None?
    ensures r.confidence == ParseConfidence(input.confidence)
    ensures FromColumns(ColumnsOf(r.value)) == Some(ResolveValue(input.value))
    ensures r.createdAt == now && r.updatedAt == now
  {
    Row(id, refs.sectorId, refs.subcategoryId, refs.dimensionId, ResolveValue(input.value),
        input.year, input.quarter, input.month, input.sourceId, ParseConfidence(input.confidence),
        Pending, None, None, input.notes, input.metadata, now, now)
  }

  /** The update `update_data_point_validation` applies to a row: new status,
      validator and validation time, notes replaced only by non-null notes
      (COALESCE), and nothing else touched but the update time. */
  function ApplyValidation(r: Row, status: Status, validatedBy: string, notes: Option<string>,
                           now: Timestamp): (r': Row)
    ensures r'.status == status && r'.validatedBy == Some(validatedBy) && r'.validatedAt == Some(now)
    ensures notes.None? ==> r'.notes == r.notes
    ensures notes.Some? ==> r'.notes == notes
    ensures r'.(status := r.status, validatedBy := r.validatedBy, validatedAt := r.validatedAt,
                notes := r.notes, updatedAt := r.updatedAt) == r
  {
    r.(status := status, validatedBy := Some(validatedBy), validatedAt := Some(now),
       notes := if notes.Some? then notes else r.notes, updatedAt := now)
  }

  // ---------------------------------------------------------------- denormalised reads

  /** A row joined with the names of its sector, subcategory, dimension and
      source (LEFT JOINs: a missing partner gives nulls). */
  datatype View = View(
    row: Row,
    sectorName: Option<string>,
    subcategoryName: Option<string>,
    dimensionName: Option<string>,
    dimensionUnit: Option<string>,
    sourceName: Option<string>,
    sourceUrl: Option<string>)
  {
    /** The `value`, `value_text` and `value_json` fields of the row. */
    function Cols(): Columns {
      ColumnsOf(row.value)
    }
  }

  function ViewOf(t: Tables, r: Row): View {
    var sector := if r.sectorId.Some? && 1 <= r.sectorId.value <= |t.sectors|
                  then Some(t.sectors[r.sectorId.value - 1].name) else None;
    var sub := if r.subcategoryId.Some? && 1 <= r.subcategoryId.value <= |t.subcategories|
               then Some(t.subcategories[r.subcategoryId.value - 1].name) else None;
    var dim := if 1 <= r.dimensionId <= |t.dimensions| then Some(t.dimensions[r.dimensionId - 1]) else None;
    var src := if r.sourceId.Some? && 1 <= r.sourceId.value <= |t.sources|
               then Some(t.sources[r.sourceId.value - 1]) else None;
    View(r, sector, sub,
         if dim.Some? then Some(dim.value.name) else None,
         if dim.Some? then Some(dim.value.unit) else None,
         if src.Some? then Some(src.value.name) else None,
         if src.Some? then src.value.url else None)
  }

  function Views(t: Tables, rs: seq<Row>): (vs: seq<View>)
    ensures |vs| == |rs|
  {
    if rs == [] then [] else Views(t, rs[..|rs| - 1]) + [ViewOf(t, rs[|rs| - 1])]
  }

  lemma ViewsSnoc(t: Tables, rs: seq<Row>, r: Row)
    ensures Views(t, rs + [r]) == Views(t, rs) + [ViewOf(t, r)]
  {
    assert (rs + [r])[..|rs|] == rs;
  }

  /** Each row becomes its joined view, in place. */
  lemma {:induction false} ViewsAt(t: Tables, rs: seq<Row>)
    ensures forall k :: 0 <= k < |rs| ==> Views(t, rs)[k] == ViewOf(t, rs[k])
  {
    if rs != [] {
      var init := rs[..|rs| - 1];
      ViewsAt(t, init);
      assert forall k :: 0 <= k < |init| ==> init[k] == rs[k];
    }
  }

  /** The filters of `get_data_points`; falsy ones are skipped. */
  datatype RowFilter = RowFilter(sector: Option<string>, dimension: Option<string>,
                                 year: Option<int>, status: Option<Status>)

  const NoFilter := RowFilter(None, None, None, None)

  predicate Matches(t: Tables, f: RowFilter, r: Row) {
    && (Given(f.sector) ==> ViewOf(t, r).sectorName == f.sector)
    && (Given(f.dimension) ==> ViewOf(t, r).dimensionName == f.dimension)
    && (f.year.Some? && f.year.value != 0 ==> r.year == f.year)
    && (f.status.Some? ==> r.status == f.status.value)
  }

  function RowPred(t: Tables, f: RowFilter): Row -> bool {
    (r: Row) => Matches(t, f, r)
  }

  function RowKey(r: Row): int {
    r.id
  }

  /** `get_data_points(filters, limit)`: the matching rows, newest first,
      at most `limit` of them. Newest first is reverse insertion order; the
      source sorts on a creation time kept to the second, so rows created
      within one second may come back in either order there. */
  function Query(t: Tables, f: RowFilter, limit: int): seq<View> {
    Views(t, Take(NewestFirst(t.rows, RowPred(t, f)), limit))
  }

  /** Everything a query returns is a joined row of the table that matches
      every given filter. */
  lemma QuerySound(t: Tables, f: RowFilter, limit: int, k: nat)
    requires k < |Query(t, f, limit)|
    ensures Query(t, f, limit)[k].row in t.rows
    ensures Matches(t, f, Query(t, f, limit)[k].row)
    ensures Query(t, f, limit)[k] == ViewOf(t, Query(t, f, limit)[k].row)
  {
    var all := NewestFirst(t.rows, RowPred(t, f));
    var picked := Take(all, limit);
    ViewsAt(t, picked);
    assert picked[k] == all[k];
    NewestFirstSubset(t.rows, RowPred(t, f));
    assert all[k] in all;
  }

  lemma RowsAscending(t: Tables)
    requires WellFormed(t)
    ensures forall i, j :: 0 <= i < j < |t.rows| ==> RowKey(t.rows[i]) < RowKey(t.rows[j])
  {
  }

  /** Query results come newest first: their ids strictly decrease. */
  lemma QueryNewestFirst(t: Tables, f: RowFilter, limit: int)
    requires WellFormed(t)
    ensures forall a, b :: 0 <= a < b < |Query(t, f, limit)| ==>
              Query(t, f, limit)[a].row.id > Query(t, f, limit)[b].row.id
  {
    RowsAscending(t);
    var all := NewestFirst(t.rows, RowPred(t, f));
    NewestFirstDescending(t.rows, RowPred(t, f), RowKey);
    var picked := Take(all, limit);
    ViewsAt(t, picked);
    forall a, b | 0 <= a < b < |Query(t, f, limit)|
      ensures Query(t, f, limit)[a].row.id > Query(t, f, limit)[b].row.id
    {
      assert picked[a] == all[a] && picked[b] == all[b];
    }
  }

  /** A matching row the query leaves out was crowded out by the limit:
      the query returned `limit` rows, each newer than it. */
  lemma QueryNewest(t: Tables, f: RowFilter, limit: int, i: nat)
    requires WellFormed(t)
    requires i < |t.rows| && Matches(t, f, t.rows[i])
    requires forall v :: v in Query(t, f, limit) ==> v.row != t.rows[i]
    ensures limit >= 0 && |Query(t, f, limit)| == limit
    ensures forall v :: v in Query(t, f, limit) ==> v.row.id > t.rows[i].id
  {
    RowsAscending(t);
    var p := RowPred(t, f);
    var picked := Take(NewestFirst(t.rows, p), limit);
    ViewsAt(t, picked);
    assert forall m :: 0 <= m < |picked| ==> Query(t, f, limit)[m].row == picked[m];
    assert t.rows[i] !in picked;
    NewestFirstLimited(t.rows, p, RowKey, limit, i);
    forall v | v in Query(t, f, limit)
      ensures v.row.id > t.rows[i].id
    {
      var m :| 0 <= m < |Query(t, f, limit)| && Query(t, f, limit)[m] == v;
      assert picked[m] in picked;
    }
  }

  /** A row appended last that matches the filters is the first answer of a
      query with a non-zero limit. */
  lemma QueryLastRow(t: Tables, f: RowFilter, limit: int)
    requires t.rows != [] && Matches(t, f, t.rows[|t.rows| - 1]) && limit != 0
    ensures Query(t, f, limit) != [] && Query(t, f, limit)[0] == ViewOf(t, t.rows[|t.rows| - 1])
  {
    var init, last := t.rows[..|t.rows| - 1], t.rows[|t.rows| - 1];
    assert t.rows == init + [last];
    NewestFirstSnoc(init, last, RowPred(t, f));
    var picked := Take(NewestFirst(t.rows, RowPred(t, f)), limit);
    assert picked[0] == last;
    ViewsAt(t, picked);
  }

  /** A data point added under names that resolve reads back as written:
      its number, text or JSON sits unchanged in the column chosen for it,
      its view carries the dimension's name, and a query on its sector,
      dimension and year returns it first (when its sector name, if any, was
      found). */
  lemma AddedPointReadBack(t: Tables, input: DataPointInput, now: Timestamp, limit: int)
    requires WellFormed(t)
    requires ResolveRefs(t, input.dimensionName, input.sectorName, input.subcategoryName).Ok?
    ensures var refs := ResolveRefs(t, input.dimensionName, input.sectorName, input.subcategoryName).value;
            var t' := t.(rows := t.rows + [NewRow(|t.rows| + 1, refs, input, now)]);
            var v := ViewOf(t', t'.rows[|t.rows|]);
            && (input.value.PyFloat? ==> v.Cols() == Columns(Some(input.value.f), None, None))
            && (input.value.PyInt? ==> v.Cols() == Columns(Some(input.value.i as real), None, None))
            && (input.value.PyStr? ==> v.Cols() == Columns(None, Some(input.value.s), None))
            && (input.value.PyDict? ==> v.Cols() == Columns(None, None, Some(input.value.json)))
            && v.dimensionName == Some(input.dimensionName)
            && (limit != 0
                && (Given(input.sectorName) ==>
                      exists j :: 0 <= j < |t.sectors| && t.sectors[j].name == input.sectorName.value)
                ==> var q := Query(t', RowFilter(input.sectorName, Some(input.dimensionName), input.year, None), limit);
                    q != [] && q[0] == v)
  {
    var refs := ResolveRefs(t, input.dimensionName, input.sectorName, input.subcategoryName).value;
    var row := NewRow(|t.rows| + 1, refs, input, now);
    var t' := t.(rows := t.rows + [row]);
    var f := RowFilter(input.sectorName, Some(input.dimensionName), input.year, None);
    assert t'.rows[|t.rows|] == row;
    if limit != 0
       && (Given(input.sectorName) ==>
             exists j :: 0 <= j < |t.sectors| && t.sectors[j].name == input.sectorName.value)
    {
      assert Matches(t', f, row);
      QueryLastRow(t', f, limit);
    }
  }

  // ---------------------------------------------------------------- change-log reads

  const SecondsPerDay := 86400

  /** The calendar day of an instant counted in seconds. */
  function Day(t: Timestamp): int {
    t / SecondsPerDay
  }

  /** The filters of `get_changes`: an empty table name is skipped. The
      `since` bound compares texts: `since.isoformat()` ("YYYY-MM-DDTHH:MM:SS")
      against the stored `CURRENT_TIMESTAMP` ("YYYY-MM-DD HH:MM:SS"). The
      dates decide first, and on the same date ' ' sorts before 'T', so only
      entries of a later date than `since` pass. */
  function LogPred(tableName: Option<string>, since: Option<Timestamp>): LogEntry -> bool {
    (e: LogEntry) => (Given(tableName) ==> e.tableName == tableName.value)
                     && (since.Some? ==> Day(e.createdAt) > Day(since.value))
  }

  function LogKey(e: LogEntry): int {
    e.id
  }

  /** `get_changes(table, since, limit)`: matching entries, newest first. */
  function LogQuery(log: seq<LogEntry>, tableName: Option<string>, since: Option<Timestamp>,
                    limit: int): seq<LogEntry> {
    Take(NewestFirst(log, LogPred(tableName, since)), limit)
  }

  /** Every entry returned is in the log, matches the table filter, is of a
      later date than `since`, and the entries come newest first. */
  lemma LogQuerySound(log: seq<LogEntry>, tableName: Option<string>, since: Option<Timestamp>, limit: int)
    requires LogWellFormed(log)
    ensures forall k :: 0 <= k < |LogQuery(log, tableName, since, limit)| ==>
              var e := LogQuery(log, tableName, since, limit)[k];
              e in log && (Given(tableName) ==> e.tableName == tableName.value)
              && (since.Some? ==> Day(e.createdAt) > Day(since.value))
    ensures forall a, b :: 0 <= a < b < |LogQuery(log, tableName, since, limit)| ==>
              LogQuery(log, tableName, since, limit)[a].id > LogQuery(log, tableName, since, limit)[b].id
  {
    var p := LogPred(tableName, since);
    var all := NewestFirst(log, p);
    NewestFirstDescending(log, p, LogKey);
    NewestFirstSubset(log, p);
    forall k | 0 <= k < |LogQuery(log, tableName, since, limit)|
      ensures all[k] == LogQuery(log, tableName, since, limit)[k] && all[k] in log
    {
      assert all[k] in all;
    }
  }

  /** A matching entry left out of a `get_changes` answer means the limit was
      reached with newer entries. */
  lemma LogQueryNewest(log: seq<LogEntry>, tableName: Option<string>, since: Option<Timestamp>,
                       limit: int, i: nat)
    requires LogWellFormed(log)
    requires i < |log| && LogPred(tableName, since)(log[i])
    requires log[i] !in LogQuery(log, tableName, since, limit)
    ensures limit >= 0 && |LogQuery(log, tableName, since, limit)| == limit
    ensures forall e :: e in LogQuery(log, tableName, since, limit) ==> e.id > log[i].id
  {
    NewestFirstLimited(log, LogPred(tableName, since), LogKey, limit, i);
  }

  /** An entry written later on the same day as `since` is left out:
      `since` at 09:00 and an entry at 12:00 of 2025-03-01. */
  lemma SameDayEntryLeftOut()
    ensures var since := 20148 * SecondsPerDay + 9 * 3600;
            var e := LogEntry(1, "data_points", 1, Insert, None, None, "system", None,
                              20148 * SecondsPerDay + 12 * 3600);
            e.createdAt > since && LogQuery([e], None, Some(since), 100) == []
  {
    var since := 20148 * SecondsPerDay + 9 * 3600;
    var e := LogEntry(1, "data_points", 1, Insert, None, None, "system", None,
                      20148 * SecondsPerDay + 12 * 3600);
    assert Day(e.createdAt) == Day(since);
    assert [e][1..] == [];
  }
}
