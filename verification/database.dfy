/** The data-point store: the taxonomy tables, the data points and the
    append-only change log, updated in place. Each method stands for one
    transaction of the original: it either completes or leaves nothing
    behind. */
module Store {
  import opened Common
  import opened Schema

  /** A default sector with its subcategories, and a default dimension. */
  datatype SectorSeed = SectorSeed(name: string, description: string, subcategories: seq<string>)
  datatype DimensionSeed = DimensionSeed(name: string, unit: string, description: string)

  /** A sector as `get_sectors` lists it, with its own subcategories. */
  datatype SectorListing = SectorListing(sector: Sector, subcategories: seq<Subcategory>)

  function ListedSectors(listing: seq<SectorListing>): (ss: seq<Sector>)
    ensures |ss| == |listing|
    ensures forall i :: 0 <= i < |listing| ==> ss[i] == listing[i].sector
  {
    seq(|listing|, i requires 0 <= i < |listing| => listing[i].sector)
  }

  /** A listing entry holds exactly its sector's subcategories, by name. */
  predicate ListsItsSubcategories(l: SectorListing, subcategories: seq<Subcategory>) {
    && InOrder(l.subcategories, SubcategoryKey)
    && multiset(l.subcategories) == multiset(Filter(subcategories, SubcategoryOf(l.sector.id)))
  }

  /** The listing entry of one sector: its subcategories ordered by name. */
  function ListingOf(sector: Sector, subcategories: seq<Subcategory>): (l: SectorListing)
    ensures l.sector == sector && ListsItsSubcategories(l, subcategories)
  {
    var own := Filter(subcategories, SubcategoryOf(sector.id));
    SortByKeySorts(own, SubcategoryKey);
    SectorListing(sector, SortByKey(own, SubcategoryKey))
  }

  /** A listing built entry by entry from a sequence of sectors lists those
      sectors, each with exactly its own subcategories. */
  lemma ListingSound(ordered: seq<Sector>, listing: seq<SectorListing>, subcategories: seq<Subcategory>)
    requires |listing| == |ordered|
    requires forall k :: 0 <= k < |ordered| ==> listing[k] == ListingOf(ordered[k], subcategories)
    ensures ListedSectors(listing) == ordered
    ensures forall i :: 0 <= i < |listing| ==> ListsItsSubcategories(listing[i], subcategories)
  {
  }

  /** How many taxonomy rows a seeding run created. */
  datatype SeedCounts = SeedCounts(sectorsCreated: nat, subcategoriesCreated: nat, dimensionsCreated: nat)

  const DefaultSectorSeeds: seq<SectorSeed> := [
    SectorSeed("Industrial Robotics", "Manufacturing and industrial automation robots",
      ["Articulated Robots", "SCARA Robots", "Delta Robots", "Cartesian Robots",
       "Collaborative Robots (Cobots)"]),
    SectorSeed("Mobile Robotics", "Autonomous mobile robots and vehicles",
      ["Autonomous Mobile Robots (AMR)", "Automated Guided Vehicles (AGV)",
       "Autonomous Delivery Robots", "Drones/UAVs"]),
    SectorSeed("Service Robotics", "Robots for service and consumer applications",
      ["Healthcare Robots", "Hospitality Robots", "Cleaning Robots", "Security Robots",
       "Personal/Consumer Robots"]),
    SectorSeed("Agricultural Robotics", "Robots for farming and agriculture",
      ["Harvesting Robots", "Weeding Robots", "Planting Robots", "Livestock Robots",
       "Crop Monitoring Drones"]),
    SectorSeed("Logistics Robotics", "Warehouse and supply chain automation",
      ["Pick and Place Robots", "Sorting Robots", "Palletizing Robots", "Inventory Robots",
       "Last-Mile Delivery"]),
    SectorSeed("Construction Robotics", "Robots for construction and building",
      ["Bricklaying Robots", "3D Printing Robots", "Demolition Robots", "Inspection Robots",
       "Exoskeletons"])
  ]

  const DefaultDimensionSeeds: seq<DimensionSeed> := [
    DimensionSeed("market_size", "USD billions", "Total addressable market size"),
    DimensionSeed("market_growth_rate", "percent", "Year-over-year growth rate"),
    DimensionSeed("unit_shipments", "units", "Number of units shipped"),
    DimensionSeed("average_selling_price", "USD", "Average unit price"),
    DimensionSeed("deployment_count", "units", "Installed base / deployments"),
    DimensionSeed("roi_payback_period", "months", "Typical ROI payback period"),
    DimensionSeed("labor_productivity_gain", "percent", "Productivity improvement"),
    DimensionSeed("adoption_rate", "percent", "Market penetration rate"),
    DimensionSeed("funding_raised", "USD millions", "VC/investment funding"),
    DimensionSeed("employee_count", "employees", "Company workforce size")
  ]

  /** A table holding every default dimension holds `market_size` and
      `market_growth_rate`. */
  lemma DefaultDimensionsNamed(dimensions: seq<Dimension>)
    requires forall d :: d in DefaultDimensionSeeds ==>
               exists j :: 0 <= j < |dimensions| && dimensions[j].name == d.name
    ensures exists j :: 0 <= j < |dimensions| && dimensions[j].name == "market_size"
    ensures exists j :: 0 <= j < |dimensions| && dimensions[j].name == "market_growth_rate"
  {
    assert DefaultDimensionSeeds[0] in DefaultDimensionSeeds;
    assert DefaultDimensionSeeds[1] in DefaultDimensionSeeds;
  }

  /** The log entry `add_data_point` writes: an insert with no old snapshot
      and the arguments as given (the sector name even when it was not found). */
  function InsertEntry(logId: nat, recordId: nat, input: DataPointInput, now: Timestamp): LogEntry {
    LogEntry(logId, "data_points", recordId, Insert, None,
             Some(Inserted(input.dimensionName, input.value, input.sectorName, input.year)),
             "system", None, now)
  }

  /** The log entry `update_data_point_validation` writes: the old status
      paired with the new status and validator. */
  function UpdateEntry(logId: nat, recordId: int, oldStatus: Status, status: Status,
                       validatedBy: string, now: Timestamp): LogEntry {
    LogEntry(logId, "data_points", recordId, Update, Some(StatusWas(oldStatus)),
             Some(StatusSet(status, validatedBy)), "system", None, now)
  }

  /** The data points after `update_data_point_validation(id, ...)`: the
      row with that id carries the new validation, every other row is as it
      was, and nothing changes when no row has that id. */
  function UpdatedRows(rows: seq<Row>, id: int, status: Status, validatedBy: string,
                       notes: Option<string>, now: Timestamp): (r: seq<Row>)
    ensures |r| == |rows|
    ensures forall j :: 0 <= j < |rows| && j != id - 1 ==> r[j] == rows[j]
    ensures 1 <= id <= |rows| ==> r[id - 1] == ApplyValidation(rows[id - 1], status, validatedBy, notes, now)
  {
    if 1 <= id <= |rows| then rows[id - 1 := ApplyValidation(rows[id - 1], status, validatedBy, notes, now)]
    else rows
  }

  /** The change log after the same call: one update entry when the row
      exists, none otherwise. */
  function UpdatedLog(log: seq<LogEntry>, rows: seq<Row>, id: int, status: Status,
                      validatedBy: string, now: Timestamp): (r: seq<LogEntry>)
    ensures 1 <= id <= |rows| ==> |r| == |log| + 1 && r[..|log|] == log
    ensures !(1 <= id <= |rows|) ==> r == log
  {
    if 1 <= id <= |rows| then log + [UpdateEntry(|log| + 1, id, rows[id - 1].status, status, validatedBy, now)]
    else log
  }

  /** A sector of the seed's name exists, and every subcategory the seed
      names exists under it. */
  ghost predicate SectorSeeded(sectors: seq<Sector>, subcategories: seq<Subcategory>, seed: SectorSeed) {
    exists j :: 0 <= j < |sectors| && sectors[j].name == seed.name
      && forall n :: n in seed.subcategories ==>
           exists k :: 0 <= k < |subcategories| && SubcategoryIs(j + 1, n)(subcategories[k])
  }

  /** The taxonomy tables only grow, so what was seeded stays seeded. */
  lemma SeededGrows(sectors: seq<Sector>, subcategories: seq<Subcategory>, sectors': seq<Sector>,
                    subcategories': seq<Subcategory>, seed: SectorSeed)
    requires sectors <= sectors' && subcategories <= subcategories'
    requires SectorSeeded(sectors, subcategories, seed)
    ensures SectorSeeded(sectors', subcategories', seed)
  {
    var j :| 0 <= j < |sectors| && sectors[j].name == seed.name
             && forall n :: n in seed.subcategories ==>
                  exists k :: 0 <= k < |subcategories| && SubcategoryIs(j + 1, n)(subcategories[k]);
    assert sectors'[j] == sectors[j];
    forall n | n in seed.subcategories
      ensures exists k :: 0 <= k < |subcategories'| && SubcategoryIs(j + 1, n)(subcategories'[k])
    {
      var k :| 0 <= k < |subcategories| && SubcategoryIs(j + 1, n)(subcategories[k]);
      assert subcategories'[k] == subcategories[k];
    }
  }

  /** Every name exists as a subcategory of the sector with this id. */
  ghost predicate SubcategoriesPresent(subcategories: seq<Subcategory>, sectorId: nat, names: seq<string>) {
    forall n :: n in names ==> exists k :: 0 <= k < |subcategories| && SubcategoryIs(sectorId, n)(subcategories[k])
  }

  /** Every seed's dimension name exists. */
  ghost predicate DimensionsPresent(dimensions: seq<Dimension>, seeds: seq<DimensionSeed>) {
    forall d :: d in seeds ==> exists j :: 0 <= j < |dimensions| && dimensions[j].name == d.name
  }

  /** Sector names are unique, so a seeded sector is the one its name finds,
      and its subcategories hang under that id. */
  lemma SeededUnderId(sectors: seq<Sector>, subcategories: seq<Subcategory>, seed: SectorSeed, id: nat)
    requires SectorsWellFormed(sectors) && SectorSeeded(sectors, subcategories, seed)
    requires 1 <= id <= |sectors| && sectors[id - 1].name == seed.name
    ensures SubcategoriesPresent(subcategories, id, seed.subcategories)
  {
    var j :| 0 <= j < |sectors| && sectors[j].name == seed.name
             && forall n :: n in seed.subcategories ==>
                  exists k :: 0 <= k < |subcategories| && SubcategoryIs(j + 1, n)(subcategories[k]);
    assert j == id - 1;
  }

  function UrlIs(url: string): Source -> bool {
    (s: Source) => s.url == Some(url)
  }

  class Database {
    var sectors: seq<Sector>
    var subcategories: seq<Subcategory>
    var dimensions: seq<Dimension>
    var sources: seq<Source>
    var rows: seq<Row>
    /** `changes_log`: only ever appended to. */
    var log: seq<LogEntry>

    function Current(): Tables
      reads this
    {
      Tables(sectors, subcategories, dimensions, sources, rows)
    }

    ghost predicate Valid()
      reads this
    {
      WellFormed(Current()) && LogWellFormed(log)
    }

    constructor ()
      ensures Valid()
      ensures sectors == [] && subcategories == [] && dimensions == [] && sources == []
      ensures rows == [] && log == []
    {
      sectors, subcategories, dimensions, sources := [], [], [], [];
      rows, log := [], [];
    }

    // ------------------------------------------------------------ change log

    /** `_log_change`: appends one entry with the next id. */
    method LogChange(tableName: string, recordId: int, kind: LogKind, oldValue: Option<LogPayload>,
                     newValue: Option<LogPayload>, changedBy: string, reason: Option<string>,
                     now: Timestamp)
      requires LogWellFormed(log)
      modifies this`log
      ensures LogWellFormed(log)
      ensures log == old(log) + [LogEntry(|old(log)| + 1, tableName, recordId, kind, oldValue,
                                          newValue, changedBy, reason, now)]
    {
      log := log + [LogEntry(|log| + 1, tableName, recordId, kind, oldValue, newValue,
                             changedBy, reason, now)];
    }

    /** `get_changes`: entries of the named table (all tables when none is
        given) of a later date than `since`, newest first, at most `limit`. */
    method GetChanges(tableName: Option<string>, since: Option<Timestamp>, limit: int)
      returns (entries: seq<LogEntry>)
      ensures entries == LogQuery(log, tableName, since, limit)
    {
      var p := LogPred(tableName, since);
      entries := [];
      var i := |log|;
      while i > 0
        invariant 0 <= i <= |log|
        invariant entries == Take(NewestFirst(log[i..], p), limit)
      {
        i := i - 1;
        var e := log[i];
        assert log[i..][1..] == log[i + 1..];
        var before := NewestFirst(log[i + 1..], p);
        if p(e) {
          TakeSnoc(before, e, limit);
          if limit < 0 || |entries| < limit {
            entries := entries + [e];
          }
        }
      }
      assert log[0..] == log;
    }

    // ------------------------------------------------------------ sources

    /** `add_source`: a new source with the next id. */
    method AddSource(name: string, url: Option<string>, sourceType: string, reliability: real,
                     metadata: Option<Blob>, now: Timestamp) returns (id: nat)
      requires Valid()
      modifies this`sources
      ensures Valid()
      ensures id == |old(sources)| + 1
      ensures sources == old(sources) + [Source(id, name, url, sourceType, reliability, now, metadata)]
    {
      id := |sources| + 1;
      sources := sources + [Source(id, name, url, sourceType, reliability, now, metadata)];
    }

    /** `get_or_create_source`: the first source with this URL when a URL is
        given and one exists, otherwise a new source. */
    method GetOrCreateSource(name: string, url: Option<string>, sourceType: string, reliability: real,
                             metadata: Option<Blob>, now: Timestamp) returns (id: nat)
      requires Valid()
      modifies this`sources
      ensures Valid()
      ensures Given(url) && (exists j :: 0 <= j < |old(sources)| && old(sources)[j].url == url) ==>
                && sources == old(sources)
                && 1 <= id <= |sources| && sources[id - 1].url == url
                && forall j :: 0 <= j < id - 1 ==> sources[j].url != url
      ensures !(Given(url) && exists j :: 0 <= j < |old(sources)| && old(sources)[j].url == url) ==>
                && id == |old(sources)| + 1
                && sources == old(sources) + [Source(id, name, url, sourceType, reliability, now, metadata)]
    {
      if Given(url) {
        var found := FirstWhere(sources, UrlIs(url.value));
        if found.Some? {
          return found.value + 1;
        }
      }
      id := AddSource(name, url, sourceType, reliability, metadata, now);
    }

    // ------------------------------------------------------------ data points

    /** `add_data_point`: fails on an unknown dimension without writing
        anything; otherwise inserts the resolved row with the next id and
        appends exactly one insert entry to the change log. */
    method AddDataPoint(input: DataPointInput, now: Timestamp) returns (r: Result<nat>)
      requires Valid()
      modifies this
      ensures Valid()
      ensures sectors == old(sectors) && subcategories == old(subcategories)
      ensures dimensions == old(dimensions) && sources == old(sources)
      ensures var refs := ResolveRefs(old(Current()), input.dimensionName, input.sectorName,
                                      input.subcategoryName);
              refs.Err? ==> r == Err(UnknownDimension(input.dimensionName))
                            && rows == old(rows) && log == old(log)
      ensures var refs := ResolveRefs(old(Current()), input.dimensionName, input.sectorName,
                                      input.subcategoryName);
              refs.Ok? ==> && r == Ok(|old(rows)| + 1)
                           && rows == old(rows) + [NewRow(|old(rows)| + 1, refs.value, input, now)]
                           && log == old(log) + [InsertEntry(|old(log)| + 1, |old(rows)| + 1, input, now)]
    {
      var refs := ResolveRefs(Current(), input.dimensionName, input.sectorName, input.subcategoryName);
      if refs.Err? {
        return Err(refs.error);
      }
      var id := |rows| + 1;
      var row := NewRow(id, refs.value, input, now);
      rows := rows + [row];
      LogChange("data_points", id, Insert, None,
                Some(Inserted(input.dimensionName, input.value, input.sectorName, input.year)),
                "system", None, now);
      r := Ok(id);
    }

    /** `get_data_points`: joined rows matching every given filter, newest
        first, at most `limit` of them. */
    method GetDataPoints(f: RowFilter, limit: int) returns (result: seq<View>)
      ensures result == Query(Current(), f, limit)
    {
      var t := Current();
      var p := RowPred(t, f);
      result := [];
      var i := |rows|;
      while i > 0
        invariant 0 <= i <= |rows|
        invariant result == Views(t, Take(NewestFirst(rows[i..], p), limit))
      {
        i := i - 1;
        var row := rows[i];
        assert rows[i..][1..] == rows[i + 1..];
        ghost var before := NewestFirst(rows[i + 1..], p);
        assert result == Views(t, Take(before, limit));
        if p(row) {
          assert NewestFirst(rows[i..], p) == before + [row];
          TakeSnoc(before, row, limit);
          if limit < 0 || |result| < limit {
            ViewsSnoc(t, Take(before, limit), row);
            result := result + [ViewOf(t, row)];
          }
        } else {
          assert NewestFirst(rows[i..], p) == before;
        }
      }
      assert rows[0..] == rows;
    }

    /** `update_data_point_validation`: on a missing id returns false and
        writes nothing; otherwise sets status, validator and validation time,
        keeps the notes unless new ones are given, and appends exactly one
        update entry pairing the old status with the new one. */
    method UpdateDataPointValidation(id: int, status: Status, validatedBy: string,
                                     notes: Option<string>, now: Timestamp) returns (ok: bool)
      requires Valid()
      modifies this
      ensures Valid()
      ensures sectors == old(sectors) && subcategories == old(subcategories)
      ensures dimensions == old(dimensions) && sources == old(sources)
      ensures ok <==> 1 <= id <= |old(rows)|
      ensures rows == UpdatedRows(old(rows), id, status, validatedBy, notes, now)
      ensures log == UpdatedLog(old(log), old(rows), id, status, validatedBy, now)
    {
      if !(1 <= id <= |rows|) {
        return false;
      }
      var oldRow := rows[id - 1];
      rows := rows[id - 1 := ApplyValidation(oldRow, status, validatedBy, notes, now)];
      LogChange("data_points", id, Update, Some(StatusWas(oldRow.status)),
                Some(StatusSet(status, validatedBy)), "system", None, now);
      ok := true;
    }

    // ------------------------------------------------------------ taxonomy reads

    /** `get_sectors`: the sectors ordered by name, each with its own
        subcategories ordered by name. */
    method GetSectors() returns (listing: seq<SectorListing>)
      ensures ListedSectors(listing) == SortByKey(sectors, SectorKey)
      ensures InOrder(ListedSectors(listing), SectorKey)
      ensures multiset(ListedSectors(listing)) == multiset(sectors)
      ensures forall i :: 0 <= i < |listing| ==> ListsItsSubcategories(listing[i], subcategories)
    {
      var ordered := SortByKey(sectors, SectorKey);
      listing := [];
      var i := 0;
      while i < |ordered|
        invariant 0 <= i <= |ordered|
        invariant |listing| == i
        invariant forall k :: 0 <= k < i ==> listing[k] == ListingOf(ordered[k], subcategories)
      {
        listing := listing + [ListingOf(ordered[i], subcategories)];
        i := i + 1;
      }
      ListingSound(ordered, listing, subcategories);
      SortByKeySorts(sectors, SectorKey);
    }

    /** `get_dimensions`: the dimensions ordered by name. */
    method GetDimensions() returns (ordered: seq<Dimension>)
      ensures ordered == SortByKey(dimensions, DimensionKey)
      ensures InOrder(ordered, DimensionKey) && multiset(ordered) == multiset(dimensions)
    {
      ordered := SortByKey(dimensions, DimensionKey);
      SortByKeySorts(dimensions, DimensionKey);
    }

    // ------------------------------------------------------------ seeding

    /** INSERT OR IGNORE into `sectors`; gives the id of the sector with
        this name, new or existing. */
    method InsertSectorIfAbsent(name: string, description: string) returns (id: nat, created: bool)
      requires Valid()
      modifies this`sectors
      ensures Valid()
      ensures old(sectors) <= sectors
      ensures created <==> forall j :: 0 <= j < |old(sectors)| ==> old(sectors)[j].name != name
      ensures created ==> sectors == old(sectors) + [Sector(id, name, description)]
      ensures !created ==> sectors == old(sectors)
      ensures 1 <= id <= |sectors| && sectors[id - 1].name == name
    {
      var found := FirstWhere(sectors, SectorNameIs(name));
      if found.Some? {
        return found.value + 1, false;
      }
      id := |sectors| + 1;
      sectors := sectors + [Sector(id, name, description)];
      created := true;
    }

    /** INSERT OR IGNORE into `subcategories`, unique per sector. */
    method InsertSubcategoryIfAbsent(sectorId: nat, name: string) returns (created: bool)
      requires Valid() && 1 <= sectorId <= |sectors|
      modifies this`subcategories
      ensures Valid()
      ensures old(subcategories) <= subcategories
      ensures created <==> forall j :: 0 <= j < |old(subcategories)| ==>
                             !SubcategoryIs(sectorId, name)(old(subcategories)[j])
      ensures created ==> subcategories == old(subcategories) + [Subcategory(|old(subcategories)| + 1, sectorId, name)]
      ensures !created ==> subcategories == old(subcategories)
      ensures exists k :: 0 <= k < |subcategories| && SubcategoryIs(sectorId, name)(subcategories[k])
    {
      var found := FirstWhere(subcategories, SubcategoryIs(sectorId, name));
      if found.Some? {
        return false;
      }
      subcategories := subcategories + [Subcategory(|subcategories| + 1, sectorId, name)];
      assert SubcategoryIs(sectorId, name)(subcategories[|subcategories| - 1]);
      created := true;
    }

    /** INSERT OR IGNORE into `dimensions`. */
    method InsertDimensionIfAbsent(seed: DimensionSeed) returns (created: bool)
      requires Valid()
      modifies this`dimensions
      ensures Valid()
      ensures old(dimensions) <= dimensions
      ensures created <==> forall j :: 0 <= j < |old(dimensions)| ==> old(dimensions)[j].name != seed.name
      ensures created ==> dimensions == old(dimensions) + [Dimension(|old(dimensions)| + 1, seed.name, seed.unit, seed.description)]
      ensures !created ==> dimensions == old(dimensions)
    {
      var found := FirstWhere(dimensions, DimensionNameIs(seed.name));
      if found.Some? {
        return false;
      }
      dimensions := dimensions + [Dimension(|dimensions| + 1, seed.name, seed.unit, seed.description)];
      created := true;
    }

    /** `seed_default_data` over the given seeds: every seeded sector,
        subcategory (under its sector) and dimension exists afterwards, the
        counts are the number of rows created, and nothing else changes. */
    method Seed(sectorSeeds: seq<SectorSeed>, dimensionSeeds: seq<DimensionSeed>)
      returns (counts: SeedCounts)
      requires Valid()
      modifies this
      ensures Valid()
      ensures rows == old(rows) && log == old(log) && sources == old(sources)
      ensures old(sectors) <= sectors && old(subcategories) <= subcategories && old(dimensions) <= dimensions
      ensures counts.sectorsCreated == |sectors| - |old(sectors)|
      ensures counts.subcategoriesCreated == |subcategories| - |old(subcategories)|
      ensures counts.dimensionsCreated == |dimensions| - |old(dimensions)|
      ensures forall s :: s in sectorSeeds ==> SectorSeeded(sectors, subcategories, s)
      ensures forall d :: d in dimensionSeeds ==> exists j :: 0 <= j < |dimensions| && dimensions[j].name == d.name
      ensures (forall s :: s in sectorSeeds ==> SectorSeeded(old(sectors), old(subcategories), s))
              && DimensionsPresent(old(dimensions), dimensionSeeds)
              ==> counts == SeedCounts(0, 0, 0)
    {
      var sectorsCreated, subcategoriesCreated := SeedSectors(sectorSeeds);
      var dimensionsCreated := SeedDimensions(dimensionSeeds);
      counts := SeedCounts(sectorsCreated, subcategoriesCreated, dimensionsCreated);
    }

    /** The sector half of `seed_default_data`: every seeded sector exists
        afterwards with its subcategories under it; only `sectors` and
        `subcategories` grow. */
    method SeedSectors(sectorSeeds: seq<SectorSeed>) returns (sectorsCreated: nat, subcategoriesCreated: nat)
      requires Valid()
      modifies this`sectors, this`subcategories
      ensures Valid()
      ensures old(sectors) <= sectors && old(subcategories) <= subcategories
      ensures sectorsCreated == |sectors| - |old(sectors)|
      ensures subcategoriesCreated == |subcategories| - |old(subcategories)|
      ensures forall s :: s in sectorSeeds ==> SectorSeeded(sectors, subcategories, s)
      ensures (forall s :: s in sectorSeeds ==> SectorSeeded(old(sectors), old(subcategories), s))
              ==> sectors == old(sectors) && subcategories == old(subcategories)
    {
      ghost var seededBefore := forall s :: s in sectorSeeds ==> SectorSeeded(sectors, subcategories, s);
      sectorsCreated, subcategoriesCreated := 0, 0;
      var i := 0;
      while i < |sectorSeeds|
        invariant 0 <= i <= |sectorSeeds|
        invariant Valid()
        invariant old(sectors) <= sectors && old(subcategories) <= subcategories
        invariant sectorsCreated == |sectors| - |old(sectors)|
        invariant subcategoriesCreated == |subcategories| - |old(subcategories)|
        invariant forall s :: s in sectorSeeds[..i] ==> SectorSeeded(sectors, subcategories, s)
        invariant seededBefore ==> sectors == old(sectors) && subcategories == old(subcategories)
      {
        var seed := sectorSeeds[i];
        ghost var before, beforeSubs := sectors, subcategories;
        assert seededBefore ==> seed in sectorSeeds;
        var created, subCreated := SeedSector(seed);
        if created {
          sectorsCreated := sectorsCreated + 1;
        }
        subcategoriesCreated := subcategoriesCreated + subCreated;
        forall s | s in sectorSeeds[..i + 1]
          ensures SectorSeeded(sectors, subcategories, s)
        {
          if s != seed {
            assert s in sectorSeeds[..i];
            SeededGrows(before, beforeSubs, sectors, subcategories, s);
          }
        }
        i := i + 1;
      }
      assert sectorSeeds[..i] == sectorSeeds;
    }

    /** One sector of the seeding loop, with its subcategories; nothing is
        added when it is seeded already. */
    method SeedSector(seed: SectorSeed) returns (created: bool, subCreated: nat)
      requires Valid()
      modifies this`sectors, this`subcategories
      ensures Valid()
      ensures old(sectors) <= sectors && old(subcategories) <= subcategories
      ensures |sectors| == |old(sectors)| + (if created then 1 else 0)
      ensures subCreated == |subcategories| - |old(subcategories)|
      ensures SectorSeeded(sectors, subcategories, seed)
      ensures SectorSeeded(old(sectors), old(subcategories), seed)
              ==> sectors == old(sectors) && subcategories == old(subcategories)
    {
      ghost var seededBefore := SectorSeeded(sectors, subcategories, seed);
      var sectorId;
      sectorId, created := InsertSectorIfAbsent(seed.name, seed.description);
      if seededBefore {
        SeededUnderId(sectors, subcategories, seed, sectorId);
      }
      subCreated := SeedSubcategories(sectorId, seed.subcategories);
      assert sectors[sectorId - 1].name == seed.name;
    }

    /** The subcategories of one seeded sector: each exists under that sector
        afterwards; only `subcategories` grows. */
    method SeedSubcategories(sectorId: nat, names: seq<string>) returns (created: nat)
      requires Valid() && 1 <= sectorId <= |sectors|
      modifies this`subcategories
      ensures Valid()
      ensures old(subcategories) <= subcategories
      ensures created == |subcategories| - |old(subcategories)|
      ensures forall n :: n in names ==>
                exists k :: 0 <= k < |subcategories| && SubcategoryIs(sectorId, n)(subcategories[k])
      ensures SubcategoriesPresent(old(subcategories), sectorId, names) ==> subcategories == old(subcategories)
    {
      ghost var presentBefore := SubcategoriesPresent(subcategories, sectorId, names);
      created := 0;
      var i := 0;
      while i < |names|
        invariant 0 <= i <= |names|
        invariant Valid()
        invariant old(subcategories) <= subcategories
        invariant created == |subcategories| - |old(subcategories)|
        invariant forall n :: n in names[..i] ==>
                    exists k :: 0 <= k < |subcategories| && SubcategoryIs(sectorId, n)(subcategories[k])
        invariant presentBefore ==> subcategories == old(subcategories)
      {
        assert presentBefore ==> names[i] in names;
        ghost var before := subcategories;
        var subCreated := InsertSubcategoryIfAbsent(sectorId, names[i]);
        if subCreated {
          created := created + 1;
        }
        forall n | n in names[..i + 1]
          ensures exists k :: 0 <= k < |subcategories| && SubcategoryIs(sectorId, n)(subcategories[k])
        {
          if n != names[i] {
            assert n in names[..i];
            var k :| 0 <= k < |before| && SubcategoryIs(sectorId, n)(before[k]);
            assert subcategories[k] == before[k];
          }
        }
        i := i + 1;
      }
      assert names[..i] == names;
    }

    /** The dimension half of `seed_default_data`: every seeded dimension
        exists afterwards; only `dimensions` grows. */
    method SeedDimensions(dimensionSeeds: seq<DimensionSeed>) returns (dimensionsCreated: nat)
      requires Valid()
      modifies this`dimensions
      ensures Valid()
      ensures old(dimensions) <= dimensions
      ensures dimensionsCreated == |dimensions| - |old(dimensions)|
      ensures forall d :: d in dimensionSeeds ==> exists j :: 0 <= j < |dimensions| && dimensions[j].name == d.name
      ensures DimensionsPresent(old(dimensions), dimensionSeeds) ==> dimensions == old(dimensions)
    {
      ghost var presentBefore := DimensionsPresent(dimensions, dimensionSeeds);
      dimensionsCreated := 0;
      var d := 0;
      while d < |dimensionSeeds|
        invariant 0 <= d <= |dimensionSeeds|
        invariant Valid()
        invariant old(dimensions) <= dimensions
        invariant dimensionsCreated == |dimensions| - |old(dimensions)|
        invariant forall s :: s in dimensionSeeds[..d] ==> exists j :: 0 <= j < |dimensions| && dimensions[j].name == s.name
        invariant presentBefore ==> dimensions == old(dimensions)
      {
        assert presentBefore ==> dimensionSeeds[d] in dimensionSeeds;
        ghost var before := dimensions;
        var created := InsertDimensionIfAbsent(dimensionSeeds[d]);
        if created {
          dimensionsCreated := dimensionsCreated + 1;
        }
        forall s | s in dimensionSeeds[..d + 1]
          ensures exists j :: 0 <= j < |dimensions| && dimensions[j].name == s.name
        {
          if s in dimensionSeeds[..d] {
            var j :| 0 <= j < |before| && before[j].name == s.name;
            assert dimensions[j] == before[j];
          } else {
            assert s == dimensionSeeds[d];
            if !created {
              var j :| 0 <= j < |before| && before[j].name == s.name;
            } else {
              assert dimensions[|dimensions| - 1].name == s.name;
            }
          }
        }
        d := d + 1;
      }
      assert dimensionSeeds[..d] == dimensionSeeds;
    }

    /** `seed_default_data`: the configured sectors, subcategories and
        dimensions (technologies are not part of this model). */
    method SeedDefaultData() returns (counts: SeedCounts)
      requires Valid()
      modifies this
      ensures Valid()
      ensures rows == old(rows) && log == old(log) && sources == old(sources)
      ensures old(sectors) <= sectors && old(subcategories) <= subcategories && old(dimensions) <= dimensions
      ensures counts.sectorsCreated == |sectors| - |old(sectors)|
      ensures counts.subcategoriesCreated == |subcategories| - |old(subcategories)|
      ensures counts.dimensionsCreated == |dimensions| - |old(dimensions)|
      ensures forall s :: s in DefaultSectorSeeds ==> SectorSeeded(sectors, subcategories, s)
      ensures forall d :: d in DefaultDimensionSeeds ==>
                exists j :: 0 <= j < |dimensions| && dimensions[j].name == d.name
      ensures exists j :: 0 <= j < |dimensions| && dimensions[j].name == "market_size"
      ensures exists j :: 0 <= j < |dimensions| && dimensions[j].name == "market_growth_rate"
      ensures (forall s :: s in DefaultSectorSeeds ==> SectorSeeded(old(sectors), old(subcategories), s))
              && DimensionsPresent(old(dimensions), DefaultDimensionSeeds)
              ==> counts == SeedCounts(0, 0, 0)
    {
      counts := Seed(DefaultSectorSeeds, DefaultDimensionSeeds);
      DefaultDimensionsNamed(dimensions);
    }
  }
}
