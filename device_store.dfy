/**
 * The device database of sambot/database/devices.py: four SQLite tables kept as sequences
 * of rows in insertion (rowid) order.
 *
 * `devices` has the primary key `DeviceID` and `models` the primary key `Model`;
 * `regions` and `details` have no key, so `INSERT OR REPLACE` into them only appends.
 * Every statement goes through a helper that logs and swallows any database error, so
 * none of these operations fails.
 */
module DeviceStore {

  import opened Wrappers
  import opened Strings
  import opened Dicts
  import opened SqlLike
  import opened DeviceRecord

  datatype DeviceRow = DeviceRow(id: int, name: string, url: string, imgUrl: string, shortDescription: string)
  datatype ModelRow = ModelRow(deviceId: int, model: string)
  datatype RegionRow = RegionRow(model: string, region: string)
  datatype DetailRow = DetailRow(deviceId: int, category: string, name: string, value: string)

  datatype Tables = Tables(devices: seq<DeviceRow>, models: seq<ModelRow>, regions: seq<RegionRow>, details: seq<DetailRow>)

  function RowOf(d: Device): DeviceRow {
    DeviceRow(d.id, d.name, d.url, d.imgUrl, d.shortDescription)
  }

  /** The primary keys hold: one `devices` row per id and one `models` row per model. */
  predicate KeyedDevices(rows: seq<DeviceRow>) {
    forall i, j :: 0 <= i < |rows| && 0 <= j < |rows| && rows[i].id == rows[j].id ==> i == j
  }

  predicate KeyedModels(rows: seq<ModelRow>) {
    forall i, j :: 0 <= i < |rows| && 0 <= j < |rows| && rows[i].model == rows[j].model ==> i == j
  }

  predicate Keyed(t: Tables) {
    KeyedDevices(t.devices) && KeyedModels(t.models)
  }

  // ---------------------------------------------------------------------------------
  // Row selections (the WHERE clauses)
  // ---------------------------------------------------------------------------------

  /** `SELECT Model FROM models WHERE DeviceID = ?` with `fetchone`: the first such row. */
  function FirstModelOf(rows: seq<ModelRow>, id: int): (r: Option<string>)
    ensures r.Some? ==> ModelRow(id, r.value) in rows
    ensures r.None? <==> forall row :: row in rows ==> row.deviceId != id
  {
    if rows == [] then None
    else if rows[0].deviceId == id then Some(rows[0].model)
    else
      assert forall row :: row in rows ==> row == rows[0] || row in rows[1..];
      FirstModelOf(rows[1..], id)
  }

  /** The `devices` rows whose id is not `id`, in order. */
  function WithoutDevice(rows: seq<DeviceRow>, id: int): (r: seq<DeviceRow>)
    ensures forall row :: row in r <==> row in rows && row.id != id
  {
    if rows == [] then []
    else
      var init := WithoutDevice(rows[..|rows| - 1], id);
      var last := rows[|rows| - 1];
      assert rows == rows[..|rows| - 1] + [last];
      if last.id != id then init + [last] else init
  }

  /** The `models` rows for models other than `m`, in order. */
  function WithoutModel(rows: seq<ModelRow>, m: string): (r: seq<ModelRow>)
    ensures forall row :: row in r <==> row in rows && row.model != m
  {
    if rows == [] then []
    else
      var init := WithoutModel(rows[..|rows| - 1], m);
      var last := rows[|rows| - 1];
      assert rows == rows[..|rows| - 1] + [last];
      if last.model != m then init + [last] else init
  }

  /** The `regions` rows for models other than `m` (what `DELETE … WHERE Model = ?` leaves). */
  function WithoutRegionsOf(rows: seq<RegionRow>, m: string): (r: seq<RegionRow>)
    ensures forall row :: row in r <==> row in rows && row.model != m
  {
    Filter(rows, (row: RegionRow) => row.model != m)
  }

  // ---------------------------------------------------------------------------------
  // `save`
  // ---------------------------------------------------------------------------------

  /** `INSERT OR REPLACE INTO models` for each of `ms` in turn. */
  function ReplaceModels(rows: seq<ModelRow>, id: int, ms: seq<string>): seq<ModelRow> {
    if ms == [] then rows
    else
      var m := ms[|ms| - 1];
      WithoutModel(ReplaceModels(rows, id, ms[..|ms| - 1]), m) + [ModelRow(id, m)]
  }

  /** The rows inserted for one model's region set, in its order. */
  function RegionRowsOf(m: string, rs: seq<string>): seq<RegionRow> {
    if rs == [] then []
    else RegionRowsOf(m, rs[..|rs| - 1]) + [RegionRow(m, rs[|rs| - 1])]
  }

  /** The rows inserted for the region set of `m`; an empty or missing set inserts none. */
  function RegionRowsOfKey(regions: Dict<string, seq<string>>, m: string): seq<RegionRow> {
    var rs := Get(regions, m);
    if rs.Some? && rs.value != [] then RegionRowsOf(m, rs.value) else []
  }

  /** The rows inserted for the region sets of `keys`, key by key. */
  function RegionRowsFor(regions: Dict<string, seq<string>>, keys: seq<string>): seq<RegionRow> {
    if keys == [] then []
    else RegionRowsFor(regions, keys[..|keys| - 1]) + RegionRowsOfKey(regions, keys[|keys| - 1])
  }

  /** The `details` rows inserted for the labels `props` of one category. */
  function DetailRowsOf(id: int, c: string, inner: Dict<string, string>, props: seq<string>): seq<DetailRow>
    requires forall p :: p in props ==> p in Keys(inner)
  {
    if props == [] then []
    else
      var p := props[|props| - 1];
      DetailRowsOf(id, c, inner, props[..|props| - 1]) + [DetailRow(id, c, p, Get(inner, p).value)]
  }

  /** The `details` rows inserted for the labels of category `c`. */
  function DetailRowsOfCategory(id: int, details: Dict<string, Dict<string, string>>, c: string): seq<DetailRow> {
    var inner := Get(details, c).GetOr([]);
    DetailRowsOf(id, c, inner, Keys(inner))
  }

  /** The `details` rows inserted for the categories `cats`, label by label. */
  function DetailRowsFor(id: int, details: Dict<string, Dict<string, string>>, cats: seq<string>): seq<DetailRow> {
    if cats == [] then []
    else DetailRowsFor(id, details, cats[..|cats| - 1]) + DetailRowsOfCategory(id, details, cats[|cats| - 1])
  }

  /** One row per region of the set, and no other. */
  lemma {:induction false} RegionRowsOfRows(m: string, rs: seq<string>)
    ensures forall row :: row in RegionRowsOf(m, rs) <==> row.model == m && row.region in rs
  {
    if rs != [] {
      assert rs == rs[..|rs| - 1] + [rs[|rs| - 1]];
      RegionRowsOfRows(m, rs[..|rs| - 1]);
    }
  }

  /** A row for every region of every listed model's set, and no other. */
  lemma {:induction false} RegionRowsForRows(regions: Dict<string, seq<string>>, keys: seq<string>)
    ensures forall row :: row in RegionRowsFor(regions, keys) <==>
              row.model in keys && Get(regions, row.model).Some? && row.region in Get(regions, row.model).value
  {
    if keys != [] {
      var m := keys[|keys| - 1];
      assert keys == keys[..|keys| - 1] + [m];
      RegionRowsForRows(regions, keys[..|keys| - 1]);
      var rs := Get(regions, m);
      if rs.Some? {
        RegionRowsOfRows(m, rs.value);
      }
    }
  }

  /** A row for every listed label with its value, and no other. */
  lemma {:induction false} DetailRowsOfRows(id: int, c: string, inner: Dict<string, string>, props: seq<string>)
    requires forall p :: p in props ==> p in Keys(inner)
    ensures forall row :: row in DetailRowsOf(id, c, inner, props) <==>
              row.deviceId == id && row.category == c && row.name in props && Get(inner, row.name) == Some(row.value)
  {
    if props != [] {
      var p := props[|props| - 1];
      assert props == props[..|props| - 1] + [p];
      DetailRowsOfRows(id, c, inner, props[..|props| - 1]);
    }
  }

  /** A row for every label of every listed category, and no other. */
  lemma {:induction false} DetailRowsForRows(id: int, details: Dict<string, Dict<string, string>>, cats: seq<string>)
    ensures forall row :: row in DetailRowsFor(id, details, cats) <==>
              && row.deviceId == id && row.category in cats && Get(details, row.category).Some?
              && Get(Get(details, row.category).value, row.name) == Some(row.value)
  {
    if cats != [] {
      var c := cats[|cats| - 1];
      assert cats == cats[..|cats| - 1] + [c];
      DetailRowsForRows(id, details, cats[..|cats| - 1]);
      var inner := Get(details, c).GetOr([]);
      DetailRowsOfRows(id, c, inner, Keys(inner));
    }
  }

  lemma RegionRowsForStep(regions: Dict<string, seq<string>>, keys: seq<string>, k: nat)
    requires k < |keys|
    ensures RegionRowsFor(regions, keys[..k + 1]) == RegionRowsFor(regions, keys[..k]) + RegionRowsOfKey(regions, keys[k])
  {
    assert keys[..k + 1][..k] == keys[..k];
  }

  lemma DetailRowsForStep(id: int, details: Dict<string, Dict<string, string>>, cats: seq<string>, c: nat)
    requires c < |cats|
    ensures DetailRowsFor(id, details, cats[..c + 1]) == DetailRowsFor(id, details, cats[..c]) + DetailRowsOfCategory(id, details, cats[c])
  {
    assert cats[..c + 1][..c] == cats[..c];
  }

  /**
   * The tables after `save(device)`.
   *
   * Only the regions of the device's first stored model are deleted. The cleanup script
   * that follows is run with `executescript`, which takes no parameters, so its `?` are
   * NULL and it deletes nothing: the models, regions and details saved before stay.
   */
  function SaveSpec(t: Tables, d: Device): Tables {
    var first := FirstModelOf(t.models, d.id);
    var regions := if first.Some? then WithoutRegionsOf(t.regions, first.value) else t.regions;
    Tables(
      WithoutDevice(t.devices, d.id) + [RowOf(d)],
      ReplaceModels(t.models, d.id, d.models),
      regions + RegionRowsFor(d.regions, Keys(d.regions)),
      t.details + DetailRowsFor(d.id, d.details, Keys(d.details)))
  }

  lemma DetailRowsOfStep(id: int, c: string, inner: Dict<string, string>, j: nat)
    requires j < |inner|
    ensures Keys(inner)[j] in Keys(inner) && Get(inner, Keys(inner)[j]).Some?
    ensures DetailRowsOf(id, c, inner, Keys(inner)[..j + 1])
            == DetailRowsOf(id, c, inner, Keys(inner)[..j]) + [DetailRow(id, c, Keys(inner)[j], Get(inner, Keys(inner)[j]).value)]
  {
    var props := Keys(inner);
    assert props[..j + 1][..j] == props[..j];
  }

  lemma AppendAssoc<T>(a: seq<T>, b: seq<T>, c: seq<T>)
    ensures a + b + c == a + (b + c)
  {
  }

  class Devices {
    var devices: seq<DeviceRow>
    var models: seq<ModelRow>
    var regions: seq<RegionRow>
    var details: seq<DetailRow>

    function State(): Tables
      reads this
    {
      Tables(devices, models, regions, details)
    }

    /** A fresh database after `create_tables`. */
    constructor ()
      ensures State() == Tables([], [], [], []) && Keyed(State())
    {
      devices, models, regions, details := [], [], [], [];
    }

    /** `save(device)`, statement by statement. */
    method Save(d: Device)
      modifies this
      ensures State() == SaveSpec(old(State()), d)
    {
      var first := FirstModelOf(models, d.id);
      if first.Some? {
        regions := WithoutRegionsOf(regions, first.value);
      }
      // The DELETE script deletes nothing (see SaveSpec).
      devices := WithoutDevice(devices, d.id) + [RowOf(d)];
      SaveModelRows(d.id, d.models);
      SaveRegionRows(d.regions);
      SaveDetailRows(d.id, d.details);
    }

    /** One `INSERT OR REPLACE INTO models` per model. */
    method SaveModelRows(id: int, ms: seq<string>)
      modifies this
      ensures models == ReplaceModels(old(models), id, ms)
      ensures devices == old(devices) && regions == old(regions) && details == old(details)
    {
      var i := 0;
      while i < |ms|
        invariant 0 <= i <= |ms|
        invariant models == ReplaceModels(old(models), id, ms[..i])
        invariant devices == old(devices) && regions == old(regions) && details == old(details)
      {
        assert ms[..i + 1][..i] == ms[..i];
        models := WithoutModel(models, ms[i]) + [ModelRow(id, ms[i])];
        i := i + 1;
      }
      assert ms[..i] == ms;
    }

    /** One insert per region of every non-empty region set, model by model. */
    method SaveRegionRows(rd: Dict<string, seq<string>>)
      modifies this
      ensures regions == old(regions) + RegionRowsFor(rd, Keys(rd))
      ensures devices == old(devices) && models == old(models) && details == old(details)
    {
      var keys := Keys(rd);
      var k := 0;
      while k < |keys|
        invariant 0 <= k <= |keys|
        invariant regions == old(regions) + RegionRowsFor(rd, keys[..k])
        invariant devices == old(devices) && models == old(models) && details == old(details)
      {
        SaveRegionsOfKey(rd, keys[k]);
        RegionRowsForStep(rd, keys, k);
        AppendAssoc(old(regions), RegionRowsFor(rd, keys[..k]), RegionRowsOfKey(rd, keys[k]));
        k := k + 1;
      }
      assert keys[..k] == keys;
    }

    /** The inserts for the region set of `m`, if it has a non-empty one. */
    method SaveRegionsOfKey(rd: Dict<string, seq<string>>, m: string)
      modifies this
      ensures regions == old(regions) + RegionRowsOfKey(rd, m)
      ensures devices == old(devices) && models == old(models) && details == old(details)
    {
      var rs := Get(rd, m);
      if rs.Some? && rs.value != [] {
        SaveRegionsOf(m, rs.value);
      }
    }

    /** The inserts of one model's region set. */
    method SaveRegionsOf(m: string, rs: seq<string>)
      modifies this
      ensures regions == old(regions) + RegionRowsOf(m, rs)
      ensures devices == old(devices) && models == old(models) && details == old(details)
    {
      var j := 0;
      while j < |rs|
        invariant 0 <= j <= |rs|
        invariant regions == old(regions) + RegionRowsOf(m, rs[..j])
        invariant devices == old(devices) && models == old(models) && details == old(details)
      {
        assert rs[..j + 1][..j] == rs[..j];
        regions := regions + [RegionRow(m, rs[j])];
        j := j + 1;
      }
      assert rs[..j] == rs;
    }

    /** One insert per label of every category. */
    method SaveDetailRows(id: int, dd: Dict<string, Dict<string, string>>)
      modifies this
      ensures details == old(details) + DetailRowsFor(id, dd, Keys(dd))
      ensures devices == old(devices) && models == old(models) && regions == old(regions)
    {
      var cats := Keys(dd);
      var c := 0;
      while c < |cats|
        invariant 0 <= c <= |cats|
        invariant details == old(details) + DetailRowsFor(id, dd, cats[..c])
        invariant devices == old(devices) && models == old(models) && regions == old(regions)
      {
        var inner := Get(dd, cats[c]).GetOr([]);
        SaveDetailsOf(id, cats[c], inner);
        DetailRowsForStep(id, dd, cats, c);
        AppendAssoc(old(details), DetailRowsFor(id, dd, cats[..c]), DetailRowsOfCategory(id, dd, cats[c]));
        c := c + 1;
      }
      assert cats[..c] == cats;
    }

    /** The inserts of one category's labels. */
    method SaveDetailsOf(id: int, c: string, inner: Dict<string, string>)
      modifies this
      ensures details == old(details) + DetailRowsOf(id, c, inner, Keys(inner))
      ensures devices == old(devices) && models == old(models) && regions == old(regions)
    {
      var props := Keys(inner);
      var j := 0;
      while j < |props|
        invariant 0 <= j <= |props|
        invariant details == old(details) + DetailRowsOf(id, c, inner, props[..j])
        invariant devices == old(devices) && models == old(models) && regions == old(regions)
      {
        DetailRowsOfStep(id, c, inner, j);
        details := details + [DetailRow(id, c, props[j], Get(inner, props[j]).value)];
        j := j + 1;
      }
      assert props[..j] == props;
    }
  }

  // ---------------------------------------------------------------------------------
  // Queries
  // ---------------------------------------------------------------------------------

  /** `get_all_models()`: the `Model` column in rowid order, or `None` when there is no row. */
  function GetAllModels(t: Tables): (r: Option<seq<string>>)
    ensures r.None? <==> t.models == []
    ensures r.Some? ==> |r.value| == |t.models| && forall i :: 0 <= i < |t.models| ==> r.value[i] == t.models[i].model
  {
    if t.models == [] then None
    else
      var ms := seq(|t.models|, i requires 0 <= i < |t.models| => t.models[i].model);
      assert forall i :: 0 <= i < |t.models| ==> ms[i] == t.models[i].model;
      Some(ms)
  }

  /** The region codes stored for model `m`, in order. */
  function RegionsOf(rows: seq<RegionRow>, m: string): (r: seq<string>)
    ensures forall x :: x in r <==> RegionRow(m, x) in rows
  {
    if rows == [] then []
    else
      var last := rows[|rows| - 1];
      assert rows == rows[..|rows| - 1] + [last];
      RegionsOf(rows[..|rows| - 1], m) + (if last.model == m then [last.region] else [])
  }

  /** `get_regions_by_model(model)`: its regions, or `None` when it has none. */
  function GetRegionsByModel(t: Tables, m: string): (r: Option<seq<string>>)
    ensures r.None? <==> forall row :: row in t.regions ==> row.model != m
    ensures r.Some? ==> forall x :: x in r.value <==> RegionRow(m, x) in t.regions
  {
    var rs := RegionsOf(t.regions, m);
    if rs == [] then
      assert forall row :: row in t.regions ==> row.model != m by {
        forall row | row in t.regions
          ensures row.model != m
        {
          assert row == RegionRow(row.model, row.region);
          assert row.region !in rs;
        }
      }
      None
    else
      assert RegionRow(m, rs[0]) in t.regions;
      Some(rs)
  }

  /** Whether some `models` row of device `id` is `LIKE` the pattern. */
  predicate SomeModelLike(rows: seq<ModelRow>, id: int, pattern: string) {
    exists row :: row in rows && row.deviceId == id && Like(row.model, pattern)
  }

  /** The rows of `devs` whose name, or one of whose models, is `LIKE` the pattern. */
  function SearchIn(devs: seq<DeviceRow>, models: seq<ModelRow>, pattern: string): (r: seq<DeviceRow>)
    ensures forall row :: row in r <==>
              row in devs && (Like(row.name, pattern) || SomeModelLike(models, row.id, pattern))
  {
    if devs == [] then []
    else
      var last := devs[|devs| - 1];
      assert devs == devs[..|devs| - 1] + [last];
      SearchIn(devs[..|devs| - 1], models, pattern)
        + (if Like(last.name, pattern) || SomeModelLike(models, last.id, pattern) then [last] else [])
  }

  /** `search_devices(query)`: the pattern `%query%` against names and models. */
  function SearchDevices(t: Tables, query: string): (r: seq<DeviceRow>)
    ensures forall row :: row in r ==> row in t.devices
  {
    SearchIn(t.devices, t.models, "%" + query + "%")
  }

  /** `get_device_by_id(id)`: the first row with that id, as `fetchone` returns it. */
  function GetDeviceById(t: Tables, id: int): (r: Option<DeviceRow>)
    ensures r.Some? ==> r.value in t.devices && r.value.id == id
    ensures r.None? <==> forall row :: row in t.devices ==> row.id != id
  {
    FirstDevice(t.devices, id)
  }

  function FirstDevice(rows: seq<DeviceRow>, id: int): (r: Option<DeviceRow>)
    ensures r.Some? ==> r.value in rows && r.value.id == id
    ensures r.None? <==> forall row :: row in rows ==> row.id != id
  {
    if rows == [] then None
    else if rows[0].id == id then Some(rows[0])
    else
      assert forall row :: row in rows ==> row == rows[0] || row in rows[1..];
      FirstDevice(rows[1..], id)
  }

  /** `get_specs_by_id(id)`: every `details` row of that device. */
  function GetSpecsById(t: Tables, id: int): (r: seq<DetailRow>)
    ensures forall row :: row in r <==> row in t.details && row.deviceId == id
  {
    SpecsOf(t.details, id)
  }

  function SpecsOf(rows: seq<DetailRow>, id: int): (r: seq<DetailRow>)
    ensures forall row :: row in r <==> row in rows && row.deviceId == id
  {
    if rows == [] then []
    else
      var last := rows[|rows| - 1];
      assert rows == rows[..|rows| - 1] + [last];
      SpecsOf(rows[..|rows| - 1], id) + (if last.deviceId == id then [last] else [])
  }

  // ---------------------------------------------------------------------------------
  // What `save` does to the tables
  // ---------------------------------------------------------------------------------

  /** After `save`, the models table holds the saved models for this device and no other row for them. */
  lemma {:induction false} ReplaceModelsRows(rows: seq<ModelRow>, id: int, ms: seq<string>)
    ensures forall row :: row in ReplaceModels(rows, id, ms) <==>
              (row in rows && row.model !in ms) || (row.model in ms && row.deviceId == id)
  {
    if ms != [] {
      var init := ms[..|ms| - 1];
      assert ms == init + [ms[|ms| - 1]];
      ReplaceModelsRows(rows, id, init);
    }
  }

  /** Appending a row whose key is new keeps a table keyed. */
  lemma AppendModelKeyed(w: seq<ModelRow>, x: ModelRow)
    requires KeyedModels(w) && forall row :: row in w ==> row.model != x.model
    ensures KeyedModels(w + [x])
  {
    var r := w + [x];
    forall i, j | 0 <= i < |r| && 0 <= j < |r| && r[i].model == r[j].model
      ensures i == j
    {
      if i < |w| && j < |w| {
        assert w[i].model == w[j].model;
      }
    }
  }

  lemma AppendDeviceKeyed(w: seq<DeviceRow>, x: DeviceRow)
    requires KeyedDevices(w) && forall row :: row in w ==> row.id != x.id
    ensures KeyedDevices(w + [x])
  {
    var r := w + [x];
    forall i, j | 0 <= i < |r| && 0 <= j < |r| && r[i].id == r[j].id
      ensures i == j
    {
      if i < |w| && j < |w| {
        assert w[i].id == w[j].id;
      }
    }
  }

  lemma {:induction false} WithoutModelKeyed(rows: seq<ModelRow>, m: string)
    requires KeyedModels(rows)
    ensures KeyedModels(WithoutModel(rows, m))
  {
    if rows != [] {
      var init := rows[..|rows| - 1];
      var last := rows[|rows| - 1];
      assert KeyedModels(init) by {
        assert forall i :: 0 <= i < |init| ==> init[i] == rows[i];
      }
      WithoutModelKeyed(init, m);
      if last.model != m {
        forall row | row in WithoutModel(init, m)
          ensures row.model != last.model
        {
          var i :| 0 <= i < |init| && init[i] == row;
          assert rows[i] == row;
        }
        AppendModelKeyed(WithoutModel(init, m), last);
      }
    }
  }

  lemma {:induction false} WithoutDeviceKeyed(rows: seq<DeviceRow>, id: int)
    requires KeyedDevices(rows)
    ensures KeyedDevices(WithoutDevice(rows, id))
  {
    if rows != [] {
      var init := rows[..|rows| - 1];
      var last := rows[|rows| - 1];
      assert KeyedDevices(init) by {
        assert forall i :: 0 <= i < |init| ==> init[i] == rows[i];
      }
      WithoutDeviceKeyed(init, id);
      if last.id != id {
        forall row | row in WithoutDevice(init, id)
          ensures row.id != last.id
        {
          var i :| 0 <= i < |init| && init[i] == row;
          assert rows[i] == row;
        }
        AppendDeviceKeyed(WithoutDevice(init, id), last);
      }
    }
  }

  lemma {:induction false} ReplaceModelsKeyed(rows: seq<ModelRow>, id: int, ms: seq<string>)
    requires KeyedModels(rows)
    ensures KeyedModels(ReplaceModels(rows, id, ms))
  {
    if ms != [] {
      var init := ms[..|ms| - 1];
      var m := ms[|ms| - 1];
      ReplaceModelsKeyed(rows, id, init);
      WithoutModelKeyed(ReplaceModels(rows, id, init), m);
      AppendModelKeyed(WithoutModel(ReplaceModels(rows, id, init), m), ModelRow(id, m));
    }
  }

  /** `save` keeps both primary keys. */
  lemma SaveKeepsKeys(t: Tables, d: Device)
    requires Keyed(t)
    ensures Keyed(SaveSpec(t, d))
  {
    WithoutDeviceKeyed(t.devices, d.id);
    AppendDeviceKeyed(WithoutDevice(t.devices, d.id), RowOf(d));
    ReplaceModelsKeyed(t.models, d.id, d.models);
  }

  /**
   * After `save(d)` the device can be read back by its id, and the rows of every other
   * device are as they were.
   */
  lemma SaveThenGetDevice(t: Tables, d: Device)
    ensures GetDeviceById(SaveSpec(t, d), d.id) == Some(RowOf(d))
    ensures WithoutDevice(SaveSpec(t, d).devices, d.id) == WithoutDevice(t.devices, d.id)
  {
    var w := WithoutDevice(t.devices, d.id);
    var rows := w + [RowOf(d)];
    assert forall row :: row in w ==> row.id != d.id;
    FirstDeviceOfTail(w, RowOf(d));
    WithoutDeviceOfTail(w, RowOf(d));
  }

  lemma {:induction false} FirstDeviceOfTail(w: seq<DeviceRow>, row: DeviceRow)
    requires forall x :: x in w ==> x.id != row.id
    ensures FirstDevice(w + [row], row.id) == Some(row)
  {
    if w != [] {
      assert (w + [row])[1..] == w[1..] + [row];
      FirstDeviceOfTail(w[1..], row);
    }
  }

  lemma {:induction false} WithoutDeviceOfTail(w: seq<DeviceRow>, row: DeviceRow)
    requires forall x :: x in w ==> x.id != row.id
    ensures WithoutDevice(w + [row], row.id) == WithoutDevice(w, row.id) == w
  {
    assert (w + [row])[..|w|] == w;
    if w != [] {
      var init := w[..|w| - 1];
      assert w == init + [w[|w| - 1]];
      WithoutDeviceOfTail(init, row);
    }
  }

  /**
   * The models table after `save(d)`: a row is there exactly when it was there before for
   * a model `d` does not list, or it links one of `d`'s models to `d`. Models the device
   * no longer lists keep their old rows.
   */
  lemma SaveModels(t: Tables, d: Device)
    ensures forall row :: row in SaveSpec(t, d).models <==>
              (row in t.models && row.model !in d.models) || (row.model in d.models && row.deviceId == d.id)
  {
    ReplaceModelsRows(t.models, d.id, d.models);
  }

  /** Every saved model is listed by `get_all_models`. */
  lemma SavedModelsListed(t: Tables, d: Device, m: string)
    requires m in d.models
    ensures GetAllModels(SaveSpec(t, d)).Some? && m in GetAllModels(SaveSpec(t, d)).value
  {
    SaveModels(t, d);
    assert ModelRow(d.id, m) in SaveSpec(t, d).models;
  }

  /**
   * The regions table after `save(d)`: the old rows, less those of the device's first
   * stored model, and a row for every region in every non-empty set of `d`.
   */
  lemma SaveRegions(t: Tables, d: Device)
    ensures forall row :: row in SaveSpec(t, d).regions <==>
              || (row in t.regions && FirstModelOf(t.models, d.id) != Some(row.model))
              || (row.model in Keys(d.regions) && Get(d.regions, row.model).Some? && row.region in Get(d.regions, row.model).value)
  {
    RegionRowsForRows(d.regions, Keys(d.regions));
  }

  /** Every region saved for a model is returned by `get_regions_by_model`. */
  lemma SavedRegionsListed(t: Tables, d: Device, m: string, x: string)
    requires Get(d.regions, m).Some? && x in Get(d.regions, m).value
    ensures GetRegionsByModel(SaveSpec(t, d), m).Some?
    ensures x in GetRegionsByModel(SaveSpec(t, d), m).value
  {
    assert m in Keys(d.regions);
    SaveRegions(t, d);
    assert RegionRow(m, x) in SaveSpec(t, d).regions;
  }

  /** Every label of every category of `d` is returned by `get_specs_by_id`. */
  lemma SavedSpecsListed(t: Tables, d: Device, c: string, p: string, v: string)
    requires Get(d.details, c).Some? && Get(Get(d.details, c).value, p) == Some(v)
    ensures DetailRow(d.id, c, p, v) in GetSpecsById(SaveSpec(t, d), d.id)
  {
    assert c in Keys(d.details);
    DetailRowsForRows(d.id, d.details, Keys(d.details));
    assert DetailRow(d.id, c, p, v) in DetailRowsFor(d.id, d.details, Keys(d.details));
  }

  /**
   * Saving the same device twice is not the same as saving it once: the details rows are
   * appended again, because the cleanup script deletes nothing.
   */
  lemma SaveNotIdempotent(t: Tables, d: Device, c: string, p: string, v: string)
    requires Get(d.details, c).Some? && Get(Get(d.details, c).value, p) == Some(v)
    ensures SaveSpec(SaveSpec(t, d), d) != SaveSpec(t, d)
  {
    var rows := DetailRowsFor(d.id, d.details, Keys(d.details));
    assert c in Keys(d.details);
    DetailRowsForRows(d.id, d.details, Keys(d.details));
    assert DetailRow(d.id, c, p, v) in rows;
    assert |SaveSpec(SaveSpec(t, d), d).details| == |t.details| + 2 * |rows|;
  }

  /**
   * With a query free of `%` and `_`, `search_devices` returns the devices whose name, or
   * one of whose models, contains the query, ignoring ASCII case.
   */
  lemma SearchFindsSubstrings(t: Tables, query: string, row: DeviceRow)
    requires NoWildcards(query)
    ensures row in SearchDevices(t, query) <==>
              && row in t.devices
              && (|| Contains(AsciiLowerString(row.name), AsciiLowerString(query))
                  || exists mr :: mr in t.models && mr.deviceId == row.id
                                  && Contains(AsciiLowerString(mr.model), AsciiLowerString(query)))
  {
    LikeContains(row.name, query);
    forall mr | mr in t.models
      ensures Like(mr.model, "%" + query + "%") <==> Contains(AsciiLowerString(mr.model), AsciiLowerString(query))
    {
      LikeContains(mr.model, query);
    }
  }
}
