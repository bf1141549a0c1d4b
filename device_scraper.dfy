/**
 * The GSMArena scraper of sambot/utils/devices.py (`SamsungDeviceScraper`).
 *
 * Pages arrive already parsed, as the elements the CSS selectors pick out:
 *   - a listing entry is an `Item` whose fields are `None` where a selector finds
 *     nothing or an attribute is missing (both raise in the code);
 *   - a specification page is its sequence of `Table`s;
 *   - the region page of a model is its region texts.
 * A fetch that raises is `None`. Only the region fetch is guarded in the code; every other
 * failure escapes `sync_devices` before anything is saved, so it is modelled as giving up
 * with the database unchanged.
 */
module DeviceScraper {

  import opened Wrappers
  import opened Strings
  import opened Dicts
  import opened Sorting
  import opened DeviceRecord
  import opened DeviceStore

  /** One `li` of the listing: the name span text, the link's `href`, the image's `src` and `title`. */
  datatype Item = Item(name: Option<string>, href: Option<string>, imgSrc: Option<string>, imgTitle: Option<string>)

  /** One row of a specification table: the `td.ttl` and `td.nfo` texts, when present. */
  datatype SpecRow = SpecRow(ttl: Option<string>, nfo: Option<string>)

  /** One specification table: the text of its first `th`, when it has one, and its rows. */
  datatype Table = Table(header: Option<string>, rows: seq<SpecRow>)

  // ---------------------------------------------------------------------------------
  // `fetch_page`
  // ---------------------------------------------------------------------------------

  /** The id in a device link: `int()` of the text between the last `-` and the last `.php`. */
  function ParseDeviceId(href: string): Option<int> {
    ParseInt(PySlice(href, RFind(href, "-") + 1, RFind(href, ".php")))
  }

  /** The device a listing entry describes, or `None` when the code would raise on it. */
  function ListedDevice(item: Item): Option<Device> {
    if item.name.None? || item.href.None? || item.imgSrc.None? || item.imgTitle.None? then None
    else
      match ParseDeviceId(item.href.value)
      case None => None
      case Some(id) => Some(Listed(id, item.name.value, item.href.value, item.imgSrc.value, item.imgTitle.value))
  }

  /** A listing page: one device per entry, or `None` if any entry is malformed. */
  function ListPage(items: seq<Item>): Option<seq<Device>> {
    MapAll(items, ListedDevice)
  }

  /** A page fails exactly when one of its entries is malformed; otherwise it lists their devices in order. */
  lemma ListPageEntries(items: seq<Item>)
    ensures ListPage(items).Some? <==> forall i :: 0 <= i < |items| ==> ListedDevice(items[i]).Some?
    ensures ListPage(items).Some? ==> |ListPage(items).value| == |items|
    ensures ListPage(items).Some? ==> forall i :: 0 <= i < |items| ==> Some(ListPage(items).value[i]) == ListedDevice(items[i])
  {
    MapAllSome(items, ListedDevice);
    if ListPage(items).Some? {
      MapAllValues(items, ListedDevice);
    }
  }

  /** `fetch_page(page)` on the response to the listing request, `None` when it raises. */
  method FetchPage(response: Option<seq<Item>>) returns (r: Option<seq<Device>>)
    ensures r == if response.None? then None else ListPage(response.value)
  {
    if response.None? {
      return None;
    }
    var items := response.value;
    var list: seq<Device> := [];
    var i := 0;
    while i < |items|
      invariant 0 <= i <= |items|
      invariant ListPage(items[..i]) == Some(list)
    {
      var d := ListedDevice(items[i]);
      if d.None? {
        ListPageEntries(items);
        return None;
      }
      MapAllPrefix(items, ListedDevice, i, list, d.value);
      list := list + [d.value];
      i := i + 1;
    }
    assert items[..i] == items;
    r := Some(list);
  }

  /** The last `-` before the id and the `.php` after it. */
  lemma RFindOfLink(slug: string, ds: string)
    requires AllDigits(ds)
    ensures RFind(slug + "-" + ds + ".php", "-") == |slug|
    ensures RFind(slug + "-" + ds + ".php", ".php") == |slug| + 1 + |ds|
  {
    var s := slug + "-" + ds + ".php";
    assert s[|slug|] == '-';
    OccursAtSingle(s, '-', |slug|);
    var r := RFind(s, "-");
    if r < |slug| {
      RFindLast(s, "-", |slug|);
    }
    OccursAtSingle(s, '-', r);
    assert s[|s| - 4..] == ".php";
    assert OccursAt(s, ".php", |s| - 4);
    if RFind(s, ".php") < |s| - 4 {
      RFindLast(s, ".php", |s| - 4);
    }
  }

  /** A link of the form `<slug>-<id>.php` gives its id, whatever the slug holds. */
  lemma ParseDeviceIdOfLink(slug: string, n: nat)
    ensures ParseDeviceId(slug + "-" + NatToString(n) + ".php") == Some(n)
  {
    var ds := NatToString(n);
    var s := slug + "-" + ds + ".php";
    RFindOfLink(slug, ds);
    assert s[|slug| + 1..|slug| + 1 + |ds|] == ds;
    assert PySlice(s, |slug| + 1, |slug| + 1 + |ds|) == ds;
    ParseIntOfNat(n);
  }

  // ---------------------------------------------------------------------------------
  // `get_normalized_models`
  // ---------------------------------------------------------------------------------

  /** `details["Misc"]["Models"]`, each level defaulting when absent. */
  function ModelsField(details: Dict<string, Dict<string, string>>): string {
    Get(Get(details, "Misc").GetOr([]), "Models").GetOr("")
  }

  /** One comma-separated entry reduced to its model: stripped, then cut before the first `/`. */
  function ModelOf(piece: string): string {
    Split(Strip(piece), "/")[0]
  }

  /** A model holds no `/`, and only characters of its entry. */
  lemma ModelOfCharacters(piece: string)
    ensures '/' !in ModelOf(piece)
    ensures forall c :: c in ModelOf(piece) ==> c in piece
  {
    var t := Strip(piece);
    var ps := Split(t, "/");
    SplitPiecesAreFree(t, "/");
    ContainsSingle(ps[0], '/');
    assert t == ps[0] || t == ps[0] + "/" + Join(ps[1..], "/");
    forall c | c in ps[0]
      ensures c in piece
    {
      StripKeepsCharacters(piece, c);
    }
  }

  /** The model of every entry, in order, before duplicates are dropped. */
  function Candidates(field: string): (r: seq<string>)
    ensures |r| == |Split(field, ",")|
    ensures forall i :: 0 <= i < |r| ==> r[i] == ModelOf(Split(field, ",")[i])
  {
    var ps := Split(field, ",");
    seq(|ps|, i requires 0 <= i < |ps| => ModelOf(ps[i]))
  }

  /** The elements of `ms` that start with `SM-`, in order. */
  function KeepSamsung(ms: seq<string>): seq<string> {
    if ms == [] then []
    else
      var r := KeepSamsung(ms[..|ms| - 1]);
      var last := ms[|ms| - 1];
      if StartsWith(last, "SM-") then r + [last] else r
  }

  lemma {:induction false} KeepSamsungMembers(ms: seq<string>)
    ensures forall m :: m in KeepSamsung(ms) <==> m in ms && StartsWith(m, "SM-")
    ensures Distinct(ms) ==> Distinct(KeepSamsung(ms))
  {
    if ms != [] {
      var init := ms[..|ms| - 1];
      var last := ms[|ms| - 1];
      assert ms == init + [last];
      KeepSamsungMembers(init);
      if Distinct(ms) {
        assert Distinct(init) && last !in init;
      }
    }
  }

  /**
   * `get_normalized_models(device)`: the distinct models of the `Models` entry that start
   * with `SM-`. The code returns a Python set; here they are in first-occurrence order.
   */
  function NormalizedModels(details: Dict<string, Dict<string, string>>): seq<string> {
    KeepSamsung(Dedup(Candidates(ModelsField(details))))
  }

  /** The normalised models are the distinct entries' models that start with `SM-`. */
  lemma NormalizedModelsMembers(details: Dict<string, Dict<string, string>>)
    ensures Distinct(NormalizedModels(details))
    ensures forall m :: m in NormalizedModels(details) <==> StartsWith(m, "SM-") && m in Candidates(ModelsField(details))
  {
    DedupMembers(Candidates(ModelsField(details)));
    KeepSamsungMembers(Dedup(Candidates(ModelsField(details))));
  }

  /** `get_normalized_models`, with its two loops: the set built entry by entry, then filtered. */
  method GetNormalizedModels(details: Dict<string, Dict<string, string>>) returns (r: seq<string>)
    ensures r == NormalizedModels(details)
  {
    var modelsSet := CollectModels(ModelsField(details));
    r := RemoveNonSamsung(modelsSet);
  }

  /** The first loop: the set of every entry's model, built entry by entry. */
  method CollectModels(field: string) returns (modelsSet: seq<string>)
    ensures modelsSet == Dedup(Candidates(field))
  {
    var pieces := Split(field, ",");
    modelsSet := [];
    var i := 0;
    while i < |pieces|
      invariant 0 <= i <= |pieces|
      invariant modelsSet == Dedup(Candidates(field)[..i])
    {
      var m := ModelOf(pieces[i]);
      CollectStep(field, i, m);
      if m !in modelsSet {
        modelsSet := modelsSet + [m];
      }
      i := i + 1;
    }
    CollectDone(field, i);
  }

  lemma CollectStep(field: string, i: nat, m: string)
    requires i < |Split(field, ",")| && m == ModelOf(Split(field, ",")[i])
    ensures var cands := Candidates(field);
            Dedup(cands[..i + 1]) == if m in Dedup(cands[..i]) then Dedup(cands[..i]) else Dedup(cands[..i]) + [m]
  {
    DedupStep(Candidates(field), i);
  }

  lemma CollectDone(field: string, i: nat)
    requires i == |Split(field, ",")|
    ensures Candidates(field)[..i] == Candidates(field)
  {
  }

  /** The second loop: every model not starting with `SM-` removed. */
  method RemoveNonSamsung(modelsSet: seq<string>) returns (r: seq<string>)
    ensures r == KeepSamsung(modelsSet)
  {
    r := [];
    var j := 0;
    while j < |modelsSet|
      invariant 0 <= j <= |modelsSet|
      invariant r == KeepSamsung(modelsSet[..j])
    {
      KeepSamsungStep(modelsSet, j);
      if StartsWith(modelsSet[j], "SM-") {
        r := r + [modelsSet[j]];
      }
      j := j + 1;
    }
    assert modelsSet[..j] == modelsSet;
  }

  lemma DedupStep(xs: seq<string>, i: nat)
    requires i < |xs|
    ensures Dedup(xs[..i + 1]) == if xs[i] in Dedup(xs[..i]) then Dedup(xs[..i]) else Dedup(xs[..i]) + [xs[i]]
  {
    assert xs[..i + 1][..i] == xs[..i];
  }

  lemma KeepSamsungStep(ms: seq<string>, j: nat)
    requires j < |ms|
    ensures KeepSamsung(ms[..j + 1]) == if StartsWith(ms[j], "SM-") then KeepSamsung(ms[..j]) + [ms[j]] else KeepSamsung(ms[..j])
  {
    assert ms[..j + 1][..j] == ms[..j];
  }

  /** Every normalised model is free of `,` and `/`. */
  lemma NormalizedModelsAreSingle(details: Dict<string, Dict<string, string>>, m: string)
    requires m in NormalizedModels(details)
    ensures ',' !in m && '/' !in m
  {
    NormalizedModelsMembers(details);
    var field := ModelsField(details);
    var ps := Split(field, ",");
    var cs := Candidates(field);
    var i :| 0 <= i < |cs| && cs[i] == m;
    assert m == ModelOf(ps[i]);
    ModelOfCharacters(ps[i]);
    SplitPiecesAreFree(field, ",");
    assert !Contains(ps[i], ",");
    ContainsSingle(ps[i], ',');
    assert ',' !in ps[i];
  }

  /** An empty `Models` entry is one empty entry. */
  lemma CandidatesOfEmpty()
    ensures Candidates("") == [""]
  {
    SplitFree("", ",");
    var m := ModelOf("");
    ModelOfCharacters("");
    assert forall c :: c in m ==> c in "";
    assert m == "";
  }

  /** An empty field yields no models: its one candidate is the empty string. */
  lemma EmptyFieldHasNoModels()
    ensures KeepSamsung(Dedup(Candidates(""))) == []
  {
    CandidatesOfEmpty();
    DedupOfEmptyEntry();
    KeepSamsungOfEmptyEntry();
  }

  lemma DedupOfEmptyEntry()
    ensures Dedup([""]) == [""]
  {
    assert [""][..0] == [];
  }

  lemma KeepSamsungOfEmptyEntry()
    ensures KeepSamsung([""]) == []
  {
    assert [""][..0] == [];
    assert !StartsWith("", "SM-");
  }

  /** Without a `Misc`/`Models` entry there are no models. */
  lemma NoModelsField(details: Dict<string, Dict<string, string>>)
    requires ModelsField(details) == ""
    ensures NormalizedModels(details) == []
  {
    EmptyFieldHasNoModels();
  }

  /** An entry `<model>/<suffix>` gives `<model>` when the entry has no surrounding space. */
  lemma ModelOfSuffixed(m: string, suffix: string)
    requires '/' !in m && |m| > 0 && !IsSpace(m[0])
    requires |suffix| > 0 && !IsSpace(suffix[|suffix| - 1])
    ensures ModelOf(m + "/" + suffix) == m
  {
    var p := m + "/" + suffix;
    assert !IsSpace(p[0]) && !IsSpace(p[|p| - 1]);
    assert Strip(p) == p;
    assert p == m + "/" + suffix;
    SplitCons(m, "/", suffix);
  }

  /**
   * Whitespace before the `/` is kept: the entry is stripped before it is cut, so
   * `SM-A /DS` gives `SM-A ` with its trailing space.
   */
  lemma ExampleSpaceBeforeSlash()
    ensures ModelOf("SM-A /DS") == "SM-A "
  {
    assert "SM-A /DS" == "SM-A " + "/" + "DS";
    ModelOfSuffixed("SM-A ", "DS");
  }

  // ---------------------------------------------------------------------------------
  // `get_model_supername` and `is_device_relevant`
  // ---------------------------------------------------------------------------------

  /**
   * The first `i` where `first[i]`, a one-character string, differs from `rest[i]`, a
   * whole model (as `zip(models[0], models[1:])` pairs them), or `|first|` when the
   * shorter of the two runs out first.
   */
  function FirstMismatch(first: string, rest: seq<string>, i: nat): (r: nat)
    requires i <= |first|
    decreases |first| - i
    ensures i <= r <= |first|
    ensures forall k :: i <= k < r && k < |rest| ==> rest[k] == [first[k]]
    ensures r < |first| ==> r < |rest| && rest[r] != [first[r]]
  {
    if i == |first| || i >= |rest| then |first|
    else if [first[i]] != rest[i] then i
    else FirstMismatch(first, rest, i + 1)
  }

  /** `get_model_supername(device)` as the code computes it. */
  function Supername(models: seq<string>): (r: string)
    ensures |models| == 0 ==> r == ""
    ensures |models| == 1 ==> r == models[0]
    ensures |models| > 0 ==> StartsWith(models[0], r)
  {
    if |models| == 0 then ""
    else if |models| == 1 then models[0]
    else models[0][..FirstMismatch(models[0], models[1..], 0)]
  }

  function SupernameKey(d: Device): string {
    Supername(d.models)
  }

  /**
   * With two or more models the second model is compared with the first character of the
   * first, so unless it is a single character the supername is empty.
   */
  lemma SupernameOfSeveral(models: seq<string>)
    requires |models| >= 2 && |models[1]| != 1
    ensures Supername(models) == ""
  {
    if |models[0]| > 0 {
      assert models[1..][0] == models[1];
      assert [models[0][0]] != models[1..][0];
    }
  }

  /** It is not the longest common prefix: these two models share `SM-S921B` and give "". */
  lemma ExampleSupernameIsNotCommonPrefix()
    ensures Supername(["SM-S921B", "SM-S921B1"]) == ""
  {
    SupernameOfSeveral(["SM-S921B", "SM-S921B1"]);
  }

  /** `is_device_relevant(device)`: it has details and at least one `SM-` model. */
  predicate IsDeviceRelevant(d: Device) {
    var ms := NormalizedModels(d.details);
    |d.details| > 0 && |ms| > 0 && forall m :: m in ms ==> StartsWith(m, "SM-")
  }

  /** The final `all(...)` always holds, so relevance is having details and a model. */
  lemma RelevantIffModels(d: Device)
    ensures IsDeviceRelevant(d) <==> |d.details| > 0 && NormalizedModels(d.details) != []
  {
    NormalizedModelsMembers(d.details);
  }

  // ---------------------------------------------------------------------------------
  // `fill_details`
  // ---------------------------------------------------------------------------------

  /** The rows of one table merged into the category's map: a later label overwrites. */
  function MergeRows(inner: Dict<string, string>, rows: seq<SpecRow>): Dict<string, string> {
    if rows == [] then inner
    else
      var merged := MergeRows(inner, rows[..|rows| - 1]);
      var row := rows[|rows| - 1];
      if row.ttl.Some? && row.nfo.Some? then Put(merged, row.ttl.value, row.nfo.value) else merged
  }

  /** The tables merged into the details, or `None` when one of them has no `th`. */
  function MergeTables(details: Dict<string, Dict<string, string>>, tables: seq<Table>): Option<Dict<string, Dict<string, string>>> {
    if tables == [] then Some(details)
    else
      var t := tables[|tables| - 1];
      match MergeTables(details, tables[..|tables| - 1])
      case None => None
      case Some(merged) =>
        if t.header.None? then None
        else if t.header.value == "" then Some(merged)
        else
          var c := t.header.value;
          Some(Put(merged, c, MergeRows(Get(merged, c).GetOr([]), t.rows)))
  }

  /** A successful region fetch replaces the model's set; a failed one is skipped. */
  function RegionsFor(regions: Dict<string, seq<string>>, models: seq<string>,
                      regionsOf: string -> Option<seq<string>>): Dict<string, seq<string>> {
    if models == [] then regions
    else
      var merged := RegionsFor(regions, models[..|models| - 1], regionsOf);
      var m := models[|models| - 1];
      match regionsOf(m)
      case None => merged
      case Some(texts) => Put(merged, m, Dedup(texts))
  }

  /**
   * The rest of `fill_details` once the tables are merged: the normalised models of the
   * merged details appended, the supername recomputed, and the regions of every model fetched.
   */
  function Filled(d: Device, regionsOf: string -> Option<seq<string>>): (r: Device)
    ensures r.id == d.id && r.name == d.name && r.url == d.url && r.details == d.details
    ensures r.models == d.models + NormalizedModels(d.details)
    ensures r.modelSupername == Some(Supername(r.models))
  {
    var models := d.models + NormalizedModels(d.details);
    d.(models := models, modelSupername := Some(Supername(models)), regions := RegionsFor(d.regions, models, regionsOf))
  }

  /** The device after `fill_details`, or `None` when the code raises. */
  function FillSpec(d: Device, page: Option<seq<Table>>, regionsOf: string -> Option<seq<string>>): (r: Option<Device>)
    ensures r.Some? ==> r.value.id == d.id && r.value.name == d.name && r.value.url == d.url
    ensures r.Some? ==> r.value.models == d.models + NormalizedModels(r.value.details)
    ensures r.Some? ==> r.value.modelSupername == Some(Supername(r.value.models))
  {
    if page.None? then None
    else
      match MergeTables(d.details, page.value)
      case None => None
      case Some(details) => Some(Filled(d.(details := details), regionsOf))
  }

  /** `fill_details(device)` on the fetched specification page, updating the object in place. */
  method FillDetails(dm: DeviceMeta, page: Option<seq<Table>>, regionsOf: string -> Option<seq<string>>)
    returns (ok: bool)
    modifies dm
    ensures ok == FillSpec(old(dm.Value()), page, regionsOf).Some?
    ensures ok ==> dm.Value() == FillSpec(old(dm.Value()), page, regionsOf).value
    ensures !ok ==> dm.Value() == old(dm.Value())
  {
    if page.None? {
      return false;
    }
    ghost var d0 := dm.Value();
    ok := MergeTablesInto(dm, page.value);
    if ok {
      ghost var merged := dm.details;
      FillMerged(dm, regionsOf);
      FillSpecMerged(d0, page.value, regionsOf, merged);
    }
  }

  lemma FillSpecMerged(d: Device, tables: seq<Table>, regionsOf: string -> Option<seq<string>>,
                       merged: Dict<string, Dict<string, string>>)
    requires MergeTables(d.details, tables) == Some(merged)
    ensures FillSpec(d, Some(tables), regionsOf) == Some(Filled(d.(details := merged), regionsOf))
  {
  }

  /** The models, supername and regions steps of `fill_details`. */
  method FillMerged(dm: DeviceMeta, regionsOf: string -> Option<seq<string>>)
    modifies dm
    ensures dm.Value() == Filled(old(dm.Value()), regionsOf)
  {
    var normalized := GetNormalizedModels(dm.details);
    AppendModels(dm, normalized);
    FillRegions(dm, regionsOf);
  }

  /** `device.models.extend(...)` followed by the supername update. */
  method AppendModels(dm: DeviceMeta, normalized: seq<string>)
    modifies dm
    ensures dm.Value() == old(dm.Value()).(models := old(dm.models) + normalized,
                                           modelSupername := Some(Supername(old(dm.models) + normalized)))
  {
    dm.models := dm.models + normalized;
    dm.modelSupername := Some(Supername(dm.models));
  }

  /**
   * The table loop of `fill_details`; `false` when a table has no `th` (the code raises).
   * The merged map is written back once, after the loop: the code writes each category as
   * it goes, which differs only when a later table raises, and then the caller gives up.
   */
  method MergeTablesInto(dm: DeviceMeta, tables: seq<Table>) returns (ok: bool)
    modifies dm
    ensures ok == MergeTables(old(dm.details), tables).Some?
    ensures ok ==> dm.Value() == old(dm.Value()).(details := MergeTables(old(dm.details), tables).value)
    ensures !ok ==> dm.Value() == old(dm.Value())
  {
    var details := dm.details;
    var i := 0;
    while i < |tables|
      invariant 0 <= i <= |tables|
      invariant MergeTables(dm.details, tables[..i]) == Some(details)
      invariant dm.Value() == old(dm.Value())
    {
      var t := tables[i];
      if t.header.None? {
        MergeTablesFails(dm.details, tables, i);
        return false;
      }
      var category := t.header.value;
      ghost var before := details;
      if category != "" {
        var inner := MergeRowsInto(Get(details, category).GetOr([]), t.rows);
        details := Put(details, category, inner);
      }
      MergeTablesStep(dm.details, tables, i, before, details);
      i := i + 1;
    }
    assert tables[..i] == tables;
    dm.details := details;
    ok := true;
  }

  lemma MergeTablesStep(details: Dict<string, Dict<string, string>>, tables: seq<Table>, i: nat,
                        merged: Dict<string, Dict<string, string>>, next: Dict<string, Dict<string, string>>)
    requires i < |tables| && tables[i].header.Some?
    requires MergeTables(details, tables[..i]) == Some(merged)
    requires var c := tables[i].header.value;
             next == if c == "" then merged else Put(merged, c, MergeRows(Get(merged, c).GetOr([]), tables[i].rows))
    ensures MergeTables(details, tables[..i + 1]) == Some(next)
  {
    assert tables[..i + 1][..i] == tables[..i];
  }

  /** The row loop of one table: each complete row's label set to its value in `inner_map`. */
  method MergeRowsInto(inner: Dict<string, string>, rows: seq<SpecRow>) returns (r: Dict<string, string>)
    ensures r == MergeRows(inner, rows)
  {
    r := inner;
    var j := 0;
    while j < |rows|
      invariant 0 <= j <= |rows|
      invariant r == MergeRows(inner, rows[..j])
    {
      assert rows[..j + 1][..j] == rows[..j];
      var row := rows[j];
      if row.ttl.Some? && row.nfo.Some? {
        r := Put(r, row.ttl.value, row.nfo.value);
      }
      j := j + 1;
    }
    assert rows[..j] == rows;
  }

  /** The region loop: each model's fetched set stored, a failed fetch skipped. */
  method FillRegions(dm: DeviceMeta, regionsOf: string -> Option<seq<string>>)
    modifies dm
    ensures dm.Value() == old(dm.Value()).(regions := RegionsFor(old(dm.regions), dm.models, regionsOf))
  {
    var k := 0;
    while k < |dm.models|
      invariant 0 <= k <= |dm.models|
      invariant dm.Value() == old(dm.Value()).(regions := dm.regions)
      invariant dm.regions == RegionsFor(old(dm.regions), dm.models[..k], regionsOf)
    {
      var m := dm.models[k];
      var fetched := regionsOf(m);
      RegionsForStep(old(dm.regions), dm.models, k, regionsOf);
      if fetched.Some? {
        dm.regions := Put(dm.regions, m, Dedup(fetched.value));
      }
      k := k + 1;
    }
    assert dm.models[..k] == dm.models;
  }

  lemma RegionsForStep(regions: Dict<string, seq<string>>, models: seq<string>, k: nat,
                       regionsOf: string -> Option<seq<string>>)
    requires k < |models|
    ensures RegionsFor(regions, models[..k + 1], regionsOf)
            == var before := RegionsFor(regions, models[..k], regionsOf);
               if regionsOf(models[k]).Some? then Put(before, models[k], Dedup(regionsOf(models[k]).value)) else before
  {
    assert models[..k + 1][..k] == models[..k];
  }

  /** A table without a header aborts the whole merge. */
  lemma {:induction false} MergeTablesFails(details: Dict<string, Dict<string, string>>, tables: seq<Table>, i: nat)
    requires i < |tables| && tables[i].header.None?
    ensures MergeTables(details, tables) == None
    decreases |tables|
  {
    if i < |tables| - 1 {
      var init := tables[..|tables| - 1];
      assert init[i] == tables[i];
      MergeTablesFails(details, init, i);
    }
  }

  /** The merge succeeds exactly when every table has a header. */
  lemma {:induction false} MergeTablesSucceeds(details: Dict<string, Dict<string, string>>, tables: seq<Table>)
    ensures MergeTables(details, tables).Some? <==> forall i :: 0 <= i < |tables| ==> tables[i].header.Some?
  {
    if tables != [] {
      var init := tables[..|tables| - 1];
      MergeTablesSucceeds(details, init);
      MergeTablesLastStep(details, tables);
      assert forall i :: 0 <= i < |init| ==> init[i] == tables[i];
    }
  }

  lemma MergeTablesLastStep(details: Dict<string, Dict<string, string>>, tables: seq<Table>)
    requires tables != []
    ensures MergeTables(details, tables).Some?
        <==> MergeTables(details, tables[..|tables| - 1]).Some? && tables[|tables| - 1].header.Some?
  {
  }

  /** A label takes the value of its last complete row. */
  lemma {:induction false} MergeRowsLastWins(inner: Dict<string, string>, rows: seq<SpecRow>, j: nat)
    requires j < |rows| && rows[j].ttl.Some? && rows[j].nfo.Some?
    requires forall k :: j < k < |rows| && rows[k].ttl.Some? && rows[k].nfo.Some? ==> rows[k].ttl != rows[j].ttl
    ensures Get(MergeRows(inner, rows), rows[j].ttl.value) == rows[j].nfo
    decreases |rows|
  {
    if j < |rows| - 1 {
      var init := rows[..|rows| - 1];
      assert init[j] == rows[j];
      MergeRowsLastWins(inner, init, j);
    }
  }

  /** A label no complete row carries keeps its earlier value. */
  lemma {:induction false} MergeRowsKeepsOthers(inner: Dict<string, string>, rows: seq<SpecRow>, key: string)
    requires forall k :: 0 <= k < |rows| && rows[k].ttl.Some? && rows[k].nfo.Some? ==> rows[k].ttl.value != key
    ensures Get(MergeRows(inner, rows), key) == Get(inner, key)
  {
    if rows != [] {
      MergeRowsKeepsOthers(inner, rows[..|rows| - 1], key);
    }
  }

  /** A category no table names is left as it was; a table with an empty header changes nothing. */
  lemma {:induction false} MergeTablesKeepsOthers(details: Dict<string, Dict<string, string>>, tables: seq<Table>, c: string)
    requires MergeTables(details, tables).Some?
    requires forall i :: 0 <= i < |tables| ==> tables[i].header != Some(c)
    ensures Get(MergeTables(details, tables).value, c) == Get(details, c)
  {
    if tables != [] {
      MergeTablesKeepsOthers(details, tables[..|tables| - 1], c);
    }
  }

  /** A table whose header is empty is skipped. */
  lemma EmptyHeaderSkipped(details: Dict<string, Dict<string, string>>, tables: seq<Table>, rows: seq<SpecRow>)
    ensures MergeTables(details, tables + [Table(Some(""), rows)]) == MergeTables(details, tables)
  {
    assert (tables + [Table(Some(""), rows)])[..|tables|] == tables;
  }

  /** The regions of a model are its fetched set when the fetch succeeded, otherwise as before. */
  lemma {:induction false} RegionsForModel(regions: Dict<string, seq<string>>, models: seq<string>,
                                           regionsOf: string -> Option<seq<string>>, m: string)
    ensures Get(RegionsFor(regions, models, regionsOf), m)
            == if m in models && regionsOf(m).Some? then Some(Dedup(regionsOf(m).value)) else Get(regions, m)
  {
    if models != [] {
      var init := models[..|models| - 1];
      assert models == init + [models[|models| - 1]];
      RegionsForModel(regions, init, regionsOf, m);
    }
  }

  // ---------------------------------------------------------------------------------
  // `sync_devices`
  // ---------------------------------------------------------------------------------

  /** The page count: `int()` of the last pagination link text. */
  function PagesCount(nav: Option<seq<string>>): Option<int> {
    if nav.None? || nav.value == [] then None else ParseInt(Last(nav.value))
  }

  /** The devices of listing pages `1..n`, in page order. */
  function ListPages(listing: int -> Option<seq<Item>>, n: int): Option<seq<Device>>
    decreases n
  {
    if n < 1 then Some([])
    else
      match ListPages(listing, n - 1)
      case None => None
      case Some(ds) =>
        var page := listing(n);
        if page.None? then None
        else
          match ListPage(page.value)
          case None => None
          case Some(p) => Some(ds + p)
  }

  /** The first filter: names containing `Galaxy` but not `Watch`. */
  predicate IsGalaxy(d: Device) {
    Contains(d.name, "Galaxy") && !Contains(d.name, "Watch")
  }

  function KeepGalaxies(ds: seq<Device>): (r: seq<Device>)
    ensures forall d :: d in r <==> d in ds && IsGalaxy(d)
  {
    Filter(ds, IsGalaxy)
  }

  /** The second filter: `filter(self.is_device_relevant, ...)`. */
  function KeepRelevant(ds: seq<Device>): (r: seq<Device>)
    ensures forall d :: d in r <==> d in ds && IsDeviceRelevant(d)
  {
    Filter(ds, IsDeviceRelevant)
  }

  /** `fill_details` on one device, with the pages and region lists the sources give. */
  function FillOf(pages: string -> Option<seq<Table>>, regionsOf: string -> Option<seq<string>>): Device -> Option<Device> {
    (d: Device) => FillSpec(d, pages(d.url), regionsOf)
  }


  /** The devices `sync_devices` saves, in the order it saves them, or `None` when it gives up. */
  function SyncSpec(nav: Option<seq<string>>, listing: int -> Option<seq<Item>>,
                    pages: string -> Option<seq<Table>>, regionsOf: string -> Option<seq<string>>): Option<seq<Device>> {
    var count := PagesCount(nav);
    if count.None? then None
    else
      match ListPages(listing, count.value)
      case None => None
      case Some(listed) =>
        match MapAll(KeepGalaxies(listed), FillOf(pages, regionsOf))
        case None => None
        case Some(filled) => Some(SortByKey(KeepRelevant(filled), SupernameKey))
  }

  /** The tables after saving `ds` one after the other. */
  function SaveAll(t: Tables, ds: seq<Device>): Tables {
    if ds == [] then t else SaveSpec(SaveAll(t, ds[..|ds| - 1]), ds[|ds| - 1])
  }

  /** What is saved is relevant, ordered by supername, and every relevant filled device is saved once. */
  lemma SyncSavesRelevantSorted(nav: Option<seq<string>>, listing: int -> Option<seq<Item>>,
                                pages: string -> Option<seq<Table>>, regionsOf: string -> Option<seq<string>>)
    requires SyncSpec(nav, listing, pages, regionsOf).Some?
    ensures var ds := SyncSpec(nav, listing, pages, regionsOf).value;
            var listed := ListPages(listing, PagesCount(nav).value).value;
            var filled := MapAll(KeepGalaxies(listed), FillOf(pages, regionsOf)).value;
            && SortedBy(ds, SupernameKey)
            && multiset(ds) == multiset(KeepRelevant(filled))
            && (forall d :: d in ds ==> IsDeviceRelevant(d) && IsGalaxy(d))
  {
    var listed := ListPages(listing, PagesCount(nav).value).value;
    var galaxies := KeepGalaxies(listed);
    FilledAreGalaxies(galaxies, pages, regionsOf);
    SortedRelevant(MapAll(galaxies, FillOf(pages, regionsOf)).value);
  }

  /** Filling keeps the name, so a filled Galaxy is still a Galaxy. */
  lemma FilledAreGalaxies(ds: seq<Device>, pages: string -> Option<seq<Table>>, regionsOf: string -> Option<seq<string>>)
    requires MapAll(ds, FillOf(pages, regionsOf)).Some? && forall d :: d in ds ==> IsGalaxy(d)
    ensures forall d :: d in MapAll(ds, FillOf(pages, regionsOf)).value ==> IsGalaxy(d)
  {
    var filled := MapAll(ds, FillOf(pages, regionsOf)).value;
    MapAllValues(ds, FillOf(pages, regionsOf));
    forall d | d in filled
      ensures IsGalaxy(d)
    {
      var i :| 0 <= i < |filled| && filled[i] == d;
      assert FillSpec(ds[i], pages(ds[i].url), regionsOf) == Some(d);
      assert ds[i] in ds;
    }
  }

  /** The relevant devices sorted by supername: ordered, each kept once, all relevant. */
  lemma SortedRelevant(filled: seq<Device>)
    ensures var ds := SortByKey(KeepRelevant(filled), SupernameKey);
            && SortedBy(ds, SupernameKey)
            && multiset(ds) == multiset(KeepRelevant(filled))
            && forall d :: d in ds ==> d in filled && IsDeviceRelevant(d)
  {
    var relevant := KeepRelevant(filled);
    SortSorted(relevant, SupernameKey);
    SortPermutation(relevant, SupernameKey);
    forall d | d in SortByKey(relevant, SupernameKey)
      ensures d in filled && IsDeviceRelevant(d)
    {
      assert d in multiset(SortByKey(relevant, SupernameKey));
    }
  }

  /** The `for i in range(1, pages_count + 1)` loop: every listing page fetched and concatenated. */
  method FetchAllPages(listing: int -> Option<seq<Item>>, n: int) returns (r: Option<seq<Device>>)
    ensures r == ListPages(listing, n)
  {
    var devices: seq<Device> := [];
    var i := 1;
    while i <= n
      invariant 1 <= i <= if n >= 1 then n + 1 else 1
      invariant ListPages(listing, i - 1) == Some(devices)
    {
      var page := FetchPage(listing(i));
      if page.None? {
        ListPagesFails(listing, i, n);
        return None;
      }
      devices := devices + page.value;
      i := i + 1;
    }
    if n < 1 {
      assert ListPages(listing, n) == ListPages(listing, 0);
    }
    r := Some(devices);
  }

  /** The `fill_details` loop over the kept devices, each on a fresh `DeviceMeta`. */
  method FillDevices(devices: seq<Device>, pages: string -> Option<seq<Table>>,
                     regionsOf: string -> Option<seq<string>>) returns (r: Option<seq<Device>>)
    ensures r == MapAll(devices, FillOf(pages, regionsOf))
  {
    var filled: seq<Device> := [];
    var k := 0;
    while k < |devices|
      invariant 0 <= k <= |devices|
      invariant MapAll(devices[..k], FillOf(pages, regionsOf)) == Some(filled)
    {
      var f := FillOne(devices[k], pages, regionsOf);
      assert f == FillOf(pages, regionsOf)(devices[k]);
      if f.None? {
        FillAllFails(devices, k, pages, regionsOf);
        return None;
      }
      MapAllPrefix(devices, FillOf(pages, regionsOf), k, filled, f.value);
      filled := filled + [f.value];
      k := k + 1;
    }
    assert devices[..k] == devices;
    r := Some(filled);
  }

  /** One device of the loop: `fill_details` on a fresh `DeviceMeta` holding it. */
  method FillOne(d: Device, pages: string -> Option<seq<Table>>, regionsOf: string -> Option<seq<string>>)
    returns (r: Option<Device>)
    ensures r == FillSpec(d, pages(d.url), regionsOf)
  {
    var dm := new DeviceMeta(d);
    var ok := FillDetails(dm, pages(dm.url), regionsOf);
    r := if ok then Some(dm.Value()) else None;
  }

  /** `sync_devices()`: list, filter, fill in, filter, sort and save. */
  method SyncDevices(store: Devices, nav: Option<seq<string>>, listing: int -> Option<seq<Item>>,
                     pages: string -> Option<seq<Table>>, regionsOf: string -> Option<seq<string>>)
    modifies store
    ensures var r := SyncSpec(nav, listing, pages, regionsOf);
            store.State() == if r.None? then old(store.State()) else SaveAll(old(store.State()), r.value)
  {
    var count := PagesCount(nav);
    if count.None? {
      return;
    }
    var devices := FetchAllPages(listing, count.value);
    if devices.None? {
      return;
    }
    var filled := FillDevices(KeepGalaxies(devices.value), pages, regionsOf);
    if filled.None? {
      return;
    }
    SaveDevices(store, SortByKey(KeepRelevant(filled.value), SupernameKey));
  }

  /** The final loop of `sync_devices`: `devices_db.save` for each device in turn. */
  method SaveDevices(store: Devices, ds: seq<Device>)
    modifies store
    ensures store.State() == SaveAll(old(store.State()), ds)
  {
    var j := 0;
    while j < |ds|
      invariant 0 <= j <= |ds|
      invariant store.State() == SaveAll(old(store.State()), ds[..j])
    {
      assert ds[..j + 1][..j] == ds[..j];
      store.Save(ds[j]);
      j := j + 1;
    }
    assert ds[..j] == ds;
  }

  lemma {:induction false} ListPagesFails(listing: int -> Option<seq<Item>>, i: int, n: int)
    requires 1 <= i <= n
    requires listing(i).None? || ListPage(listing(i).value).None?
    ensures ListPages(listing, n) == None
    decreases n
  {
    if i < n {
      ListPagesFails(listing, i, n - 1);
    }
  }

  /** One device whose page cannot be read aborts the whole pass. */
  lemma FillAllFails(ds: seq<Device>, k: nat, pages: string -> Option<seq<Table>>,
                     regionsOf: string -> Option<seq<string>>)
    requires k < |ds| && FillSpec(ds[k], pages(ds[k].url), regionsOf).None?
    ensures MapAll(ds, FillOf(pages, regionsOf)) == None
  {
    MapAllSome(ds, FillOf(pages, regionsOf));
  }
}
