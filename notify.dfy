/**
 * The firmware watch of sambot/utils/notify.py (`sync_firmwares`).
 *
 * Its collaborators are injected: the firmware channel setting, the device database
 * (read only, through `get_all_models` and `get_regions_by_model`), the two pages the
 * firmware lookup downloads for a model and region (`None` where a download fails), the
 * transport's answer to each message it is handed, and the firmware database, which the
 * pass updates in place. A message is the text and the download button the code builds.
 */
module Notify {

  import opened Wrappers
  import opened Dates
  import opened Firmware
  import Versions
  import DeviceStore
  import FirmwareStore
  import SqlLike

  datatype Message = Message(chatId: int, text: string, buttonUrl: string)

  /** The notification for a newer build: its fields, line by line, and its download link. */
  function MessageFor(channel: int, info: FirmwareMeta): (m: Message)
    requires ValidDate(info.buildDate) && ValidDate(info.securityPatch)
    ensures m.chatId == channel && m.buttonUrl == info.DownloadUrl()
  {
    Message(channel,
      "New firmware update available\n\n"
      + "Device: " + info.name + "\n"
      + "Model: " + info.model + "\n"
      + "OS Version: " + info.osVersion + "\n"
      + "PDA Version: " + info.pda + "\n"
      + "Release Date: " + FormatDate(info.buildDate) + "\n"
      + "Security Patch Level: " + FormatDate(info.securityPatch) + "\n\n"
      + "Changelog:\n" + info.changelog,
      info.DownloadUrl())
  }

  /** The changelog pages of one model, as a function of the token the firmware lookup derives. */
  function EngOf(eng: (string, string) -> Option<EngPage>, model: string): string -> Option<EngPage> {
    token => eng(model, token)
  }

  /** `FirmwareInfo.fetch_latest(model, region)` over the injected pages. */
  function Observation(doc: (string, string) -> Option<DocPage>, eng: (string, string) -> Option<EngPage>,
                       model: string, region: string): (r: Option<FirmwareMeta>)
    ensures r.Some? ==> r.value.model == model && r.value.region == region
    ensures r.Some? ==> ValidDate(r.value.buildDate) && ValidDate(r.value.securityPatch)
  {
    ExtractLatest(model, region, doc(model, region), EngOf(eng, model))
  }

  /**
   * The state of a pass: the firmware table, the messages delivered so far, and whether
   * the pass has stopped because the transport raised (nothing in `sync_firmwares`
   * catches that).
   */
  datatype Pass = Pass(rows: seq<FirmwareStore.PdaRow>, sent: seq<Message>, stopped: bool)

  /**
   * One region's lookup result handled: nothing for `None`; otherwise a message when the
   * stored build is present and older, then the stored build set to the observed one.
   * `delivered(k)` is whether the transport accepts the `k`-th message of the pass; when it
   * does not, the pass stops before the store is written.
   */
  function Observe(p: Pass, ins: FirmwareStore.Insert, channel: int, model: string, info: Option<FirmwareMeta>, delivered: nat -> bool): Pass
    requires info.Some? ==> ValidDate(info.value.buildDate) && ValidDate(info.value.securityPatch)
  {
    if p.stopped || info.None? then p
    else
      var stored := FirmwareStore.GetPdaOf(p.rows, model);
      if stored.Some? && info.value.IsNewerThan(stored.value) then
        if !delivered(|p.sent|) then p.(stopped := true)
        else Pass(FirmwareStore.SetPdaWith(ins, p.rows, model, info.value.pda), p.sent + [MessageFor(channel, info.value)], false)
      else p.(rows := FirmwareStore.SetPdaWith(ins, p.rows, model, info.value.pda))
  }

  /** The regions of one model handled in the order they are listed. */
  function ObserveRegions(p: Pass, ins: FirmwareStore.Insert, channel: int, model: string, regions: seq<string>,
                          doc: (string, string) -> Option<DocPage>, eng: (string, string) -> Option<EngPage>,
                          delivered: nat -> bool): Pass
  {
    if regions == [] then p
    else
      var before := ObserveRegions(p, ins, channel, model, regions[..|regions| - 1], doc, eng, delivered);
      Observe(before, ins, channel, model, Observation(doc, eng, model, regions[|regions| - 1]), delivered)
  }

  /** The models handled in order; a model without regions is skipped. */
  function ObserveModels(p: Pass, ins: FirmwareStore.Insert, channel: int, devices: DeviceStore.Tables, models: seq<string>,
                         doc: (string, string) -> Option<DocPage>, eng: (string, string) -> Option<EngPage>,
                         delivered: nat -> bool): Pass
  {
    if models == [] then p
    else
      var before := ObserveModels(p, ins, channel, devices, models[..|models| - 1], doc, eng, delivered);
      var m := models[|models| - 1];
      match DeviceStore.GetRegionsByModel(devices, m)
      case None => before
      case Some(regions) => ObserveRegions(before, ins, channel, m, regions, doc, eng, delivered)
  }

  /** The whole pass, from the firmware table it starts with. */
  function SyncSpec(ins: FirmwareStore.Insert, channel: Option<int>, devices: DeviceStore.Tables, rows: seq<FirmwareStore.PdaRow>,
                    doc: (string, string) -> Option<DocPage>, eng: (string, string) -> Option<EngPage>,
                    delivered: nat -> bool): Pass
  {
    var start := Pass(rows, [], false);
    if channel.None? || channel.value == 0 then start
    else
      match DeviceStore.GetAllModels(devices)
      case None => start
      case Some(models) => ObserveModels(start, ins, channel.value, devices, models, doc, eng, delivered)
  }

  /** A stopped pass stays as it is, whatever regions remain. */
  lemma {:induction false} ObserveRegionsStopped(p: Pass, ins: FirmwareStore.Insert, channel: int, model: string,
                                                 regions: seq<string>, doc: (string, string) -> Option<DocPage>,
                                                 eng: (string, string) -> Option<EngPage>, delivered: nat -> bool)
    requires p.stopped
    ensures ObserveRegions(p, ins, channel, model, regions, doc, eng, delivered) == p
  {
    if regions != [] {
      ObserveRegionsStopped(p, ins, channel, model, regions[..|regions| - 1], doc, eng, delivered);
    }
  }

  /** Once the pass stops after the first `k` models, the remaining models change nothing. */
  lemma {:induction false} ObserveModelsStopped(p: Pass, ins: FirmwareStore.Insert, channel: int,
                                                devices: DeviceStore.Tables, models: seq<string>, k: nat,
                                                doc: (string, string) -> Option<DocPage>,
                                                eng: (string, string) -> Option<EngPage>, delivered: nat -> bool)
    requires k <= |models|
    requires ObserveModels(p, ins, channel, devices, models[..k], doc, eng, delivered).stopped
    ensures ObserveModels(p, ins, channel, devices, models, doc, eng, delivered)
            == ObserveModels(p, ins, channel, devices, models[..k], doc, eng, delivered)
    decreases |models|
  {
    if k < |models| {
      var init := models[..|models| - 1];
      assert init[..k] == models[..k];
      ObserveModelsStopped(p, ins, channel, devices, init, k, doc, eng, delivered);
      var q := ObserveModels(p, ins, channel, devices, init, doc, eng, delivered);
      var rs := DeviceStore.GetRegionsByModel(devices, models[|models| - 1]);
      if rs.Some? {
        ObserveRegionsStopped(q, ins, channel, models[|models| - 1], rs.value, doc, eng, delivered);
      }
    } else {
      assert models[..k] == models;
    }
  }

  lemma {:induction false} ObserveRegionsStoppedAt(p: Pass, ins: FirmwareStore.Insert, channel: int, model: string,
                                                   regions: seq<string>, k: nat,
                                                   doc: (string, string) -> Option<DocPage>,
                                                   eng: (string, string) -> Option<EngPage>, delivered: nat -> bool)
    requires k <= |regions|
    requires ObserveRegions(p, ins, channel, model, regions[..k], doc, eng, delivered).stopped
    ensures ObserveRegions(p, ins, channel, model, regions, doc, eng, delivered)
            == ObserveRegions(p, ins, channel, model, regions[..k], doc, eng, delivered)
    decreases |regions|
  {
    if k < |regions| {
      var init := regions[..|regions| - 1];
      assert init[..k] == regions[..k];
      ObserveRegionsStoppedAt(p, ins, channel, model, init, k, doc, eng, delivered);
    } else {
      assert regions[..k] == regions;
    }
  }

  /**
   * `sync_firmwares()`: the nested loops over models and regions. It returns the messages
   * the transport accepted and whether the transport raised. `ins` says which `INSERT`
   * `set_pda` runs; the code as written is `AsWritten`.
   */
  method SyncFirmwares(ins: FirmwareStore.Insert, channel: Option<int>, devices: DeviceStore.Tables,
                       store: FirmwareStore.Firmwares,
                       doc: (string, string) -> Option<DocPage>, eng: (string, string) -> Option<EngPage>,
                       delivered: nat -> bool)
    returns (sent: seq<Message>, raised: bool)
    modifies store
    ensures Pass(store.rows, sent, raised) == SyncSpec(ins, channel, devices, old(store.rows), doc, eng, delivered)
  {
    sent, raised := [], false;
    if channel.None? || channel.value == 0 {
      return;
    }
    var allModels := DeviceStore.GetAllModels(devices);
    if allModels.None? {
      return;
    }
    var models := allModels.value;
    ghost var start := Pass(store.rows, [], false);
    var i := 0;
    while i < |models|
      invariant 0 <= i <= |models|
      invariant start == Pass(old(store.rows), [], false)
      invariant !raised
      invariant Pass(store.rows, sent, raised)
                == ObserveModels(start, ins, channel.value, devices, models[..i], doc, eng, delivered)
    {
      assert models[..i + 1][..i] == models[..i];
      var regions := DeviceStore.GetRegionsByModel(devices, models[i]);
      if regions.Some? {
        sent, raised := CheckRegions(ins, channel.value, models[i], regions.value, store, doc, eng, delivered, sent);
        if raised {
          ObserveModelsStopped(start, ins, channel.value, devices, models, i + 1, doc, eng, delivered);
          return;
        }
      }
      i := i + 1;
    }
    assert models[..i] == models;
  }

  /** The inner loop: one firmware lookup per region, in the order the regions are listed. */
  method CheckRegions(ins: FirmwareStore.Insert, channel: int, model: string, regions: seq<string>,
                      store: FirmwareStore.Firmwares,
                      doc: (string, string) -> Option<DocPage>, eng: (string, string) -> Option<EngPage>,
                      delivered: nat -> bool, sent0: seq<Message>)
    returns (sent: seq<Message>, raised: bool)
    modifies store
    ensures Pass(store.rows, sent, raised)
            == ObserveRegions(Pass(old(store.rows), sent0, false), ins, channel, model, regions, doc, eng, delivered)
  {
    sent, raised := sent0, false;
    ghost var start := Pass(store.rows, sent0, false);
    var j := 0;
    while j < |regions|
      invariant 0 <= j <= |regions|
      invariant start == Pass(old(store.rows), sent0, false)
      invariant !raised
      invariant Pass(store.rows, sent, raised)
                == ObserveRegions(start, ins, channel, model, regions[..j], doc, eng, delivered)
    {
      ObserveRegionsStep(start, ins, channel, model, regions, j, doc, eng, delivered);
      var info := FetchLatest(model, regions[j], doc(model, regions[j]), EngOf(eng, model));
      sent, raised := CheckRegion(ins, channel, model, info, store, delivered, sent);
      if raised {
        ObserveRegionsStoppedAt(start, ins, channel, model, regions, j + 1, doc, eng, delivered);
        return;
      }
      j := j + 1;
    }
    assert regions[..j] == regions;
  }

  /** The body of the region loop: one lookup result handled against the store. */
  method CheckRegion(ins: FirmwareStore.Insert, channel: int, model: string, info: Option<FirmwareMeta>,
                     store: FirmwareStore.Firmwares, delivered: nat -> bool, sent0: seq<Message>)
    returns (sent: seq<Message>, raised: bool)
    requires info.Some? ==> ValidDate(info.value.buildDate) && ValidDate(info.value.securityPatch)
    modifies store
    ensures Pass(store.rows, sent, raised)
            == Observe(Pass(old(store.rows), sent0, false), ins, channel, model, info, delivered)
  {
    sent, raised := sent0, false;
    if info.Some? {
      var stored := store.GetPda(model);
      if stored.Some? && info.value.IsNewerThan(stored.value) {
        if !delivered(|sent|) {
          raised := true;
          return;
        }
        sent := sent + [MessageFor(channel, info.value)];
      }
      if ins.AsWritten? {
        store.SetPdaAsWritten(model, info.value.pda);
      } else {
        store.SetPda(model, info.value.pda);
      }
    }
  }

  /** One more region is one more `Observe`. */
  lemma ObserveRegionsStep(p: Pass, ins: FirmwareStore.Insert, channel: int, model: string, regions: seq<string>,
                           j: nat, doc: (string, string) -> Option<DocPage>, eng: (string, string) -> Option<EngPage>,
                           delivered: nat -> bool)
    requires j < |regions|
    ensures ObserveRegions(p, ins, channel, model, regions[..j + 1], doc, eng, delivered)
            == Observe(ObserveRegions(p, ins, channel, model, regions[..j], doc, eng, delivered),
                       ins, channel, model, Observation(doc, eng, model, regions[j]), delivered)
  {
    assert regions[..j + 1][..j] == regions[..j];
  }

  // ---------------------------------------------------------------------------------
  // What one lookup does
  // ---------------------------------------------------------------------------------

  /** Without a firmware channel, or with no model stored, nothing is fetched, sent or stored. */
  lemma NothingWithoutChannelOrModels(ins: FirmwareStore.Insert, channel: Option<int>, devices: DeviceStore.Tables,
                                      rows: seq<FirmwareStore.PdaRow>, doc: (string, string) -> Option<DocPage>,
                                      eng: (string, string) -> Option<EngPage>, delivered: nat -> bool)
    requires channel.None? || channel.value == 0 || devices.models == []
    ensures SyncSpec(ins, channel, devices, rows, doc, eng, delivered) == Pass(rows, [], false)
  {
  }

  /** A lookup that finds nothing sends nothing and stores nothing. */
  lemma NotFoundChangesNothing(p: Pass, ins: FirmwareStore.Insert, channel: int, model: string, delivered: nat -> bool)
    ensures Observe(p, ins, channel, model, None, delivered) == p
  {
  }

  /**
   * A message goes out exactly when the stored build is present and non-empty, the observed
   * one is newer, and the transport accepts it; it is the notification for the observed build.
   */
  lemma SendsIffNewer(p: Pass, ins: FirmwareStore.Insert, channel: int, model: string, info: FirmwareMeta,
                      delivered: nat -> bool)
    requires !p.stopped && ValidDate(info.buildDate) && ValidDate(info.securityPatch)
    ensures var q := Observe(p, ins, channel, model, Some(info), delivered);
            var stored := FirmwareStore.GetPdaOf(p.rows, model);
            && (q.sent != p.sent <==> stored.Some? && Versions.IsNewerThan(info.pda, stored.value) && delivered(|p.sent|))
            && (q.sent != p.sent ==> q.sent == p.sent + [MessageFor(channel, info)])
            && (q.sent == p.sent || q.sent == p.sent + [MessageFor(channel, info)])
  {
    var q := Observe(p, ins, channel, model, Some(info), delivered);
    if q.sent != p.sent {
      assert |q.sent| == |p.sent| + 1;
    }
  }

  /** The first lookup of a model, when no row matches it yet, never sends. */
  lemma FirstObservationIsSilent(p: Pass, ins: FirmwareStore.Insert, channel: int, model: string, info: FirmwareMeta,
                                 delivered: nat -> bool)
    requires ValidDate(info.buildDate) && ValidDate(info.securityPatch)
    requires !FirmwareStore.ModelExists(p.rows, model)
    ensures Observe(p, ins, channel, model, Some(info), delivered).sent == p.sent
  {
  }

  /**
   * After a lookup that finds a build, the stored build is the observed one, newer or not
   * (an empty build reads back as missing), unless the transport raised first. As written,
   * this holds once a row matches the model: `set_pda` then runs its `UPDATE`, which binds
   * its parameters in the right order.
   */
  lemma StoresObservedBuild(p: Pass, ins: FirmwareStore.Insert, channel: int, model: string, info: FirmwareMeta,
                            delivered: nat -> bool)
    requires !p.stopped && ValidDate(info.buildDate) && ValidDate(info.securityPatch)
    ensures var q := Observe(p, ins, channel, model, Some(info), delivered);
            !q.stopped && (ins.Corrected? || FirmwareStore.ModelExists(p.rows, model)) ==>
              FirmwareStore.GetPdaOf(q.rows, model) == if info.pda == "" then None else Some(info.pda)
  {
    var q := Observe(p, ins, channel, model, Some(info), delivered);
    ObserveStores(p, ins, channel, model, info, delivered);
    if !q.stopped && (ins.Corrected? || FirmwareStore.ModelExists(p.rows, model)) {
      assert q.rows == FirmwareStore.SetPdaSpec(p.rows, model, info.pda);
      if info.pda == "" {
        FirmwareStore.SetEmptyThenGetPda(p.rows, model);
      } else {
        FirmwareStore.SetThenGetPda(p.rows, model, info.pda);
      }
    }
  }

  /** Unless the transport raised, the lookup's build went through `set_pda`. */
  lemma ObserveStores(p: Pass, ins: FirmwareStore.Insert, channel: int, model: string, info: FirmwareMeta,
                      delivered: nat -> bool)
    requires !p.stopped && ValidDate(info.buildDate) && ValidDate(info.securityPatch)
    ensures var q := Observe(p, ins, channel, model, Some(info), delivered);
            !q.stopped ==> q.rows == FirmwareStore.SetPdaWith(ins, p.rows, model, info.pda)
  {
  }

  /** The message is sent before the store is written: when the transport raises, the store is as it was. */
  lemma SendBeforeStore(p: Pass, ins: FirmwareStore.Insert, channel: int, model: string, info: FirmwareMeta,
                        delivered: nat -> bool)
    requires !p.stopped && ValidDate(info.buildDate) && ValidDate(info.securityPatch)
    ensures var q := Observe(p, ins, channel, model, Some(info), delivered);
            q.stopped ==> q.rows == p.rows && q.sent == p.sent && !delivered(|p.sent|)
  {
  }

  /**
   * Two lookups of a model the table does not know yet, the second finding a newer build.
   * With the `INSERT` in column order the second lookup sends its notification. As written
   * it sends nothing: the first build went into the `Model` column, so no row matches the
   * model and `get_pda` finds nothing to compare with.
   */
  lemma SecondLookup(p: Pass, ins: FirmwareStore.Insert, channel: int, model: string,
                     first: FirmwareMeta, second: FirmwareMeta, delivered: nat -> bool)
    requires !p.stopped
    requires ValidDate(first.buildDate) && ValidDate(first.securityPatch)
    requires ValidDate(second.buildDate) && ValidDate(second.securityPatch)
    requires !FirmwareStore.ModelExists(p.rows, model) && !SqlLike.Like(first.pda, model)
    requires first.pda != "" && second.IsNewerThan(first.pda) && delivered(|p.sent|)
    ensures var q := Observe(Observe(p, ins, channel, model, Some(first), delivered),
                             ins, channel, model, Some(second), delivered);
            q.sent == if ins.Corrected? then p.sent + [MessageFor(channel, second)] else p.sent
  {
    var q1 := Observe(p, ins, channel, model, Some(first), delivered);
    assert q1.sent == p.sent && !q1.stopped;
    if ins.Corrected? {
      FirmwareStore.SetThenGetPda(p.rows, model, first.pda);
    } else {
      assert q1.rows == p.rows + [FirmwareStore.PdaRow(first.pda, model)];
      assert !FirmwareStore.ModelExists(q1.rows, model) by {
        forall i | 0 <= i < |q1.rows|
          ensures !SqlLike.Like(q1.rows[i].model, model)
        {
          if i < |p.rows| {
            assert q1.rows[i] == p.rows[i];
          }
        }
      }
    }
  }

  // ---------------------------------------------------------------------------------
  // The pass as written never notifies
  // ---------------------------------------------------------------------------------

  /** No row's `Model` is `LIKE` any of `models`. */
  predicate NoRowMatches(rows: seq<FirmwareStore.PdaRow>, models: seq<string>) {
    forall i, j :: 0 <= i < |rows| && 0 <= j < |models| ==> !SqlLike.Like(rows[i].model, models[j])
  }

  /** No build a lookup can find is `LIKE` any of `models`. */
  ghost predicate NoBuildMatches(doc: (string, string) -> Option<DocPage>, eng: (string, string) -> Option<EngPage>,
                           models: seq<string>) {
    forall m, region, j :: 0 <= j < |models| && Observation(doc, eng, m, region).Some? ==>
      !SqlLike.Like(Observation(doc, eng, m, region).value.pda, models[j])
  }

  /**
   * As written, a lookup of one of `models` while no row matches any of them sends nothing,
   * and the row it inserts holds the build as its model, so still no row matches.
   */
  lemma AsWrittenObserveIsSilent(p: Pass, channel: int, models: seq<string>, k: nat, info: Option<FirmwareMeta>,
                                 delivered: nat -> bool)
    requires k < |models| && NoRowMatches(p.rows, models)
    requires info.Some? ==> ValidDate(info.value.buildDate) && ValidDate(info.value.securityPatch)
    requires info.Some? ==> forall j :: 0 <= j < |models| ==> !SqlLike.Like(info.value.pda, models[j])
    ensures var q := Observe(p, FirmwareStore.AsWritten, channel, models[k], info, delivered);
            q.sent == p.sent && q.stopped == p.stopped && NoRowMatches(q.rows, models)
  {
    if !p.stopped && info.Some? {
      var q := Observe(p, FirmwareStore.AsWritten, channel, models[k], info, delivered);
      assert !FirmwareStore.ModelExists(p.rows, models[k]);
      assert q.rows == p.rows + [FirmwareStore.PdaRow(info.value.pda, models[k])];
      forall i, j | 0 <= i < |q.rows| && 0 <= j < |models|
        ensures !SqlLike.Like(q.rows[i].model, models[j])
      {
        if i < |p.rows| {
          assert q.rows[i] == p.rows[i];
        }
      }
    }
  }

  lemma {:induction false} AsWrittenRegionsAreSilent(p: Pass, channel: int, models: seq<string>, k: nat,
                                                     regions: seq<string>,
                                                     doc: (string, string) -> Option<DocPage>,
                                                     eng: (string, string) -> Option<EngPage>, delivered: nat -> bool)
    requires k < |models| && NoRowMatches(p.rows, models) && NoBuildMatches(doc, eng, models)
    ensures var q := ObserveRegions(p, FirmwareStore.AsWritten, channel, models[k], regions, doc, eng, delivered);
            q.sent == p.sent && q.stopped == p.stopped && NoRowMatches(q.rows, models)
  {
    if regions != [] {
      AsWrittenRegionsAreSilent(p, channel, models, k, regions[..|regions| - 1], doc, eng, delivered);
      var before := ObserveRegions(p, FirmwareStore.AsWritten, channel, models[k], regions[..|regions| - 1],
                                   doc, eng, delivered);
      var info := Observation(doc, eng, models[k], regions[|regions| - 1]);
      AsWrittenObserveIsSilent(before, channel, models, k, info, delivered);
    }
  }

  lemma {:induction false} AsWrittenModelsAreSilent(p: Pass, channel: int, devices: DeviceStore.Tables,
                                                    models: seq<string>, n: nat,
                                                    doc: (string, string) -> Option<DocPage>,
                                                    eng: (string, string) -> Option<EngPage>, delivered: nat -> bool)
    requires n <= |models| && NoRowMatches(p.rows, models) && NoBuildMatches(doc, eng, models)
    ensures var q := ObserveModels(p, FirmwareStore.AsWritten, channel, devices, models[..n], doc, eng, delivered);
            q.sent == p.sent && q.stopped == p.stopped && NoRowMatches(q.rows, models)
  {
    if n > 0 {
      assert models[..n][..n - 1] == models[..n - 1];
      AsWrittenModelsAreSilent(p, channel, devices, models, n - 1, doc, eng, delivered);
      var before := ObserveModels(p, FirmwareStore.AsWritten, channel, devices, models[..n - 1], doc, eng, delivered);
      var rs := DeviceStore.GetRegionsByModel(devices, models[n - 1]);
      if rs.Some? {
        AsWrittenRegionsAreSilent(before, channel, models, n - 1, rs.value, doc, eng, delivered);
      }
    }
  }

  /**
   * `sync_firmwares` as written never sends a message, however many passes run, as long as
   * no stored row's `Model` is `LIKE` a stored model and no build found is `LIKE` one (a
   * build number is not a model code): every row it inserts holds the build as its model,
   * so `get_pda` finds nothing for any model, now and in the next pass.
   */
  lemma AsWrittenPassNeverNotifies(channel: Option<int>, devices: DeviceStore.Tables, rows: seq<FirmwareStore.PdaRow>,
                                   doc: (string, string) -> Option<DocPage>,
                                   eng: (string, string) -> Option<EngPage>, delivered: nat -> bool)
    requires forall i, k :: 0 <= i < |rows| && 0 <= k < |devices.models| ==>
               !SqlLike.Like(rows[i].model, devices.models[k].model)
    requires forall m, region, k :: 0 <= k < |devices.models| && Observation(doc, eng, m, region).Some? ==>
               !SqlLike.Like(Observation(doc, eng, m, region).value.pda, devices.models[k].model)
    ensures var q := SyncSpec(FirmwareStore.AsWritten, channel, devices, rows, doc, eng, delivered);
            && q.sent == [] && !q.stopped
            && (forall i, k :: 0 <= i < |q.rows| && 0 <= k < |devices.models| ==>
                  !SqlLike.Like(q.rows[i].model, devices.models[k].model))
            && forall k :: 0 <= k < |devices.models| ==> FirmwareStore.GetPdaOf(q.rows, devices.models[k].model) == None
  {
    var q := SyncSpec(FirmwareStore.AsWritten, channel, devices, rows, doc, eng, delivered);
    if channel.Some? && channel.value != 0 && devices.models != [] {
      var ms := DeviceStore.GetAllModels(devices).value;
      assert |ms| == |devices.models| && forall k :: 0 <= k < |ms| ==> ms[k] == devices.models[k].model;
      assert ms[..|ms|] == ms;
      AsWrittenModelsAreSilent(Pass(rows, [], false), channel.value, devices, ms, |ms|, doc, eng, delivered);
    }
    forall k | 0 <= k < |devices.models|
      ensures FirmwareStore.GetPdaOf(q.rows, devices.models[k].model) == None
    {
      assert !FirmwareStore.ModelExists(q.rows, devices.models[k].model);
    }
  }

  // ---------------------------------------------------------------------------------
  // What a whole pass does
  // ---------------------------------------------------------------------------------

  predicate AllTo(sent: seq<Message>, channel: int) {
    forall k :: 0 <= k < |sent| ==> sent[k].chatId == channel
  }

  lemma {:induction false} RegionsSendToChannel(p: Pass, ins: FirmwareStore.Insert, channel: int, model: string,
                                                regions: seq<string>, doc: (string, string) -> Option<DocPage>,
                                                eng: (string, string) -> Option<EngPage>, delivered: nat -> bool)
    requires AllTo(p.sent, channel)
    ensures var q := ObserveRegions(p, ins, channel, model, regions, doc, eng, delivered);
            AllTo(q.sent, channel) && |q.sent| <= |p.sent| + |regions|
  {
    if regions != [] {
      RegionsSendToChannel(p, ins, channel, model, regions[..|regions| - 1], doc, eng, delivered);
      var before := ObserveRegions(p, ins, channel, model, regions[..|regions| - 1], doc, eng, delivered);
      ObserveSendsToChannel(before, ins, channel, model, Observation(doc, eng, model, regions[|regions| - 1]), delivered);
    }
  }

  lemma ObserveSendsToChannel(p: Pass, ins: FirmwareStore.Insert, channel: int, model: string,
                              info: Option<FirmwareMeta>, delivered: nat -> bool)
    requires info.Some? ==> ValidDate(info.value.buildDate) && ValidDate(info.value.securityPatch)
    requires AllTo(p.sent, channel)
    ensures var q := Observe(p, ins, channel, model, info, delivered);
            AllTo(q.sent, channel) && |q.sent| <= |p.sent| + 1
  {
  }

  lemma {:induction false} ModelsSendToChannel(p: Pass, ins: FirmwareStore.Insert, channel: int,
                                               devices: DeviceStore.Tables, models: seq<string>,
                                               doc: (string, string) -> Option<DocPage>,
                                               eng: (string, string) -> Option<EngPage>, delivered: nat -> bool)
    requires AllTo(p.sent, channel)
    ensures AllTo(ObserveModels(p, ins, channel, devices, models, doc, eng, delivered).sent, channel)
  {
    if models != [] {
      var init := models[..|models| - 1];
      ModelsSendToChannel(p, ins, channel, devices, init, doc, eng, delivered);
      var rs := DeviceStore.GetRegionsByModel(devices, models[|models| - 1]);
      if rs.Some? {
        RegionsSendToChannel(ObserveModels(p, ins, channel, devices, init, doc, eng, delivered), ins, channel,
                             models[|models| - 1], rs.value, doc, eng, delivered);
      }
    }
  }

  /** Every message of a pass goes to the configured firmware channel. */
  lemma PassSendsToChannel(ins: FirmwareStore.Insert, channel: Option<int>, devices: DeviceStore.Tables,
                           rows: seq<FirmwareStore.PdaRow>, doc: (string, string) -> Option<DocPage>,
                           eng: (string, string) -> Option<EngPage>, delivered: nat -> bool)
    ensures var q := SyncSpec(ins, channel, devices, rows, doc, eng, delivered);
            q.sent != [] ==> channel.Some? && forall k :: 0 <= k < |q.sent| ==> q.sent[k].chatId == channel.value
  {
    if channel.Some? && channel.value != 0 {
      var ms := DeviceStore.GetAllModels(devices);
      if ms.Some? {
        ModelsSendToChannel(Pass(rows, [], false), ins, channel.value, devices, ms.value, doc, eng, delivered);
      }
    }
  }
}
