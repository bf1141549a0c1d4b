/**
 * The device record of the GSMArena scraper (`DeviceMeta`, sambot/utils/devices.py).
 *
 * `details` maps a specification category to its label/value pairs, `regions` maps a
 * model to its set of region codes (a Python set is a duplicate-free sequence here), both
 * in insertion order as Python dictionaries keep it.
 */
module DeviceRecord {

  import opened Wrappers
  import opened Dicts

  /** A snapshot of every field of a `DeviceMeta`. */
  datatype Device = Device(
    id: int,
    name: string,
    url: string,
    imgUrl: string,
    shortDescription: string,
    details: Dict<string, Dict<string, string>>,
    modelSupername: Option<string>,
    models: seq<string>,
    regions: Dict<string, seq<string>>)

  /**
   * A listed device before its details are filled in.
   *
   * The Python class declares `details`, `models` and `regions` as mutable default
   * arguments, so every instance built without them shares the same three containers.
   * Here each instance starts with containers of its own.
   */
  function Listed(id: int, name: string, url: string, imgUrl: string, shortDescription: string): (d: Device)
    ensures d.details == [] && d.models == [] && d.regions == [] && d.modelSupername == None
    ensures d.id == id && d.name == name && d.url == url
    ensures d.imgUrl == imgUrl && d.shortDescription == shortDescription
  {
    Device(id, name, url, imgUrl, shortDescription, [], None, [], [])
  }

  class DeviceMeta {
    var id: int
    var name: string
    var url: string
    var imgUrl: string
    var shortDescription: string
    var details: Dict<string, Dict<string, string>>
    var modelSupername: Option<string>
    var models: seq<string>
    var regions: Dict<string, seq<string>>

    /** The current contents of the object. */
    function Value(): Device
      reads this
    {
      Device(id, name, url, imgUrl, shortDescription, details, modelSupername, models, regions)
    }

    constructor (d: Device)
      ensures Value() == d
    {
      id := d.id;
      name := d.name;
      url := d.url;
      imgUrl := d.imgUrl;
      shortDescription := d.shortDescription;
      details := d.details;
      modelSupername := d.modelSupername;
      models := d.models;
      regions := d.regions;
    }
  }
}
