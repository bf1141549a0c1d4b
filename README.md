# sambot core, modelled in Dafny

sambot is a Telegram bot. It scrapes a catalogue of Samsung Galaxy phones from a listing
site and stores the catalogue in SQLite: devices, their model codes, regions and
specification tables. For every stored model and region it then looks up the latest
firmware build, the "PDA" build identifier. When that build is newer than the one it
stored last time, it posts a message to a channel. It can also look up the latest
kernel release of a model. Finally, it answers each chat in the language stored for the
user (in private chats) or for the group.

This project models the logic of all of this once the network and the HTML parser are
taken away:

- **`Pda`, `Versions`**: the build-identifier accessors and the "is newer than"
  comparator. One definition serves both the firmware and the kernel records.
- **`Firmware`**: the string extraction of a firmware changelog page.
  - The document is given as a record of the pieces the HTML selectors find.
  - The `<br>` replacement that the source applies in place to the parsed page is the
    method `Soup.ReplaceBreaks`.
- **`Kernel`**: the scan over the rows of the kernel-release table and the field extraction
  from the first matching row.
- **`DeviceRecord`, `DeviceScraper`**: the device scraper.
  - Parsing the device id from a listing link.
  - Normalising the model codes; the model "supername" exactly as written.
  - The relevance predicate.
  - `fill_details`, which merges specification tables into a `DeviceMeta` object in place.
  - The `sync_devices` pipeline: page count, listing, Galaxy filter, details,
    relevance filter, stable sort by supername, save.
- **`DeviceStore`, `FirmwareStore`, `ChatStore`, `UserStore`**: the SQLite tables of the
  device catalogue, the PDA table, and the chat and user language tables.
  - Each is a class whose fields are the tables, kept in rowid order.
  - Their methods update the tables as the SQL statements do.
  - The SQL semantics they reproduce: `INSERT OR REPLACE` on a primary key, inserts
    into tables without a key, primary-key violations swallowed by the connection
    wrapper, and `LIKE` (module `SqlLike`).
- **`Notify`**: the firmware synchronisation pass.
  - It is a specification function over the device tables, the PDA table, a fetch
    function and a delivery outcome per message.
  - A method runs the same pass over the `Firmwares` object.
  - Both take the `INSERT` that `set_pda` runs as a parameter (`FirmwareStore.Insert`):
    `AsWritten` is the code, `Corrected` binds the values in column order (see Findings).
- **`I18n`**: the locale decision of the i18n middleware.

Helper modules model the Python and SQLite behaviour the code relies on:

- `Strings`: `str.strip`, `split`, `rfind`, `replace`, slicing and `int()`.
- `Dicts`: insertion-ordered dictionaries, and Python sets kept as duplicate-free sequences.
- `Sorting`: the stable `sorted` with a key.
- `Dates`: `strptime` and `strftime` with `%Y-%m-%d`.
- `SqlLike`: SQLite `LIKE`.
- `Wrappers`: an `Option` type.

## Behaviour worth knowing

Each of these follows from the code as it stands, and the model keeps it.

- **Comparator.** It reads only the last four characters of a build identifier. So
  `S916BXXU2BAB1` is *not* newer than `S916BXXU1BAB1`; see
  `Versions.ExampleFifthLastIsUnseen`.
- **Supername.**
  - It is not the longest common prefix of the model codes: `get_model_supername` zips
    the characters of the first model against whole later model strings.
  - With two or more models it is `""` unless a later model has length 1.
- **Saving a device is not idempotent.** The multi-statement `DELETE`s in `save` run
  through `executescript` with their `?` placeholders unbound, so they delete nothing.
  - Regions and details rows are duplicated on every save (`DeviceStore.SaveNotIdempotent`).
  - Only the regions of the *first* stored model are cleared.
- **The firmware pass never notifies.** `set_pda` inserts the build into the `Model`
  column, so `get_pda` never finds a build for a model that had no row, and nothing is
  ever compared or sent (`Notify.AsWrittenPassNeverNotifies`). Once a row does match a
  model, `set_pda` runs its `UPDATE`, which binds correctly: every observed build is then
  stored, newer or not, after the message is sent (`Notify.StoresObservedBuild`).
- **No concurrency.** Nothing in the code runs as a worker pool, and there is no
  overlap guard. Every loop is sequential.

## Model

| member | source | states |
|---|---|---|
| Pda.LastFour | sambot/utils/pda.py:5-56 | the last four characters of a build id of length at least 4, with the rest as its prefix |
| Pda.AccessorsSpellLastFour | sambot/utils/pda.py:16-56 | major version, build year, build month and build id are the characters at -4, -3, -2 and -1 |
| Pda.AccessorsIgnorePrefix | sambot/utils/pda.py:5-56 | the accessors never read a character before the last four |
| Pda.AccessorsAgreeIff | sambot/utils/pda.py:5-56 | two build ids agree on all four accessors iff their last four characters are equal |
| Versions.ShortBaselineIsOlder | sambot/utils/firmware.py:66-67 | a baseline shorter than 4 characters is older than any candidate |
| Versions.ShortCandidateIsNotNewer | sambot/utils/firmware.py:69-70 | with a baseline of 4 or more characters, a candidate shorter than 4 is not newer |
| Versions.NewerIsLexGreater | sambot/utils/firmware.py:72-86 | for lengths of at least 4, newer iff the last four characters are lexicographically greater by code point |
| Versions.LexGreaterTrichotomy | sambot/utils/firmware.py:72-86 | of two equal-length strings one is greater, or they are equal |
| Versions.NewerIrreflexive | sambot/utils/firmware.py:72-86 | no build is newer than itself |
| Versions.NewerAsymmetric | sambot/utils/firmware.py:72-86 | two builds are never each newer than the other |
| Versions.NewerTransitive | sambot/utils/firmware.py:72-86 | newer-than is transitive |
| Versions.NewerTrichotomy | sambot/utils/firmware.py:72-86 | one of two builds is newer unless their last four characters are equal, and then neither is |
| Versions.NewerIgnoresPrefixes | sambot/utils/kernel.py:64-84 | characters before the last four never change the verdict, on either side |
| Versions.ExampleFifthLastIsUnseen | sambot/utils/firmware.py:72-86 | a change in the fifth-last character alone does not make a build newer |
| Firmware.FirmwareMeta.DownloadUrl | sambot/utils/firmware.py:52 | the download link starts with the samfw firmware prefix |
| Firmware.DownloadUrlSegments | sambot/utils/firmware.py:52 | the link splits on `/` into the scheme, host, `firmware`, model, region and build |
| Firmware.Token | sambot/utils/firmware.py:118 | the token read from the `dflt_page` value contains no `/` |
| Firmware.TokenOfSegments | sambot/utils/firmware.py:117-118 | the token is segment 3 of the value split on `/` |
| Firmware.FewSegmentsGiveNothing | sambot/utils/firmware.py:117-118 | a value with fewer than four segments gives no result, since the exception is swallowed |
| Firmware.ExtractThroughToken | sambot/utils/firmware.py:115-120 | with four or more segments the lookup reads the changelog page named by segment 3 |
| Firmware.Field | sambot/utils/firmware.py:129-132 | a field is absent exactly when the cell text has no `:`, and it never contains a `:` |
| Firmware.FieldOfLabelled | sambot/utils/firmware.py:129-132 | a field is the text between the first and second `:`, stripped |
| Firmware.OsVersionUnchanged | sambot/utils/firmware.py:130 | the `(Android ` rewrite leaves a text without that marker as it is |
| Firmware.Title | sambot/utils/firmware.py:133-138 | the name contains no `(` and is empty when the page has no `h1` |
| Firmware.RenderedWithoutBreaks | sambot/utils/firmware.py:140-146 | a span without `<br>` renders as its plain text |
| Firmware.Soup.ReplaceBreaks | sambot/utils/firmware.py:140-141 | every `<br>` in the page becomes a newline and nothing else changes |
| Firmware.ReplaceSpanBreaks | sambot/utils/firmware.py:140-141 | one span loses its `<br>` children, and its text is what it rendered as before |
| Firmware.Soup.ChangelogText | sambot/utils/firmware.py:140-146 | the changelog is the rendered text of the second span, or empty when there is none |
| Firmware.ExtractFields | sambot/utils/firmware.py:123-157 | a result exists iff there are two `row` blocks, the second with four cells whose fields all have a `:` and whose date fields parse; it has the requested model and region, the first field as build, the rewritten second field as OS version, the parsed third and fourth fields as build date and security patch, the `h1` title as name, and the second span's text as changelog |
| Firmware.ExtractLatest | sambot/utils/firmware.py:112-164 | a result requires the page to have a `dflt_page` element with a value, and it then equals the fields extracted from the changelog page |
| Firmware.FetchLatest | sambot/utils/firmware.py:100-164 | the method computes the lookup described by `ExtractLatest` |
| Firmware.ReadChangelogPage | sambot/utils/firmware.py:123-157 | the method, working on the parsed page in place, returns the record `ExtractFields` specifies |
| Kernel.FwVersion | sambot/utils/kernel.py:236-238 | the firmware version holds only ASCII letters and digits |
| Kernel.UploadId | sambot/utils/kernel.py:240-244 | the upload id is empty when the link has no `'` |
| Kernel.UploadIdOfQuoted | sambot/utils/kernel.py:240-244 | the upload id is the stripped text between the first and second `'` |
| Kernel.PatchVersion | sambot/utils/kernel.py:250-251 | the patch version contains no `_` and no `.` |
| Kernel.PatchVersionOfArchive | sambot/utils/kernel.py:250-251 | the patch version is the part after the last `_` and before the first `.` |
| Kernel.LastFileIsRead | sambot/utils/kernel.py:246-250 | a cell with two files splits into more than one piece, and the last is read |
| Kernel.RowResult | sambot/utils/kernel.py:236-265 | a matching row yields a record for the requested model iff its fifth cell (`table_data[4]`) has a link with an href; the build and patch kernel depend on the file cell |
| Kernel.FirstMatchFrom | sambot/utils/kernel.py:229-235 | returns the first row with more than four cells whose model list holds the model, or -1 |
| Kernel.LatestKernel | sambot/utils/kernel.py:224-273 | a result is for the requested model and comes from a matching row of a successful search |
| Kernel.FirstMatchDecides | sambot/utils/kernel.py:229-265 | the first matching row alone decides the result |
| Kernel.NoMatchNoKernel | sambot/utils/kernel.py:229-265 | with no matching row there is no result |
| Kernel.FetchLatest | sambot/utils/kernel.py:214-273 | the row loop computes `LatestKernel` |
| DeviceRecord.Listed | sambot/utils/devices.py:68-82 | a listed device has its listing fields, no details, models or regions, and no supername |
| DeviceRecord.DeviceMeta.constructor | sambot/utils/devices.py:16-37 | the object holds the given device |
| DeviceScraper.ParseDeviceIdOfLink | sambot/utils/devices.py:70-79 | the id of `slug-<n>.php` is `n` |
| DeviceScraper.RFindOfLink | sambot/utils/devices.py:72-77 | the last `-` and the last `.php` of a device link enclose its digits |
| DeviceScraper.ListPageEntries | sambot/utils/devices.py:66-85 | a page lists one device per item, in order, and fails if any item fails |
| DeviceScraper.FetchPage | sambot/utils/devices.py:52-85 | the loop builds the listing of the page |
| DeviceScraper.ModelOfCharacters | sambot/utils/devices.py:102 | a normalised piece has no `/` and keeps only characters of the comma segment |
| DeviceScraper.ExampleSpaceBeforeSlash | sambot/utils/devices.py:102 | whitespace before the `/` survives, since stripping happens before the split |
| DeviceScraper.ModelOfSuffixed | sambot/utils/devices.py:102 | a model written as `model/suffix` normalises to the model |
| DeviceScraper.Candidates | sambot/utils/devices.py:98-102 | one candidate per comma segment of the `Models` field |
| DeviceScraper.KeepSamsungMembers | sambot/utils/devices.py:104-109 | exactly the candidates starting with `SM-` are kept |
| DeviceScraper.NormalizedModelsMembers | sambot/utils/devices.py:98-110 | the normalised models are distinct and are the `SM-` candidates |
| DeviceScraper.NormalizedModelsAreSingle | sambot/utils/devices.py:99-102 | a normalised model contains no `,` and no `/` |
| DeviceScraper.NoModelsField | sambot/utils/devices.py:98 | a missing `Misc`/`Models` entry gives no models |
| DeviceScraper.GetNormalizedModels | sambot/utils/devices.py:88-110 | the set-building loop and the removal loop compute the normalised models |
| DeviceScraper.CollectModels | sambot/utils/devices.py:99-102 | the set built entry by entry holds each entry's model once, in first-occurrence order |
| DeviceScraper.RemoveNonSamsung | sambot/utils/devices.py:104-109 | the removal loop keeps exactly the models starting with `SM-`, in order |
| DeviceScraper.CandidatesOfEmpty | sambot/utils/devices.py:98-102 | an empty `Models` field is one empty entry, whose model is empty |
| Dicts.DedupMembers | sambot/utils/devices.py:101-102 | the set holds every model once and nothing that is not a model of some entry |
| DeviceScraper.FirstMismatch | sambot/utils/devices.py:129-138 | the first index where a character of the first model differs from the later model at that index |
| DeviceScraper.Supername | sambot/utils/devices.py:123-140 | empty for no models, the model itself for one, and always a prefix of the first model |
| DeviceScraper.SupernameOfSeveral | sambot/utils/devices.py:128-139 | with two or more models and a second model not of length 1, the supername is empty |
| DeviceScraper.ExampleSupernameIsNotCommonPrefix | sambot/utils/devices.py:128-139 | two models with a long common prefix still have an empty supername |
| DeviceScraper.RelevantIffModels | sambot/utils/devices.py:152-159 | relevant iff there are details and at least one normalised model |
| DeviceScraper.MergeTablesFails | sambot/utils/devices.py:174-175 | a table without a header raises, so the device gets no details |
| DeviceScraper.MergeTablesSucceeds | sambot/utils/devices.py:174-185 | the merge succeeds iff every table has a header |
| DeviceScraper.EmptyHeaderSkipped | sambot/utils/devices.py:176 | a table with an empty category is skipped |
| DeviceScraper.MergeRowsLastWins | sambot/utils/devices.py:180-184 | a repeated label takes the last value given for it |
| DeviceScraper.MergeRowsKeepsOthers | sambot/utils/devices.py:179-184 | labels not in the table keep their old values |
| DeviceScraper.MergeTablesKeepsOthers | sambot/utils/devices.py:174-185 | categories not in the page keep their old attributes |
| DeviceScraper.MergeRowsInto | sambot/utils/devices.py:180-184 | the row loop computes the merged category |
| DeviceScraper.MergeTablesInto | sambot/utils/devices.py:174-185 | on success the object holds the merged details and nothing else changed; on failure it is unchanged |
| DeviceScraper.RegionsForModel | sambot/utils/devices.py:191-206 | a model whose region lookup fails keeps its old entry; the others get the region set |
| DeviceScraper.FillRegions | sambot/utils/devices.py:191-206 | the region loop updates only the regions of the object |
| DeviceScraper.FillSpec | sambot/utils/devices.py:161-208 | a filled device keeps its identity, has the normalised models appended, and has the supername of its models |
| DeviceScraper.Filled | sambot/utils/devices.py:187-206 | after the table loop the details stay, the normalised models of the details are appended and the supername is that of all the models |
| DeviceScraper.FillDetails | sambot/utils/devices.py:161-208 | the object ends as `FillSpec` says; when the page is missing or a table has no header it is unchanged |
| DeviceScraper.FillMerged | sambot/utils/devices.py:187-206 | the steps after the table loop leave the object as `Filled` says |
| DeviceScraper.AppendModels | sambot/utils/devices.py:188-189 | the models are extended by the normalised ones and the supername is recomputed; nothing else changes |
| DeviceScraper.FillOne | sambot/utils/devices.py:248 | filling one listed device gives the device `FillSpec` describes, or none |
| DeviceScraper.KeepGalaxies | sambot/utils/devices.py:235-237 | exactly the devices named `Galaxy` and not `Watch` are kept |
| DeviceScraper.KeepRelevant | sambot/utils/devices.py:251 | exactly the relevant devices are kept |
| DeviceScraper.ListPagesFails | sambot/utils/devices.py:230-232 | one listing page that fails aborts the pass |
| DeviceScraper.FillAllFails | sambot/utils/devices.py:241-249 | one device whose details cannot be filled aborts the pass |
| DeviceScraper.SyncSavesRelevantSorted | sambot/utils/devices.py:220-253 | what is saved is a permutation of the relevant filled devices, in non-decreasing supername order, and every saved device is a relevant Galaxy |
| DeviceScraper.FilledAreGalaxies | sambot/utils/devices.py:235-249 | filling keeps the name, so every filled device passed the Galaxy filter |
| DeviceScraper.SortedRelevant | sambot/utils/devices.py:251-253 | the sorted relevant devices are ordered by supername, each relevant filled device once |
| DeviceScraper.FetchAllPages | sambot/utils/devices.py:229-232 | the page loop concatenates pages 1 to the page count |
| DeviceScraper.FillDevices | sambot/utils/devices.py:240-249 | the details loop fills every device in order |
| DeviceScraper.SaveDevices | sambot/utils/devices.py:255-257 | the save loop saves every device in order |
| DeviceScraper.SyncDevices | sambot/utils/devices.py:210-260 | a failed page count saves nothing; otherwise the store ends as the saved relevant, sorted devices make it |
| Sorting.SortSorted | sambot/utils/devices.py:253 | `sorted` by supername gives a non-decreasing order |
| Sorting.SortPermutation | sambot/utils/devices.py:253 | `sorted` by supername is a permutation |
| Sorting.SortStable | sambot/utils/devices.py:253 | devices with equal supername keep their relative order |
| DeviceStore.Devices.constructor | sambot/database/devices.py:17-44 | the four tables start empty, with their keys respected |
| DeviceStore.FirstModelOf | sambot/database/devices.py:48-52 | the first stored model of a device, or none iff the device has no models row |
| DeviceStore.WithoutRegionsOf | sambot/database/devices.py:53-55 | exactly the regions rows of that model are deleted |
| DeviceStore.WithoutDevice | sambot/database/devices.py:66-77 | `INSERT OR REPLACE` removes exactly the device row with the same id |
| DeviceStore.WithoutModel | sambot/database/devices.py:79-82 | `INSERT OR REPLACE` removes exactly the models row with the same model |
| DeviceStore.ReplaceModelsRows | sambot/database/devices.py:79-82 | after the models loop each model belongs to the device, and other rows survive unless replaced |
| DeviceStore.Devices.Save | sambot/database/devices.py:46-104 | the tables end as `SaveSpec` says |
| DeviceStore.Devices.SaveModelRows | sambot/database/devices.py:79-82 | the models loop changes only the models table |
| DeviceStore.Devices.SaveRegionRows | sambot/database/devices.py:84-90 | the regions loop appends one row per region of every model with a non-empty set |
| DeviceStore.Devices.SaveRegionsOfKey | sambot/database/devices.py:85-90 | appends the rows of one model's region set, and none when the set is empty or missing |
| DeviceStore.Devices.SaveRegionsOf | sambot/database/devices.py:87-90 | appends one row per region of one model |
| DeviceStore.Devices.SaveDetailRows | sambot/database/devices.py:92-104 | the details loop appends one row per category attribute |
| DeviceStore.Devices.SaveDetailsOf | sambot/database/devices.py:93-104 | appends one row per attribute of one category |
| DeviceStore.SaveKeepsKeys | sambot/database/devices.py:46-104 | saving keeps device ids and model codes unique |
| DeviceStore.SaveThenGetDevice | sambot/database/devices.py:66-77 | after a save the device row holds the new fields, and the rows of other devices are unchanged |
| DeviceStore.SaveModels | sambot/database/devices.py:79-82 | after a save the models rows are the device's models plus the earlier rows of other models |
| DeviceStore.SavedModelsListed | sambot/database/devices.py:79-82 | every saved model is listed by `get_all_models` |
| DeviceStore.SaveRegions | sambot/database/devices.py:48-90 | only the first stored model's regions are deleted, then every region of a non-empty set is appended |
| DeviceStore.SavedRegionsListed | sambot/database/devices.py:84-90 | every saved region is listed for its model |
| DeviceStore.SavedSpecsListed | sambot/database/devices.py:92-104 | every saved attribute is among the device's specs |
| DeviceStore.SaveNotIdempotent | sambot/database/devices.py:57-63 | saving a device with details twice differs from saving it once |
| DeviceStore.GetAllModels | sambot/database/devices.py:106-109 | none iff the models table is empty, otherwise exactly the `Model` column, row by row in rowid order |
| DeviceStore.RegionsOf | sambot/database/devices.py:111-115 | a region is listed iff a row pairs it with the model (membership only; order and repeats are not stated) |
| DeviceStore.GetRegionsByModel | sambot/database/devices.py:111-115 | none iff no row has that model, otherwise a region is listed iff a row pairs it with the model (membership only) |
| DeviceStore.SearchIn | sambot/database/devices.py:117-125 | the devices whose name matches, or that own a matching model |
| DeviceStore.SearchDevices | sambot/database/devices.py:117-125 | only stored devices are returned |
| DeviceStore.SearchFindsSubstrings | sambot/database/devices.py:117-125 | a device is found iff its name or one of its models contains the query up to ASCII case |
| DeviceStore.GetDeviceById | sambot/database/devices.py:127-130 | the stored row with that id, or none iff there is none |
| DeviceStore.FirstDevice | sambot/database/devices.py:127-130 | the first row with the id, or none iff no row has it |
| DeviceStore.GetSpecsById | sambot/database/devices.py:132-135 | a row is returned iff it is a details row of the device (membership only) |
| DeviceStore.SpecsOf | sambot/database/devices.py:132-135 | a row is kept iff it carries the device id (membership only) |
| SqlLike.LikeLiteral | sambot/database/firmware.py:23 | a pattern without wildcards matches exactly the strings equal to it up to ASCII case |
| SqlLike.LikeContains | sambot/database/devices.py:124 | `%q%` matches exactly the strings containing `q` up to ASCII case |
| SqlLike.LikeReflexive | sambot/database/firmware.py:38 | every model matches itself as a pattern |
| FirmwareStore.FirstMatch | sambot/database/firmware.py:22-26 | the first row whose model is `LIKE` the argument, or -1 when none is |
| FirmwareStore.GetPdaOf | sambot/database/firmware.py:22-26 | the build of the first row whose model is `LIKE` the argument, as `fetchone` returns it; none when no row matches or that build is empty |
| FirmwareStore.ModelExists | sambot/database/firmware.py:28-32 | true iff some row matches the model |
| FirmwareStore.Firmwares.constructor | sambot/database/firmware.py:18-20 | the table starts empty |
| FirmwareStore.Firmwares.GetPda | sambot/database/firmware.py:22-26 | the lookup over the current rows |
| FirmwareStore.Firmwares.CheckModelExists | sambot/database/firmware.py:28-32 | true iff some current row matches the model |
| FirmwareStore.Firmwares.SetPda | sambot/database/firmware.py:34-40 | the rows end as the intended upsert says |
| FirmwareStore.Firmwares.SetPdaAsWritten | sambot/database/firmware.py:34-40 | the rows end as the statements bind their parameters |
| FirmwareStore.UpdateMatchingRows | sambot/database/firmware.py:38 | the update keeps the row count, sets the build of matching rows and leaves the others |
| FirmwareStore.SetPdaRows | sambot/database/firmware.py:34-40 | an unknown model gains one row; otherwise exactly the matching rows get the build |
| FirmwareStore.SetPdaMakesModelExist | sambot/database/firmware.py:34-40 | after a set the model exists |
| FirmwareStore.SetThenGetPda | sambot/database/firmware.py:22-40 | after a set with a non-empty build, the lookup returns that build |
| FirmwareStore.SetEmptyThenGetPda | sambot/database/firmware.py:22-40 | after a set with an empty build, the lookup returns none |
| FirmwareStore.FirstMatchIs | sambot/database/firmware.py:22-26 | the first matching row is the one found |
| FirmwareStore.SetPdaIdempotent | sambot/database/firmware.py:34-40 | setting the same build twice equals setting it once, with no second row |
| FirmwareStore.SetPdaKeepsOthers | sambot/database/firmware.py:38 | rows of other models are unchanged |
| FirmwareStore.ExampleSetPdaAsWrittenLosesPda | sambot/database/firmware.py:36-39 | as written, the first set stores the build as the model, the lookup finds nothing, and the next set inserts again |
| LanguageTable.CountRows | sambot/database/chats.py:49-56 | at most the row count, and all rows when no code or an empty code is given |
| LanguageTable.RegisterCounts | sambot/database/chats.py:31-34 | registering adds one row for a new id and leaves every language count alone |
| LanguageTable.SetLanguageCountsCode | sambot/database/chats.py:42-47 | setting a language moves the id into that language's count |
| LanguageTable.SetLanguageCountsOther | sambot/database/chats.py:42-47 | setting a language moves the id out of any other language's count |
| ChatStore.Chats.constructor | sambot/database/chats.py:17-24 | the table starts empty |
| ChatStore.Chats.GetChat | sambot/database/chats.py:26-29 | the row iff the chat is stored |
| ChatStore.Chats.RegisterChat | sambot/database/chats.py:31-34 | a new chat gets a row with no language; a known one leaves the table unchanged, since the key violation is swallowed |
| ChatStore.Chats.GetLanguage | sambot/database/chats.py:36-40 | a code iff the chat is stored with a non-empty code |
| ChatStore.Chats.SetLanguage | sambot/database/chats.py:42-47 | the chat's code is the new one, inserted or updated; other chats keep theirs |
| ChatStore.Chats.GetChatsCount | sambot/database/chats.py:49-56 | all rows, or the rows holding the non-empty code given |
| UserStore.Users.constructor | sambot/database/users.py:17-24 | the table starts empty |
| UserStore.Users.GetUser | sambot/database/users.py:26-29 | the row iff the user is stored |
| UserStore.Users.RegisterUser | sambot/database/users.py:31-34 | a new user gets a row with no language; a known one leaves the table unchanged |
| UserStore.Users.GetLanguage | sambot/database/users.py:36-39 | the stored code as is, even empty; none for an unknown user or NULL |
| UserStore.Users.SetLanguage | sambot/database/users.py:41-46 | the user's code is the new one, and every other user's row is unchanged |
| UserStore.Users.GetUsersCount | sambot/database/users.py:48-55 | all rows, or the rows holding the non-empty code given |
| I18n.Decide | sambot/middlewares/i18n.py:28-34 | the result is the default or an available locale |
| I18n.GetLocale | sambot/middlewares/i18n.py:14-34 | missing user or chat gives the default; private chats read the user's language, others the chat's; the code is returned iff the record exists and the code is available |
| I18n.ConsultsOneStore | sambot/middlewares/i18n.py:21-26 | the result depends only on the users table for private chats and only on the chats table otherwise |
| Dates.ParseDate | sambot/utils/firmware.py:153-154 | a parsed date is a valid calendar date read from a `YYYY-` prefix |
| Dates.FormatDate | sambot/utils/notify.py:59-60 | the formatted date has the `YYYY-MM-DD` shape with the year's digits |
| Dates.ParseFormat | sambot/utils/notify.py:59-60 | formatting a valid date and parsing it back gives the same date |
| Notify.MessageFor | sambot/utils/notify.py:50-66 | the message goes to the channel with the build's download link as its button |
| Notify.Observation | sambot/utils/notify.py:34 | a found build is for the model and region looked up, with valid dates |
| Notify.NothingWithoutChannelOrModels | sambot/utils/notify.py:14-23 | with no channel or no stored models, nothing is sent and the table is unchanged |
| Notify.NotFoundChangesNothing | sambot/utils/notify.py:34-36 | a lookup with no result sends nothing and stores nothing |
| Notify.SendsIffNewer | sambot/utils/notify.py:48-66 | a message is sent iff the stored build exists and is non-empty, the new one is newer, and the send succeeds; it is the message for the new build |
| Notify.FirstObservationIsSilent | sambot/utils/notify.py:48-49 | the first build seen for a model never sends |
| Notify.StoresObservedBuild | sambot/utils/notify.py:68 | after a found build the stored build is the observed one, newer or not, whenever `set_pda` binds its values in column order or a row already matches the model |
| Notify.ObserveStores | sambot/utils/notify.py:48-68 | unless the send raised, the table is `set_pda` of the found build with the chosen `INSERT` |
| Notify.SecondLookup | sambot/utils/notify.py:48-68 | for a model with no row, a second lookup with a newer build notifies with the `INSERT` in column order, and sends nothing as written |
| Notify.AsWrittenObserveIsSilent | sambot/utils/notify.py:48-68 | as written, while no row matches any stored model, a lookup sends nothing and keeps it so |
| Notify.AsWrittenPassNeverNotifies | sambot/utils/notify.py:13-68 | as written, a pass sends nothing and leaves `get_pda` empty for every stored model, when no row or found build is `LIKE` a stored model |
| Notify.SendBeforeStore | sambot/utils/notify.py:64-68 | when the send raises, the table is as it was |
| Notify.ObserveRegionsStopped | sambot/utils/notify.py:33-34 | once the pass has stopped, no region changes anything |
| Notify.ObserveRegionsStoppedAt | sambot/utils/notify.py:33-34 | a stop in a prefix of the regions is the result of the whole model |
| Notify.ObserveModelsStopped | sambot/utils/notify.py:25-34 | a stop in a prefix of the models is the result of the whole pass |
| Notify.PassSendsToChannel | sambot/utils/notify.py:64-66 | every message of a pass goes to the configured channel |
| Notify.SyncFirmwares | sambot/utils/notify.py:13-68 | the nested loops leave the table and the sent messages as `SyncSpec` says, for the `INSERT` given (`AsWritten` is the code) |
| Notify.CheckRegions | sambot/utils/notify.py:33-68 | the region loop of one model does what `ObserveRegions` says, storing through the `set_pda` of the `INSERT` given |
| Notify.CheckRegion | sambot/utils/notify.py:34-68 | one region's lookup, comparison, send and `set_pda` (as written, or with the `INSERT` in column order) leave the table and the sent messages as `Observe` says |

## Left out

- HTTP fetching, retries, pacing and HTML selection (aiohttp, BeautifulSoup). Pages are
  given as records of the strings the selectors find, and each fetch is a parameter.
  A fetch that raises is `None`.
- Inside one pass, the firmware lookup is a function of (model, region). A source that
  answers a repeated lookup differently within a pass is not modelled.
- SQLite itself: connections, transactions, `VACUUM`, WAL and schema creation. Tables are
  sequences in rowid order, or a map for the chat and user tables.
- Statements that fail for other reasons than a duplicate key are not modelled.
- Telegram: `bot.send_message` becomes an appended `Message`. Its success is a parameter.
  The inline keyboard is the message's button link.
- The kernel source download (`KernelMeta.download`): sessions, cookies and file writes.
- The ACL middleware, the handlers, admin commands, scheduling, configuration, and the
  package wiring that imports names which do not exist.
- Logging everywhere.
- DeviceRecord.Listed: gives every listed device fresh empty containers. In the source,
  `DeviceMeta`'s mutable default arguments are shared by every device that `fetch_page`
  creates, so `fill_details` writes into one shared `details`, `models` and `regions`.
  That aliasing is not modelled.
- DeviceScraper.GetNormalizedModels: Python sets become duplicate-free sequences in
  first-occurrence order. The iteration order of a Python set is not modelled. The
  supername does not depend on it.
- DeviceScraper.MergeTablesInto: writes the merged details back once, at the end. The
  source updates each category as it goes. The two differ only in the partial details
  left behind when a later table raises, and then the device is dropped from the pass
  anyway.
- DeviceScraper.SyncDevices: an exception while saving is not modelled. Saving has no
  failing step in the model.
- Chat and user ids are integers; language codes are strings. The Telegram objects
  around them are not modelled.
- Strings.ParseInt: `int()` on ASCII decimal digits, with `_` between digits, a sign and
  Unicode whitespace. The other Unicode decimal digits that `int()` accepts are not modelled.
- Dates.ParseDate: reads `%Y-%m-%d` as `strptime` does for ASCII digits. Locale and
  other directives are not modelled.

## Findings

| source | as written | input that shows it | evidently intended | confidence | as-written member | corrected member |
|---|---|---|---|---|---|---|
| sambot/database/firmware.py:34-40 | `set_pda` binds `(pda, model)` for both statements. That fits the `UPDATE`, but the `INSERT` names its columns `(Model, PDA)`, so a new model is stored with its build in the `Model` column | `set_pda("SM-S921B", "S921BXXU1AXA1")` on an empty table, then `get_pda("SM-S921B")` returns nothing and a second `set_pda` inserts a second row. The next row follows this into the firmware pass | insert `(model, pda)`, so that the lookup returns the build just set | high, not executed | FirmwareStore.ExampleSetPdaAsWrittenLosesPda | FirmwareStore.SetThenGetPda |
| sambot/utils/notify.py:48-68 | the pass stores each found build through that `set_pda` | a model with no row, looked up twice, the second time with a newer build: no message is sent. Over whole passes nothing is ever sent while no row or found build is `LIKE` a stored model | the second lookup sends the notification for the newer build | high, not executed | Notify.AsWrittenPassNeverNotifies | Notify.SecondLookup |
