# Anycubic Wi-Fi printer integration: status normalisation and polling

A Dafny model of the part of the `anycubic_wifi` Home Assistant integration
that turns what a resin printer answers over its UART-Wi-Fi bridge into
Home Assistant state. It covers five areas:

- **Replies and the classifier.** The transport hands back one decoded reply
  object or a list of them. Other clients' replies are broadcast to every
  listener. The classifier picks the first reply of the wanted class.
- **The two status-extras parsers.** `_parse_extras` in the adapter and the
  older `_parse_status_extras` in the data-access object each turn a status
  reply into a dictionary of extra attributes. They handle lookup-table
  rows, unit conversion and the two computed fields, remaining layers and
  total time.
- **The three request front-ends.** These are the two adapters and the thin
  client. The model covers which errors each one translates into the
  integration's own exceptions and whether it closes its socket.
- **The two polling coordinators.** The data bridge counts consecutive
  failures and raises `UpdateFailed` only after more than three. The older
  data-access object goes offline at the first failure.
- **Around the coordinators:** host and port splitting, the
  system-information mappings of the updater and the config flow, the
  entity naming, availability, picture and extra-attribute rules, and the
  significant-change check.

Python semantics that matter here are written out:

- `int()` and `float()` of text;
- truthiness;
- `str.split` and `str.replace`;
- truncation of `int(x / 60)` toward zero;
- the exception hierarchy (`ConnectionRefusedError` is an `OSError`;
  `AnycubicMonoXAPILevel` is an `AnycubicException`);
- in-place mutation of a reply object by a parser (`StatusFields.Parsed`).

Every call into code outside the integration becomes a parameter:

- The socket exchange becomes a `Classifier.Transport`: a decoded
  response, or the exception the transport raised.
- The module constants whose values live in `const.py` become the records
  `ExtrasParser.Names`, `StatusExtras.Names`, `StatusFields.Tags` and
  `EntityBase.OptionKeys`. These constants are the `TYPE_*` tags, the
  lookup tables, the `API_*`/`ATTR_*` names and the `OPT_*` keys.

Modules, one per source file or concern:

| module | file |
|---|---|
| `Maybe`, `Text` | `text.dfy`: Python string operations |
| `Values` | `values.dfy`: reply values, exceptions, `int()`/`float()` |
| `Clock` | `clock.dfy`: `_seconds_to_hhmmss` |
| `Classifier` | `classifier.dfy`: `_find_response_of_type` / `parse_response_stream` |
| `StatusFields` | `fields.dfy`: what both parsers share |
| `ExtrasParser` | `extras_parser.dfy`: `_parse_extras` |
| `StatusExtras` | `status_extras.dfy`: `_parse_status_extras` |
| `Revisions` | `revisions.dfy`: the two parsers compared |
| `HostPort` | `host_port.dfy`: address splitting and the constructors |
| `Fascade`, `MonoXAdapter`, `MonoXApi` | `adapters.dfy` |
| `DataBridge` | `data_bridge.dfy` |
| `AccessObject` | `access_object.dfy` |
| `ConfigKeys`, `Updater`, `ConfigFlow` | `sysinfo_mapping.dfy` |
| `EntityBase`, `SignificantChange` | `entity.dfy` |

## Model

| member | source | states |
|---|---|---|
| Text.ParseInt | custom_components/anycubic_wifi/adapter_fascade.py:171 | `int()` of text succeeds exactly when the text, stripped of white space and one sign, is a non-empty run of decimal digits |
| Text.ParseSigned | custom_components/anycubic_wifi/adapter_fascade.py:171 | a leading `-` gives the negated value of the digits that follow, a leading `+` the value itself |
| Text.ParsePadded | custom_components/anycubic_wifi/adapter_fascade.py:171 | white space before and after the literal changes neither whether `int()` succeeds nor its value |
| Text.JoinSplit | custom_components/anycubic_wifi/adapter_fascade.py:159 | joining the pieces of `str.split(sep)` with `sep` gives back the original text |
| Text.SplitPartsFree | custom_components/anycubic_wifi/adapter_fascade.py:159 | no piece of a split contains the separator |
| Text.RemoveAll | custom_components/anycubic_wifi/adapter_fascade.py:166-168 | `str.replace(pat, "")` never lengthens the text |
| Text.RemoveAllAbsent | custom_components/anycubic_wifi/adapter_fascade.py:166-168 | text without the pattern is left unchanged by the replacement |
| Text.RemoveCharGone | custom_components/anycubic_wifi/data_access_object.py:128 | after removing a one-character pattern, that character no longer occurs |
| Text.RemoveAllKeepsPrefix | custom_components/anycubic_wifi/data_access_object.py:128 | a leading part free of the pattern's first character survives the replacement unchanged, and only the rest is rewritten |
| Values.TruncDiv60 | custom_components/anycubic_wifi/data_access_object.py:121 | `int(v / 60)` truncates toward zero, for negative values too |
| Values.ToInt | custom_components/anycubic_wifi/adapter_fascade.py:171 | `int()` keeps integers, truncates a float toward zero, parses decimal text, and raises only `ValueError` |
| Values.ToFloat | custom_components/anycubic_wifi/adapter_fascade.py:163 | `float()` accepts every number and exactly the texts that are decimal float literals; otherwise it raises `ValueError` |
| Values.IntTextIsFloatText | custom_components/anycubic_wifi/adapter_fascade.py:163 | every text `int()` accepts, `float()` accepts too |
| Clock.Hhmmss | custom_components/anycubic_wifi/adapter_fascade.py:208-214 | the rendering is always eight characters long |
| Clock.HhmmssFields | custom_components/anycubic_wifi/adapter_fascade.py:208-214 | the rendering is three two-digit fields separated by colons, each within its clock range (hours below 24, minutes and seconds below 60), and the fields read back as the seconds modulo one day |
| Clock.HhmmssWraps | custom_components/anycubic_wifi/adapter_fascade.py:212-213 | whole days are dropped: adding any number of days renders the same text |
| Clock.HhmmssExample | custom_components/anycubic_wifi/adapter_fascade.py:208-214 | 3661 seconds render as `01:01:01`, one day as `00:00:00` |
| Clock.SecondsToHhmmss | custom_components/anycubic_wifi/data_access_object.py:107-110 | raises `ValueError` exactly when `int()` of the value does; otherwise returns the time of day of the converted value |
| Classifier.FirstOfKind | custom_components/anycubic_wifi/adapter_fascade.py:123-125 | a found index lies inside the list and holds an item of the wanted class |
| Classifier.FirstOfKindIsFirst | custom_components/anycubic_wifi/adapter_fascade.py:123-126 | no item before the found index has the wanted class, and nothing is found only when no item has it |
| Classifier.Select | custom_components/anycubic_wifi/adapter_fascade.py:121-126 | a lone reply of the wanted class is returned as is; a lone reply of another class raises `TypeError`; a list yields its first match, or none exactly when it has no match |
| Classifier.FirstMatchWins | custom_components/anycubic_wifi/mono_x_api_adapter_fascade.py:66-71 | an unrelated reply ahead of the wanted one is skipped, and a later match never wins |
| Classifier.ScanPrefixDecides | custom_components/anycubic_wifi/adapter_fascade.py:123-125 | appending replies keeps an earlier match; a list without a match defers to the appended part |
| StatusFields.RemainingLayers | custom_components/anycubic_wifi/adapter_fascade.py:186-192 | the result is `total - current` when both counts are present and numeric, `None` when either is absent, and `ValueError` otherwise |
| ExtrasParser.Convert | custom_components/anycubic_wifi/adapter_fascade.py:157-177 | per kind tag, first match winning: a file name splits into exactly two pieces or raises `ValueError`; a float is `float(raw)`; a volume is the text with the volume tag and then the tilde deleted; an integer is `int(raw)`; a time is the clock rendering of `int(raw)`; any other tag keeps the raw value; text never raises `AttributeError`, and a non-text value does for the file and volume kinds |
| ExtrasParser.RowCell | custom_components/anycubic_wifi/adapter_fascade.py:153-183 | an absent attribute gives `None`; a value that converts is stored as converted; a `ValueError` during conversion falls back to the raw value; only `AttributeError` escapes a row |
| ExtrasParser.Rows | custom_components/anycubic_wifi/adapter_fascade.py:151-183 | every row's key is written; the only other key added is the internal-file key |
| ExtrasParser.RowsAt | custom_components/anycubic_wifi/adapter_fascade.py:151-183 | with distinct keys, each row's key holds that row's own cell, whatever the other rows did |
| ExtrasParser.RowsUntouched | custom_components/anycubic_wifi/adapter_fascade.py:151-183 | keys no row writes are left as they were |
| ExtrasParser.NoSplitNoInternalFile | custom_components/anycubic_wifi/adapter_fascade.py:158-161 | without a successful file split, the internal-file key is never added |
| ExtrasParser.Parse | custom_components/anycubic_wifi/adapter_fascade.py:140-205 | a reply without a status gives `{}` and is left alone; the minutes conversion rewrites the reply; the dictionary holds the table keys and the computed keys, plus at most the internal-file key |
| ExtrasParser.ParseTouchesOnlyElapsed | custom_components/anycubic_wifi/adapter_fascade.py:144-147 | the parse never adds or drops a reply attribute, and rewrites only the elapsed time |
| ExtrasParser.TotalTime | custom_components/anycubic_wifi/adapter_fascade.py:195-203 | with both times present and numeric, the clock rendering of elapsed plus remaining; `None` when either is absent; an error exactly when a present time is not numeric |
| ExtrasParser.ComputedFields | custom_components/anycubic_wifi/adapter_fascade.py:185-203 | after a successful parse, the computed keys hold `RemainingLayers` and `TotalTime` of the record as rewritten by the minutes conversion |
| ExtrasParser.ComputedFieldRaises | custom_components/anycubic_wifi/adapter_fascade.py:186-189 | a non-numeric layer count makes the whole parse raise, since the computed fields are outside the `try` |
| ExtrasParser.PerRow | custom_components/anycubic_wifi/adapter_fascade.py:151-183 | each row's key holds `None` when the attribute is absent, the raw value after a `ValueError`, and otherwise the converted value |
| ExtrasParser.FileRow | custom_components/anycubic_wifi/adapter_fascade.py:158-161 | a name that splits into exactly two pieces yields pieces that rebuild it around one separator and contain none; any other count stores the raw text |
| ExtrasParser.NoInternalFileWithoutSplit | custom_components/anycubic_wifi/adapter_fascade.py:158-161 | if no row split a file name, the internal-file key is absent from the result |
| ExtrasParser.VolumeRow | custom_components/anycubic_wifi/adapter_fascade.py:164-169 | a volume stays text, with the volume marker and then the tilde deleted; no tilde remains |
| ExtrasParser.MarkerCanReappear | custom_components/anycubic_wifi/adapter_fascade.py:166-168 | deleting the tilde after the marker can form a new marker: `m~L` becomes `mL` |
| ExtrasParser.SecondParseDividesAgain | custom_components/anycubic_wifi/adapter_fascade.py:144-147 | parsing the same reply object twice divides the elapsed time by 60 twice |
| ExtrasParser.ParseTwiceWithoutConversion | custom_components/anycubic_wifi/adapter_fascade.py:140-205 | with conversion off, a second parse returns the same reply and dictionary |
| StatusExtras.Coerce | custom_components/anycubic_wifi/data_access_object.py:127-139 | per handling tag, first match winning: a volume is `int()` of the text with the volume tag and the tilde deleted; an integer is `int(raw)`; a float is `float(raw)`; a time is the clock rendering of `int(raw)`; any other tag keeps the raw value; text never raises `AttributeError` |
| StatusExtras.RowValue | custom_components/anycubic_wifi/data_access_object.py:123-141 | an absent attribute gives `None`; a present one gives its coerced value |
| StatusExtras.Rows | custom_components/anycubic_wifi/data_access_object.py:123-141 | exactly the table's keys are added, and the loop raises exactly when some row's coercion raises |
| StatusExtras.RowsAt | custom_components/anycubic_wifi/data_access_object.py:123-141 | with distinct keys, each row's key holds that row's value |
| StatusExtras.RowsKeep | custom_components/anycubic_wifi/data_access_object.py:123-141 | a key that no row names keeps its value |
| StatusExtras.Parse | custom_components/anycubic_wifi/data_access_object.py:113-156 | a missing status raises `AttributeError`; a falsy status gives `None`; the remaining time is rewritten; the keys are exactly the table's keys plus the computed ones |
| StatusExtras.TotalTime | custom_components/anycubic_wifi/data_access_object.py:149-154 | with both times present and numeric, the clock rendering of elapsed minus remaining; `None` when either is absent; an error exactly when a present time is not numeric |
| StatusExtras.ComputedFields | custom_components/anycubic_wifi/data_access_object.py:143-154 | after a successful parse, the computed keys hold `RemainingLayers` and `TotalTime` of the record as rewritten by the unit conversion |
| StatusExtras.VolumeRow | custom_components/anycubic_wifi/data_access_object.py:127-129 | a volume value written as digits, a tilde and the volume tag becomes the integer those digits denote |
| StatusExtras.StripMarkers | custom_components/anycubic_wifi/data_access_object.py:128 | deleting the volume tag and then the tilde from digits, tilde and tag leaves exactly the digits |
| StatusExtras.PerRow | custom_components/anycubic_wifi/data_access_object.py:123-141 | each row's key holds `None` for an absent attribute and otherwise the successful coercion |
| StatusExtras.RowErrorAborts | custom_components/anycubic_wifi/data_access_object.py:127-133 | one failing row makes the whole parse raise |
| Revisions.TotalTimeDiffers | custom_components/anycubic_wifi/adapter_fascade.py:195-200 | on the same reply, the later parser reports `00:03:00` and the earlier one `23:59:00` |
| HostPort.PiecesFree | custom_components/anycubic_wifi/adapter_fascade.py:228-231 | neither the host nor the port segment contains a colon; without a colon, the host is the whole input |
| HostPort.Layout | custom_components/anycubic_wifi/adapter_fascade.py:228-230 | an address with a colon is host, colon, port segment and a dropped rest that is empty or starts at a second colon |
| HostPort.SplitIpAndPort | custom_components/anycubic_wifi/mono_x_api_adapter_fascade.py:74-86 | returns the host and `int()` of the embedded segment, or of the port argument when there is no colon; raises only `ValueError` |
| HostPort.GetSplit | custom_components/anycubic_wifi/api.py:43-53 | returns the embedded port segment as raw text; only the fallback port is converted |
| HostPort.AdapterEndpoint | custom_components/anycubic_wifi/adapter_fascade.py:45-50 | the embedded or converted port is used unless it is 0, in which case the unconverted argument is kept |
| HostPort.ApiEndpoint | custom_components/anycubic_wifi/api.py:20-24 | a non-numeric embedded port raises `ValueError`; the host is the text before the first colon |
| HostPort.ApiAgreesWithSplitter | custom_components/anycubic_wifi/api.py:50-53 | the thin client's split and conversion equal the adapters' splitter on every input |
| HostPort.ZeroPortFallsBack | custom_components/anycubic_wifi/adapter_fascade.py:46-47 | `printer:0` connects the adapter to the given port, but the thin client to port 0 |
| Fascade.GetCurrentStatus | custom_components/anycubic_wifi/adapter_fascade.py:52-86 | the socket is always closed; transport errors pass through; after delivery only `TypeError`, `ValueError` or `AttributeError` is raised; `(False, False)` exactly when no status reply is found; with extras opted out, the reply attributes and `{}`; otherwise the record and dictionary `_parse_extras` produced, and its error when it raises |
| Fascade.ReplyKeepsAttributes | custom_components/anycubic_wifi/adapter_fascade.py:72-79 | the returned status has the reply's attributes with only the elapsed time rewritten; its extras cover the table and the computed keys |
| Fascade.SysInfo | custom_components/anycubic_wifi/adapter_fascade.py:92-99 | the socket is always closed; `OSError` and `RuntimeError` become `AnycubicException`; the result is the first system-information reply or none |
| Fascade.SysInfoHidesConnectionErrors | custom_components/anycubic_wifi/adapter_fascade.py:96-97 | no `OSError` or `RuntimeError` escapes the system-information request |
| MonoXAdapter.GetStatus | custom_components/anycubic_wifi/mono_x_api_adapter_fascade.py:31-42 | the socket is always closed; only `OSError`s become `AnycubicException`; the result is the first status reply's attributes or none |
| MonoXAdapter.SysInfo | custom_components/anycubic_wifi/mono_x_api_adapter_fascade.py:44-55 | the socket is always closed; `OSError`s and `RuntimeError`s become `AnycubicException` |
| MonoXAdapter.SysInfoAgrees | custom_components/anycubic_wifi/mono_x_api_adapter_fascade.py:44-55 | both adapters answer a system-information request identically |
| MonoXAdapter.StatusLetsRuntimeErrorThrough | custom_components/anycubic_wifi/mono_x_api_adapter_fascade.py:39-40 | a `RuntimeError` escapes the status request but not the system-information request; every other failure is handled alike |
| MonoXApi.Request | custom_components/anycubic_wifi/api.py:26-39 | the socket is left open; a delivered response is returned unclassified; an `OSError` becomes `AnycubicMonoXAPILevel`; anything else passes through |
| MonoXApi.ConnectionErrorsAreAnycubic | custom_components/anycubic_wifi/api.py:30-31 | the translated connection error is caught by a handler for `AnycubicException` |
| DataBridge.Init | custom_components/anycubic_wifi/data_bridge.py:68-71 | starts offline with counter 0 and no extras; extras are off exactly when `no_extras` is `True` |
| DataBridge.SetUseExtras | custom_components/anycubic_wifi/data_bridge.py:124-126 | sets the flag and changes nothing else |
| DataBridge.Step | custom_components/anycubic_wifi/data_bridge.py:73-99 | a status resets the counter and merges or clears the extras; a failure adds one to the counter, keeps data and extras, and raises `UpdateFailed` exactly past the limit; other errors change nothing |
| DataBridge.OfflineDebounce | custom_components/anycubic_wifi/data_bridge.py:105-114 | adds one to the counter; returns the previous data, or raises `UpdateFailed` once the counter exceeds 3 |
| DataBridge.Poll | custom_components/anycubic_wifi/data_bridge.py:80-82 | the corrected call: transport errors pass through; `NoStatus` exactly when no status reply is found; no escaping error is one the update catches; with extras off no extras; with extras on the reply is what `_parse_extras` gives with the bridge's seconds flag as `convert_seconds` |
| DataBridge.Update | custom_components/anycubic_wifi/data_bridge.py:73-99 | a plain `OSError` escapes unchanged; a caught connection error counts as a failure; a new status resets the counter |
| DataBridge.PollAsWritten | custom_components/anycubic_wifi/data_bridge.py:80-82 | the call as written raises an error the update does not catch |
| DataBridge.AsWrittenNeverUpdates | custom_components/anycubic_wifi/data_bridge.py:80-82 | as written, even a good status reply leaves the bridge unchanged with `TypeError`; the corrected update succeeds |
| DataBridge.Run | custom_components/anycubic_wifi/data_bridge.py:73-99 | consecutive updates never change the extras flag or the unit flag |
| DataBridge.FailuresAccumulate | custom_components/anycubic_wifi/data_bridge.py:105-114 | `k` consecutive failures add `k` to the counter and change nothing else |
| DataBridge.DebounceWindow | custom_components/anycubic_wifi/data_bridge.py:105-114 | after a status, the first three failures return the last data, and the fourth and every later one raise `UpdateFailed` |
| DataBridge.StatusResets | custom_components/anycubic_wifi/data_bridge.py:83-84 | a status after any run of polls resets the counter to 0 and is returned |
| DataBridge.ExtrasOnlyGrow | custom_components/anycubic_wifi/data_bridge.py:85-86 | with extras on, a stored extras key is never dropped |
| AccessObject.NeedsSysinfo | custom_components/anycubic_wifi/data_access_object.py:59 | fetches when nothing is cached or the cached model is falsy; raises when the cached reply has no model |
| AccessObject.RefreshSysinfo | custom_components/anycubic_wifi/data_access_object.py:59-65 | a cached truthy model skips the fetch; a fetch error, or a cached reply without a model, passes its error on; no reply, or one without a model, raises `AnycubicException`; a text model is cached and seconds are used exactly when it contains "6K"; any other model is cached and then raises `TypeError` |
| AccessObject.RefreshStatus | custom_components/anycubic_wifi/data_access_object.py:66-71 | no reply changes nothing and errors pass through; a reply is always stored as the reported status, with its parsed extras when they parse, and with the old extras and the parse error otherwise |
| AccessObject.PostCheck | custom_components/anycubic_wifi/data_access_object.py:78-82 | the result is settled (a status reply with a `status` attribute, or the offline marker with `{}`); a settled state is unchanged; anything else, including the marker itself, fails the `isinstance` test and becomes the offline marker with `{}` |
| AccessObject.Update | custom_components/anycubic_wifi/data_access_object.py:55-83 | a normal return leaves a settled state; an escaping error is never one of the caught classes; going offline empties the extras; a newly reported status is the parse of the status reply under the current unit policy; when the system-information half succeeds and the reply's extras parse, the reply and its extras are stored and nothing escapes |
| AccessObject.CachedSysinfoNotFetched | custom_components/anycubic_wifi/data_access_object.py:59 | once a model is cached, the system-information request has no influence |
| AccessObject.UpdateKeepsCacheValid | custom_components/anycubic_wifi/data_access_object.py:59-65 | a cached reply always has a model |
| AccessObject.SysinfoWithoutModelGoesOffline | custom_components/anycubic_wifi/data_access_object.py:61-65 | no system-information reply, or one without a model, sends the state offline without polling |
| AccessObject.UnitPolicy | custom_components/anycubic_wifi/data_access_object.py:59-65 | a fetched reply with a model is cached; with a text model, seconds are used exactly when it contains "6K"; any other model makes the update raise `TypeError` |
| AccessObject.CachedModelStoresStatus | custom_components/anycubic_wifi/data_access_object.py:59-71 | with a truthy model cached, a status reply whose extras parse is reported with those extras |
| AccessObject.FirstFetchStoresStatus | custom_components/anycubic_wifi/data_access_object.py:59-71 | in a first update, the text model is cached, its "6K" test sets the unit policy the status is parsed with, and the reply is reported with its extras |
| AccessObject.NoDebounce | custom_components/anycubic_wifi/data_access_object.py:72-77 | one connection failure sends the state offline immediately |
| AccessObject.InitialOfflineIsEmpty | custom_components/anycubic_wifi/data_access_object.py:30-31 | the initial state satisfies the offline invariant: the marker is never reported with extras other than `{}` |
| AccessObject.UpdateKeepsOfflineEmpty | custom_components/anycubic_wifi/data_access_object.py:55-83 | every update, returning or raising, keeps the offline invariant |
| AccessObject.StaleOfflineIsReset | custom_components/anycubic_wifi/data_access_object.py:66-82 | with the marker already reported and no status reply, the update resets the extras to `{}` and returns |
| Updater.MapSysinfoToData | custom_components/anycubic_wifi/monox_updater.py:27-32 | with a complete reply, the four keys are written from firmware, model and serial; a missing attribute raises `AttributeError` after the earlier writes; other keys are untouched |
| Updater.PartialWrites | custom_components/anycubic_wifi/monox_updater.py:29-32 | a reply without a model leaves only the firmware written |
| Updater.GetMonoxInfo | custom_components/anycubic_wifi/monox_updater.py:14-24 | a bad port raises before the request; a `ConnectionException` returns quietly; only a lone system-information reply writes the host and the mapping |
| Updater.ListIsIgnored | custom_components/anycubic_wifi/monox_updater.py:22-24 | a list of replies writes nothing, even when it holds a system-information reply |
| Updater.TranslatedErrorEscapes | custom_components/anycubic_wifi/monox_updater.py:17-20 | a connection `OSError`, translated by the client, escapes the updater |
| ConfigFlow.MapSysinfoToData | custom_components/anycubic_wifi/config_flow.py:104-115 | each key is present exactly when its attribute is, and then holds that value; nothing else is written |
| ConfigFlow.MappingsAgree | custom_components/anycubic_wifi/config_flow.py:104-115 | on a complete reply, the flow's mapping and the updater's write the same fields |
| ConfigFlow.ProcessDiscoveredDevice | custom_components/anycubic_wifi/config_flow.py:77-102 | a missing host raises `KeyError`; an entry is titled with the model and identified by the serial; caught adapter errors return to the user form |
| ConfigFlow.NoReplyNoEntry | custom_components/anycubic_wifi/config_flow.py:85-88 | no system-information reply gives `KeyError` on the serial |
| ConfigFlow.CompleteReplyCreatesEntry | custom_components/anycubic_wifi/config_flow.py:85-99 | a complete reply creates an entry holding the host and the four mapped fields |
| ConfigFlow.StepUser | custom_components/anycubic_wifi/config_flow.py:48-65 | no input shows the form; a `None` host returns nothing; otherwise the device is processed |
| EntityBase.NameEntity | custom_components/anycubic_wifi/base_entry_decorator.py:40-43 | the name is the model without "Photon ", a space and the generic name; the id is the entry id followed by the generic name; a missing model raises `KeyError`; a non-text model raises `AttributeError` |
| EntityBase.IdsDistinctWithinEntry | custom_components/anycubic_wifi/base_entry_decorator.py:43 | within one entry, ids are equal exactly when the generic names are |
| EntityBase.IdsCanCollideAcrossEntries | custom_components/anycubic_wifi/base_entry_decorator.py:43 | different entries can produce the same id |
| EntityBase.MonoXDisplayName | custom_components/anycubic_wifi/base_entry_decorator.py:37-42 | a "Photon Mono X…" model is displayed as "Mono X…" |
| EntityBase.Available | custom_components/anycubic_wifi/base_entry_decorator.py:71 | available exactly when the bridge holds a status with a `status` attribute |
| EntityBase.AvailabilityFollowsPolls | custom_components/anycubic_wifi/base_entry_decorator.py:71 | unavailable at start; a failure keeps availability; a status reply decides it |
| EntityBase.EntityPicture | custom_components/anycubic_wifi/base_entry_decorator.py:93-99 | the Mono X picture exactly when the option is set and the model starts with "Photon Mono X"; a missing option raises `KeyError` |
| EntityBase.ReportsExtras | custom_components/anycubic_wifi/base_entry_decorator.py:111-115 | extras are reported exactly when "no extra data" is off and "hide extra sensors" is on; the second option is read only when needed |
| EntityBase.ExtraStateAttributes | custom_components/anycubic_wifi/base_entry_decorator.py:109-120 | the result is the bridge's extras or `{}`, plus the host unless hidden; when extras are reported, the bridge's own dictionary receives the host |
| EntityBase.ShortCircuit | custom_components/anycubic_wifi/base_entry_decorator.py:111-114 | with "no extra data" on, a missing "hide extra sensors" option raises nothing |
| EntityBase.HostLeaksIntoBridge | custom_components/anycubic_wifi/base_entry_decorator.py:109-119 | the host shown by an entity stays in the bridge's extras through later polls |
| SignificantChange.Check | custom_components/anycubic_wifi/significant_change.py:17-19 | a change is significant exactly when the states differ |
| SignificantChange.Symmetric | custom_components/anycubic_wifi/significant_change.py:17-19 | the answer does not depend on the order of the states |
| SignificantChange.UnchangedIsInsignificant | custom_components/anycubic_wifi/significant_change.py:17-19 | an unchanged state is never significant |

## Left out

- Socket I/O, the `asyncio.wait_for` timeouts, logging and the event loop:
  a request is reduced to its `Classifier.Transport` result.
- Home Assistant plumbing is not part of this model:
  - `device_info`, coordinator registration and the `context` updates;
  - `async_set_unique_id`, including its abort;
  - `sensor.py`, `diagnostics.py`, `options.py`;
  - the setup in `__init__.py`.
- `_process_discovered_device` and `async_step_dhcp` in
  `config_flow.py`: they only prepare Home Assistant's abort and discovery
  schema, which is outside this model.
- Floating point: `float()` results are symbolic (`Values.FloatOf`), and
  the elapsed-time conversion is kept as the exact fraction
  (`Values.Sixtieths`). Literals with `_`, `inf`/`nan`, non-ASCII
  white space and non-ASCII decimal digits (which `int()` and `float()`
  accept) are not modelled: `Text.IsDigit` takes `0`-`9` only.
- Dictionary insertion order, and the sharing of the class-level
  `_reported_status_extras` dictionary between bridge instances.
- `time.gmtime` for values outside its platform range: the model always
  takes the time of day modulo 86400.
- The class of `ConnectionException` from the transport library is not
  visible. It is taken to be unrelated to `OSError`.
- A `None` port argument is not modelled.
- The `finally` clause is recorded as a boolean on `Classifier.Call`;
  the socket object itself is not modelled.
- A decoded status object is taken to be truthy (`if status:`), as it
  defines no `__bool__`.
- AccessObject.PostCheck: `OFFLINE_STATUS` is imported from `const.py`
  but not defined there, so the module as given cannot be imported; the
  marker is taken to be a value that is not a `MonoXStatus`, which the
  closing `isinstance` test therefore always resets to itself with `{}`.
- EntityBase.EntityPicture: `str()` of a model that is not text is not
  rendered; such a model never gets the picture.

## Findings

| source | as written | input that shows it | evidently intended | confidence | as-written member | corrected member |
|---|---|---|---|---|---|---|
| custom_components/anycubic_wifi/data_bridge.py:80-82 | the bridge calls `get_current_status(use_seconds=…, use_extras=…)`, but the adapter it is given accepts `(convert_seconds, no_extras)`, so every call raises `TypeError`; the `except` clause does not catch it | any poll, including one whose transport delivers a single status reply | call `get_current_status(convert_seconds=in_seconds, no_extras=not use_extras)`, so a status updates the bridge and failures are debounced | not executed | DataBridge.PollAsWritten, DataBridge.AsWrittenNeverUpdates | DataBridge.Poll, DataBridge.Update |
