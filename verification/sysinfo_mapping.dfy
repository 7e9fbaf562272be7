/** The configuration keys a system-information reply is copied into, and
    the reply attributes they come from. */
module ConfigKeys {
  const Host := "host"
  const Name := "name"
  const ConfModel := "model"
  const ConfSerial := "serial_number"
  const SwVersion := "sw_version"

  const Firmware := "firmware"
  const Model := "model"
  const Serial := "serial"

  /** The four keys a mapping may write. */
  const Mapped: set<string> := {SwVersion, ConfModel, Name, ConfSerial}

  /** The factory port the adapters use when none is embedded. */
  const UartWifiPort := 6000
}

/** `monox_updater.py`: fetch the system information through the thin
    client and copy it into a caller's dictionary. */
module Updater {
  import opened Values
  import opened Classifier
  import opened ConfigKeys
  import HostPort
  import MonoXApi

  /** The caller's dictionary after the writes made so far, and whether the
      call returned or raised. */
  datatype Written = Written(record: Record, outcome: Outcome<()>)

  /** `map_sysinfo_to_data(sysinfo, data)`: four unconditional writes in
      order; reading an attribute the reply lacks raises `AttributeError`
      with the earlier writes already made. */
  function MapSysinfoToData(info: Record, data: Record): (r: Written)
    ensures r.outcome.Ok? <==> Firmware in info && Model in info && Serial in info
    ensures r.outcome.Raised? ==> r.outcome.error == AttributeError
    ensures r.record.Keys <= data.Keys + Mapped
    ensures forall k :: k in data && k !in Mapped ==> k in r.record && r.record[k] == data[k]
    ensures r.outcome.Ok? ==>
      && r.record.Keys == data.Keys + Mapped
      && r.record[SwVersion] == info[Firmware]
      && r.record[ConfModel] == info[Model] && r.record[Name] == info[Model]
      && r.record[ConfSerial] == info[Serial]
    ensures Firmware !in info ==> r.record == data
  {
    if Firmware !in info then Written(data, Raised(AttributeError))
    else
      var d1 := data[SwVersion := info[Firmware]];
      if Model !in info then Written(d1, Raised(AttributeError))
      else
        var d2 := d1[ConfModel := info[Model]][Name := info[Model]];
        if Serial !in info then Written(d2, Raised(AttributeError))
        else Written(d2[ConfSerial := info[Serial]], Ok(()))
  }

  /** A partial reply leaves partial writes behind: exactly the keys whose
      attributes were read before the missing one. */
  lemma PartialWrites(info: Record, data: Record)
    requires Firmware in info && Model !in info
    ensures MapSysinfoToData(info, data) == Written(data[SwVersion := info[Firmware]], Raised(AttributeError))
  {
  }

  /** `get_monox_info(host, data, port)`: the client is built outside the
      `try`, so a bad port raises; a `ConnectionException` from the request
      returns quietly; only a lone system-information reply writes the host
      and the mapped fields. */
  function GetMonoxInfo(host: string, data: Record, port: Attr, t: Transport): (r: Written)
    ensures HostPort.ApiEndpoint(host, port).Raised? ==> r == Written(data, Raised(ValueError))
    ensures HostPort.ApiEndpoint(host, port).Ok? && t.Failed? && t.error == ConnectionException ==>
      r == Written(data, Ok(()))
    ensures !(t.Delivered? && t.resp.One? && t.resp.item.kind == SysInfoKind) ==> r.record == data
    ensures HostPort.ApiEndpoint(host, port).Ok? && t.Delivered? && t.resp.One? && t.resp.item.kind == SysInfoKind ==>
      r == MapSysinfoToData(t.resp.item.attrs, data[Host := Str(host)])
  {
    match HostPort.ApiEndpoint(host, port)
    case Raised(e) => Written(data, Raised(e))
    case Ok(_) =>
      match MonoXApi.Request(t).outcome
      case Raised(e) => if e == ConnectionException then Written(data, Ok(())) else Written(data, Raised(e))
      case Ok(resp) =>
        if resp.One? && resp.item.kind == SysInfoKind then
          MapSysinfoToData(resp.item.attrs, data[Host := Str(host)])
        else
          Written(data, Ok(()))
  }

  /** A list of replies is not a system-information reply, even when one of
      its elements is: the updater does no classification. */
  lemma ListIsIgnored(host: string, data: Record, port: Attr, items: seq<Item>)
    requires exists i :: 0 <= i < |items| && items[i].kind == SysInfoKind
    ensures GetMonoxInfo(host, data, port, Delivered(Many(items))).record == data
    ensures Select(Many(items), SysInfoKind).value.Some?
  {
  }

  /** A connection failure translated by the client is not the
      `ConnectionException` the updater catches, so it escapes. */
  lemma TranslatedErrorEscapes(host: string, data: Record, port: Attr, e: Error)
    requires IsOSError(e) && HostPort.ApiEndpoint(host, port).Ok?
    ensures GetMonoxInfo(host, data, port, Failed(e)) == Written(data, Raised(AnycubicMonoXAPILevel))
  {
  }
}

/** `config_flow.py`: the conditional mapping and the discovery step. */
module ConfigFlow {
  import opened Maybe
  import opened Values
  import opened Classifier
  import opened ConfigKeys
  import HostPort
  import MonoXAdapter
  import Updater

  /** `map_sysinfo_to_data(sysinfo)`: a fresh dictionary holding each field
      whose attribute the reply has (`hasattr(None, …)` is false). */
  function MapSysinfoToData(info: Option<Record>): (d: Record)
    ensures SwVersion in d <==> info.Some? && Firmware in info.value
    ensures ConfModel in d <==> info.Some? && Model in info.value
    ensures Name in d <==> ConfModel in d
    ensures ConfSerial in d <==> info.Some? && Serial in info.value
    ensures d.Keys <= Mapped
    ensures SwVersion in d ==> d[SwVersion] == info.value[Firmware]
    ensures ConfModel in d ==> d[ConfModel] == d[Name] == info.value[Model]
    ensures ConfSerial in d ==> d[ConfSerial] == info.value[Serial]
  {
    match info
    case None => map[]
    case Some(r) =>
      var d0: Record := map[];
      var d1 := if Firmware in r then d0[SwVersion := r[Firmware]] else d0;
      var d2 := if Model in r then d1[ConfModel := r[Model]][Name := r[Model]] else d1;
      if Serial in r then d2[ConfSerial := r[Serial]] else d2
  }

  /** On a complete reply both mappings write the same four fields. */
  lemma MappingsAgree(info: Record, data: Record)
    requires Firmware in info && Model in info && Serial in info
    ensures Updater.MapSysinfoToData(info, data).record == data + MapSysinfoToData(Some(info))
  {
  }

  /** What a flow step shows next. */
  datatype FlowResult =
    | Entry(title: Attr, data: Record, uniqueId: Attr)  // a created config entry
    | UserForm                                          // the user step's form
    | NoResult                                          // the step returns `None`

  /** A flow step's outcome and the flow's `data` dictionary afterwards. */
  datatype Flow = Flow(result: Outcome<FlowResult>, data: Record)

  /** `process_discovered_device(discovered)`, with the flow's `data` so far.
      The adapter is built on the default port; its `ValueError` and the
      `KeyError`s of a reply without serial or model are not caught; a
      caught error returns to the user step. */
  function ProcessDiscoveredDevice(discovered: map<string, Option<string>>, data: Record, t: Transport): (f: Flow)
    ensures Host !in discovered ==> f == Flow(Raised(KeyError), data)
    ensures Host in discovered && discovered[Host].None? ==> f == Flow(Ok(NoResult), data)
    ensures f.result.Ok? && f.result.value.Entry? ==>
      && Host in discovered && discovered[Host].Some?
      && MonoXAdapter.SysInfo(t).outcome.Ok?
      && f.data == data[Host := Str(discovered[Host].value)] + MapSysinfoToData(MonoXAdapter.SysInfo(t).outcome.value)
      && f.result.value.data == f.data
      && ConfSerial in f.data && ConfModel in f.data
      && f.result.value.uniqueId == f.data[ConfSerial]
      && f.result.value.title == f.data[ConfModel]
    ensures f.result == Ok(UserForm) <==>
      Host in discovered && discovered[Host].Some?
      && HostPort.AdapterEndpoint(discovered[Host].value, Whole(UartWifiPort)).Ok?
      && MonoXAdapter.SysInfo(t).outcome.Raised?
      && (IsAnycubic(MonoXAdapter.SysInfo(t).outcome.error) || MonoXAdapter.SysInfo(t).outcome.error == ConnectionException)
    ensures f.result.Raised? && f.result.error != KeyError ==> f.data == data
  {
    if Host !in discovered then Flow(Raised(KeyError), data)
    else
      match discovered[Host]
      case None => Flow(Ok(NoResult), data)
      case Some(host) =>
        match HostPort.AdapterEndpoint(host, Whole(UartWifiPort))
        case Raised(e) => Flow(Raised(e), data)
        case Ok(_) =>
          match MonoXAdapter.SysInfo(t).outcome
          case Raised(e) =>
            if IsAnycubic(e) || e == ConnectionException then Flow(Ok(UserForm), data)
            else Flow(Raised(e), data)
          case Ok(info) =>
            var d := data[Host := Str(host)] + MapSysinfoToData(info);
            if ConfSerial !in d then Flow(Raised(KeyError), d)
            else if ConfModel !in d then Flow(Raised(KeyError), d)
            else Flow(Ok(Entry(d[ConfModel], d, d[ConfSerial])), d)
  }

  /** A printer that does not answer the system-information request leaves
      nothing to create an entry from: on a fresh flow the serial lookup
      raises `KeyError`. */
  lemma NoReplyNoEntry(host: string, t: Transport)
    requires HostPort.AdapterEndpoint(host, Whole(UartWifiPort)).Ok?
    requires MonoXAdapter.SysInfo(t).outcome == Ok(None)
    ensures ProcessDiscoveredDevice(map[Host := Some(host)], map[], t).result == Raised(KeyError)
  {
    var empty: Record := map[];
    var d := empty[Host := Str(host)] + MapSysinfoToData(None);
    assert ConfSerial !in d;
  }

  /** A complete reply creates an entry titled with the model, identified
      by the serial, holding the host and the four mapped fields. */
  lemma CompleteReplyCreatesEntry(host: string, t: Transport, info: Record)
    requires HostPort.AdapterEndpoint(host, Whole(UartWifiPort)).Ok?
    requires MonoXAdapter.SysInfo(t).outcome == Ok(Some(info))
    requires Firmware in info && Model in info && Serial in info
    ensures var f := ProcessDiscoveredDevice(map[Host := Some(host)], map[], t);
      && f.result.Ok? && f.result.value.Entry?
      && f.result.value.title == info[Model] && f.result.value.uniqueId == info[Serial]
      && f.data.Keys == {Host} + Mapped
      && f.data[Host] == Str(host)
  {
    var empty: Record := map[];
    var d := empty[Host := Str(host)] + MapSysinfoToData(Some(info));
    assert ConfSerial in d && ConfModel in d;
  }

  /** `async_step_user(user_input)`: no input shows the form; a missing host
      key raises; a `None` host records an error that is never shown and
      returns `None`; otherwise the device is processed. */
  function StepUser(userInput: Option<map<string, Option<string>>>, data: Record, t: Transport): (f: Flow)
    ensures userInput.None? ==> f == Flow(Ok(UserForm), data)
    ensures userInput.Some? && Host in userInput.value && userInput.value[Host].Some? ==>
      f == ProcessDiscoveredDevice(userInput.value, data, t)
    ensures userInput.Some? && Host !in userInput.value ==> f == Flow(Raised(KeyError), data)
    ensures userInput.Some? && Host in userInput.value && userInput.value[Host].None? ==> f == Flow(Ok(NoResult), data)
  {
    match userInput
    case None => Flow(Ok(UserForm), data)
    case Some(input) =>
      if Host !in input then Flow(Raised(KeyError), data)
      else if input[Host].None? then Flow(Ok(NoResult), data)
      else ProcessDiscoveredDevice(input, data, t)
  }
}
