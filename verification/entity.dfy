/** The per-entity presentation rules of `base_entry_decorator.py`: the
    display name and unique id, availability, the entity picture and the
    extra state attributes. The option keys are taken as parameters: their
    values live outside this model. */
module EntityBase {
  import opened Values
  import opened Text
  import opened ConfigKeys
  import DataBridge
  import Fascade

  /** The `OPT_*` option keys. */
  datatype OptionKeys = OptionKeys(usePicture: string, noExtraData: string, hideExtraSensors: string, hideIp: string)

  /** The word dropped from model names to keep display names short. */
  const PhotonWord := "Photon "

  /** Models whose entities show the Mono X picture. */
  const MonoXPrefix := "Photon Mono X"

  /** The attribute whose presence makes an entity available. */
  const StatusAttr := "status"

  /** An entity's display name and unique id. */
  datatype Naming = Naming(name: string, uniqueId: string)

  /** The constructor's naming: the model with every "Photon " removed, a
      space and the generic sensor name; the id is the entry id followed
      directly by the generic name. A missing model raises `KeyError`, a
      model that is not text has no `replace` and raises `AttributeError`. */
  function NameEntity(data: Record, entryId: string, generic: string): (r: Outcome<Naming>)
    ensures ConfModel !in data ==> r == Raised(KeyError)
    ensures ConfModel in data && !data[ConfModel].Str? ==> r == Raised(AttributeError)
    ensures r.Ok? <==> ConfModel in data && data[ConfModel].Str?
    ensures r.Ok? ==> r.value.name == RemoveAll(data[ConfModel].s, PhotonWord) + " " + generic
    ensures r.Ok? ==>
      && |r.value.uniqueId| == |entryId| + |generic|
      && r.value.uniqueId[..|entryId|] == entryId && r.value.uniqueId[|entryId|..] == generic
  {
    if ConfModel !in data then Raised(KeyError)
    else
      match data[ConfModel]
      case Str(model) => Ok(Naming(RemoveAll(model, PhotonWord) + " " + generic, entryId + generic))
      case _ => Raised(AttributeError)
  }

  /** Sensors of one entry get distinct ids exactly when their generic
      names differ. */
  lemma IdsDistinctWithinEntry(data: Record, entryId: string, g1: string, g2: string)
    requires NameEntity(data, entryId, g1).Ok?
    ensures NameEntity(data, entryId, g1).value.uniqueId == NameEntity(data, entryId, g2).value.uniqueId <==> g1 == g2
  {
    var id1 := NameEntity(data, entryId, g1).value.uniqueId;
    var id2 := NameEntity(data, entryId, g2).value.uniqueId;
    if id1 == id2 {
      assert g1 == id1[|entryId|..] == id2[|entryId|..] == g2;
    }
  }

  /** Without a separator, ids of different entries can collide. */
  lemma IdsCanCollideAcrossEntries(data: Record)
    requires ConfModel in data && data[ConfModel].Str?
    ensures NameEntity(data, "a", "bc").value.uniqueId == NameEntity(data, "ab", "c").value.uniqueId
  {
  }

  /** A model named "Photon Mono X…" is displayed as "Mono X…". */
  lemma MonoXDisplayName(model: string)
    requires StartsWith(model, MonoXPrefix)
    ensures StartsWith(RemoveAll(model, PhotonWord), "Mono X")
  {
    var tail := model[13..];
    assert model == PhotonWord + ("Mono X" + tail);
    RemoveAllLeading("Mono X" + tail, PhotonWord);
    RemoveAllKeepsPrefix("Mono X", tail, PhotonWord);
    assert ("Mono X" + RemoveAll(tail, PhotonWord))[..6] == "Mono X";
  }

  /** `available`: `hasattr(bridge.data, "status")`. The initial offline
      data is a dictionary, which has no such attribute. */
  function Available(data: DataBridge.Data): (b: bool)
    ensures b ==> data.StatusObject?
    ensures data.StatusObject? ==> (b <==> StatusAttr in data.status)
  {
    data.StatusObject? && StatusAttr in data.status
  }

  /** A fresh bridge's entities are unavailable; a status with a `status`
      attribute makes them available, and a failed poll keeps whatever
      availability they had. */
  lemma AvailabilityFollowsPolls(options: map<string, Setting>, b: DataBridge.Bridge, poll: Outcome<Fascade.StatusReply>)
    ensures !Available(DataBridge.Init(options).data)
    ensures DataBridge.Failure(poll) ==> Available(DataBridge.Step(b, poll).bridge.data) == Available(b.data)
    ensures poll.Ok? && poll.value.Reply? ==>
      (Available(DataBridge.Step(b, poll).bridge.data) <==> StatusAttr in poll.value.status)
  {
  }

  /** What the picture property returns. */
  datatype Picture = MonoXImage | NoPicture

  /** `_attr_entity_picture`: the Mono X picture when the picture option is
      set and the model text starts with "Photon Mono X". A missing option
      raises `KeyError`. (`str()` of a number never starts with a letter.) */
  function EntityPicture(options: map<string, Setting>, keys: OptionKeys, data: Record): (r: Outcome<Picture>)
    ensures keys.usePicture !in options <==> r.Raised?
    ensures r.Raised? ==> r.error == KeyError
    ensures r == Ok(MonoXImage) <==>
      keys.usePicture in options && Enabled(options[keys.usePicture])
      && ConfModel in data && data[ConfModel].Str? && StartsWith(data[ConfModel].s, MonoXPrefix)
  {
    if keys.usePicture !in options then Raised(KeyError)
    else if Enabled(options[keys.usePicture]) && ConfModel in data && data[ConfModel].Str?
            && StartsWith(data[ConfModel].s, MonoXPrefix) then
      Ok(MonoXImage)
    else
      Ok(NoPicture)
  }

  /** Whether the bridge's extras are reported: the `or` of "no extra data"
      and "not hide extra sensors", negated. The second option is read only
      when the first is falsy. */
  function ReportsExtras(options: map<string, Setting>, keys: OptionKeys): (r: Outcome<bool>)
    ensures r.Ok? <==> keys.noExtraData in options
                       && (Enabled(options[keys.noExtraData]) || keys.hideExtraSensors in options)
    ensures r.Raised? ==> r.error == KeyError
    ensures r.Ok? ==> (r.value <==> !Enabled(options[keys.noExtraData]) && Enabled(options[keys.hideExtraSensors]))
  {
    if keys.noExtraData !in options then Raised(KeyError)
    else if Enabled(options[keys.noExtraData]) then Ok(false)
    else if keys.hideExtraSensors !in options then Raised(KeyError)
    else Ok(Enabled(options[keys.hideExtraSensors]))
  }

  /** The attributes shown, and the bridge's extras dictionary afterwards:
      the reported dictionary IS the bridge's when extras are reported, so
      the host written into it lands in the bridge as well. */
  datatype Shown = Shown(attributes: Extras, bridgeExtras: Extras)

  /** `extra_state_attributes`. */
  function ExtraStateAttributes(options: map<string, Setting>, keys: OptionKeys, data: Record, bridgeExtras: Extras): (r: Outcome<Shown>)
    ensures r.Raised? ==> r.error == KeyError
    ensures r.Ok? ==> ReportsExtras(options, keys).Ok? && keys.hideIp in options
    ensures r.Ok? && !ReportsExtras(options, keys).value ==>
      r.value.attributes.Keys <= {Host} && r.value.bridgeExtras == bridgeExtras
    ensures r.Ok? && ReportsExtras(options, keys).value ==>
      forall k :: k != Host ==>
        && (k in r.value.attributes <==> k in bridgeExtras)
        && (k in bridgeExtras ==> r.value.attributes[k] == bridgeExtras[k])
    ensures r.Ok? && !Enabled(options[keys.hideIp]) ==>
      Host in data && Host in r.value.attributes && r.value.attributes[Host] == Plain(data[Host])
    ensures r.Ok? && Enabled(options[keys.hideIp]) ==>
      r.value.bridgeExtras == bridgeExtras
      && (Host in r.value.attributes <==> ReportsExtras(options, keys).value && Host in bridgeExtras)
    ensures r.Ok? && ReportsExtras(options, keys).value ==> r.value.bridgeExtras == r.value.attributes
  {
    var reports :- ReportsExtras(options, keys);
    var extras := if reports then bridgeExtras else map[];
    if keys.hideIp !in options then Raised(KeyError)
    else if Enabled(options[keys.hideIp]) then Ok(Shown(extras, bridgeExtras))
    else if Host !in data then Raised(KeyError)
    else
      var withHost := extras[Host := Plain(data[Host])];
      Ok(Shown(withHost, if reports then withHost else bridgeExtras))
  }

  /** With "no extra data" set, the "hide extra sensors" option is never
      read, so its absence raises nothing. */
  lemma ShortCircuit(options: map<string, Setting>, keys: OptionKeys)
    requires keys.noExtraData in options && Enabled(options[keys.noExtraData])
    requires keys.hideExtraSensors !in options
    ensures ReportsExtras(options, keys) == Ok(false)
  {
  }

  /** Through the shared dictionary, the host an entity shows becomes one of
      the bridge's stored extras and survives later polls that do not
      overwrite it. */
  lemma HostLeaksIntoBridge(options: map<string, Setting>, keys: OptionKeys, data: Record,
                            b: DataBridge.Bridge, poll: Outcome<Fascade.StatusReply>)
    requires b.useExtras
    requires ExtraStateAttributes(options, keys, data, b.extras).Ok?
    requires ReportsExtras(options, keys).value && !Enabled(options[keys.hideIp])
    requires poll.Ok? && poll.value.Reply? && Host !in poll.value.extras
    ensures var shared := ExtraStateAttributes(options, keys, data, b.extras).value.bridgeExtras;
      var after := DataBridge.Step(b.(extras := shared), poll).bridge.extras;
      Host in after && after[Host] == Plain(data[Host])
  {
  }
}

/** `significant_change.py`. */
module SignificantChange {
  /** `async_check_significant_change`: a change is significant exactly
      when the state differs; the answer is always a boolean. */
  function Check(oldState: string, newState: string): (r: bool)
    ensures r <==> oldState != newState
  {
    if oldState != newState then true else false
  }

  /** The answer does not depend on which state came first. */
  lemma Symmetric(a: string, b: string)
    ensures Check(a, b) == Check(b, a)
  {
  }

  /** An unchanged state is never significant. */
  lemma UnchangedIsInsignificant(s: string)
    ensures !Check(s, s)
  {
  }
}
