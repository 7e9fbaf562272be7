/** The adapter of `adapter_fascade.py`: one status request (classified,
    then parsed into extras unless the caller opts out) and one system
    information request, each closing its socket whatever happens. */
module Fascade {
  import opened Maybe
  import opened Values
  import opened StatusFields
  import opened Classifier
  import ExtrasParser

  /** A status reply: the status attributes (as the extras parser left
      them) with the extras, or `(False, False)` when no status came back. */
  datatype StatusReply = Reply(status: Record, extras: Extras) | NoStatus

  /** `get_current_status(convert_seconds, no_extras)`. Nothing is caught:
      transport errors, the classifier's `TypeError` and the parser's
      errors all reach the caller. */
  function GetCurrentStatus(t: Transport, convert: bool, noExtras: bool,
                            table: seq<ExtrasParser.LookupRow>, n: ExtrasParser.Names): (c: Call<StatusReply>)
    ensures c.socketClosed
    ensures t.Failed? ==> c.outcome == Raised(t.error)
    ensures t.Delivered? && c.outcome.Raised? ==>
      c.outcome.error in {TypeError, ValueError, AttributeError}
    ensures c.outcome == Ok(NoStatus) <==> t.Delivered? && Select(t.resp, StatusKind) == Ok(None)
    ensures c.outcome.Ok? && c.outcome.value.Reply? ==>
      t.Delivered? && Select(t.resp, StatusKind).Ok? && Select(t.resp, StatusKind).value.Some?
    ensures noExtras && c.outcome.Ok? && c.outcome.value.Reply? ==>
      c.outcome.value == Reply(Select(t.resp, StatusKind).value.value.attrs, map[])
    // with extras on, the reply is the parser's rewritten record and dictionary
    ensures !noExtras && c.outcome.Ok? && c.outcome.value.Reply? ==>
      var p := ExtrasParser.Parse(Select(t.resp, StatusKind).value.value.attrs, convert, table, n);
      p.extras.Ok? && c.outcome.value == Reply(p.record, p.extras.value)
    // and a parse that raises makes the call raise the same error
    ensures !noExtras && t.Delivered? && Select(t.resp, StatusKind).Ok? && Select(t.resp, StatusKind).value.Some?
            && ExtrasParser.Parse(Select(t.resp, StatusKind).value.value.attrs, convert, table, n).extras.Raised? ==>
      c.outcome == ExtrasParser.Parse(Select(t.resp, StatusKind).value.value.attrs, convert, table, n).extras.PropagateFailure()
  {
    var outcome :=
      match t
      case Failed(e) => Raised(e)
      case Delivered(resp) =>
        match Select(resp, StatusKind)
        case Raised(e) => Raised(e)
        case Ok(None) => Ok(NoStatus)
        case Ok(Some(item)) =>
          if noExtras then Ok(Reply(item.attrs, map[]))
          else
            var p := ExtrasParser.Parse(item.attrs, convert, table, n);
            match p.extras
            case Raised(e) => Raised(e)
            case Ok(ex) => Ok(Reply(p.record, ex));
    Call(outcome, true)
  }

  /** A status reply hands back the printer's own attributes: the same
      keys, the same values except the one the minutes conversion rewrites,
      and extras keyed by the lookup table and the computed fields. */
  lemma ReplyKeepsAttributes(t: Transport, convert: bool, noExtras: bool,
                             table: seq<ExtrasParser.LookupRow>, n: ExtrasParser.Names)
    requires GetCurrentStatus(t, convert, noExtras, table, n).outcome.Ok?
    requires GetCurrentStatus(t, convert, noExtras, table, n).outcome.value.Reply?
    ensures var item := Select(t.resp, StatusKind).value.value;
      var reply := GetCurrentStatus(t, convert, noExtras, table, n).outcome.value;
      && reply.status.Keys == item.attrs.Keys
      && (forall k :: k in item.attrs && k != n.apiSecondsElapse ==> reply.status[k] == item.attrs[k])
      && (!convert || noExtras ==> reply.status == item.attrs)
      && (!noExtras && n.apiStatus in item.attrs ==>
            ExtrasParser.HassKeys(table) + {n.remainingLayers, n.totalTime} <= reply.extras.Keys)
      && (!noExtras && n.apiStatus !in item.attrs ==> reply.extras == map[])
  {
    var item := Select(t.resp, StatusKind).value.value;
    if !noExtras {
      ExtrasParser.ParseTouchesOnlyElapsed(item.attrs, convert, table, n);
    }
  }

  /** `sysinfo()`: the first system-information reply, or `None`.
      Transport `OSError`s and `RuntimeError`s become `AnycubicException`;
      the classifier's `TypeError` is not caught. */
  function SysInfo(t: Transport): (c: Call<Option<Record>>)
    ensures c.socketClosed
    ensures t.Failed? ==>
      c.outcome == Raised(if IsOSError(t.error) || t.error == RuntimeError then AnycubicException else t.error)
    ensures t.Delivered? ==> (c.outcome.Raised? <==> Select(t.resp, SysInfoKind).Raised?)
    ensures t.Delivered? && c.outcome.Ok? ==>
      (c.outcome.value.Some? <==> Select(t.resp, SysInfoKind).value.Some?)
    ensures c.outcome.Ok? && c.outcome.value.Some? ==>
      t.Delivered? && c.outcome.value.value == Select(t.resp, SysInfoKind).value.value.attrs
  {
    var outcome :=
      match t
      case Failed(e) => Raised(if IsOSError(e) || e == RuntimeError then AnycubicException else e)
      case Delivered(resp) =>
        match Select(resp, SysInfoKind)
        case Raised(e) => Raised(e)
        case Ok(None) => Ok(None)
        case Ok(Some(item)) => Ok(Some(item.attrs));
    Call(outcome, true)
  }

  /** No connection-level error leaves the system-information request
      untranslated. */
  lemma SysInfoHidesConnectionErrors(t: Transport)
    ensures SysInfo(t).outcome.Raised? ==>
      !IsOSError(SysInfo(t).outcome.error) && SysInfo(t).outcome.error != RuntimeError
  {
  }
}

/** The adapter of `mono_x_api_adapter_fascade.py`: the same two requests
    without extras; its status request translates only `OSError`s. */
module MonoXAdapter {
  import opened Maybe
  import opened Values
  import opened Classifier
  import Fascade

  /** `getstatus()`: the first status reply's attributes, or `None`.
      Transport `OSError`s become `AnycubicException`; a `RuntimeError`
      and the classifier's `TypeError` are not caught. */
  function GetStatus(t: Transport): (c: Call<Option<Record>>)
    ensures c.socketClosed
    ensures t.Failed? ==>
      c.outcome == Raised(if IsOSError(t.error) then AnycubicException else t.error)
    ensures t.Delivered? ==> (c.outcome.Raised? <==> Select(t.resp, StatusKind).Raised?)
    ensures t.Delivered? && c.outcome.Ok? ==>
      (c.outcome.value.Some? <==> Select(t.resp, StatusKind).value.Some?)
    ensures c.outcome.Ok? && c.outcome.value.Some? ==>
      t.Delivered? && c.outcome.value.value == Select(t.resp, StatusKind).value.value.attrs
  {
    var outcome :=
      match t
      case Failed(e) => Raised(if IsOSError(e) then AnycubicException else e)
      case Delivered(resp) =>
        match Select(resp, StatusKind)
        case Raised(e) => Raised(e)
        case Ok(None) => Ok(None)
        case Ok(Some(item)) => Ok(Some(item.attrs));
    Call(outcome, true)
  }

  /** `sysinfo()`: as the other adapter's, `OSError`s and `RuntimeError`s
      become `AnycubicException`; what a delivered reply gives is stated by
      `SysInfoAgrees`. */
  function SysInfo(t: Transport): (c: Call<Option<Record>>)
    ensures c.socketClosed
    ensures t.Failed? ==>
      c.outcome == Raised(if IsOSError(t.error) || t.error == RuntimeError then AnycubicException else t.error)
  {
    var outcome :=
      match t
      case Failed(e) => Raised(if IsOSError(e) || e == RuntimeError then AnycubicException else e)
      case Delivered(resp) =>
        match Select(resp, SysInfoKind)
        case Raised(e) => Raised(e)
        case Ok(None) => Ok(None)
        case Ok(Some(item)) => Ok(Some(item.attrs));
    Call(outcome, true)
  }

  /** Both adapters answer a system-information request identically. */
  lemma SysInfoAgrees(t: Transport)
    ensures SysInfo(t) == Fascade.SysInfo(t)
  {
  }

  /** The status request differs from the system-information request only
      in the class it looks for and in letting a `RuntimeError` through. */
  lemma StatusLetsRuntimeErrorThrough(t: Transport)
    ensures GetStatus(Failed(RuntimeError)).outcome == Raised(RuntimeError)
    ensures SysInfo(Failed(RuntimeError)).outcome == Raised(AnycubicException)
    ensures t.Failed? && t.error != RuntimeError ==> GetStatus(t) == SysInfo(t)
  {
  }
}

/** The thin client of `api.py`: requests return the raw response, an
    `OSError` becomes the API-level Anycubic error, and the socket is left
    open. */
module MonoXApi {
  import opened Values
  import opened Classifier

  /** `getstatus()` and `sysinfo()`, which differ only in the command text. */
  function Request(t: Transport): (c: Call<Response>)
    ensures !c.socketClosed
    ensures t.Delivered? ==> c.outcome == Ok(t.resp)
    ensures t.Failed? && IsOSError(t.error) ==> c.outcome == Raised(AnycubicMonoXAPILevel)
    ensures t.Failed? && !IsOSError(t.error) ==> c.outcome == Raised(t.error)
  {
    match t
    case Delivered(resp) => Call(Ok(resp), false)
    case Failed(e) => Call(Raised(if IsOSError(e) then AnycubicMonoXAPILevel else e), false)
  }

  /** What the API raises for a connection error is still an Anycubic error,
      so a handler for the base class catches it. */
  lemma ConnectionErrorsAreAnycubic(t: Transport)
    requires t.Failed? && IsOSError(t.error)
    ensures Request(t).outcome.Raised? && IsAnycubic(Request(t).outcome.error)
  {
  }
}
