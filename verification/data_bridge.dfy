/** The polling coordinator of `data_bridge.py`: each poll asks the adapter
    for a status; a status comes back as the new data and resets the
    debounce counter, while a missing status or a connection-class error
    counts as a failure, returns the previous data and, from the fourth
    consecutive failure on, raises `UpdateFailed`. */
module DataBridge {
  import opened Maybe
  import opened Values
  import opened Classifier
  import opened Fascade
  import ExtrasParser

  /** More consecutive failures than this raise `UpdateFailed`. */
  const DebounceLimit := 3

  /** The option key that switches the extras off. */
  const NoExtrasOption := "no_extras"

  /** The coordinator's data: the initial `{"status": "offline"}` dict, or
      the last status reply's attributes. */
  datatype Data = OfflineDict | StatusObject(status: Record)

  /** The coordinator's state. `inSeconds` is never changed by this class
      and stays at its initial `False`. */
  datatype Bridge = Bridge(data: Data, counter: nat, extras: Extras, useExtras: bool, inSeconds: bool)

  /** What one update produced: the new state and the update's outcome. */
  datatype Stepped = Stepped(bridge: Bridge, result: Outcome<Data>)

  /** The errors the update's `except` clause catches. */
  predicate Caught(e: Error) {
    IsAnycubic(e) || e == ConnectionException || e == ConnectionRefusedError
  }

  /** A poll that counts as a failure: no status came back, or a caught
      error was raised. */
  predicate Failure(poll: Outcome<StatusReply>) {
    poll == Ok(NoStatus) || (poll.Raised? && Caught(poll.error))
  }

  /** The constructor: offline data, counter 0, no extras, and extras
      enabled unless the `no_extras` option is exactly `True` (`hasattr` on
      the options mapping never finds a key). */
  function Init(options: map<string, Setting>): (b: Bridge)
    ensures b.data == OfflineDict && b.counter == 0 && b.extras == map[] && !b.inSeconds
    ensures !b.useExtras <==> NoExtrasOption in options && options[NoExtrasOption] == Flag(true)
  {
    Bridge(OfflineDict, 0, map[], !(NoExtrasOption in options && options[NoExtrasOption] == Flag(true)), false)
  }

  /** `set_use_extras`: overwrites the flag and nothing else. */
  function SetUseExtras(b: Bridge, useExtras: bool): (r: Bridge)
    ensures r.useExtras == useExtras
    ensures r.data == b.data && r.counter == b.counter && r.extras == b.extras && r.inSeconds == b.inSeconds
  {
    b.(useExtras := useExtras)
  }

  /** `_async_update_data`, given what the adapter call produced. */
  function Step(b: Bridge, poll: Outcome<StatusReply>): (s: Stepped)
    ensures s.bridge.useExtras == b.useExtras && s.bridge.inSeconds == b.inSeconds
    // a status: counter reset, status returned and stored, extras merged or cleared
    ensures poll.Ok? && poll.value.Reply? ==>
      && s.result == Ok(StatusObject(poll.value.status))
      && s.bridge.data == StatusObject(poll.value.status)
      && s.bridge.counter == 0
      && (b.useExtras ==>
            && s.bridge.extras.Keys == b.extras.Keys + poll.value.extras.Keys
            && (forall k :: k in poll.value.extras ==> s.bridge.extras[k] == poll.value.extras[k])
            && (forall k :: k in b.extras && k !in poll.value.extras ==> s.bridge.extras[k] == b.extras[k]))
      && (!b.useExtras ==> s.bridge.extras == map[])
    // a failure: one more on the counter, stale data until the limit is passed
    ensures Failure(poll) ==>
      && s.bridge.counter == b.counter + 1
      && s.bridge.data == b.data && s.bridge.extras == b.extras
      && (s.result.Raised? <==> s.bridge.counter > DebounceLimit)
      && (s.result.Raised? ==> s.result.error == UpdateFailed)
      && (s.result.Ok? ==> s.result.value == b.data)
    // anything else escapes and changes nothing
    ensures poll.Raised? && !Caught(poll.error) ==> s == Stepped(b, poll.PropagateFailure())
  {
    match poll
    case Ok(Reply(status, ex)) =>
      var extras := if b.useExtras then b.extras + ex else map[];
      Stepped(b.(data := StatusObject(status), counter := 0, extras := extras), Ok(StatusObject(status)))
    case Ok(NoStatus) => OfflineDebounce(b)
    case Raised(e) => if Caught(e) then OfflineDebounce(b) else Stepped(b, Raised(e))
  }

  /** `_offline_debounce`. */
  function OfflineDebounce(b: Bridge): (s: Stepped)
    ensures s.bridge == b.(counter := b.counter + 1)
    ensures s.result == if b.counter + 1 > DebounceLimit then Raised(UpdateFailed) else Ok(b.data)
  {
    var counted := b.(counter := b.counter + 1);
    if counted.counter > DebounceLimit then Stepped(counted, Raised(UpdateFailed))
    else Stepped(counted, Ok(b.data))
  }

  /** The adapter call as it was evidently meant: the status request of the
      adapter the bridge is given, with the bridge's seconds flag as
      `convert_seconds` (so the minutes conversion runs exactly when that
      flag is set) and `no_extras` the negation of the extras flag. */
  function Poll(b: Bridge, t: Transport, table: seq<ExtrasParser.LookupRow>, n: ExtrasParser.Names): (r: Outcome<StatusReply>)
    ensures t.Failed? ==> r == Raised(t.error)
    ensures r == Ok(NoStatus) <==> t.Delivered? && Select(t.resp, StatusKind) == Ok(None)
    ensures r.Raised? && t.Delivered? ==> !Caught(r.error)
    ensures !b.useExtras && r.Ok? && r.value.Reply? ==> r.value.extras == map[]
    ensures b.useExtras && r.Ok? && r.value.Reply? ==>
      && t.Delivered? && Select(t.resp, StatusKind).Ok? && Select(t.resp, StatusKind).value.Some?
      && var p := ExtrasParser.Parse(Select(t.resp, StatusKind).value.value.attrs, b.inSeconds, table, n);
      p.extras.Ok? && r.value == Reply(p.record, p.extras.value)
  {
    GetCurrentStatus(t, b.inSeconds, !b.useExtras, table, n).outcome
  }

  /** One update of the coordinator with the corrected adapter call. */
  function Update(b: Bridge, t: Transport, table: seq<ExtrasParser.LookupRow>, n: ExtrasParser.Names): (s: Stepped)
    ensures t.Failed? && IsOSError(t.error) && t.error != ConnectionRefusedError ==> s == Stepped(b, Raised(t.error))
    ensures t.Failed? && Caught(t.error) ==> s.bridge.counter == b.counter + 1 && s.bridge.data == b.data
    ensures s.result.Ok? && s.result.value != b.data ==> s.bridge.counter == 0
  {
    Step(b, Poll(b, t, table, n))
  }

  /** The adapter call as written: keyword arguments `use_seconds` and
      `use_extras`, which the adapter's `get_current_status(convert_seconds,
      no_extras)` does not accept, so Python raises `TypeError` before any
      request is sent. */
  function PollAsWritten(b: Bridge, t: Transport): (r: Outcome<StatusReply>)
    ensures r.Raised? && !Caught(r.error)
  {
    Raised(TypeError)
  }

  /** As written, no update ever succeeds or counts a failure: every poll
      escapes with the same error and the state never moves, even when the
      printer answers with a status. */
  lemma AsWrittenNeverUpdates(b: Bridge, t: Transport, table: seq<ExtrasParser.LookupRow>, n: ExtrasParser.Names)
    requires t.Delivered? && t.resp == One(Item(StatusKind, map[]))
    ensures Step(b, PollAsWritten(b, t)) == Stepped(b, Raised(TypeError))
    ensures Update(b, t, table, n).result.Ok? && Update(b, t, table, n).bridge.counter == 0
  {
    var empty: Record := map[];
    assert Select(t.resp, StatusKind) == Ok(Some(Item(StatusKind, empty)));
    assert n.apiStatus !in empty;
  }

  /** Consecutive updates with the polls given in order. */
  function Run(b: Bridge, polls: seq<Outcome<StatusReply>>): (r: Bridge)
    ensures r.useExtras == b.useExtras && r.inSeconds == b.inSeconds
    decreases |polls|
  {
    if |polls| == 0 then b else Run(Step(b, polls[0]).bridge, polls[1..])
  }

  /** A run of failures adds one per poll to the counter and leaves data and
      extras alone. */
  lemma {:induction false} FailuresAccumulate(b: Bridge, polls: seq<Outcome<StatusReply>>)
    requires forall i :: 0 <= i < |polls| ==> Failure(polls[i])
    ensures Run(b, polls) == b.(counter := b.counter + |polls|)
    decreases |polls|
  {
    if |polls| > 0 {
      var next := Step(b, polls[0]).bridge;
      assert next == b.(counter := b.counter + 1);
      FailuresAccumulate(next, polls[1..]);
    }
  }

  /** The debounce window: after a status, the next three failures return
      the last status, and the fourth and every later one raises
      `UpdateFailed`, until a status comes back. */
  lemma {:induction false} DebounceWindow(b: Bridge, polls: seq<Outcome<StatusReply>>, failure: Outcome<StatusReply>)
    requires b.counter == 0
    requires forall i :: 0 <= i < |polls| ==> Failure(polls[i])
    requires Failure(failure)
    ensures |polls| < DebounceLimit ==> Step(Run(b, polls), failure).result == Ok(b.data)
    ensures |polls| >= DebounceLimit ==> Step(Run(b, polls), failure).result == Raised(UpdateFailed)
  {
    FailuresAccumulate(b, polls);
  }

  /** A status after any run of failures restores a counter of 0. */
  lemma StatusResets(b: Bridge, polls: seq<Outcome<StatusReply>>, status: Record, ex: Extras)
    ensures Step(Run(b, polls), Ok(Reply(status, ex))).bridge.counter == 0
    ensures Step(Run(b, polls), Ok(Reply(status, ex))).result == Ok(StatusObject(status))
  {
  }

  /** With extras on, a key once stored is never dropped: later statuses
      only add or overwrite keys, and failures touch nothing. */
  lemma {:induction false} ExtrasOnlyGrow(b: Bridge, polls: seq<Outcome<StatusReply>>)
    requires b.useExtras
    ensures b.extras.Keys <= Run(b, polls).extras.Keys
    decreases |polls|
  {
    if |polls| > 0 {
      var next := Step(b, polls[0]).bridge;
      assert b.extras.Keys <= next.extras.Keys;
      ExtrasOnlyGrow(next, polls[1..]);
    }
  }
}
