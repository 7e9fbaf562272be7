/** The earlier coordinator of `data_access_object.py`: it fetches the
    system information until it has one with a model, decides from the
    model whether the printer reports seconds, then polls the status and
    parses its extras. It has no debounce: a caught failure immediately
    reports the offline marker with empty extras. */
module AccessObject {
  import opened Maybe
  import opened Values
  import opened Text
  import opened StatusFields
  import opened Classifier
  import MonoXAdapter
  import StatusExtras

  const Model := "model"

  /** The model text that marks a printer reporting seconds. */
  const SixK := "6K"

  /** The reported status: nothing yet (`None`), the `OFFLINE_STATUS`
      marker, or a status reply's attributes. The marker is not a
      `MonoXStatus`, so the closing `isinstance` test never accepts it. */
  datatype Reported = Unset | OfflineStatus | Status(rec: Record)

  /** The coordinator's state. `sysinfo` is `None` while it holds the
      initial empty dict; `extras` is `None` while it holds `None`. */
  datatype Dao = Dao(sysinfo: Option<Record>, inSeconds: bool, reported: Reported, extras: Option<Extras>)

  /** The class-level initial values. */
  const Initial := Dao(None, false, Unset, None)

  /** What one update left behind, and the error that escaped it, if any. */
  datatype Updated = Updated(dao: Dao, escaped: Option<Error>)

  /** The errors the update's `except` clause catches. */
  predicate Caught(e: Error) {
    IsAnycubic(e) || e == ConnectionException || e == ConnectionRefusedError
  }

  /** The fetch condition `not self.sysinfo or not getattr(self.sysinfo,
      "model")`: no cached reply, or one whose model is falsy. A cached
      reply without a model makes `getattr` raise. */
  function NeedsSysinfo(s: Dao): (r: Outcome<bool>)
    ensures s.sysinfo.None? ==> r == Ok(true)
    ensures s.sysinfo.Some? && Model in s.sysinfo.value ==> r == Ok(!Truthy(s.sysinfo.value[Model]))
    ensures r.Raised? <==> s.sysinfo.Some? && Model !in s.sysinfo.value
  {
    match s.sysinfo
    case None => Ok(true)
    case Some(info) => if Model in info then Ok(!Truthy(info[Model])) else Raised(AttributeError)
  }

  /** The system-information half of the `try` block: fetch when needed;
      a reply with a model is cached and sets the unit policy (a model that
      is not text makes `in` raise `TypeError` after caching); no reply, or
      one without a model, raises `AnycubicException`; a failed fetch or a
      cached reply without a model passes its error on. */
  function RefreshSysinfo(s: Dao, sysT: Transport): (r: (Dao, Outcome<()>))
    ensures NeedsSysinfo(s) == Ok(false) ==> r == (s, Ok(()))
    ensures r.0.reported == s.reported && r.0.extras == s.extras
    ensures r.1.Ok? && NeedsSysinfo(s) == Ok(true) ==>
      && MonoXAdapter.SysInfo(sysT).outcome.Ok?
      && MonoXAdapter.SysInfo(sysT).outcome.value.Some?
      && r.0.sysinfo == MonoXAdapter.SysInfo(sysT).outcome.value
      && Model in r.0.sysinfo.value && r.0.sysinfo.value[Model].Str?
      && (r.0.inSeconds <==> Contains(r.0.sysinfo.value[Model].s, SixK))
    ensures NeedsSysinfo(s) == Ok(true) && MonoXAdapter.SysInfo(sysT).outcome == Ok(None) ==>
      r == (s, Raised(AnycubicException))
    ensures NeedsSysinfo(s).Raised? ==> r == (s, NeedsSysinfo(s).PropagateFailure())
    ensures NeedsSysinfo(s) == Ok(true) && MonoXAdapter.SysInfo(sysT).outcome.Raised? ==>
      r == (s, MonoXAdapter.SysInfo(sysT).outcome.PropagateFailure())
    // a fetched reply: no model raises, a text model is cached with its unit
    // policy, and any other model is cached before `in` raises
    ensures NeedsSysinfo(s) == Ok(true) && MonoXAdapter.SysInfo(sysT).outcome.Ok?
            && MonoXAdapter.SysInfo(sysT).outcome.value.Some? ==>
      var info := MonoXAdapter.SysInfo(sysT).outcome.value.value;
      && (Model !in info ==> r == (s, Raised(AnycubicException)))
      && (Model in info && info[Model].Str? ==>
            r == (s.(sysinfo := Some(info), inSeconds := Contains(info[Model].s, SixK)), Ok(())))
      && (Model in info && !info[Model].Str? ==> r == (s.(sysinfo := Some(info)), Raised(TypeError)))
  {
    match NeedsSysinfo(s)
    case Raised(e) => (s, Raised(e))
    case Ok(false) => (s, Ok(()))
    case Ok(true) =>
      match MonoXAdapter.SysInfo(sysT).outcome
      case Raised(e) => (s, Raised(e))
      case Ok(None) => (s, Raised(AnycubicException))
      case Ok(Some(info)) =>
        if Model !in info then (s, Raised(AnycubicException))
        else
          var cached := s.(sysinfo := Some(info));
          match info[Model]
          case Str(m) => (cached.(inSeconds := Contains(m, SixK)), Ok(()))
          case _ => (cached, Raised(TypeError))
  }

  /** The status half of the `try` block: no reply changes nothing; a reply
      is stored before its extras are parsed, so a parse error leaves the
      (possibly rewritten) reply reported with the old extras. */
  function RefreshStatus(s: Dao, statusT: Transport, table: seq<StatusExtras.TranslationRow>, n: StatusExtras.Names): (r: (Dao, Outcome<()>))
    ensures r.0.sysinfo == s.sysinfo && r.0.inSeconds == s.inSeconds
    ensures MonoXAdapter.GetStatus(statusT).outcome == Ok(None) ==> r == (s, Ok(()))
    ensures MonoXAdapter.GetStatus(statusT).outcome.Raised? ==> r == (s, MonoXAdapter.GetStatus(statusT).outcome.PropagateFailure())
    ensures r.1.Ok? && r.0 != s ==>
      && MonoXAdapter.GetStatus(statusT).outcome.Ok?
      && MonoXAdapter.GetStatus(statusT).outcome.value.Some?
      && var p := StatusExtras.Parse(MonoXAdapter.GetStatus(statusT).outcome.value.value, s.inSeconds, table, n);
         p.extras.Ok? && r.0.reported == Status(p.record) && r.0.extras == p.extras.value
    // a reply is always stored; its extras only when they parse
    ensures MonoXAdapter.GetStatus(statusT).outcome.Ok? && MonoXAdapter.GetStatus(statusT).outcome.value.Some? ==>
      var p := StatusExtras.Parse(MonoXAdapter.GetStatus(statusT).outcome.value.value, s.inSeconds, table, n);
      && r.0.reported == Status(p.record)
      && (p.extras.Ok? ==> r == (s.(reported := Status(p.record), extras := p.extras.value), Ok(())))
      && (p.extras.Raised? ==> r == (s.(reported := Status(p.record)), p.extras.PropagateFailure()))
  {
    match MonoXAdapter.GetStatus(statusT).outcome
    case Raised(e) => (s, Raised(e))
    case Ok(None) => (s, Ok(()))
    case Ok(Some(stat)) =>
      var p := StatusExtras.Parse(stat, s.inSeconds, table, n);
      var stored := s.(reported := Status(p.record));
      match p.extras
      case Raised(e) => (stored, Raised(e))
      case Ok(extras) => (stored.(extras := extras), Ok(()))
  }

  /** The closing check: anything but a status reply with a `status`
      attribute (nothing yet, or the marker itself, which fails the
      `isinstance` test) becomes the offline marker with empty extras. */
  function PostCheck(s: Dao): (r: Dao)
    ensures r.sysinfo == s.sysinfo && r.inSeconds == s.inSeconds
    ensures Settled(r)
    ensures Settled(s) ==> r == s
    ensures !Settled(s) ==> r == s.(reported := OfflineStatus, extras := Some(map[]))
  {
    if !(s.reported.Status? && StatusExtras.Status in s.reported.rec) then
      s.(reported := OfflineStatus, extras := Some(map[]))
    else
      s
  }

  /** What every update that returns normally leaves behind: a status reply
      with a `status` attribute, or the offline marker with empty extras. */
  predicate Settled(s: Dao) {
    (s.reported.OfflineStatus? && s.extras == Some(map[]))
    || (s.reported.Status? && StatusExtras.Status in s.reported.rec)
  }

  /** The offline marker is only ever reported with empty extras. */
  predicate OfflineIsEmpty(s: Dao) {
    s.reported.OfflineStatus? ==> s.extras == Some(map[])
  }

  /** `_async_update_data`, given the two transports' outcomes. */
  function Update(s: Dao, sysT: Transport, statusT: Transport,
                  table: seq<StatusExtras.TranslationRow>, n: StatusExtras.Names): (u: Updated)
    ensures u.escaped.None? ==> Settled(u.dao)
    ensures u.escaped.Some? ==> !Caught(u.escaped.value)
    ensures u.dao.reported == OfflineStatus && u.dao.reported != s.reported ==> u.dao.extras == Some(map[])
    // a newly reported status is the parse of the status reply, under the
    // unit policy the system-information half left behind
    ensures u.dao.reported.Status? && u.dao.reported != s.reported ==>
      && MonoXAdapter.GetStatus(statusT).outcome.Ok? && MonoXAdapter.GetStatus(statusT).outcome.value.Some?
      && u.dao.reported == Status(StatusExtras.Parse(MonoXAdapter.GetStatus(statusT).outcome.value.value,
                                                     RefreshSysinfo(s, sysT).0.inSeconds, table, n).record)
    // the success path: a reply whose extras parse is stored with them
    ensures RefreshSysinfo(s, sysT).1.Ok?
            && MonoXAdapter.GetStatus(statusT).outcome.Ok? && MonoXAdapter.GetStatus(statusT).outcome.value.Some?
            && StatusExtras.Parse(MonoXAdapter.GetStatus(statusT).outcome.value.value,
                                  RefreshSysinfo(s, sysT).0.inSeconds, table, n).extras.Ok? ==>
      var p := StatusExtras.Parse(MonoXAdapter.GetStatus(statusT).outcome.value.value,
                                  RefreshSysinfo(s, sysT).0.inSeconds, table, n);
      u == Updated(RefreshSysinfo(s, sysT).0.(reported := Status(p.record), extras := p.extras.value), None)
  {
    var (afterInfo, infoOutcome) := RefreshSysinfo(s, sysT);
    var (afterTry, tryOutcome) :=
      if infoOutcome.Raised? then (afterInfo, infoOutcome)
      else RefreshStatus(afterInfo, statusT, table, n);
    match tryOutcome
    case Raised(e) =>
      if Caught(e) then
        Updated(PostCheck(afterTry.(reported := OfflineStatus, extras := Some(map[]))), None)
      else
        Updated(afterTry, Some(e))
    case Ok(_) => Updated(PostCheck(afterTry), None)
  }

  /** Once a system-information reply with a truthy model is cached, it is
      never fetched again: the outcome of the system-information request
      has no influence on the update. */
  lemma CachedSysinfoNotFetched(s: Dao, sysA: Transport, sysB: Transport, statusT: Transport,
                                table: seq<StatusExtras.TranslationRow>, n: StatusExtras.Names)
    requires s.sysinfo.Some? && Model in s.sysinfo.value && Truthy(s.sysinfo.value[Model])
    ensures Update(s, sysA, statusT, table, n) == Update(s, sysB, statusT, table, n)
    ensures Update(s, sysA, statusT, table, n).dao.sysinfo == s.sysinfo
  {
  }

  /** Every normally returning update keeps or reaches the cached state
      in which the model is present (the `getattr` cannot fail afterwards). */
  predicate CacheValid(s: Dao) {
    s.sysinfo.Some? ==> Model in s.sysinfo.value
  }

  lemma UpdateKeepsCacheValid(s: Dao, sysT: Transport, statusT: Transport,
                              table: seq<StatusExtras.TranslationRow>, n: StatusExtras.Names)
    requires CacheValid(s)
    ensures CacheValid(Update(s, sysT, statusT, table, n).dao)
  {
  }

  /** The offline invariant holds from the start and survives every update,
      whether it returns or raises. */
  lemma InitialOfflineIsEmpty()
    ensures OfflineIsEmpty(Initial)
  {
  }

  lemma UpdateKeepsOfflineEmpty(s: Dao, sysT: Transport, statusT: Transport,
                                table: seq<StatusExtras.TranslationRow>, n: StatusExtras.Names)
    requires OfflineIsEmpty(s)
    ensures OfflineIsEmpty(Update(s, sysT, statusT, table, n).dao)
  {
  }

  /** An update that returns normally while the marker is already reported
      and no status reply comes back still empties the extras. */
  lemma StaleOfflineIsReset(s: Dao, sysT: Transport, statusT: Transport,
                            table: seq<StatusExtras.TranslationRow>, n: StatusExtras.Names)
    requires s.reported.OfflineStatus?
    requires s.sysinfo.Some? && Model in s.sysinfo.value && Truthy(s.sysinfo.value[Model])
    requires MonoXAdapter.GetStatus(statusT).outcome == Ok(None)
    ensures Update(s, sysT, statusT, table, n) == Updated(s.(extras := Some(map[])), None)
  {
  }

  /** A system-information reply without a model (or no reply at all)
      ends the update with the offline marker and empty extras, without
      polling the status. */
  lemma SysinfoWithoutModelGoesOffline(s: Dao, sysT: Transport, statusT: Transport,
                                       table: seq<StatusExtras.TranslationRow>, n: StatusExtras.Names)
    requires s.sysinfo.None?
    requires MonoXAdapter.SysInfo(sysT).outcome.Ok?
    requires MonoXAdapter.SysInfo(sysT).outcome.value.None? || Model !in MonoXAdapter.SysInfo(sysT).outcome.value.value
    ensures Update(s, sysT, statusT, table, n) == Updated(s.(reported := OfflineStatus, extras := Some(map[])), None)
  {
  }

  /** The unit policy: a fetched reply with a model is cached, and the
      printer is then taken to report seconds exactly when its text model
      contains "6K"; a model that is not text makes the update raise
      `TypeError`. */
  lemma UnitPolicy(s: Dao, sysT: Transport, statusT: Transport,
                   table: seq<StatusExtras.TranslationRow>, n: StatusExtras.Names)
    requires NeedsSysinfo(s) == Ok(true)
    requires MonoXAdapter.SysInfo(sysT).outcome.Ok? && MonoXAdapter.SysInfo(sysT).outcome.value.Some?
    requires Model in MonoXAdapter.SysInfo(sysT).outcome.value.value
    ensures var info := MonoXAdapter.SysInfo(sysT).outcome.value.value;
      var u := Update(s, sysT, statusT, table, n);
      && u.dao.sysinfo == Some(info)
      && (info[Model].Str? ==> (u.dao.inSeconds <==> Contains(info[Model].s, SixK)))
      && (!info[Model].Str? ==> u.escaped == Some(TypeError))
  {
  }

  /** A status reply whose extras parse, with a truthy model already
      cached, is reported together with its extras. */
  lemma CachedModelStoresStatus(s: Dao, sysT: Transport, statusT: Transport,
                                table: seq<StatusExtras.TranslationRow>, n: StatusExtras.Names)
    requires s.sysinfo.Some? && Model in s.sysinfo.value && Truthy(s.sysinfo.value[Model])
    requires MonoXAdapter.GetStatus(statusT).outcome.Ok? && MonoXAdapter.GetStatus(statusT).outcome.value.Some?
    requires StatusExtras.Parse(MonoXAdapter.GetStatus(statusT).outcome.value.value, s.inSeconds, table, n).extras.Ok?
    ensures var p := StatusExtras.Parse(MonoXAdapter.GetStatus(statusT).outcome.value.value, s.inSeconds, table, n);
      Update(s, sysT, statusT, table, n) == Updated(s.(reported := Status(p.record), extras := p.extras.value), None)
  {
  }

  /** The first fetch and a status poll in one update: the text model is
      cached, its unit policy decides how the status is parsed, and the
      reply is reported with its extras. */
  lemma FirstFetchStoresStatus(s: Dao, sysT: Transport, statusT: Transport,
                               table: seq<StatusExtras.TranslationRow>, n: StatusExtras.Names)
    requires s.sysinfo.None?
    requires MonoXAdapter.SysInfo(sysT).outcome.Ok? && MonoXAdapter.SysInfo(sysT).outcome.value.Some?
    requires var info := MonoXAdapter.SysInfo(sysT).outcome.value.value; Model in info && info[Model].Str?
    requires MonoXAdapter.GetStatus(statusT).outcome.Ok? && MonoXAdapter.GetStatus(statusT).outcome.value.Some?
    ensures var info := MonoXAdapter.SysInfo(sysT).outcome.value.value;
      var sixK := Contains(info[Model].s, SixK);
      var p := StatusExtras.Parse(MonoXAdapter.GetStatus(statusT).outcome.value.value, sixK, table, n);
      p.extras.Ok? ==>
        Update(s, sysT, statusT, table, n)
          == Updated(s.(sysinfo := Some(info), inSeconds := sixK, reported := Status(p.record), extras := p.extras.value), None)
  {
  }

  /** With no debounce, a single caught transport failure takes the
      reported status offline, however good the previous status was. */
  lemma NoDebounce(s: Dao, statusT: Transport, sysT: Transport,
                   table: seq<StatusExtras.TranslationRow>, n: StatusExtras.Names)
    requires s.sysinfo.Some? && Model in s.sysinfo.value && Truthy(s.sysinfo.value[Model])
    requires statusT.Failed? && IsOSError(statusT.error)
    ensures Update(s, sysT, statusT, table, n) == Updated(s.(reported := OfflineStatus, extras := Some(map[])), None)
  {
  }
}
