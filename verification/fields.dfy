/** What both revisions of the status-extras parser share: the kind tags of
    the lookup table, the reply attributes the computed fields read, and
    the remaining-layers computation. The tags are taken as parameters:
    their values live outside this model. */
module StatusFields {
  import opened Values

  /** The `TYPE_*` tags a lookup-table row names its value kind with. */
  datatype Tags = Tags(file: string, float: string, ml: string, integer: string, time: string, text: string)

  /** Reply attributes read by name by the computed fields. */
  const CurrentLayer := "current_layer"
  const TotalLayers := "total_layers"
  const SecondsElapse := "seconds_elapse"
  const SecondsRemaining := "seconds_remaining"

  /** A parse that may rewrite its input record in place before it returns
      or raises: the record as the caller sees it afterwards, and the
      outcome. */
  datatype Parsed<T> = Parsed(record: Record, extras: Outcome<T>)

  /** The remaining-layers field: `int(total) - int(current)` when the reply
      has both layer counts (a non-numeric count raises `ValueError`, which
      no revision catches), `None` when either is missing. */
  function RemainingLayers(rec: Record): (r: Outcome<Value>)
    ensures (CurrentLayer !in rec || TotalLayers !in rec) ==> r == Ok(Missing)
    ensures CurrentLayer in rec && TotalLayers in rec ==>
      (r.Ok? <==> ToInt(rec[TotalLayers]).Ok? && ToInt(rec[CurrentLayer]).Ok?)
    ensures CurrentLayer in rec && TotalLayers in rec && r.Ok? ==>
      r.value == Plain(Whole(ToInt(rec[TotalLayers]).value - ToInt(rec[CurrentLayer]).value))
    ensures r.Raised? ==> r.error == ValueError
  {
    if CurrentLayer in rec && TotalLayers in rec then
      if ToInt(rec[TotalLayers]).Raised? then Raised(ToInt(rec[TotalLayers]).error)
      else if ToInt(rec[CurrentLayer]).Raised? then Raised(ToInt(rec[CurrentLayer]).error)
      else Ok(Plain(Whole(ToInt(rec[TotalLayers]).value - ToInt(rec[CurrentLayer]).value)))
    else
      Ok(Missing)
  }
}
