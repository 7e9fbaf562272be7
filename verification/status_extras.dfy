/** `_parse_status_extras`, the earlier status-extras parser of the
    data-access bridge. It differs from `ExtrasParser.Parse`: rows are
    (attribute, key, handling) triples, no coercion error is caught, a
    volume becomes an integer, the unit flag rewrites `seconds_remaining`
    (not `seconds_elapse`), the total time is `elapsed - remaining`, and an
    empty status yields `None` instead of `{}`. */
module StatusExtras {
  import opened Maybe
  import opened Text
  import opened Values
  import opened Clock
  import opened StatusFields

  /** The status attribute, read with plain attribute access. */
  const Status := "status"

  /** The tilde this revision strips from volumes is a literal. */
  const Tilde := "~"

  /** The kind tags and the output keys of the two computed fields. */
  datatype Names = Names(tags: Tags, remainingLayers: string, totalTime: string)

  /** A translation-table row: source attribute, output key, handling tag. */
  datatype TranslationRow = TranslationRow(internal: string, hass: string, handling: string)

  /** The conversion a handling tag selects, checked in the order of the
      `if`/`elif` chain. Nothing here is caught. */
  function Coerce(raw: Attr, handling: string, tags: Tags): (r: Outcome<Value>)
    ensures r.Raised? ==> r.error == ValueError || r.error == AttributeError
    // text never meets a missing string method
    ensures raw.Str? ==> r != Raised(AttributeError)
    // a volume: `int()` of the text with the volume tag and the tilde deleted
    ensures handling == tags.ml && raw.Str? ==>
      var stripped := RemoveAll(RemoveAll(raw.s, tags.ml), Tilde);
      (r.Ok? <==> ParseInt(stripped).Some?) && (r.Ok? ==> r.value == Plain(Whole(ParseInt(stripped).value)))
    ensures handling == tags.ml && !raw.Str? ==> r == Raised(AttributeError)
    // an integer: `int(raw)`
    ensures handling != tags.ml && handling == tags.integer ==>
      (r.Ok? <==> ToInt(raw).Ok?) && (r.Ok? ==> r.value == Plain(Whole(ToInt(raw).value)))
    // a float: `float(raw)`
    ensures handling !in {tags.ml, tags.integer} && handling == tags.float ==> r == ToFloat(raw)
    // a time: the clock rendering of `int(raw)`
    ensures handling !in {tags.ml, tags.integer, tags.float} && handling == tags.time ==>
      (r.Ok? <==> ToInt(raw).Ok?) && (r.Ok? ==> r.value == Plain(Str(Hhmmss(ToInt(raw).value))))
    // a string, and any other tag: the raw value
    ensures handling !in {tags.ml, tags.integer, tags.float, tags.time} ==> r == Ok(Plain(raw))
  {
    if handling == tags.ml then
      match raw
      case Str(s) =>
        var i :- ToInt(Str(RemoveAll(RemoveAll(s, tags.ml), Tilde)));
        Ok(Plain(Whole(i)))
      case _ => Raised(AttributeError)
    else if handling == tags.integer then
      var i :- ToInt(raw);
      Ok(Plain(Whole(i)))
    else if handling == tags.float then
      ToFloat(raw)
    else if handling == tags.time then
      var t :- SecondsToHhmmss(raw);
      Ok(Plain(Str(t)))
    else
      Ok(Plain(raw))  // the string handling and every other tag
  }

  /** One row: `None` for an absent attribute, else the coerced value. */
  function RowValue(rec: Record, row: TranslationRow, tags: Tags): (r: Outcome<Value>)
    ensures r.Raised? ==> r.error == ValueError || r.error == AttributeError
    ensures row.internal !in rec ==> r == Ok(Missing)
    ensures row.internal in rec ==> r == Coerce(rec[row.internal], row.handling, tags)
  {
    if row.internal in rec then Coerce(rec[row.internal], row.handling, tags) else Ok(Missing)
  }

  function HassKeys(table: seq<TranslationRow>): set<string> {
    set k | 0 <= k < |table| :: table[k].hass
  }

  lemma HassKeysCons(table: seq<TranslationRow>)
    requires |table| > 0
    ensures HassKeys(table) == {table[0].hass} + HassKeys(table[1..])
  {
    forall key | key in HassKeys(table)
      ensures key in {table[0].hass} + HassKeys(table[1..])
    {
      var k :| 0 <= k < |table| && table[k].hass == key;
      if k > 0 {
        assert table[1..][k - 1] == table[k];
      }
    }
    forall key | key in HassKeys(table[1..])
      ensures key in HassKeys(table)
    {
      var k :| 0 <= k < |table[1..]| && table[1..][k].hass == key;
      assert table[k + 1] == table[1..][k];
    }
  }

  /** The table loop: exactly the table's keys are added; the first row
      whose coercion raises ends the parse. */
  function Rows(rec: Record, table: seq<TranslationRow>, tags: Tags, acc: Extras): (r: Outcome<Extras>)
    ensures r.Ok? ==> r.value.Keys == acc.Keys + HassKeys(table)
    ensures r.Raised? ==> r.error == ValueError || r.error == AttributeError
    ensures r.Raised? ==> exists k :: 0 <= k < |table| && RowValue(rec, table[k], tags).Raised?
    ensures (exists k :: 0 <= k < |table| && RowValue(rec, table[k], tags).Raised?) ==> r.Raised?
    decreases |table|
  {
    if |table| == 0 then
      Ok(acc)
    else
      HassKeysCons(table);
      var v := RowValue(rec, table[0], tags);
      if v.Raised? then
        Raised(v.error)
      else
        var r := Rows(rec, table[1..], tags, acc[table[0].hass := v.value]);
        assert forall k :: 0 <= k < |table[1..]| ==> table[1..][k] == table[k + 1];
        assert r.Raised? ==> exists k :: 0 <= k < |table| && RowValue(rec, table[k], tags).Raised? by {
          if r.Raised? {
            var k :| 0 <= k < |table[1..]| && RowValue(rec, table[1..][k], tags).Raised?;
            assert RowValue(rec, table[k + 1], tags).Raised?;
          }
        }
        assert (exists k :: 0 <= k < |table| && RowValue(rec, table[k], tags).Raised?) ==> r.Raised? by {
          if k :| 0 <= k < |table| && RowValue(rec, table[k], tags).Raised? {
            assert k > 0;
            assert RowValue(rec, table[1..][k - 1], tags).Raised?;
          }
        }
        r
  }

  /** Each row's key holds that row's own value when the keys are distinct. */
  lemma {:induction false} RowsAt(rec: Record, table: seq<TranslationRow>, tags: Tags, acc: Extras, i: nat)
    requires forall a, b :: 0 <= a < b < |table| ==> table[a].hass != table[b].hass
    requires i < |table| && Rows(rec, table, tags, acc).Ok?
    ensures RowValue(rec, table[i], tags).Ok?
    ensures Rows(rec, table, tags, acc).value[table[i].hass] == RowValue(rec, table[i], tags).value
    decreases |table|
  {
    var v := RowValue(rec, table[0], tags).value;
    var acc' := acc[table[0].hass := v];
    assert forall k :: 0 <= k < |table[1..]| ==> table[1..][k] == table[k + 1];
    if i == 0 {
      RowsKeep(rec, table[1..], tags, acc', table[0].hass);
    } else {
      RowsAt(rec, table[1..], tags, acc', i - 1);
    }
  }

  lemma {:induction false} RowsKeep(rec: Record, table: seq<TranslationRow>, tags: Tags, acc: Extras, key: string)
    requires forall k :: 0 <= k < |table| ==> table[k].hass != key
    requires key in acc && Rows(rec, table, tags, acc).Ok?
    ensures Rows(rec, table, tags, acc).value[key] == acc[key]
    decreases |table|
  {
    if |table| > 0 {
      var v := RowValue(rec, table[0], tags).value;
      assert forall k :: 0 <= k < |table[1..]| ==> table[1..][k] == table[k + 1];
      RowsKeep(rec, table[1..], tags, acc[table[0].hass := v], key);
    }
  }

  /** The unit conversion: with the flag set and `seconds_remaining`
      present, it is replaced by `int(int(v) / 60)`. */
  function ConvertRemaining(rec: Record, useSeconds: bool): Outcome<Record> {
    if SecondsRemaining in rec && useSeconds then
      var remain :- ToInt(rec[SecondsRemaining]);
      Ok(rec[SecondsRemaining := Whole(TruncDiv60(remain))])
    else
      Ok(rec)
  }

  /** The total-time field of this revision: `hhmmss(elapsed - remaining)`. */
  function TotalTime(rec: Record): (r: Outcome<Value>)
    ensures SecondsElapse !in rec || SecondsRemaining !in rec ==> r == Ok(Missing)
    ensures SecondsElapse in rec && SecondsRemaining in rec ==>
      (r.Ok? <==> ToInt(rec[SecondsElapse]).Ok? && ToInt(rec[SecondsRemaining]).Ok?)
    ensures SecondsElapse in rec && SecondsRemaining in rec
            && ToInt(rec[SecondsElapse]).Ok? && ToInt(rec[SecondsRemaining]).Ok? ==>
      r == Ok(Plain(Str(Hhmmss(ToInt(rec[SecondsElapse]).value - ToInt(rec[SecondsRemaining]).value))))
  {
    if SecondsElapse in rec && SecondsRemaining in rec then
      // the remaining time is converted first
      if ToInt(rec[SecondsRemaining]).Raised? then Raised(ToInt(rec[SecondsRemaining]).error)
      else if ToInt(rec[SecondsElapse]).Raised? then Raised(ToInt(rec[SecondsElapse]).error)
      else Ok(Plain(Str(Hhmmss(ToInt(rec[SecondsElapse]).value - ToInt(rec[SecondsRemaining]).value))))
    else
      Ok(Missing)
  }

  function Finish(rec: Record, table: seq<TranslationRow>, n: Names): Outcome<Option<Extras>> {
    if Rows(rec, table, n.tags, map[]).Raised? then Raised(Rows(rec, table, n.tags, map[]).error)
    else if RemainingLayers(rec).Raised? then Raised(RemainingLayers(rec).error)
    else if TotalTime(rec).Raised? then Raised(TotalTime(rec).error)
    else Ok(Some(Rows(rec, table, n.tags, map[]).value[n.remainingLayers := RemainingLayers(rec).value][n.totalTime := TotalTime(rec).value]))
  }

  /** `_parse_status_extras(stat, use_seconds)`. A reply with no status
      attribute raises `AttributeError`; a falsy status gives `None` and the
      record is left alone; otherwise the dictionary holds exactly the
      table's keys and the two computed keys. */
  function Parse(stat: Record, useSeconds: bool, table: seq<TranslationRow>, n: Names): (p: Parsed<Option<Extras>>)
    ensures Status !in stat ==> p == Parsed(stat, Raised(AttributeError))
    ensures Status in stat && !Truthy(stat[Status]) ==> p == Parsed(stat, Ok(None))
    ensures !useSeconds || SecondsRemaining !in stat ==> p.record == stat
    ensures Status in stat && Truthy(stat[Status]) && useSeconds && SecondsRemaining in stat
              && ToInt(stat[SecondsRemaining]).Ok? ==>
      p.record == stat[SecondsRemaining := Whole(TruncDiv60(ToInt(stat[SecondsRemaining]).value))]
    ensures p.extras.Ok? && p.extras.value.Some? ==>
      p.extras.value.value.Keys == HassKeys(table) + {n.remainingLayers, n.totalTime}
    ensures p.extras.Ok? ==> (p.extras.value.None? <==> !Truthy(stat[Status]))
    ensures p.extras.Raised? ==> p.extras.error == ValueError || p.extras.error == AttributeError
  {
    if Status !in stat then
      Parsed(stat, Raised(AttributeError))
    else if !Truthy(stat[Status]) then
      Parsed(stat, Ok(None))
    else
      match ConvertRemaining(stat, useSeconds)
      case Raised(e) => Parsed(stat, Raised(e))
      case Ok(converted) => Parsed(converted, Finish(converted, table, n))
  }

  lemma ParseFinishes(stat: Record, useSeconds: bool, table: seq<TranslationRow>, n: Names)
    requires Status in stat && Truthy(stat[Status])
    requires Parse(stat, useSeconds, table, n).extras.Ok?
    ensures Parse(stat, useSeconds, table, n).extras == Finish(Parse(stat, useSeconds, table, n).record, table, n)
  {
  }

  /** The computed fields of a finished parse of a (converted) record. */
  lemma FinishFields(r: Record, table: seq<TranslationRow>, n: Names)
    requires n.totalTime != n.remainingLayers
    requires Finish(r, table, n).Ok?
    ensures Finish(r, table, n).value.Some?
    ensures RemainingLayers(r) == Ok(Finish(r, table, n).value.value[n.remainingLayers])
    ensures TotalTime(r) == Ok(Finish(r, table, n).value.value[n.totalTime])
  {
  }

  /** The computed fields, read from the record after the conversion: each
      computed key holds what `StatusFields.RemainingLayers` and `TotalTime`
      give for the (possibly rewritten) reply, so remaining layers are
      `total - current` and the total time is the clock rendering of
      `elapsed - remaining`, each `None` unless both of its inputs are
      present. */
  lemma ComputedFields(stat: Record, useSeconds: bool, table: seq<TranslationRow>, n: Names)
    requires Status in stat && Truthy(stat[Status]) && n.totalTime != n.remainingLayers
    requires Parse(stat, useSeconds, table, n).extras.Ok?
    ensures var p := Parse(stat, useSeconds, table, n);
      && RemainingLayers(p.record) == Ok(p.extras.value.value[n.remainingLayers])
      && TotalTime(p.record) == Ok(p.extras.value.value[n.totalTime])
  {
    ParseFinishes(stat, useSeconds, table, n);
    FinishFields(Parse(stat, useSeconds, table, n).record, table, n);
  }

  /** Per row: an absent attribute gives `None`, a present one its coerced
      value; the parse succeeds only if every row's coercion does. */
  lemma PerRow(stat: Record, useSeconds: bool, table: seq<TranslationRow>, n: Names, i: nat)
    requires Status in stat && Truthy(stat[Status])
    requires forall a, b :: 0 <= a < b < |table| ==> table[a].hass != table[b].hass
    requires forall k :: 0 <= k < |table| ==> table[k].hass != n.remainingLayers && table[k].hass != n.totalTime
    requires i < |table| && Parse(stat, useSeconds, table, n).extras.Ok?
    ensures var p := Parse(stat, useSeconds, table, n);
      var row := table[i];
      && (row.internal !in p.record ==> p.extras.value.value[row.hass] == Missing)
      && (row.internal in p.record ==>
            Coerce(p.record[row.internal], row.handling, n.tags).Ok?
            && p.extras.value.value[row.hass] == Coerce(p.record[row.internal], row.handling, n.tags).value)
  {
    var p := Parse(stat, useSeconds, table, n);
    ParseFinishes(stat, useSeconds, table, n);
    var rows := Rows(p.record, table, n.tags, map[]);
    var remaining := RemainingLayers(p.record).value;
    var total := TotalTime(p.record).value;
    assert p.extras.value.value == rows.value[n.remainingLayers := remaining][n.totalTime := total];
    RowsAt(p.record, table, n.tags, map[], i);
  }

  /** Unlike the later parser, a row whose coercion fails aborts the parse. */
  lemma RowErrorAborts(stat: Record, useSeconds: bool, table: seq<TranslationRow>, n: Names, i: nat)
    requires Status in stat && Truthy(stat[Status]) && i < |table|
    requires ConvertRemaining(stat, useSeconds).Ok?
    requires RowValue(ConvertRemaining(stat, useSeconds).value, table[i], n.tags).Raised?
    ensures Parse(stat, useSeconds, table, n).extras.Raised?
  {
  }

  /** A volume reading, digits followed by the tilde and the volume tag
      (`1234~mL`), becomes the integer the digits denote, for any tag that
      starts with neither a digit nor a tilde. */
  lemma VolumeRow(d: string, tags: Tags)
    requires |d| > 0 && AllDigits(d)
    requires |tags.ml| > 0 && !IsDigit(tags.ml[0]) && tags.ml[0] != '~'
    ensures Coerce(Str(d + Tilde + tags.ml), tags.ml, tags) == Ok(Plain(Whole(DigitsValue(d))))
  {
    StripMarkers(d, tags.ml);
    ParseDigits(d);
  }

  /** Digits followed by the tilde and a volume tag that starts with
      neither a digit nor a tilde come back as the bare digits. */
  lemma StripMarkers(d: string, ml: string)
    requires AllDigits(d) && |ml| > 0 && !IsDigit(ml[0]) && ml[0] != '~'
    ensures RemoveAll(RemoveAll(d + Tilde + ml, ml), Tilde) == d
  {
    var u := d + Tilde;
    assert forall i :: 0 <= i < |u| ==> u[i] != ml[0] by {
      forall i | 0 <= i < |u|
        ensures u[i] != ml[0]
      {
        if i < |d| {
          assert u[i] == d[i] && IsDigit(d[i]);
        }
      }
    }
    RemoveAllKeepsPrefix(u, ml, ml);
    RemoveAllLeading([], ml);
    assert ml + [] == ml && u + [] == u;
    assert forall i :: 0 <= i < |d| ==> d[i] != Tilde[0] by {
      forall i | 0 <= i < |d|
        ensures d[i] != Tilde[0]
      {
        assert IsDigit(d[i]);
      }
    }
    RemoveAllKeepsPrefix(d, Tilde, Tilde);
    RemoveAllLeading([], Tilde);
    assert Tilde + [] == Tilde && d + [] == d;
  }
}
