/** `_parse_extras`, the later status-extras parser: a reply record and a
    unit flag become a dictionary with one entry per lookup-table row plus
    the two computed fields. Coercion failures (`ValueError`) are caught row
    by row and fall back to the raw value; string methods applied to a
    number raise `AttributeError`, which is not caught. */
module ExtrasParser {
  import opened Text
  import opened Values
  import opened Clock
  import opened StatusFields

  /** The names the parser is configured with (module constants of the
      integration whose values are not part of this model). */
  datatype Names = Names(
    tags: Tags,
    apiStatus: string,         // attribute that marks a status reply
    apiSecondsElapse: string,  // attribute the minutes conversion writes
    internalFile: string,      // output key of a file's internal name
    splitChar: string,         // separator of the external/internal file name
    tilde: string,             // marker stripped from volumes
    remainingLayers: string,   // output key of the computed remaining layers
    totalTime: string)         // output key of the computed total time

  /** A lookup-table row: source attribute, output key, kind tag, unit. */
  datatype LookupRow = LookupRow(api: string, hass: string, kind: string, unit: string)

  /** What one row contributes: a value under its own key, or the two
      halves of a file name (external under its own key, internal under
      the internal-file key). */
  datatype Cell = Stored(v: Value) | FileParts(external: string, internal: string)

  /** The value a cell puts under the row's own key. */
  function Shown(c: Cell): Value {
    match c
    case Stored(v) => v
    case FileParts(e, _) => Plain(Str(e))
  }

  /** The body of the per-row `try`: the conversion selected by the kind
      tag, tried in the order of the `match` statement's cases. */
  function Convert(raw: Attr, kind: string, n: Names): (r: Outcome<Cell>)
    ensures r.Raised? ==> r.error == ValueError || r.error == AttributeError
    ensures r.Ok? && r.value.FileParts? ==> kind == n.tags.file
    // text never meets a missing string method
    ensures raw.Str? ==> r != Raised(AttributeError)
    // a file name: the two pieces of a split into exactly two, else `ValueError`
    ensures kind == n.tags.file && raw.Str? && |n.splitChar| > 0 && |Split(raw.s, n.splitChar)| == 2 ==>
      r == Ok(FileParts(Split(raw.s, n.splitChar)[0], Split(raw.s, n.splitChar)[1]))
    ensures kind == n.tags.file && raw.Str? && (|n.splitChar| == 0 || |Split(raw.s, n.splitChar)| != 2) ==>
      r == Raised(ValueError)
    ensures kind == n.tags.file && !raw.Str? ==> r == Raised(AttributeError)
    // a float: `float(raw)`
    ensures kind != n.tags.file && kind == n.tags.float ==>
      (r.Ok? <==> ToFloat(raw).Ok?) && (r.Ok? ==> r.value == Stored(FloatOf(raw)))
    // a volume: text with the volume tag and then the tilde deleted
    ensures kind !in {n.tags.file, n.tags.float} && kind == n.tags.ml && raw.Str? ==>
      r == Ok(Stored(Plain(Str(RemoveAll(RemoveAll(raw.s, n.tags.ml), n.tilde)))))
    ensures kind !in {n.tags.file, n.tags.float} && kind == n.tags.ml && !raw.Str? ==> r == Raised(AttributeError)
    // an integer: `int(raw)`
    ensures kind !in {n.tags.file, n.tags.float, n.tags.ml} && kind == n.tags.integer ==>
      (r.Ok? <==> ToInt(raw).Ok?) && (r.Ok? ==> r.value == Stored(Plain(Whole(ToInt(raw).value))))
    // a time: the clock rendering of `int(raw)`
    ensures kind !in {n.tags.file, n.tags.float, n.tags.ml, n.tags.integer} && kind == n.tags.time ==>
      (r.Ok? <==> ToInt(raw).Ok?) && (r.Ok? ==> r.value == Stored(Plain(Str(Hhmmss(ToInt(raw).value)))))
    // a string, and any other tag: the raw value
    ensures kind !in {n.tags.file, n.tags.float, n.tags.ml, n.tags.integer, n.tags.time} ==> r == Ok(Stored(Plain(raw)))
  {
    if kind == n.tags.file then
      match raw
      case Str(s) =>
        if |n.splitChar| == 0 then Raised(ValueError)  // an empty separator
        else
          var parts := Split(s, n.splitChar);
          // unpacking into two names needs exactly two pieces
          if |parts| == 2 then Ok(FileParts(parts[0], parts[1])) else Raised(ValueError)
      case _ => Raised(AttributeError)
    else if kind == n.tags.float then
      var v :- ToFloat(raw);
      Ok(Stored(v))
    else if kind == n.tags.ml then
      match raw
      case Str(s) => Ok(Stored(Plain(Str(RemoveAll(RemoveAll(s, n.tags.ml), n.tilde)))))
      case _ => Raised(AttributeError)
    else if kind == n.tags.integer then
      var i :- ToInt(raw);
      Ok(Stored(Plain(Whole(i))))
    else if kind == n.tags.time then
      var t :- SecondsToHhmmss(raw);
      Ok(Stored(Plain(Str(t))))
    else
      Ok(Stored(Plain(raw)))  // the string kind and the default case
  }

  /** One row: `None` for an absent attribute, the raw value when the
      conversion raises `ValueError`, otherwise the conversion's result. */
  function RowCell(rec: Record, row: LookupRow, n: Names): (r: Outcome<Cell>)
    ensures row.api !in rec ==> r == Ok(Stored(Missing))
    ensures row.api in rec && Convert(rec[row.api], row.kind, n) == Raised(ValueError) ==>
      r == Ok(Stored(Plain(rec[row.api])))
    ensures row.api in rec && Convert(rec[row.api], row.kind, n).Ok? ==> r == Convert(rec[row.api], row.kind, n)
    ensures r.Raised? ==> r.error == AttributeError
  {
    if row.api !in rec then Ok(Stored(Missing))
    else
      match Convert(rec[row.api], row.kind, n)
      case Raised(ValueError) => Ok(Stored(Plain(rec[row.api])))
      case other => other
  }

  function Store(acc: Extras, row: LookupRow, c: Cell, n: Names): Extras {
    match c
    case Stored(v) => acc[row.hass := v]
    case FileParts(e, i) => acc[row.hass := Plain(Str(e))][n.internalFile := Plain(Str(i))]
  }

  /** The output keys the table names. */
  function HassKeys(table: seq<LookupRow>): set<string> {
    set k | 0 <= k < |table| :: table[k].hass
  }

  lemma HassKeysCons(table: seq<LookupRow>)
    requires |table| > 0
    ensures HassKeys(table) == {table[0].hass} + HassKeys(table[1..])
  {
    forall key | key in HassKeys(table)
      ensures key in {table[0].hass} + HassKeys(table[1..])
    {
      var k :| 0 <= k < |table| && table[k].hass == key;
      if k > 0 {
        assert table[1..][k - 1] == table[k];
      }
    }
    forall key | key in HassKeys(table[1..])
      ensures key in HassKeys(table)
    {
      var k :| 0 <= k < |table[1..]| && table[1..][k].hass == key;
      assert table[k + 1] == table[1..][k];
    }
  }

  /** The table loop. Every row's key is written, the only other key it may
      add is the internal-file key, and it raises only `AttributeError`. */
  function Rows(rec: Record, table: seq<LookupRow>, n: Names, acc: Extras): (r: Outcome<Extras>)
    ensures r.Ok? ==> acc.Keys + HassKeys(table) <= r.value.Keys
    ensures r.Ok? ==> r.value.Keys <= acc.Keys + HassKeys(table) + {n.internalFile}
    ensures r.Raised? ==> r.error == AttributeError
    decreases |table|
  {
    if |table| == 0 then
      Ok(acc)
    else
      var c :- RowCell(rec, table[0], n);
      HassKeysCons(table);
      Rows(rec, table[1..], n, Store(acc, table[0], c, n))
  }

  /** The loop leaves alone every key that no row and no file split writes. */
  lemma {:induction false} RowsUntouched(rec: Record, table: seq<LookupRow>, n: Names, acc: Extras, key: string)
    requires key !in HassKeys(table) && key != n.internalFile
    requires Rows(rec, table, n, acc).Ok?
    ensures key in Rows(rec, table, n, acc).value <==> key in acc
    ensures key in acc ==> Rows(rec, table, n, acc).value[key] == acc[key]
    decreases |table|
  {
    if |table| > 0 {
      HassKeysCons(table);
      var c := RowCell(rec, table[0], n).value;
      RowsUntouched(rec, table[1..], n, Store(acc, table[0], c, n), key);
    }
  }

  /** Output keys of distinct rows do not collide with each other nor with
      the keys the parser writes on its own. */
  predicate DistinctKeys(table: seq<LookupRow>, n: Names) {
    && (forall i, j :: 0 <= i < j < |table| ==> table[i].hass != table[j].hass)
    && (forall i :: 0 <= i < |table| ==> table[i].hass !in {n.internalFile, n.remainingLayers, n.totalTime})
  }

  /** Each row's key ends up holding that row's own cell, whatever the
      other rows did: a row whose conversion failed does not stop later
      rows. */
  lemma {:induction false} RowsAt(rec: Record, table: seq<LookupRow>, n: Names, acc: Extras, i: nat)
    requires DistinctKeys(table, n) && i < |table|
    requires Rows(rec, table, n, acc).Ok?
    ensures RowCell(rec, table[i], n).Ok?
    ensures Rows(rec, table, n, acc).value[table[i].hass] == Shown(RowCell(rec, table[i], n).value)
    decreases |table|
  {
    var c := RowCell(rec, table[0], n).value;
    var acc' := Store(acc, table[0], c, n);
    assert DistinctKeys(table[1..], n) by {
      forall a, b | 0 <= a < b < |table[1..]|
        ensures table[1..][a].hass != table[1..][b].hass
      {
        assert table[1..][a] == table[a + 1] && table[1..][b] == table[b + 1];
      }
    }
    if i == 0 {
      assert table[0].hass !in HassKeys(table[1..]) by {
        forall k | 0 <= k < |table[1..]|
          ensures table[1..][k].hass != table[0].hass
        {
          assert table[1..][k] == table[k + 1];
        }
      }
      RowsUntouched(rec, table[1..], n, acc', table[0].hass);
    } else {
      assert table[1..][i - 1] == table[i];
      RowsAt(rec, table[1..], n, acc', i - 1);
    }
  }

  /** Without a successful file split the internal-file key is never added. */
  lemma {:induction false} NoSplitNoInternalFile(rec: Record, table: seq<LookupRow>, n: Names, acc: Extras)
    requires n.internalFile !in acc && n.internalFile !in HassKeys(table)
    requires forall k :: 0 <= k < |table| ==> !(RowCell(rec, table[k], n).Ok? && RowCell(rec, table[k], n).value.FileParts?)
    requires Rows(rec, table, n, acc).Ok?
    ensures n.internalFile !in Rows(rec, table, n, acc).value
    decreases |table|
  {
    if |table| > 0 {
      HassKeysCons(table);
      var c := RowCell(rec, table[0], n).value;
      forall k | 0 <= k < |table[1..]|
        ensures !(RowCell(rec, table[1..][k], n).Ok? && RowCell(rec, table[1..][k], n).value.FileParts?)
      {
        assert table[1..][k] == table[k + 1];
      }
      NoSplitNoInternalFile(rec, table[1..], n, Store(acc, table[0], c, n));
    }
  }

  /** The minutes conversion: with the flag set and the elapsed attribute
      present, `int(seconds_elapse) / 60` is written back into the record. */
  function ConvertElapsed(rec: Record, convert: bool, n: Names): Outcome<Record> {
    if convert && n.apiSecondsElapse in rec then
      if SecondsElapse !in rec then Raised(AttributeError)
      else
        var v :- ToInt(rec[SecondsElapse]);
        Ok(rec[n.apiSecondsElapse := Sixtieths(v)])
    else
      Ok(rec)
  }

  /** The total-time field: `hhmmss(int(elapsed) + int(remaining))` when both
      are present, else `None`; a non-numeric value raises. */
  function TotalTime(rec: Record): (r: Outcome<Value>)
    ensures SecondsElapse !in rec || SecondsRemaining !in rec ==> r == Ok(Missing)
    ensures SecondsElapse in rec && SecondsRemaining in rec ==>
      (r.Ok? <==> ToInt(rec[SecondsElapse]).Ok? && ToInt(rec[SecondsRemaining]).Ok?)
    ensures SecondsElapse in rec && SecondsRemaining in rec
            && ToInt(rec[SecondsElapse]).Ok? && ToInt(rec[SecondsRemaining]).Ok? ==>
      r == Ok(Plain(Str(Hhmmss(ToInt(rec[SecondsElapse]).value + ToInt(rec[SecondsRemaining]).value))))
  {
    if SecondsElapse in rec && SecondsRemaining in rec then
      // the remaining time is converted first
      if ToInt(rec[SecondsRemaining]).Raised? then Raised(ToInt(rec[SecondsRemaining]).error)
      else if ToInt(rec[SecondsElapse]).Raised? then Raised(ToInt(rec[SecondsElapse]).error)
      else Ok(Plain(Str(Hhmmss(ToInt(rec[SecondsElapse]).value + ToInt(rec[SecondsRemaining]).value))))
    else
      Ok(Missing)
  }

  function Finish(rec: Record, table: seq<LookupRow>, n: Names): Outcome<Extras> {
    if Rows(rec, table, n, map[]).Raised? then Raised(Rows(rec, table, n, map[]).error)
    else if RemainingLayers(rec).Raised? then Raised(RemainingLayers(rec).error)
    else if TotalTime(rec).Raised? then Raised(TotalTime(rec).error)
    else Ok(Rows(rec, table, n, map[]).value[n.remainingLayers := RemainingLayers(rec).value][n.totalTime := TotalTime(rec).value])
  }

  /** `_parse_extras(raw, convert_seconds)`. A reply without the status
      attribute yields `{}` and is left alone; otherwise the record may be
      rewritten in place by the minutes conversion, and the dictionary holds
      exactly the table's keys, the two computed keys and, after a file
      split, the internal-file key. */
  function Parse(rec: Record, convert: bool, table: seq<LookupRow>, n: Names): (p: Parsed<Extras>)
    ensures n.apiStatus !in rec ==> p == Parsed(rec, Ok(map[]))
    ensures !convert || n.apiSecondsElapse !in rec ==> p.record == rec
    ensures n.apiStatus in rec && convert && n.apiSecondsElapse in rec && SecondsElapse in rec
              && ToInt(rec[SecondsElapse]).Ok? ==>
      p.record == rec[n.apiSecondsElapse := Sixtieths(ToInt(rec[SecondsElapse]).value)]
    ensures p.extras.Ok? && n.apiStatus in rec ==>
      HassKeys(table) + {n.remainingLayers, n.totalTime} <= p.extras.value.Keys
        <= HassKeys(table) + {n.remainingLayers, n.totalTime, n.internalFile}
    ensures p.extras.Raised? ==> p.extras.error == ValueError || p.extras.error == AttributeError
  {
    if n.apiStatus !in rec then
      Parsed(rec, Ok(map[]))
    else
      match ConvertElapsed(rec, convert, n)
      case Raised(e) => Parsed(rec, Raised(e))
      case Ok(converted) => Parsed(converted, Finish(converted, table, n))
  }

  /** The only attribute the parse may rewrite is the one the minutes
      conversion writes, and it never adds or drops an attribute. */
  lemma ParseTouchesOnlyElapsed(rec: Record, convert: bool, table: seq<LookupRow>, n: Names)
    ensures Parse(rec, convert, table, n).record.Keys == rec.Keys
    ensures forall k :: k in rec && k != n.apiSecondsElapse ==> Parse(rec, convert, table, n).record[k] == rec[k]
  {
  }

  /** The computed fields of a finished parse of a (converted) record. */
  lemma FinishFields(r: Record, table: seq<LookupRow>, n: Names)
    requires n.totalTime != n.remainingLayers
    requires Finish(r, table, n).Ok?
    ensures RemainingLayers(r) == Ok(Finish(r, table, n).value[n.remainingLayers])
    ensures TotalTime(r) == Ok(Finish(r, table, n).value[n.totalTime])
  {
  }

  /** The computed fields, read from the record after the conversion: each
      computed key holds what `StatusFields.RemainingLayers` and `TotalTime`
      give for the (possibly rewritten) reply, so remaining layers are
      `total - current` and the total time is the clock rendering of
      `elapsed + remaining`, each `None` unless both of its inputs are
      present. */
  lemma ComputedFields(rec: Record, convert: bool, table: seq<LookupRow>, n: Names)
    requires n.apiStatus in rec && n.totalTime != n.remainingLayers
    requires Parse(rec, convert, table, n).extras.Ok?
    ensures var p := Parse(rec, convert, table, n);
      && RemainingLayers(p.record) == Ok(p.extras.value[n.remainingLayers])
      && TotalTime(p.record) == Ok(p.extras.value[n.totalTime])
  {
    ParseFinishes(rec, convert, table, n);
    FinishFields(Parse(rec, convert, table, n).record, table, n);
  }

  lemma ParseFinishes(rec: Record, convert: bool, table: seq<LookupRow>, n: Names)
    requires n.apiStatus in rec
    requires Parse(rec, convert, table, n).extras.Ok?
    ensures Parse(rec, convert, table, n).extras == Finish(Parse(rec, convert, table, n).record, table, n)
  {
  }

  /** The computed fields are outside the `try`: a non-numeric layer count
      makes the whole parse raise. */
  lemma ComputedFieldRaises(rec: Record, table: seq<LookupRow>, n: Names)
    requires n.apiStatus in rec && CurrentLayer in rec && TotalLayers in rec
    requires ToInt(rec[TotalLayers]).Raised?
    ensures Parse(rec, false, table, n).extras.Raised?
  {
  }

  /** Per row: an absent attribute gives `None`, a conversion that raises
      `ValueError` gives the raw value, and any other row gives its cell. */
  lemma PerRow(rec: Record, convert: bool, table: seq<LookupRow>, n: Names, i: nat)
    requires n.apiStatus in rec && DistinctKeys(table, n) && i < |table|
    requires Parse(rec, convert, table, n).extras.Ok?
    ensures var p := Parse(rec, convert, table, n);
      var row := table[i];
      && RowCell(p.record, row, n).Ok?
      && p.extras.value[row.hass] == Shown(RowCell(p.record, row, n).value)
      && (row.api !in p.record ==> p.extras.value[row.hass] == Missing)
      && (row.api in p.record && Convert(p.record[row.api], row.kind, n) == Raised(ValueError) ==>
            p.extras.value[row.hass] == Plain(p.record[row.api]))
  {
    ParseFinishes(rec, convert, table, n);
    var r := Parse(rec, convert, table, n).record;
    assert table[i].hass != n.remainingLayers && table[i].hass != n.totalTime;
    FinishKeepsRows(r, table, n, table[i].hass);
    RowsAt(r, table, n, map[], i);
  }

  /** The computed fields overwrite nothing but their own two keys. */
  lemma FinishKeepsRows(r: Record, table: seq<LookupRow>, n: Names, k: string)
    requires Finish(r, table, n).Ok? && k != n.remainingLayers && k != n.totalTime
    ensures Rows(r, table, n, map[]).Ok?
    ensures k in Rows(r, table, n, map[]).value ==>
      k in Finish(r, table, n).value && Finish(r, table, n).value[k] == Rows(r, table, n, map[]).value[k]
  {
  }

  /** A file name is kept apart only when it splits into exactly two
      pieces: the pieces rebuild the raw text around one separator and
      contain none. Any other piece count stores the raw value. */
  lemma FileRow(s: string, row: LookupRow, n: Names)
    requires row.kind == n.tags.file && |n.splitChar| > 0
    ensures var c := Convert(Str(s), row.kind, n);
      && (|Split(s, n.splitChar)| == 2 ==>
            c.Ok? && c.value.FileParts?
            && c.value.external + n.splitChar + c.value.internal == s
            && !Contains(c.value.external, n.splitChar) && !Contains(c.value.internal, n.splitChar))
      && (|Split(s, n.splitChar)| != 2 ==>
            RowCell(map[row.api := Str(s)], row, n) == Ok(Stored(Plain(Str(s)))))
  {
    var parts := Split(s, n.splitChar);
    JoinSplit(s, n.splitChar);
    SplitPartsFree(s, n.splitChar);
    if |parts| == 2 {
      assert Join(parts, n.splitChar) == parts[0] + n.splitChar + Join(parts[1..], n.splitChar);
    }
  }

  /** No internal-file key appears when no row produced a two-piece split. */
  lemma NoInternalFileWithoutSplit(rec: Record, convert: bool, table: seq<LookupRow>, n: Names)
    requires n.apiStatus in rec && DistinctKeys(table, n)
    requires n.internalFile != n.remainingLayers && n.internalFile != n.totalTime
    requires var p := Parse(rec, convert, table, n);
      forall k :: 0 <= k < |table| ==> !(RowCell(p.record, table[k], n).Ok? && RowCell(p.record, table[k], n).value.FileParts?)
    requires Parse(rec, convert, table, n).extras.Ok?
    ensures n.internalFile !in Parse(rec, convert, table, n).extras.value
  {
    var p := Parse(rec, convert, table, n);
    assert n.internalFile !in HassKeys(table);
    NoSplitNoInternalFile(p.record, table, n, map[]);
  }

  /** A volume keeps its digits as text, with the volume marker and then
      the tilde deleted; a one-character tilde is gone afterwards. */
  lemma VolumeRow(s: string, row: LookupRow, n: Names)
    requires row.kind == n.tags.ml && row.kind != n.tags.file && row.kind != n.tags.float
    ensures Convert(Str(s), row.kind, n) == Ok(Stored(Plain(Str(RemoveAll(RemoveAll(s, n.tags.ml), n.tilde)))))
    ensures |n.tilde| == 1 ==>
      forall i :: 0 <= i < |RemoveAll(RemoveAll(s, n.tags.ml), n.tilde)| ==>
        RemoveAll(RemoveAll(s, n.tags.ml), n.tilde)[i] != n.tilde[0]
  {
    if |n.tilde| == 1 {
      assert n.tilde == [n.tilde[0]];
      RemoveCharGone(RemoveAll(s, n.tags.ml), n.tilde[0]);
    }
  }

  /** Deleting the tilde after the marker can join a new marker together:
      `m~L` comes out as `mL`. */
  lemma MarkerCanReappear()
    ensures RemoveAll(RemoveAll("m~L", "mL"), "~") == "mL"
  {
    assert RemoveAll("L", "mL") == "L";
    assert RemoveAll("~L", "mL") == "~L";
    assert RemoveAll("m~L", "mL") == "m~L";
    assert RemoveAll("L", "~") == "L";
    assert RemoveAll("~L", "~") == "L";
  }

  /** The conversion rewrites its input, so parsing the same reply object a
      second time divides the elapsed time by 60 again. */
  lemma {:induction false} SecondParseDividesAgain(rec: Record, table: seq<LookupRow>, n: Names, v: int)
    requires n.apiStatus in rec && n.apiSecondsElapse == SecondsElapse
    requires SecondsElapse in rec && ToInt(rec[SecondsElapse]) == Ok(v)
    ensures Parse(rec, true, table, n).record[SecondsElapse] == Sixtieths(v)
    ensures Parse(Parse(rec, true, table, n).record, true, table, n).record[SecondsElapse]
              == Sixtieths(TruncDiv60(v))
  {
    var once := Parse(rec, true, table, n).record;
    assert once == rec[SecondsElapse := Sixtieths(v)];
    assert n.apiStatus in once;
  }

  /** With the flag off the record is never rewritten, so parsing twice
      gives the same dictionary. */
  lemma ParseTwiceWithoutConversion(rec: Record, table: seq<LookupRow>, n: Names)
    ensures Parse(Parse(rec, false, table, n).record, false, table, n) == Parse(rec, false, table, n)
  {
  }
}
