/** `_seconds_to_hhmmss`: `time.gmtime(int(v))` formatted with
    `%H:%M:%S`. For an integer count of seconds this is the time of day
    `n mod 86400`, as zero-padded hours, minutes and seconds; the date
    part of `gmtime` is dropped, so whole days wrap silently. */
module Clock {
  import opened Text
  import opened Values

  const SecondsPerDay := 86400

  function DigitChar(d: nat): (c: char)
    requires d < 10
    ensures IsDigit(c) && DigitValue(c) == d
  {
    ('0' as int + d) as char
  }

  /** Two decimal digits, zero-padded. */
  function Pad2(k: nat): (r: string)
    requires k < 100
    ensures |r| == 2 && AllDigits(r) && DigitsValue(r) == k
  {
    var r := [DigitChar(k / 10), DigitChar(k % 10)];
    assert r[..1] == [DigitChar(k / 10)];
    assert DigitsValue(r[..1]) == k / 10;
    r
  }

  /** The value of a two-digit field of a rendered time. */
  function Field(r: string, at: nat): nat
    requires at + 2 <= |r| && AllDigits(r[at..at + 2])
  {
    DigitsValue(r[at..at + 2])
  }

  /** Seconds per unit of the leading field when `k` fields are rendered:
      seconds, minutes, hours. */
  function Unit(k: nat): nat
    requires 1 <= k <= 3
  {
    if k == 1 then 1 else if k == 2 then 60 else 3600
  }

  /** The last `k` fields of the time of day `t` (so far as hours): the
      leading fields render `t / 60`, the last one `t mod 60`. */
  function Fields(t: nat, k: nat): (r: string)
    requires 1 <= k <= 3 && t < 24 * Unit(k)
    ensures |r| == 3 * k - 1
    decreases k
  {
    if k == 1 then Pad2(t)
    else Fields(t / 60, k - 1) + ":" + Pad2(t % 60)
  }

  /** The time of day of `n` seconds after midnight, rendered as `HH:MM:SS`. */
  function Hhmmss(n: int): (r: string)
    ensures |r| == 8
  {
    Fields(n % SecondsPerDay, 3)
  }

  /** Reading the three fields of a rendering back gives `n mod 86400`,
      and each field is within its clock range. */
  lemma HhmmssFields(n: int)
    ensures var r := Hhmmss(n);
      && r[2] == ':' && r[5] == ':'
      && AllDigits(r[0..2]) && AllDigits(r[3..5]) && AllDigits(r[6..8])
      && Field(r, 0) < 24 && Field(r, 3) < 60 && Field(r, 6) < 60
      && Field(r, 0) * 3600 + Field(r, 3) * 60 + Field(r, 6) == n % SecondsPerDay
  {
    var t := n % SecondsPerDay;
    var mins := t / 60;
    var h, m, s := mins / 60, mins % 60, t % 60;
    assert t == mins * 60 + s && mins == h * 60 + m;
    assert Fields(mins, 2) == Pad2(h) + ":" + Pad2(m);
    var r := Hhmmss(n);
    assert r == Pad2(h) + ":" + Pad2(m) + ":" + Pad2(s);
    assert r[0..2] == Pad2(h) && r[3..5] == Pad2(m) && r[6..8] == Pad2(s);
  }

  /** Only the time of day matters: a whole day later renders the same. */
  lemma {:induction false} HhmmssWraps(n: int, days: int)
    ensures Hhmmss(n + days * SecondsPerDay) == Hhmmss(n)
  {
    assert (n + days * SecondsPerDay) % SecondsPerDay == n % SecondsPerDay;
  }

  /** An hour, a minute and a second: `3661` renders as `01:01:01`. */
  lemma HhmmssExample()
    ensures Hhmmss(3661) == "01:01:01"
    ensures Hhmmss(86400) == "00:00:00"
  {
    OneOneOne();
    Midnight();
  }

  /** The two-digit renderings the examples use. */
  lemma SmallPads()
    ensures Pad2(1) == "01" && Pad2(0) == "00"
  {
    assert DigitChar(0) == '0' && DigitChar(1) == '1';
  }

  lemma OneOneOne()
    ensures Fields(3661, 3) == "01:01:01"
  {
    SmallPads();
    assert Fields(1, 1) == "01";
    assert Fields(61, 2) == Fields(1, 1) + ":" + Pad2(1);
    assert Fields(3661, 3) == Fields(61, 2) + ":" + Pad2(1);
  }

  lemma Midnight()
    ensures Fields(0, 3) == "00:00:00"
  {
    SmallPads();
    assert Fields(0, 1) == "00";
    assert Fields(0, 2) == Fields(0, 1) + ":" + Pad2(0);
    assert Fields(0, 3) == Fields(0, 2) + ":" + Pad2(0);
  }

  /** `_seconds_to_hhmmss(v)`: `int(v)` (whose `ValueError` the caller may
      catch), then the time of day. */
  function SecondsToHhmmss(v: Attr): (r: Outcome<string>)
    ensures r.Raised? <==> ToInt(v).Raised?
    ensures r.Raised? ==> r.error == ValueError
    ensures r.Ok? ==> r.value == Hhmmss(ToInt(v).value)
  {
    var n :- ToInt(v);
    Ok(Hhmmss(n))
  }
}
