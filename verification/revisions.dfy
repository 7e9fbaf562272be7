/** The two revisions of the status-extras parser side by side. */
module Revisions {
  import opened Values
  import opened StatusFields
  import opened Clock
  import ExtrasParser
  import StatusExtras

  /** The later revision adds the remaining time to the elapsed time, the
      earlier one subtracts it, so the same reply reports different total
      times: a minute elapsed and two remaining is three minutes in the
      later revision and, wrapping below midnight, a minute to midnight in
      the earlier one. */
  lemma TotalTimeDiffers(rec: Record)
    requires rec == map[SecondsElapse := Whole(60), SecondsRemaining := Whole(120)]
    ensures ExtrasParser.TotalTime(rec) == Ok(Plain(Str("00:03:00")))
    ensures StatusExtras.TotalTime(rec) == Ok(Plain(Str("23:59:00")))
  {
    assert ToInt(rec[SecondsElapse]) == Ok(60) && ToInt(rec[SecondsRemaining]) == Ok(120);
    ThreeMinutes();
    MinuteToMidnight();
  }

  lemma ThreeMinutes()
    ensures Hhmmss(180) == "00:03:00"
  {
    assert Pad2(0) == "00" && Pad2(3) == "03";
    assert Fields(0, 1) == "00";
    assert Fields(3, 2) == Fields(0, 1) + ":" + Pad2(3);
    assert Fields(180, 3) == Fields(3, 2) + ":" + Pad2(0);
  }

  lemma MinuteToMidnight()
    ensures Hhmmss(-60) == "23:59:00"
  {
    assert -60 % SecondsPerDay == 86340;
    LateFields();
  }

  lemma LateFields()
    ensures Fields(86340, 3) == "23:59:00"
  {
    assert Pad2(23) == "23" && Pad2(59) == "59" && Pad2(0) == "00";
    assert Fields(23, 1) == "23";
    assert Fields(1439, 2) == Fields(23, 1) + ":" + Pad2(59);
    assert Fields(86340, 3) == Fields(1439, 2) + ":" + Pad2(0);
  }
}
