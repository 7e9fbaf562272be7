/** The response classifier. The transport hands back either one decoded
    reply object or a list of them (other clients' replies are broadcast to
    every listener), and the caller wants the first reply of one class.
    `_find_response_of_type` (reporting "none" as `False`) and
    `parse_response_stream` (reporting it as `None`) are the same
    algorithm; both sentinels are `None` here. */
module Classifier {
  import opened Maybe
  import opened Values

  /** The reply classes the transport tags lines with. */
  datatype Kind = StatusKind | SysInfoKind | OtherKind

  /** One decoded reply: its class and its attributes. */
  datatype Item = Item(kind: Kind, attrs: Record)

  /** What one request yields: a single reply object or a list of them. */
  datatype Response = One(item: Item) | Many(items: seq<Item>)

  /** What sending one request produced: the decoded reply, or the error
      the transport raised (a refused or dropped connection is an `OSError`
      kind). The socket I/O itself is not modelled. */
  datatype Transport = Delivered(resp: Response) | Failed(error: Error)

  /** The outcome of an adapter call, and whether it closed the adapter's
      socket on the way out (a `finally` clause runs on both paths). */
  datatype Call<+T> = Call(outcome: Outcome<T>, socketClosed: bool)

  /** Index of the first item of the wanted kind, scanning in order. */
  function FirstOfKind(items: seq<Item>, k: Kind): (r: Option<nat>)
    ensures r.Some? ==> r.value < |items| && items[r.value].kind == k
  {
    if |items| == 0 then None
    else if items[0].kind == k then Some(0)
    else
      match FirstOfKind(items[1..], k)
      case None => None
      case Some(i) => Some(i + 1)
  }

  /** The scan finds the first match: no item before the index found has
      the wanted kind, and it finds nothing only when no item has it. */
  lemma {:induction false} FirstOfKindIsFirst(items: seq<Item>, k: Kind)
    ensures FirstOfKind(items, k).Some? ==> forall j :: 0 <= j < FirstOfKind(items, k).value ==> items[j].kind != k
    ensures FirstOfKind(items, k).None? ==> forall j :: 0 <= j < |items| ==> items[j].kind != k
    decreases |items|
  {
    if |items| > 0 && items[0].kind != k {
      FirstOfKindIsFirst(items[1..], k);
      forall j | 1 <= j < |items|
        ensures items[j] == items[1..][j - 1]
      {
      }
    }
  }

  /** The classifier. A reply that already has the wanted class is returned
      unchanged; a list yields its first element of that class, or `None`;
      a lone reply of another class is not iterable, so `for item in
      response` raises `TypeError`. */
  function Select(resp: Response, k: Kind): (r: Outcome<Option<Item>>)
    ensures resp.One? ==> (r.Ok? <==> resp.item.kind == k)
    ensures resp.One? && r.Ok? ==> r.value == Some(resp.item)
    ensures r.Raised? ==> r.error == TypeError && resp.One?
    ensures resp.Many? ==> r.Ok?
    ensures resp.Many? && r.Ok? ==>
      (r.value.Some? <==> exists i :: 0 <= i < |resp.items| && resp.items[i].kind == k)
    ensures resp.Many? && r.Ok? && r.value.Some? ==>
      exists i :: 0 <= i < |resp.items| && resp.items[i] == r.value.value
        && (forall j :: 0 <= j < i ==> resp.items[j].kind != k)
    ensures r.Ok? && r.value.Some? ==> r.value.value.kind == k
  {
    match resp
    case One(item) => if item.kind == k then Ok(Some(item)) else Raised(TypeError)
    case Many(items) =>
      FirstOfKindIsFirst(items, k);
      match FirstOfKind(items, k)
      case None => Ok(None)
      case Some(i) => Ok(Some(items[i]))
  }

  /** Interleaved traffic: an unrelated reply ahead of the wanted one is
      skipped, and a later reply of the wanted class never wins over an
      earlier one. */
  lemma {:induction false} FirstMatchWins(other: Item, wanted: Item, later: seq<Item>, k: Kind)
    requires other.kind != k && wanted.kind == k
    ensures Select(Many([other, wanted] + later), k) == Ok(Some(wanted))
  {
    var items := [other, wanted] + later;
    assert items[0] == other && items[1] == wanted;
    assert items[1..][0] == wanted;
  }

  /** Appending replies never changes a match that was already found, and
      a list with no match yields whatever the appended replies yield. */
  lemma ScanPrefixDecides(front: seq<Item>, back: seq<Item>, k: Kind)
    ensures FirstOfKind(front, k).Some? ==> FirstOfKind(front + back, k) == FirstOfKind(front, k)
    ensures FirstOfKind(front, k).None? && FirstOfKind(back, k).Some? ==>
      FirstOfKind(front + back, k) == Some(|front| + FirstOfKind(back, k).value)
    ensures FirstOfKind(front, k).None? && FirstOfKind(back, k).None? ==>
      FirstOfKind(front + back, k).None?
  {
    if FirstOfKind(front, k).Some? {
      MatchInFront(front, back, k);
    } else {
      NoMatchInFront(front, back, k);
    }
  }

  lemma {:induction false} MatchInFront(front: seq<Item>, back: seq<Item>, k: Kind)
    requires FirstOfKind(front, k).Some?
    ensures FirstOfKind(front + back, k) == FirstOfKind(front, k)
    decreases |front|
  {
    if front[0].kind != k {
      assert (front + back)[1..] == front[1..] + back;
      MatchInFront(front[1..], back, k);
    }
  }

  /** A position found in a suffix, seen from `d` items earlier. */
  function Shift(found: Option<nat>, d: nat): Option<nat> {
    match found
    case None => None
    case Some(i) => Some(i + d)
  }

  lemma {:induction false} NoMatchInFront(front: seq<Item>, back: seq<Item>, k: Kind)
    requires FirstOfKind(front, k).None?
    ensures FirstOfKind(front + back, k) == Shift(FirstOfKind(back, k), |front|)
    decreases |front|
  {
    if |front| == 0 {
      assert front + back == back;
    } else {
      var joined := front + back;
      assert joined[0] == front[0] && joined[1..] == front[1..] + back;
      ScanStep(front, k);
      ScanStep(joined, k);
      NoMatchInFront(front[1..], back, k);
      ShiftTwice(FirstOfKind(back, k), |front| - 1, 1);
    }
  }

  /** One step of the scan: a match at the head, or the tail's match one
      place further on. */
  lemma ScanStep(items: seq<Item>, k: Kind)
    requires |items| > 0
    ensures FirstOfKind(items, k) == if items[0].kind == k then Some(0) else Shift(FirstOfKind(items[1..], k), 1)
  {
  }

  lemma ShiftTwice(found: Option<nat>, a: nat, b: nat)
    ensures Shift(Shift(found, a), b) == Shift(found, a + b)
  {
  }
}
