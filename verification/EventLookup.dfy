/** The events of one extrinsic, found by skipping and taking instead of filtering. */
module EventLookup {
  import opened Felts
  import opened Blocks

  datatype Phase = ApplyExtrinsic(index: nat) | Finalization | Initialization

  datatype EventRecord = StarknetEvent(phase: Phase, event: Felt) | OtherEvent(phase: Phase)

  function StarknetEvents(records: seq<EventRecord>): seq<(Phase, Felt)> {
    if records == [] then []
    else
      var rest := StarknetEvents(records[1..]);
      if records[0].StarknetEvent? then [(records[0].phase, records[0].event)] + rest else rest
  }

  function SkipTo(events: seq<(Phase, Felt)>, i: nat): seq<(Phase, Felt)> {
    if events == [] || events[0].0 == ApplyExtrinsic(i) then events else SkipTo(events[1..], i)
  }

  /** Takes events up to the next one of another extrinsic; an event of no extrinsic panics. */
  function TakeOf(events: seq<(Phase, Felt)>, i: nat): Option<seq<Felt>> {
    if events == [] then Some([])
    else if !events[0].0.ApplyExtrinsic? then None
    else if events[0].0.index != i then Some([])
    else
      match TakeOf(events[1..], i)
      case None => None
      case Some(rest) => Some([events[0].1] + rest)
  }

  function EventsByIndex(records: seq<EventRecord>, i: nat): Option<seq<Felt>> {
    TakeOf(SkipTo(StarknetEvents(records), i), i)
  }

  /** All events of the extrinsic, in order. */
  function EventsOf(events: seq<(Phase, Felt)>, i: nat): seq<Felt> {
    if events == [] then []
    else
      var rest := EventsOf(events[1..], i);
      if events[0].0 == ApplyExtrinsic(i) then [events[0].1] + rest else rest
  }

  ghost predicate Contiguous(events: seq<(Phase, Felt)>, i: nat) {
    forall a, b, c | 0 <= a < b < c < |events| && events[a].0 == events[c].0 == ApplyExtrinsic(i) ::
      events[b].0 == ApplyExtrinsic(i)
  }

  ghost predicate NoHookAfter(events: seq<(Phase, Felt)>, i: nat) {
    forall a | 0 <= a < |events| - 1 && events[a].0 == ApplyExtrinsic(i) :: events[a + 1].0.ApplyExtrinsic?
  }

  /** The events of the extrinsic are one run, and no event of a block hook follows directly. */
  ghost predicate Grouped(events: seq<(Phase, Felt)>, i: nat) {
    Contiguous(events, i) && NoHookAfter(events, i)
  }

  lemma {:induction false} NoEventsOf(events: seq<(Phase, Felt)>, i: nat)
    ensures EventsOf(events, i) == [] <==> forall a | 0 <= a < |events| :: events[a].0 != ApplyExtrinsic(i)
    decreases |events|
  {
    if events != [] {
      NoEventsOf(events[1..], i);
      assert forall a | 1 <= a < |events| :: events[a] == events[1..][a - 1];
    }
  }

  lemma {:induction false} GroupedTail(events: seq<(Phase, Felt)>, i: nat)
    requires events != [] && (events[0].0 != ApplyExtrinsic(i) || (|events| > 1 && events[1].0 == ApplyExtrinsic(i)))
    ensures Grouped(events, i) <==> Grouped(events[1..], i)
  {
    var tail := events[1..];
    assert forall a | 1 <= a < |events| :: events[a] == tail[a - 1];
    if Grouped(tail, i) {
      forall a, b, c | 0 <= a < b < c < |events| && events[a].0 == events[c].0 == ApplyExtrinsic(i)
        ensures events[b].0 == ApplyExtrinsic(i)
      {
        if b > 1 {
          assert tail[if a == 0 then 0 else a - 1].0 == tail[c - 1].0 == ApplyExtrinsic(i);
          assert tail[b - 1].0 == ApplyExtrinsic(i);
        }
      }
      assert NoHookAfter(events, i) by {
        forall a | 0 <= a < |events| - 1 && events[a].0 == ApplyExtrinsic(i) ensures events[a + 1].0.ApplyExtrinsic? {
          if a > 0 {
            assert tail[a - 1].0 == ApplyExtrinsic(i) && tail[a - 1 + 1] == events[a + 1];
          }
        }
      }
    }
    if Grouped(events, i) {
      forall a, b, c | 0 <= a < b < c < |tail| && tail[a].0 == tail[c].0 == ApplyExtrinsic(i)
        ensures tail[b].0 == ApplyExtrinsic(i)
      {
        assert events[a + 1].0 == events[c + 1].0 == ApplyExtrinsic(i) && events[b + 1] == tail[b];
      }
      forall a | 0 <= a < |tail| - 1 && tail[a].0 == ApplyExtrinsic(i) ensures tail[a + 1].0.ApplyExtrinsic? {
        assert events[a + 1].0 == ApplyExtrinsic(i) && events[a + 1 + 1] == tail[a + 1];
      }
    }
  }

  lemma {:induction false} SkipKeeps(events: seq<(Phase, Felt)>, i: nat)
    ensures EventsOf(SkipTo(events, i), i) == EventsOf(events, i)
    ensures Grouped(SkipTo(events, i), i) <==> Grouped(events, i)
    ensures SkipTo(events, i) != [] ==> SkipTo(events, i)[0].0 == ApplyExtrinsic(i)
    decreases |events|
  {
    if events != [] && events[0].0 != ApplyExtrinsic(i) {
      GroupedTail(events, i);
      SkipKeeps(events[1..], i);
    }
  }

  lemma {:induction false} TakeIsFilter(events: seq<(Phase, Felt)>, i: nat)
    requires events == [] || events[0].0 == ApplyExtrinsic(i)
    ensures TakeOf(events, i) == Some(EventsOf(events, i)) <==> Grouped(events, i)
    decreases |events|
  {
    if |events| > 1 {
      var tail := events[1..];
      if tail[0].0 == ApplyExtrinsic(i) {
        GroupedTail(events, i);
        TakeIsFilter(tail, i);
        var taken := TakeOf(tail, i);
        if taken.Some? && [events[0].1] + taken.value == [events[0].1] + EventsOf(tail, i) {
          assert ([events[0].1] + taken.value)[1..] == taken.value;
          assert ([events[0].1] + EventsOf(tail, i))[1..] == EventsOf(tail, i);
        }
      } else {
        TakeStops(events, i);
      }
    }
  }

  lemma {:induction false} TakeStops(events: seq<(Phase, Felt)>, i: nat)
    requires |events| > 1 && events[0].0 == ApplyExtrinsic(i) && events[1].0 != ApplyExtrinsic(i)
    ensures TakeOf(events, i) == Some(EventsOf(events, i)) <==> Grouped(events, i)
  {
    var tail := events[1..];
    assert tail[0] == events[1];
    NoEventsOf(tail, i);
    if EventsOf(tail, i) == [] {
      assert forall a | 1 <= a < |events| :: events[a] == tail[a - 1];
      assert Contiguous(events, i);
    } else {
      var c :| 0 <= c < |tail| && tail[c].0 == ApplyExtrinsic(i);
      assert events[c + 1] == tail[c] && 0 < 1 < c + 1;
      assert !Contiguous(events, i);
      assert |EventsOf(events, i)| == 1 + |EventsOf(tail, i)|;
      assert TakeOf(events, i).Some? ==> |TakeOf(events, i).value| == 1;
    }
  }

  /** Skipping and taking returns all events of the extrinsic exactly when they are one run and no
      event of a block hook follows directly. */
  lemma {:induction false} EventsByIndexIsFilter(records: seq<EventRecord>, i: nat)
    ensures EventsByIndex(records, i) == Some(EventsOf(StarknetEvents(records), i))
            <==> Grouped(StarknetEvents(records), i)
  {
    SkipKeeps(StarknetEvents(records), i);
    TakeIsFilter(SkipTo(StarknetEvents(records), i), i);
  }

  /** Events deposited while extrinsics are applied come with rising indices. */
  ghost predicate Rising(events: seq<(Phase, Felt)>) {
    && (forall a | 0 <= a < |events| :: events[a].0.ApplyExtrinsic?)
    && (forall a, b | 0 <= a < b < |events| :: events[a].0.index <= events[b].0.index)
  }

  lemma {:induction false} RisingIsGrouped(events: seq<(Phase, Felt)>, i: nat)
    requires Rising(events)
    ensures Grouped(events, i)
  {
    forall a, b, c | 0 <= a < b < c < |events| && events[a].0 == events[c].0 == ApplyExtrinsic(i)
      ensures events[b].0 == ApplyExtrinsic(i)
    {
      assert events[a].0.index <= events[b].0.index <= events[c].0.index;
    }
  }
}
