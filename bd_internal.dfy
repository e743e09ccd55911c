/** The lane and call-end helpers of bd_internal.py, applied row by row to the call and
    text logs before plotting (basic.py carries an identical copy of all three). Lane
    positions are exact reals here; the source computes them in floating point. */
module BdInternal {
  import opened Results
  import opened Calendar

  /** Default arguments of `_sms_sort` and `_call_sort`. */
  const SmsLane: real := 1.0
  const CallLane: real := 1.5
  const Spacer: real := 0.05

  /** The y-axis tick positions of the call-and-text plot, bottom to top:
      incoming text, outgoing text, incoming call, outgoing call. */
  const Ticks: seq<real> := [0.95, 1.05, 1.45, 1.55]

  /** `_sms_sort(row, yval, spacer)` of the row's `sent vs received` value: sent texts
      sit above the lane, received ones below it, anything else has no lane (the
      function falls off its end and returns `None`). */
  function SmsSort(sentVsReceived: string, yval: real, spacer: real): (r: Option<real>)
    ensures r.Some? <==> sentVsReceived == "sent SMS" || sentVsReceived == "received SMS"
    ensures r.Some? ==> r.value == yval + spacer || r.value == yval - spacer
    ensures sentVsReceived == "sent SMS" ==> r == Some(yval + spacer)
    ensures sentVsReceived == "received SMS" ==> r == Some(yval - spacer)
  {
    if sentVsReceived == "sent SMS" then Some(yval + spacer)
    else if sentVsReceived == "received SMS" then Some(yval - spacer)
    else None
  }

  /** `_call_sort(row, yval, spacer)` of the row's `call type` value: incoming and missed
      calls share the lower position, outgoing calls take the upper one. */
  function CallSort(callType: string, yval: real, spacer: real): (r: Option<real>)
    ensures r.Some? <==> callType in {"Incoming Call", "Missed Call", "Outgoing Call"}
    ensures r.Some? ==> r.value == yval + spacer || r.value == yval - spacer
    ensures callType == "Outgoing Call" ==> r == Some(yval + spacer)
    ensures callType == "Incoming Call" || callType == "Missed Call" ==> r == Some(yval - spacer)
  {
    if callType == "Incoming Call" then Some(yval - spacer)
    else if callType == "Missed Call" then Some(yval - spacer)
    else if callType == "Outgoing Call" then Some(yval + spacer)
    else None
  }

  /** With the default arguments the four lanes are exactly the plot's tick positions. */
  lemma {:induction false} DefaultLanesAreTicks()
    ensures [SmsSort("received SMS", SmsLane, Spacer).value, SmsSort("sent SMS", SmsLane, Spacer).value,
             CallSort("Incoming Call", CallLane, Spacer).value, CallSort("Outgoing Call", CallLane, Spacer).value]
            == Ticks
  {
  }

  /** A missed call is drawn in the lane of incoming calls, whatever the arguments. */
  lemma {:induction false} MissedSharesIncomingLane(yval: real, spacer: real)
    ensures CallSort("Missed Call", yval, spacer) == CallSort("Incoming Call", yval, spacer)
  {
  }

  /** A text's lane tells whether it was sent or received, as long as the spacer is not zero. */
  lemma {:induction false} SmsLaneDecides(a: string, b: string, yval: real, spacer: real)
    requires spacer != 0.0
    requires SmsSort(a, yval, spacer).Some? && SmsSort(a, yval, spacer) == SmsSort(b, yval, spacer)
    ensures a == b
  {
  }

  /** A call's lane tells an outgoing call from an incoming or missed one, as long as the
      spacer is not zero. */
  lemma {:induction false} CallLaneDecides(a: string, b: string, yval: real, spacer: real)
    requires spacer != 0.0
    requires CallSort(a, yval, spacer).Some? && CallSort(a, yval, spacer) == CallSort(b, yval, spacer)
    ensures (a == "Outgoing Call") == (b == "Outgoing Call")
  {
  }

  /** With a positive spacer less than a quarter of the distance between the text lane and
      the call lane, the four positions are strictly ordered as the tick labels list them. */
  lemma {:induction false} LanesOrdered(smsY: real, callY: real, spacer: real)
    requires 0.0 < spacer && 4.0 * spacer < callY - smsY
    ensures SmsSort("received SMS", smsY, spacer).value < SmsSort("sent SMS", smsY, spacer).value
            < CallSort("Incoming Call", callY, spacer).value < CallSort("Outgoing Call", callY, spacer).value
  {
  }

  /** `_call_end(row)`: the start is `utcfromtimestamp` of the millisecond timestamp
      divided by 1000 (Python 2 floor division of an int), which raises `ValueError` for a
      second outside the range of `datetime`; adding `timedelta(0, duration)` raises
      `OverflowError` when the end leaves that range. */
  function CallEnd(timestampMs: int, duration: int): (r: Result<DateTime>)
    ensures r.Ok? <==> MinSecond <= timestampMs / 1000 <= MaxSecond && MinSecond <= timestampMs / 1000 + duration <= MaxSecond
    ensures r.Ok? ==> Valid(r.value) && EpochSeconds(r.value) == timestampMs / 1000 + duration
    ensures r.Err? ==> (r.error == ValueError <==> !(MinSecond <= timestampMs / 1000 <= MaxSecond))
    ensures r.Err? ==> r.error == ValueError || r.error == OverflowError
  {
    var t := timestampMs / 1000;
    YearInRange(t);
    var start := CivilFromSeconds(t);
    if !(1 <= start.year <= 9999) then Err(ValueError)
    else
      var u := t + duration;
      YearInRange(u);
      var end := CivilFromSeconds(u);
      if !(1 <= end.year <= 9999) then Err(OverflowError) else Ok(end)
  }

  /** The start of a call, as `_call_end` computes it before adding the duration. */
  function CallStart(timestampMs: int): (r: Result<DateTime>)
    ensures r.Ok? <==> MinSecond <= timestampMs / 1000 <= MaxSecond
    ensures r.Ok? ==> Valid(r.value) && EpochSeconds(r.value) == timestampMs / 1000
    ensures r.Err? ==> r.error == ValueError
  {
    var t := timestampMs / 1000;
    YearInRange(t);
    var start := CivilFromSeconds(t);
    if !(1 <= start.year <= 9999) then Err(ValueError) else Ok(start)
  }

  /** When the call's start and end are valid date-times, both are computed, and they are
      exactly those date-times. */
  lemma {:induction false} CallEndOfValid(timestampMs: int, duration: int, s: DateTime, e: DateTime)
    requires Valid(s) && EpochSeconds(s) == timestampMs / 1000
    requires Valid(e) && EpochSeconds(e) == timestampMs / 1000 + duration
    ensures CallStart(timestampMs) == Ok(s) && CallEnd(timestampMs, duration) == Ok(e)
  {
    ValidInRange(s);
    ValidInRange(e);
    SameSecondSameTime(CallStart(timestampMs).value, s);
    SameSecondSameTime(CallEnd(timestampMs, duration).value, e);
  }

  /** Two valid date-times at the same epoch second are equal. */
  lemma {:induction false} SameSecondSameTime(a: DateTime, b: DateTime)
    requires Valid(a) && Valid(b) && EpochSeconds(a) == EpochSeconds(b)
    ensures a == b
  {
    CivilRoundTrip(a);
    CivilRoundTrip(b);
  }

  /** End minus start is the call's duration: whenever the end exists, so does the start. */
  lemma {:induction false} CallLastsDuration(timestampMs: int, duration: int)
    requires CallEnd(timestampMs, duration).Ok?
    ensures CallStart(timestampMs).Ok?
    ensures EpochSeconds(CallEnd(timestampMs, duration).value) - EpochSeconds(CallStart(timestampMs).value) == duration
  {
  }
}
