/** The sliding-window rate limiter and the token bucket. Clock readings are parameters, and real numbers are exact. */
module Limits {
  // ---------- weighted time stamps ----------

  type Stamp = (real, nat)

  function Weight(d: seq<Stamp>): nat {
    if d == [] then 0 else d[0].1 + Weight(d[1..])
  }

  /** The weight stamped later than lo and not later than hi. */
  function WeightIn(d: seq<Stamp>, lo: real, hi: real): nat {
    if d == [] then 0 else (if lo < d[0].0 <= hi then d[0].1 else 0) + WeightIn(d[1..], lo, hi)
  }

  function DropOld(d: seq<Stamp>, cutoff: real): seq<Stamp> {
    if d != [] && d[0].0 <= cutoff then DropOld(d[1..], cutoff) else d
  }

  ghost predicate InOrder(d: seq<Stamp>, last: real) {
    && (forall i, j :: 0 <= i < j < |d| ==> d[i].0 <= d[j].0)
    && (forall i :: 0 <= i < |d| ==> d[i].0 <= last)
  }

  lemma {:induction false} WeightOfConcat(a: seq<Stamp>, b: seq<Stamp>, lo: real, hi: real)
    ensures Weight(a + b) == Weight(a) + Weight(b)
    ensures WeightIn(a + b, lo, hi) == WeightIn(a, lo, hi) + WeightIn(b, lo, hi)
  {
    if a == [] {
      assert a + b == b;
    } else {
      assert (a + b)[1..] == a[1..] + b;
      WeightOfConcat(a[1..], b, lo, hi);
    }
  }

  lemma {:induction false} WiderWindow(d: seq<Stamp>, lo: real, wider: real, hi: real, higher: real)
    requires wider <= lo && hi <= higher
    ensures WeightIn(d, lo, hi) <= WeightIn(d, wider, higher) <= Weight(d)
  {
    if d != [] {
      WiderWindow(d[1..], lo, wider, hi, higher);
    }
  }

  lemma {:induction false} NothingLater(d: seq<Stamp>, last: real, lo: real, hi: real)
    requires InOrder(d, last) && last <= hi
    ensures WeightIn(d, lo, hi) == WeightIn(d, lo, last)
  {
    if d != [] {
      TailInOrder(d, last);
      NothingLater(d[1..], last, lo, hi);
    }
  }

  lemma {:induction false} TailInOrder(d: seq<Stamp>, last: real)
    requires d != [] && InOrder(d, last)
    ensures InOrder(d[1..], last)
  {
    forall i, j | 0 <= i < j < |d[1..]| ensures d[1..][i].0 <= d[1..][j].0 {
      assert d[1..][i] == d[i + 1] && d[1..][j] == d[j + 1];
    }
  }

  /** Dropping from the front drops exactly what is too old, when stamps come in order. */
  lemma {:induction false} DropOldKeepsTheWindow(d: seq<Stamp>, cutoff: real, last: real)
    requires InOrder(d, last)
    ensures var kept := DropOld(d, cutoff);
            && InOrder(kept, last)
            && Weight(kept) == WeightIn(d, cutoff, last)
            && forall lo :: cutoff <= lo ==> WeightIn(kept, lo, last) == WeightIn(d, lo, last)
  {
    if d != [] && d[0].0 <= cutoff {
      TailInOrder(d, last);
      DropOldKeepsTheWindow(d[1..], cutoff, last);
    } else {
      AllLater(d, cutoff, last);
    }
  }

  lemma {:induction false} AllLater(d: seq<Stamp>, cutoff: real, last: real)
    requires InOrder(d, last) && (d != [] ==> cutoff < d[0].0)
    ensures Weight(d) == WeightIn(d, cutoff, last)
  {
    if d != [] {
      TailInOrder(d, last);
      assert |d| > 1 ==> d[0].0 <= d[1].0;
      AllLater(d[1..], cutoff, last);
    }
  }

  // ---------- one deque under a limit ----------

  /** Offering weight w at time `now`: the old stamps go, and if the limit allows, the new one joins. */
  function Admits(d: seq<Stamp>, window: real, limit: int, now: real, w: nat): bool {
    Weight(DropOld(d, now - window)) + w <= limit
  }

  /** The deque d stands for the history h: it holds all of it that any later window can still see. */
  ghost predicate Tracks(d: seq<Stamp>, h: seq<Stamp>, window: real, last: real) {
    && InOrder(d, last) && InOrder(h, last)
    && forall lo :: last - window <= lo ==> WeightIn(d, lo, last) == WeightIn(h, lo, last)
  }

  ghost predicate Bounded(h: seq<Stamp>, window: real, limit: int) {
    forall t :: WindowWeight(h, window, t) <= limit
  }

  function WindowWeight(h: seq<Stamp>, window: real, t: real): nat {
    WeightIn(h, t - window, t)
  }

  lemma {:induction false} CheckKeepsTrack(d: seq<Stamp>, h: seq<Stamp>, window: real, last: real, now: real)
    requires window > 0.0 && last <= now && Tracks(d, h, window, last)
    ensures Tracks(DropOld(d, now - window), h, window, now)
    ensures Weight(DropOld(d, now - window)) == WeightIn(h, now - window, now)
  {
    var kept := DropOld(d, now - window);
    DropOldKeepsTheWindow(d, now - window, last);
    forall lo | now - window <= lo ensures WeightIn(kept, lo, now) == WeightIn(h, lo, now) {
      NothingLater(kept, last, lo, now);
      NothingLater(h, last, lo, now);
    }
    NothingLater(h, last, now - window, now);
  }

  lemma {:induction false} RecordKeepsTrack(d: seq<Stamp>, h: seq<Stamp>, added: seq<Stamp>, window: real, now: real)
    requires Tracks(d, h, window, now) && forall i :: 0 <= i < |added| ==> added[i].0 == now
    ensures Tracks(d + added, h + added, window, now)
  {
    forall lo | now - window <= lo ensures WeightIn(d + added, lo, now) == WeightIn(h + added, lo, now) {
      WeightOfConcat(d, added, lo, now);
      WeightOfConcat(h, added, lo, now);
    }
  }

  /** Adding what the limit admits keeps every window of the history, past and future, within the limit. */
  lemma {:induction false} AdmittedStaysBounded(h: seq<Stamp>, added: seq<Stamp>, window: real, limit: int, now: real)
    requires Bounded(h, window, limit) && InOrder(h, now) && window > 0.0
    requires forall i :: 0 <= i < |added| ==> added[i].0 == now
    requires WeightIn(h, now - window, now) + Weight(added) <= limit
    ensures Bounded(h + added, window, limit)
  {
    var longer := h + added;
    forall t ensures WindowWeight(longer, window, t) <= limit {
      WeightOfConcat(h, added, t - window, t);
      if t < now {
        NothingYet(added, now, t - window, t);
        assert WindowWeight(h, window, t) <= limit;
      } else {
        NothingLater(h, now, t - window, t);
        WiderWindow(h, t - window, now - window, now, now);
        WiderWindow(added, t - window, t - window, t, t);
      }
    }
  }

  lemma {:induction false} NothingYet(added: seq<Stamp>, now: real, lo: real, hi: real)
    requires hi < now && forall i :: 0 <= i < |added| ==> added[i].0 == now
    ensures WeightIn(added, lo, hi) == 0
  {
    if added != [] {
      assert added[0].0 == now;
      forall i | 0 <= i < |added[1..]| ensures added[1..][i].0 == now {
        assert added[1..][i] == added[i + 1];
      }
      NothingYet(added[1..], now, lo, hi);
    }
  }

  // ---------- the limiter ----------

  datatype TransportLimits = TransportLimits(maxMessages: int, maxBytes: int, window: real)

  datatype Gauge = Gauge(messages: seq<Stamp>, bytes: seq<Stamp>)

  const IDLE := Gauge([], [])

  function Ones(now: real, n: nat): (r: seq<Stamp>)
    ensures |r| == n && forall i :: 0 <= i < n ==> r[i] == (now, 1)
  {
    seq(n, _ => (now, 1))
  }

  function ByteStamp(now: real, n: nat): seq<Stamp> {
    if n == 0 then [] else [(now, n)]
  }

  function Dropped(lim: TransportLimits, g: Gauge, now: real): Gauge {
    Gauge(DropOld(g.messages, now - lim.window), DropOld(g.bytes, now - lim.window))
  }

  predicate WithinLimits(lim: TransportLimits, g: Gauge, messages: nat, bytes: nat, now: real) {
    && Admits(g.messages, lim.window, lim.maxMessages, now, messages)
    && Admits(g.bytes, lim.window, lim.maxBytes, now, bytes)
  }

  function Recorded(g: Gauge, messages: nat, bytes: nat, now: real): Gauge {
    Gauge(g.messages + Ones(now, messages), g.bytes + ByteStamp(now, bytes))
  }

  function Stamps(times: seq<real>): (r: seq<Stamp>)
    ensures |r| == |times|
  {
    seq(|times|, i requires 0 <= i < |times| => (times[i], 1))
  }

  lemma {:induction false} StampsWeigh(times: seq<real>)
    ensures Weight(Stamps(times)) == |times|
  {
    if times != [] {
      assert Stamps(times)[1..] == Stamps(times[1..]);
      StampsWeigh(times[1..]);
    }
  }

  class RateLimiter {
    const limits: TransportLimits
    var messageTimes: seq<real>
    var byteWindows: seq<Stamp>

    function View(): Gauge
      reads this
    {
      Gauge(Stamps(messageTimes), byteWindows)
    }

    constructor (limits: TransportLimits)
      ensures this.limits == limits && View() == IDLE
    {
      this.limits := limits;
      messageTimes, byteWindows := [], [];
    }

    /** Drops what is out of the window, then compares; dropping is the only change. */
    method Check(messages: nat, bytes: nat, now: real) returns (ok: bool)
      modifies this
      ensures View() == Dropped(limits, old(View()), now)
      ensures ok <==> WithinLimits(limits, old(View()), messages, bytes, now)
    {
      var cutoff := now - limits.window;
      while messageTimes != [] && messageTimes[0] <= cutoff
        invariant DropOld(Stamps(messageTimes), cutoff) == DropOld(old(Stamps(messageTimes)), cutoff)
        invariant byteWindows == old(byteWindows)
        decreases |messageTimes|
      {
        assert Stamps(messageTimes)[1..] == Stamps(messageTimes[1..]);
        messageTimes := messageTimes[1..];
      }
      while byteWindows != [] && byteWindows[0].0 <= cutoff
        invariant DropOld(byteWindows, cutoff) == DropOld(old(byteWindows), cutoff)
        invariant Stamps(messageTimes) == DropOld(old(Stamps(messageTimes)), cutoff)
        decreases |byteWindows|
      {
        byteWindows := byteWindows[1..];
      }
      StampsWeigh(messageTimes);
      if |messageTimes| + messages > limits.maxMessages {
        return false;
      }
      var total := SumBytes();
      return total + bytes <= limits.maxBytes;
    }

    method SumBytes() returns (total: nat)
      ensures total == Weight(byteWindows)
    {
      total := 0;
      assert byteWindows[0..] == byteWindows;
      for i := 0 to |byteWindows|
        invariant total + Weight(byteWindows[i..]) == Weight(byteWindows)
      {
        assert byteWindows[i..][1..] == byteWindows[i + 1..];
        total := total + byteWindows[i].1;
      }
    }

    method Record(messages: nat, bytes: nat, now: real)
      modifies this
      ensures View() == Recorded(old(View()), messages, bytes, now)
    {
      ghost var before := messageTimes;
      for i := 0 to messages
        invariant |messageTimes| == |before| + i
        invariant Stamps(messageTimes) == Stamps(before) + Ones(now, i)
        invariant byteWindows == old(byteWindows)
      {
        assert Stamps(messageTimes + [now]) == Stamps(messageTimes) + [(now, 1)];
        assert Ones(now, i + 1) == Ones(now, i) + [(now, 1)];
        messageTimes := messageTimes + [now];
      }
      if bytes != 0 {
        byteWindows := byteWindows + [(now, bytes)];
      }
    }
  }

  // ---------- traffic over a run ----------

  datatype Traffic = Traffic(time: real, messages: nat, bytes: nat)

  function Offered(lim: TransportLimits, g: Gauge, x: Traffic): Gauge {
    var kept := Dropped(lim, g, x.time);
    if WithinLimits(lim, g, x.messages, x.bytes, x.time) then Recorded(kept, x.messages, x.bytes, x.time) else kept
  }

  /** The gauge after a run of offers, and all messages and bytes let through so far. */
  function After(lim: TransportLimits, offers: seq<Traffic>): (Gauge, Gauge) {
    if offers == [] then (IDLE, IDLE)
    else
      var (g, passed) := After(lim, offers[..|offers| - 1]);
      var x := offers[|offers| - 1];
      (Offered(lim, g, x),
       if WithinLimits(lim, g, x.messages, x.bytes, x.time) then Recorded(passed, x.messages, x.bytes, x.time)
         else passed)
  }

  ghost predicate ClockRuns(offers: seq<Traffic>) {
    forall i, j :: 0 <= i < j < |offers| ==> NotLater(offers, i, j)
  }

  predicate NotLater(offers: seq<Traffic>, i: nat, j: nat)
    requires i < |offers| && j < |offers|
  {
    offers[i].time <= offers[j].time
  }

  ghost predicate Sound(lim: TransportLimits, g: Gauge, passed: Gauge, last: real) {
    && Tracks(g.messages, passed.messages, lim.window, last) && Bounded(passed.messages, lim.window, lim.maxMessages)
    && Tracks(g.bytes, passed.bytes, lim.window, last) && Bounded(passed.bytes, lim.window, lim.maxBytes)
  }

  lemma {:induction false} OfferKeepsSound(lim: TransportLimits, g: Gauge, passed: Gauge, last: real, x: Traffic)
    requires lim.window > 0.0 && last <= x.time && Sound(lim, g, passed, last)
    ensures Sound(lim, Offered(lim, g, x), if WithinLimits(lim, g, x.messages, x.bytes, x.time)
                                           then Recorded(passed, x.messages, x.bytes, x.time) else passed, x.time)
  {
    var ones, stamp := Ones(x.time, x.messages), ByteStamp(x.time, x.bytes);
    OnesWeigh(x.time, x.messages);
    StampWeighs(x.time, x.bytes);
    OneDeque(g.messages, passed.messages, ones, lim.window, lim.maxMessages, last, x.time);
    OneDeque(g.bytes, passed.bytes, stamp, lim.window, lim.maxBytes, last, x.time);
  }

  lemma {:induction false} OneDeque(d: seq<Stamp>, h: seq<Stamp>, added: seq<Stamp>, window: real, limit: int,
                                    last: real, now: real)
    requires window > 0.0 && last <= now && Tracks(d, h, window, last) && Bounded(h, window, limit)
    requires forall i :: 0 <= i < |added| ==> added[i].0 == now
    ensures var kept := DropOld(d, now - window);
            && Tracks(kept, h, window, now)
            && (Weight(kept) + Weight(added) <= limit
                ==> Tracks(kept + added, h + added, window, now) && Bounded(h + added, window, limit))
  {
    CheckKeepsTrack(d, h, window, last, now);
    var kept := DropOld(d, now - window);
    if Weight(kept) + Weight(added) <= limit {
      RecordKeepsTrack(kept, h, added, window, now);
      AdmittedStaysBounded(h, added, window, limit, now);
    }
  }

  lemma {:induction false} StampWeighs(now: real, n: nat)
    ensures Weight(ByteStamp(now, n)) == n && forall i :: 0 <= i < |ByteStamp(now, n)| ==> ByteStamp(now, n)[i].0 == now
  {
    if n > 0 {
      assert ByteStamp(now, n)[1..] == [];
    }
  }

  lemma {:induction false} OnesWeigh(now: real, n: nat)
    ensures Weight(Ones(now, n)) == n
  {
    if n > 0 {
      assert Ones(now, n)[1..] == Ones(now, n - 1);
      OnesWeigh(now, n - 1);
    }
  }

  // ---------- the traffic itself ----------

  /** The offer at the end of this run is let through. */
  predicate LetThrough(lim: TransportLimits, offers: seq<Traffic>)
    requires offers != []
  {
    var x := offers[|offers| - 1];
    WithinLimits(lim, After(lim, offers[..|offers| - 1]).0, x.messages, x.bytes, x.time)
  }

  /** All messages of the offers let through later than lo and not later than hi. */
  function MessagesIn(lim: TransportLimits, offers: seq<Traffic>, lo: real, hi: real): nat {
    if offers == [] then 0
    else
      var x := offers[|offers| - 1];
      MessagesIn(lim, offers[..|offers| - 1], lo, hi)
        + if LetThrough(lim, offers) && lo < x.time <= hi then x.messages else 0
  }

  /** And all their bytes. */
  function BytesIn(lim: TransportLimits, offers: seq<Traffic>, lo: real, hi: real): nat {
    if offers == [] then 0
    else
      var x := offers[|offers| - 1];
      BytesIn(lim, offers[..|offers| - 1], lo, hi)
        + if LetThrough(lim, offers) && lo < x.time <= hi then x.bytes else 0
  }

  lemma {:induction false} AllAtOnce(d: seq<Stamp>, now: real, lo: real, hi: real)
    requires forall i :: 0 <= i < |d| ==> d[i].0 == now
    ensures WeightIn(d, lo, hi) == if lo < now <= hi then Weight(d) else 0
  {
    if d != [] {
      assert d[0].0 == now;
      forall i | 0 <= i < |d[1..]| ensures d[1..][i].0 == now {
        assert d[1..][i] == d[i + 1];
      }
      AllAtOnce(d[1..], now, lo, hi);
    }
  }

  lemma {:induction false} HistoryIsTraffic(lim: TransportLimits, offers: seq<Traffic>, lo: real, hi: real)
    ensures WeightIn(After(lim, offers).1.messages, lo, hi) == MessagesIn(lim, offers, lo, hi)
    ensures WeightIn(After(lim, offers).1.bytes, lo, hi) == BytesIn(lim, offers, lo, hi)
    decreases |offers|
  {
    if offers != [] {
      var before, x := offers[..|offers| - 1], offers[|offers| - 1];
      HistoryIsTraffic(lim, before, lo, hi);
      var passed := After(lim, before).1;
      RecordedWeighs(passed, x, lo, hi);
    }
  }

  lemma {:induction false} RecordedWeighs(g: Gauge, x: Traffic, lo: real, hi: real)
    ensures var r := Recorded(g, x.messages, x.bytes, x.time);
            && WeightIn(r.messages, lo, hi)
               == WeightIn(g.messages, lo, hi) + (if lo < x.time <= hi then x.messages else 0)
            && WeightIn(r.bytes, lo, hi) == WeightIn(g.bytes, lo, hi) + (if lo < x.time <= hi then x.bytes else 0)
  {
    var ones, stamp := Ones(x.time, x.messages), ByteStamp(x.time, x.bytes);
    OnesWeigh(x.time, x.messages);
    StampWeighs(x.time, x.bytes);
    WeightOfConcat(g.messages, ones, lo, hi);
    WeightOfConcat(g.bytes, stamp, lo, hi);
    AllAtOnce(ones, x.time, lo, hi);
    AllAtOnce(stamp, x.time, lo, hi);
  }

  /** With a clock that never goes back, no window of the configured length ever lets more than the limits through. */
  lemma {:induction false} EveryWindowIsBounded(lim: TransportLimits, offers: seq<Traffic>, t: real)
    requires lim.window > 0.0 && lim.maxMessages >= 0 && lim.maxBytes >= 0 && ClockRuns(offers)
    ensures MessagesIn(lim, offers, t - lim.window, t) <= lim.maxMessages
    ensures BytesIn(lim, offers, t - lim.window, t) <= lim.maxBytes
  {
    WindowIsBounded(lim, offers, t - lim.window, t);
  }

  lemma {:induction false} WindowIsBounded(lim: TransportLimits, offers: seq<Traffic>, lo: real, t: real)
    requires lim.window > 0.0 && lim.maxMessages >= 0 && lim.maxBytes >= 0 && ClockRuns(offers) && lo == t - lim.window
    ensures MessagesIn(lim, offers, lo, t) <= lim.maxMessages && BytesIn(lim, offers, lo, t) <= lim.maxBytes
  {
    HistoryIsBounded(lim, offers, lo, t);
    HistoryIsTraffic(lim, offers, lo, t);
  }

  lemma {:induction false} HistoryIsBounded(lim: TransportLimits, offers: seq<Traffic>, lo: real, t: real)
    requires lim.window > 0.0 && lim.maxMessages >= 0 && lim.maxBytes >= 0 && ClockRuns(offers) && lo == t - lim.window
    ensures WeightIn(After(lim, offers).1.messages, lo, t) <= lim.maxMessages
    ensures WeightIn(After(lim, offers).1.bytes, lo, t) <= lim.maxBytes
  {
    var passed := After(lim, offers).1;
    RunStaysSound(lim, offers);
    if offers != [] {
      assert WindowWeight(passed.messages, lim.window, t) <= lim.maxMessages;
      assert WindowWeight(passed.bytes, lim.window, t) <= lim.maxBytes;
    } else {
      IdleIsSound(lim, t);
      assert WindowWeight(IDLE.messages, lim.window, t) <= lim.maxMessages;
      assert WindowWeight(IDLE.bytes, lim.window, t) <= lim.maxBytes;
    }
  }

  /**
   The check refuses only what does not fit: its answer compares the traffic let through in the last window
   with the limits.
   */
  lemma {:induction false} AdmitsExactlyWhatFits(lim: TransportLimits, offers: seq<Traffic>, x: Traffic)
    requires lim.window > 0.0 && lim.maxMessages >= 0 && lim.maxBytes >= 0 && ClockRuns(offers + [x])
    ensures LetThrough(lim, offers + [x])
            <==> && MessagesIn(lim, offers, x.time - lim.window, x.time) + x.messages <= lim.maxMessages
                 && BytesIn(lim, offers, x.time - lim.window, x.time) + x.bytes <= lim.maxBytes
  {
    assert (offers + [x])[..|offers + [x]| - 1] == offers;
    HistoryIsTraffic(lim, offers, x.time - lim.window, x.time);
    GaugeAnswers(lim, offers, x);
  }

  lemma {:induction false} GaugeAnswers(lim: TransportLimits, offers: seq<Traffic>, x: Traffic)
    requires lim.window > 0.0 && lim.maxMessages >= 0 && lim.maxBytes >= 0 && ClockRuns(offers + [x])
    ensures var (g, passed) := After(lim, offers);
            WithinLimits(lim, g, x.messages, x.bytes, x.time)
            <==> && WeightIn(passed.messages, x.time - lim.window, x.time) + x.messages <= lim.maxMessages
                 && WeightIn(passed.bytes, x.time - lim.window, x.time) + x.bytes <= lim.maxBytes
  {
    var (g, passed) := After(lim, offers);
    ClockRan(offers, x);
    RunStaysSound(lim, offers);
    var last := if offers == [] then x.time else offers[|offers| - 1].time;
    if offers == [] {
      IdleIsSound(lim, last);
    }
    CheckKeepsTrack(g.messages, passed.messages, lim.window, last, x.time);
    CheckKeepsTrack(g.bytes, passed.bytes, lim.window, last, x.time);
  }

  lemma {:induction false} ClockRan(offers: seq<Traffic>, x: Traffic)
    requires ClockRuns(offers + [x])
    ensures ClockRuns(offers) && (offers != [] ==> offers[|offers| - 1].time <= x.time)
  {
    var all := offers + [x];
    forall i, j | 0 <= i < j < |offers| ensures NotLater(offers, i, j) {
      assert NotLater(all, i, j);
    }
    if offers != [] {
      assert NotLater(all, |offers| - 1, |offers|);
    }
  }

  lemma {:induction false} RunStaysSound(lim: TransportLimits, offers: seq<Traffic>)
    requires lim.window > 0.0 && lim.maxMessages >= 0 && lim.maxBytes >= 0 && ClockRuns(offers)
    ensures offers != [] ==> Sound(lim, After(lim, offers).0, After(lim, offers).1, offers[|offers| - 1].time)
    decreases |offers|
  {
    if offers != [] {
      var before, x := offers[..|offers| - 1], offers[|offers| - 1];
      assert before + [x] == offers;
      ClockRan(before, x);
      RunStaysSound(lim, before);
      var (g, passed) := After(lim, before);
      if before == [] {
        IdleIsSound(lim, x.time);
        OfferKeepsSound(lim, g, passed, x.time, x);
      } else {
        OfferKeepsSound(lim, g, passed, before[|before| - 1].time, x);
      }
    }
  }

  lemma {:induction false} IdleIsSound(lim: TransportLimits, last: real)
    requires lim.maxMessages >= 0 && lim.maxBytes >= 0
    ensures Sound(lim, IDLE, IDLE, last)
  {
    forall t ensures WindowWeight([], lim.window, t) == 0 {
      assert WeightIn([], t - lim.window, t) == 0;
    }
  }

  // ---------- any calls ----------

  /** Callers need not record what was checked, nor check what they record. */
  datatype Call = Checks(x: Traffic) | Records(x: Traffic)

  function AfterCall(lim: TransportLimits, g: Gauge, c: Call): Gauge {
    match c
    case Checks(x) => Dropped(lim, g, x.time)
    case Records(x) => Recorded(g, x.messages, x.bytes, x.time)
  }

  function AfterCalls(lim: TransportLimits, calls: seq<Call>): Gauge {
    if calls == [] then IDLE else AfterCall(lim, AfterCalls(lim, calls[..|calls| - 1]), calls[|calls| - 1])
  }

  /** The messages recorded later than lo and not later than hi. */
  function MessagesRecorded(calls: seq<Call>, lo: real, hi: real): nat {
    if calls == [] then 0
    else
      var c := calls[|calls| - 1];
      MessagesRecorded(calls[..|calls| - 1], lo, hi) + if c.Records? && lo < c.x.time <= hi then c.x.messages else 0
  }

  function BytesRecorded(calls: seq<Call>, lo: real, hi: real): nat {
    if calls == [] then 0
    else
      var c := calls[|calls| - 1];
      BytesRecorded(calls[..|calls| - 1], lo, hi) + if c.Records? && lo < c.x.time <= hi then c.x.bytes else 0
  }

  ghost predicate CallsInTime(calls: seq<Call>, now: real) {
    && (forall i, j :: 0 <= i < j < |calls| ==> calls[i].x.time <= calls[j].x.time)
    && (forall i :: 0 <= i < |calls| ==> calls[i].x.time <= now)
  }

  /** Everything recorded, never dropped. */
  function AllRecorded(calls: seq<Call>): Gauge {
    if calls == [] then IDLE
    else
      var g, c := AllRecorded(calls[..|calls| - 1]), calls[|calls| - 1];
      if c.Records? then Recorded(g, c.x.messages, c.x.bytes, c.x.time) else g
  }

  lemma {:induction false} AllRecordedWeighs(calls: seq<Call>, lo: real, hi: real)
    ensures WeightIn(AllRecorded(calls).messages, lo, hi) == MessagesRecorded(calls, lo, hi)
    ensures WeightIn(AllRecorded(calls).bytes, lo, hi) == BytesRecorded(calls, lo, hi)
    decreases |calls|
  {
    if calls != [] {
      AllRecordedWeighs(calls[..|calls| - 1], lo, hi);
      RecordedWeighs(AllRecorded(calls[..|calls| - 1]), calls[|calls| - 1].x, lo, hi);
    }
  }

  ghost predicate GaugeTracks(lim: TransportLimits, g: Gauge, h: Gauge, last: real) {
    Tracks(g.messages, h.messages, lim.window, last) && Tracks(g.bytes, h.bytes, lim.window, last)
  }

  lemma {:induction false} LaterTracks(lim: TransportLimits, g: Gauge, h: Gauge, last: real, now: real)
    requires lim.window > 0.0 && last <= now && GaugeTracks(lim, g, h, last)
    ensures GaugeTracks(lim, g, h, now)
  {
    LaterTracksOne(g.messages, h.messages, lim.window, last, now);
    LaterTracksOne(g.bytes, h.bytes, lim.window, last, now);
  }

  lemma {:induction false} LaterTracksOne(d: seq<Stamp>, h: seq<Stamp>, window: real, last: real, now: real)
    requires last <= now && Tracks(d, h, window, last)
    ensures Tracks(d, h, window, now)
  {
    forall lo | now - window <= lo ensures WeightIn(d, lo, now) == WeightIn(h, lo, now) {
      NothingLater(d, last, lo, now);
      NothingLater(h, last, lo, now);
    }
  }

  lemma {:induction false} CallsTrack(lim: TransportLimits, calls: seq<Call>, now: real)
    requires lim.window > 0.0 && CallsInTime(calls, now)
    ensures GaugeTracks(lim, AfterCalls(lim, calls), AllRecorded(calls), now)
    decreases |calls|
  {
    if calls != [] {
      var before, c := calls[..|calls| - 1], calls[|calls| - 1];
      CallsTrack(lim, before, c.x.time);
      OneCallTracks(lim, AfterCalls(lim, before), AllRecorded(before), c);
      LaterTracks(lim, AfterCalls(lim, calls), AllRecorded(calls), c.x.time, now);
    }
  }

  lemma {:induction false} OneCallTracks(lim: TransportLimits, g: Gauge, h: Gauge, c: Call)
    requires lim.window > 0.0 && GaugeTracks(lim, g, h, c.x.time)
    ensures var x := c.x;
            GaugeTracks(lim, AfterCall(lim, g, c), if c.Records? then Recorded(h, x.messages, x.bytes, x.time)
                        else h, x.time)
  {
    var x := c.x;
    if c.Records? {
      StampWeighs(x.time, x.bytes);
      RecordKeepsTrack(g.messages, h.messages, Ones(x.time, x.messages), lim.window, x.time);
      RecordKeepsTrack(g.bytes, h.bytes, ByteStamp(x.time, x.bytes), lim.window, x.time);
    } else {
      CheckKeepsTrack(g.messages, h.messages, lim.window, x.time, x.time);
      CheckKeepsTrack(g.bytes, h.bytes, lim.window, x.time, x.time);
    }
  }

  /**
   After any checks and records in order of time, the answer compares what was recorded in the last window
   with the limits.
   */
  lemma {:induction false} CheckCountsTheWindow(lim: TransportLimits, calls: seq<Call>, x: Traffic)
    requires lim.window > 0.0 && CallsInTime(calls, x.time)
    ensures WithinLimits(lim, AfterCalls(lim, calls), x.messages, x.bytes, x.time)
            <==> && MessagesRecorded(calls, x.time - lim.window, x.time) + x.messages <= lim.maxMessages
                 && BytesRecorded(calls, x.time - lim.window, x.time) + x.bytes <= lim.maxBytes
  {
    var g, h := AfterCalls(lim, calls), AllRecorded(calls);
    CallsTrack(lim, calls, x.time);
    CheckKeepsTrack(g.messages, h.messages, lim.window, x.time, x.time);
    CheckKeepsTrack(g.bytes, h.bytes, lim.window, x.time, x.time);
    AllRecordedWeighs(calls, x.time - lim.window, x.time);
  }

  // ---------- token bucket ----------

  datatype Bucket = Bucket(rate: real, capacity: real, tokens: real, last: real)

  /** A vessel of the given capacity after an inflow. */
  function Poured(tokens: real, capacity: real, inflow: real): real {
    if capacity < tokens + inflow then capacity else tokens + inflow
  }

  function Refilled(b: Bucket, now: real): Bucket {
    b.(tokens := Poured(b.tokens, b.capacity, b.rate * (now - b.last)), last := now)
  }

  class TokenBucket {
    const rate: real
    const capacity: real
    var tokens: real
    var last: real

    function View(): Bucket
      reads this
    {
      Bucket(rate, capacity, tokens, last)
    }

    constructor (rate: real, capacity: real, now: real)
      ensures View() == Bucket(rate, capacity, capacity, now)
    {
      this.rate, this.capacity := rate, capacity;
      tokens, last := capacity, now;
    }

    method Consume(amount: real, now: real) returns (granted: bool)
      modifies this`tokens, this`last
      ensures granted <==> amount <= Refilled(old(View()), now).tokens
      ensures View() == Consumed(old(View()), amount, now)
    {
      var elapsed := now - last;
      last := now;
      var more := tokens + rate * elapsed;
      tokens := if capacity < more then capacity else more;
      if tokens < amount {
        return false;
      }
      tokens := tokens - amount;
      return true;
    }
  }

  function Consumed(b: Bucket, amount: real, now: real): Bucket {
    var r := Refilled(b, now);
    if amount <= r.tokens then r.(tokens := r.tokens - amount) else r
  }

  datatype Request = Request(time: real, amount: real)

  /** How much a run of requests is granted in all. */
  function Granted(b: Bucket, requests: seq<Request>): real
    decreases |requests|
  {
    if requests == [] then 0.0
    else
      var x := requests[0];
      (if x.amount <= Refilled(b, x.time).tokens then x.amount else 0.0)
        + Granted(Consumed(b, x.amount, x.time), requests[1..])
  }

  function AfterRequests(b: Bucket, requests: seq<Request>): Bucket
    decreases |requests|
  {
    if requests == [] then b else AfterRequests(Consumed(b, requests[0].amount, requests[0].time), requests[1..])
  }

  /** Times never go back, from `last` on; amounts are not negative. */
  ghost predicate InTime(last: real, requests: seq<Request>) {
    && (forall i, j :: 0 <= i < j < |requests| ==> requests[i].time <= requests[j].time)
    && (forall i :: 0 <= i < |requests| ==> last <= requests[i].time && requests[i].amount >= 0.0)
  }

  predicate Full(b: Bucket) {
    b.rate >= 0.0 && 0.0 <= b.tokens <= b.capacity
  }

  lemma {:induction false} FlowIsNonNegative(rate: real, elapsed: real)
    requires rate >= 0.0 && elapsed >= 0.0
    ensures rate * elapsed >= 0.0
  {
  }

  lemma {:induction false} Distribute(x: real, a: real, b: real)
    ensures x * (a + b) == x * a + x * b
  {
  }

  lemma {:induction false} FlowsAddUp(rate: real, a: real, b: real, c: real)
    ensures rate * (b - a) + rate * (c - b) == rate * (c - a)
  {
    Distribute(rate, b - a, c - b);
    assert (b - a) + (c - b) == c - a;
  }

  // A run seen by its inflows alone, where the bound is linear.

  datatype Draw = Draw(inflow: real, amount: real)

  function Drawn(held: real, amount: real): real {
    if amount <= held then held - amount else held
  }

  function DrawnInAll(tokens: real, capacity: real, draws: seq<Draw>): real
    decreases |draws|
  {
    if draws == [] then 0.0
    else
      var held := Poured(tokens, capacity, draws[0].inflow);
      (if draws[0].amount <= held then draws[0].amount else 0.0)
        + DrawnInAll(Drawn(held, draws[0].amount), capacity, draws[1..])
  }

  function TotalInflow(draws: seq<Draw>): real {
    if draws == [] then 0.0 else draws[0].inflow + TotalInflow(draws[1..])
  }

  lemma {:induction false} DrawsArePaidFor(tokens: real, capacity: real, draws: seq<Draw>)
    requires 0.0 <= tokens <= capacity
             && forall i :: 0 <= i < |draws| ==> draws[i].inflow >= 0.0 && draws[i].amount >= 0.0
    ensures DrawnInAll(tokens, capacity, draws) <= tokens + TotalInflow(draws)
    decreases |draws|
  {
    if draws != [] {
      var held := Poured(tokens, capacity, draws[0].inflow);
      forall i | 0 <= i < |draws[1..]| ensures draws[1..][i].inflow >= 0.0 && draws[1..][i].amount >= 0.0 {
        assert draws[1..][i] == draws[i + 1];
      }
      DrawsArePaidFor(Drawn(held, draws[0].amount), capacity, draws[1..]);
    }
  }

  function Draws(rate: real, last: real, requests: seq<Request>): (r: seq<Draw>)
    ensures |r| == |requests|
    decreases |requests|
  {
    if requests == [] then []
    else [FirstDraw(rate, last, requests[0])] + Draws(rate, requests[0].time, requests[1..])
  }

  function FirstDraw(rate: real, last: real, x: Request): Draw {
    Draw(rate * (x.time - last), x.amount)
  }

  lemma {:induction false} RequestIsDraw(b: Bucket, x: Request)
    ensures var held, next := Poured(b.tokens, b.capacity, FirstDraw(b.rate, b.last, x).inflow),
            Consumed(b, x.amount, x.time);
            && Refilled(b, x.time).tokens == held && next.tokens == Drawn(held, x.amount)
            && next.capacity == b.capacity && next.rate == b.rate && next.last == x.time
  {
    var flow := b.rate * (x.time - b.last);
    assert FirstDraw(b.rate, b.last, x).inflow == flow;
    assert Refilled(b, x.time).tokens == Poured(b.tokens, b.capacity, flow);
  }

  lemma {:induction false} FirstThenDraws(tokens: real, capacity: real, first: Draw, more: seq<Draw>)
    ensures var held := Poured(tokens, capacity, first.inflow);
            DrawnInAll(tokens, capacity, [first] + more)
            == (if first.amount <= held then first.amount else 0.0)
              + DrawnInAll(Drawn(held, first.amount), capacity, more)
  {
    assert ([first] + more)[1..] == more;
  }

  lemma {:induction false} GrantsAreDraws(b: Bucket, requests: seq<Request>)
    ensures Granted(b, requests) == DrawnInAll(b.tokens, b.capacity, Draws(b.rate, b.last, requests))
    decreases |requests|
  {
    if requests != [] {
      var x := requests[0];
      RequestIsDraw(b, x);
      GrantsAreDraws(Consumed(b, x.amount, x.time), requests[1..]);
      FirstThenDraws(b.tokens, b.capacity, FirstDraw(b.rate, b.last, x), Draws(b.rate, x.time, requests[1..]));
    }
  }

  lemma {:induction false} InflowsAddUp(rate: real, last: real, requests: seq<Request>)
    requires requests != []
    ensures TotalInflow(Draws(rate, last, requests)) == rate * (requests[|requests| - 1].time - last)
    decreases |requests|
  {
    var x, rest := requests[0], requests[1..];
    assert Draws(rate, last, requests)[1..] == Draws(rate, x.time, rest);
    if rest != [] {
      InflowsAddUp(rate, x.time, rest);
      FlowsAddUp(rate, last, x.time, requests[|requests| - 1].time);
    }
  }

  lemma {:induction false} DrawsAreNonNegative(rate: real, last: real, requests: seq<Request>)
    requires rate >= 0.0 && InTime(last, requests)
    ensures forall i ::
              0 <= i < |requests|
              ==> Draws(rate, last, requests)[i].inflow >= 0.0 && Draws(rate, last, requests)[i].amount >= 0.0
    decreases |requests|
  {
    if requests != [] {
      FlowIsNonNegative(rate, requests[0].time - last);
      RestInTime(last, requests);
      DrawsAreNonNegative(rate, requests[0].time, requests[1..]);
      var all, more := Draws(rate, last, requests), Draws(rate, requests[0].time, requests[1..]);
      assert all == [FirstDraw(rate, last, requests[0])] + more;
      forall i | 0 <= i < |requests| ensures all[i].inflow >= 0.0 && all[i].amount >= 0.0 {
        assert i > 0 ==> all[i] == more[i - 1];
      }
    }
  }

  lemma {:induction false} RestInTime(last: real, requests: seq<Request>)
    requires requests != [] && InTime(last, requests)
    ensures InTime(requests[0].time, requests[1..])
  {
    var rest := requests[1..];
    forall i, j | 0 <= i < j < |rest| ensures rest[i].time <= rest[j].time {
      assert rest[i] == requests[i + 1] && rest[j] == requests[j + 1];
    }
    forall i | 0 <= i < |rest| ensures requests[0].time <= rest[i].time && rest[i].amount >= 0.0 {
      assert rest[i] == requests[i + 1];
    }
  }

  lemma {:induction false} StretchInTime(last: real, requests: seq<Request>, i: nat, j: nat)
    requires InTime(last, requests) && i < j <= |requests|
    ensures InTime(requests[i].time, requests[i..j])
  {
    var stretch := requests[i..j];
    forall k, l | 0 <= k < l < |stretch| ensures stretch[k].time <= stretch[l].time {
      assert stretch[k] == requests[i + k] && stretch[l] == requests[i + l];
    }
    forall k | 0 <= k < |stretch| ensures requests[i].time <= stretch[k].time && stretch[k].amount >= 0.0 {
      assert stretch[k] == requests[i + k];
    }
  }

  /** A bucket stays within its bounds and never gives what it does not hold. */
  lemma {:induction false} BucketStaysFull(b: Bucket, requests: seq<Request>)
    requires Full(b) && InTime(b.last, requests)
    ensures var after := AfterRequests(b, requests);
            && Full(after) && after.rate == b.rate && after.capacity == b.capacity
            && after.last == if requests == [] then b.last else requests[|requests| - 1].time
    decreases |requests|
  {
    if requests != [] {
      var x := requests[0];
      FlowIsNonNegative(b.rate, x.time - b.last);
      RestInTime(b.last, requests);
      BucketStaysFull(Consumed(b, x.amount, x.time), requests[1..]);
    }
  }

  lemma {:induction false} StretchOfDraws(tokens: real, capacity: real, first: Draw, more: seq<Draw>)
    requires 0.0 <= tokens <= capacity && first.inflow >= 0.0 && first.amount >= 0.0
    requires forall i :: 0 <= i < |more| ==> more[i].inflow >= 0.0 && more[i].amount >= 0.0
    ensures DrawnInAll(tokens, capacity, [first] + more) <= capacity + TotalInflow(more)
  {
    var held := Poured(tokens, capacity, first.inflow);
    assert ([first] + more)[1..] == more;
    DrawsArePaidFor(Drawn(held, first.amount), capacity, more);
  }

  function Elapsed(stretch: seq<Request>): real
    requires stretch != []
  {
    stretch[|stretch| - 1].time - stretch[0].time
  }

  lemma {:induction false} StretchInDraws(b: Bucket, stretch: seq<Request>)
    requires Full(b) && stretch != [] && InTime(stretch[0].time, stretch) && b.last <= stretch[0].time
    ensures Granted(b, stretch) <= b.capacity + TotalInflow(Draws(b.rate, stretch[0].time, stretch[1..]))
  {
    var first, more := FirstDraw(b.rate, b.last, stretch[0]), Draws(b.rate, stretch[0].time, stretch[1..]);
    GrantsAreDraws(b, stretch);
    assert Draws(b.rate, b.last, stretch) == [first] + more;
    FirstIsNonNegative(b, stretch);
    RestInTime(stretch[0].time, stretch);
    DrawsAreNonNegative(b.rate, stretch[0].time, stretch[1..]);
    StretchOfDraws(b.tokens, b.capacity, first, more);
  }

  lemma {:induction false} FirstIsNonNegative(b: Bucket, stretch: seq<Request>)
    requires Full(b) && stretch != [] && InTime(stretch[0].time, stretch) && b.last <= stretch[0].time
    ensures FirstDraw(b.rate, b.last, stretch[0]).inflow >= 0.0 && FirstDraw(b.rate, b.last, stretch[0]).amount >= 0.0
  {
    FlowIsNonNegative(b.rate, stretch[0].time - b.last);
  }

  /** The first request of a stretch finds at most the capacity, whatever came before. */
  lemma {:induction false} StretchIsBounded(b: Bucket, stretch: seq<Request>)
    requires Full(b) && stretch != [] && InTime(stretch[0].time, stretch) && b.last <= stretch[0].time
    ensures Granted(b, stretch) <= b.capacity + b.rate * Elapsed(stretch)
  {
    StretchInDraws(b, stretch);
    RestFlows(b.rate, stretch);
  }

  lemma {:induction false} RestFlows(rate: real, stretch: seq<Request>)
    requires stretch != []
    ensures TotalInflow(Draws(rate, stretch[0].time, stretch[1..])) == rate * Elapsed(stretch)
  {
    if |stretch| > 1 {
      InflowsAddUp(rate, stretch[0].time, stretch[1..]);
    } else {
      assert Elapsed(stretch) == 0.0;
    }
  }

  /** Over any stretch of a run the grants stay within capacity plus rate times the time the stretch takes. */
  lemma {:induction false} GrantsAreBounded(b: Bucket, requests: seq<Request>, i: nat, j: nat)
    requires Full(b) && InTime(b.last, requests) && i < j <= |requests|
    ensures Granted(AfterRequests(b, requests[..i]), requests[i..j]) <= b.capacity + b.rate * Elapsed(requests[i..j])
  {
    PrefixInTime(b.last, requests, i);
    BucketStaysFull(b, requests[..i]);
    StretchInTime(b.last, requests, i, j);
    StretchIsBounded(AfterRequests(b, requests[..i]), requests[i..j]);
  }

  lemma {:induction false} PrefixInTime(last: real, requests: seq<Request>, i: nat)
    requires InTime(last, requests) && i < |requests|
    ensures InTime(last, requests[..i]) && last <= requests[i].time
            && (i > 0 ==> requests[..i][i - 1].time <= requests[i].time)
  {
    forall k | 0 <= k < i ensures last <= requests[..i][k].time && requests[..i][k].amount >= 0.0 {
      assert requests[..i][k] == requests[k];
    }
  }
  // ---------- exactly what is granted ----------

  /** What Consume answers to request k of a run. */
  predicate GrantedAt(b: Bucket, requests: seq<Request>, k: nat)
    requires k < |requests|
  {
    requests[k].amount <= Refilled(AfterRequests(b, requests[..k]), requests[k].time).tokens
  }

  /** What the requests from i on and before k were granted. */
  function Paid(b: Bucket, requests: seq<Request>, i: nat, k: nat): real
    requires i <= k <= |requests|
    decreases k
  {
    if i == k then 0.0
    else Paid(b, requests, i, k - 1) + if GrantedAt(b, requests, k - 1) then requests[k - 1].amount else 0.0
  }

  /**
   A bound on what is left for request j: 0 counts from the start of the run, i from request i - 1, when the
   bucket held at most its capacity.
   */
  function Left(b: Bucket, requests: seq<Request>, i: nat, j: nat): real
    requires i <= j + 1 && j < |requests|
  {
    if i == 0 then b.tokens + b.rate * (requests[j].time - b.last) - Paid(b, requests, 0, j)
    else b.capacity + b.rate * (requests[j].time - requests[i - 1].time) - Paid(b, requests, i - 1, j)
  }

  ghost predicate LeastLeft(b: Bucket, requests: seq<Request>, j: nat, x: real)
    requires j < |requests|
  {
    && (forall i :: 0 <= i <= j + 1 ==> AtMostLeft(b, requests, i, j, x))
    && (exists i :: 0 <= i <= j + 1 && x == Left(b, requests, i, j))
  }

  predicate AtMostLeft(b: Bucket, requests: seq<Request>, i: nat, j: nat, x: real)
    requires i <= j + 1 && j < |requests|
  {
    x <= Left(b, requests, i, j)
  }

  lemma {:induction false} AfterOneMore(b: Bucket, requests: seq<Request>, k: nat)
    requires k < |requests|
    ensures AfterRequests(b, requests[..k + 1])
            == Consumed(AfterRequests(b, requests[..k]), requests[k].amount, requests[k].time)
    decreases |requests|
  {
    var x := requests[0];
    if k == 0 {
      assert requests[..1][1..] == [] && requests[..0] == [];
    } else {
      assert requests[..k + 1][1..] == requests[1..][..k] && requests[..k][1..] == requests[1..][..k - 1];
      AfterOneMore(Consumed(b, x.amount, x.time), requests[1..], k - 1);
    }
  }

  lemma {:induction false} LeftLater(b: Bucket, requests: seq<Request>, i: nat, j: nat)
    requires i <= j + 1 && j + 1 < |requests|
    ensures Left(b, requests, i, j + 1)
            == Left(b, requests, i, j) - (if GrantedAt(b, requests, j) then requests[j].amount else 0.0)
               + b.rate * (requests[j + 1].time - requests[j].time)
  {
    FlowsAddUp(b.rate, if i == 0 then b.last else requests[i - 1].time, requests[j].time, requests[j + 1].time);
  }

  lemma {:induction false} LeftNow(b: Bucket, requests: seq<Request>, j: nat)
    requires j < |requests|
    ensures Left(b, requests, j + 1, j) == b.capacity
  {
    assert b.rate * (requests[j].time - requests[j].time) == 0.0;
  }

  /** What the bucket holds when request j comes. */
  function Held(b: Bucket, requests: seq<Request>, j: nat): real
    requires j < |requests|
  {
    Refilled(AfterRequests(b, requests[..j]), requests[j].time).tokens
  }

  lemma {:induction false} SameBucket(b: Bucket, requests: seq<Request>, j: nat)
    requires j < |requests|
    ensures var a := AfterRequests(b, requests[..j + 1]);
            a.rate == b.rate && a.capacity == b.capacity && a.last == requests[j].time
  {
    AfterOneMore(b, requests, j);
    if j > 0 {
      SameBucket(b, requests, j - 1);
    } else {
      assert requests[..0] == [];
    }
  }

  lemma {:induction false} HeldLater(b: Bucket, requests: seq<Request>, j: nat)
    requires j + 1 < |requests|
    ensures var rest := Held(b, requests, j) - (if GrantedAt(b, requests, j) then requests[j].amount else 0.0);
            Held(b, requests, j + 1)
            == Poured(rest, b.capacity, b.rate * (requests[j + 1].time - requests[j].time))
  {
    AfterOneMore(b, requests, j);
    SameBucket(b, requests, j);
  }

  lemma {:induction false} HeldIsLeastLeft(b: Bucket, requests: seq<Request>, j: nat)
    requires j < |requests|
    ensures LeastLeft(b, requests, j, Held(b, requests, j))
  {
    if j == 0 {
      FirstLeft(b, requests);
    } else {
      HeldIsLeastLeft(b, requests, j - 1);
      HeldStaysLeast(b, requests, j - 1);
    }
  }

  lemma {:induction false} HeldStaysLeast(b: Bucket, requests: seq<Request>, j: nat)
    requires j + 1 < |requests| && LeastLeft(b, requests, j, Held(b, requests, j))
    ensures LeastLeft(b, requests, j + 1, Held(b, requests, j + 1))
  {
    HeldLater(b, requests, j);
    LeastLeftLater(b, requests, j, Held(b, requests, j), Held(b, requests, j + 1));
  }

  lemma {:induction false} FirstLeft(b: Bucket, requests: seq<Request>)
    requires requests != []
    ensures LeastLeft(b, requests, 0, Held(b, requests, 0))
  {
    var x := Held(b, requests, 0);
    assert requests[..0] == [];
    var flow := b.rate * (requests[0].time - b.last);
    LeftNow(b, requests, 0);
    assert Left(b, requests, 0, 0) == b.tokens + flow && Left(b, requests, 1, 0) == b.capacity;
    assert x == Left(b, requests, 0, 0) || x == Left(b, requests, 1, 0);
    assert AtMostLeft(b, requests, 0, 0, x) && AtMostLeft(b, requests, 1, 0, x);
  }

  lemma {:induction false} LeastLeftLater(b: Bucket, requests: seq<Request>, j: nat, held: real, next: real)
    requires j + 1 < |requests| && LeastLeft(b, requests, j, held)
    requires next == Poured(held - (if GrantedAt(b, requests, j) then requests[j].amount else 0.0), b.capacity,
                            b.rate * (requests[j + 1].time - requests[j].time))
    ensures LeastLeft(b, requests, j + 1, next)
  {
    LeftNow(b, requests, j + 1);
    var k := j + 1;
    forall i | 0 <= i <= k + 1 ensures AtMostLeft(b, requests, i, k, next) {
      if i <= k {
        assert AtMostLeft(b, requests, i, j, held);
        LeftLater(b, requests, i, j);
      }
    }
    if next == b.capacity {
      assert next == Left(b, requests, j + 2, j + 1);
    } else {
      var i :| 0 <= i <= j + 1 && held == Left(b, requests, i, j);
      LeftLater(b, requests, i, j);
    }
  }

  /** With request j, what was granted from request i on is within the capacity and what has flowed in since. */
  predicate FitsSince(b: Bucket, requests: seq<Request>, i: nat, j: nat)
    requires i <= j < |requests|
  {
    Paid(b, requests, i, j) + requests[j].amount <= b.capacity + b.rate * (requests[j].time - requests[i].time)
  }

  predicate FitsSinceStart(b: Bucket, requests: seq<Request>, j: nat)
    requires j < |requests|
  {
    Paid(b, requests, 0, j) + requests[j].amount <= b.tokens + b.rate * (requests[j].time - b.last)
  }

  lemma {:induction false} FitsWhatIsLeft(b: Bucket, requests: seq<Request>, i: nat, j: nat)
    requires i <= j < |requests|
    ensures FitsSince(b, requests, i, j) <==> requests[j].amount <= Left(b, requests, i + 1, j)
    ensures FitsSinceStart(b, requests, j) <==> requests[j].amount <= Left(b, requests, 0, j)
  {
  }

  /**
   A request is granted exactly when it fits by every count: with what was granted since the start it is within
   the tokens held then and what has flowed in since, and with what was granted from any earlier request on, or
   alone, within the capacity and what has flowed in since.
   */
  lemma {:induction false} GrantedExactlyWhen(b: Bucket, requests: seq<Request>, j: nat)
    requires j < |requests|
    ensures GrantedAt(b, requests, j)
            <==> FitsSinceStart(b, requests, j) && forall i :: 0 <= i <= j ==> FitsSince(b, requests, i, j)
  {
    var held := Held(b, requests, j);
    HeldIsLeastLeft(b, requests, j);
    assert AtMostLeft(b, requests, 0, j, held);
    FitsWhatIsLeft(b, requests, j, j);
    if GrantedAt(b, requests, j) {
      forall i | 0 <= i <= j ensures FitsSince(b, requests, i, j) {
        assert AtMostLeft(b, requests, i + 1, j, held);
        FitsWhatIsLeft(b, requests, i, j);
      }
    }
    var least :| 0 <= least <= j + 1 && held == Left(b, requests, least, j);
    if least > 0 {
      FitsWhatIsLeft(b, requests, least - 1, j);
    }
  }
}
