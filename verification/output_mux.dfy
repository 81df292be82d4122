/** The three-lane output multiplexer of the TUN writer. */
module OutputMux {
  import opened Base

  /** A receiving channel: what is queued, and whether every sender is gone. */
  datatype Lane<T> = Lane(queue: seq<T>, sendersGone: bool)

  type Index = i: nat | i < 3

  datatype Output<T> = Output(lane: Index, item: T)

  // -------------------------------------------------------------- scheduling

  /** The lane `offset` places after `next`. */
  function At(next: Index, offset: Index): (lane: Index)
  {
    if next + offset < 3 then next + offset else next + offset - 3
  }

  /** How many lanes are asked before `lane`. */
  function Distance(next: Index, lane: Index): (d: Index)
    ensures At(next, d) == lane
  {
    if next <= lane then lane - next else lane + 3 - next
  }

  lemma DistanceOf(next: Index, offset: Index)
    ensures Distance(next, At(next, offset)) == offset
  {
  }

  /** Serving a lane asked earlier brings every later one nearer. */
  lemma Nearer(next: Index, served: Index, lane: Index)
    requires Distance(next, served) < Distance(next, lane)
    ensures Distance(At(served, 1), lane) < Distance(next, lane)
  {
  }

  /** No lane of `waiting` is passed over for `served`, asking from `next` on. */
  ghost predicate Precedes(next: Index, waiting: set<Index>, served: Index)
  {
    forall l :: l in waiting ==> Distance(next, served) <= Distance(next, l)
  }

  /** Where asking starts before the `i`-th of a series of outputs. */
  function Cursor(served: seq<Index>, i: nat): (next: Index)
    requires i <= |served|
  {
    if i == 0 then 0 else At(served[i - 1], 1)
  }

  /** The lanes that were left waiting by the output before the `i`-th. */
  function Left(readies: seq<set<Index>>, served: seq<Index>, i: nat): (left: set<Index>)
    requires |readies| == |served| && i <= |served|
  {
    if i == 0 then {} else readies[i - 1] - {served[i - 1]}
  }

  /**
    One output, with `ready` the lanes that hold something when it is taken. Lanes
    left by the output before still do and are not passed over; with none left it
    may be any ready lane, the one that woke the reader.
   */
  ghost predicate Chosen(next: Index, left: set<Index>, ready: set<Index>, served: Index)
  {
    served in ready && left <= ready && Precedes(next, left, served)
  }

  ghost predicate Serves(readies: seq<set<Index>>, served: seq<Index>)
  {
    && |readies| == |served|
    && forall i :: 0 <= i < |served| ==> Obeys(readies, served, i)
  }

  ghost predicate Obeys(readies: seq<set<Index>>, served: seq<Index>, i: nat)
    requires |readies| == |served| && i < |served|
  {
    Chosen(Cursor(served, i), Left(readies, served, i), readies[i], served[i])
  }

  /** A lane passed over moves nearer to the front. */
  lemma PassedOver(next: Index, served: Index, lane: Index)
    requires Distance(next, served) <= Distance(next, lane) && served != lane
    ensures Distance(At(served, 1), lane) < Distance(next, lane)
  {
    DistanceOf(next, Distance(next, lane));
    DistanceOf(next, Distance(next, served));
    Nearer(next, served, lane);
  }

  /** Right after an output every other lane is at most one place from the front. */
  lemma NextInLine(served: Index, lane: Index)
    requires served != lane
    ensures Distance(At(served, 1), lane) <= 1
  {
  }

  /** A lane left waiting is ready for the next output and not passed over by it. */
  lemma StillWaiting(readies: seq<set<Index>>, served: seq<Index>, lane: Index, i: nat)
    requires Serves(readies, served) && i + 1 < |served| && lane in readies[i] && served[i] != lane
    ensures lane in readies[i + 1]
    ensures Distance(At(served[i], 1), served[i + 1]) <= Distance(At(served[i], 1), lane)
  {
    assert lane in Left(readies, served, i + 1);
    assert Obeys(readies, served, i + 1);
  }

  lemma PassedTwice(first: Index, second: Index, third: Index, lane: Index)
    requires first != lane && second != lane
    requires Distance(At(first, 1), second) <= Distance(At(first, 1), lane)
    requires Distance(At(second, 1), third) <= Distance(At(second, 1), lane)
    ensures third == lane
  {
    NextInLine(first, lane);
    PassedOver(At(first, 1), second, lane);
    assert Distance(At(second, 1), lane) == 0;
  }

  /** In every run, a lane that holds something when an output is taken is served by that output or one of the next two. */
  lemma ServedWithinThree(readies: seq<set<Index>>, served: seq<Index>, lane: Index, i: nat)
    requires Serves(readies, served) && i + 3 <= |served| && lane in readies[i]
    ensures lane in served[i..i + 3]
  {
    assert served[i..i + 3] == [served[i], served[i + 1], served[i + 2]];
    if served[i] != lane && served[i + 1] != lane {
      StillWaiting(readies, served, lane, i);
      StillWaiting(readies, served, lane, i + 1);
      PassedTwice(served[i], served[i + 1], served[i + 2], lane);
    }
  }

  // ------------------------------------------------------------------- lanes

  /** The items that came out of one lane, in order. */
  ghost function From<T>(outputs: seq<Output<T>>, lane: Index): (items: seq<T>)
  {
    if |outputs| == 0 then []
    else
      var n := |outputs| - 1;
      From(outputs[..n], lane) + if outputs[n].lane == lane then [outputs[n].item] else []
  }

  ghost function LanesOf<T>(outputs: seq<Output<T>>): (lanes: seq<Index>)
    ensures |lanes| == |outputs| && forall i :: 0 <= i < |lanes| ==> lanes[i] == outputs[i].lane
  {
    seq(|outputs|, i requires 0 <= i < |outputs| => outputs[i].lane)
  }

  lemma FromSnoc<T>(outputs: seq<Output<T>>, o: Output<T>, lane: Index)
    ensures From(outputs + [o], lane) == From(outputs, lane) + if o.lane == lane then [o.item] else []
  {
    assert (outputs + [o])[..|outputs|] == outputs;
  }

  lemma EarlierKept(readies: seq<set<Index>>, served: seq<Index>, ready: set<Index>, lane: Index, i: nat)
    requires |readies| == |served| && i <= |served|
    ensures Cursor(served + [lane], i) == Cursor(served, i)
    ensures Left(readies + [ready], served + [lane], i) == Left(readies, served, i)
  {
  }

  lemma ServesSnoc(readies: seq<set<Index>>, served: seq<Index>, ready: set<Index>, lane: Index)
    requires Serves(readies, served)
    requires Chosen(Cursor(served, |served|), Left(readies, served, |served|), ready, lane)
    ensures Serves(readies + [ready], served + [lane])
  {
    var after, sets := served + [lane], readies + [ready];
    forall i | 0 <= i < |after| ensures Obeys(sets, after, i) {
      EarlierKept(readies, served, ready, lane, i);
      if i < |served| {
        assert Obeys(readies, served, i);
        assert sets[i] == readies[i] && after[i] == served[i];
      } else {
        assert sets[i] == ready && after[i] == lane;
      }
    }
  }

  /** The outputs so far obey the cursor, which now stands at `next`, and left `left` waiting. */
  ghost predicate Scheduled<T>(readies: seq<set<Index>>, outputs: seq<Output<T>>, next: Index, left: set<Index>)
  {
    && |readies| == |outputs| && Serves(readies, LanesOf(outputs))
    && next == Cursor(LanesOf(outputs), |outputs|)
    && left == Left(readies, LanesOf(outputs), |outputs|)
  }

  lemma ScheduledSnoc<T>(
    readies: seq<set<Index>>, outputs: seq<Output<T>>, next: Index, left: set<Index>, ready: set<Index>, o: Output<T>)
    requires Scheduled(readies, outputs, next, left) && Chosen(next, left, ready, o.lane)
    ensures Scheduled(readies + [ready], outputs + [o], At(o.lane, 1), ready - {o.lane})
  {
    ServesSnoc(readies, LanesOf(outputs), ready, o.lane);
    LanesSnoc(outputs, o);
  }

  lemma LanesSnoc<T>(outputs: seq<Output<T>>, o: Output<T>)
    ensures LanesOf(outputs + [o]) == LanesOf(outputs) + [o.lane]
  {
  }

  ghost function Nonempty<T>(lanes: seq<Lane<T>>): (ready: set<Index>)
    requires |lanes| == 3
    ensures forall l: Index :: l in ready <==> lanes[l].queue != []
  {
    set l: Index | 0 <= l < 3 && lanes[l].queue != []
  }

  /** Senders have only added to the queues, and a lane without senders is as it was. */
  ghost predicate Grown<T>(before: seq<Lane<T>>, after: seq<Lane<T>>)
    requires |before| == 3 && |after| == 3
  {
    forall l: Index :: GrownLane(before[l], after[l])
  }

  ghost predicate GrownLane<T>(before: Lane<T>, after: Lane<T>)
  {
    before.queue <= after.queue && (before.sendersGone ==> after == before)
  }

  lemma GrownThrough<T>(first: seq<Lane<T>>, second: seq<Lane<T>>, third: seq<Lane<T>>)
    requires |first| == 3 && |second| == 3 && |third| == 3 && Grown(first, second) && Grown(second, third)
    ensures Grown(first, third)
  {
    forall l: Index ensures GrownLane(first[l], third[l]) {
      assert GrownLane(first[l], second[l]) && GrownLane(second[l], third[l]);
    }
  }

  // ---------------------------------------------------------------- arrivals

  /** One lane's senders queue `items` and may then all go away. */
  datatype Arrival<T> = Arrival(lane: Index, items: seq<T>, gone: bool)

  /** What arrives before the reader looks, and the lane a waiting reader looks at first. */
  datatype Moment<T> = Moment(arrivals: seq<Arrival<T>>, first: Index)

  type Schedule<T> = seq<Moment<T>>

  /** A lane after one arrival; without senders it stays as it is. */
  function Joined<T>(lane: Lane<T>, a: Arrival<T>): (r: Lane<T>)
  {
    if lane.sendersGone then lane else Lane(lane.queue + a.items, a.gone)
  }

  function After<T>(lanes: seq<Lane<T>>, arrivals: seq<Arrival<T>>): (r: seq<Lane<T>>)
    requires |lanes| == 3
    ensures |r| == 3
    decreases |arrivals|
  {
    if |arrivals| == 0 then lanes
    else
      var n := |arrivals| - 1;
      var before, a := After(lanes, arrivals[..n]), arrivals[n];
      before[a.lane := Joined(before[a.lane], a)]
  }

  lemma AfterSnoc<T>(lanes: seq<Lane<T>>, arrivals: seq<Arrival<T>>, i: nat)
    requires |lanes| == 3 && i < |arrivals|
    ensures var before, a := After(lanes, arrivals[..i]), arrivals[i];
      After(lanes, arrivals[..i + 1]) == before[a.lane := Joined(before[a.lane], a)]
  {
    assert arrivals[..i + 1][..i] == arrivals[..i];
  }

  lemma {:induction false} AfterGrown<T>(lanes: seq<Lane<T>>, arrivals: seq<Arrival<T>>)
    requires |lanes| == 3
    ensures Grown(lanes, After(lanes, arrivals))
    decreases |arrivals|
  {
    if |arrivals| > 0 {
      var before := After(lanes, arrivals[..|arrivals| - 1]);
      AfterGrown(lanes, arrivals[..|arrivals| - 1]);
      GrownThrough(lanes, before, After(lanes, arrivals));
    }
  }

  /** What arrives at one moment; behind the schedule nothing does. */
  function ArrivalsAt<T>(schedule: Schedule<T>, k: nat): (arrivals: seq<Arrival<T>>)
  {
    if k < |schedule| then schedule[k].arrivals else []
  }

  /** The lanes at `end` if nothing is taken from `start` on. */
  function Later<T>(lanes: seq<Lane<T>>, schedule: Schedule<T>, start: nat, end: nat): (r: seq<Lane<T>>)
    requires |lanes| == 3
    ensures |r| == 3
    decreases end
  {
    if end <= start then lanes else After(Later(lanes, schedule, start, end - 1), ArrivalsAt(schedule, end - 1))
  }

  lemma {:induction false} LaterThrough<T>(lanes: seq<Lane<T>>, schedule: Schedule<T>, start: nat, mid: nat, end: nat)
    requires |lanes| == 3 && start <= mid <= end
    ensures Later(Later(lanes, schedule, start, mid), schedule, mid, end) == Later(lanes, schedule, start, end)
    decreases end
  {
    if mid < end {
      LaterThrough(lanes, schedule, start, mid, end - 1);
    }
  }

  lemma {:induction false} LaterGrown<T>(lanes: seq<Lane<T>>, schedule: Schedule<T>, start: nat, end: nat)
    requires |lanes| == 3
    ensures Grown(lanes, Later(lanes, schedule, start, end))
    decreases end
  {
    if start < end {
      var before := Later(lanes, schedule, start, end - 1);
      LaterGrown(lanes, schedule, start, end - 1);
      AfterGrown(before, ArrivalsAt(schedule, end - 1));
      GrownThrough(lanes, before, Later(lanes, schedule, start, end));
    }
  }

  // ---------------------------------------------------------------- scanning

  /** A lane that was asked in vain: it held nothing, and is closed exactly if it was or has no senders. */
  predicate GaveNothing<T>(lane: Lane<T>, before: bool, open: bool)
  {
    lane.queue == [] && (open <==> before && !lane.sendersGone)
  }

  /** The first `count` lanes from the cursor on were asked in vain, one at each moment from `start` on. */
  ghost predicate Asked<T>(
    lanes: seq<Lane<T>>, schedule: Schedule<T>, start: nat, before: seq<bool>, open: seq<bool>, next: Index, count: nat)
    requires |lanes| == 3 && |before| == 3 && |open| == 3
  {
    forall k: Index :: k < count ==> AskedAt(lanes, schedule, start, before, open, next, k)
  }

  ghost predicate AskedAt<T>(
    lanes: seq<Lane<T>>, schedule: Schedule<T>, start: nat, before: seq<bool>, open: seq<bool>, next: Index, k: Index)
    requires |lanes| == 3 && |before| == 3 && |open| == 3
  {
    GaveNothing(Later(lanes, schedule, start, start + k + 1)[At(next, k)], before[At(next, k)], open[At(next, k)])
  }

  /** The other lanes' flags are as they were. */
  ghost predicate UnaskedKept(before: seq<bool>, open: seq<bool>, next: Index, count: nat)
    requires |before| == 3 && |open| == 3
  {
    forall k: Index :: count <= k ==> KeptAt(before, open, next, k)
  }

  ghost predicate KeptAt(before: seq<bool>, open: seq<bool>, next: Index, k: Index)
    requires |before| == 3 && |open| == 3
  {
    open[At(next, k)] == before[At(next, k)]
  }

  /** How far a scan that began with `lanes` and `before` has come after `count` asks in vain. */
  ghost predicate Scanned<T>(
    lanes: seq<Lane<T>>, schedule: Schedule<T>, start: nat, before: seq<bool>, open: seq<bool>, next: Index, count: nat)
  {
    && |lanes| == 3 && |before| == 3 && |open| == 3
    && Asked(lanes, schedule, start, before, open, next, count) && UnaskedKept(before, open, next, count)
  }

  lemma ScannedOneMore<T>(
    lanes: seq<Lane<T>>, schedule: Schedule<T>, start: nat, before: seq<bool>, open: seq<bool>, after: seq<bool>,
    next: Index, offset: Index, seen: Lane<T>)
    requires Scanned(lanes, schedule, start, before, open, next, offset) && |after| == 3
    requires seen == Later(lanes, schedule, start, start + offset + 1)[At(next, offset)]
    requires GaveNothing(seen, open[At(next, offset)], after[At(next, offset)])
    requires forall l: Index :: l != At(next, offset) ==> after[l] == open[l]
    ensures Scanned(lanes, schedule, start, before, after, next, offset + 1)
  {
    DistanceOf(next, offset);
    forall k: Index | k < offset + 1 ensures AskedAt(lanes, schedule, start, before, after, next, k) {
      DistanceOf(next, k);
      assert if k < offset then AskedAt(lanes, schedule, start, before, open, next, k) else KeptAt(before, open, next, k);
    }
    forall k: Index | offset + 1 <= k ensures KeptAt(before, after, next, k) {
      DistanceOf(next, k);
      assert KeptAt(before, open, next, k);
    }
  }

  lemma ScannedStill<T>(
    lanes: seq<Lane<T>>, schedule: Schedule<T>, start: nat, before: seq<bool>, open: seq<bool>, after: seq<bool>,
    next: Index, count: nat)
    requires Scanned(lanes, schedule, start, before, open, next, count) && |after| == 3
    requires forall l: Index :: after[l] == open[l]
    ensures Scanned(lanes, schedule, start, before, after, next, count)
  {
    forall k: Index | k < count ensures AskedAt(lanes, schedule, start, before, after, next, k) {
      assert AskedAt(lanes, schedule, start, before, open, next, k);
    }
    forall k: Index | count <= k ensures KeptAt(before, after, next, k) {
      assert KeptAt(before, open, next, k);
    }
  }

  /** What a lane asked in vain was when the scan began. */
  lemma AskedWasEmpty<T>(
    lanes: seq<Lane<T>>, schedule: Schedule<T>, start: nat, before: seq<bool>, open: seq<bool>, next: Index, count: nat, k: Index)
    requires Scanned(lanes, schedule, start, before, open, next, count) && k < count
    ensures lanes[At(next, k)].queue == [] && (lanes[At(next, k)].sendersGone ==> !open[At(next, k)])
  {
    var seen := Later(lanes, schedule, start, start + k + 1);
    assert AskedAt(lanes, schedule, start, before, open, next, k);
    LaterGrown(lanes, schedule, start, start + k + 1);
    assert GrownLane(lanes[At(next, k)], seen[At(next, k)]);
  }

  /** A lane that held something as the scan began is never passed over. */
  lemma NotPassedOver<T>(
    lanes: seq<Lane<T>>, schedule: Schedule<T>, start: nat, before: seq<bool>, open: seq<bool>, next: Index, offset: Index)
    requires Scanned(lanes, schedule, start, before, open, next, offset)
    ensures Precedes(next, Nonempty(lanes), At(next, offset))
  {
    DistanceOf(next, offset);
    forall l | l in Nonempty(lanes) ensures offset <= Distance(next, l) {
      if Distance(next, l) < offset {
        AskedWasEmpty(lanes, schedule, start, before, open, next, offset, Distance(next, l));
      }
    }
  }

  /** A scan in vain found every lane empty, and closes the mux if all of them had finished. */
  lemma AllAsked<T>(lanes: seq<Lane<T>>, schedule: Schedule<T>, start: nat, before: seq<bool>, open: seq<bool>, next: Index)
    requires Scanned(lanes, schedule, start, before, open, next, 3)
    ensures Nonempty(lanes) == {}
    ensures AllDrained(lanes) ==> !open[0] && !open[1] && !open[2]
  {
    forall l: Index ensures lanes[l].queue == [] && (lanes[l].sendersGone ==> !open[l]) {
      AskedWasEmpty(lanes, schedule, start, before, open, next, 3, Distance(next, l));
    }
    assert AllDrained(lanes) ==> Drained(lanes[0]) && Drained(lanes[1]) && Drained(lanes[2]);
  }

  /** The lane found at `offset`: none that held something was passed over, and not every lane had finished. */
  lemma FoundBy<T>(
    lanes: seq<Lane<T>>, schedule: Schedule<T>, start: nat, before: seq<bool>, open: seq<bool>, next: Index, offset: Index,
    full: seq<Lane<T>>)
    requires Scanned(lanes, schedule, start, before, open, next, offset)
    requires full == Later(lanes, schedule, start, start + offset + 1) && full[At(next, offset)].queue != []
    ensures Precedes(next, Nonempty(lanes), At(next, offset)) && Distance(next, At(next, offset)) == offset
    ensures !AllDrained(lanes)
  {
    NotPassedOver(lanes, schedule, start, before, open, next, offset);
    DistanceOf(next, offset);
    if AllDrained(lanes) {
      DrainedStays(lanes, schedule, start, start + offset + 1, At(next, offset));
    }
  }

  /** Scanning closes lanes and never reopens one. */
  lemma ScanCloses<T>(
    lanes: seq<Lane<T>>, schedule: Schedule<T>, start: nat, before: seq<bool>, open: seq<bool>, next: Index, count: nat)
    requires Scanned(lanes, schedule, start, before, open, next, count)
    ensures OpenCount(open) <= OpenCount(before)
  {
    forall l: Index ensures open[l] ==> before[l] {
      var k := Distance(next, l);
      assert if k < count then AskedAt(lanes, schedule, start, before, open, next, k) else KeptAt(before, open, next, k);
    }
  }

  function OpenCount(open: seq<bool>): (n: nat)
    requires |open| == 3
  {
    (if open[0] then 1 else 0) + (if open[1] then 1 else 0) + (if open[2] then 1 else 0)
  }

  predicate Drained<T>(lane: Lane<T>)
  {
    lane.queue == [] && lane.sendersGone
  }

  ghost predicate AllDrained<T>(lanes: seq<Lane<T>>)
    requires |lanes| == 3
  {
    forall l: Index :: Drained(lanes[l])
  }

  ghost predicate ClosedAreDrained<T>(lanes: seq<Lane<T>>, open: seq<bool>)
    requires |lanes| == 3 && |open| == 3
  {
    forall l: Index :: !open[l] ==> Drained(lanes[l])
  }

  lemma NoneOpen<T>(lanes: seq<Lane<T>>, open: seq<bool>)
    requires |lanes| == 3 && |open| == 3 && ClosedAreDrained(lanes, open) && !open[0] && !open[1] && !open[2]
    ensures AllDrained(lanes)
  {
    forall l: Index ensures Drained(lanes[l]) {
      assert l == 0 || l == 1 || l == 2;
    }
  }

  /** Nothing arrives at finished lanes. */
  lemma DrainedStays<T>(lanes: seq<Lane<T>>, schedule: Schedule<T>, start: nat, end: nat, lane: Index)
    requires |lanes| == 3 && AllDrained(lanes)
    ensures Later(lanes, schedule, start, end)[lane].queue == []
  {
    LaterGrown(lanes, schedule, start, end);
    assert Drained(lanes[lane]) && GrownLane(lanes[lane], Later(lanes, schedule, start, end)[lane]);
  }

  // ------------------------------------------------------------------ taking

  function Rest<T>(lane: Lane<T>): (r: Lane<T>)
    requires lane.queue != []
  {
    Lane(lane.queue[1..], lane.sendersGone)
  }

  /** The output is the front item of its lane, and everything else stays. */
  ghost predicate Took<T>(full: seq<Lane<T>>, o: Output<T>, lanes: seq<Lane<T>>)
    requires |full| == 3
  {
    && full[o.lane].queue != [] && o.item == full[o.lane].queue[0]
    && lanes == full[o.lane := Rest(full[o.lane])]
  }

  lemma TakeKeepsLanes<T>(lanes: seq<Lane<T>>, open: seq<bool>, lane: Index)
    requires |lanes| == 3 && |open| == 3 && ClosedAreDrained(lanes, open) && lanes[lane].queue != []
    ensures ClosedAreDrained(lanes[lane := Rest(lanes[lane])], open)
    ensures Nonempty(lanes) - {lane} <= Nonempty(lanes[lane := Rest(lanes[lane])])
  {
    assert open[lane];
  }

  /** A lane that holds something still does when more has arrived. */
  lemma StaysReady<T>(lanes: seq<Lane<T>>, schedule: Schedule<T>, start: nat, end: nat)
    requires |lanes| == 3
    ensures Nonempty(lanes) <= Nonempty(Later(lanes, schedule, start, end))
  {
    var after := Later(lanes, schedule, start, end);
    LaterGrown(lanes, schedule, start, end);
    forall l | l in Nonempty(lanes) ensures l in Nonempty(after) {
      assert GrownLane(lanes[l], after[l]);
    }
  }

  /** The reader is woken for a lane that holds an item or has finished. */
  predicate Ready<T>(lane: Lane<T>, open: bool)
  {
    open && (lane.queue != [] || lane.sendersGone)
  }

  ghost predicate Idle<T>(lanes: seq<Lane<T>>, open: seq<bool>)
    requires |lanes| == 3 && |open| == 3
  {
    forall l: Index :: !Ready(lanes[l], open[l])
  }

  /** No open lane is ready at any of the moments after `start` up to `end`. */
  ghost predicate IdleUntil<T>(lanes: seq<Lane<T>>, open: seq<bool>, schedule: Schedule<T>, start: nat, end: nat)
    requires |lanes| == 3 && |open| == 3
  {
    forall k :: start < k <= end ==> Idle(Later(lanes, schedule, start, k), open)
  }

  lemma IdleOneMore<T>(lanes: seq<Lane<T>>, open: seq<bool>, schedule: Schedule<T>, start: nat, end: nat, now: seq<Lane<T>>)
    requires |lanes| == 3 && |open| == 3 && IdleUntil(lanes, open, schedule, start, end)
    requires now == Later(lanes, schedule, start, end + 1) && Idle(now, open)
    ensures IdleUntil(lanes, open, schedule, start, end + 1)
  {
  }

  /** `lane` is the first ready one, looking from `first` on. */
  ghost predicate FirstReady<T>(lanes: seq<Lane<T>>, open: seq<bool>, first: Index, lane: Index)
    requires |lanes| == 3 && |open| == 3
  {
    Ready(lanes[lane], open[lane]) && forall l: Index :: Ready(lanes[l], open[l]) ==> Distance(first, lane) <= Distance(first, l)
  }

  lemma FoundFirst<T>(lanes: seq<Lane<T>>, open: seq<bool>, first: Index, k: Index)
    requires |lanes| == 3 && |open| == 3 && Ready(lanes[At(first, k)], open[At(first, k)])
    requires forall j: Index :: j < k ==> !Ready(lanes[At(first, j)], open[At(first, j)])
    ensures FirstReady(lanes, open, first, At(first, k))
  {
    DistanceOf(first, k);
    forall l: Index | Ready(lanes[l], open[l]) ensures k <= Distance(first, l) {
      assert At(first, Distance(first, l)) == l;
    }
  }

  lemma NoneFound<T>(lanes: seq<Lane<T>>, open: seq<bool>, first: Index)
    requires |lanes| == 3 && |open| == 3
    requires forall j: Index :: !Ready(lanes[At(first, j)], open[At(first, j)])
    ensures Idle(lanes, open)
  {
    forall l: Index ensures !Ready(lanes[l], open[l]) {
      assert At(first, Distance(first, l)) == l;
    }
  }

  // ------------------------------------------------------------- multiplexer

  /** `Pending`: the caller gave up while nothing was ready. */
  datatype Received<T> = Item(output: Output<T>) | Ended | Pending {
    function Taken(): (o: Option<Output<T>>)
    {
      if Item? then Some(output) else None
    }
  }

  /** How one wait ends: with an item, with the news that a lane is finished, or given up. */
  datatype Waited<T> = Served(output: Output<T>) | Finished(lane: Index) | Idling {
    function Taken(): (o: Option<Output<T>>)
    {
      if Served? then Some(output) else None
    }
  }

  /** What arrived from `start` to `used` is there, but for the item that was taken. */
  ghost predicate Moved<T>(
    before: seq<Lane<T>>, lanes: seq<Lane<T>>, schedule: Schedule<T>, start: nat, used: nat, r: Option<Output<T>>)
    requires |before| == 3
  {
    var full := Later(before, schedule, start, used);
    if r.Some? then Took(full, r.value, lanes) else lanes == full
  }

  class Mux<T> {
    var lanes: seq<Lane<T>>
    var open: seq<bool>
    var next: Index
    ghost var outputs: seq<Output<T>>
    /** For each output, the lanes that held something when it was taken. */
    ghost var readies: seq<set<Index>>
    /** Of those, the lanes the last output left waiting. */
    ghost var left: set<Index>

    ghost predicate Valid()
      reads this
    {
      && |lanes| == 3 && |open| == 3
      && ClosedAreDrained(lanes, open)
      && Scheduled(readies, outputs, next, left) && left <= Nonempty(lanes)
    }

    constructor ()
      ensures Valid() && outputs == [] && lanes == [Lane([], false), Lane([], false), Lane([], false)]
    {
      lanes, open, next := [Lane([], false), Lane([], false), Lane([], false)], [true, true, true], 0;
      outputs, readies, left := [], [], {};
    }

    /** The guarantee for the outputs of any run so far. */
    lemma Fair(lane: Index, i: nat)
      requires Valid() && i + 3 <= |outputs| && lane in readies[i]
      ensures exists k :: i <= k < i + 3 && outputs[k].lane == lane
    {
      var served := LanesOf(outputs);
      ServedWithinThree(readies, served, lane, i);
      var k :| 0 <= k < 3 && served[i..i + 3][k] == lane;
      assert outputs[i + k].lane == lane;
    }

    /** An item is recorded as the next output, with the lanes that were ready then; nothing else is. */
    ghost predicate Recorded(
      r: Option<Output<T>>, full: seq<Lane<T>>, outputs0: seq<Output<T>>, readies0: seq<set<Index>>, next0: Index)
      requires |full| == 3
      reads `outputs, `readies, `next
    {
      if r.Some? then outputs == outputs0 + [r.value] && readies == readies0 + [Nonempty(full)] && next == At(r.value.lane, 1)
      else outputs == outputs0 && readies == readies0 && next == next0
    }

    /** Takes the front item of a lane and moves the cursor past it. */
    method Take(lane: Index) returns (o: Output<T>)
      requires Valid() && lanes[lane].queue != [] && Precedes(next, left, lane)
      modifies `lanes, `next, `outputs, `readies, `left
      ensures Valid() && o.lane == lane && Took(old(lanes), o, lanes) && next == At(lane, 1)
      ensures outputs == old(outputs) + [o] && readies == old(readies) + [Nonempty(old(lanes))]
    {
      o := Output(lane, lanes[lane].queue[0]);
      ghost var ready := Nonempty(lanes);
      ScheduledSnoc(readies, outputs, next, left, ready, o);
      TakeKeepsLanes(lanes, open, lane);
      lanes := lanes[lane := Rest(lanes[lane])];
      outputs, readies, left := outputs + [o], readies + [ready], ready - {lane};
      next := At(lane, 1);
    }

    /** One lane's senders act. */
    method Arrive(a: Arrival<T>)
      requires Valid()
      modifies `lanes
      ensures Valid() && lanes == old(lanes)[a.lane := Joined(old(lanes)[a.lane], a)]
    {
      if !lanes[a.lane].sendersGone {
        assert open[a.lane];
        lanes := lanes[a.lane := Lane(lanes[a.lane].queue + a.items, a.gone)];
      }
    }

    method ArriveAll(arrivals: seq<Arrival<T>>)
      requires Valid()
      modifies `lanes
      ensures Valid() && lanes == After(old(lanes), arrivals)
    {
      for i := 0 to |arrivals|
        invariant Valid() && lanes == After(old(lanes), arrivals[..i])
      {
        AfterSnoc(old(lanes), arrivals, i);
        Arrive(arrivals[i]);
      }
      assert arrivals[..|arrivals|] == arrivals;
    }

    /** Asks one lane; a finished one is closed. */
    method Ask(lane: Index) returns (found: bool)
      requires Valid()
      modifies `open
      ensures Valid() && |open| == 3 && (found <==> lanes[lane].queue != [])
      ensures forall l: Index :: l != lane ==> open[l] == old(open)[l]
      ensures open[lane] <==> old(open)[lane] && !Drained(lanes[lane])
    {
      found := open[lane] && lanes[lane].queue != [];
      if open[lane] && !found && lanes[lane].sendersGone {
        open := open[lane := false];
      }
    }

    /** The ask at `offset` of a scan that began at `start` with `lanes0` and `open0`, behind what arrives before it. */
    method AskNext(schedule: Schedule<T>, start: nat, offset: Index, ghost lanes0: seq<Lane<T>>, ghost open0: seq<bool>)
      returns (found: bool)
      requires Valid() && Scanned(lanes0, schedule, start, open0, open, next, offset)
      requires lanes == Later(lanes0, schedule, start, start + offset)
      modifies `lanes, `open
      ensures Valid() && lanes == Later(lanes0, schedule, start, start + offset + 1)
      ensures found <==> lanes[At(next, offset)].queue != []
      ensures Scanned(lanes0, schedule, start, open0, open, next, if found then offset else offset + 1)
    {
      ArriveAll(ArrivalsAt(schedule, start + offset));
      found := Ask(At(next, offset));
      if found {
        ScannedStill(lanes0, schedule, start, open0, old(open), open, next, offset);
      } else {
        ScannedOneMore(lanes0, schedule, start, open0, old(open), open, next, offset, lanes[At(next, offset)]);
      }
    }

    /** Asks from the cursor on until a lane holds something. */
    method Seek(schedule: Schedule<T>, start: nat) returns (found: Option<Index>, used: nat)
      requires Valid()
      modifies `lanes, `open
      ensures Valid() && lanes == Later(old(lanes), schedule, start, used)
      ensures used == start + if found.Some? then Distance(next, found.value) + 1 else 3
      ensures Scanned(old(lanes), schedule, start, old(open), open, next, if found.Some? then Distance(next, found.value) else 3)
      ensures found.Some? ==>
        && lanes[found.value].queue != [] && Precedes(next, Nonempty(old(lanes)), found.value) && !AllDrained(old(lanes))
      ensures found.None? ==> Nonempty(old(lanes)) == {}
    {
      var offset: nat := 0;
      used := start;
      while offset < 3
        invariant offset <= 3 && used == start + offset
        invariant Valid() && Scanned(old(lanes), schedule, start, old(open), open, next, offset)
        invariant lanes == Later(old(lanes), schedule, start, used)
      {
        var here := AskNext(schedule, start, offset, old(lanes), old(open));
        used := used + 1;
        if here {
          FoundBy(old(lanes), schedule, start, old(open), open, next, offset, lanes);
          return Some(At(next, offset)), used;
        }
        offset := offset + 1;
      }
      AllAsked(old(lanes), schedule, start, old(open), open, next);
      found := None;
    }

    /** Asks each open lane once, from the cursor on, while the senders go on. */
    method TryNext(schedule: Schedule<T>, start: nat) returns (r: Option<Output<T>>, used: nat)
      requires Valid()
      modifies `lanes, `next, `outputs, `readies, `left, `open
      ensures Valid()
      ensures used == start + if r.Some? then Distance(old(next), r.value.lane) + 1 else 3
      ensures Moved(old(lanes), lanes, schedule, start, used, r)
      ensures Recorded(r, Later(old(lanes), schedule, start, used), old(outputs), old(readies), old(next))
      ensures r.None? ==> left == {}
      ensures Scanned(old(lanes), schedule, start, old(open), open, old(next),
                      if r.Some? then Distance(old(next), r.value.lane) else 3)
      ensures r.Some? ==> Precedes(old(next), Nonempty(old(lanes)), r.value.lane)
      ensures Nonempty(old(lanes)) != {} ==> r.Some?
      ensures AllDrained(old(lanes)) ==> r.None?
    {
      var found;
      found, used := Seek(schedule, start);
      if found.None? {
        return None, used;
      }
      var o := Take(found.value);
      r := Some(o);
    }

    /** One poll of the waiting reader: the first ready lane from `first` on gives its item or is closed. */
    method Poll(first: Index) returns (r: Waited<T>)
      requires Valid() && left == {}
      modifies `lanes, `next, `outputs, `readies, `left, `open
      ensures Valid() && (r.Idling? <==> Idle(old(lanes), old(open)))
      ensures r.Served? ==>
        && Took(old(lanes), r.output, lanes) && FirstReady(old(lanes), old(open), first, r.output.lane) && open == old(open)
        && outputs == old(outputs) + [r.output] && readies == old(readies) + [Nonempty(old(lanes))]
        && next == At(r.output.lane, 1)
      ensures r.Finished? ==>
        && Drained(old(lanes)[r.lane]) && FirstReady(old(lanes), old(open), first, r.lane)
        && open == old(open)[r.lane := false]
      ensures !r.Served? ==>
        lanes == old(lanes) && outputs == old(outputs) && readies == old(readies) && next == old(next) && left == {}
      ensures r.Idling? ==> open == old(open)
    {
      for k := 0 to 3
        invariant Valid() && unchanged(this)
        invariant forall j: Index :: j < k ==> !Ready(lanes[At(first, j)], open[At(first, j)])
      {
        var lane := At(first, k);
        if open[lane] && (lanes[lane].queue != [] || lanes[lane].sendersGone) {
          FoundFirst(lanes, open, first, k);
          if lanes[lane].queue != [] {
            var o := Take(lane);
            return Served(o);
          }
          open := open[lane := false];
          return Finished(lane);
        }
      }
      NoneFound(lanes, open, first);
      r := Idling;
    }

    method PollAt(schedule: Schedule<T>, at: nat) returns (r: Waited<T>)
      requires Valid() && left == {}
      modifies `lanes, `next, `outputs, `readies, `left, `open
      ensures Valid()
      ensures var full := After(old(lanes), ArrivalsAt(schedule, at));
        && (if r.Served? then Took(full, r.output, lanes) else lanes == full && left == {})
        && Recorded(r.Taken(), full, old(outputs), old(readies), old(next))
      ensures r.Finished? ==> old(open)[r.lane] && open == old(open)[r.lane := false]
      ensures r.Idling? ==> open == old(open) && Idle(lanes, open)
    {
      ArriveAll(ArrivalsAt(schedule, at));
      r := Poll(if at < |schedule| then schedule[at].first else 0);
    }

    /** Polls at one moment after another until a lane is ready or the caller gives up, at the end of the schedule. */
    method Wait(schedule: Schedule<T>, start: nat) returns (r: Waited<T>, used: nat)
      requires Valid() && left == {}
      modifies `lanes, `next, `outputs, `readies, `left, `open
      ensures Valid() && start < used
      ensures Moved(old(lanes), lanes, schedule, start, used, r.Taken())
      ensures Recorded(r.Taken(), Later(old(lanes), schedule, start, used), old(outputs), old(readies), old(next))
      ensures !r.Served? ==> left == {}
      ensures r.Finished? ==> old(open)[r.lane] && open == old(open)[r.lane := false]
      ensures r.Idling? ==> Idle(lanes, open) && |schedule| <= used
      ensures IdleUntil(old(lanes), old(open), schedule, start, used - 1)
    {
      used := start;
      while true
        invariant Valid() && left == {} && start <= used && open == old(open) && next == old(next)
        invariant lanes == Later(old(lanes), schedule, start, used) && outputs == old(outputs) && readies == old(readies)
        invariant IdleUntil(old(lanes), old(open), schedule, start, used)
        decreases |schedule| - used
      {
        r := PollAt(schedule, used);
        used := used + 1;
        if !r.Idling? || used >= |schedule| {
          return;
        }
        IdleOneMore(old(lanes), old(open), schedule, start, used - 1, lanes);
      }
    }

    /** One turn of the receive loop up to the wait: an item, the end, or nothing yet. */
    method Scan(schedule: Schedule<T>, start: nat) returns (r: Received<T>, used: nat)
      requires Valid()
      modifies `lanes, `next, `outputs, `readies, `left, `open
      ensures Valid() && start < used && Moved(old(lanes), lanes, schedule, start, used, r.Taken())
      ensures Recorded(r.Taken(), Later(old(lanes), schedule, start, used), old(outputs), old(readies), old(next))
      ensures !r.Item? ==> left == {} && OpenCount(open) <= OpenCount(old(open))
      ensures Nonempty(old(lanes)) != {} ==> r.Item? && Precedes(old(next), Nonempty(old(lanes)), r.output.lane)
      ensures r.Ended? ==> AllDrained(lanes)
      ensures AllDrained(old(lanes)) ==> r.Ended?
    {
      var tried;
      tried, used := TryNext(schedule, start);
      if tried.Some? {
        r := Item(tried.value);
      } else {
        ScanCloses(old(lanes), schedule, start, old(open), open, old(next), 3);
        AllAsked(old(lanes), schedule, start, old(open), open, old(next));
        if !open[0] && !open[1] && !open[2] {
          NoneOpen(lanes, open);
          r := Ended;
        } else {
          r := Pending;
        }
      }
    }

    /** A scan and, if it gives nothing, a wait; `again` when the wait only learns that a lane is finished. */
    method Turn(schedule: Schedule<T>, start: nat) returns (r: Received<T>, used: nat, again: bool)
      requires Valid()
      modifies `lanes, `next, `outputs, `readies, `left, `open
      ensures Valid() && start < used && Moved(old(lanes), lanes, schedule, start, used, r.Taken())
      ensures Recorded(r.Taken(), Later(old(lanes), schedule, start, used), old(outputs), old(readies), old(next))
      ensures Nonempty(old(lanes)) != {} ==> r.Item? && Precedes(old(next), Nonempty(old(lanes)), r.output.lane)
      ensures r.Ended? ==> AllDrained(lanes)
      ensures AllDrained(old(lanes)) ==> r.Ended?
      ensures again ==> r.Pending? && OpenCount(open) < OpenCount(old(open))
      ensures r.Pending? && !again ==> Idle(lanes, open) && |schedule| <= used
    {
      r, used := Scan(schedule, start);
      again := false;
      if r.Pending? {
        ghost var mid := used;
        var waited;
        waited, used := Wait(schedule, used);
        LaterThrough(old(lanes), schedule, start, mid, used);
        again := waited.Finished?;
        if waited.Served? {
          r := Item(waited.output);
        }
      }
    }

    /**
      The next output. It ends only when every lane is finished and empty, and at
      once when that is so; `Pending` when the caller gives up, and only while no
      open lane holds anything.
     */
    method Recv(schedule: Schedule<T>) returns (r: Received<T>, used: nat)
      requires Valid()
      modifies `lanes, `next, `outputs, `readies, `left, `open
      ensures Valid() && Moved(old(lanes), lanes, schedule, 0, used, r.Taken())
      ensures Recorded(r.Taken(), Later(old(lanes), schedule, 0, used), old(outputs), old(readies), old(next))
      ensures Nonempty(old(lanes)) != {} ==> r.Item? && Precedes(old(next), Nonempty(old(lanes)), r.output.lane)
      ensures r.Ended? ==> AllDrained(lanes)
      ensures AllDrained(old(lanes)) ==> r.Ended?
      ensures r.Item? ==> |readies| == |old(readies)| + 1 && Nonempty(old(lanes)) <= readies[|old(readies)|]
      ensures r.Pending? ==> Idle(lanes, open) && |schedule| <= used
    {
      var again;
      r, used, again := Turn(schedule, 0);
      while again
        invariant Valid() && Moved(old(lanes), lanes, schedule, 0, used, r.Taken())
        invariant Recorded(r.Taken(), Later(old(lanes), schedule, 0, used), old(outputs), old(readies), old(next))
        invariant Nonempty(old(lanes)) != {} ==> r.Item? && Precedes(old(next), Nonempty(old(lanes)), r.output.lane)
        invariant r.Ended? ==> AllDrained(lanes)
        invariant AllDrained(old(lanes)) ==> r.Ended?
        invariant again ==> r.Pending?
        invariant r.Pending? && !again ==> Idle(lanes, open) && |schedule| <= used
        decreases again, OpenCount(open)
      {
        ghost var mid := used;
        r, used, again := Turn(schedule, used);
        LaterThrough(old(lanes), schedule, 0, mid, used);
      }
      StaysReady(old(lanes), schedule, 0, used);
    }
  }

  // --------------------------------------------------------------- whole runs

  /**
    The lanes are the `whole` ones without what came out of them: each lane's
    outputs, then what it holds, are what its senders have queued.
   */
  ghost predicate Behind<T>(whole: seq<Lane<T>>, lanes: seq<Lane<T>>, outputs: seq<Output<T>>)
    requires |whole| == 3 && |lanes| == 3
  {
    forall l: Index :: BehindLane(whole[l], lanes[l], From(outputs, l))
  }

  ghost predicate BehindLane<T>(whole: Lane<T>, lane: Lane<T>, taken: seq<T>)
  {
    taken + lane.queue == whole.queue && lane.sendersGone == whole.sendersGone
  }

  lemma {:induction false} BehindAfter<T>(
    whole: seq<Lane<T>>, lanes: seq<Lane<T>>, outputs: seq<Output<T>>, arrivals: seq<Arrival<T>>)
    requires |whole| == 3 && |lanes| == 3 && Behind(whole, lanes, outputs)
    ensures Behind(After(whole, arrivals), After(lanes, arrivals), outputs)
    decreases |arrivals|
  {
    if |arrivals| > 0 {
      var n := |arrivals| - 1;
      BehindAfter(whole, lanes, outputs, arrivals[..n]);
      var w, b, a := After(whole, arrivals[..n]), After(lanes, arrivals[..n]), arrivals[n];
      assert BehindLane(w[a.lane], b[a.lane], From(outputs, a.lane));
      Associate(From(outputs, a.lane), b[a.lane].queue, a.items);
    }
  }

  lemma {:induction false} BehindLater<T>(
    whole: seq<Lane<T>>, lanes: seq<Lane<T>>, outputs: seq<Output<T>>, schedule: Schedule<T>, start: nat, end: nat)
    requires |whole| == 3 && |lanes| == 3 && Behind(whole, lanes, outputs)
    ensures Behind(Later(whole, schedule, start, end), Later(lanes, schedule, start, end), outputs)
    decreases end
  {
    if start < end {
      BehindLater(whole, lanes, outputs, schedule, start, end - 1);
      BehindAfter(Later(whole, schedule, start, end - 1), Later(lanes, schedule, start, end - 1), outputs, ArrivalsAt(schedule, end - 1));
    }
  }

  lemma BehindTake<T>(whole: seq<Lane<T>>, full: seq<Lane<T>>, lanes: seq<Lane<T>>, outputs: seq<Output<T>>, o: Output<T>)
    requires |whole| == 3 && |full| == 3 && Behind(whole, full, outputs) && Took(full, o, lanes)
    ensures Behind(whole, lanes, outputs + [o])
  {
    forall l: Index ensures BehindLane(whole[l], lanes[l], From(outputs + [o], l)) {
      FromSnoc(outputs, o, l);
      assert BehindLane(whole[l], full[l], From(outputs, l));
      if l == o.lane {
        assert full[l].queue == [o.item] + lanes[l].queue;
        Associate(From(outputs, l), [o.item], lanes[l].queue);
      } else {
        Associate(From(outputs, l), [], []);
      }
    }
  }

  /** The lanes after rounds of arrivals, the first `used[i]` moments of each, if nothing is taken. */
  ghost function Total<T>(lanes: seq<Lane<T>>, rounds: seq<Schedule<T>>, used: seq<nat>): (r: seq<Lane<T>>)
    requires |lanes| == 3 && |used| <= |rounds|
    ensures |r| == 3
    decreases |used|
  {
    if |used| == 0 then lanes
    else var n := |used| - 1; Later(Total(lanes, rounds, used[..n]), rounds[n], 0, used[n])
  }

  lemma TotalSnoc<T>(lanes: seq<Lane<T>>, rounds: seq<Schedule<T>>, used: seq<nat>, n: nat)
    requires |lanes| == 3 && |used| < |rounds|
    ensures Total(lanes, rounds, used + [n]) == Later(Total(lanes, rounds, used), rounds[|used|], 0, n)
  {
    assert (used + [n])[..|used|] == used;
  }

  /**
    Receive after receive, with senders acting throughout: what came out of a lane,
    then what it holds, is what its senders queued, in order, nothing lost or twice.
   */
  method Serve<T>(mux: Mux<T>, rounds: seq<Schedule<T>>) returns (received: seq<Output<T>>, used: seq<nat>)
    requires mux.Valid()
    modifies mux
    ensures mux.Valid() && |used| == |rounds| && mux.outputs == old(mux.outputs) + received
    ensures Behind(Total(old(mux.lanes), rounds, used), mux.lanes, received)
  {
    received, used := [], [];
    for i := 0 to |rounds|
      invariant mux.Valid() && |used| == i && mux.outputs == old(mux.outputs) + received
      invariant Behind(Total(old(mux.lanes), rounds, used), mux.lanes, received)
    {
      ghost var before := mux.lanes;
      var r, n := mux.Recv(rounds[i]);
      TotalSnoc(old(mux.lanes), rounds, used, n);
      BehindLater(Total(old(mux.lanes), rounds, used), before, received, rounds[i], 0, n);
      used := used + [n];
      if r.Item? {
        BehindTake(Total(old(mux.lanes), rounds, used), Later(before, rounds[i], 0, n), mux.lanes, received, r.output);
        received := received + [r.output];
      }
    }
  }
}
