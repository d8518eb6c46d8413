/**
  The scheduled-message list of the cooperative multi-tasker (src-rp/cmt/cmt.c) as a value.

  The firmware keeps scheduled messages in the order they fall due and stores in each entry
  only the time between it and its predecessor, so that the 1 ms tick decrements one number.
  Here that list is compared with a plain table of absolute deadlines.
*/
module DeltaList {

  /** A message: its id, its handler (0 stands for none) and its payload. */
  datatype Message = Message(id: int, handler: int, data: int)

  /** One list entry.  `serial` numbers the schedule calls; the firmware does not store it. */
  datatype Item = Item(remaining: int, core: nat, requested: int, msg: Message, serial: nat)

  /** A schedule call: the tick count when it was made, and its arguments. */
  datatype Request = Request(at: int, core: nat, ms: int, msg: Message)

  /** A message with an absolute time: the deadline of a pending one, the posting time of a posted one. */
  datatype Due = Due(at: int, core: nat, msg: Message, serial: nat)

  datatype Op =
    | Schedule(core: nat, ms: int, msg: Message)
    | Cancel(id: int, handler: int, core: nat)
    | Tick

  // ---------------------------------------------------------------- the delta list

  /** Where a new entry goes: times equal to an entry's go in front of it. */
  function Insert(items: seq<Item>, x: Item): seq<Item> {
    if items == [] then [x]
    else if x.remaining <= items[0].remaining then
      [x, items[0].(remaining := items[0].remaining - x.remaining)] + items[1..]
    else
      [items[0]] + Insert(items[1..], x.(remaining := x.remaining - items[0].remaining))
  }

  predicate Matches(id: int, handler: int, core: nat, x: Item) {
    x.core == core && x.msg.id == id && x.msg.handler == handler
  }

  /** The index of the first entry to cancel, or the length if there is none. */
  function Find(items: seq<Item>, id: int, handler: int, core: nat): (i: nat)
    ensures i <= |items|
    ensures i < |items| ==> Matches(id, handler, core, items[i])
    ensures forall j :: 0 <= j < i ==> !Matches(id, handler, core, items[j])
  {
    if items == [] || Matches(id, handler, core, items[0]) then 0
    else 1 + Find(items[1..], id, handler, core)
  }

  /** Gives the first entry `ms` more to wait. */
  function Delay(items: seq<Item>, ms: int): seq<Item> {
    if items == [] then [] else [items[0].(remaining := items[0].remaining + ms)] + items[1..]
  }

  /** The list without entry `i`, whose time passes to its successor. */
  function Unlink(items: seq<Item>, i: nat): (rest: seq<Item>)
    requires i < |items|
    ensures |rest| == |items| - 1
  {
    if i == 0 then Delay(items[1..], items[0].remaining) else [items[0]] + Unlink(items[1..], i - 1)
  }

  /** How many leading entries have no time left. */
  function Expired(items: seq<Item>): (k: nat)
    ensures k <= |items|
  {
    if items == [] || items[0].remaining > 0 then 0 else 1 + Expired(items[1..])
  }

  /** The postings made for some entries at time `at`. */
  function Post(items: seq<Item>, at: int): (ds: seq<Due>)
    ensures |ds| == |items|
  {
    if items == [] then [] else [Due(at, items[0].core, items[0].msg, items[0].serial)] + Post(items[1..], at)
  }

  /** The scheduler, with a history of what was asked, posted and cancelled. */
  datatype State = State(items: seq<Item>, now: int, asked: seq<Request>, posted: seq<Due>, cancelled: set<nat>)

  const START := State([], 0, [], [], {})

  function Step(s: State, op: Op): State {
    match op
    case Schedule(core, ms, msg) =>
      s.(items := Insert(s.items, Item(ms, core, ms, msg, |s.asked|)),
         asked := s.asked + [Request(s.now, core, ms, msg)])
    case Cancel(id, handler, core) =>
      var i := Find(s.items, id, handler, core);
      if i == |s.items| then s
      else s.(items := Unlink(s.items, i), cancelled := s.cancelled + {s.items[i].serial})
    case Tick =>
      var items := Delay(s.items, -1);
      var k := Expired(items);
      s.(items := items[k..], now := s.now + 1, posted := s.posted + Post(items[..k], s.now + 1))
  }

  function Run(s: State, ops: seq<Op>): State
    decreases |ops|
  {
    if ops == [] then s else Run(Step(s, ops[0]), ops[1..])
  }

  /** What `scheduled_msg_cancel3` returns: the entry's own delta, 0 when nothing matches. */
  function CancelReturn(items: seq<Item>, id: int, handler: int, core: nat): int {
    var i := Find(items, id, handler, core);
    if i == |items| then 0 else items[i].remaining
  }

  // ---------------------------------------------------------------- the table of deadlines

  /** The same scheduler with absolute deadlines in place of differences. */
  datatype Table = Table(pending: seq<Due>, now: int, asked: seq<Request>, posted: seq<Due>, cancelled: set<nat>)

  /** Adds a deadline in front of the first one that is not earlier. */
  function Place(ds: seq<Due>, d: Due): seq<Due> {
    if ds == [] || d.at <= ds[0].at then [d] + ds else [ds[0]] + Place(ds[1..], d)
  }

  predicate IsFor(id: int, handler: int, core: nat, d: Due) {
    d.core == core && d.msg.id == id && d.msg.handler == handler
  }

  function FindDue(ds: seq<Due>, id: int, handler: int, core: nat): (i: nat)
    ensures i <= |ds|
    ensures i < |ds| ==> IsFor(id, handler, core, ds[i])
    ensures forall j :: 0 <= j < i ==> !IsFor(id, handler, core, ds[j])
  {
    if ds == [] || IsFor(id, handler, core, ds[0]) then 0
    else 1 + FindDue(ds[1..], id, handler, core)
  }

  /** Every deadline that has been reached, wherever it stands in the table, posted at `now`. */
  function Ripe(ds: seq<Due>, now: int): seq<Due> {
    if ds == [] then []
    else if ds[0].at <= now then [ds[0].(at := now)] + Ripe(ds[1..], now)
    else Ripe(ds[1..], now)
  }

  function Unripe(ds: seq<Due>, now: int): seq<Due> {
    if ds == [] then []
    else if ds[0].at <= now then Unripe(ds[1..], now)
    else [ds[0]] + Unripe(ds[1..], now)
  }

  function TableStep(t: Table, op: Op): Table {
    match op
    case Schedule(core, ms, msg) =>
      t.(pending := Place(t.pending, Due(t.now + ms, core, msg, |t.asked|)),
         asked := t.asked + [Request(t.now, core, ms, msg)])
    case Cancel(id, handler, core) =>
      var i := FindDue(t.pending, id, handler, core);
      if i == |t.pending| then t
      else t.(pending := t.pending[..i] + t.pending[i + 1..], cancelled := t.cancelled + {t.pending[i].serial})
    case Tick =>
      t.(pending := Unripe(t.pending, t.now + 1), now := t.now + 1,
         posted := t.posted + Ripe(t.pending, t.now + 1))
  }

  function TableRun(t: Table, ops: seq<Op>): Table
    decreases |ops|
  {
    if ops == [] then t else TableRun(TableStep(t, ops[0]), ops[1..])
  }

  /** The deadlines a delta list stands for when its first difference counts from `base`. */
  function Dues(items: seq<Item>, base: int): (ds: seq<Due>)
    ensures |ds| == |items|
  {
    if items == [] then []
    else
      var at := base + items[0].remaining;
      [Due(at, items[0].core, items[0].msg, items[0].serial)] + Dues(items[1..], at)
  }

  function Abstract(s: State): Table {
    Table(Dues(s.items, s.now), s.now, s.asked, s.posted, s.cancelled)
  }

  // ---------------------------------------------------------------- the list refines the table

  lemma {:induction false} InsertPlaces(items: seq<Item>, x: Item, base: int)
    ensures Dues(Insert(items, x), base)
         == Place(Dues(items, base), Due(base + x.remaining, x.core, x.msg, x.serial))
    decreases |items|
  {
    if items == [] {
    } else if x.remaining <= items[0].remaining {
      var rest := [items[0].(remaining := items[0].remaining - x.remaining)] + items[1..];
      assert Insert(items, x) == [x] + rest;
      assert ([x] + rest)[1..] == rest && rest[1..] == items[1..];
    } else {
      var d := items[0].remaining;
      var y := x.(remaining := x.remaining - d);
      InsertPlaces(items[1..], y, base + d);
      assert Insert(items, x)[1..] == Insert(items[1..], y);
    }
  }

  lemma {:induction false} DelayShifts(items: seq<Item>, ms: int, base: int)
    ensures Dues(Delay(items, ms), base) == Dues(items, base + ms)
  {
    if items != [] {
      assert Delay(items, ms)[1..] == items[1..];
    }
  }

  lemma {:induction false} UnlinkAt(items: seq<Item>, i: nat, j: nat)
    requires i < |items| && j < |items| - 1
    ensures Unlink(items, i)[j] ==
      if j < i then items[j]
      else if j == i then items[i + 1].(remaining := items[i + 1].remaining + items[i].remaining)
      else items[j + 1]
    decreases i
  {
    if i == 0 {
    } else if j > 0 {
      UnlinkAt(items[1..], i - 1, j - 1);
    }
  }

  lemma CutLater(d: Due, ds: seq<Due>, i: nat)
    requires 0 < i <= |ds|
    ensures ([d] + ds)[..i] + ([d] + ds)[i + 1..] == [d] + (ds[..i - 1] + ds[i..])
  { }

  lemma DuesOf(x: Item, rest: seq<Item>, base: int)
    ensures Dues([x] + rest, base)
         == [Due(base + x.remaining, x.core, x.msg, x.serial)] + Dues(rest, base + x.remaining)
  {
    assert ([x] + rest)[1..] == rest;
  }

  lemma {:induction false} UnlinkRemoves(items: seq<Item>, i: nat, base: int)
    requires i < |items|
    ensures Dues(Unlink(items, i), base) == Dues(items, base)[..i] + Dues(items, base)[i + 1..]
    decreases i
  {
    var x, rest := items[0], items[1..];
    var at := base + x.remaining;
    if i == 0 {
      DelayShifts(rest, x.remaining, base);
    } else {
      UnlinkRemoves(rest, i - 1, at);
      DuesOf(x, Unlink(rest, i - 1), base);
      CutLater(Due(at, x.core, x.msg, x.serial), Dues(rest, at), i);
    }
  }

  lemma {:induction false} DueAt(items: seq<Item>, base: int, i: nat)
    requires i < |items|
    ensures Dues(items, base)[i].core == items[i].core
    ensures Dues(items, base)[i].msg == items[i].msg
    ensures Dues(items, base)[i].serial == items[i].serial
    decreases i
  {
    if i == 0 {
    } else {
      DueAt(items[1..], base + items[0].remaining, i - 1);
    }
  }

  lemma {:induction false} SameFind(items: seq<Item>, base: int, id: int, handler: int, core: nat)
    ensures Find(items, id, handler, core) == FindDue(Dues(items, base), id, handler, core)
    decreases |items|
  {
    if items == [] {
    } else {
      SameFind(items[1..], base + items[0].remaining, id, handler, core);
    }
  }

  predicate NonNegative(items: seq<Item>) { forall i :: 0 <= i < |items| ==> items[i].remaining >= 0 }

  lemma {:induction false} NothingRipe(items: seq<Item>, base: int, now: int)
    requires NonNegative(items) && base > now
    ensures Ripe(Dues(items, base), now) == [] && Unripe(Dues(items, base), now) == Dues(items, base)
    decreases |items|
  {
    if items == [] {
    } else {
      NothingRipe(items[1..], base + items[0].remaining, now);
    }
  }

  /** The entries a tick takes off the front are exactly the ripe deadlines. */
  lemma {:induction false} ExpiryIsRipeness(items: seq<Item>, now: int)
    requires NonNegative(items)
    ensures Ripe(Dues(items, now), now) == Post(items[..Expired(items)], now)
    ensures Unripe(Dues(items, now), now) == Dues(items[Expired(items)..], now)
    decreases |items|
  {
    if items == [] {
    } else if items[0].remaining > 0 {
      NothingRipe(items[1..], now + items[0].remaining, now);
      assert items[..0] == [] && items[0..] == items;
    } else {
      var k := Expired(items);
      ExpiryIsRipeness(items[1..], now);
      assert items[..k][1..] == items[1..][..k - 1] && items[k..] == items[1..][k - 1..];
    }
  }

  /** Every entry waits no longer than it asked for, counting `before` ms ahead of the list. */
  predicate Within(items: seq<Item>, before: int) {
    items == [] ||
    (items[0].remaining >= 0
     && before + items[0].remaining <= items[0].requested
     && Within(items[1..], before + items[0].remaining))
  }

  predicate HeadWaits(items: seq<Item>) { items == [] || items[0].remaining >= 1 }

  /** Every entry but the first has a non-negative delta; holds in every run, whatever the delays asked for. */
  predicate Sorted(items: seq<Item>) { forall i :: 1 <= i < |items| ==> items[i].remaining >= 0 }

  /** What holds between operations when every delay asked for is at least 1 ms. */
  predicate Good(s: State) { Within(s.items, 0) && HeadWaits(s.items) }

  predicate Positive(op: Op) { op.Schedule? ==> op.ms >= 1 }

  predicate AllPositive(ops: seq<Op>) { forall i :: 0 <= i < |ops| ==> Positive(ops[i]) }

  lemma {:induction false} WithinMeans(items: seq<Item>, before: int, i: nat)
    requires Within(items, before) && before >= 0 && i < |items|
    ensures 0 <= items[i].remaining <= items[i].requested
    decreases i
  {
    if i == 0 {
    } else {
      WithinMeans(items[1..], before + items[0].remaining, i - 1);
    }
  }

  lemma {:induction false} WithinNonNegative(items: seq<Item>, before: int)
    requires Within(items, before)
    ensures NonNegative(items)
    decreases |items|
  {
    if items == [] {
    } else {
      WithinNonNegative(items[1..], before + items[0].remaining);
      assert items == [items[0]] + items[1..];
    }
  }

  lemma {:induction false} InsertWithin(items: seq<Item>, x: Item, before: int)
    requires Within(items, before) && x.remaining >= 0 && before + x.remaining <= x.requested
    ensures Within(Insert(items, x), before)
    decreases |items|
  {
    if items == [] {
      assert Insert(items, x)[1..] == [];
    } else if x.remaining <= items[0].remaining {
      var rest := [items[0].(remaining := items[0].remaining - x.remaining)] + items[1..];
      assert Insert(items, x)[1..] == rest && rest[1..] == items[1..];
    } else {
      var y := x.(remaining := x.remaining - items[0].remaining);
      InsertWithin(items[1..], y, before + items[0].remaining);
      assert Insert(items, x)[1..] == Insert(items[1..], y);
    }
  }

  lemma {:induction false} WithinEarlier(items: seq<Item>, before: int, after: int)
    requires Within(items, before) && after <= before
    ensures Within(items, after)
    decreases |items|
  {
    if items == [] {
    } else {
      WithinEarlier(items[1..], before + items[0].remaining, after + items[0].remaining);
    }
  }

  lemma {:induction false} DelayWithin(items: seq<Item>, ms: int, before: int)
    requires Within(items, before + ms) && (items == [] || items[0].remaining + ms >= 0)
    ensures Within(Delay(items, ms), before)
  {
    if items != [] {
      assert Delay(items, ms)[1..] == items[1..];
    }
  }

  lemma {:induction false} UnlinkWithin(items: seq<Item>, i: nat, before: int)
    requires Within(items, before) && i < |items|
    ensures Within(Unlink(items, i), before)
    decreases i
  {
    if i == 0 {
      DelayWithin(items[1..], items[0].remaining, before);
    } else {
      UnlinkWithin(items[1..], i - 1, before + items[0].remaining);
      assert Unlink(items, i)[1..] == Unlink(items[1..], i - 1);
    }
  }

  lemma {:induction false} DropWithin(items: seq<Item>)
    requires Within(items, 0)
    ensures Within(items[Expired(items)..], 0) && HeadWaits(items[Expired(items)..])
    decreases |items|
  {
    var k := Expired(items);
    if items == [] || items[0].remaining > 0 {
      assert items[k..] == items;
    } else {
      DropWithin(items[1..]);
      assert items[k..] == items[1..][k - 1..];
    }
  }

  /** A schedule is the placing of a deadline, for every list and every delay. */
  lemma ScheduleRefines(s: State, op: Op)
    requires op.Schedule?
    ensures Abstract(Step(s, op)) == TableStep(Abstract(s), op)
  {
    InsertPlaces(s.items, Item(op.ms, op.core, op.ms, op.msg, |s.asked|), s.now);
  }

  /** A cancel takes one deadline out, for every list. */
  lemma CancelRefines(s: State, op: Op)
    requires op.Cancel?
    ensures Abstract(Step(s, op)) == TableStep(Abstract(s), op)
  {
    SameFind(s.items, s.now, op.id, op.handler, op.core);
    var i := Find(s.items, op.id, op.handler, op.core);
    if i < |s.items| {
      UnlinkRemoves(s.items, i, s.now);
      DueAt(s.items, s.now, i);
    }
  }

  lemma TickRefines(s: State)
    requires Sorted(s.items) && HeadWaits(s.items)
    ensures Abstract(Step(s, Tick)) == TableStep(Abstract(s), Tick)
  {
    DelayShifts(s.items, -1, s.now + 1);
    ExpiryIsRipeness(Delay(s.items, -1), s.now + 1);
  }

  /** Every operation keeps the list in shape. */
  lemma StepKeepsGood(s: State, op: Op)
    requires Good(s) && Positive(op)
    ensures Good(Step(s, op))
  {
    match op
    case Schedule(core, ms, msg) => InsertWithin(s.items, Item(ms, core, ms, msg, |s.asked|), 0);
    case Cancel(id, handler, core) =>
      var i := Find(s.items, id, handler, core);
      if i < |s.items| {
        UnlinkWithin(s.items, i, 0);
        WithinNonNegative(s.items, 0);
      }
    case Tick =>
      var items := Delay(s.items, -1);
      if s.items != [] {
        WithinEarlier(s.items[1..], s.items[0].remaining, s.items[0].remaining - 1);
        assert items[1..] == s.items[1..];
      }
      DropWithin(items);
  }

  lemma StepRefines(s: State, op: Op)
    requires Good(s) && Positive(op)
    ensures Good(Step(s, op)) && Abstract(Step(s, op)) == TableStep(Abstract(s), op)
  {
    StepKeepsGood(s, op);
    WithinNonNegative(s.items, 0);
    match op
    case Schedule(_, _, _) => ScheduleRefines(s, op);
    case Cancel(_, _, _) => CancelRefines(s, op);
    case Tick => TickRefines(s);
  }

  /**
    For every run of schedules, cancels and ticks the delta list stands for exactly the deadlines
    the table holds, and has posted and cancelled exactly the same messages.
  */
  lemma {:induction false} RunRefines(s: State, ops: seq<Op>)
    requires Good(s) && AllPositive(ops)
    ensures Good(Run(s, ops)) && Abstract(Run(s, ops)) == TableRun(Abstract(s), ops)
    decreases |ops|
  {
    if ops == [] {
    } else {
      assert Positive(ops[0]);
      StepRefines(s, ops[0]);
      RunRefines(Step(s, ops[0]), ops[1..]);
    }
  }

  /** No delta ever leaves 0..ms_requested, so none wraps round 32 bits, and the head is never idle. */
  lemma DeltasBounded(ops: seq<Op>)
    requires AllPositive(ops)
    ensures forall i :: 0 <= i < |Run(START, ops).items| ==>
      0 <= Run(START, ops).items[i].remaining <= Run(START, ops).items[i].requested
    ensures HeadWaits(Run(START, ops).items)
  {
    RunRefines(START, ops);
    var items := Run(START, ops).items;
    forall i | 0 <= i < |items| ensures 0 <= items[i].remaining <= items[i].requested {
      WithinMeans(items, 0, i);
    }
  }

  // ---------------------------------------------------------------- what the table promises

  /** The time and content of a posting, as asked for by request `r`, the `k`-th one. */
  function AsAsked(r: Request, k: nat): Due { Due(r.at + r.ms, r.core, r.msg, k) }

  /** Earlier first; at one time the newest request first. */
  predicate Before(a: Due, b: Due) { a.at < b.at || (a.at == b.at && a.serial > b.serial) }

  predicate Ordered(ds: seq<Due>) { forall i, j :: 0 <= i < j < |ds| ==> Before(ds[i], ds[j]) }

  predicate Faithful(ds: seq<Due>, asked: seq<Request>) {
    forall d :: d in ds ==> d.serial < |asked| && d == AsAsked(asked[d.serial], d.serial)
  }

  ghost function Serials(ds: seq<Due>): set<nat> { set d | d in ds :: d.serial }

  /** Every request is pending, posted or cancelled, and only one of these. */
  ghost predicate Accounted(t: Table) {
    && Serials(t.pending) !! Serials(t.posted) !! t.cancelled
    && (forall k: nat :: k < |t.asked| <==> k in Serials(t.pending) || k in Serials(t.posted) || k in t.cancelled)
  }

  ghost predicate OnTime(t: Table) {
    && Ordered(t.pending) && Faithful(t.pending, t.asked)
    && Ordered(t.posted) && Faithful(t.posted, t.asked)
    && (forall d :: d in t.pending ==> d.at > t.now)
    && (forall d :: d in t.posted ==> d.at <= t.now)
    && Accounted(t)
  }

  lemma {:induction false} PlaceKeeps(ds: seq<Due>, d: Due)
    requires Ordered(ds) && (forall e :: e in ds ==> e.serial < d.serial)
    ensures Ordered(Place(ds, d))
    ensures forall e :: e in Place(ds, d) <==> e == d || e in ds
    decreases |ds|
  {
    if ds == [] || d.at <= ds[0].at {
    } else {
      PlaceKeeps(ds[1..], d);
      var rest := Place(ds[1..], d);
      assert forall e :: e in ds <==> e == ds[0] || e in ds[1..];
      forall j | 0 <= j < |rest| ensures Before(ds[0], rest[j]) {
        assert rest[j] in rest;
        if rest[j] != d {
          var i :| 0 <= i < |ds[1..]| && ds[1..][i] == rest[j];
          assert ds[i + 1] == rest[j];
        }
      }
    }
  }

  predicate AllAt(ds: seq<Due>, at: int) { forall d :: d in ds ==> d.at == at }

  predicate AllLater(ds: seq<Due>, at: int) { forall d :: d in ds ==> d.at > at }

  lemma {:induction false} NoneRipe(ds: seq<Due>, now: int)
    requires AllLater(ds, now)
    ensures Ripe(ds, now) == [] && Unripe(ds, now) == ds
    decreases |ds|
  {
    if ds == [] {
    } else {
      assert ds[0] in ds;
      NoneRipe(ds[1..], now);
    }
  }

  lemma FirstIsLater(ds: seq<Due>, now: int)
    requires Ordered(ds) && ds != [] && ds[0].at > now
    ensures AllLater(ds, now)
  {
    forall d | d in ds ensures d.at > now {
      var i :| 0 <= i < |ds| && ds[i] == d;
      if i > 0 { assert Before(ds[0], ds[i]); }
    }
  }

  /** In an ordered table whose deadlines are not past, a tick takes a first part and leaves the rest. */
  lemma {:induction false} Ripens(ds: seq<Due>, now: int)
    requires Ordered(ds) && AllLater(ds, now - 1)
    ensures ds == Ripe(ds, now) + Unripe(ds, now)
    ensures AllAt(Ripe(ds, now), now) && AllLater(Unripe(ds, now), now)
    decreases |ds|
  {
    if ds == [] {
    } else if ds[0].at > now {
      FirstIsLater(ds, now);
      NoneRipe(ds, now);
    } else {
      assert ds[0] in ds;
      Ripens(ds[1..], now);
      RipensFirst(ds, now);
    }
  }

  lemma RipensFirst(ds: seq<Due>, now: int)
    requires ds != [] && ds[0].at == now && ds[1..] == Ripe(ds[1..], now) + Unripe(ds[1..], now)
    ensures ds == Ripe(ds, now) + Unripe(ds, now)
  {
    assert ds == [ds[0]] + ds[1..];
  }

  lemma OrderedParts(a: seq<Due>, b: seq<Due>)
    requires Ordered(a + b)
    ensures Ordered(a) && Ordered(b)
  {
    forall i, j | 0 <= i < j < |a| ensures Before(a[i], a[j]) {
      assert (a + b)[i] == a[i] && (a + b)[j] == a[j];
    }
    forall i, j | 0 <= i < j < |b| ensures Before(b[i], b[j]) {
      assert (a + b)[|a| + i] == b[i] && (a + b)[|a| + j] == b[j];
    }
  }

  lemma OrderedJoin(a: seq<Due>, b: seq<Due>, at: int)
    requires Ordered(a) && Ordered(b) && (forall d :: d in a ==> d.at < at) && AllAt(b, at)
    ensures Ordered(a + b)
  {
    forall i, j | 0 <= i < j < |a + b| ensures Before((a + b)[i], (a + b)[j]) {
      if i < |a| <= j {
        assert a[i] in a && b[j - |a|] in b;
      }
    }
  }

  lemma ScheduleOnTime(t: Table, op: Op)
    requires OnTime(t) && op.Schedule? && op.ms >= 1
    ensures OnTime(TableStep(t, op))
  {
    var d := Due(t.now + op.ms, op.core, op.msg, |t.asked|);
    PlaceKeeps(t.pending, d);
    var t' := TableStep(t, op);
    assert Faithful(t'.pending, t'.asked);
    assert Serials(t'.pending) == Serials(t.pending) + {d.serial} by {
      assert d in t'.pending;
    }
  }

  lemma CancelOnTime(t: Table, op: Op)
    requires OnTime(t) && op.Cancel?
    ensures OnTime(TableStep(t, op))
  {
    var i := FindDue(t.pending, op.id, op.handler, op.core);
    if i < |t.pending| {
      var rest := t.pending[..i] + t.pending[i + 1..];
      var d := t.pending[i];
      assert forall e :: e in t.pending <==> e == d || e in rest;
      assert Serials(t.pending) == Serials(rest) + {d.serial};
      RemovedFromOrder(t.pending, i);
      forall e | e in rest ensures e.serial != d.serial {
        assert e in t.pending && e != d;
      }
    }
  }

  lemma TickOnTime(t: Table)
    requires OnTime(t)
    ensures OnTime(TableStep(t, Tick))
  {
    var now := t.now + 1;
    Ripens(t.pending, now);
    var ripe, rest := Ripe(t.pending, now), Unripe(t.pending, now);
    var t' := TableStep(t, Tick);
    assert Serials(t.pending) == Serials(ripe) + Serials(rest);
    assert Serials(t'.posted) == Serials(t.posted) + Serials(ripe);
    assert Serials(ripe) !! Serials(rest) by {
      forall a, b | a in ripe && b in rest ensures a.serial != b.serial {
        assert a in t.pending && b in t.pending;
      }
    }
    OrderedParts(ripe, rest);
    OrderedJoin(t.posted, ripe, now);
  }

  lemma {:induction false} RunOnTime(t: Table, ops: seq<Op>)
    requires OnTime(t) && AllPositive(ops)
    ensures OnTime(TableRun(t, ops))
    decreases |ops|
  {
    if ops == [] {
    } else {
      assert Positive(ops[0]);
      match ops[0] {
        case Schedule(_, _, _) => ScheduleOnTime(t, ops[0]);
        case Cancel(_, _, _) => CancelOnTime(t, ops[0]);
        case Tick => TickOnTime(t);
      }
      RunOnTime(TableStep(t, ops[0]), ops[1..]);
    }
  }

  /**
    In every run each message that was not cancelled is posted exactly once, as soon as the tick
    count reaches its deadline and not before, to the core it was scheduled for; postings come in
    deadline order, the newest request first among equals; a cancelled one is never posted.
  */
  lemma EachPostedOnceOnTime(ops: seq<Op>, k: nat)
    requires AllPositive(ops) && k < |Run(START, ops).asked|
    ensures var s := Run(START, ops);
      var d := AsAsked(s.asked[k], k);
      && (d in s.posted <==> k !in s.cancelled && d.at <= s.now)
      && (forall e :: e in s.posted && e.serial == k ==> e == d)
      && (forall i, j :: 0 <= i < j < |s.posted| ==> Before(s.posted[i], s.posted[j]) && s.posted[i].serial != s.posted[j].serial)
  {
    RunRefines(START, ops);
    RunOnTime(Abstract(START), ops);
    var t := Abstract(Run(START, ops));
    assert t.posted == Run(START, ops).posted && t.asked == Run(START, ops).asked;
    var d := AsAsked(t.asked[k], k);
    if k !in t.cancelled && d.at <= t.now {
      assert k !in Serials(t.pending) by {
        forall e | e in t.pending ensures e.serial != k { }
      }
      var e :| e in t.posted && e.serial == k;
      assert e == d;
    }
    if d in t.posted {
      assert k in Serials(t.posted);
    }
    forall i, j | 0 <= i < j < |t.posted| ensures t.posted[i].serial != t.posted[j].serial {
      assert t.posted[i] in t.posted && t.posted[j] in t.posted && Before(t.posted[i], t.posted[j]);
    }
  }

  lemma RemovedFromOrder(ds: seq<Due>, i: nat)
    requires Ordered(ds) && i < |ds|
    ensures forall e :: e in ds[..i] + ds[i + 1..] <==> e in ds && e != ds[i]
  {
    var rest := ds[..i] + ds[i + 1..];
    forall e | e in rest ensures e != ds[i] && e in ds {
      var j :| 0 <= j < |rest| && rest[j] == e;
      var m := if j < i then j else j + 1;
      assert ds[m] == e;
      if m < i { assert Before(ds[m], ds[i]); } else { assert Before(ds[i], ds[m]); }
    }
    forall e | e in ds && e != ds[i] ensures e in rest {
      var m :| 0 <= m < |ds| && ds[m] == e;
      assert rest[if m < i then m else m - 1] == e;
    }
  }

  /** `d` is the first of `before` that the cancel names, and `after` is `before` without it. */
  ghost predicate TakesOut(before: seq<Due>, after: seq<Due>, op: Op, d: Due)
    requires op.Cancel?
  {
    && d in before && IsFor(op.id, op.handler, op.core, d)
    && (forall e :: e in before && e != d && IsFor(op.id, op.handler, op.core, e) ==> Before(d, e))
    && (forall e :: e in after <==> e in before && e != d)
  }

  lemma OtherMatchLater(ds: seq<Due>, op: Op, i: nat, e: Due)
    requires op.Cancel? && Ordered(ds) && i == FindDue(ds, op.id, op.handler, op.core) < |ds|
    requires e in ds && e != ds[i] && IsFor(op.id, op.handler, op.core, e)
    ensures Before(ds[i], e)
  {
    var j :| 0 <= j < |ds| && ds[j] == e;
    assert j > i;
  }

  lemma FirstMatchTaken(ds: seq<Due>, op: Op, i: nat)
    requires op.Cancel? && Ordered(ds) && i == FindDue(ds, op.id, op.handler, op.core) < |ds|
    ensures TakesOut(ds, ds[..i] + ds[i + 1..], op, ds[i])
  {
    forall e | e in ds && e != ds[i] && IsFor(op.id, op.handler, op.core, e) ensures Before(ds[i], e) {
      OtherMatchLater(ds, op, i, e);
    }
    RemovedFromOrder(ds, i);
  }

  /**
    A cancel takes out, of the messages with that id, handler and core, the one that would be
    posted first, and moves no other deadline; without such a message it changes nothing.
  */
  lemma CancelTakesFirst(ops: seq<Op>, op: Op)
    requires AllPositive(ops) && op.Cancel?
    ensures var s := Run(START, ops);
      var before, s' := Dues(s.items, s.now), Step(s, op);
      || ((forall d :: d in before ==> !IsFor(op.id, op.handler, op.core, d)) && s' == s)
      || (exists d :: TakesOut(before, Dues(s'.items, s'.now), op, d)
                      && s' == s.(items := s'.items, cancelled := s.cancelled + {d.serial}))
  {
    RunRefines(START, ops);
    RunOnTime(Abstract(START), ops);
    var s := Run(START, ops);
    var ds := Dues(s.items, s.now);
    SameFind(s.items, s.now, op.id, op.handler, op.core);
    var i := FindDue(ds, op.id, op.handler, op.core);
    if i < |ds| {
      CancelRefines(s, op);
      DueAt(s.items, s.now, i);
      FirstMatchTaken(ds, op, i);
    }
  }

  // ---------------------------------------------------------------- delays below 1 ms, and the value a cancel returns

  lemma {:induction false} InsertSorted(items: seq<Item>, x: Item)
    requires Sorted(items)
    ensures Sorted(Insert(items, x))
    ensures Insert(items, x)[0].remaining == x.remaining || (items != [] && Insert(items, x)[0] == items[0] && x.remaining > items[0].remaining)
    decreases |items|
  {
    if items != [] && x.remaining > items[0].remaining {
      InsertSorted(items[1..], x.(remaining := x.remaining - items[0].remaining));
    }
  }

  lemma StepSorted(s: State, op: Op)
    requires Sorted(s.items)
    ensures Sorted(Step(s, op).items)
  {
    match op
    case Schedule(core, ms, msg) => InsertSorted(s.items, Item(ms, core, ms, msg, |s.asked|));
    case Cancel(id, handler, core) =>
      var i := Find(s.items, id, handler, core);
      if i < |s.items| {
        forall j | 1 <= j < |s.items| - 1 ensures Unlink(s.items, i)[j].remaining >= 0 {
          UnlinkAt(s.items, i, j);
        }
      }
    case Tick =>
  }

  lemma {:induction false} RunSorted(s: State, ops: seq<Op>)
    requires Sorted(s.items)
    ensures Sorted(Run(s, ops).items)
    decreases |ops|
  {
    if ops == [] {
    } else {
      StepSorted(s, ops[0]);
      RunSorted(Step(s, ops[0]), ops[1..]);
    }
  }

  lemma {:induction false} ZerosExpire(items: seq<Item>)
    requires NonNegative(items)
    ensures Expired(items) == |items| <==> (forall i :: 0 <= i < |items| ==> items[i].remaining == 0)
    ensures Expired(items) < |items| ==> items[Expired(items)].remaining > 0
    ensures forall i :: 0 <= i < Expired(items) ==> items[i].remaining == 0
    decreases |items|
  {
    if items == [] {
    } else {
      ZerosExpire(items[1..]);
      assert items == [items[0]] + items[1..];
    }
  }

  /** With leading zero deltas the deadline of entry `k` is `base` plus its own delta. */
  lemma {:induction false} DueAfterZeros(items: seq<Item>, base: int, k: nat)
    requires k < |items| && (forall i :: 0 <= i < k ==> items[i].remaining == 0)
    ensures Dues(items, base)[k].at == base + items[k].remaining
    ensures Dues(items, base)[k..] == Dues(items[k..], base)
    decreases k
  {
    if k == 0 {
      assert items[0..] == items && Dues(items, base)[0..] == Dues(items, base);
    } else {
      DueAfterZeros(items[1..], base, k - 1);
      assert items[k..] == items[1..][k - 1..];
      assert Dues(items, base)[k..] == Dues(items[1..], base)[k - 1..];
    }
  }

  lemma {:induction false} AllRipe(items: seq<Item>, base: int, now: int)
    requires base <= now && (forall i :: 0 <= i < |items| ==> items[i].remaining == 0)
    ensures Unripe(Dues(items, base), now) == [] && Ripe(Dues(items, base), now) == Post(items, now)
    decreases |items|
  {
    if items == [] {
    } else {
      AllRipe(items[1..], base, now);
    }
  }

  /** The unripe part of the deadlines is a tail of them: no deadline is changed by a tick. */
  lemma {:induction false} UnripeIsTail(items: seq<Item>, base: int, now: int)
    requires NonNegative(items)
    ensures var u := Unripe(Dues(items, base), now); |u| <= |items| && u == Dues(items, base)[|items| - |u|..]
    decreases |items|
  {
    if items == [] {
    } else {
      var at := base + items[0].remaining;
      if at <= now {
        UnripeIsTail(items[1..], at, now);
        var u := Unripe(Dues(items, base), now);
        assert u == Unripe(Dues(items[1..], at), now);
        assert Dues(items, base)[|items| - |u|..] == Dues(items[1..], at)[|items| - 1 - |u|..];
      } else {
        NothingRipe(items[1..], at, now);
        assert Dues(items, base)[0..] == Dues(items, base);
      }
    }
  }

  /** What a tick does when the first entry should already have gone off. */
  lemma LateHeadTick(s: State)
    requires Sorted(s.items) && s.items != [] && s.items[0].remaining <= 0
    ensures var rest := s.items[1..];
      var k := Expired(rest);
      && Step(s, Tick).items == rest[k..]
      && Step(s, Tick).posted == s.posted + [Due(s.now + 1, s.items[0].core, s.items[0].msg, s.items[0].serial)] + Post(rest[..k], s.now + 1)
  {
    var items := Delay(s.items, -1);
    var rest := s.items[1..];
    var k := Expired(rest);
    assert items[1..] == rest;
    assert Expired(items) == k + 1 && items[k + 1..] == rest[k..];
    assert items[..k + 1][1..] == rest[..k];
    assert s.posted + ([Due(s.now + 1, s.items[0].core, s.items[0].msg, s.items[0].serial)] + Post(rest[..k], s.now + 1))
        == s.posted + [Due(s.now + 1, s.items[0].core, s.items[0].msg, s.items[0].serial)] + Post(rest[..k], s.now + 1);
  }

  lemma LateHeadTable(s: State)
    requires s.items != [] && s.items[0].remaining <= 0
    ensures var late := Dues(s.items[1..], s.now + s.items[0].remaining);
      var t' := TableStep(Abstract(s), Tick);
      && t'.pending == Unripe(late, s.now + 1)
      && t'.posted == s.posted + [Due(s.now + 1, s.items[0].core, s.items[0].msg, s.items[0].serial)] + Ripe(late, s.now + 1)
  {
    var d := Due(s.now + 1, s.items[0].core, s.items[0].msg, s.items[0].serial);
    var late := Dues(s.items[1..], s.now + s.items[0].remaining);
    assert s.posted + ([d] + Ripe(late, s.now + 1)) == s.posted + [d] + Ripe(late, s.now + 1);
  }

  /** Deadlines counted from too early a time, cut off behind the leading zeros, differ from those counted from now. */
  lemma ShiftShows(rest: seq<Item>, base: int, now: int)
    requires NonNegative(rest) && base < now && Expired(rest) < |rest|
    ensures Unripe(Dues(rest, base), now) != Dues(rest[Expired(rest)..], now)
  {
    var k := Expired(rest);
    ZerosExpire(rest);
    DueAfterZeros(rest, base, k);
    UnripeIsTail(rest, base, now);
    var pending := Unripe(Dues(rest, base), now);
    if |pending| == |rest| - k {
      assert pending[0] == Dues(rest, base)[k];
    }
  }

  lemma OthersSpent(items: seq<Item>)
    requires Sorted(items) && items != []
    ensures (forall i :: 1 <= i < |items| ==> items[i].remaining == 0) <==> Expired(items[1..]) == |items[1..]|
    ensures Expired(items[1..]) == |items[1..]| ==> forall i :: 0 <= i < |items[1..]| ==> items[1..][i].remaining == 0
  {
    ZerosExpire(items[1..]);
    assert forall i :: 1 <= i < |items| ==> items[i] == items[1..][i - 1];
  }

  /** A tick with a first entry that should already have gone off treats the others as if it goes off only now. */
  lemma LateHeadDelays(s: State)
    requires Sorted(s.items) && s.items != [] && s.items[0].remaining <= 0
    ensures Abstract(Step(s, Tick)) == TableStep(Abstract(s), Tick) <==>
            (forall i :: 1 <= i < |s.items| ==> s.items[i].remaining == 0)
  {
    var rest, base, now := s.items[1..], s.now + s.items[0].remaining, s.now + 1;
    LateHeadTick(s);
    LateHeadTable(s);
    var t, t' := Abstract(Step(s, Tick)), TableStep(Abstract(s), Tick);
    OthersSpent(s.items);
    if Expired(rest) == |rest| {
      AllRipe(rest, base, now);
      assert rest[..|rest|] == rest && rest[|rest|..] == [];
      assert t.pending == [] && t.posted == t'.posted;
    } else {
      ShiftShows(rest, base, now);
      assert t.pending != t'.pending;
    }
  }

  /** The first entry has time left, or no other has. */
  predicate TickIsSafe(items: seq<Item>) {
    items == [] || items[0].remaining >= 1 || forall i :: 1 <= i < |items| ==> items[i].remaining == 0
  }

  /**
    Exactly when a tick agrees with the table of deadlines: when the list is empty, when its first
    entry has time left, or when no other entry has.  A list with a late first entry comes only
    from a delay below 1 ms.
  */
  lemma TickFaithfulIff(s: State)
    requires Sorted(s.items)
    ensures Abstract(Step(s, Tick)) == TableStep(Abstract(s), Tick) <==>
            TickIsSafe(s.items)
  {
    if HeadWaits(s.items) { TickRefines(s); } else { LateHeadDelays(s); }
  }

  /** The list and the table started from it agree now and after each operation. */
  predicate AgreesThroughout(s: State, t: Table, ops: seq<Op>)
    decreases |ops|
  {
    Abstract(s) == t && (ops == [] || AgreesThroughout(Step(s, ops[0]), TableStep(t, ops[0]), ops[1..]))
  }

  /** Every tick of the run comes when it is safe. */
  predicate TicksAreSafe(s: State, ops: seq<Op>)
    decreases |ops|
  {
    ops == [] || ((ops[0] == Tick ==> TickIsSafe(s.items)) && TicksAreSafe(Step(s, ops[0]), ops[1..]))
  }

  /** With arbitrary delays, a run agrees with the table throughout exactly when its ticks are all safe. */
  lemma {:induction false} RunFaithfulIff(s: State, ops: seq<Op>)
    requires Sorted(s.items)
    ensures AgreesThroughout(s, Abstract(s), ops) <==> TicksAreSafe(s, ops)
    decreases |ops|
  {
    if ops == [] {
    } else {
      var op := ops[0];
      StepSorted(s, op);
      RunFaithfulIff(Step(s, op), ops[1..]);
      match op
      case Schedule(_, _, _) => ScheduleRefines(s, op);
      case Cancel(_, _, _) => CancelRefines(s, op);
      case Tick =>
        TickFaithfulIff(s);
        if !TickIsSafe(s.items) { assert !AgreesThroughout(Step(s, op), TableStep(Abstract(s), op), ops[1..]); }
    }
  }

  /** A delay of 0 ms makes a 5 ms message go off a tick late: after five ticks it is still waiting. */
  lemma ZeroDelayExample(a: Message, b: Message)
    ensures var s := Run(START, [Schedule(0, 5, a), Schedule(0, 0, b), Tick, Tick, Tick, Tick, Tick]);
      s.now == 5 && s.posted == [Due(1, 0, b, 1)] && s.items == [Item(1, 0, 5, a, 0)]
  {
    var t: seq<Op> := [Tick, Tick, Tick, Tick, Tick];
    var ops := [Schedule(0, 5, a), Schedule(0, 0, b)] + t;
    var s1 := Step(START, ops[0]);
    assert s1.items == [Item(5, 0, 5, a, 0)];
    var s2 := Step(s1, ops[1]);
    assert s2.items == [Item(0, 0, 0, b, 1), Item(5, 0, 5, a, 0)];
    assert ops[1..][1..] == t;
    var x := Item(0, 0, 0, b, 1);
    var d := Delay(s2.items, -1);
    assert d == [x.(remaining := -1), Item(5, 0, 5, a, 0)];
    assert d[1..] == [Item(5, 0, 5, a, 0)];
    assert Expired(d) == 1 && d[..1] == [x.(remaining := -1)];
    assert Post(d[..1], 1) == [Due(1, 0, b, 1)];
    var s3 := Step(s2, Tick);
    assert s3.items == [Item(5, 0, 5, a, 0)] && s3.now == 1 && s3.posted == [Due(1, 0, b, 1)];
    Countdown(s3, t[1..], Item(5, 0, 5, a, 0));
    assert [Schedule(0, 5, a), Schedule(0, 0, b), Tick, Tick, Tick, Tick, Tick] == ops;
    assert Run(START, ops) == Run(s2, t) == Run(s3, t[1..]);
  }

  /** Fewer ticks than a lone entry has left only count it down. */
  lemma {:induction false} Countdown(s: State, ops: seq<Op>, x: Item)
    requires s.items == [x] && |ops| < x.remaining && (forall i :: 0 <= i < |ops| ==> ops[i] == Tick)
    ensures Run(s, ops) == s.(items := [x.(remaining := x.remaining - |ops|)], now := s.now + |ops|)
    decreases |ops|
  {
    if ops == [] {
    } else {
      var y := x.(remaining := x.remaining - 1);
      assert Delay(s.items, -1) == [y] && Expired([y]) == 0;
      assert Step(s, Tick) == s.(items := [y], now := s.now + 1);
      Countdown(Step(s, Tick), ops[1..], y);
    }
  }

  /** The full time entry `i` still has to wait. */
  function TimeLeft(items: seq<Item>, i: nat): int
    requires i < |items|
    decreases i
  {
    if i == 0 then items[0].remaining else items[0].remaining + TimeLeft(items[1..], i - 1)
  }

  lemma {:induction false} TimeLeftIsDeadline(items: seq<Item>, base: int, i: nat)
    requires i < |items|
    ensures Dues(items, base)[i].at == base + TimeLeft(items, i)
    decreases i
  {
    if i == 0 {
    } else {
      TimeLeftIsDeadline(items[1..], base + items[0].remaining, i - 1);
    }
  }

  lemma {:induction false} LaterWaitsLonger(items: seq<Item>, before: int, i: nat)
    requires Within(items, before) && 0 < i < |items|
    ensures TimeLeft(items, i) >= items[0].remaining + items[i].remaining
    decreases i
  {
    if i > 1 { LaterWaitsLonger(items[1..], before + items[0].remaining, i - 1); }
  }

  lemma {:induction false} DeltaIsDifference(items: seq<Item>, base: int, i: nat)
    requires i < |items|
    ensures items[i].remaining == Dues(items, base)[i].at - if i == 0 then base else Dues(items, base)[i - 1].at
    decreases i
  {
    if i > 0 { DeltaIsDifference(items[1..], base + items[0].remaining, i - 1); }
  }

  /** In every state, what a cancel returns is the deadline it takes out, less the one before it, or now
      if that was the first; and 0 if it takes out none. */
  lemma CancelReturnsDifference(s: State, id: int, handler: int, core: nat)
    ensures var ds := Abstract(s).pending;
      var i := FindDue(ds, id, handler, core);
      CancelReturn(s.items, id, handler, core) ==
        if i == |ds| then 0 else ds[i].at - if i == 0 then s.now else ds[i - 1].at
  {
    SameFind(s.items, s.now, id, handler, core);
    var i := Find(s.items, id, handler, core);
    if i < |s.items| { DeltaIsDifference(s.items, s.now, i); }
  }

  /**
    A cancel is documented to return the milliseconds the message had left.  It does so exactly
    when that message is the first in the list; any other one yields only the difference to its
    predecessor, which is smaller.
  */
  lemma CancelReturnsTimeLeftIff(ops: seq<Op>, id: int, handler: int, core: nat)
    requires AllPositive(ops)
    requires Find(Run(START, ops).items, id, handler, core) < |Run(START, ops).items|
    ensures var items := Run(START, ops).items;
      var i := Find(items, id, handler, core);
      (CancelReturn(items, id, handler, core) == TimeLeft(items, i) <==> i == 0)
      && CancelReturn(items, id, handler, core) <= TimeLeft(items, i)
  {
    RunRefines(START, ops);
    var items := Run(START, ops).items;
    var i := Find(items, id, handler, core);
    if i > 0 { LaterWaitsLonger(items, 0, i); }
  }
}
