/**
  The scheduled-message list on linked entries from a fixed pool
  (src-rp/cmt/cmt.c and src-rp/cmt/cmt_heap.c).

  Every operation is proved to take the list its entries spell out to the list that
  `DeltaList.Step` gives, and to keep the free list and the scheduled list a partition of the pool.
*/
module Scheduler {
  import opened DeltaList

  const SCHEDULED_MESSAGES_MAX: nat := 32

  /** A pool entry: the scheduled-message data, the link and the in-use mark. */
  class Entry {
    var data: Item
    var next: Entry?
    var inUse: bool

    constructor (d: Item) { data := d; next := null; inUse := false; }
  }

  /** The entry behind entry `i`, null behind the last. */
  function After(s: seq<Entry>, i: nat): Entry?
    requires i < |s|
  {
    if i + 1 < |s| then s[i + 1] else null
  }

  /** Following `next` from `head` visits exactly the entries of `s`, in order, and ends. */
  ghost predicate Chain(head: Entry?, s: seq<Entry>)
    reads s
  {
    && head == (if s == [] then null else s[0])
    && forall i {:trigger s[i].next} :: 0 <= i < |s| ==> s[i].next == After(s, i)
  }

  ghost predicate Shows(s: seq<Entry>, items: seq<Item>)
    reads s
  {
    |s| == |items| && forall i :: 0 <= i < |s| ==> s[i].data == items[i]
  }

  /** The messages among `posted` that went to core 0, or those that went to core 1. */
  function MessagesFor(posted: seq<Due>, core0: bool): seq<Message> {
    if posted == [] then []
    else
      var d := posted[|posted| - 1];
      MessagesFor(posted[..|posted| - 1], core0) + if (d.core == 0) == core0 then [d.msg] else []
  }

  /** A list that ends does not come back to an entry. */
  lemma {:induction false} ChainAhead(head: Entry?, s: seq<Entry>, i: nat, j: nat)
    requires Chain(head, s) && i < j < |s|
    ensures s[i] != s[j]
    decreases |s| - j
  {
    assert s[i].next == After(s, i) && s[j].next == After(s, j);
    if j + 1 == |s| {
    } else {
      ChainAhead(head, s, i + 1, j + 1);
    }
  }

  lemma ChainOthers(head: Entry?, s: seq<Entry>, i: nat)
    requires Chain(head, s) && i < |s|
    ensures forall j :: 0 <= j < |s| && j != i ==> s[j] != s[i]
  {
    forall j | 0 <= j < |s| && j != i ensures s[j] != s[i] {
      if j < i { ChainAhead(head, s, j, i); } else { ChainAhead(head, s, i, j); }
    }
  }

  lemma {:induction false} SizeOfDistinct(s: seq<Entry>)
    requires forall i, j :: 0 <= i < j < |s| ==> s[i] != s[j]
    ensures |set e | e in s| == |s|
    decreases |s|
  {
    if s == [] {
      assert (set e | e in s) == {};
    } else {
      SizeOfDistinct(s[1..]);
      assert (set e | e in s) == {s[0]} + set e | e in s[1..];
    }
  }

  lemma SameSizeSubset(a: set<Entry>, b: set<Entry>)
    requires a <= b && |a| == |b|
    ensures a == b
  {
    var rest := b - a;
    assert b == a + rest && |b| == |a| + |rest|;
    assert rest == {};
  }

  /** Coming past `i` entries, all earlier than the new one, has left `r` of its time. */
  predicate Walked(items: seq<Item>, x: Item, i: nat, r: int)
    requires i <= |items|
  {
    if i == 0 then r == x.remaining else r > 0 && Walked(items, x, i - 1, r + items[i - 1].remaining)
  }

  /** Entry `i` and what follows it, once a new entry with time `r` stands in front. */
  function Followers(items: seq<Item>, i: nat, r: int): (rest: seq<Item>)
    requires i <= |items|
    ensures |rest| == |items| - i
  {
    if i == |items| then [] else [items[i].(remaining := items[i].remaining - r)] + items[i + 1..]
  }

  lemma InsertFirst(items: seq<Item>, x: Item)
    requires items != [] ==> x.remaining <= items[0].remaining
    ensures Insert(items, x) == [x] + Followers(items, 0, x.remaining)
  { }

  lemma FollowersOf(items: seq<Item>, i: nat, r: int)
    requires i <= |items|
    ensures Followers(items[i..], 0, r) == Followers(items, i, r)
  {
    if i < |items| {
      assert items[i..][1..] == items[i + 1..];
    } else {
    }
  }

  /** The walk stops where `Insert` puts the entry. */
  lemma WalkInserts(items: seq<Item>, x: Item, i: nat, r: int)
    requires i <= |items| && Walked(items, x, i, r) && (i < |items| ==> r <= items[i].remaining)
    ensures Insert(items, x) == items[..i] + ([x.(remaining := r)] + Followers(items, i, r))
  {
    WalkUnfolds(items, x, i, r);
    InsertFirst(items[i..], x.(remaining := r));
    FollowersOf(items, i, r);
  }

  lemma {:induction false} WalkUnfolds(items: seq<Item>, x: Item, i: nat, r: int)
    requires i <= |items| && Walked(items, x, i, r)
    ensures Insert(items, x) == items[..i] + Insert(items[i..], x.(remaining := r))
    decreases i
  {
    if i == 0 {
      assert items[..0] + Insert(items[0..], x) == Insert(items, x) by { assert items[0..] == items; }
    } else {
      var d := items[i - 1].remaining;
      WalkUnfolds(items, x, i - 1, r + d);
      var tail := items[i - 1..];
      assert tail[1..] == items[i..] && tail[0] == items[i - 1];
      assert Insert(tail, x.(remaining := r + d)) == [items[i - 1]] + Insert(items[i..], x.(remaining := r));
      assert items[..i] == items[..i - 1] + [items[i - 1]];
    }
  }

  /** The loop of `cmt_heap_modinit` over the scheduled-message entries. */
  method LinkAll(entries: seq<Entry>)
    requires |entries| == SCHEDULED_MESSAGES_MAX && forall i, j :: 0 <= i < j < |entries| ==> entries[i] != entries[j]
    modifies entries
    ensures Chain(entries[0], entries) && forall i :: 0 <= i < |entries| ==> !entries[i].inUse
  {
    var i := 0;
    while i < SCHEDULED_MESSAGES_MAX - 1
      invariant 0 <= i <= SCHEDULED_MESSAGES_MAX - 1
      invariant forall j :: 0 <= j < i ==> entries[j].next == entries[j + 1] && !entries[j].inUse
      invariant i > 0 ==> entries[i].next == null && !entries[i].inUse
    {
      entries[i].inUse := false;
      entries[i].next := entries[i + 1];
      entries[i + 1].inUse := false;
      entries[i + 1].next := null;
      i := i + 1;
    }
  }

  lemma {:induction false} ExpiredIs(items: seq<Item>, k: nat)
    requires k <= |items| && (forall j :: 0 <= j < k ==> items[j].remaining <= 0)
    requires k < |items| ==> items[k].remaining > 0
    ensures Expired(items) == k
    decreases k
  {
    if k == 0 {
    } else {
      ExpiredIs(items[1..], k - 1);
    }
  }

  lemma {:induction false} PostAppends(items: seq<Item>, x: Item, at: int)
    ensures Post(items + [x], at) == Post(items, at) + [Due(at, x.core, x.msg, x.serial)]
    decreases |items|
  {
    if items == [] {
    } else {
      PostAppends(items[1..], x, at);
      assert (items + [x])[1..] == items[1..] + [x];
    }
  }

  /** Posting one more entry adds its message to the queue of its core. */
  lemma PostGrows(posted: seq<Due>, items: seq<Item>, k: nat, at: int)
    requires k < |items|
    ensures forall c ::
      MessagesFor(posted + Post(items[..k + 1], at), c)
      == MessagesFor(posted + Post(items[..k], at), c) + if (items[k].core == 0) == c then [items[k].msg] else []
  {
    var x := items[k];
    PostAppends(items[..k], x, at);
    assert items[..k + 1] == items[..k] + [x];
    var longer := posted + Post(items[..k + 1], at);
    assert longer[..|longer| - 1] == posted + Post(items[..k], at);
  }

  /** `next` has the list of `m` counted down by one, without the expired entries, which are posted. */
  predicate TickEffect(m: State, next: State) {
    var items := Delay(m.items, -1);
    && next.items == items[Expired(items)..]
    && next.posted == m.posted + Post(items[..Expired(items)], m.now + 1)
    && (items == [] || items[0].remaining > 0 ==> next.items == items && next.posted == m.posted)
  }

  lemma TickIs(m: State) returns (next: State)
    ensures next == Step(m, Tick) && TickEffect(m, next) && next.asked == m.asked
  {
    next := Step(m, Tick);
    var items := Delay(m.items, -1);
    if Expired(items) == 0 {
      assert m.posted + Post(items[..0], m.now + 1) == m.posted;
    }
  }

  lemma ShowsUnlinked(items: seq<Item>, s: seq<Entry>, i: nat)
    requires i < |s| == |items|
    requires forall j :: 0 <= j < |s| && j != i + 1 ==> s[j].data == items[j]
    requires i + 1 < |s| ==> s[i + 1].data == items[i + 1].(remaining := items[i + 1].remaining + items[i].remaining)
    ensures Shows(s[..i] + s[i + 1..], Unlink(items, i))
  {
    var s' := s[..i] + s[i + 1..];
    forall j | 0 <= j < |s'| ensures s'[j].data == Unlink(items, i)[j] {
      assert s'[j] == s[if j < i then j else j + 1];
      UnlinkAt(items, i, j);
    }
  }

  lemma ShowsInserted(items: seq<Item>, s: seq<Entry>, entry: Entry, x: Item, i: nat)
    requires i <= |s| == |items|
    requires entry.data == x.(remaining := entry.data.remaining) && Walked(items, x, i, entry.data.remaining)
    requires i < |s| ==> entry.data.remaining <= items[i].remaining
    requires i < |s| ==> s[i].data == items[i].(remaining := items[i].remaining - entry.data.remaining)
    requires forall j :: 0 <= j < |s| && j != i ==> s[j].data == items[j]
    ensures Shows(s[..i] + [entry] + s[i..], Insert(items, x))
  {
    WalkInserts(items, x, i, entry.data.remaining);
    var sched, items' := s[..i] + [entry] + s[i..], items[..i] + ([x.(remaining := entry.data.remaining)] + Followers(items, i, entry.data.remaining));
    forall j | 0 <= j < |sched| ensures sched[j].data == items'[j] {
      if j < i {
        assert sched[j] == s[j];
      } else if j > i {
        assert sched[j] == s[j - 1];
      }
    }
  }

  /**
    Both lists end, so neither repeats an entry, and `inUse` keeps them apart.  When their lengths
    add up to the size of the pool they leave no entry out.
  */
  ghost predicate Lists(pool: set<Entry>, freeHead: Entry?, free: seq<Entry>, schedHead: Entry?, sched: seq<Entry>)
    reads pool
  {
    && (forall i :: 0 <= i < |free| ==> free[i] in pool && !free[i].inUse)
    && (forall i :: 0 <= i < |sched| ==> sched[i] in pool && sched[i].inUse)
    && Chain(freeHead, free)
    && Chain(schedHead, sched)
  }

  class Scheduler {
    ghost const pool: set<Entry>
    var smdllentFree: Entry?
    var smdLl: Entry?
    var core0: seq<Message>
    var core1: seq<Message>
    /** The number of schedule calls.  The firmware has no such count; it names entries in the proofs. */
    var calls: nat
    ghost var free: seq<Entry>
    ghost var sched: seq<Entry>
    ghost var model: State

    ghost predicate PoolValid()
      reads this`smdllentFree, this`free, this`smdLl, this`sched, pool
    {
      |free| + |sched| == SCHEDULED_MESSAGES_MAX && Lists(pool, smdllentFree, free, smdLl, sched)
    }

    /** The list and the two queues are those of `m`. */
    ghost predicate Has(m: State)
      reads this`smdllentFree, this`free, this`smdLl, this`sched, this`core0, this`core1, pool
    {
      && PoolValid()
      && Shows(sched, m.items)
      && core0 == MessagesFor(m.posted, true)
      && core1 == MessagesFor(m.posted, false)
    }

    ghost predicate Valid()
      reads this, pool
    {
      Has(model) && calls == |model.asked|
    }

    /** `cmt_heap_modinit`: links the whole pool into the free list. */
    constructor (entries: seq<Entry>)
      requires |entries| == SCHEDULED_MESSAGES_MAX && forall i, j :: 0 <= i < j < |entries| ==> entries[i] != entries[j]
      modifies entries
      ensures pool == (set e | e in entries) && |pool| == SCHEDULED_MESSAGES_MAX
      ensures Valid() && model == START && free == entries
    {
      pool := set e | e in entries;
      smdllentFree := entries[0];
      smdLl := null;
      core0, core1, calls := [], [], 0;
      free, sched, model := entries, [], START;
      new;
      SizeOfDistinct(entries);
      LinkAll(entries);
    }

    /** `cmt_alloc_smdllent`: the first free entry, or null where the firmware halts with a panic. */
    method Alloc() returns (ent: Entry?)
      requires PoolValid()
      modifies this`smdllentFree, this`free, smdllentFree
      ensures ent == null <==> old(free) == []
      ensures ent == null ==> smdllentFree == old(smdllentFree) && free == old(free)
      ensures ent != null ==> ent == old(free[0]) && free == old(free[1..]) && ent.inUse && ent.next == null
      ensures Chain(smdllentFree, free)
      ensures forall i :: 0 <= i < |free| ==> free[i] != ent
    {
      ent := smdllentFree;
      if ent == null { return; }
      ChainOthers(smdllentFree, free, 0);
      assert ent.next == After(free, 0);
      smdllentFree := ent.next;
      ent.inUse := true;
      ent.next := null;
      free := free[1..];
      forall i | 0 <= i < |free| ensures free[i].next == After(free, i) {
        assert free[i] == old(free)[i + 1] && free[i] != ent && old(free[i + 1].next) == After(old(free), i + 1);
      }
    }

    /** `cmt_return_smdllent` */
    method Return(ent: Entry)
      requires Chain(smdllentFree, free) && (forall i :: 0 <= i < |free| ==> free[i] != ent)
      modifies this`smdllentFree, this`free, ent`next, ent`inUse
      ensures free == [ent] + old(free) && Chain(smdllentFree, free) && !ent.inUse
    {
      ent.inUse := false;
      ent.next := smdllentFree;
      smdllentFree := ent;
      free := [ent] + free;
      forall i | 1 <= i < |free| ensures free[i].next == After(free, i) {
        assert free[i] == old(free)[i - 1] && old(free[i - 1].next) == After(old(free), i - 1);
      }
    }

    /** The place `pnext` points at: the list head when `prev` is null, the `next` of `prev` otherwise. */
    ghost predicate AtPlace(prev: Entry?, cur: Entry?, i: nat)
      reads this
    {
      && i <= |sched|
      && prev == (if i == 0 then null else sched[i - 1])
      && cur == (if i < |sched| then sched[i] else null)
    }

    /** All is well except that `entry` is in neither list. */
    ghost predicate Detached(entry: Entry)
      reads this, pool
    {
      && entry in pool && entry.inUse && (forall j :: 0 <= j < |sched| ==> sched[j] != entry)
      && |free| + |sched| + 1 == SCHEDULED_MESSAGES_MAX
      && Lists(pool, smdllentFree, free, smdLl, sched)
    }

    /** The first lines of `_schedule_core_msg_in_ms`: takes an entry and fills it in. */
    method Take(core: nat, ms: int, msg: Message) returns (entry: Entry?)
      requires PoolValid() && Shows(sched, model.items)
      modifies this`smdllentFree, this`free, smdllentFree
      ensures entry == null <==> old(free) == []
      ensures entry == null ==> smdllentFree == old(smdllentFree) && free == old(free)
      ensures entry != null ==> Detached(entry) && entry.data == Item(ms, core, ms, msg, calls)
      ensures Shows(sched, model.items)
    {
      entry := Alloc();
      if entry == null { return; }
      forall j | 0 <= j < |sched| ensures sched[j] != entry && sched[j].next == After(sched, j) && sched[j].data == model.items[j] {
        assert old(sched[j].inUse) && old(sched[j].data) == model.items[j] && old(sched[j].next) == After(sched, j);
      }
      forall j | 0 <= j < |free| ensures free[j] in pool && free[j] != entry && !free[j].inUse {
        assert free[j] == old(free)[j + 1] && !old(free[j + 1].inUse);
      }
      entry.data := Item(ms, core, ms, msg, calls);
    }

    /**
      The loop of `_schedule_core_msg_in_ms`: walks to the place of the new entry, taking the
      differences it passes off the new entry's time and the new entry's time off its follower.
    */
    method FindPlace(entry: Entry, ghost x: Item) returns (prev: Entry?, cur: Entry?, ghost i: nat)
      requires Chain(smdLl, sched) && Shows(sched, model.items)
      requires entry.data == x && forall j :: 0 <= j < |sched| ==> sched[j] != entry
      modifies entry`data, sched`data
      ensures AtPlace(prev, cur, i) && entry.data == x.(remaining := entry.data.remaining)
      ensures Walked(model.items, x, i, entry.data.remaining)
      ensures i < |sched| ==> entry.data.remaining <= model.items[i].remaining
      ensures i < |sched| ==> sched[i].data == model.items[i].(remaining := model.items[i].remaining - entry.data.remaining)
      ensures forall j :: 0 <= j < |sched| && j != i ==> sched[j].data == model.items[j]
    {
      i, prev, cur := 0, null, smdLl;
      ghost var items := model.items;
      while cur != null
        invariant AtPlace(prev, cur, i) && entry.data == x.(remaining := entry.data.remaining)
        invariant Walked(items, x, i, entry.data.remaining)
        invariant forall j :: 0 <= j < |sched| ==> sched[j].data == items[j]
        decreases |sched| - i
        modifies entry`data, sched`data
      {
        assert sched[i].data == items[i] && cur.next == After(sched, i);
        if entry.data.remaining <= cur.data.remaining {
          ChainOthers(smdLl, sched, i);
          cur.data := cur.data.(remaining := cur.data.remaining - entry.data.remaining);
          break;
        } else {
          entry.data := entry.data.(remaining := entry.data.remaining - cur.data.remaining);
          prev := cur;
          cur := cur.next;
          i := i + 1;
        }
      }
    }

    /** `new_entry->next = *pnext; *pnext = new_entry` */
    method Link(entry: Entry, prev: Entry?, cur: Entry?, ghost i: nat)
      requires Detached(entry) && AtPlace(prev, cur, i)
      modifies this`smdLl, this`sched, entry`next, (if prev == null then {} else {prev})`next
      ensures PoolValid() && sched == old(sched[..i] + [entry] + sched[i..])
    {
      ghost var s := sched;
      if i > 0 { ChainOthers(smdLl, s, i - 1); }
      entry.next := cur;
      if prev == null { smdLl := entry; } else { prev.next := entry; }
      sched := s[..i] + [entry] + s[i..];
      forall j | 0 <= j < |sched| ensures sched[j].next == After(sched, j) && sched[j] in pool && sched[j].inUse {
        if j < i {
          assert sched[j] == s[j] && old(s[j].next) == After(s, j) && s[j].inUse;
        } else if j > i {
          assert sched[j] == s[j - 1] && old(s[j - 1].next) == After(s, j - 1) && s[j - 1].inUse;
        }
      }
      assert Chain(smdLl, sched);
      forall j | 0 <= j < |free| ensures free[j].next == After(free, j) {
        assert !free[j].inUse && old(free[j].next) == After(free, j);
      }
    }

    /** The rest of `_schedule_core_msg_in_ms`: puts the filled-in entry in its place. */
    method Enter(entry: Entry, ghost next: State)
      requires Detached(entry) && Shows(sched, model.items) && next.items == Insert(model.items, entry.data)
      modifies this`smdLl, this`sched, this`model, pool
      ensures PoolValid() && Shows(sched, model.items) && model == next
    {
      ghost var s, x, items := sched, entry.data, model.items;
      var prev, cur, i := FindPlace(entry, x);
      ShowsInserted(items, s, entry, x, i);
      model := next;
      Link(entry, prev, cur, i);
    }

    /**
      `_schedule_core_msg_in_ms`.  False stands for the panic when all 32 entries are taken;
      nothing has changed then.
    */
    method ScheduleCoreMsgInMs(core: nat, ms: int, msg: Message) returns (ok: bool)
      requires Valid()
      modifies this, pool
      ensures Valid()
      ensures ok <==> |old(model.items)| < SCHEDULED_MESSAGES_MAX
      ensures model == if ok then Step(old(model), Schedule(core, ms, msg)) else old(model)
      ensures core0 == old(core0) && core1 == old(core1)
    {
      var entry := Take(core, ms, msg);
      if entry == null { return false; }
      calls := calls + 1;
      Enter(entry, Step(model, Schedule(core, ms, msg)));
      ok := true;
    }

    /** `entry->next->schmsg_data.remaining += retval` */
    method PassOn(entry: Entry, ghost i: nat, ghost items: seq<Item>)
      requires Lists(pool, smdllentFree, free, smdLl, sched) && Shows(sched, items)
      requires i < |sched| && entry == sched[i]
      modifies (if entry.next == null then {} else {entry.next})`data
      ensures forall j :: 0 <= j < |sched| && j != i + 1 ==> sched[j].data == items[j]
      ensures i + 1 < |sched| ==>
        sched[i + 1].data == items[i + 1].(remaining := items[i + 1].remaining + items[i].remaining)
    {
      if i + 1 < |sched| { ChainOthers(smdLl, sched, i + 1); }
      assert entry.next == After(sched, i);
      if entry.next != null {
        entry.next.data := entry.next.data.(remaining := entry.next.data.remaining + entry.data.remaining);
      }
    }

    /** `*pnext = entry->next` */
    method Bypass(prev: Entry?, entry: Entry, ghost i: nat)
      requires PoolValid() && AtPlace(prev, entry, i) && i < |sched|
      modifies this`smdLl, this`sched, (if prev == null then {} else {prev})`next
      ensures Detached(entry) && sched == old(sched[..i] + sched[i + 1..])
    {
      ghost var s := sched;
      ChainOthers(smdLl, s, i);
      if i > 0 { ChainOthers(smdLl, s, i - 1); }
      assert entry.next == After(s, i) && s[i].inUse && s[i] in pool;
      if prev == null { smdLl := entry.next; } else { prev.next := entry.next; }
      sched := s[..i] + s[i + 1..];
      forall j | 0 <= j < |sched| ensures sched[j].next == After(sched, j) && sched[j] != entry && sched[j] in pool && sched[j].inUse {
        var m := if j < i then j else j + 1;
        assert sched[j] == s[m] && old(s[m].next) == After(s, m) && s[m].inUse;
      }
      forall j | 0 <= j < |free| ensures free[j].next == After(free, j) {
        assert !free[j].inUse && old(free[j].next) == After(free, j);
      }
    }

    /** The part of `scheduled_msg_cancel3` that takes entry `i` out of the list. */
    method Detach(prev: Entry?, entry: Entry, ghost i: nat, ghost items: seq<Item>)
      requires PoolValid() && Shows(sched, items) && AtPlace(prev, entry, i) && i < |sched|
      modifies this`smdLl, this`sched, pool
      ensures Detached(entry) && Shows(sched, Unlink(items, i))
    {
      ghost var s := sched;
      assert entry in pool && entry.inUse && entry.next == After(s, i);
      if i + 1 < |s| { assert s[i + 1] in pool; }
      if i > 0 { assert s[i - 1] in pool; }
      PassOn(entry, i, items);
      ShowsUnlinked(items, s, i);
      Bypass(prev, entry, i);
    }

    /** Returns an entry that is in neither list. */
    method GiveBack(entry: Entry)
      requires Detached(entry)
      modifies this`smdllentFree, this`free, entry`next, entry`inUse
      ensures PoolValid()
    {
      forall j | 0 <= j < |free| ensures free[j] != entry { assert !free[j].inUse; }
      assert forall j :: 0 <= j < |sched| ==> sched[j].next == After(sched, j);
      Return(entry);
      forall j | 0 <= j < |free| ensures !free[j].inUse && free[j] in pool {
        if j > 0 { assert free[j] == old(free)[j - 1]; }
      }
    }

    /** What `scheduled_msg_cancel3` does to the entry it finds. */
    method Remove(prev: Entry?, entry: Entry, ghost i: nat, ghost next: State)
      requires PoolValid() && Shows(sched, model.items) && AtPlace(prev, entry, i) && i < |sched|
      requires next.items == Unlink(model.items, i)
      modifies this`smdLl, this`sched, this`smdllentFree, this`free, this`model, pool
      ensures PoolValid() && Shows(sched, model.items) && model == next
    {
      Detach(prev, entry, i, model.items);
      model := next;
      GiveBack(entry);
    }

    /** `scheduled_msg_cancel3` */
    method ScheduledMsgCancel3(id: int, handler: int, core: nat) returns (remaining: int)
      requires Valid()
      modifies this, pool
      ensures Valid()
      ensures model == Step(old(model), Cancel(id, handler, core))
      ensures remaining == CancelReturn(old(model.items), id, handler, core)
      ensures core0 == old(core0) && core1 == old(core1)
    {
      remaining := 0;
      ghost var i := 0;
      var prev: Entry? := null;
      var cur := smdLl;
      while cur != null
        invariant AtPlace(prev, cur, i)
        invariant forall j :: 0 <= j < i ==> !Matches(id, handler, core, model.items[j])
        invariant remaining == 0 && unchanged(this, pool)
        decreases |sched| - i
      {
        assert cur.data == model.items[i] && cur.next == After(sched, i);
        if Matches(id, handler, core, cur.data) {
          remaining := cur.data.remaining;
          ghost var next := Step(model, Cancel(id, handler, core));
          assert next.items == Unlink(model.items, i);
          Remove(prev, cur, i, next);
          return;
        }
        prev := cur;
        cur := cur.next;
        i := i + 1;
      }
    }

    /** `scheduled_msg_exists2`; handler 0 stands for any handler. */
    method ScheduledMsgExists2(id: int, handler: int, core: nat) returns (found: bool)
      requires Valid()
      ensures found <==> exists i :: 0 <= i < |model.items| && model.items[i].core == core && model.items[i].msg.id == id
                           && (handler == 0 || model.items[i].msg.handler == handler)
    {
      ghost var i := 0;
      var cur := smdLl;
      while cur != null
        invariant i <= |sched| && cur == if i < |sched| then sched[i] else null
        invariant forall j :: 0 <= j < i ==> !(model.items[j].core == core && model.items[j].msg.id == id
                                               && (handler == 0 || model.items[j].msg.handler == handler))
        decreases |sched| - i
      {
        assert cur.data == model.items[i] && cur.next == After(sched, i);
        if cur.data.core == core && cur.data.msg.id == id && (handler == 0 || handler == cur.data.msg.handler) {
          return true;
        }
        cur := cur.next;
        i := i + 1;
      }
      return false;
    }

    /** One round of the loop in `_on_recurring_interrupt`: posts the first entry and frees it. */
    method PostHead(head: Entry, ghost items: seq<Item>)
      requires PoolValid() && Shows(sched, items) && head == smdLl && items != []
      modifies this`smdLl, this`sched, this`smdllentFree, this`free, this`core0, this`core1, head`next, head`inUse
      ensures PoolValid() && Shows(sched, items[1..])
      ensures core0 == old(core0) + if items[0].core == 0 then [items[0].msg] else []
      ensures core1 == old(core1) + if items[0].core == 0 then [] else [items[0].msg]
    {
      ghost var s := sched;
      ChainOthers(smdLl, s, 0);
      assert head == s[0] && head.next == After(s, 0) && head.inUse;
      if head.data.core == 0 {
        core0 := core0 + [head.data.msg];
      } else {
        core1 := core1 + [head.data.msg];
      }
      var next := head.next;
      Return(head);
      smdLl := next;
      sched := s[1..];
      forall j | 0 <= j < |sched| ensures sched[j].next == After(sched, j) && sched[j].inUse && sched[j] in pool {
        assert sched[j] == s[j + 1] && old(s[j + 1].next) == After(s, j + 1) && old(s[j + 1].inUse);
      }
      forall j | 0 <= j < |sched| ensures sched[j].data == items[1..][j] {
        assert sched[j] == s[j + 1] && s[j + 1].data == items[j + 1];
      }
      forall j | 0 <= j < |free| ensures !free[j].inUse && free[j] in pool {
        if j > 0 { assert free[j] == old(free)[j - 1]; }
      }
    }

    /** The loop of `_on_recurring_interrupt`: posts and frees the entries that have no time left. */
    method PostExpired(ghost posted: seq<Due>, ghost items: seq<Item>, ghost now: int)
      requires PoolValid() && Shows(sched, items)
      requires core0 == MessagesFor(posted, true) && core1 == MessagesFor(posted, false)
      modifies this`smdLl, this`sched, this`smdllentFree, this`free, this`core0, this`core1, pool
      ensures PoolValid() && Shows(sched, items[Expired(items)..])
      ensures core0 == MessagesFor(posted + Post(items[..Expired(items)], now), true)
      ensures core1 == MessagesFor(posted + Post(items[..Expired(items)], now), false)
    {
      ghost var k, left := 0, items;
      assert posted + Post(items[..0], now) == posted;
      while smdLl != null && smdLl.data.remaining <= 0
        invariant k <= |items| && left == items[k..] && PoolValid() && Shows(sched, left)
        invariant forall j :: 0 <= j < k ==> items[j].remaining <= 0
        invariant core0 == MessagesFor(posted + Post(items[..k], now), true)
        invariant core1 == MessagesFor(posted + Post(items[..k], now), false)
        decreases |left|
      {
        assert smdLl == sched[0] && sched[0] in pool && sched[0].data == left[0] == items[k];
        PostGrows(posted, items, k, now);
        PostHead(smdLl, left);
        left, k := left[1..], k + 1;
      }
      ExpiredIs(items, k);
    }

    /** `--cmt_smd_ll->schmsg_data.remaining` */
    method CountDown(head: Entry, ghost items: seq<Item>)
      requires PoolValid() && Shows(sched, items) && head == smdLl
      modifies head`data
      ensures PoolValid() && Shows(sched, Delay(items, -1))
    {
      ChainOthers(smdLl, sched, 0);
      head.data := head.data.(remaining := head.data.remaining - 1);
    }

    /** The test of the first entry in `_on_recurring_interrupt` and the loop behind it. */
    method Expire(ghost m: State, ghost next: State)
      requires Has(m) && TickEffect(m, next)
      modifies this`smdLl, this`sched, this`smdllentFree, this`free, this`core0, this`core1, pool
      ensures Has(next)
    {
      if smdLl != null {
        CountDown(smdLl, m.items);
        if smdLl.data.remaining <= 0 {
          PostExpired(m.posted, Delay(m.items, -1), m.now + 1);
        }
      }
    }

    /** The scheduled-message part of `_on_recurring_interrupt`. */
    method OnRecurringInterrupt()
      requires Valid()
      modifies this, pool
      ensures Valid()
      ensures model == Step(old(model), Tick)
    {
      ghost var m := model;
      model := TickIs(m);
      Expire(m, model);
    }

    /** The two lists never share an entry and together hold the whole pool; `inUse` marks the scheduled ones. */
    lemma PoolIsSplit(e: Entry)
      requires PoolValid() && |pool| == SCHEDULED_MESSAGES_MAX && e in pool
      ensures (e in free) != (e in sched)
      ensures e.inUse <==> e in sched
    {
      var all := free + sched;
      forall i, j | 0 <= i < j < |all| ensures all[i] != all[j] {
        if j < |free| {
          ChainAhead(smdllentFree, free, i, j);
        } else if i >= |free| {
          ChainAhead(smdLl, sched, i - |free|, j - |free|);
        } else {
          assert !free[i].inUse && sched[j - |free|].inUse;
        }
      }
      SizeOfDistinct(all);
      SameSizeSubset((set x | x in all), pool);
      assert e in all;
    }
  }
}
