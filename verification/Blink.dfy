/** The blinking characters: a linked list threaded through a static pool of slots, in
    which a slot is free exactly if its location is 0. */
module Blink {
  import opened Arithmetic
  import opened Bytes

  const SLOTS: nat := 2000

  /** next is the index of the following slot. */
  datatype Entry = Entry(location: u16, onChar: byte, offChar: byte, onLength: u16, offLength: u16,
                         countdown: u16, status: u16, next: Option<nat>)

  const FREE := Entry(0, 0, 0, 0, 0, 0, 0, None)

  // ---------------------------------------------------------------- the list

  function At(list: seq<nat>, k: nat): Option<nat> {
    if k < |list| then Some(list[k]) else None
  }

  ghost predicate Joined(pool: seq<Entry>, list: seq<nat>, k: nat)
    requires k < |list|
  {
    list[k] < |pool| && pool[list[k]].next == At(list, k + 1)
  }

  /** next runs from head through the slots of the list and ends. */
  ghost predicate Linked(pool: seq<Entry>, head: Option<nat>, list: seq<nat>) {
    head == At(list, 0) && forall k :: 0 <= k < |list| ==> Joined(pool, list, k)
  }

  ghost predicate Distinct(list: seq<nat>) {
    forall i, j :: 0 <= i < j < |list| ==> list[i] != list[j]
  }

  /** The list visits no slot twice, and exactly the slots with a location are on it. */
  ghost predicate Listed(pool: seq<Entry>, head: Option<nat>, list: seq<nat>) {
    && Linked(pool, head, list)
    && Distinct(list)
    && (forall p :: 0 <= p < |pool| ==> (pool[p].location != 0 <==> p in list))
    && (forall p :: 0 <= p < |pool| ==> pool[p].location < SLOTS)
  }

  lemma {:induction false} InRange(pool: seq<Entry>, head: Option<nat>, list: seq<nat>)
    requires Linked(pool, head, list)
    ensures forall k :: 0 <= k < |list| ==> list[k] < |pool|
  {
    forall k | 0 <= k < |list| ensures list[k] < |pool| { assert Joined(pool, list, k); }
  }

  /** A listed pool determines its list. */
  lemma {:induction false} OneList(pool: seq<Entry>, head: Option<nat>, list: seq<nat>, other: seq<nat>, k: nat)
    requires Linked(pool, head, list) && Linked(pool, head, other) && k <= |list| && k <= |other|
    ensures list[..k] == other[..k] && At(list, k) == At(other, k)
    decreases k
  {
    if k > 0 {
      OneList(pool, head, list, other, k - 1);
      assert Joined(pool, list, k - 1) && Joined(pool, other, k - 1);
      assert list[..k] == list[..k - 1] + [list[k - 1]] && other[..k] == other[..k - 1] + [other[k - 1]];
    }
  }

  /** An entry without its link. */
  function Strip(e: Entry): Entry {
    e.(next := None)
  }

  /** The list as plain entries, front first. */
  function Entries(pool: seq<Entry>, list: seq<nat>): (r: seq<Entry>)
    requires forall k :: 0 <= k < |list| ==> list[k] < |pool|
    ensures |r| == |list|
  {
    seq(|list|, k requires 0 <= k < |list| => Strip(pool[list[k]]))
  }

  // --------------------------------------------- what add, find and remove mean

  /** The first entry for a location; entries are added in front, so the latest. */
  function Latest(entries: seq<Entry>, location: u16): (i: nat)
    ensures i <= |entries| && (i < |entries| ==> entries[i].location == location)
    ensures forall k :: 0 <= k < i ==> entries[k].location != location
    decreases |entries|
  {
    if entries == [] || entries[0].location == location then 0 else 1 + Latest(entries[1..], location)
  }

  function Started(e: Entry): Entry {
    e.(status := 1, countdown := e.onLength, next := None)
  }

  predicate Accepts(entries: seq<Entry>, location: u16) {
    location < SLOTS && |entries| < SLOTS
  }

  function Added(entries: seq<Entry>, e: Entry): seq<Entry> {
    if Accepts(entries, e.location) then [Started(e)] + entries else entries
  }

  function Removed(entries: seq<Entry>, location: u16): seq<Entry> {
    var i := Latest(entries, location);
    if i == |entries| then entries else entries[..i] + entries[i + 1..]
  }

  /** The latest entry for to blinks in step with the latest for source. */
  function Synced(entries: seq<Entry>, source: u16, to: u16): seq<Entry> {
    var s, d := Latest(entries, source), Latest(entries, to);
    if s == |entries| || d == |entries| then entries else entries[d := InStep(entries[s], entries[d])]
  }

  function InStep(s: Entry, d: Entry): Entry {
    d.(onLength := s.onLength, offLength := s.offLength, countdown := s.countdown, status := s.status)
  }

  /** What sync puts on the screen. */
  function SyncedScreen(d: Display, source: u16, to: u16): seq<byte>
    requires Fits(d)
  {
    var s, i := Latest(d.entries, source), Latest(d.entries, to);
    if s == |d.entries| || i == |d.entries| then d.screen else d.screen[Cell(to) := d.entries[i].offChar]
  }

  /** It is the right character exactly for a dark phase. */
  lemma {:induction false} SyncShowsFaceIff(d: Display, source: u16, to: u16)
    requires Fits(d) && Latest(d.entries, source) < |d.entries| && Latest(d.entries, to) < |d.entries|
    ensures var s, e := d.entries[Latest(d.entries, source)], d.entries[Latest(d.entries, to)];
            SyncedScreen(d, source, to)[Cell(to)] == Face(Synced(d.entries, source, to)[Latest(d.entries, to)])
            <==> !Lit(s) || e.onChar == e.offChar
  {
  }

  /** An entry after t ticks from now. */
  function After(e: Entry, t: nat): Entry {
    if t == 0 then e else TickEntry(After(e, t - 1))
  }

  /** Two entries in step: their phases turn at the same ticks and are lit together. */
  predicate InPhase(e: Entry, d: Entry) {
    && e.onLength == d.onLength && e.offLength == d.offLength
    && e.countdown == d.countdown && e.status == d.status
  }

  lemma {:induction false} StayInPhase(e: Entry, d: Entry, t: nat)
    requires InPhase(e, d)
    ensures InPhase(After(e, t), After(d, t))
    ensures Lit(After(e, t)) == Lit(After(d, t)) && Turns(After(e, t)) == Turns(After(d, t))
    ensures After(d, t).location == d.location && After(d, t).onChar == d.onChar && After(d, t).offChar == d.offChar
    decreases t
  {
    if t > 0 { StayInPhase(e, d, t - 1); }
  }

  /** After a sync the two entries blink together for good, each with its own characters at
      its own location, and no other entry has changed. */
  lemma {:induction false} SyncedBlinkTogether(entries: seq<Entry>, source: u16, to: u16, t: nat)
    requires Latest(entries, source) < |entries| && Latest(entries, to) < |entries|
    ensures var s, d := Latest(entries, source), Latest(entries, to);
            var r := Synced(entries, source, to);
            && |r| == |entries| && (forall k :: 0 <= k < |entries| && k != d ==> r[k] == entries[k])
            && Lit(After(r[s], t)) == Lit(After(r[d], t)) && Turns(After(r[s], t)) == Turns(After(r[d], t))
            && Face(After(r[d], t)) == (if Lit(After(entries[s], t)) then entries[d].onChar else entries[d].offChar)
            && r[d].location == entries[d].location && r[d].next == entries[d].next
  {
    var s, d := Latest(entries, source), Latest(entries, to);
    var r := Synced(entries, source, to);
    assert InPhase(r[s], r[d]) && InPhase(entries[s], r[d]);
    StayInPhase(r[s], r[d], t);
    StayInPhase(entries[s], r[d], t);
  }

  // ------------------------------------------------------------ the pool's side

  function FirstFree(pool: seq<Entry>, p: nat): (r: nat)
    requires p <= |pool|
    ensures p <= r <= |pool| && (r < |pool| ==> pool[r].location == 0)
    ensures forall q :: p <= q < r ==> pool[q].location != 0
    decreases |pool| - p
  {
    if p == |pool| || pool[p].location == 0 then p else FirstFree(pool, p + 1)
  }

  /** A slot for the entry at the front of the list. */
  function AddTo(pool: seq<Entry>, head: Option<nat>, p: nat, e: Entry): seq<Entry>
    requires p < |pool|
  {
    pool[p := Started(e).(next := head)]
  }

  lemma {:induction false} EntriesFit(pool: seq<Entry>, head: Option<nat>, list: seq<nat>)
    requires Listed(pool, head, list)
    ensures forall k :: 0 <= k < |list| ==> list[k] < |pool|
    ensures forall k :: 0 <= k < |list| ==> Entries(pool, list)[k].location < SLOTS
  {
    InRange(pool, head, list);
  }

  /** A listed slot changed in place: neither its location nor its link. */
  lemma {:induction false} UpdateKeepsListed(pool: seq<Entry>, head: Option<nat>, list: seq<nat>, i: nat, e: Entry)
    requires Listed(pool, head, list) && i < |list| && list[i] < |pool|
    requires e.location == pool[list[i]].location && e.next == pool[list[i]].next
    ensures Listed(pool[list[i] := e], head, list)
    ensures forall k :: 0 <= k < |list| ==> list[k] < |pool|
    ensures Entries(pool[list[i] := e], list) == Entries(pool, list)[i := Strip(e)]
  {
    var pool' := pool[list[i] := e];
    InRange(pool, head, list);
    forall k | 0 <= k < |list| ensures Joined(pool', list, k) { assert Joined(pool, list, k); }
  }

  lemma {:induction false} FirstIsLatest(entries: seq<Entry>, location: u16, i: nat)
    requires i <= |entries| && (i < |entries| ==> entries[i].location == location)
    requires forall k :: 0 <= k < i ==> entries[k].location != location
    ensures i == Latest(entries, location)
  {
  }

  lemma {:induction false} AddKeepsListed(pool: seq<Entry>, head: Option<nat>, list: seq<nat>, p: nat, e: Entry)
    requires Listed(pool, head, list) && p < |pool| && pool[p].location == 0 && 0 < e.location < SLOTS
    ensures Listed(AddTo(pool, head, p, e), Some(p), [p] + list)
    ensures forall k :: 0 <= k < |list| ==> list[k] < |pool|
    ensures Entries(AddTo(pool, head, p, e), [p] + list) == [Started(e)] + Entries(pool, list)
  {
    var pool', list' := AddTo(pool, head, p, e), [p] + list;
    InRange(pool, head, list);
    forall k | 0 <= k < |list'| ensures Joined(pool', list', k) {
      if k > 0 { assert Joined(pool, list, k - 1) && list'[k] == list[k - 1]; }
    }
  }

  /** An entry for location 0 takes a slot that still counts as free: no list at all
      accounts for the pool any more. */
  lemma {:induction false} LocationZeroBreaksPool(pool: seq<Entry>, head: Option<nat>, p: nat, e: Entry, list: seq<nat>)
    requires p < |pool| && e.location == 0
    ensures !Listed(AddTo(pool, head, p, e), Some(p), list)
  {
    var pool' := AddTo(pool, head, p, e);
    if Linked(pool', Some(p), list) {
      assert list != [] && list[0] == p;
      assert p in list && pool'[p].location == 0;
    }
  }

  lemma {:induction false} AddKeepsListedIff(pool: seq<Entry>, head: Option<nat>, list: seq<nat>, p: nat, e: Entry)
    requires Listed(pool, head, list) && p < |pool| && pool[p].location == 0 && e.location < SLOTS
    ensures (exists l :: Listed(AddTo(pool, head, p, e), Some(p), l)) <==> e.location != 0
  {
    if e.location != 0 {
      AddKeepsListed(pool, head, list, p, e);
    } else {
      forall l ensures !Listed(AddTo(pool, head, p, e), Some(p), l) { LocationZeroBreaksPool(pool, head, p, e, l); }
    }
  }

  /** What then goes wrong: the next entry gets the same slot and is linked to itself, so
      that no list ends it. All earlier entries are lost, and a tick never comes to an end. */
  lemma {:induction false} LocationZeroTiesKnot(pool: seq<Entry>, head: Option<nat>, zero: Entry, e: Entry)
    requires FirstFree(pool, 0) < |pool| && zero.location == 0
    ensures var p := FirstFree(pool, 0);
            var one := AddTo(pool, head, p, zero);
            && FirstFree(one, 0) == p
            && AddTo(one, Some(p), p, e)[p].next == Some(p)
            && forall l :: !Linked(AddTo(one, Some(p), p, e), Some(p), l)
  {
    var p := FirstFree(pool, 0);
    var one := AddTo(pool, head, p, zero);
    FreeStaysFirst(pool, one, p, 0);
    forall l ensures !Linked(AddTo(one, Some(p), p, e), Some(p), l) {
      if Linked(AddTo(one, Some(p), p, e), Some(p), l) { NoEnd(AddTo(one, Some(p), p, e), p, l, |l|); }
    }
  }

  lemma {:induction false} FreeStaysFirst(pool: seq<Entry>, other: seq<Entry>, p: nat, from: nat)
    requires from <= p < |pool| == |other| && other[p].location == 0
    requires forall q :: from <= q < p ==> other[q] == pool[q] && pool[q].location != 0
    ensures FirstFree(other, from) == p
    decreases p - from
  {
    if from < p { FreeStaysFirst(pool, other, p, from + 1); }
  }

  /** A slot that is linked to itself has a successor at every place of the list. */
  lemma {:induction false} NoEnd(pool: seq<Entry>, p: nat, list: seq<nat>, k: nat)
    requires p < |pool| && pool[p].next == Some(p) && Linked(pool, Some(p), list) && k <= |list|
    ensures At(list, k) == Some(p)
    decreases k
  {
    if k > 0 {
      NoEnd(pool, p, list, k - 1);
      assert Joined(pool, list, k - 1);
    }
  }

  /** The i-th slot of the list bypassed and cleared. */
  function RemoveFrom(pool: seq<Entry>, list: seq<nat>, i: nat): seq<Entry>
    requires i < |list| && forall k :: 0 <= k < |list| ==> list[k] < |pool|
  {
    var bypassed := if i == 0 then pool else pool[list[i - 1] := pool[list[i - 1]].(next := pool[list[i]].next)];
    bypassed[list[i] := FREE]
  }

  function HeadWithout(pool: seq<Entry>, head: Option<nat>, list: seq<nat>, i: nat): Option<nat>
    requires i < |list| && list[i] < |pool|
  {
    if i == 0 then pool[list[i]].next else head
  }

  function Without<T>(s: seq<T>, i: nat): seq<T>
    requires i < |s|
  {
    s[..i] + s[i + 1..]
  }

  lemma {:induction false} RemoveKeepsLinked(pool: seq<Entry>, head: Option<nat>, list: seq<nat>, i: nat)
    requires Linked(pool, head, list) && Distinct(list) && i < |list|
    requires forall k :: 0 <= k < |list| ==> list[k] < |pool|
    ensures Linked(RemoveFrom(pool, list, i), HeadWithout(pool, head, list, i), Without(list, i))
  {
    var pool', list' := RemoveFrom(pool, list, i), Without(list, i);
    assert Joined(pool, list, i);
    forall k | 0 <= k < |list'| ensures Joined(pool', list', k) {
      var j := if k < i then k else k + 1;
      assert Joined(pool, list, j) && list'[k] == list[j];
    }
  }

  lemma {:induction false} InWithout(list: seq<nat>, i: nat, p: nat)
    requires Distinct(list) && i < |list|
    ensures p in Without(list, i) <==> p in list && p != list[i]
  {
    if p in list {
      var k :| 0 <= k < |list| && list[k] == p;
      if k != i { assert Without(list, i)[if k < i then k else k - 1] == p; }
    }
  }

  lemma {:induction false} RemoveKeepsListed(pool: seq<Entry>, head: Option<nat>, list: seq<nat>, i: nat)
    requires Listed(pool, head, list) && i < |list|
    ensures forall k :: 0 <= k < |list| ==> list[k] < |pool|
    ensures Listed(RemoveFrom(pool, list, i), HeadWithout(pool, head, list, i), Without(list, i))
  {
    InRange(pool, head, list);
    RemoveKeepsLinked(pool, head, list, i);
    var pool', list' := RemoveFrom(pool, list, i), Without(list, i);
    forall p | 0 <= p < |pool'|
      ensures (pool'[p].location != 0 <==> p in list') && pool'[p].location < SLOTS
    {
      InWithout(list, i, p);
      assert pool[p].location != 0 <==> p in list;
    }
    forall j, k | 0 <= j < k < |list'| ensures list'[j] != list'[k] {
      assert list'[j] == list[if j < i then j else j + 1] && list'[k] == list[if k < i then k else k + 1];
    }
  }

  lemma {:induction false} RemoveDropsEntry(pool: seq<Entry>, head: Option<nat>, list: seq<nat>, i: nat)
    requires Linked(pool, head, list) && Distinct(list) && i < |list|
    ensures forall k :: 0 <= k < |list| ==> list[k] < |pool|
    ensures Entries(RemoveFrom(pool, list, i), Without(list, i)) == Without(Entries(pool, list), i)
  {
    InRange(pool, head, list);
    var pool', list' := RemoveFrom(pool, list, i), Without(list, i);
    forall k | 0 <= k < |list'|
      ensures Entries(pool', list')[k] == Without(Entries(pool, list), i)[k]
    {
      var j := if k < i then k else k + 1;
      assert list'[k] == list[j] && list[j] != list[i];
    }
  }

  lemma {:induction false} InRest(list: seq<nat>, i: nat, p: nat)
    requires Distinct(list) && i < |list| && p != list[i]
    ensures p in Without(list, i) <==> p in list
  {
    InWithout(list, i, p);
  }

  lemma {:induction false} RestIsDistinct(list: seq<nat>, i: nat, n: nat)
    requires Distinct(list) && i < |list| && list[i] == n
    requires forall k :: 0 <= k < |list| ==> list[k] < n + 1
    ensures Distinct(Without(list, i)) && |Without(list, i)| == |list| - 1
    ensures forall k :: 0 <= k < |list| - 1 ==> Without(list, i)[k] < n
  {
    var rest := Without(list, i);
    forall k | 0 <= k < |rest| ensures rest[k] == list[if k < i then k else k + 1] {}
  }

  ghost predicate Covers(list: seq<nat>, n: nat) {
    forall p :: 0 <= p < n ==> p in list
  }

  lemma {:induction false} RestCovers(list: seq<nat>, i: nat, n: nat)
    requires Distinct(list) && i < |list| && list[i] == n
    ensures Covers(list, n + 1) <==> Covers(Without(list, i), n)
  {
    forall p | 0 <= p < n ensures p in Without(list, i) <==> p in list { InRest(list, i, p); }
    assert n in list;
  }

  /** Distinct slots below n are at most n, and as many only if they leave none out. */
  lemma {:induction false} Pigeonhole(list: seq<nat>, n: nat)
    requires Distinct(list)
    requires forall k :: 0 <= k < |list| ==> list[k] < n
    ensures |list| <= n
    ensures |list| == n <==> Covers(list, n)
    decreases n
  {
    assert list != [] ==> list[0] < n;
    if n > 0 {
      var m := n - 1;
      if m in list {
        var i :| 0 <= i < |list| && list[i] == m;
        RestIsDistinct(list, i, m);
        RestCovers(list, i, m);
        hide Distinct, Covers, Without;
        Pigeonhole(Without(list, i), m);
      } else {
        Pigeonhole(list, m);
      }
    }
  }

  /** The search for a free slot fails exactly if the list has used all of them. */
  lemma {:induction false} FullIffAllUsed(pool: seq<Entry>, head: Option<nat>, list: seq<nat>)
    requires Listed(pool, head, list)
    ensures FirstFree(pool, 0) == |pool| <==> |list| == |pool|
    ensures |list| <= |pool|
  {
    InRange(pool, head, list);
    Pigeonhole(list, |pool|);
  }

  // -------------------------------------------------------------------- a tick

  predicate Positive(w: u16) {
    0 < w < 0x8000
  }

  predicate Lit(e: Entry) {
    e.status % 2 == 1
  }

  predicate Turns(e: Entry) {
    !Positive(Wrap16(e.countdown - 1))
  }

  function TickEntry(e: Entry): Entry {
    if !Turns(e) then e.(countdown := e.countdown - 1)
    else if Lit(e) then e.(countdown := e.offLength, status := e.status - 1)
    else e.(countdown := e.onLength, status := e.status + 1)
  }

  function Face(e: Entry): byte {
    if Lit(e) then e.onChar else e.offChar
  }

  function Cell(location: u16): nat {
    2 * location
  }

  function Poked(screen: seq<byte>, e: Entry): (r: seq<byte>)
    requires Cell(e.location) < |screen|
    ensures |r| == |screen|
  {
    if Turns(e) then screen[Cell(e.location) := Face(TickEntry(e))] else screen
  }

  function TickScreen(screen: seq<byte>, entries: seq<Entry>): (r: seq<byte>)
    requires forall k :: 0 <= k < |entries| ==> Cell(entries[k].location) < |screen|
    ensures |r| == |screen|
    decreases |entries|
  {
    if entries == [] then screen
    else
      var e := entries[0];
      TickScreen(Poked(screen, e), entries[1..])
  }

  lemma {:induction false} TickScreenStep(screen: seq<byte>, entries: seq<Entry>, i: nat)
    requires i < |entries| && forall k :: 0 <= k < |entries| ==> Cell(entries[k].location) < |screen|
    ensures TickScreen(screen, entries[i..]) == TickScreen(Poked(screen, entries[i]), entries[i + 1..])
  {
    assert entries[i..][0] == entries[i] && entries[i..][1..] == entries[i + 1..];
  }

  lemma {:induction false} TickScreenEnd(screen: seq<byte>, entries: seq<Entry>)
    ensures TickScreen(screen, entries[|entries|..]) == screen
  {
    assert entries[|entries|..] == [];
  }

  function TickAll(entries: seq<Entry>): (r: seq<Entry>)
    ensures |r| == |entries|
    decreases |entries|
  {
    if entries == [] then [] else [TickEntry(entries[0])] + TickAll(entries[1..])
  }

  lemma {:induction false} TickAllAt(entries: seq<Entry>, k: nat)
    requires k < |entries|
    ensures TickAll(entries)[k] == TickEntry(entries[k])
    decreases |entries|
  {
    if k > 0 { TickAllAt(entries[1..], k - 1); }
  }

  // -------------------------------------------------------------- whole runs

  datatype Call = Add(entry: Entry) | Remove(location: u16) | Tick

  datatype Display = Display(entries: seq<Entry>, screen: seq<byte>)

  ghost predicate Fits(d: Display) {
    |d.screen| >= 2 * SLOTS && forall k :: 0 <= k < |d.entries| ==> d.entries[k].location < SLOTS
  }

  /** Adding at location 0 ties the list in a knot, and is not described here. */
  predicate Proper(c: Call) {
    c.Add? ==> c.entry.location != 0
  }

  predicate AllProper(calls: seq<Call>) {
    forall k :: 0 <= k < |calls| ==> Proper(calls[k])
  }

  function Do(d: Display, c: Call): (r: Display)
    requires Fits(d) && Proper(c)
    ensures Fits(r)
  {
    match c
    case Add(e) =>
      if Accepts(d.entries, e.location)
      then Display(Added(d.entries, e), d.screen[Cell(e.location) := e.onChar])
      else d
    case Remove(location) => d.(entries := Removed(d.entries, location))
    case Tick =>
      TickAllFits(d.entries);
      Display(TickAll(d.entries), TickScreen(d.screen, d.entries))
  }

  lemma {:induction false} TickAllFits(entries: seq<Entry>)
    requires forall k :: 0 <= k < |entries| ==> entries[k].location < SLOTS
    ensures forall k :: 0 <= k < |entries| ==> TickAll(entries)[k].location < SLOTS
  {
    forall k | 0 <= k < |entries| ensures TickAll(entries)[k].location < SLOTS { TickAllAt(entries, k); }
  }

  function DoAll(d: Display, calls: seq<Call>): (r: Display)
    requires Fits(d) && AllProper(calls)
    ensures Fits(r)
    decreases |calls|
  {
    if calls == [] then d else assert Proper(calls[0]); DoAll(Do(d, calls[0]), calls[1..])
  }

  /** However often is added and removed there are at most 2000 entries; when there are as
      many, an add changes nothing, and a remove that finds its entry makes room for one. */
  lemma {:induction false} PoolIsBounded(d: Display, calls: seq<Call>)
    requires Fits(d) && AllProper(calls) && |d.entries| <= SLOTS
    ensures |DoAll(d, calls).entries| <= SLOTS
    decreases |calls|
  {
    if calls != [] {
      assert Proper(calls[0]);
      PoolIsBounded(Do(d, calls[0]), calls[1..]);
    }
  }

  lemma {:induction false} RemoveMakesRoom(d: Display, location: u16, e: Entry)
    requires Fits(d) && |d.entries| == SLOTS && e.location != 0
    ensures Do(d, Add(e)) == d
    ensures Latest(d.entries, location) < SLOTS && e.location < SLOTS ==>
              |Do(Do(d, Remove(location)), Add(e)).entries| == SLOTS
              && Do(Do(d, Remove(location)), Add(e)).entries[0] == Started(e)
  {
  }

  function ManyTicks(t: nat): seq<Call> {
    seq(t, _ => Tick)
  }

  /** After is what ticks make of every entry. */
  lemma {:induction false} TicksMakeAfter(d: Display, t: nat, k: nat)
    requires Fits(d) && k < |d.entries|
    ensures AllProper(ManyTicks(t)) && |DoAll(d, ManyTicks(t)).entries| == |d.entries|
    ensures DoAll(d, ManyTicks(t)).entries[k] == After(d.entries[k], t)
    decreases t
  {
    if t > 0 {
      assert ManyTicks(t)[0] == Tick && ManyTicks(t)[1..] == ManyTicks(t - 1);
      TickAllAt(d.entries, k);
      TicksMakeAfter(Do(d, Tick), t - 1, k);
      TickFirst(d.entries[k], t - 1);
    }
  }

  lemma {:induction false} TickFirst(e: Entry, t: nat)
    ensures After(TickEntry(e), t) == After(e, t + 1)
    decreases t
  {
    if t > 0 { TickFirst(e, t - 1); }
  }

  /** The entries for one location, latest first. */
  function For(entries: seq<Entry>, location: u16): seq<Entry>
    decreases |entries|
  {
    if entries == [] then []
    else (if entries[0].location == location then [entries[0]] else []) + For(entries[1..], location)
  }

  /** Find answers with the latest entry for its location, if there is any. */
  lemma {:induction false} FindIsTop(entries: seq<Entry>, location: u16)
    ensures Latest(entries, location) == |entries| <==> For(entries, location) == []
    ensures Latest(entries, location) < |entries| ==>
              For(entries, location)[0] == entries[Latest(entries, location)]
    decreases |entries|
  {
    if entries != [] && entries[0].location != location { FindIsTop(entries[1..], location); }
  }

  lemma {:induction false} RemovedBehind(entries: seq<Entry>, location: u16)
    requires entries != [] && entries[0].location != location
    ensures Removed(entries, location) == [entries[0]] + Removed(entries[1..], location)
  {
    var i := Latest(entries[1..], location);
    assert Latest(entries, location) == i + 1;
    if i < |entries| - 1 {
      assert entries[..i + 1] == [entries[0]] + entries[1..][..i] && entries[1..][i + 1..] == entries[i + 2..];
    }
  }

  lemma {:induction false} ForFront(e: Entry, entries: seq<Entry>, location: u16)
    ensures For([e] + entries, location)
         == (if e.location == location then [e] else []) + For(entries, location)
  {
    assert ([e] + entries)[1..] == entries;
  }

  lemma {:induction false} RemovePops(entries: seq<Entry>, removed: u16, location: u16)
    ensures var was := For(entries, location);
            For(Removed(entries, removed), location)
            == if removed == location && was != [] then was[1..] else was
    decreases |entries|
  {
    if entries == [] {
    } else if entries[0].location == removed {
      assert Removed(entries, removed) == entries[1..];
    } else {
      RemovePops(entries[1..], removed, location);
      RemovedBehind(entries, removed);
      ForFront(entries[0], Removed(entries[1..], removed), location);
    }
  }

  lemma {:induction false} TickPointwise(entries: seq<Entry>, location: u16)
    ensures For(TickAll(entries), location) == TickAll(For(entries, location))
    decreases |entries|
  {
    if entries != [] {
      TickPointwise(entries[1..], location);
      assert TickAll(entries)[0] == TickEntry(entries[0]) && TickAll(entries)[1..] == TickAll(entries[1..]);
      if entries[0].location == location {
        assert For(entries, location)[1..] == For(entries[1..], location);
      } else {
        assert For(entries, location) == For(entries[1..], location);
        assert For(TickAll(entries), location) == For(TickAll(entries)[1..], location);
      }
    }
  }

  /** One location on its own: a stack of entries. */
  function Stacked(stack: seq<Entry>, c: Call, accepted: bool, location: u16): seq<Entry> {
    match c
    case Add(e) => if accepted && e.location == location then [Started(e)] + stack else stack
    case Remove(l) => if l == location && stack != [] then stack[1..] else stack
    case Tick => TickAll(stack)
  }

  /** Whether each call of a run finds room. */
  function Accepted(d: Display, calls: seq<Call>): (r: seq<bool>)
    requires Fits(d) && AllProper(calls)
    ensures |r| == |calls|
    decreases |calls|
  {
    if calls == [] then []
    else assert Proper(calls[0]); [calls[0].Add? && Accepts(d.entries, calls[0].entry.location)] + Accepted(Do(d, calls[0]), calls[1..])
  }

  function StackedAll(stack: seq<Entry>, calls: seq<Call>, accepted: seq<bool>, location: u16): seq<Entry>
    requires |accepted| == |calls|
    decreases |calls|
  {
    if calls == [] then stack
    else StackedAll(Stacked(stack, calls[0], accepted[0], location), calls[1..], accepted[1..], location)
  }

  lemma {:induction false} StackStep(d: Display, c: Call, location: u16)
    requires Fits(d) && Proper(c)
    ensures For(Do(d, c).entries, location)
         == Stacked(For(d.entries, location), c, c.Add? && Accepts(d.entries, c.entry.location), location)
  {
    match c
    case Add(e) => assert ([Started(e)] + d.entries)[1..] == d.entries;
    case Remove(l) => RemovePops(d.entries, l, location);
    case Tick => TickPointwise(d.entries, location);
  }

  /** Whatever is added (but for location 0), removed and ticked, each location is a stack
      of its own: a removal undoes the latest addition there and touches no other location. */
  lemma {:induction false} LocationsAreStacks(d: Display, calls: seq<Call>, location: u16)
    requires Fits(d) && AllProper(calls)
    ensures For(DoAll(d, calls).entries, location)
         == StackedAll(For(d.entries, location), calls, Accepted(d, calls), location)
    decreases |calls|
  {
    if calls != [] {
      assert Proper(calls[0]);
      StackStep(d, calls[0], location);
      LocationsAreStacks(Do(d, calls[0]), calls[1..], location);
      assert Accepted(d, calls)[1..] == Accepted(Do(d, calls[0]), calls[1..]);
    }
  }

  // ------------------------------------------ several entries at one location, or none

  /** The last of the entries that turn in this tick, or their number. */
  function LastTurning(stack: seq<Entry>): (i: nat)
    ensures i <= |stack|
    ensures i < |stack| ==> Turns(stack[i]) && forall k :: i < k < |stack| ==> !Turns(stack[k])
    ensures i == |stack| ==> forall k :: 0 <= k < |stack| ==> !Turns(stack[k])
    decreases |stack|
  {
    if stack == [] then 0
    else
      var i := LastTurning(stack[1..]);
      if i < |stack| - 1 || !Turns(stack[0]) then i + 1 else 0
  }

  /** A tick goes through the list front to back: of the entries of one location that turn,
      the oldest is displayed, although find and remove know the latest. */
  lemma {:induction false} OldestTurningIsDisplayed(screen: seq<byte>, entries: seq<Entry>, location: u16)
    requires forall k :: 0 <= k < |entries| ==> Cell(entries[k].location) < |screen|
    requires Cell(location) < |screen|
    ensures var stack := For(entries, location);
            var i := LastTurning(stack);
            TickScreen(screen, entries)[Cell(location)]
            == if i == |stack| then screen[Cell(location)] else Face(TickEntry(stack[i]))
    decreases |entries|
  {
    if entries != [] {
      var e, rest := entries[0], entries[1..];
      assert For(entries, location) == (if e.location == location then [e] else []) + For(rest, location);
      assert TickScreen(screen, entries) == TickScreen(Poked(screen, e), rest);
      assert Cell(e.location) == Cell(location) <==> e.location == location;
      OldestTurningIsDisplayed(Poked(screen, e), rest, location);
      if e.location == location { LastTurningOf(e, For(rest, location)); } else { assert [] + For(rest, location) == For(rest, location); }
      hide For, TickScreen, LastTurning, TickEntry, Face;
    }
  }

  lemma {:induction false} LastTurningOf(e: Entry, stack: seq<Entry>)
    ensures LastTurning([e] + stack)
         == if LastTurning(stack) < |stack| || !Turns(e) then LastTurning(stack) + 1 else 0
  {
    assert ([e] + stack)[1..] == stack;
  }

  /** Where no entry is left the last character stays, until the next add there. */
  lemma {:induction false} LastCharacterStays(d: Display, calls: seq<Call>, location: u16)
    requires Fits(d) && AllProper(calls) && location < SLOTS && For(d.entries, location) == []
    requires forall k :: 0 <= k < |calls| && calls[k].Add? ==> calls[k].entry.location != location
    ensures DoAll(d, calls).screen[Cell(location)] == d.screen[Cell(location)]
    decreases |calls|
  {
    if calls != [] {
      var c := calls[0];
      assert Proper(c);
      StackStep(d, c, location);
      if c.Tick? { OldestTurningIsDisplayed(d.screen, d.entries, location); }
      LastCharacterStays(Do(d, c), calls[1..], location);
    }
  }

  /** In particular that of an entry that is removed. */
  lemma {:induction false} RemovedCharacterStays(d: Display, calls: seq<Call>, e: Entry)
    requires Fits(d) && AllProper(calls) && e.location < SLOTS && For(d.entries, e.location) == [e]
    requires d.screen[Cell(e.location)] == Face(e)
    requires forall k :: 0 <= k < |calls| && calls[k].Add? ==> calls[k].entry.location != e.location
    ensures DoAll(Do(d, Remove(e.location)), calls).screen[Cell(e.location)] == Face(e)
  {
    StackStep(d, Remove(e.location), e.location);
    LastCharacterStays(Do(d, Remove(e.location)), calls, e.location);
  }

  // --------------------------------------------------------- the blink itself

  /** Ticks a phase of this length lasts: the signed countdown makes 0 and every length
      above 0x8000 last one tick. */
  function Lasts(length: u16): (r: nat)
    ensures 1 <= r <= 0x8000
  {
    if 1 <= length <= 0x8000 then length else 1
  }

  /** An entry t ticks after it was added. */
  function Ticked(e: Entry, t: nat): Entry {
    if t == 0 then Started(e) else TickEntry(Ticked(e, t - 1))
  }

  /** How far t is into the cycle of a lit and a dark phase. */
  function Into(e: Entry, t: nat): (r: nat)
    ensures r < Lasts(e.onLength) + Lasts(e.offLength)
  {
    t % (Lasts(e.onLength) + Lasts(e.offLength))
  }

  function Cycle(e: Entry, r: nat): Entry
    requires r < Lasts(e.onLength) + Lasts(e.offLength)
  {
    var lit := Lasts(e.onLength);
    if r < lit then Started(e).(countdown := e.onLength - r)
    else Started(e).(status := 0, countdown := e.offLength - (r - lit))
  }

  lemma {:induction false} CycleTurns(e: Entry, r: nat)
    requires r < Lasts(e.onLength) + Lasts(e.offLength)
    ensures TickEntry(Cycle(e, r)) == Cycle(e, if r + 1 < Lasts(e.onLength) + Lasts(e.offLength) then r + 1 else 0)
  {
  }

  /** The blink at every tick: lit for the first of every cycle's two phases. */
  lemma {:induction false} BlinkIsPeriodic(e: Entry, t: nat)
    ensures Ticked(e, t) == Cycle(e, Into(e, t))
    ensures Lit(Ticked(e, t)) <==> Into(e, t) < Lasts(e.onLength)
    decreases t
  {
    CycleIsLit(e, Into(e, t));
    if t == 0 {
      CycleStarts(e);
    } else {
      BlinkIsPeriodic(e, t - 1);
      CycleTurns(e, Into(e, t - 1));
      NextInto(e, t - 1);
      hide Into, Cycle, TickEntry, Lasts, Lit;
    }
  }

  lemma {:induction false} CycleStarts(e: Entry)
    ensures Into(e, 0) == 0 && Cycle(e, 0) == Started(e)
  {
  }

  lemma {:induction false} NextInto(e: Entry, t: nat)
    ensures Into(e, t + 1)
         == if Into(e, t) + 1 < Lasts(e.onLength) + Lasts(e.offLength) then Into(e, t) + 1 else 0
  {
    NextRemainder(t, Lasts(e.onLength) + Lasts(e.offLength));
  }

  lemma {:induction false} CycleIsLit(e: Entry, r: nat)
    requires r < Lasts(e.onLength) + Lasts(e.offLength)
    ensures Lit(Cycle(e, r)) <==> r < Lasts(e.onLength)
  {
  }

  // ------------------------------------------------ what one location displays

  ghost predicate Elsewhere(c: Call, location: u16) {
    match c
    case Add(e) => e.location != location
    case Remove(l) => l != location
    case Tick => true
  }

  function Ticks(calls: seq<Call>): nat
    decreases |calls|
  {
    if calls == [] then 0 else (if calls[0].Tick? then 1 else 0) + Ticks(calls[1..])
  }

  lemma {:induction false} OthersDoNotPoke(screen: seq<byte>, entries: seq<Entry>, location: u16)
    requires forall k :: 0 <= k < |entries| ==> Cell(entries[k].location) < |screen|
    requires For(entries, location) == [] && Cell(location) < |screen|
    ensures TickScreen(screen, entries)[Cell(location)] == screen[Cell(location)]
    decreases |entries|
  {
    if entries != [] {
      var e := entries[0];
      OthersDoNotPoke(Poked(screen, e), entries[1..], location);
    }
  }

  lemma {:induction false} AloneFollowsItsFace(screen: seq<byte>, entries: seq<Entry>, x: Entry)
    requires forall k :: 0 <= k < |entries| ==> Cell(entries[k].location) < |screen|
    requires For(entries, x.location) == [x] && Cell(x.location) < |screen|
    requires screen[Cell(x.location)] == Face(x)
    ensures TickScreen(screen, entries)[Cell(x.location)] == Face(TickEntry(x))
    decreases |entries|
  {
    var e := entries[0];
    var screen' := Poked(screen, e);
    if e.location == x.location {
      assert For(entries, x.location)[0] == e && For(entries, x.location)[1..] == For(entries[1..], x.location);
      OthersDoNotPoke(screen', entries[1..], x.location);
    } else {
      AloneFollowsItsFace(screen', entries[1..], x);
    }
  }

  /** One call that leaves the location alone. */
  lemma {:induction false} AloneStep(d: Display, c: Call, x: Entry)
    requires Fits(d) && For(d.entries, x.location) == [x] && x.location < SLOTS
    requires d.screen[Cell(x.location)] == Face(x) && Elsewhere(c, x.location) && Proper(c)
    ensures var y := if c.Tick? then TickEntry(x) else x;
            For(Do(d, c).entries, x.location) == [y] && Do(d, c).screen[Cell(x.location)] == Face(y)
  {
    StackStep(d, c, x.location);
    if c.Tick? {
      AloneFollowsItsFace(d.screen, d.entries, x);
      assert TickAll([x]) == [TickEntry(x)];
    }
  }

  lemma {:induction false} TickedStays(e: Entry, t: nat)
    ensures Ticked(e, t).location == e.location
    ensures Ticked(e, t).onChar == e.onChar && Ticked(e, t).offChar == e.offChar
  {
    BlinkIsPeriodic(e, t);
  }

  /** The entry is t ticks old, alone at its location, and the screen shows its face. */
  ghost predicate Alone(d: Display, e: Entry, t: nat) {
    && Fits(d) && e.location < SLOTS
    && For(d.entries, e.location) == [Ticked(e, t)]
    && d.screen[Cell(e.location)] == Face(Ticked(e, t))
  }

  lemma {:induction false} AloneStays(d: Display, c: Call, e: Entry, t: nat)
    requires Alone(d, e, t) && Elsewhere(c, e.location) && Proper(c)
    ensures Alone(Do(d, c), e, if c.Tick? then t + 1 else t)
  {
    TickedStays(e, t);
    AloneStep(d, c, Ticked(e, t));
  }

  lemma {:induction false} AloneRun(d: Display, calls: seq<Call>, e: Entry, t: nat)
    requires Fits(d) && Alone(d, e, t) && AllProper(calls)
    requires forall k :: 0 <= k < |calls| ==> Elsewhere(calls[k], e.location)
    ensures Alone(DoAll(d, calls), e, t + Ticks(calls))
    decreases |calls|
  {
    hide Alone;
    if calls != [] {
      assert Proper(calls[0]);
      AloneStays(d, calls[0], e, t);
      AloneRun(Do(d, calls[0]), calls[1..], e, if calls[0].Tick? then t + 1 else t);
    }
  }

  lemma {:induction false} AddShows(d: Display, e: Entry)
    requires Fits(d) && Accepts(d.entries, e.location) && For(d.entries, e.location) == []
    requires e.location != 0
    ensures Alone(Do(d, Add(e)), e, 0)
  {
    StackStep(d, Add(e), e.location);
  }

  lemma {:induction false} AloneShows(d: Display, e: Entry, t: nat)
    requires Alone(d, e, t)
    ensures Cell(e.location) < |d.screen| && d.screen[Cell(e.location)] == Face(Ticked(e, t))
  {
  }

  lemma {:induction false} FaceIsPeriodic(e: Entry, t: nat)
    ensures Face(Ticked(e, t)) == if Into(e, t) < Lasts(e.onLength) then e.onChar else e.offChar
  {
    BlinkIsPeriodic(e, t);
  }

  /** From its addition on, an entry alone at its location shows its lit face for the first
      phase of every cycle and its dark face for the second, whatever is added (but for
      location 0, see LocationZeroTiesKnot), removed and ticked elsewhere. */
  lemma {:induction false} DisplayIsPeriodic(d: Display, e: Entry, calls: seq<Call>)
    requires Fits(d) && Accepts(d.entries, e.location) && For(d.entries, e.location) == []
    requires e.location != 0 && AllProper(calls)
    requires forall k :: 0 <= k < |calls| ==> Elsewhere(calls[k], e.location)
    ensures DoAll(Do(d, Add(e)), calls).screen[Cell(e.location)]
         == if Into(e, Ticks(calls)) < Lasts(e.onLength) then e.onChar else e.offChar
  {
    AddShows(d, e);
    hide Do, DoAll, Into, Lasts, Face, Ticked, For, Alone, Ticks;
    AloneRun(Do(d, Add(e)), calls, e, 0);
    AloneShows(DoAll(Do(d, Add(e)), calls), e, Ticks(calls));
    FaceIsPeriodic(e, Ticks(calls));
  }
}
