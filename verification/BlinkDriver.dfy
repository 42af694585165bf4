/** The blink driver as it runs: the pool and the screen are updated in place. */
module BlinkDriver {
  import opened Bytes
  import opened Blink

  class Driver {
    const pool: array<Entry>
    const vmem: array<byte>
    var head: Option<nat>
    /** The slots of the list, front first. */
    ghost var list: seq<nat>

    ghost predicate Valid()
      reads this, pool, vmem
    {
      pool.Length == SLOTS && vmem.Length >= 2 * SLOTS && Listed(pool[..], head, list)
    }

    ghost function View(): (d: Display)
      reads this, pool, vmem
      requires Valid()
      ensures Fits(d) && |d.entries| == |list|
    {
      InRange(pool[..], head, list);
      EntriesFit(pool[..], head, list);
      Display(Entries(pool[..], list), vmem[..])
    }

    constructor (screen: array<byte>)
      requires screen.Length >= 2 * SLOTS
      ensures Valid() && fresh(pool) && vmem == screen && head == None && list == []
      ensures View() == Display([], screen[..])
    {
      pool := new Entry[SLOTS](_ => FREE);
      vmem := screen;
      head := None;
      list := [];
    }

    method Malloc() returns (slot: Option<nat>)
      requires Valid()
      ensures (slot == None <==> |list| == SLOTS) && |list| <= SLOTS
      ensures slot.Some? ==> slot.value < SLOTS && pool[slot.value].location == 0
    {
      FullIffAllUsed(pool[..], head, list);
      var i := 0;
      while i < SLOTS
        invariant i <= SLOTS && FirstFree(pool[..], 0) == FirstFree(pool[..], i)
      {
        if pool[i].location == 0 { return Some(i); }
        i := i + 1;
      }
      return None;
    }

    method Free(slot: nat)
      requires slot < pool.Length
      modifies pool
      ensures pool[..] == old(pool[..])[slot := FREE]
    {
      pool[slot] := FREE;
    }

    /** Adds an entry in front. An entry for location 0 is taken too, but its slot still
        counts as free. */
    method Add(e: Entry) returns (ok: bool)
      requires Valid()
      modifies this`head, this`list, pool, vmem
      ensures ok <==> e.location < SLOTS && |old(list)| < SLOTS
      ensures e.location != 0 ==> Valid() && View() == Do(old(View()), Call.Add(e))
      ensures !ok ==> Valid() && View() == old(View())
      ensures ok ==> head.Some? && head.value < pool.Length
                     && pool[..] == AddTo(old(pool[..]), old(head), head.value, e)
                     && vmem[..] == old(vmem[..])[Cell(e.location) := e.onChar]
      ensures ok && e.location == 0 ==> !Listed(pool[..], head, list)
    {
      if e.location >= SLOTS { return false; }
      var slot := Malloc();
      if slot == None { return false; }
      var p := slot.value;
      ghost var was, wasHead, wasList := pool[..], head, list;
      pool[p] := Started(e).(next := head);
      head := slot;
      vmem[2 * e.location] := e.onChar;
      list := [p] + list;
      assert pool[..] == AddTo(was, wasHead, p, e);
      if e.location != 0 {
        AddKeepsListed(was, wasHead, wasList, p, e);
      } else {
        LocationZeroBreaksPool(was, wasHead, p, e, list);
      }
      ok := true;
    }

    /** The slot of the latest entry for a location. */
    method FindHelper(location: u16) returns (slot: Option<nat>)
      requires Valid()
      ensures slot == At(list, Latest(View().entries, location))
      ensures slot.Some? ==> slot.value < pool.Length && pool[slot.value].location == location
    {
      ghost var entries := View().entries;
      InRange(pool[..], head, list);
      slot := head;
      ghost var i := 0;
      while slot.Some? && pool[slot.value].location != location
        invariant i <= |list| && slot == At(list, i) && (slot.Some? ==> slot.value < pool.Length)
        invariant forall k :: 0 <= k < i ==> entries[k].location != location
        decreases |list| - i
      {
        assert Joined(pool[..], list, i) && entries[i] == Strip(pool[list[i]]);
        slot := pool[slot.value].next;
        i := i + 1;
        if i < |list| { assert Joined(pool[..], list, i); }
      }
      if i < |list| { assert entries[i] == Strip(pool[list[i]]); }
      FirstIsLatest(entries, location, i);
    }

    method Find(location: u16) returns (found: Option<Entry>)
      requires Valid()
      ensures found == var s := For(View().entries, location); if s == [] then None else Some(s[0])
    {
      var slot := FindHelper(location);
      FindIsTop(View().entries, location);
      if slot == None { return None; }
      found := Some(Strip(pool[slot.value]));
    }

    /** Walks to the slot before the i-th: None stands for the head itself. */
    method FindPrevious(slot: nat, ghost i: nat) returns (previous: Option<nat>)
      requires Valid() && i < |list| && list[i] == slot
      ensures previous == if i == 0 then None else Some(list[i - 1])
    {
      InRange(pool[..], head, list);
      ghost var k := 0;
      previous := None;
      var at := head;
      while at != Some(slot)
        invariant k <= i && at == Some(list[k])
        invariant previous == if k == 0 then None else Some(list[k - 1])
        decreases i - k
      {
        assert Joined(pool[..], list, k);
        previous := at;
        at := pool[at.value].next;
        k := k + 1;
      }
    }

    method Remove(location: u16) returns (ok: bool)
      requires Valid()
      modifies this`head, this`list, pool
      ensures Valid() && View() == Do(old(View()), Call.Remove(location))
      ensures ok <==> For(old(View()).entries, location) != []
    {
      var slot := FindHelper(location);
      ghost var i := Latest(View().entries, location);
      FindIsTop(View().entries, location);
      if slot == None { return false; }
      var previous := FindPrevious(slot.value, i);
      ghost var was, wasHead, wasList := pool[..], head, list;
      RemoveKeepsListed(was, wasHead, wasList, i);
      RemoveDropsEntry(was, wasHead, wasList, i);
      var rest := pool[slot.value].next;
      if previous == None {
        head := rest;
      } else {
        pool[previous.value] := pool[previous.value].(next := rest);
      }
      Free(slot.value);
      list := Without(list, i);
      assert pool[..] == RemoveFrom(was, wasList, i);
      ok := true;
    }

    /** The off character is displayed, whatever the status: the conditional move that should
        take the other one tests for less, which a test of the lowest bit never yields. */
    method Sync(argument: u32) returns (ok: bool)
      requires Valid()
      modifies pool, vmem
      ensures Valid()
      ensures ok <==> (For(old(View()).entries, argument / 0x1_0000) != []
                       && For(old(View()).entries, argument % 0x1_0000) != [])
      ensures View() == Display(Synced(old(View()).entries, argument / 0x1_0000, argument % 0x1_0000),
                                SyncedScreen(old(View()), argument / 0x1_0000, argument % 0x1_0000))
    {
      ghost var entries := View().entries;
      FindIsTop(entries, argument / 0x1_0000);
      FindIsTop(entries, argument % 0x1_0000);
      var from := FindHelper(argument / 0x1_0000);
      if from == None { return false; }
      var to := FindHelper(argument % 0x1_0000);
      ghost var j := Latest(entries, argument % 0x1_0000);
      if to == None { return false; }
      ghost var was := pool[..];
      pool[to.value] := InStep(pool[from.value], pool[to.value]);
      UpdateKeepsListed(was, head, list, j, InStep(was[from.value], was[to.value]));
      assert pool[..] == was[list[j] := InStep(was[from.value], was[to.value])];
      vmem[2 * pool[to.value].location] := pool[to.value].offChar;
      ok := true;
    }

    /** One timer tick for one slot. */
    method TickSlot(slot: nat, ghost i: nat)
      requires Valid() && i < |list| && list[i] == slot && slot < pool.Length
      modifies pool, vmem
      ensures Valid()
      ensures View().entries == old(View()).entries[i := TickEntry(old(View()).entries[i])]
      ensures vmem[..] == Poked(old(vmem[..]), old(View()).entries[i])
    {
      ghost var was, x := pool[..], View().entries[i];
      InRange(was, head, list);
      var e := pool[slot];
      var countdown := Wrap16(e.countdown - 1);
      e := e.(countdown := countdown);
      if countdown == 0 || countdown >= 0x8000 {
        if e.status % 2 == 1 {
          vmem[2 * e.location] := e.offChar;
          e := e.(countdown := e.offLength, status := e.status - 1);
        } else {
          vmem[2 * e.location] := e.onChar;
          e := e.(countdown := e.onLength, status := e.status + 1);
        }
      }
      pool[slot] := e;
      UpdateKeepsListed(was, head, list, i, e);
      assert pool[..] == was[list[i] := e] && Strip(e) == TickEntry(x);
    }

    /** One timer tick for every entry, front to back. */
    method Tasklet()
      requires Valid()
      modifies pool, vmem
      ensures Valid() && View() == Do(old(View()), Call.Tick)
    {
      hide TickScreen, TickAll, Poked, TickEntry;
      ghost var was := View();
      InRange(pool[..], head, list);
      ghost var i := 0;
      var at := head;
      while at.Some?
        invariant Valid() && i <= |list| && at == At(list, i) && (at.Some? ==> at.value < pool.Length)
        invariant Fits(was) && |was.entries| == |list|
        invariant forall k :: 0 <= k < i ==> View().entries[k] == TickEntry(was.entries[k])
        invariant forall k :: i <= k < |list| ==> View().entries[k] == was.entries[k]
        invariant TickScreen(vmem[..], was.entries[i..]) == TickScreen(was.screen, was.entries)
        decreases |list| - i
      {
        TickScreenStep(vmem[..], was.entries, i);
        TickSlot(at.value, i);
        assert Joined(pool[..], list, i);
        at := pool[at.value].next;
        i := i + 1;
        if i < |list| { assert Joined(pool[..], list, i); }
      }
      forall k | 0 <= k < |list| ensures TickAll(was.entries)[k] == TickEntry(was.entries[k]) {
        TickAllAt(was.entries, k);
      }
      TickScreenEnd(vmem[..], was.entries);
    }
  }
}
