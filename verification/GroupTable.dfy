/**
  The group table of a queue with nobody else running: the loops of
  nabd_consumer_create, nabd_consumer_join and nabd_min_tail, and
  nabd_consumer_resume built from them.
 */
module GroupTable {
  import opened Words
  import opened Layout

  datatype Group = Group(active: bool, id: nat, tail: Word)

  /** What the weak compare-and-swap on each entry would do if the entry is free. */
  type Luck = s: seq<bool> | |s| == 16 witness seq(16, _ => true)

  predicate Claimable(groups: seq<Group>, luck: Luck, i: int) {
    0 <= i < |groups| == MAX_CONSUMERS && !groups[i].active && luck[i]
  }

  predicate Joinable(groups: seq<Group>, id: nat, i: int) {
    0 <= i < |groups| && groups[i].active && groups[i].id == id
  }

  /** i is the first entry that can be claimed, or -1 when there is none. */
  ghost predicate FirstClaim(groups: seq<Group>, luck: Luck, i: int) {
    if i < 0 then i == -1 && forall j :: !Claimable(groups, luck, j)
    else Claimable(groups, luck, i) && forall j :: j < i ==> !Claimable(groups, luck, j)
  }

  /** i is the first active entry with this id, or -1 when there is none. */
  ghost predicate FirstJoin(groups: seq<Group>, id: nat, i: int) {
    if i < 0 then i == -1 && forall j :: !Joinable(groups, id, j)
    else Joinable(groups, id, i) && forall j :: j < i ==> !Joinable(groups, id, j)
  }

  /** m is what nabd_min_tail should answer for this table. */
  ghost predicate IsMinTail(groups: seq<Group>, ctrlTail: Word, m: Word) {
    if exists i :: 0 <= i < |groups| && groups[i].active && groups[i].tail != UINT64_MAX then
      && (exists i :: 0 <= i < |groups| && groups[i].active && groups[i].tail == m)
      && (forall i :: 0 <= i < |groups| && groups[i].active ==> m <= groups[i].tail)
    else m == ctrlTail
  }

  class Table {
    var groups: seq<Group>

    ghost predicate Valid()
      reads this
    {
      |groups| == MAX_CONSUMERS
    }

    constructor ()
      ensures Valid() && forall i :: 0 <= i < |groups| ==> !groups[i].active
    {
      groups := seq(MAX_CONSUMERS, _ => Group(false, 0, 0));
    }

    /** The exact minimum over active groups, or the ring's own tail when none is active. */
    method MinTail(ctrlTail: Word) returns (m: Word)
      requires Valid()
      ensures IsMinTail(groups, ctrlTail, m)
    {
      m := UINT64_MAX;
      for i := 0 to MAX_CONSUMERS
        invariant forall j :: 0 <= j < i && groups[j].active ==> m <= groups[j].tail
        invariant m != UINT64_MAX ==> exists j :: 0 <= j < i && groups[j].active && groups[j].tail == m
      {
        if groups[i].active {
          var tail := groups[i].tail;
          if tail < m { m := tail; }
        }
      }
      if m == UINT64_MAX { m := ctrlTail; }
    }

    /**
      Claims the first free entry whose compare-and-swap succeeds, starting at
      head. Without memory for the handle the claim is given back: the entry is
      inactive again, with the id and tail of the attempt left in it.
     */
    method Create(id: nat, head: Word, luck: Luck, memory: bool) returns (i: int, ghost claimed: int)
      requires Valid()
      modifies this
      ensures Valid()
      ensures FirstClaim(old(groups), luck, claimed)
      ensures i == (if memory then claimed else -1)
      ensures groups == (if claimed < 0 then old(groups)
                         else old(groups)[claimed := Group(memory, if id != 0 then id else claimed + 1, head)])
    {
      for k := 0 to MAX_CONSUMERS
        invariant groups == old(groups)
        invariant forall j :: j < k ==> !Claimable(groups, luck, j)
      {
        if !groups[k].active && luck[k] {
          var groupId := if id != 0 then id else k + 1;
          groups := groups[k := groups[k].(active := true)];
          groups := groups[k := groups[k].(id := groupId)];
          groups := groups[k := groups[k].(tail := head)];
          if !memory {
            groups := groups[k := groups[k].(active := false)];
            return -1, k;
          }
          return k, k;
        }
      }
      i, claimed := -1, -1;
    }

    /** Finds the first active group with this id; id 0 never matches, and without memory
        for the handle there is no answer. */
    method Join(id: nat, memory: bool) returns (i: int)
      requires Valid()
      ensures id == 0 || !memory ==> i == -1
      ensures id != 0 && memory ==> FirstJoin(groups, id, i)
    {
      if id == 0 { return -1; }
      for k := 0 to MAX_CONSUMERS
        invariant forall j :: j < k ==> !Joinable(groups, id, j)
      {
        if groups[k].active && groups[k].id == id { return if memory then k else -1; }
      }
      i := -1;
    }

    /** A create with this memory would return a group. */
    ghost predicate CanCreate(luck: Luck, memory: bool)
      reads this
    {
      memory && exists j :: Claimable(groups, luck, j)
    }

    /**
      nabd_consumer_resume. It returns the first entry that can be claimed, with
      memory for the handle; only when that fails, the first active entry with the
      id; and otherwise nothing. So a group that died earlier with the same id
      stays active beside the new one whenever an entry can be claimed. The
      restored tail is the saved one, or head when that is older. No other active
      entry changes.
     */
    method Resume(id: nat, saved: Word, head: Word, luck: Luck, memory: bool, memoryToJoin: bool) returns (i: int)
      requires Valid()
      modifies this
      ensures Valid()
      ensures old(CanCreate(luck, memory)) ==> FirstClaim(old(groups), luck, i)
      ensures !old(CanCreate(luck, memory)) ==>
        if id != 0 && memoryToJoin then FirstJoin(old(groups), id, i) else i == -1
      ensures i >= 0 ==> i < MAX_CONSUMERS && groups[i].active
      ensures i >= 0 ==> groups[i].tail == (if saved > head then head else saved) && groups[i].tail <= head
      ensures i >= 0 && id != 0 ==> groups[i].id == id
      ensures i >= 0 && id == 0 ==> groups[i].id == i + 1
      ensures forall j :: 0 <= j < MAX_CONSUMERS && j != i && old(groups[j].active) ==> groups[j] == old(groups[j])
      ensures forall j :: 0 <= j < MAX_CONSUMERS && j != i ==> groups[j].active == old(groups[j].active)
    {
      ghost var claimed;
      i, claimed := Create(id, head, luck, memory);
      if i < 0 {
        assert forall j :: Joinable(old(groups), id, j) <==> Joinable(groups, id, j);
        i := Join(id, memoryToJoin);
        assert id != 0 && memoryToJoin ==> FirstJoin(old(groups), id, i);
        if i < 0 { return; }
      }
      groups := groups[i := groups[i].(tail := if saved > head then head else saved)];
    }
  }
}
