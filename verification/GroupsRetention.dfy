/**
  Exactly when a push keeps the documented rule that a slot is reused only after
  all active groups have read it.
 */
module GroupsRetention {
  import opened Words
  import opened Spsc
  import opened Groups
  import opened GroupsInvariant
  import opened GroupsRuns

  /** Group j is in use, or its handle died and it can still be resumed. */
  predicate InUse(g: GState, j: int) {
    0 <= j < |g.entries| && Settled(g.entries[j])
  }

  /** Position t, which group j has not read, sits in the slot that head is about to take. */
  predicate Loses(c: Config, g: GState, j: nat, t: nat)
    requires c.capacity > 0 && j < |g.entries|
  {
    g.entries[j].tail <= t < g.base.head && t % c.capacity == g.base.head % c.capacity
  }

  /** The slot that head is about to take has been read by group j. */
  ghost predicate HasRead(c: Config, g: GState, j: int)
    requires c.capacity > 0
  {
    InUse(g, j) ==> forall t: nat :: !Loses(c, g, j, t)
  }

  /** The documented rule for the slot that head is about to take. */
  ghost predicate AllHaveRead(c: Config, g: GState)
    requires c.capacity > 0
  {
    forall j :: InUse(g, j) ==> HasRead(c, g, j)
  }

  /** Group j is less than a queue behind head. */
  predicate Near(c: Config, g: GState, j: int) {
    InUse(g, j) ==> g.base.head - g.entries[j].tail < c.capacity
  }

  /** One group has read the slot exactly when it is less than a queue behind. */
  lemma HasReadExactly(c: Config, g: GState, j: int)
    requires GInv(c, g, {})
    ensures c.capacity > 0 && (HasRead(c, g, j) <==> Near(c, g, j))
  {
    if InUse(g, j) {
      assert EntryInv(g.base, g.entries[j], false);
      if Near(c, g, j) {
        forall t: nat ensures !Loses(c, g, j, t) {
          if g.entries[j].tail <= t < g.base.head { ModDistinct(t, g.base.head, c.capacity); }
        }
      } else {
        var t := g.base.head - c.capacity;
        SharesSlot(t, 1, c.capacity);
        assert Loses(c, g, j, t);
      }
    }
  }

  /** r is the least tail of the groups in use. */
  ghost predicate LeastTail(g: GState, r: nat) {
    && (exists j :: InUse(g, j) && g.entries[j].tail == r)
    && (forall j :: InUse(g, j) ==> r <= g.entries[j].tail)
  }

  /**
    When push keeps the rule. At any step of any run at which a push or reserve
    is admitted, the slot it takes has been read by every group in use exactly
    when every one of them is less than a queue behind head; that is, when
    head - r < capacity for the least of their tails.
   */
  lemma PushKeepsRuleExactly(c: Config, states: seq<GState>, steps: seq<GStep>, k: nat)
    requires IsGRun(c, states, steps) && k < |steps| && Admits(c, states[k], steps[k])
    ensures c.capacity > 0
    ensures AllHaveRead(c, states[k]) <==> forall j :: InUse(states[k], j) ==> Near(c, states[k], j)
    ensures forall r: nat :: LeastTail(states[k], r) ==>
      (AllHaveRead(c, states[k]) <==> states[k].base.head - r < c.capacity)
  {
    var g := states[k];
    GRunInv(c, states, steps, k);
    forall j: int ensures HasRead(c, g, j) <==> Near(c, g, j) {
      HasReadExactly(c, g, j);
    }
    forall r: nat | LeastTail(g, r)
      ensures AllHaveRead(c, g) <==> g.base.head - r < c.capacity
    {
      var i :| InUse(g, i) && g.entries[i].tail == r;
      assert g.base.head - r < c.capacity <==> Near(c, g, i);
    }
  }

  predicate IsLive(g: GState, j: nat) {
    j < |g.entries| && g.entries[j].phase.Live?
  }

  /** An admission leaves group j with all its unread messages exactly when it was less than a queue behind. */
  lemma AdmissionRetainsExactly(c: Config, states: seq<GState>, steps: seq<GStep>, k: nat, j: nat)
    requires IsGRun(c, states, steps) && k < |steps| && Admits(c, states[k], steps[k]) && IsLive(states[k], j)
    ensures Retained(c, states[k + 1], {j}) <==> states[k].base.head - states[k].entries[j].tail < c.capacity
    ensures j < |states[k + 1].entries| && states[k + 1].entries[j] == states[k].entries[j]
  {
    GRunInv(c, states, steps, k);
    assert GFollows(c, states[k], steps[k], states[k + 1]);
  }

  ghost predicate StaysRetained(c: Config, states: seq<GState>, j: nat, k: nat) {
    k + 1 < |states| && (Retained(c, states[k], {j}) ==> Retained(c, states[k + 1], {j}))
  }

  lemma QuietStepRetains(c: Config, states: seq<GState>, steps: seq<GStep>, k: nat, j: nat)
    requires IsGRun(c, states, steps) && k < |steps| && IsLive(states[k], j)
    requires !Admits(c, states[k], steps[k])
    ensures StaysRetained(c, states, j, k)
  {
    GRunInv(c, states, steps, k);
    assert GFollows(c, states[k], steps[k], states[k + 1]);
    OldestStep(c, states[k], steps[k]);
    SettledStep(c, states[k], steps[k], j);
  }

  lemma {:induction false} RetainedRun(c: Config, states: seq<GState>, r: nat, n: nat, j: nat)
    requires r <= n < |states| && Retained(c, states[r], {j})
    requires forall k :: r <= k < n ==> StaysRetained(c, states, j, k)
    ensures Retained(c, states[n], {j})
    decreases n
  {
    if r < n {
      RetainedRun(c, states, r, n - 1, j);
      assert StaysRetained(c, states, j, n - 1);
    }
  }

  /** The step, if it admits a push, finds group j less than a queue behind. */
  predicate KeepsRule(c: Config, states: seq<GState>, steps: seq<GStep>, j: nat, k: nat) {
    && k < |steps| && k < |states| && j < |states[k].entries|
    && (Admits(c, states[k], steps[k]) ==> states[k].base.head - states[k].entries[j].tail < c.capacity)
  }

  /**
    Over any stretch of a run in which group j has a handle and starts with all
    its unread messages: it keeps them at every moment exactly when every push
    admitted in the stretch finds it less than a queue behind.
   */
  lemma RetainedExactly(c: Config, states: seq<GState>, steps: seq<GStep>, r: nat, n: nat, j: nat)
    requires IsGRun(c, states, steps) && r <= n < |states| && Retained(c, states[r], {j})
    requires forall k :: r <= k <= n ==> IsLive(states[k], j)
    ensures (forall m :: r <= m <= n ==> Retained(c, states[m], {j}))
       <==> (forall k :: r <= k < n ==> KeepsRule(c, states, steps, j, k))
  {
    if forall k :: r <= k < n ==> KeepsRule(c, states, steps, j, k) {
      forall m | r <= m <= n ensures Retained(c, states[m], {j}) {
        forall k | r <= k < m ensures StaysRetained(c, states, j, k) {
          assert KeepsRule(c, states, steps, j, k);
          if Admits(c, states[k], steps[k]) {
            AdmissionRetainsExactly(c, states, steps, k, j);
          } else {
            QuietStepRetains(c, states, steps, k, j);
          }
        }
        RetainedRun(c, states, r, m, j);
      }
    }
    if forall m :: r <= m <= n ==> Retained(c, states[m], {j}) {
      forall k | r <= k < n ensures KeepsRule(c, states, steps, j, k) {
        assert IsLive(states[k], j);
        if Admits(c, states[k], steps[k]) {
          AdmissionRetainsExactly(c, states, steps, k, j);
          assert Retained(c, states[k + 1], {j});
        }
      }
    }
  }
}
