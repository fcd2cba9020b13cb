/** The envelope pool of the asynchronous sender: ten pre-built envelopes and a
    LIFO stack of the indices of the free ones. When the stack is empty a fresh,
    unpooled envelope is handed out instead. */
module PendingEventPool {
  import opened SignalTypes

  const POOL_SIZE: int := 10

  /** A position in the pool. */
  type Slot = i: int | 0 <= i < POOL_SIZE

  /** An envelope. `index` is only assigned when the envelope is taken from the pool;
      an unpooled envelope keeps the Java default 0. */
  class PendingEvent {
    var event: Option<Event>
    var registerInfo: Option<RegisterInfo>
    var next: PendingEvent?
    var index: Slot

    constructor (event: Option<Event>, registerInfo: Option<RegisterInfo>)
      ensures this.event == event && this.registerInfo == registerInfo
      ensures next == null && index == 0
    {
      this.event := event;
      this.registerInfo := registerInfo;
      next := null;
      index := 0;
    }
  }

  /** The static pool state: the envelope list, which is never changed after the
      initialiser, and the free-index stack, whose top is its last element. */
  class Pool {
    const envelopes: seq<PendingEvent>
    var freeIndex: seq<Slot>

    /** Ten distinct envelopes; each remembers either its own slot or the default 0. */
    ghost predicate Valid()
      reads this, envelopes
    {
      && |envelopes| == POOL_SIZE
      && (forall i, j :: 0 <= i < j < POOL_SIZE ==> envelopes[i] != envelopes[j])
      && (forall i :: 0 <= i < POOL_SIZE ==> envelopes[i].index == 0 || envelopes[i].index == i)
    }

    /** No slot is on the free stack twice. */
    ghost predicate FreeDistinct()
      reads this
    {
      forall i, j :: 0 <= i < j < |freeIndex| ==> freeIndex[i] != freeIndex[j]
    }

    /** The static initialiser: ten empty envelopes, and the free stack 0, 1, ..., 9
        (so 9 is on top). */
    constructor ()
      ensures Valid() && FreeDistinct()
      ensures |freeIndex| == POOL_SIZE && forall i :: 0 <= i < POOL_SIZE ==> freeIndex[i] == i
      ensures forall i :: 0 <= i < POOL_SIZE ==>
        && fresh(envelopes[i])
        && envelopes[i].event.None? && envelopes[i].registerInfo.None?
        && envelopes[i].next == null && envelopes[i].index == 0
    {
      var es: seq<PendingEvent> := [];
      var free: seq<Slot> := [];
      var i := 0;
      while i < POOL_SIZE
        invariant 0 <= i <= POOL_SIZE && |es| == i && |free| == i
        invariant forall k :: 0 <= k < i ==> free[k] == k
        invariant forall k, l :: 0 <= k < l < i ==> es[k] != es[l]
        invariant forall k :: 0 <= k < i ==>
          && fresh(es[k])
          && es[k].event.None? && es[k].registerInfo.None? && es[k].next == null && es[k].index == 0
      {
        var pe := new PendingEvent(None, None);
        es := es + [pe];
        free := free + [i];
        i := i + 1;
      }
      envelopes := es;
      freeIndex := free;
    }

    /** `obtainPendingPost`: pop the top free slot and fill its envelope, or, when no
        slot is free, hand out a new envelope outside the pool. */
    method Obtain(event: Option<Event>, registerInfo: Option<RegisterInfo>) returns (pe: PendingEvent)
      requires Valid()
      modifies this, envelopes
      ensures Valid()
      ensures old(FreeDistinct()) ==> FreeDistinct()
      ensures pe.event == event && pe.registerInfo == registerInfo && pe.next == null
      ensures old(freeIndex) == [] ==>
        && fresh(pe) && pe !in envelopes && pe.index == 0
        && freeIndex == [] && forall i :: 0 <= i < POOL_SIZE ==> unchanged(envelopes[i])
      ensures old(freeIndex) != [] ==>
        var top := old(freeIndex)[|old(freeIndex)| - 1];
        && pe == envelopes[top] && pe.index == top
        && freeIndex == old(freeIndex)[..|old(freeIndex)| - 1]
        && forall i :: 0 <= i < POOL_SIZE && i != top ==> unchanged(envelopes[i])
    {
      if |freeIndex| == 0 {
        pe := new PendingEvent(event, registerInfo);
        return;
      }
      var index := freeIndex[|freeIndex| - 1];
      freeIndex := freeIndex[..|freeIndex| - 1];
      pe := envelopes[index];
      pe.event := event;
      pe.registerInfo := registerInfo;
      pe.index := index;
      pe.next := null;
    }

    /** `releasePendingEvent`, as written: clear the envelope and push its index,
        whether or not the envelope belongs to the pool. */
    method Release(pe: PendingEvent)
      requires Valid()
      modifies this, pe
      ensures Valid()
      ensures pe.event.None? && pe.registerInfo.None? && pe.next == null && pe.index == old(pe.index)
      ensures freeIndex == old(freeIndex) + [pe.index]
    {
      pe.event := None;
      pe.registerInfo := None;
      pe.next := null;
      freeIndex := freeIndex + [pe.index];
    }

    /** `releasePendingEvent` with the pool check the free stack needs: only an
        envelope that sits in the pool at its recorded slot gives that slot back.
        Releasing every obtained envelope once keeps the free stack free of duplicates,
        and so no longer than the pool. */
    method ReleaseCorrected(pe: PendingEvent)
      requires Valid()
      requires envelopes[pe.index] == pe ==> pe.index !in freeIndex
      modifies this, pe
      ensures Valid()
      ensures pe.event.None? && pe.registerInfo.None? && pe.next == null && pe.index == old(pe.index)
      ensures freeIndex == if envelopes[pe.index] == pe then old(freeIndex) + [pe.index] else old(freeIndex)
      ensures old(FreeDistinct()) ==> FreeDistinct() && |freeIndex| <= POOL_SIZE
    {
      pe.event := None;
      pe.registerInfo := None;
      pe.next := null;
      if envelopes[pe.index] == pe {
        freeIndex := freeIndex + [pe.index];
      }
      if old(FreeDistinct()) {
        DistinctSlotsFit(freeIndex);
      }
    }

    /** Obtaining an envelope and releasing it again restores the free stack when a
        slot was free; from an empty stack it leaves slot 0 on the stack. */
    method ObtainThenRelease(event: Option<Event>, registerInfo: Option<RegisterInfo>)
      requires Valid()
      modifies this, envelopes
      ensures Valid()
      ensures old(freeIndex) != [] ==> freeIndex == old(freeIndex)
      ensures old(freeIndex) == [] ==> freeIndex == [0]
    {
      var pe := Obtain(event, registerInfo);
      Release(pe);
    }
  }

  /** The set of slots a sequence holds. */
  function SlotsOf(s: seq<Slot>): set<Slot>
  {
    set i | 0 <= i < |s| :: s[i]
  }

  /** All slots of the pool. */
  function AllSlots(n: nat): (r: set<Slot>)
    requires n <= POOL_SIZE
    ensures |r| == n
    ensures forall k: Slot :: k in r <==> k < n
  {
    if n == 0 then {} else
      var r := AllSlots(n - 1) + {n - 1};
      assert n - 1 !in AllSlots(n - 1);
      r
  }

  /** A duplicate-free sequence holds as many slots as it is long. */
  lemma {:induction false} DistinctSlotsCard(s: seq<Slot>)
    requires forall i, j :: 0 <= i < j < |s| ==> s[i] != s[j]
    ensures |SlotsOf(s)| == |s|
  {
    if s != [] {
      var init := s[..|s| - 1];
      assert forall i, j :: 0 <= i < j < |init| ==> init[i] != init[j] by {
        forall i, j | 0 <= i < j < |init| ensures init[i] != init[j] {
          assert init[i] == s[i] && init[j] == s[j];
        }
      }
      DistinctSlotsCard(init);
      assert SlotsOf(s) == SlotsOf(init) + {s[|s| - 1]} by {
        forall x | x in SlotsOf(s) ensures x in SlotsOf(init) + {s[|s| - 1]} {
          var i :| 0 <= i < |s| && x == s[i];
          if i < |s| - 1 { assert init[i] == s[i]; }
        }
        forall x | x in SlotsOf(init) ensures x in SlotsOf(s) {
          var i :| 0 <= i < |init| && x == init[i];
          assert s[i] == init[i];
        }
      }
      assert s[|s| - 1] !in SlotsOf(init) by {
        forall i | 0 <= i < |init| ensures init[i] != s[|s| - 1] {
          assert init[i] == s[i];
        }
      }
    }
  }

  /** A free stack without duplicates never holds more slots than the pool has. */
  lemma DistinctSlotsFit(s: seq<Slot>)
    requires forall i, j :: 0 <= i < j < |s| ==> s[i] != s[j]
    ensures |s| <= POOL_SIZE
  {
    DistinctSlotsCard(s);
    var all := AllSlots(POOL_SIZE);
    assert SlotsOf(s) <= all;
    SubsetCard(SlotsOf(s), all);
  }

  lemma {:induction false} SubsetCard(a: set<Slot>, b: set<Slot>)
    requires a <= b
    ensures |a| <= |b|
    decreases |b|
  {
    if a != {} {
      var x :| x in a;
      SubsetCard(a - {x}, b - {x});
    }
  }

  /** From the initial pool: take all ten envelopes, take and release one unpooled
      envelope, then release the envelope of slot 0. Slot 0 is now on the free stack
      twice, and the next two requests both receive the same envelope while the
      first holder has not given it back. */
  method DoubleFreeWitness() returns (stack: seq<Slot>, first: PendingEvent, second: PendingEvent)
    ensures stack == [0, 0]
    ensures first == second
  {
    var pool := new Pool();
    var k := 0;
    while k < POOL_SIZE
      invariant 0 <= k <= POOL_SIZE
      invariant pool.Valid() && fresh(pool)
      invariant forall i :: 0 <= i < POOL_SIZE ==> fresh(pool.envelopes[i])
      invariant |pool.freeIndex| == POOL_SIZE - k && forall i :: 0 <= i < |pool.freeIndex| ==> pool.freeIndex[i] == i
    {
      var _ := pool.Obtain(None, None);
      k := k + 1;
    }
    var spare := pool.Obtain(None, None);
    pool.Release(spare);
    assert pool.freeIndex == [0];
    var slot0 := pool.envelopes[0];
    assert slot0.index == 0;
    pool.Release(slot0);
    stack := pool.freeIndex;
    assert stack == [0, 0];
    first := pool.Obtain(None, None);
    assert first == pool.envelopes[0] && pool.freeIndex == [0];
    second := pool.Obtain(None, None);
  }

  /** From the initial pool: take all ten envelopes and one unpooled envelope, then
      release all eleven. The free stack ends up longer than the pool. */
  method OverfullStackWitness() returns (stack: seq<Slot>)
    ensures |stack| == POOL_SIZE + 1
  {
    var pool := new Pool();
    var k := 0;
    while k < POOL_SIZE
      invariant 0 <= k <= POOL_SIZE
      invariant pool.Valid() && fresh(pool)
      invariant forall i :: 0 <= i < POOL_SIZE ==> fresh(pool.envelopes[i])
      invariant |pool.freeIndex| == POOL_SIZE - k
    {
      var _ := pool.Obtain(None, None);
      k := k + 1;
    }
    var spare := pool.Obtain(None, None);
    pool.Release(spare);
    k := 0;
    while k < POOL_SIZE
      invariant 0 <= k <= POOL_SIZE
      invariant pool.Valid() && fresh(pool)
      invariant forall i :: 0 <= i < POOL_SIZE ==> fresh(pool.envelopes[i])
      invariant |pool.freeIndex| == 1 + k
    {
      pool.Release(pool.envelopes[k]);
      k := k + 1;
    }
    stack := pool.freeIndex;
  }

  /** The same sequence with the corrected release: the unpooled envelope gives no
      slot back, slot 0 is free once, and the two requests receive different envelopes. */
  method CorrectedReleaseWitness() returns (stack: seq<Slot>, first: PendingEvent, second: PendingEvent)
    ensures stack == [0]
    ensures first != second
  {
    var pool := new Pool();
    var k := 0;
    while k < POOL_SIZE
      invariant 0 <= k <= POOL_SIZE
      invariant pool.Valid() && fresh(pool)
      invariant forall i :: 0 <= i < POOL_SIZE ==> fresh(pool.envelopes[i])
      invariant |pool.freeIndex| == POOL_SIZE - k && forall i :: 0 <= i < |pool.freeIndex| ==> pool.freeIndex[i] == i
    {
      var _ := pool.Obtain(None, None);
      k := k + 1;
    }
    var spare := pool.Obtain(None, None);
    pool.ReleaseCorrected(spare);
    var slot0 := pool.envelopes[0];
    pool.ReleaseCorrected(slot0);
    stack := pool.freeIndex;
    first := pool.Obtain(None, None);
    second := pool.Obtain(None, None);
  }
}
