/** Which ticket a doorway writes, and who goes first among equal tickets. */
module BakeryTickets {
  import opened BakeryMachine
  import opened BakeryInvariant
  import opened BakerySerial

  /** In every run a thread in its critical section has the smaller number than any other slot with a ticket,
      or the same number and the lower slot. */
  lemma CriticalGoesFirst(n: nat, acts: seq<Action>, w: nat, j: nat)
    requires w < n && j < n && w != j
    ensures var s := After(Init(n), acts);
      InCritical(s.pc[w]) && s.number[j] != 0 ==>
        s.number[w] < s.number[j] || (s.number[w] == s.number[j] && w < j)
  {
    InitInv(n);
    RunInv(Init(n), acts);
    var s := After(Init(n), acts);
    assert SlotInv(s, j);
    if InCritical(s.pc[w]) && s.number[j] != 0 {
      CriticalIsLeast(s, w, j);
    }
  }

  // ----- a ticket is 1 or follows one that was held meanwhile

  /** Some slot other than i holds this ticket. */
  ghost predicate Holds(s: State, i: nat, t: nat)
    requires Shape(s)
  {
    exists k: nat :: k < s.N() && k != i && s.number[k] == t
  }

  /** Some slot other than i held this ticket at some time in the run. */
  ghost predicate Held(s: State, acts: seq<Action>, i: nat, t: nat)
    requires Shape(s)
  {
    exists m: nat :: m < |acts| && Holds(After(s, acts[..m]), i, t)
  }

  lemma AfterOne(s: State, a: Action)
    requires Shape(s)
    ensures After(s, [a]) == Next(s, a)
  {
    hide Next;
    assert [a][1..] == [];
    assert After(Next(s, a), []) == Next(s, a);
  }

  lemma {:induction false} AfterLast(s: State, acts: seq<Action>)
    requires Shape(s) && acts != []
    ensures After(s, acts) == Next(After(s, acts[..|acts| - 1]), acts[|acts| - 1])
  {
    hide Next, After;
    var front, last := acts[..|acts| - 1], acts[|acts| - 1];
    assert acts == front + [last];
    AfterConcat(s, front, [last]);
    AfterOne(After(s, front), last);
  }

  lemma {:induction false} HeldStays(s: State, acts: seq<Action>, i: nat, t: nat)
    requires Shape(s) && acts != []
    ensures Held(s, acts[..|acts| - 1], i, t) || Holds(After(s, acts[..|acts| - 1]), i, t) ==> Held(s, acts, i, t)
  {
    hide Holds, After;
    var front := acts[..|acts| - 1];
    if Held(s, front, i, t) {
      var m: nat :| m < |front| && Holds(After(s, front[..m]), i, t);
      assert front[..m] == acts[..m];
    }
  }

  /** Where the maximum and the ticket of a doorway come from in one step. */
  lemma MaximumOrigin(s: State, a: Action, i: nat)
    requires Shape(s) && i < s.N() && SlotInv(s, i)
    ensures var s' := Next(s, a);
      Scanning(s'.pc[i]) ==>
        || s'.pc[i].max == 0
        || (Scanning(s.pc[i]) && s'.pc[i].max == s.pc[i].max)
        || Holds(s, i, s'.pc[i].max)
  {
    if a != Run(i) && a != Wait(i) && !(a.GetNumber? && s.num == i) {
      hide Next;
      ElsewhereSame(s, a, i);
    }
  }

  lemma TicketOrigin(s: State, a: Action, i: nat)
    requires Shape(s) && i < s.N() && SlotInv(s, i)
    ensures var s' := Next(s, a);
      HasTicket(s'.pc[i]) ==>
        || (HasTicket(s.pc[i]) && s'.number[i] == s.number[i])
        || (s.pc[i].WriteTicket? && s'.number[i] == s.pc[i].max + 1)
  {
    if a != Run(i) && a != Wait(i) && !(a.GetNumber? && s.num == i) {
      hide Next;
      ElsewhereSame(s, a, i);
    }
  }

  /** However doorways overlap: the ticket that a doorway writes is 1 or one more than a ticket that another
      slot held at some time since the doorway began. */
  lemma {:induction false} TicketFollowsHeld(s: State, acts: seq<Action>, i: nat)
    requires Inv(s) && i < s.N() && (s.pc[i].Unissued? || s.pc[i].Raise?)
    ensures var s' := After(s, acts);
      && (Scanning(s'.pc[i]) ==> s'.pc[i].max == 0 || Held(s, acts, i, s'.pc[i].max))
      && (HasTicket(s'.pc[i]) ==> s'.number[i] == 1 || (s'.number[i] > 1 && Held(s, acts, i, s'.number[i] - 1)))
    decreases |acts|
  {
    hide PairInv, Next, Holds, Held;
    if acts != [] {
      var front, last := acts[..|acts| - 1], acts[|acts| - 1];
      TicketFollowsHeld(s, front, i);
      AfterLast(s, acts);
      RunInv(s, front);
      var t, s' := After(s, front), After(s, acts);
      assert SlotInv(t, i);
      MaximumOrigin(t, last, i);
      TicketOrigin(t, last, i);
      if Scanning(s'.pc[i]) {
        HeldStays(s, acts, i, s'.pc[i].max);
      } else if HasTicket(s'.pc[i]) && s'.number[i] > 1 {
        HeldStays(s, acts, i, s'.number[i] - 1);
      }
    }
  }

  /** The second read replaces the maximum: when the ticket found in the last slot is cleared before it is read
      again, the doorway writes ticket 1, however large the maximum was. */
  lemma ClearedTicketResets(s: State, i: nat)
    requires Shape(s) && i < s.N() && s.pc[i].Reread? && s.pc[i].k == s.N() - 1 && s.number[s.N() - 1] == 0
    ensures After(s, [Run(i), Run(i)]).number[i] == 1
  {
    hide CheckAccess, CriticalAccess;
    var t := Next(s, Run(i));
    assert t.pc[i] == WriteTicket(0);
    assert [Run(i), Run(i)][1..] == [Run(i)];
    AfterOne(t, Run(i));
  }

  // ----- the first ticket after everybody was served

  ghost predicate Fresh(s: State, i: nat)
    requires Shape(s) && i < s.N()
  {
    && (s.pc[i].Raise? || Scanning(s.pc[i]) || HasTicket(s.pc[i]) || s.pc[i].Done?)
    && (s.pc[i].Raise? || Scanning(s.pc[i]) ==> forall k | 0 <= k < s.N() :: s.number[k] == 0)
    && (Scanning(s.pc[i]) ==> s.pc[i].max == 0)
    && (HasTicket(s.pc[i]) ==> s.number[i] == 1)
  }

  lemma FreshOwnStep(s: State, i: nat)
    requires Shape(s) && i < s.N() && SlotInv(s, i) && Fresh(s, i)
    ensures Fresh(Next(s, Run(i)), i)
  {
    if Doorway(s.pc[i]) {
      hide CheckAccess, CriticalAccess;
    } else {
      hide DoorwayAccess;
    }
  }

  /** A number only rises where a doorway writes its ticket. */
  lemma NumberStep(s: State, a: Action, k: nat)
    requires Shape(s) && k < s.N()
    ensures var s' := Next(s, a);
      s'.number[k] == s.number[k] || s'.number[k] == 0 || (a == Run(k) && s.pc[k].WriteTicket?)
  {
    if a == Run(k) {
      hide CheckAccess;
    } else if a != Wait(k) && !a.GetNumber? {
      hide Next;
      ElsewhereSame(s, a, k);
    }
  }

  /** While only slot i is in its doorway, numbers that are 0 stay 0. */
  lemma ZeroStays(s: State, i: nat, x: nat)
    requires Shape(s) && i < s.N() && x != i
    requires forall k: nat | k < s.N() :: s.number[k] == 0 && (Doorway(s.pc[k]) ==> k == i)
    ensures var s' := Next(s, Run(x)); SameSlot(s, s', i) && forall k: nat | k < s.N() :: s'.number[k] == 0
  {
    hide Next;
    ElsewhereSame(s, Run(x), i);
    forall k: nat | k < s.N() ensures Next(s, Run(x)).number[k] == 0 {
      NumberStep(s, Run(x), k);
    }
  }

  lemma DoorwayAlone(s: State, i: nat)
    requires SerialInv(s) && i < s.N() && Doorway(s.pc[i])
    ensures forall k: nat | k < s.N() && Doorway(s.pc[k]) :: k == i
  {
    assert DispatcherInv(s, i);
    forall k: nat | k < s.N() && Doorway(s.pc[k]) ensures k == i {
      assert DispatcherInv(s, k);
    }
  }

  lemma FreshOtherStep(s: State, a: Action, i: nat)
    requires Shape(s) && i < s.N() && SlotInv(s, i) && Fresh(s, i) && a != Run(i)
    requires Doorway(s.pc[i]) ==> forall k: nat | k < s.N() && Doorway(s.pc[k]) :: k == i
    ensures Fresh(Next(s, a), i)
  {
    if HasTicket(s.pc[i]) || s.pc[i].Done? {
      hide Next;
      TicketKept(s, a, i);
    } else if a.Run? {
      hide Next;
      ZeroStays(s, i, a.i);
    } else {
      hide Access;
    }
  }

  lemma {:induction false} FreshRun(s: State, acts: seq<Action>, i: nat)
    requires SerialInv(s) && i < s.N() && Fresh(s, i)
    ensures Fresh(SerialAfter(s, acts), i)
    decreases acts
  {
    if acts != [] {
      hide Fresh, PairInv;
      var a := acts[0];
      assert SlotInv(s, i);
      SerialStep(s, a);
      if a == Run(i) {
        FreshOwnStep(s, i);
      } else {
        if Doorway(s.pc[i]) {
          DoorwayAlone(s, i);
        }
        FreshOtherStep(s, a, i);
      }
      FreshRun(SerialNext(s, a), acts[1..], i);
    }
  }

  /** With the dispatcher, a doorway that begins when nobody holds a ticket writes ticket 1. */
  lemma FreshTicketIsOne(n: nat, past: seq<Action>, acts: seq<Action>, i: nat)
    requires i < n
    requires var s := SerialAfter(Init(n), past); s.pc[i].Raise? && forall k | 0 <= k < n :: s.number[k] == 0
    ensures var s' := SerialAfter(SerialAfter(Init(n), past), acts); HasTicket(s'.pc[i]) ==> s'.number[i] == 1
  {
    hide SlotInv, PairInv, DispatcherInv, SerialAfter;
    InitSerial(n);
    SerialRun(Init(n), past);
    FreshRun(SerialAfter(Init(n), past), acts, i);
  }
}
