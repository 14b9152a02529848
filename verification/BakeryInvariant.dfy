/** The invariant of the bakery machine and mutual exclusion, for overlapping doorways. */
module BakeryInvariant {
  import opened BakeryMachine

  function ScanPos(p: Control, n: nat): nat
    requires Scanning(p)
  {
    if p.WriteTicket? then n else p.k
  }

  /** How many slots a started thread has passed in its loop. */
  function Passed(p: Control, n: nat): nat
    requires Started(p)
  {
    if Checking(p) then p.j else n
  }

  /** Slot j can no longer go before slot w. */
  ghost predicate Behind(s: State, w: nat, j: nat)
    requires Shape(s) && w < s.N() && j < s.N()
  {
    || s.pc[j].Unissued? || s.pc[j].Raise? || s.pc[j].Done?
    || w in s.before[j]
    || (HasTicket(s.pc[j]) && Less(s.number[w], w, s.number[j], j))
  }

  ghost predicate SlotInv(s: State, i: nat)
    requires Shape(s) && i < s.N()
  {
    && (s.pc[i].Unissued? <==> s.num <= i)
    && (s.choosing[i] <==> Choosing(s.pc[i]))
    && (s.number[i] != 0 <==> HasTicket(s.pc[i]))
    && (forall m | m in s.before[i] :: m < s.N())
  }

  ghost predicate BeforeInv(s: State, i: nat, m: nat)
    requires Shape(s) && i < s.N() && m < s.N()
  {
    m in s.before[i] ==>
      && m != i && (HasTicket(s.pc[m]) || s.pc[m].Done?)
      && (Scanning(s.pc[i]) || HasTicket(s.pc[i]) || s.pc[i].Done?)
  }

  /** The maximum found so far covers the scanned slots that had a ticket when the scan began. */
  ghost predicate ScanInv(s: State, i: nat, m: nat)
    requires Shape(s) && i < s.N() && m < s.N()
  {
    Scanning(s.pc[i]) && m < ScanPos(s.pc[i], s.N()) && m in s.before[i] && HasTicket(s.pc[m]) ==>
      s.number[m] <= s.pc[i].max
  }

  /** Between the test and the second read the ticket may vanish, but then nobody below it is left. */
  ghost predicate RereadInv(s: State, i: nat, m: nat)
    requires Shape(s) && i < s.N() && m < s.N()
  {
    s.pc[i].Reread? ==>
      var k := s.pc[i].k;
      || (HasTicket(s.pc[k]) && s.number[k] > s.pc[i].max)
      || (s.pc[k].Done? && (m < k && m in s.before[i] ==> s.pc[m].Done?))
  }

  ghost predicate OrderInv(s: State, i: nat, m: nat)
    requires Shape(s) && i < s.N() && m < s.N()
  {
    HasTicket(s.pc[i]) && HasTicket(s.pc[m]) && m in s.before[i] ==> s.number[m] < s.number[i]
  }

  ghost predicate WaitInv(s: State, w: nat, j: nat)
    requires Shape(s) && w < s.N() && j < s.N()
  {
    var p := s.pc[w];
    w != j && Started(p) ==>
      && (j < Passed(p, s.N()) ==> Behind(s, w, j))
      && (j == Passed(p, s.N()) && (p.CheckZero? || p.CheckLess?) ==> Behind(s, w, j) || HasTicket(s.pc[j]))
      && (j == Passed(p, s.N()) && p.CheckEqual? ==>
            Behind(s, w, j) || (HasTicket(s.pc[j]) && s.number[j] >= s.number[w]))
  }

  ghost predicate PairInv(s: State, i: nat, m: nat)
    requires Shape(s) && i < s.N() && m < s.N()
  {
    BeforeInv(s, i, m) && ScanInv(s, i, m) && RereadInv(s, i, m) && OrderInv(s, i, m) && WaitInv(s, i, m)
  }

  ghost predicate Inv(s: State) {
    && Shape(s)
    && (forall i: nat | i < s.N() :: SlotInv(s, i))
    && (forall i: nat, m: nat | i < s.N() && m < s.N() :: PairInv(s, i, m))
  }

  lemma InitInv(n: nat)
    ensures Inv(Init(n))
  {
  }

  /** Among set tickets, `Behind` is the ticket order. */
  lemma BehindIsLess(s: State, w: nat, j: nat)
    requires Inv(s) && w < s.N() && j < s.N()
    requires HasTicket(s.pc[w]) && HasTicket(s.pc[j]) && Behind(s, w, j)
    ensures Less(s.number[w], w, s.number[j], j)
  {
    assert PairInv(s, j, w);
  }

  /** A thread in its critical section holds the least set ticket. */
  lemma CriticalIsLeast(s: State, w: nat, j: nat)
    requires Inv(s) && w < s.N() && j < s.N() && w != j
    requires InCritical(s.pc[w]) && HasTicket(s.pc[j])
    ensures Less(s.number[w], w, s.number[j], j)
  {
    assert PairInv(s, w, j);
    BehindIsLess(s, w, j);
  }

  lemma MutualExclusion(s: State, i: nat, j: nat)
    requires Inv(s) && i < s.N() && j < s.N() && i != j
    ensures !(InCritical(s.pc[i]) && InCritical(s.pc[j]))
  {
    if InCritical(s.pc[i]) && InCritical(s.pc[j]) {
      CriticalIsLeast(s, i, j);
      CriticalIsLeast(s, j, i);
    }
  }

  // ----- every step keeps the invariant

  /** A step moves no slot but its own. */
  ghost predicate SameSlot(s: State, s': State, x: nat)
    requires Shape(s) && Shape(s') && s.N() == s'.N() && x < s.N()
  {
    s'.pc[x] == s.pc[x] && s'.number[x] == s.number[x] && s'.before[x] == s.before[x] && s'.choosing[x] == s.choosing[x]
  }

  lemma ElsewhereSame(s: State, a: Action, x: nat)
    requires Shape(s) && x < s.N()
    requires a != Run(x) && a != Wait(x) && !(a.GetNumber? && s.num == x)
    ensures SameSlot(s, Next(s, a), x)
  {
  }

  lemma SlotOwnStep(s: State, i: nat)
    requires Shape(s) && i < s.N() && SlotInv(s, i)
    ensures SlotInv(Next(s, Run(i)), i)
  {
  }

  lemma SlotStep(s: State, a: Action, i: nat)
    requires Shape(s) && i < s.N() && SlotInv(s, i)
    ensures SlotInv(Next(s, a), i)
  {
    if a == Run(i) {
      SlotOwnStep(s, i);
    } else if a.Run? {
      ElsewhereSame(s, a, i);
    }
  }

  /** What can happen to the ticket of a slot: it is kept until the slot is done, which it stays. */
  lemma TicketKept(s: State, a: Action, k: nat)
    requires Shape(s) && k < s.N() && SlotInv(s, k) && (HasTicket(s.pc[k]) || s.pc[k].Done?)
    ensures var s' := Next(s, a);
      && (HasTicket(s'.pc[k]) || s'.pc[k].Done?)
      && (HasTicket(s'.pc[k]) ==> s'.number[k] == s.number[k])
      && (s.pc[k].Done? ==> s'.pc[k].Done?)
      && (s'.pc[k].Done? ==> s.pc[k].Done? || (a == Run(k) && s.pc[k].Clear?))
  {
    if a == Run(k) {
      hide DoorwayAccess;
    } else if a != Wait(k) {
      hide Next;
      ElsewhereSame(s, a, k);
    }
  }

  /** A slot notes who has a ticket when its doorway rises, and only then. */
  lemma BeforeNoted(s: State, a: Action, i: nat)
    requires Shape(s) && i < s.N() && SlotInv(s, i)
    ensures var s' := Next(s, a);
      && (!s.pc[i].Raise? ==> s'.before[i] == s.before[i])
      && (s.pc[i].Unissued? ==> s'.pc[i].Unissued? || s'.pc[i].Raise?)
      && (s.pc[i].Raise? ==> s'.pc[i].Raise? || s'.before[i] == Ticketed(s.number))
      && (s'.pc[i].Raise? ==> s.pc[i].Raise? || s.pc[i].Unissued?)
  {
    if a == Run(i) {
      hide CheckAccess, CriticalAccess;
    } else if a.Run? {
      hide Next;
      ElsewhereSame(s, a, i);
    }
  }

  /** The two slots of a pair, each with its own facts: all that the next lemmas may use. */
  ghost predicate Pair(s: State, i: nat, m: nat) {
    && Shape(s) && i < s.N() && m < s.N()
    && SlotInv(s, i) && SlotInv(s, m) && PairInv(s, i, m)
  }

  lemma BeforeOtherStep(s: State, a: Action, i: nat, m: nat)
    requires Pair(s, i, m) && a != Run(i)
    ensures BeforeInv(Next(s, a), i, m)
  {
    if m in s.before[i] {
      TicketKept(s, a, m);
    }
    if a.Run? {
      hide Next;
      ElsewhereSame(s, a, i);
    }
  }

  lemma BeforeStep(s: State, a: Action, i: nat, m: nat)
    requires Pair(s, i, m)
    ensures BeforeInv(Next(s, a), i, m)
  {
    if a != Run(i) {
      BeforeOtherStep(s, a, i, m);
    } else if i != m {
      ElsewhereSame(s, a, m);
    }
  }

  /** When slot i writes its ticket or slot m raises its own, the order is decided; otherwise it stays. */
  lemma OrderOwnStep(s: State, i: nat, m: nat)
    requires Pair(s, i, m) && i != m
    ensures OrderInv(Next(s, Run(i)), i, m)
  {
    ElsewhereSame(s, Run(i), m);
  }

  lemma OrderStep(s: State, a: Action, i: nat, m: nat)
    requires Pair(s, i, m)
    ensures OrderInv(Next(s, a), i, m)
  {
    if i != m {
      if a == Run(i) {
        OrderOwnStep(s, i, m);
      } else if !a.Wait? && !a.GetNumber? {
        ElsewhereSame(s, a, i);
      }
    } else {
      BeforeStep(s, a, i, m);
    }
  }

  lemma ScanOwnStep(s: State, i: nat, m: nat)
    requires Pair(s, i, m)
    ensures ScanInv(Next(s, Run(i)), i, m)
  {
    if i != m {
      ElsewhereSame(s, Run(i), m);
    }
  }

  lemma ScanStep(s: State, a: Action, i: nat, m: nat)
    requires Pair(s, i, m)
    ensures ScanInv(Next(s, a), i, m)
  {
    if a == Run(i) {
      ScanOwnStep(s, i, m);
    } else if !a.Wait? && !a.GetNumber? {
      ElsewhereSame(s, a, i);
    }
  }

  lemma RereadOwnStep(s: State, i: nat, m: nat)
    requires Pair(s, i, m)
    requires s.pc[i].Test? ==> SlotInv(s, s.pc[i].k)
    ensures RereadInv(Next(s, Run(i)), i, m)
  {
  }

  /** If the slot k that slot i is about to read again clears its ticket, then only larger tickets are left. */
  lemma RereadOtherStep(s: State, a: Action, i: nat, m: nat)
    requires Pair(s, i, m) && s.pc[i].Reread? && SlotInv(s, s.pc[i].k)
    requires a != Run(i) && !a.Wait? && !a.GetNumber?
    requires
      var k := s.pc[i].k;
      a == Run(k) && s.pc[k].Clear? && m != k && HasTicket(s.pc[m]) ==> Less(s.number[k], k, s.number[m], m)
    ensures RereadInv(Next(s, a), i, m)
  {
    hide Next, OrderInv, WaitInv;
    ElsewhereSame(s, a, i);
    TicketKept(s, a, s.pc[i].k);
    if m in s.before[i] {
      TicketKept(s, a, m);
    }
  }

  lemma CheckingNext(s: State, w: nat)
    requires Shape(s) && w < s.N() && Checking(s.pc[w])
    ensures Next(s, Run(w)) == s.(pc := s.pc[w := CheckAccess(s, w)])
  {
  }

  lemma WaitOwnStep(s: State, w: nat, j: nat)
    requires Pair(s, w, j)
    ensures WaitInv(Next(s, Run(w)), w, j)
  {
    hide BeforeInv, ScanInv, RereadInv, OrderInv;
    if w != j && Checking(s.pc[w]) {
      hide Next;
      CheckingNext(s, w);
    } else if w != j {
      hide CheckAccess, Behind;
      if InCritical(s.pc[w]) && !s.pc[w].Clear? {
        BehindElsewhere(s, w, j);
      }
    }
  }

  lemma BehindElsewhere(s: State, w: nat, j: nat)
    requires Shape(s) && w < s.N() && j < s.N() && w != j && InCritical(s.pc[w]) && !s.pc[w].Clear?
    ensures Behind(Next(s, Run(w)), w, j) <==> Behind(s, w, j)
  {
  }

  /** Whatever slot j does, it stays behind a waiting slot w that it was behind. */
  lemma BehindStays(s: State, a: Action, w: nat, j: nat)
    requires Pair(s, w, j) && w != j && HasTicket(s.pc[w])
    requires a != Run(w) && a != Wait(w) && !(a.GetNumber? && s.num == w)
    ensures Behind(s, w, j) ==> Behind(Next(s, a), w, j)
    ensures HasTicket(s.pc[j]) ==> Behind(Next(s, a), w, j) || HasTicket(Next(s, a).pc[j])
    ensures HasTicket(s.pc[j]) && HasTicket(Next(s, a).pc[j]) ==> Next(s, a).number[j] == s.number[j]
  {
    hide Next;
    ElsewhereSame(s, a, w);
    BeforeNoted(s, a, j);
    if HasTicket(s.pc[j]) || s.pc[j].Done? {
      TicketKept(s, a, j);
    }
  }

  lemma WaitStep(s: State, a: Action, w: nat, j: nat)
    requires Pair(s, w, j)
    ensures WaitInv(Next(s, a), w, j)
  {
    if a == Run(w) {
      WaitOwnStep(s, w, j);
    } else if w != j && Started(s.pc[w]) && a != Wait(w) {
      ElsewhereSame(s, a, w);
      BehindStays(s, a, w, j);
    }
  }

  lemma RereadStep(s: State, a: Action, i: nat, m: nat)
    requires Inv(s) && i < s.N() && m < s.N()
    ensures RereadInv(Next(s, a), i, m)
  {
    assert Pair(s, i, m);
    if a == Run(i) {
      RereadOwnStep(s, i, m);
    } else if a.Wait? || a.GetNumber? {
      assert s.pc[i].Reread? ==> SlotInv(s, s.pc[i].k);
    } else if s.pc[i].Reread? {
      var k := s.pc[i].k;
      if s.pc[k].Clear? && m != k && HasTicket(s.pc[m]) {
        CriticalIsLeast(s, k, m);
      }
      RereadOtherStep(s, a, i, m);
    } else {
      ElsewhereSame(s, a, i);
    }
  }

  lemma PairStep(s: State, a: Action, i: nat, m: nat)
    requires Inv(s) && i < s.N() && m < s.N()
    ensures PairInv(Next(s, a), i, m)
  {
    assert Pair(s, i, m);
    BeforeStep(s, a, i, m);
    OrderStep(s, a, i, m);
    ScanStep(s, a, i, m);
    WaitStep(s, a, i, m);
    RereadStep(s, a, i, m);
  }

  lemma StepInv(s: State, a: Action)
    requires Inv(s)
    ensures Inv(Next(s, a))
  {
    var s' := Next(s, a);
    forall i: nat | i < s'.N() ensures SlotInv(s', i) {
      SlotStep(s, a, i);
    }
    forall i: nat, m: nat | i < s'.N() && m < s'.N() ensures PairInv(s', i, m) {
      PairStep(s, a, i, m);
    }
  }

  lemma {:induction false} RunInv(s: State, acts: seq<Action>)
    requires Inv(s)
    ensures Inv(After(s, acts))
    decreases acts
  {
    if acts != [] {
      StepInv(s, acts[0]);
      RunInv(Next(s, acts[0]), acts[1..]);
    }
  }

  /** Safety over whole runs: after any schedule of any number of slots, with doorways overlapping in any
      way, two threads are never both between taking a letter and clearing their ticket. */
  lemma MutualExclusionAlways(n: nat, acts: seq<Action>, i: nat, j: nat)
    requires i < n && j < n && i != j
    ensures var s := After(Init(n), acts); !(InCritical(s.pc[i]) && InCritical(s.pc[j]))
  {
    InitInv(n);
    RunInv(Init(n), acts);
    MutualExclusion(After(Init(n), acts), i, j);
  }
}
