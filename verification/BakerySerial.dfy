/** The threaded server behind its single dispatcher: requests are handled one at a time while service
    threads run concurrently. Slots are then served in order and the server refines two counters. */
module BakerySerial {
  import opened Letters
  import opened BakeryMachine
  import opened BakeryInvariant
  import opened BakeryOrder

  /** The dispatcher is neither in a doorway nor waiting in a join. */
  ghost predicate DispatcherFree(s: State)
    requires Shape(s)
  {
    forall i: nat | i < s.N() :: !Doorway(s.pc[i]) && !s.join[i].Waiting?
  }

  ghost predicate Allowed(s: State, a: Action)
    requires Shape(s)
  {
    a.GetNumber? || a.Wait? || a.JoinCall? ==> DispatcherFree(s)
  }

  /** One step of the server with its dispatcher. */
  ghost function SerialNext(s: State, a: Action): (s': State)
    requires Shape(s)
    ensures Shape(s') && s'.N() == s.N()
  {
    if Allowed(s, a) then Next(s, a) else s
  }

  ghost function SerialAfter(s: State, acts: seq<Action>): (s': State)
    requires Shape(s)
    ensures Shape(s') && s'.N() == s.N()
    decreases acts
  {
    if acts == [] then s else SerialAfter(SerialNext(s, acts[0]), acts[1..])
  }

  ghost predicate DispatcherInv(s: State, i: nat)
    requires Shape(s) && i < s.N()
  {
    && (Doorway(s.pc[i]) ==> i + 1 == s.num)
    && (s.join[i].Waiting? ==> forall j: nat | j < s.N() :: !Doorway(s.pc[j]) && (s.join[j].Waiting? ==> j == i))
    && s.ticket[i] <= i + 1
  }

  ghost predicate Raised(p: Control) {
    Scanning(p) || HasTicket(p) || p.Done?
  }

  /** Every lower slot had its ticket when slot i raised `choosing`. */
  ghost predicate LowerFirstInv(s: State, m: nat, i: nat)
    requires Shape(s) && m < s.N() && i < s.N()
  {
    && (m < i && Raised(s.pc[i]) ==> m in s.before[i] || s.pc[m].Done?)
    && (m < i && (InCritical(s.pc[i]) || s.pc[i].Done?) ==> s.pc[m].Done?)
  }

  /** The served slots are 0, 1, .. in this order. */
  ghost predicate PrefixInv(s: State)
    requires Shape(s)
  {
    forall k: nat | k < |s.served| :: s.served[k] == k
  }

  ghost predicate SerialInv(s: State) {
    && LetterInv(s) && TicketsInv(s) && PrefixInv(s)
    && (forall i: nat | i < s.N() :: DispatcherInv(s, i))
    && (forall m: nat, i: nat | m < s.N() && i < s.N() :: LowerFirstInv(s, m, i))
  }

  lemma InitSerial(n: nat)
    ensures SerialInv(Init(n))
  {
    InitLetters(n);
  }

  /** With the dispatcher, unserved numbers strictly increase with the slot. */
  lemma NumbersIncrease(s: State, m: nat, i: nat)
    requires SerialInv(s) && m < i < s.N() && HasTicket(s.pc[m]) && HasTicket(s.pc[i])
    ensures s.number[m] < s.number[i] <= i + 1
  {
    assert LowerFirstInv(s, m, i) && PairInv(s, i, m) && TicketInv(s, i) && DispatcherInv(s, i);
  }

  // ----- every step of the server keeps the invariant

  /** Only a request puts a slot in a doorway or a join, and only the doorway's slot writes a ticket. */
  lemma RequestStep(s: State, a: Action, j: nat)
    requires Shape(s) && j < s.N() && SlotInv(s, j)
    ensures var s' := Next(s, a);
      && (Doorway(s'.pc[j]) ==> Doorway(s.pc[j]) || (a.GetNumber? && s.num == j && s'.num == s.num + 1))
      && (s'.num != s.num ==> a.GetNumber?)
      && (s'.join[j].Waiting? ==> s.join[j].Waiting? || a == JoinCall(j))
      && (s'.ticket[j] != s.ticket[j] ==> Doorway(s.pc[j]) && s'.num == s.num)
  {
    if a.Run? && a.i != j {
      ElsewhereSame(s, a, j);
    }
  }

  lemma DispatcherStep(s: State, a: Action, i: nat)
    requires SerialInv(s) && Allowed(s, a) && i < s.N() && TicketsInv(Next(s, a))
    ensures DispatcherInv(Next(s, a), i)
  {
    var s' := Next(s, a);
    assert DispatcherInv(s, i) && SlotInv(s, i);
    RequestStep(s, a, i);
    if s'.ticket[i] != s.ticket[i] {
      TicketBound(s', i);
    }
    if s'.join[i].Waiting? {
      forall j: nat | j < s.N() ensures !Doorway(s'.pc[j]) && (s'.join[j].Waiting? ==> j == i) {
        assert SlotInv(s, j);
        RequestStep(s, a, j);
        assert DispatcherInv(s, j);
      }
    }
  }

  /** What slot i does to its own relation with a lower slot m. */
  lemma LowerFirstOwnStep(s: State, m: nat, i: nat)
    requires Shape(s) && m < i < s.N() && SlotInv(s, m) && LowerFirstInv(s, m, i)
    requires s.pc[i].Raise? ==> HasTicket(s.pc[m]) || s.pc[m].Done?
    requires Checking(s.pc[i]) && InCritical(Next(s, Run(i)).pc[i]) ==> s.pc[m].Done?
    ensures LowerFirstInv(Next(s, Run(i)), m, i)
  {
    ElsewhereSame(s, Run(i), m);
  }

  lemma LowerFirstOtherStep(s: State, a: Action, m: nat, i: nat)
    requires Shape(s) && m < i < s.N() && SlotInv(s, i) && SlotInv(s, m) && LowerFirstInv(s, m, i) && a != Run(i)
    ensures LowerFirstInv(Next(s, a), m, i)
  {
    if a.Run? {
      ElsewhereSame(s, a, i);
    }
  }

  lemma LowerFirstStep(s: State, a: Action, m: nat, i: nat)
    requires SerialInv(s) && Allowed(s, a) && m < i < s.N() && Inv(Next(s, a))
    ensures LowerFirstInv(Next(s, a), m, i)
  {
    assert LowerFirstInv(s, m, i) && SlotInv(s, i) && SlotInv(s, m);
    if a == Run(i) {
      if s.pc[i].Raise? {
        assert DispatcherInv(s, m) && DispatcherInv(s, i);
      } else if Checking(s.pc[i]) && InCritical(Next(s, a).pc[i]) {
        CriticalAfterLower(s, m, i);
      }
      LowerFirstOwnStep(s, m, i);
    } else {
      LowerFirstOtherStep(s, a, m, i);
    }
  }

  /** Passing the last check puts every lower slot behind, which only a served slot can be. */
  lemma CriticalAfterLower(s: State, m: nat, i: nat)
    requires SerialInv(s) && m < i < s.N() && Checking(s.pc[i])
    requires Inv(Next(s, Run(i))) && InCritical(Next(s, Run(i)).pc[i])
    ensures s.pc[m].Done?
  {
    var s' := Next(s, Run(i));
    assert LowerFirstInv(s, m, i) && PairInv(s, i, m) && SlotInv(s, i);
    ElsewhereSame(s, Run(i), m);
    if HasTicket(s.pc[m]) {
      NumbersIncrease(s, m, i);
      CriticalIsLeast(s', i, m);
    }
  }

  lemma ServedMembers(s: State, x: nat)
    requires Shape(s) && PrefixInv(s)
    ensures x in s.served <==> x < |s.served|
  {
    if x < |s.served| {
      assert s.served[x] == x;
    }
  }

  /** The slot that takes a letter is the next one in order. */
  lemma TakerIsNext(s: State, i: nat)
    requires SerialInv(s) && i < s.N() && s.pc[i].Take?
    ensures i == |s.served|
  {
    ServedMembers(s, i);
    if i != 0 {
      assert LowerFirstInv(s, i - 1, i);
      ServedMembers(s, i - 1);
    }
  }

  lemma PrefixStep(s: State, a: Action)
    requires SerialInv(s)
    ensures PrefixInv(Next(s, a))
  {
    if a.Run? && a.i < s.N() && InCritical(s.pc[a.i]) {
      if s.pc[a.i].Take? {
        TakerIsNext(s, a.i);
      }
    } else {
      assert s.num < s.N() ==> SlotInv(s, s.num);
      DispenserUntouched(s, a);
    }
  }

  lemma SerialStep(s: State, a: Action)
    requires SerialInv(s)
    ensures SerialInv(SerialNext(s, a))
  {
    if Allowed(s, a) {
      var s' := Next(s, a);
      LetterStep(s, a);
      TicketRun(s, [a]);
      assert After(s, [a]) == s' by {
        assert [a][1..] == [];
        assert After(s', []) == s';
      }
      PrefixStep(s, a);
      forall i: nat | i < s'.N() ensures DispatcherInv(s', i) {
        DispatcherStep(s, a, i);
      }
      forall m: nat, i: nat | m < s'.N() && i < s'.N() ensures LowerFirstInv(s', m, i) {
        if m < i {
          LowerFirstStep(s, a, m, i);
        }
      }
    }
  }

  lemma {:induction false} SerialRun(s: State, acts: seq<Action>)
    requires SerialInv(s)
    ensures SerialInv(SerialAfter(s, acts))
    decreases acts
  {
    if acts != [] {
      SerialStep(s, acts[0]);
      SerialRun(SerialNext(s, acts[0]), acts[1..]);
    }
  }

  // ----- refinement of two counters

  /** The atomic server: how many slots were handed out and how many letters were taken. */
  datatype Counters = Counters(issued: nat, served: nat)

  ghost function Abs(s: State): Counters {
    Counters(s.num, |s.served|)
  }

  predicate AtomicStep(n: nat, x: Counters, y: Counters) {
    || y == x
    || (x.issued < n && y == x.(issued := x.issued + 1))
    || (x.served < x.issued && y == x.(served := x.served + 1))
  }

  /** The reply that the atomic server gives to slot i, once it is served. */
  predicate AtomicReply(x: Counters, i: nat, letter: int) {
    i < x.served && letter == Letter(i)
  }

  lemma StepRefines(s: State, a: Action)
    requires SerialInv(s)
    ensures AtomicStep(s.N(), Abs(s), Abs(SerialNext(s, a)))
  {
    if Allowed(s, a) {
      if a.Run? && a.i < s.N() && InCritical(s.pc[a.i]) {
        hide Next, PairInv, LowerFirstInv;
        CriticalNext(s, a.i);
        if s.pc[a.i].Take? {
          TakerIsNext(s, a.i);
          assert SlotInv(s, a.i);
        }
      } else {
        hide Access, PairInv, LowerFirstInv;
        assert s.num < s.N() ==> SlotInv(s, s.num);
        DispenserUntouched(s, a);
      }
    }
  }

  /** Every run of the server with its dispatcher refines the atomic counters: each step is an atomic step
      or changes nothing, the served slots are 0 .. m-1, and slot i is always answered 'a' + i mod 26. */
  lemma SerialRefinesCounters(n: nat, acts: seq<Action>, a: Action, i: nat)
    requires i < n
    ensures
      var s := SerialAfter(Init(n), acts);
      && AtomicStep(n, Abs(s), Abs(SerialNext(s, a)))
      && (Took(s.pc[i]) <==> i < Abs(s).served)
      && (s.join[i].Answered? ==>
            AtomicReply(Abs(s), i, s.join[i].letter) && s.join[i].letter == ALPHABET[i % 26] as int)
  {
    InitSerial(n);
    SerialRun(Init(n), acts);
    var s := SerialAfter(Init(n), acts);
    StepRefines(s, a);
    LettersAreAlphabet(i);
    assert JoinInv(s, i);
    if i < |s.served| {
      assert s.served[i] == i;
    }
  }

  /** An answered slot was sent its own letter, and the answer of a waiting one is on its way. */
  lemma AnswerIsLetter(s: State, i: nat)
    requires SerialInv(s) && i < s.N() && (s.join[i].Answered? || s.pc[i].Done?)
    ensures s.join[i].Answered? ==> s.join[i].letter == Letter(i)
    ensures s.pc[i].Done? && s.join[i].Waiting? ==> SerialNext(s, JoinReturn(i)).join[i] == Answered(Letter(i))
    ensures s.join[i].Answered? ==> SerialNext(s, JoinReturn(i)) == s
  {
    assert JoinInv(s, i);
    ServedMembers(s, i);
    assert s.served[i] == i;
  }

  lemma {:induction false} SerialAfterConcat(s: State, xs: seq<Action>, ys: seq<Action>)
    requires Shape(s)
    ensures SerialAfter(s, xs + ys) == SerialAfter(SerialAfter(s, xs), ys)
    decreases xs
  {
    if xs == [] {
      assert xs + ys == ys;
    } else {
      assert (xs + ys)[1..] == xs[1..] + ys;
      SerialAfterConcat(SerialNext(s, xs[0]), xs[1..], ys);
    }
  }

  lemma SerialAfterOne(s: State, a: Action)
    requires Shape(s)
    ensures SerialAfter(s, [a]) == SerialNext(s, a)
  {
    assert [a][1..] == [];
    assert SerialAfter(SerialNext(s, a), []) == SerialNext(s, a);
  }

  /** In every run with the dispatcher, unserved numbers increase with the slot and stay at most slot + 1. */
  lemma SerialNumbers(n: nat, acts: seq<Action>, m: nat, i: nat)
    requires m < i < n
    ensures
      var s := SerialAfter(Init(n), acts);
      && s.number[m] <= m + 1 && s.number[i] <= i + 1
      && (s.number[m] != 0 && s.number[i] != 0 ==> s.number[m] < s.number[i])
  {
    InitSerial(n);
    SerialRun(Init(n), acts);
    var s := SerialAfter(Init(n), acts);
    assert SlotInv(s, m) && SlotInv(s, i) && TicketInv(s, m) && DispatcherInv(s, m);
    assert TicketInv(s, i) && DispatcherInv(s, i);
    if s.number[m] != 0 && s.number[i] != 0 {
      NumbersIncrease(s, m, i);
    }
  }
}
