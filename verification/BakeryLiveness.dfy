/** Lockout freedom with overlapping doorways and new customers arriving all the time: every schedule with
    enough fair rounds serves every slot that was issued. */
module BakeryLiveness {
  import opened BakeryMachine
  import opened BakeryInvariant
  import opened BakeryOrder
  import opened BakeryProgress

  /** A round of arbitrary actions in which every client calls BAKERY_WAIT at some time and every slot gets
      at least 2n + 5 steps, in any order. */
  ghost predicate FullRound(acts: seq<Action>, n: nat) {
    forall x: nat | x < n :: Wait(x) in acts && Count(acts, x) >= 2 * n + 5
  }

  ghost predicate FullRounds(rounds: seq<seq<Action>>, n: nat) {
    forall r | r in rounds :: FullRound(r, n)
  }

  /** The doorway of the slot is over. */
  predicate PastDoorway(p: Control) {
    !p.Unissued? && !Doorway(p)
  }

  /** Slot j may still go before slot w. */
  ghost predicate Rival(s: State, w: nat, j: nat)
    requires Shape(s) && w < s.N() && j < s.N()
  {
    j != w && !Behind(s, w, j)
  }

  ghost function Rivals(s: State, w: nat): set<nat>
    requires Shape(s) && w < s.N()
  {
    set j: nat | j < s.N() && Rival(s, w, j)
  }

  // ----- what lasts

  lemma LastingStep(s: State, a: Action, w: nat)
    requires Inv(s) && w < s.N()
    ensures var p, p' := s.pc[w], Next(s, a).pc[w];
      && (HasTicket(p) ==> HasTicket(p') || p'.Done?)
      && (Started(p) ==> Started(p') || p'.Done?)
      && (PastDoorway(p) ==> PastDoorway(p')) && (p.Done? ==> p'.Done?)
      && (p'.Unissued? ==> p.Unissued?)
      && (PastDoorway(p) && (a == Wait(w) || !p.Issued?) ==> !p'.Issued?)
  {
    assert SlotInv(s, w);
    hide PairInv;
    if a.Run? && a.i != w {
      hide Next;
      ElsewhereSame(s, a, w);
    }
  }

  lemma {:induction false} LastingRun(s: State, acts: seq<Action>, w: nat)
    requires Inv(s) && w < s.N()
    ensures var p, p' := s.pc[w], After(s, acts).pc[w];
      && (HasTicket(p) ==> HasTicket(p') || p'.Done?)
      && (Started(p) ==> Started(p') || p'.Done?)
      && (PastDoorway(p) ==> PastDoorway(p')) && (p.Done? ==> p'.Done?)
      && (p'.Unissued? ==> p.Unissued?)
      && (PastDoorway(p) && (Wait(w) in acts || !p.Issued?) ==> !p'.Issued?)
    decreases acts
  {
    if acts != [] {
      LastingStep(s, acts[0], w);
      StepInv(s, acts[0]);
      LastingRun(Next(s, acts[0]), acts[1..], w);
      assert acts == [acts[0]] + acts[1..];
    }
  }

  /** A slot with a ticket gets no new rivals, and its number stays. */
  lemma {:induction false} NoNewRivals(s: State, acts: seq<Action>, w: nat, j: nat)
    requires Inv(s) && w < s.N() && j < s.N() && w != j && HasTicket(s.pc[w])
    ensures var s' := After(s, acts);
      HasTicket(s'.pc[w]) ==> s'.number[w] == s.number[w] && (Rival(s', w, j) ==> Rival(s, w, j))
    decreases acts
  {
    if acts != [] {
      var a := acts[0];
      assert Pair(s, w, j);
      LastingStep(s, a, w);
      StepInv(s, a);
      RivalStep(s, a, w, j);
      if HasTicket(Next(s, a).pc[w]) {
        NoNewRivals(Next(s, a), acts[1..], w, j);
      } else {
        LastingRun(Next(s, a), acts[1..], w);
      }
    }
  }

  lemma RivalStep(s: State, a: Action, w: nat, j: nat)
    requires Pair(s, w, j) && w != j && HasTicket(s.pc[w])
    ensures var s' := Next(s, a);
      HasTicket(s'.pc[w]) ==> s'.number[w] == s.number[w] && (Rival(s', w, j) ==> Rival(s, w, j))
  {
    if a == Run(w) {
      ElsewhereSame(s, a, j);
    } else if a != Wait(w) {
      ElsewhereSame(s, a, w);
      BehindStays(s, a, w, j);
    }
  }

  /** A round ends every doorway that was open, and starts every thread whose doorway was over. */
  lemma RoundCloses(s: State, round: seq<Action>, j: nat)
    requires Inv(s) && j < s.N() && FullRound(round, s.N())
    ensures var p, p' := s.pc[j], After(s, round).pc[j];
      && (!p.Unissued? ==> PastDoorway(p'))
      && (PastDoorway(p) ==> Started(p') || p'.Done?)
  {
    LastingRun(s, round, j);
    if !s.pc[j].Unissued? {
      DoorwayFinishes(s, j, round);
    }
  }

  // ----- a slot without rivals

  ghost predicate NoRivals(s: State, w: nat)
    requires Shape(s) && w < s.N()
  {
    forall j: nat | j < s.N() :: !Rival(s, w, j)
  }

  lemma NoRivalsRun(s: State, acts: seq<Action>, w: nat)
    requires Inv(s) && w < s.N() && Started(s.pc[w]) && NoRivals(s, w)
    ensures var s' := After(s, acts); s'.pc[w].Done? || (Started(s'.pc[w]) && NoRivals(s', w))
  {
    LastingRun(s, acts, w);
    var s' := After(s, acts);
    if !s'.pc[w].Done? {
      forall j: nat | j < s.N() ensures !Rival(s', w, j) {
        if j != w {
          NoNewRivals(s, acts, w, j);
        }
      }
    }
  }

  /** Has slot w passed slot j in its loop? */
  predicate HasPassed(p: Control, j: nat) {
    InCritical(p) || p.Done? || (Checking(p) && p.j > j)
  }

  /** How many of its own steps slot w needs to pass slot j, where it is now. */
  function PassRank(s: State, w: nat, j: nat): nat
    requires Shape(s) && w < s.N() && j < s.N()
  {
    if HasPassed(s.pc[w], j) then 0 else
      match s.pc[w]
      case CheckChoosing(_) => 5
      case CheckZero(_) => if s.number[j] != 0 then 4 else 2
      case CheckLess(_) => 3
      case _ => 2
  }

  /** Slot j is not in its doorway. */
  predicate Calm(p: Control) {
    p.Unissued? || PastDoorway(p)
  }

  lemma PassOwnStep(s: State, w: nat, j: nat)
    requires Shape(s) && w < s.N() && j < s.N() && SlotInv(s, w) && SlotInv(s, j) && Calm(s.pc[j])
    requires HasPassed(s.pc[w], j) || (Checking(s.pc[w]) && s.pc[w].j == j)
    requires HasTicket(s.pc[j]) && j != w ==> Less(s.number[w], w, s.number[j], j)
    ensures var s' := Next(s, Run(w));
      && (HasPassed(s'.pc[w], j) || (Checking(s'.pc[w]) && s'.pc[w].j == j))
      && PassRank(s', w, j) + (if PassRank(s, w, j) > 0 then 1 else 0) <= PassRank(s, w, j)
  {
  }

  lemma PassOtherStep(s: State, a: Action, w: nat, j: nat)
    requires Shape(s) && w < s.N() && j < s.N() && SlotInv(s, w) && SlotInv(s, j) && Calm(s.pc[j])
    requires HasPassed(s.pc[w], j) || (Checking(s.pc[w]) && s.pc[w].j == j)
    requires a != Run(w)
    ensures var s' := Next(s, a);
      && (HasPassed(s'.pc[w], j) || (Checking(s'.pc[w]) && s'.pc[w].j == j))
      && PassRank(s', w, j) <= PassRank(s, w, j)
  {
    if a != Wait(w) && !a.GetNumber? {
      ElsewhereSame(s, a, w);
      if a != Run(j) && a != Wait(j) {
        ElsewhereSame(s, a, j);
      }
    }
  }

  /** Without rivals, slot w passes a slot that stays out of its doorway. */
  lemma {:induction false} PassRun(s: State, acts: seq<Action>, w: nat, j: nat)
    requires Inv(s) && w < s.N() && j < s.N()
    requires s.pc[w].Done? || (Started(s.pc[w]) && NoRivals(s, w))
    requires HasPassed(s.pc[w], j) || (Checking(s.pc[w]) && s.pc[w].j == j)
    requires PastDoorway(s.pc[j]) || After(s, acts).pc[j].Unissued?
    requires Count(acts, w) >= PassRank(s, w, j)
    ensures HasPassed(After(s, acts).pc[w], j)
    decreases acts
  {
    if acts != [] {
      var a, s' := acts[0], Next(s, acts[0]);
      LastingRun(s, acts, j);
      LastingStep(s, a, j);
      LastingStep(s, a, w);
      StepInv(s, a);
      assert SlotInv(s, w) && SlotInv(s, j);
      if !s.pc[w].Done? {
        OneStepRun(s, a);
        NoRivalsRun(s, [a], w);
      }
      if a == Run(w) {
        if HasTicket(s.pc[j]) && j != w && HasTicket(s.pc[w]) {
          assert !Rival(s, w, j);
          BehindIsLess(s, w, j);
        }
        PassOwnStep(s, w, j);
      } else {
        PassOtherStep(s, a, w, j);
      }
      PassRun(s', acts[1..], w, j);
    }
  }

  lemma OneStepRun(s: State, a: Action)
    requires Shape(s)
    ensures After(s, [a]) == Next(s, a)
  {
    assert [a][1..] == [];
    assert After(Next(s, a), []) == Next(s, a);
  }

  // ----- rounds

  function AfterRounds(s: State, rounds: seq<seq<Action>>): (s': State)
    requires Shape(s)
    ensures Shape(s') && s'.N() == s.N()
    decreases rounds
  {
    if rounds == [] then s else AfterRounds(After(s, rounds[0]), rounds[1..])
  }

  lemma {:induction false} RoundsAreSchedule(s: State, rounds: seq<seq<Action>>)
    requires Shape(s)
    ensures AfterRounds(s, rounds) == After(s, Flatten(rounds))
    decreases rounds
  {
    if rounds != [] {
      RoundsAreSchedule(After(s, rounds[0]), rounds[1..]);
      AfterConcat(s, rounds[0], Flatten(rounds[1..]));
    }
  }

  /** Run the first k rounds, then the others. */
  lemma {:induction false} SplitRounds(s: State, rounds: seq<seq<Action>>, k: nat)
    requires Inv(s) && k <= |rounds| && FullRounds(rounds, s.N())
    ensures var s' := AfterRounds(s, rounds[..k]);
      Inv(s') && AfterRounds(s, rounds) == AfterRounds(s', rounds[k..]) && FullRounds(rounds[k..], s.N())
    decreases k
  {
    if k == 0 {
      assert rounds[0..] == rounds;
    } else {
      RunInv(s, rounds[0]);
      SplitRounds(After(s, rounds[0]), rounds[1..], k - 1);
      assert rounds[..k][1..] == rounds[1..][..k - 1];
      assert rounds[1..][k - 1..] == rounds[k..];
    }
  }

  lemma {:induction false} DoneStays(s: State, rounds: seq<seq<Action>>, w: nat)
    requires Inv(s) && w < s.N() && s.pc[w].Done?
    ensures AfterRounds(s, rounds).pc[w].Done?
    decreases rounds
  {
    if rounds != [] {
      LastingRun(s, rounds[0], w);
      RunInv(s, rounds[0]);
      DoneStays(After(s, rounds[0]), rounds[1..], w);
    }
  }

  /** The critical section takes at most five steps. */
  function CriticalRank(p: Control): nat {
    match p
    case Take => 5
    case Bump(_) => 4
    case TestZ => 3
    case Wrap => 2
    case Clear => 1
    case _ => 0
  }

  lemma CriticalStep(s: State, a: Action, w: nat)
    requires Shape(s) && w < s.N() && SlotInv(s, w) && (InCritical(s.pc[w]) || s.pc[w].Done?)
    ensures var p, p' := s.pc[w], Next(s, a).pc[w];
      && (InCritical(p') || p'.Done?)
      && CriticalRank(p') + (if a == Run(w) && CriticalRank(p) > 0 then 1 else 0) <= CriticalRank(p)
  {
    if a.Run? && a.i != w {
      ElsewhereSame(s, a, w);
    }
  }

  lemma {:induction false} CriticalRun(s: State, acts: seq<Action>, w: nat)
    requires Inv(s) && w < s.N() && (InCritical(s.pc[w]) || s.pc[w].Done?) && Count(acts, w) >= CriticalRank(s.pc[w])
    ensures After(s, acts).pc[w].Done?
    decreases acts
  {
    if acts != [] {
      assert SlotInv(s, w);
      CriticalStep(s, acts[0], w);
      StepInv(s, acts[0]);
      CriticalRun(Next(s, acts[0]), acts[1..], w);
    }
  }

  /** One round, after which slot w has passed slot j unless j sat in its doorway. */
  lemma PassInRound(s: State, round: seq<Action>, w: nat, j: nat)
    requires Inv(s) && w < s.N() && j < s.N() && Started(s.pc[w]) && NoRivals(s, w) && FullRound(round, s.N())
    requires HasPassed(s.pc[w], j) || (Checking(s.pc[w]) && s.pc[w].j == j)
    ensures var s' := After(s, round);
      && (s'.pc[w].Done? || (Started(s'.pc[w]) && NoRivals(s', w)))
      && (HasPassed(s'.pc[w], j) || (Checking(s'.pc[w]) && s'.pc[w].j == j))
      && (PastDoorway(s.pc[j]) || s'.pc[j].Unissued? ==> HasPassed(s'.pc[w], j))
  {
    NoRivalsRun(s, round, w);
    StaysAt(s, round, w, j);
    if PastDoorway(s.pc[j]) || After(s, round).pc[j].Unissued? {
      PassRun(s, round, w, j);
    }
  }

  lemma {:induction false} StaysAt(s: State, acts: seq<Action>, w: nat, j: nat)
    requires Inv(s) && w < s.N() && j < s.N()
    requires HasPassed(s.pc[w], j) || (Checking(s.pc[w]) && s.pc[w].j == j)
    ensures var p := After(s, acts).pc[w]; HasPassed(p, j) || (Checking(p) && p.j == j)
    decreases acts
  {
    if acts != [] {
      assert SlotInv(s, w);
      if acts[0].Run? && acts[0].i != w {
        ElsewhereSame(s, acts[0], w);
      }
      StepInv(s, acts[0]);
      StaysAt(Next(s, acts[0]), acts[1..], w, j);
    }
  }

  lemma ThreeRounds(s: State, rounds: seq<seq<Action>>)
    requires Shape(s) && |rounds| == 3
    ensures AfterRounds(s, rounds) == After(After(After(s, rounds[0]), rounds[1]), rounds[2])
  {
    var two, one := rounds[1..], rounds[2..];
    assert two[0] == rounds[1] && two[1..] == one && one[0] == rounds[2] && one[1..] == [];
    var s1 := After(s, rounds[0]);
    var s2 := After(s1, rounds[1]);
    var s3 := After(s2, rounds[2]);
    assert AfterRounds(s3, []) == s3;
    assert AfterRounds(s2, one) == AfterRounds(s3, one[1..]);
    assert AfterRounds(s1, two) == AfterRounds(s2, two[1..]);
  }

  /** The second of two rounds takes slot w past slot j, or leaves j past its doorway. */
  lemma SecondRound(s: State, round: seq<Action>, next: seq<Action>, w: nat, j: nat)
    requires Inv(s) && w < s.N() && j < s.N() && Started(s.pc[w]) && NoRivals(s, w)
    requires FullRound(round, s.N()) && FullRound(next, s.N()) && Checking(s.pc[w]) && s.pc[w].j == j
    ensures var s' := After(After(s, round), next);
      && Inv(s') && (s'.pc[w].Done? || (Started(s'.pc[w]) && NoRivals(s', w)))
      && (HasPassed(s'.pc[w], j) || (Checking(s'.pc[w]) && s'.pc[w].j == j))
      && (HasPassed(s'.pc[w], j) || PastDoorway(s'.pc[j]))
  {
    hide HasPassed, NoRivals;
    var s' := After(s, round);
    RunInv(s, round);
    RunInv(s', next);
    PassInRound(s, round, w, j);
    StaysAt(s', next, w, j);
    if s'.pc[w].Done? {
      LastingRun(s', next, w);
      DoneHasPassed(After(s', next).pc[w], j);
    } else {
      NoRivalsRun(s', next, w);
      if s'.pc[j].Unissued? {
        StaysPassed(s', next, w, j);
      } else {
        RoundCloses(s', next, j);
      }
    }
  }

  lemma DoneHasPassed(p: Control, j: nat)
    requires p.Done?
    ensures HasPassed(p, j)
  {
  }

  lemma {:induction false} StaysPassed(s: State, acts: seq<Action>, w: nat, j: nat)
    requires Inv(s) && w < s.N() && j < s.N() && HasPassed(s.pc[w], j)
    ensures HasPassed(After(s, acts).pc[w], j)
    decreases acts
  {
    if acts != [] {
      assert SlotInv(s, w);
      if acts[0].Run? && acts[0].i != w {
        ElsewhereSame(s, acts[0], w);
      }
      StepInv(s, acts[0]);
      StaysPassed(Next(s, acts[0]), acts[1..], w, j);
    }
  }

  /** Three rounds bring a slot without rivals past the slot that it looks at. */
  lemma ThreeRoundsPass(s: State, rounds: seq<seq<Action>>, w: nat, j: nat)
    requires Inv(s) && w < s.N() && Checking(s.pc[w]) && s.pc[w].j == j && NoRivals(s, w)
    requires j < s.N() && |rounds| == 3 && FullRounds(rounds, s.N())
    ensures var s' := AfterRounds(s, rounds);
      && Inv(s') && (s'.pc[w].Done? || (Started(s'.pc[w]) && NoRivals(s', w))) && HasPassed(s'.pc[w], j)
  {
    hide HasPassed, NoRivals;
    assert rounds[0] in rounds && rounds[1] in rounds && rounds[2] in rounds;
    ThreeRounds(s, rounds);
    SecondRound(s, rounds[0], rounds[1], w, j);
    var s' := After(After(s, rounds[0]), rounds[1]);
    RunInv(s', rounds[2]);
    if s'.pc[w].Done? {
      LastingRun(s', rounds[2], w);
      DoneHasPassed(After(s', rounds[2]).pc[w], j);
    } else {
      PassInRound(s', rounds[2], w, j);
      if !PastDoorway(s'.pc[j]) {
        StaysPassed(s', rounds[2], w, j);
      }
    }
  }

  /** A started slot without rivals is served within 3n + 1 rounds. */
  lemma {:induction false} NoRivalsServed(s: State, rounds: seq<seq<Action>>, w: nat)
    requires Inv(s) && w < s.N() && FullRounds(rounds, s.N())
    requires s.pc[w].Done? ||
      (Started(s.pc[w]) && NoRivals(s, w) && |rounds| >= 3 * (s.N() - Passed(s.pc[w], s.N())) + 1)
    ensures AfterRounds(s, rounds).pc[w].Done?
    decreases |rounds|
  {
    if s.pc[w].Done? {
      DoneStays(s, rounds, w);
    } else if InCritical(s.pc[w]) {
      assert rounds[0] in rounds;
      CriticalRun(s, rounds[0], w);
      RunInv(s, rounds[0]);
      DoneStays(After(s, rounds[0]), rounds[1..], w);
    } else {
      SplitRounds(s, rounds, 3);
      ThreeRoundsPass(s, rounds[..3], w, s.pc[w].j);
      NoRivalsServed(AfterRounds(s, rounds[..3]), rounds[3..], w);
    }
  }

  // ----- rivals are served first

  /** All rivals of slot w have their tickets: smaller ones. */
  ghost predicate RivalsTicketed(s: State, w: nat)
    requires Shape(s) && w < s.N()
  {
    forall j: nat | j < s.N() && Rival(s, w, j) :: Smaller(s, j, w)
  }

  /** Slot j has a smaller ticket than slot w, and its doorway is over. */
  ghost predicate Smaller(s: State, j: nat, w: nat)
    requires Shape(s) && w < s.N() && j < s.N()
  {
    HasTicket(s.pc[j]) && PastDoorway(s.pc[j]) && Less(s.number[j], j, s.number[w], w)
  }

  lemma RoundTickets(s: State, round: seq<Action>, w: nat)
    requires Inv(s) && w < s.N() && HasTicket(s.pc[w]) && FullRound(round, s.N())
    ensures var s' := After(s, round); HasTicket(s'.pc[w]) ==> RivalsTicketed(s', w)
  {
    var s' := After(s, round);
    RunInv(s, round);
    if HasTicket(s'.pc[w]) {
      forall j: nat | j < s.N() && Rival(s', w, j)
        ensures Smaller(s', j, w)
      {
        NoNewRivals(s, round, w, j);
        RoundCloses(s, round, j);
      }
    }
  }

  /** A rival's rival is a rival: a smaller ticket than a smaller ticket. */
  lemma RivalOfRival(s: State, w: nat, j: nat, m: nat)
    requires Inv(s) && w < s.N() && j < s.N() && m < s.N() && HasTicket(s.pc[w])
    requires HasTicket(s.pc[j]) && HasTicket(s.pc[m])
    requires Less(s.number[m], m, s.number[j], j) && Less(s.number[j], j, s.number[w], w)
    ensures Rival(s, w, m)
  {
    if Behind(s, w, m) {
      BehindIsLess(s, w, m);
    }
  }

  /** The least rival of slot w, one more round later, has no rivals. */
  lemma LeastRivalIsFree(s: State, round: seq<Action>, w: nat, j: nat)
    requires Inv(s) && w < s.N() && j < s.N() && HasTicket(s.pc[w]) && FullRound(round, s.N())
    requires RivalsTicketed(s, w) && Rival(s, w, j)
    requires forall m: nat | m < s.N() && m != j && Rival(s, w, m) :: Less(s.number[j], j, s.number[m], m)
    ensures var s' := After(s, round); HasTicket(s'.pc[j]) && HasTicket(s'.pc[w]) ==> NoRivals(s', j)
  {
    var s' := After(s, round);
    RunInv(s, round);
    if HasTicket(s'.pc[j]) && HasTicket(s'.pc[w]) {
      NoNewRivals(s, round, w, j);
      KeepsNumber(s, round, j);
      RoundTickets(s, round, j);
      forall m: nat | m < s.N() ensures !Rival(s', j, m) {
        if Rival(s', j, m) {
          KeepsNumber(s, round, w);
          RivalOfRival(s', w, j, m);
          NoNewRivals(s, round, w, m);
          KeepsNumber(s, round, m);
          assert false;
        }
      }
    }
  }

  lemma {:induction false} KeepsNumber(s: State, acts: seq<Action>, w: nat)
    requires Inv(s) && w < s.N() && HasTicket(s.pc[w])
    ensures HasTicket(After(s, acts).pc[w]) ==> After(s, acts).number[w] == s.number[w]
    decreases acts
  {
    if acts != [] {
      hide Next, PairInv;
      var a := acts[0];
      assert SlotInv(s, w);
      TicketKept(s, a, w);
      StepInv(s, a);
      if HasTicket(Next(s, a).pc[w]) {
        KeepsNumber(Next(s, a), acts[1..], w);
      } else {
        LastingRun(Next(s, a), acts[1..], w);
      }
    }
  }

  /** The least of the rivals. */
  lemma {:induction false} LeastRival(s: State, w: nat, k: nat, i: nat) returns (j: nat)
    requires Shape(s) && w < s.N() && i < k <= s.N() && Rival(s, w, i)
    ensures j < k && Rival(s, w, j)
    ensures forall m: nat | m < k && m != j && Rival(s, w, m) :: Less(s.number[j], j, s.number[m], m)
    decreases k
  {
    if exists m: nat :: m < k - 1 && Rival(s, w, m) {
      var m: nat :| m < k - 1 && Rival(s, w, m);
      j := LeastRival(s, w, k - 1, m);
      if Rival(s, w, k - 1) && Less(s.number[k - 1], k - 1, s.number[j], j) {
        j := k - 1;
      }
    } else {
      j := i;
    }
  }

  /** A schedule takes rivals away and leaves the others as they are. */
  lemma RivalsShrink(s: State, acts: seq<Action>, w: nat)
    requires Inv(s) && w < s.N() && HasTicket(s.pc[w]) && RivalsTicketed(s, w)
    ensures var s' := After(s, acts); HasTicket(s'.pc[w]) ==> Rivals(s', w) <= Rivals(s, w) && RivalsTicketed(s', w)
  {
    var s' := After(s, acts);
    if HasTicket(s'.pc[w]) {
      KeepsNumber(s, acts, w);
      forall j | j in Rivals(s', w) ensures j in Rivals(s, w) && Smaller(s', j, w) {
        NoNewRivals(s, acts, w, j);
        assert Smaller(s, j, w);
        LastingRun(s, acts, j);
        KeepsNumber(s, acts, j);
      }
    }
  }

  /** How many rounds are enough to serve a slot with this many rivals. */
  function Enough(n: nat, rivals: nat): nat {
    (rivals + 1) * (3 * n + 2)
  }

  /** 3n + 2 rounds serve the least rival. */
  lemma LeastRivalServed(s: State, rounds: seq<seq<Action>>, w: nat) returns (j: nat)
    requires Inv(s) && w < s.N() && HasTicket(s.pc[w]) && RivalsTicketed(s, w) && Rivals(s, w) != {}
    requires |rounds| == 3 * s.N() + 2 && FullRounds(rounds, s.N())
    ensures j < s.N() && j in Rivals(s, w)
    ensures var s' := AfterRounds(s, rounds); s'.pc[j].Done? || s'.pc[w].Done?
  {
    var i :| i in Rivals(s, w);
    j := LeastRival(s, w, s.N(), i);
    assert Smaller(s, j, w);
    assert rounds[0] in rounds;
    var s' := After(s, rounds[0]);
    RunInv(s, rounds[0]);
    LastingRun(s, rounds[0], w);
    RoundCloses(s, rounds[0], j);
    if s'.pc[w].Done? {
      DoneStays(s', rounds[1..], w);
    } else {
      forall m: nat | m < s.N() && m != j && Rival(s, w, m) ensures Less(s.number[j], j, s.number[m], m) {
      }
      LeastRivalIsFree(s, rounds[0], w, j);
      NoRivalsServed(s', rounds[1..], j);
    }
  }

  /** Without rivals, a slot whose doorway is over is served within 3n + 2 rounds. */
  lemma FreeSlotServed(s: State, rounds: seq<seq<Action>>, w: nat)
    requires Inv(s) && w < s.N() && HasTicket(s.pc[w]) && PastDoorway(s.pc[w])
    requires RivalsTicketed(s, w) && Rivals(s, w) == {}
    requires |rounds| >= 3 * s.N() + 2 && FullRounds(rounds, s.N())
    ensures AfterRounds(s, rounds).pc[w].Done?
  {
    assert rounds[0] in rounds;
    var s' := After(s, rounds[0]);
    RunInv(s, rounds[0]);
    RoundCloses(s, rounds[0], w);
    RivalsShrink(s, rounds[0], w);
    assert !s'.pc[w].Done? ==> forall j: nat | j < s.N() && Rival(s', w, j) :: j in Rivals(s', w);
    NoRivalsServed(s', rounds[1..], w);
  }

  lemma DoneIsNoRival(s: State, w: nat, j: nat)
    requires Shape(s) && w < s.N() && j < s.N() && s.pc[j].Done?
    ensures j !in Rivals(s, w)
  {
  }

  /** Rival after rival is served, then slot w. */
  lemma {:induction false} TicketServed(s: State, rounds: seq<seq<Action>>, w: nat, k: nat)
    requires Inv(s) && w < s.N() && FullRounds(rounds, s.N())
    requires s.pc[w].Done? ||
      (HasTicket(s.pc[w]) && PastDoorway(s.pc[w]) && RivalsTicketed(s, w) && |Rivals(s, w)| <= k)
    requires |rounds| >= Enough(s.N(), k)
    ensures AfterRounds(s, rounds).pc[w].Done?
    decreases k
  {
    hide SlotInv, PairInv, Next, Rivals, RivalsTicketed, AfterRounds;
    var t := 3 * s.N() + 2;
    assert Enough(s.N(), k) == t + (if k == 0 then 0 else Enough(s.N(), k - 1));
    if s.pc[w].Done? {
      DoneStays(s, rounds, w);
    } else if Rivals(s, w) == {} {
      FreeSlotServed(s, rounds, w);
    } else {
      SplitRounds(s, rounds, t);
      var front := rounds[..t];
      var j := LeastRivalServed(s, front, w);
      RoundsAreSchedule(s, front);
      RivalsShrink(s, Flatten(front), w);
      LastingRun(s, Flatten(front), w);
      var s' := AfterRounds(s, front);
      if !s'.pc[w].Done? {
        DoneIsNoRival(s', w, j);
        assert Rivals(s', w) <= Rivals(s, w) - {j};
        SubsetSize(Rivals(s', w), Rivals(s, w) - {j});
      }
      TicketServed(s', rounds[t..], w, k - 1);
    }
  }

  /** Lockout freedom: whatever happened before and whoever arrives meanwhile, a slot that was issued is
      served by every schedule with that many full rounds. */
  lemma EveryIssuedSlotIsServed(n: nat, past: seq<Action>, rounds: seq<seq<Action>>, w: nat)
    requires w < n && !After(Init(n), past).pc[w].Unissued?
    requires FullRounds(rounds, n) && |rounds| >= Enough(n, n) + 2
    ensures After(After(Init(n), past), Flatten(rounds)).pc[w].Done?
  {
    InitInv(n);
    RunInv(Init(n), past);
    var s := After(Init(n), past);
    assert rounds[0] in rounds && rounds[1] in rounds;
    var s1 := After(s, rounds[0]);
    var s2 := After(s1, rounds[1]);
    RunInv(s, rounds[0]);
    RunInv(s1, rounds[1]);
    RoundCloses(s, rounds[0], w);
    LastingRun(s1, rounds[1], w);
    if HasTicket(s1.pc[w]) {
      RoundTickets(s1, rounds[1], w);
    }
    SubsetSize(Rivals(s2, w), Below(n));
    TicketServed(s2, rounds[1..][1..], w, n);
    RoundsAreSchedule(s, rounds);
    assert AfterRounds(s, rounds) == AfterRounds(s1, rounds[1..]) == AfterRounds(s2, rounds[1..][1..]);
  }

  /** There are such rounds. */
  lemma FullRoundExists(n: nat) returns (acts: seq<Action>)
    ensures FullRound(acts, n)
  {
    var calls := seq(n, x requires 0 <= x < n => Wait(x));
    var steps := Round(n, 2 * n + 5);
    acts := calls + steps;
    forall x: nat | x < n ensures Wait(x) in acts && Count(acts, x) >= 2 * n + 5 {
      assert calls[x] == Wait(x) && acts[x] == calls[x];
      CountConcat(calls, steps, x);
      RoundCount(n, 2 * n + 5, x);
    }
  }
}
