/** Progress of the threaded server: the least started ticket is never blocked, fair schedules serve
    everybody whose elders were started, and a join hangs exactly when an elder has no thread. */
module BakeryProgress {
  import opened Letters
  import opened BakeryMachine
  import opened BakeryInvariant
  import opened BakeryOrder
  import opened BakerySerial

  /** Steps of threads and returning joins: no request is handled meanwhile. */
  predicate Quiet(acts: seq<Action>) {
    forall a | a in acts :: a.Run? || a.JoinReturn?
  }

  ghost predicate NoDoorway(s: State)
    requires Shape(s)
  {
    forall i: nat | i < s.N() :: !Doorway(s.pc[i])
  }

  /** Slot w is started and holds the least set ticket. */
  ghost predicate Least(s: State, w: nat)
    requires Shape(s)
  {
    && w < s.N() && Started(s.pc[w])
    && forall m: nat | m < s.N() && m != w && HasTicket(s.pc[m]) :: Less(s.number[w], w, s.number[m], m)
  }

  /** How many of its own steps the least slot still needs. */
  function Rank(s: State, w: nat): nat
    requires Shape(s) && w < s.N()
  {
    var n := s.N();
    match s.pc[w]
    case CheckChoosing(j) => 4 * (n - j) + 5
    case CheckZero(j) => 4 * (n - j) + (if s.number[j] != 0 then 4 else 2)
    case CheckLess(j) => 4 * (n - j) + 3
    case CheckEqual(j) => 4 * (n - j) + 2
    case Take => 5
    case Bump(_) => 4
    case TestZ => 3
    case Wrap => 2
    case Clear => 1
    case Done => 0
    case _ => 4 * n + 6
  }

  function Count(acts: seq<Action>, x: nat): nat {
    if acts == [] then 0 else (if acts[0] == Run(x) then 1 else 0) + Count(acts[1..], x)
  }

  lemma {:induction false} CountConcat(xs: seq<Action>, ys: seq<Action>, x: nat)
    ensures Count(xs + ys, x) == Count(xs, x) + Count(ys, x)
  {
    if xs == [] {
      assert xs + ys == ys;
    } else {
      assert (xs + ys)[1..] == xs[1..] + ys;
      CountConcat(xs[1..], ys, x);
    }
  }

  // ----- doorways wait for nobody

  /** How many of its own steps a doorway still needs. */
  function DoorwayRank(p: Control, n: nat): nat
    requires InRange(p, n)
  {
    match p
    case Raise => 2 * n + 5
    case Test(k, _) => 2 * (n - k) + 4
    case Reread(k, _) => 2 * (n - k) + 3
    case WriteTicket(_) => 4
    case Answer => 3
    case Lower => 2
    case Reply => 1
    case _ => 0
  }

  lemma DoorwayStep(s: State, a: Action, i: nat)
    requires Shape(s) && i < s.N() && SlotInv(s, i) && !s.pc[i].Unissued?
    ensures var r, r' := DoorwayRank(s.pc[i], s.N()), DoorwayRank(Next(s, a).pc[i], s.N());
      && !Next(s, a).pc[i].Unissued?
      && (a == Run(i) && r > 0 ==> r' < r) && (a != Run(i) || r == 0 ==> r' == r)
  {
    if a.Run? && a.i != i {
      ElsewhereSame(s, a, i);
    }
  }

  /** A doorway that gets 2n + 5 steps of its own returns, whatever all the others do. */
  lemma {:induction false} DoorwayFinishes(s: State, i: nat, acts: seq<Action>)
    requires Inv(s) && i < s.N() && !s.pc[i].Unissued?
    requires Count(acts, i) >= DoorwayRank(s.pc[i], s.N())
    ensures !Doorway(After(s, acts).pc[i])
    decreases acts
  {
    if acts != [] {
      assert SlotInv(s, i);
      DoorwayStep(s, acts[0], i);
      StepInv(s, acts[0]);
      DoorwayFinishes(Next(s, acts[0]), i, acts[1..]);
    }
  }

  // ----- one step without doorways

  /** What a step leaves of slot m when no doorway is open. */
  ghost predicate Onward(s: State, s': State, m: nat)
    requires Shape(s) && Shape(s') && s.N() == s'.N() && m < s.N()
  {
    && !Doorway(s'.pc[m])
    && (HasTicket(s'.pc[m]) ==> HasTicket(s.pc[m]) && s'.number[m] == s.number[m])
    && (Started(s.pc[m]) ==> Started(s'.pc[m]) || s'.pc[m].Done?)
    && (s.pc[m].Done? ==> s'.pc[m].Done?)
    && (s.pc[m].Issued? ==> s'.pc[m].Issued?)
    && (s.number[m] == 0 ==> s'.number[m] == 0)
  }

  lemma OnwardStep(s: State, a: Action, m: nat)
    requires Shape(s) && m < s.N() && SlotInv(s, m) && !Doorway(s.pc[m]) && Quiet([a])
    ensures Onward(s, Next(s, a), m)
  {
    assert a in [a];
    if a.Run? && a.i != m {
      ElsewhereSame(s, a, m);
    }
  }

  /** Its own step brings the least slot closer to the end: it is never blocked. */
  lemma LeastOwnStep(s: State, w: nat)
    requires Inv(s) && NoDoorway(s) && Least(s, w)
    ensures Rank(Next(s, Run(w)), w) < Rank(s, w)
  {
    if Checking(s.pc[w]) {
      var j := s.pc[w].j;
      assert SlotInv(s, j) && SlotInv(s, w);
      LeastCheck(s, w);
    }
  }

  lemma LeastCheck(s: State, w: nat)
    requires Shape(s) && w < s.N() && Checking(s.pc[w])
    requires !s.choosing[s.pc[w].j] && s.number[w] != 0
    requires s.number[s.pc[w].j] != 0 && s.pc[w].j != w ==> Less(s.number[w], w, s.number[s.pc[w].j], s.pc[w].j)
    ensures Rank(Next(s, Run(w)), w) < Rank(s, w)
  {
  }

  /** The steps of others do not set it back. */
  lemma LeastOtherStep(s: State, a: Action, w: nat)
    requires Inv(s) && NoDoorway(s) && w < s.N() && (Least(s, w) || s.pc[w].Done?) && a != Run(w) && Quiet([a])
    ensures Rank(Next(s, a), w) <= Rank(s, w)
  {
    assert a in [a];
    ElsewhereSame(s, a, w);
    if s.pc[w].CheckZero? {
      assert SlotInv(s, s.pc[w].j);
      OnwardStep(s, a, s.pc[w].j);
    }
  }

  lemma LeastStays(s: State, s': State, w: nat)
    requires Shape(s) && Shape(s') && s.N() == s'.N() && w < s.N() && (Least(s, w) || s.pc[w].Done?)
    requires forall m: nat | m < s.N() :: Onward(s, s', m)
    ensures NoDoorway(s') && (Least(s', w) || s'.pc[w].Done?)
  {
    forall m: nat | m < s.N()
      ensures !Doorway(s'.pc[m])
      ensures HasTicket(s'.pc[m]) ==> HasTicket(s.pc[m]) && s'.number[m] == s.number[m]
    {
      assert Onward(s, s', m);
    }
    assert Onward(s, s', w);
  }

  lemma LeastStep(s: State, a: Action, w: nat)
    requires Inv(s) && NoDoorway(s) && w < s.N() && (Least(s, w) || s.pc[w].Done?) && Quiet([a])
    ensures var s' := Next(s, a);
      && Inv(s') && NoDoorway(s') && (Least(s', w) || s'.pc[w].Done?)
      && Rank(s', w) + (if a == Run(w) && Rank(s, w) > 0 then 1 else 0) <= Rank(s, w)
  {
    StepInv(s, a);
    forall m: nat | m < s.N() ensures Onward(s, Next(s, a), m) {
      assert SlotInv(s, m);
      OnwardStep(s, a, m);
    }
    LeastStays(s, Next(s, a), w);
    if a != Run(w) {
      LeastOtherStep(s, a, w);
    } else if Least(s, w) {
      LeastOwnStep(s, w);
    } else {
      assert Next(s, a) == s;
    }
  }

  lemma RankBound(s: State, w: nat)
    requires Inv(s) && w < s.N() && (Least(s, w) || s.pc[w].Done?)
    ensures Rank(s, w) <= 4 * s.N() + 5 && (Rank(s, w) == 0 ==> s.pc[w].Done?)
  {
  }

  /** Whatever the other threads do, the least started ticket is served after at most `Rank` steps of its
      own thread; with n slots this is never more than 4n + 5. */
  lemma {:induction false} LeastFinishes(s: State, w: nat, acts: seq<Action>)
    requires Inv(s) && NoDoorway(s) && w < s.N() && (Least(s, w) || s.pc[w].Done?) && Quiet(acts)
    requires Count(acts, w) >= Rank(s, w)
    ensures After(s, acts).pc[w].Done? && Rank(s, w) <= 4 * s.N() + 5
    decreases acts
  {
    hide SlotInv, PairInv, Next;
    RankBound(s, w);
    if acts != [] {
      assert acts[0] in acts;
      assert Quiet([acts[0]]);
      LeastStep(s, acts[0], w);
      LeastFinishes(Next(s, acts[0]), w, acts[1..]);
    }
  }

  // ----- fair schedules

  lemma {:induction false} OnwardRun(s: State, acts: seq<Action>, m: nat)
    requires Inv(s) && m < s.N() && !Doorway(s.pc[m]) && Quiet(acts)
    ensures Onward(s, After(s, acts), m)
    decreases acts
  {
    if acts != [] {
      assert acts[0] in acts;
      assert SlotInv(s, m);
      OnwardStep(s, acts[0], m);
      StepInv(s, acts[0]);
      OnwardRun(Next(s, acts[0]), acts[1..], m);
    }
  }

  /** A round in which every thread gets at least 4n + 5 steps, in any order. */
  ghost predicate FairRound(acts: seq<Action>, n: nat) {
    Quiet(acts) && forall x: nat | x < n :: Count(acts, x) >= 4 * n + 5
  }

  function Flatten(rounds: seq<seq<Action>>): seq<Action> {
    if rounds == [] then [] else rounds[0] + Flatten(rounds[1..])
  }

  /** The unserved slots whose ticket is not larger than that of slot i. */
  ghost function Elders(s: State, i: nat): set<nat>
    requires Shape(s) && i < s.N()
  {
    set m: nat | m < s.N() && HasTicket(s.pc[m]) && (m == i || Less(s.number[m], m, s.number[i], i))
  }

  ghost predicate EldersStarted(s: State, i: nat)
    requires Shape(s) && i < s.N()
  {
    s.pc[i].Done? || (HasTicket(s.pc[i]) && forall m | m in Elders(s, i) :: Started(s.pc[m]))
  }

  /** Some slot among the first k holds the least ticket of them. */
  lemma {:induction false} LeastTicket(s: State, k: nat, i: nat) returns (w: nat)
    requires Shape(s) && i < k <= s.N() && HasTicket(s.pc[i])
    ensures w < k && HasTicket(s.pc[w])
    ensures forall m: nat | m < k && m != w && HasTicket(s.pc[m]) :: Less(s.number[w], w, s.number[m], m)
    decreases k
  {
    if exists m: nat :: m < k - 1 && HasTicket(s.pc[m]) {
      var m: nat :| m < k - 1 && HasTicket(s.pc[m]);
      w := LeastTicket(s, k - 1, m);
      if HasTicket(s.pc[k - 1]) && Less(s.number[k - 1], k - 1, s.number[w], w) {
        w := k - 1;
      }
    } else {
      w := i;
    }
  }

  /** No step of a thread adds an elder. */
  lemma EldersShrink(s: State, s': State, i: nat)
    requires Shape(s) && Shape(s') && s.N() == s'.N() && i < s.N() && EldersStarted(s, i)
    requires forall m: nat | m < s.N() :: Onward(s, s', m)
    ensures NoDoorway(s') && EldersStarted(s', i)
    ensures !s'.pc[i].Done? ==> Elders(s', i) <= Elders(s, i)
  {
    forall m: nat | m < s.N()
      ensures !Doorway(s'.pc[m])
      ensures HasTicket(s'.pc[m]) ==> HasTicket(s.pc[m]) && s'.number[m] == s.number[m]
      ensures Started(s.pc[m]) ==> Started(s'.pc[m]) || s'.pc[m].Done?
    {
      assert Onward(s, s', m);
    }
    assert Onward(s, s', i);
    if !s'.pc[i].Done? {
      assert i in Elders(s, i);
      forall m | m in Elders(s', i) ensures m in Elders(s, i) && Started(s'.pc[m]) {
        assert HasTicket(s'.pc[m]);
      }
    }
  }

  /** One fair round serves the least of the elders. */
  lemma RoundServesOne(s: State, i: nat, round: seq<Action>)
    requires Inv(s) && NoDoorway(s) && i < s.N() && EldersStarted(s, i) && FairRound(round, s.N())
    requires HasTicket(s.pc[i])
    ensures var s' := After(s, round);
      && Inv(s') && NoDoorway(s') && EldersStarted(s', i)
      && (s'.pc[i].Done? || |Elders(s', i)| < |Elders(s, i)|)
  {
    hide SlotInv, PairInv, Next, After, Onward, Elders, NoDoorway;
    var s' := After(s, round);
    RunInv(s, round);
    forall m: nat | m < s.N() ensures Onward(s, s', m) {
      OnwardStays(s, round, m);
    }
    EldersShrink(s, s', i);
    var w := LeastTicket(s, s.N(), i);
    LeastElder(s, w, i);
    LeastFinishes(s, w, round);
    if !s'.pc[i].Done? {
      DoneIsNoElder(s', w, i);
      assert Elders(s', i) <= Elders(s, i) - {w};
      SubsetSize(Elders(s', i), Elders(s, i) - {w});
    }
  }

  lemma OnwardStays(s: State, acts: seq<Action>, m: nat)
    requires Inv(s) && NoDoorway(s) && m < s.N() && Quiet(acts)
    ensures Onward(s, After(s, acts), m)
  {
    OnwardRun(s, acts, m);
  }

  lemma LeastElder(s: State, w: nat, i: nat)
    requires Shape(s) && w < s.N() && i < s.N() && HasTicket(s.pc[w]) && HasTicket(s.pc[i]) && EldersStarted(s, i)
    requires forall m: nat | m < s.N() && m != w && HasTicket(s.pc[m]) :: Less(s.number[w], w, s.number[m], m)
    ensures w in Elders(s, i) && Least(s, w)
  {
    assert w in Elders(s, i);
  }

  lemma DoneIsNoElder(s: State, w: nat, i: nat)
    requires Shape(s) && w < s.N() && i < s.N() && s.pc[w].Done?
    ensures w !in Elders(s, i)
  {
  }

  /** Every schedule with as many fair rounds as slot i has elders serves slot i. */
  lemma {:induction false} FairRoundsServe(s: State, i: nat, rounds: seq<seq<Action>>)
    requires Inv(s) && NoDoorway(s) && i < s.N() && EldersStarted(s, i)
    requires forall r | r in rounds :: FairRound(r, s.N())
    requires |rounds| >= |Elders(s, i)| || s.pc[i].Done?
    ensures After(s, Flatten(rounds)).pc[i].Done?
    decreases rounds
  {
    if s.pc[i].Done? {
      FlattenQuiet(rounds);
      OnwardRun(s, Flatten(rounds), i);
    } else {
      assert i in Elders(s, i);
      if rounds != [] {
        assert rounds[0] in rounds;
        RoundServesOne(s, i, rounds[0]);
        FairRoundsServe(After(s, rounds[0]), i, rounds[1..]);
        AfterConcat(s, rounds[0], Flatten(rounds[1..]));
      }
    }
  }

  // ----- the join inside the dispatcher

  /** Slot k was issued and never started. */
  ghost predicate UnstartedBelow(s: State, i: nat)
    requires Shape(s) && i < s.N()
  {
    exists k: nat :: k < i && s.pc[k].Issued?
  }

  lemma HangsStep(s: State, a: Action, k: nat, i: nat)
    requires SerialInv(s) && k < i < s.N() && s.pc[k].Issued? && s.join[i].Waiting?
    ensures var s' := SerialNext(s, a); s'.pc[k].Issued? && s'.join[i].Waiting?
  {
    assert LowerFirstInv(s, k, i) && SlotInv(s, k);
    assert !DispatcherFree(s);
    if a.Run? && a.i != k {
      ElsewhereSame(s, a, k);
    }
  }

  lemma {:induction false} HangsForever(s: State, acts: seq<Action>, k: nat, i: nat)
    requires SerialInv(s) && k < i < s.N() && s.pc[k].Issued? && s.join[i].Waiting?
    ensures var s' := SerialAfter(s, acts); !s'.pc[i].Done? && s'.join[i].Waiting?
    decreases acts
  {
    if acts == [] {
      assert LowerFirstInv(s, k, i);
    } else {
      HangsStep(s, acts[0], k, i);
      SerialStep(s, acts[0]);
      HangsForever(SerialNext(s, acts[0]), acts[1..], k, i);
    }
  }

  /** While a join waits, the elders of slot i are among the slots up to i. */
  lemma EldersOfWaiting(s: State, i: nat)
    requires SerialInv(s) && i < s.N() && s.join[i].Waiting? && !UnstartedBelow(s, i)
    ensures NoDoorway(s) && EldersStarted(s, i)
    ensures HasTicket(s.pc[i]) ==> |Elders(s, i)| <= i + 1
  {
    assert JoinInv(s, i) && DispatcherInv(s, i);
    if HasTicket(s.pc[i]) {
      forall m | m in Elders(s, i) ensures m in Below(i + 1) && Started(s.pc[m]) {
        if i < m {
          NumbersIncrease(s, i, m);
        }
      }
      SubsetSize(Elders(s, i), Below(i + 1));
    }
  }

  lemma {:induction false} QuietIsSerial(s: State, acts: seq<Action>)
    requires Shape(s) && Quiet(acts)
    ensures SerialAfter(s, acts) == After(s, acts)
    decreases acts
  {
    if acts != [] {
      assert acts[0] in acts;
      QuietIsSerial(Next(s, acts[0]), acts[1..]);
    }
  }

  lemma {:induction false} FlattenQuiet(rounds: seq<seq<Action>>)
    requires forall r | r in rounds :: Quiet(r)
    ensures Quiet(Flatten(rounds))
  {
    if rounds != [] {
      assert rounds[0] in rounds;
      FlattenQuiet(rounds[1..]);
    }
  }

  lemma {:induction false} JoinLasts(s: State, acts: seq<Action>, i: nat)
    requires Shape(s) && i < s.N() && !s.join[i].NotCalled?
    ensures !SerialAfter(s, acts).join[i].NotCalled?
    decreases acts
  {
    if acts != [] {
      JoinLasts(SerialNext(s, acts[0]), acts[1..], i);
    }
  }

  /** A join on slot i whose lower slots were all started returns after any i + 1 fair rounds, and its client
      is sent the letter of slot i. */
  lemma JoinCompletes(s: State, i: nat, rounds: seq<seq<Action>>)
    requires SerialInv(s) && i < s.N() && s.join[i].Waiting? && !UnstartedBelow(s, i)
    requires |rounds| >= i + 1 && forall r | r in rounds :: FairRound(r, s.N())
    ensures SerialAfter(s, Flatten(rounds) + [JoinReturn(i)]).join[i] == Answered(Letter(i))
  {
    var acts := Flatten(rounds);
    EldersOfWaiting(s, i);
    FairRoundsServe(s, i, rounds);
    FlattenQuiet(rounds);
    QuietIsSerial(s, acts);
    JoinReturns(s, acts, i);
  }

  /** Once the thread has ended, the join returns its letter. */
  lemma JoinReturns(s: State, acts: seq<Action>, i: nat)
    requires SerialInv(s) && i < s.N() && s.join[i].Waiting? && SerialAfter(s, acts).pc[i].Done?
    ensures SerialAfter(s, acts + [JoinReturn(i)]).join[i] == Answered(Letter(i))
  {
    var s' := SerialAfter(s, acts);
    SerialRun(s, acts);
    JoinLasts(s, acts, i);
    AnswerIsLetter(s', i);
    SerialAfterConcat(s, acts, [JoinReturn(i)]);
    SerialAfterOne(s', JoinReturn(i));
  }

  function Repeat(x: nat, t: nat): (acts: seq<Action>)
    ensures Quiet(acts)
  {
    if t == 0 then [] else [Run(x)] + Repeat(x, t - 1)
  }

  lemma {:induction false} RepeatCount(x: nat, t: nat)
    ensures Count(Repeat(x, t), x) == t
  {
    if t != 0 {
      RepeatCount(x, t - 1);
      assert Repeat(x, t)[1..] == Repeat(x, t - 1);
    }
  }

  /** Each of the first k slots runs t times, one after the other. */
  function Round(k: nat, t: nat): (acts: seq<Action>)
    ensures Quiet(acts)
  {
    if k == 0 then [] else Round(k - 1, t) + Repeat(k - 1, t)
  }

  lemma {:induction false} RoundCount(k: nat, t: nat, x: nat)
    requires x < k
    ensures Count(Round(k, t), x) >= t
  {
    CountConcat(Round(k - 1, t), Repeat(k - 1, t), x);
    if x == k - 1 {
      RepeatCount(x, t);
    } else {
      RoundCount(k - 1, t, x);
    }
  }

  /** Some schedule completes a join whose lower slots were all started. */
  lemma CompletingSchedule(s: State, i: nat) returns (acts: seq<Action>)
    requires SerialInv(s) && i < s.N() && s.join[i].Waiting? && !UnstartedBelow(s, i)
    ensures SerialAfter(s, acts).join[i] == Answered(Letter(i))
  {
    var t := 4 * s.N() + 5;
    var round := Round(s.N(), t);
    forall x: nat | x < s.N() ensures Count(round, x) >= t {
      RoundCount(s.N(), t, x);
    }
    var rounds := seq(i + 1, _ => round);
    JoinCompletes(s, i, rounds);
    acts := Flatten(rounds) + [JoinReturn(i)];
  }

  /** A waiting join is never answered, under any schedule, exactly when a lower slot was issued and not
      started. */
  lemma JoinHangsExactly(n: nat, past: seq<Action>, i: nat)
    requires i < n && SerialAfter(Init(n), past).join[i].Waiting?
    ensures
      var s := SerialAfter(Init(n), past);
      (forall acts :: !SerialAfter(s, acts).join[i].Answered?) <==> UnstartedBelow(s, i)
  {
    InitSerial(n);
    SerialRun(Init(n), past);
    var s := SerialAfter(Init(n), past);
    if UnstartedBelow(s, i) {
      var k: nat :| k < i && s.pc[k].Issued?;
      forall acts ensures !SerialAfter(s, acts).join[i].Answered? {
        HangsForever(s, acts, k, i);
      }
    } else {
      var acts := CompletingSchedule(s, i);
    }
  }

  // ----- the hang can happen

  /** The first m slots were issued, none was started, and the dispatcher is free. */
  ghost predicate OnlyIssued(s: State, m: nat)
    requires Shape(s)
  {
    && s.num == m && m <= s.N()
    && forall x: nat | x < s.N() :: s.join[x].NotCalled? && s.pc[x] == if x < m then Issued else Unissued
  }

  /** A handler alone at work ends with its slot issued and touches no other. */
  lemma {:induction false} DoorwayAlone(s: State, i: nat, t: nat)
    requires Inv(s) && i < s.N() && (Doorway(s.pc[i]) || s.pc[i].Issued?)
    ensures var s' := After(s, Repeat(i, t));
      && (Doorway(s'.pc[i]) || s'.pc[i].Issued?) && s'.num == s.num && s'.join == s.join
      && forall x: nat | x < s.N() && x != i :: s'.pc[x] == s.pc[x]
    decreases t
  {
    if t != 0 {
      assert SlotInv(s, i);
      assert Repeat(i, t)[0] == Run(i) && Repeat(i, t)[1..] == Repeat(i, t - 1);
      HandlerStep(s, i);
      StepInv(s, Run(i));
      DoorwayAlone(Next(s, Run(i)), i, t - 1);
    }
  }

  lemma HandlerStep(s: State, i: nat)
    requires Shape(s) && i < s.N() && (Doorway(s.pc[i]) || s.pc[i].Issued?)
    ensures var s' := Next(s, Run(i));
      && (Doorway(s'.pc[i]) || s'.pc[i].Issued?) && s'.num == s.num && s'.join == s.join
      && forall x: nat | x < s.N() && x != i :: s'.pc[x] == s.pc[x]
  {
  }

  /** The dispatcher accepts the request: the next doorway opens. */
  lemma IssueBegins(s: State, m: nat)
    requires Shape(s) && m < s.N() && OnlyIssued(s, m)
    ensures var s' := SerialNext(s, GetNumber);
      && Doorway(s'.pc[m]) && s'.num == m + 1 && s'.join == s.join
      && forall x: nat | x < s.N() && x != m :: s'.pc[x] == s.pc[x]
  {
    assert DispatcherFree(s);
  }

  /** One more slot is handed out. */
  lemma IssueOne(s: State, m: nat)
    requires SerialInv(s) && m < s.N() && OnlyIssued(s, m)
    ensures OnlyIssued(SerialAfter(s, [GetNumber] + Repeat(m, 2 * s.N() + 5)), m + 1)
  {
    hide SerialInv, LetterInv, PairInv, SlotInv, SerialNext, Next, After, SerialAfter, Allowed;
    var steps := Repeat(m, 2 * s.N() + 5);
    SerialIsInv(s);
    SerialAfterConcat(s, [GetNumber], steps);
    SerialAfterOne(s, GetNumber);
    var s' := SerialNext(s, GetNumber);
    IssueBegins(s, m);
    SerialStep(s, GetNumber);
    SerialIsInv(s');
    QuietIsSerial(s', steps);
    DoorwayAlone(s', m, 2 * s.N() + 5);
    RepeatCount(m, 2 * s.N() + 5);
    DoorwayFinishes(s', m, steps);
  }

  lemma SerialIsInv(s: State)
    requires SerialInv(s)
    ensures Inv(s)
  {
  }

  lemma InitOnlyIssued(n: nat)
    ensures OnlyIssued(SerialAfter(Init(n), []), 0)
  {
  }

  /** Handing out m slots, one request after the other. */
  lemma {:induction false} IssueSlots(n: nat, m: nat) returns (acts: seq<Action>)
    requires m <= n
    ensures OnlyIssued(SerialAfter(Init(n), acts), m)
  {
    hide SerialInv, OnlyIssued, SerialNext, Next;
    if m == 0 {
      acts := [];
      InitOnlyIssued(n);
    } else {
      var front := IssueSlots(n, m - 1);
      var s := SerialAfter(Init(n), front);
      InitSerial(n);
      SerialRun(Init(n), front);
      IssueOne(s, m - 1);
      var one := [GetNumber] + Repeat(m - 1, 2 * n + 5);
      SerialAfterConcat(Init(n), front, one);
      acts := front + one;
    }
  }

  /** The last client asks for its thread and for its letter while the others have not asked for theirs. */
  lemma LastAsks(s: State, i: nat)
    requires Shape(s) && 0 < i < s.N() && OnlyIssued(s, i + 1)
    ensures var s' := SerialAfter(s, [Wait(i)] + [JoinCall(i)]); s'.join[i].Waiting? && UnstartedBelow(s', i)
  {
    hide OnlyIssued, SerialNext;
    SerialAfterConcat(s, [Wait(i)], [JoinCall(i)]);
    SerialAfterOne(s, Wait(i));
    AsksForThread(s, i);
    SerialAfterOne(SerialNext(s, Wait(i)), JoinCall(i));
  }

  lemma AsksForThread(s: State, i: nat)
    requires Shape(s) && 0 < i < s.N() && OnlyIssued(s, i + 1)
    ensures var s' := SerialNext(SerialNext(s, Wait(i)), JoinCall(i)); s'.join[i].Waiting? && UnstartedBelow(s', i)
  {
    hide Access;
    assert DispatcherFree(s);
    var s1 := SerialNext(s, Wait(i));
    assert s1.pc[i] == CheckChoosing(0) && s1.pc[0].Issued? && s1.join == s.join;
    assert DispatcherFree(s1);
    assert SerialNext(s1, JoinCall(i)).pc[0].Issued?;
  }

  /** With two slots or more the hang happens: a client that is the first to ask for its thread and then for
      its letter waits in the join while the slots below it were never started. */
  lemma HangIsReachable(n: nat, i: nat) returns (past: seq<Action>)
    requires 0 < i < n
    ensures var s := SerialAfter(Init(n), past); s.join[i].Waiting? && UnstartedBelow(s, i)
    ensures forall acts :: !SerialAfter(SerialAfter(Init(n), past), acts).join[i].Answered?
  {
    hide SerialInv, OnlyIssued, UnstartedBelow;
    var front := IssueSlots(n, i + 1);
    LastAsks(SerialAfter(Init(n), front), i);
    past := front + ([Wait(i)] + [JoinCall(i)]);
    SerialAfterConcat(Init(n), front, [Wait(i)] + [JoinCall(i)]);
    JoinHangsExactly(n, past, i);
  }
}
