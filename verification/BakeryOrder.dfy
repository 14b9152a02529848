/** What mutual exclusion buys, still with overlapping doorways: first come first served, the bound on
    tickets, and letters without loss or repetition. */
module BakeryOrder {
  import opened Letters
  import opened BakeryMachine
  import opened BakeryInvariant

  // ----- first come, first served

  /** Slot k has its ticket before slot i raises `choosing`, and what remains of that afterwards. */
  ghost predicate Earlier(s: State, k: nat, i: nat)
    requires Shape(s) && k < s.N() && i < s.N()
  {
    || s.pc[k].Done?
    || k in s.before[i]
    || (HasTicket(s.pc[k]) && (s.pc[i].Unissued? || s.pc[i].Raise?))
  }

  lemma EarlierStep(s: State, a: Action, k: nat, i: nat)
    requires Inv(s) && k < s.N() && i < s.N() && k != i && Earlier(s, k, i)
    ensures Earlier(Next(s, a), k, i)
  {
    hide Next, PairInv;
    assert SlotInv(s, i) && SlotInv(s, k);
    BeforeNoted(s, a, i);
    if k in s.before[i] {
      BeforeIsNoted(s, i, k);
    } else {
      TicketKept(s, a, k);
    }
  }

  lemma BeforeIsNoted(s: State, i: nat, k: nat)
    requires Inv(s) && i < s.N() && k in s.before[i]
    ensures k < s.N() && !s.pc[i].Raise?
  {
    assert SlotInv(s, i);
    assert PairInv(s, i, k);
  }

  lemma {:induction false} EarlierRun(s: State, acts: seq<Action>, k: nat, i: nat)
    requires Inv(s) && k < s.N() && i < s.N() && k != i && Earlier(s, k, i)
    ensures Earlier(After(s, acts), k, i)
    decreases acts
  {
    if acts != [] {
      StepInv(s, acts[0]);
      EarlierStep(s, acts[0], k, i);
      EarlierRun(Next(s, acts[0]), acts[1..], k, i);
    }
  }

  /** A doorway that rises after slot k had its ticket writes a larger ticket than k's for as long as k is
      unserved, although a thread that leaves in mid-scan may reset the maximum to 0. */
  lemma LaterTicketIsLarger(n: nat, past: seq<Action>, future: seq<Action>, k: nat, i: nat)
    requires k < n && i < n && k != i
    requires var s := After(Init(n), past); HasTicket(s.pc[k]) && (s.pc[i].Unissued? || s.pc[i].Raise?)
    ensures
      var s' := After(After(Init(n), past), future);
      HasTicket(s'.pc[k]) && HasTicket(s'.pc[i]) ==> s'.number[k] < s'.number[i]
  {
    hide SlotInv, PairInv, After;
    InitInv(n);
    RunInv(Init(n), past);
    var s := After(Init(n), past);
    EarlierRun(s, future, k, i);
    RunInv(s, future);
    EarlierIsLess(After(s, future), k, i);
  }

  lemma EarlierIsLess(s: State, k: nat, i: nat)
    requires Inv(s) && k < s.N() && i < s.N() && Earlier(s, k, i)
    ensures HasTicket(s.pc[k]) && HasTicket(s.pc[i]) ==> s.number[k] < s.number[i]
  {
    assert PairInv(s, i, k);
  }

  /** If slot k has written its ticket before slot i raises `choosing`, then thread i is never in its
      critical section while k is unserved, under every schedule. Slot k need not even have lowered
      `choosing` by then. */
  lemma FirstComeFirstServed(n: nat, past: seq<Action>, future: seq<Action>, k: nat, i: nat)
    requires k < n && i < n && k != i
    requires var s := After(Init(n), past); HasTicket(s.pc[k]) && (s.pc[i].Unissued? || s.pc[i].Raise?)
    ensures var s' := After(After(Init(n), past), future); InCritical(s'.pc[i]) ==> s'.pc[k].Done?
  {
    InitInv(n);
    RunInv(Init(n), past);
    var s := After(Init(n), past);
    EarlierRun(s, future, k, i);
    RunInv(s, future);
    var s' := After(s, future);
    if InCritical(s'.pc[i]) && HasTicket(s'.pc[k]) {
      assert PairInv(s', i, k);
      CriticalIsLeast(s', i, k);
    }
    assert PairInv(s', i, k);
  }

  // ----- tickets never exceed the number of slots handed out

  ghost predicate Taken(s: State, v: nat)
    requires Shape(s)
  {
    exists m: nat :: m < s.N() && s.ticket[m] == v
  }

  ghost predicate TicketInv(s: State, i: nat)
    requires Shape(s) && i < s.N()
  {
    && (s.ticket[i] != 0 <==> HasTicket(s.pc[i]) || s.pc[i].Done?)
    && (HasTicket(s.pc[i]) ==> s.number[i] == s.ticket[i])
    && ((HasTicket(s.pc[i]) || s.pc[i].Done?) && !s.pc[i].Answer? ==> s.answer[i] == s.ticket[i])
    && (forall v: nat | 1 <= v <= s.ticket[i] :: Taken(s, v))
    && (Scanning(s.pc[i]) ==> forall v: nat | 1 <= v <= s.pc[i].max :: Taken(s, v))
  }

  ghost predicate TicketsInv(s: State) {
    Inv(s) && forall i: nat | i < s.N() :: TicketInv(s, i)
  }

  /** A ticket value once written stays taken. */
  lemma TakenStays(s: State, a: Action, v: nat)
    requires TicketsInv(s) && Taken(s, v) && v != 0
    ensures Taken(Next(s, a), v)
  {
    var m: nat :| m < s.N() && s.ticket[m] == v;
    assert TicketInv(s, m);
    assert Next(s, a).ticket[m] == v;
  }

  lemma TicketOwnStep(s: State, i: nat)
    requires Shape(s) && i < s.N() && SlotInv(s, i) && TicketInv(s, i)
    requires s.pc[i].Reread? ==> SlotInv(s, s.pc[i].k) && TicketInv(s, s.pc[i].k)
    requires forall v: nat | Taken(s, v) && v != 0 :: Taken(Next(s, Run(i)), v)
    ensures TicketInv(Next(s, Run(i)), i)
  {
    var s' := Next(s, Run(i));
    match s.pc[i]
    case WriteTicket(max) =>
      assert s'.ticket[i] == max + 1;
    case Reread(k, max) =>
      assert s.number[k] == 0 || s.number[k] == s.ticket[k];
    case _ =>
  }

  lemma TicketStep(s: State, a: Action, i: nat)
    requires TicketsInv(s) && i < s.N()
    ensures TicketInv(Next(s, a), i)
  {
    forall v: nat | Taken(s, v) && v != 0 ensures Taken(Next(s, a), v) {
      TakenStays(s, a, v);
    }
    assert SlotInv(s, i) && TicketInv(s, i);
    if a == Run(i) {
      assert s.pc[i].Reread? ==> SlotInv(s, s.pc[i].k) && TicketInv(s, s.pc[i].k);
      TicketOwnStep(s, i);
    } else if a.Run? {
      ElsewhereSame(s, a, i);
      assert Next(s, a).ticket[i] == s.ticket[i];
    }
  }

  lemma {:induction false} TicketRun(s: State, acts: seq<Action>)
    requires TicketsInv(s)
    ensures TicketsInv(After(s, acts))
    decreases acts
  {
    if acts != [] {
      var s' := Next(s, acts[0]);
      StepInv(s, acts[0]);
      forall i: nat | i < s'.N() ensures TicketInv(s', i) {
        TicketStep(s, acts[0], i);
      }
      TicketRun(s', acts[1..]);
    }
  }

  function Below(n: nat): (r: set<nat>)
    ensures |r| == n && forall m: nat :: m in r <==> m < n
  {
    if n == 0 then {} else Below(n - 1) + {n - 1}
  }

  ghost function Holders(s: State, t: nat): set<nat>
    requires Shape(s)
  {
    set m: nat | m < s.N() && 1 <= s.ticket[m] <= t
  }

  /** The values 1 .. t were written by t different slots. */
  lemma {:induction false} HoldersCount(s: State, t: nat)
    requires Shape(s) && forall v: nat | 1 <= v <= t :: Taken(s, v)
    ensures |Holders(s, t)| >= t
  {
    if t != 0 {
      HoldersCount(s, t - 1);
      assert Taken(s, t);
      var m: nat :| m < s.N() && s.ticket[m] == t;
      assert Holders(s, t - 1) + {m} <= Holders(s, t);
      SubsetSize(Holders(s, t - 1) + {m}, Holders(s, t));
    }
  }

  lemma {:induction false} SubsetSize(a: set<nat>, b: set<nat>)
    requires a <= b
    ensures |a| <= |b|
  {
    if a != {} {
      var x :| x in a;
      SubsetSize(a - {x}, b - {x});
    }
  }

  lemma TicketBound(s: State, i: nat)
    requires TicketsInv(s) && i < s.N()
    ensures s.ticket[i] <= s.num
  {
    var t := s.ticket[i];
    assert TicketInv(s, i);
    HoldersCount(s, t);
    forall m | m in Holders(s, t) ensures m in Below(s.num) {
      assert TicketInv(s, m) && SlotInv(s, m);
    }
    SubsetSize(Holders(s, t), Below(s.num));
  }

  /** Under every schedule no number exceeds the count of slots handed out, and the client of a finished
      doorway was told the number that its slot holds until it is served. */
  lemma NumbersStaySmall(n: nat, acts: seq<Action>, i: nat)
    requires i < n
    ensures var s := After(Init(n), acts);
      && s.number[i] <= s.num <= n
      && (s.pc[i].Issued? || Started(s.pc[i]) ==> s.answer[i] == s.number[i])
  {
    InitInv(n);
    TicketRun(Init(n), acts);
    var s := After(Init(n), acts);
    TicketBound(s, i);
    assert SlotInv(s, i) && TicketInv(s, i);
  }

  // ----- letters

  predicate Took(p: Control) {
    p.Bump? || p.TestZ? || p.Wrap? || p.Clear? || p.Done?
  }

  predicate Midway(p: Control) {
    p.Bump? || p.TestZ? || p.Wrap?
  }

  /** The k-th slot to take a letter holds the k-th letter, and nobody takes twice. */
  ghost predicate ServedInv(s: State)
    requires Shape(s)
  {
    && (forall k: nat | k < |s.served| ::
          s.served[k] < s.N() && Took(s.pc[s.served[k]]) && s.res[s.served[k]] == Letter(k))
    && (forall i: nat | i < s.N() && Took(s.pc[i]) :: i in s.served)
    && (forall j: nat, k: nat | j < k < |s.served| :: s.served[j] != s.served[k])
  }

  ghost predicate DispenserInv(s: State, i: nat)
    requires Shape(s) && i < s.N()
  {
    && (Midway(s.pc[i]) ==> |s.served| > 0)
    && (s.pc[i].Bump? ==> s.pc[i].letter == s.c == Letter(|s.served| - 1))
    && (s.pc[i].TestZ? ==> s.c == Letter(|s.served| - 1) + 1)
    && (s.pc[i].Wrap? ==> s.c == Letter(|s.served| - 1) + 1 == CODE_Z + 1)
  }

  ghost predicate JoinInv(s: State, i: nat)
    requires Shape(s) && i < s.N()
  {
    && (s.join[i].Waiting? ==> Started(s.pc[i]) || s.pc[i].Done?)
    && (s.join[i].Answered? ==> s.pc[i].Done? && s.join[i].letter == s.res[i])
  }

  ghost predicate LetterInv(s: State) {
    && Inv(s) && ServedInv(s)
    && (forall i: nat | i < s.N() :: DispenserInv(s, i) && JoinInv(s, i))
    && ((forall i: nat | i < s.N() :: !Midway(s.pc[i])) ==> s.c == Letter(|s.served|))
  }

  lemma InitLetters(n: nat)
    ensures LetterInv(Init(n))
  {
    InitInv(n);
  }

  /** Only the critical section touches the dispenser. */
  lemma DispenserUntouched(s: State, a: Action)
    requires Shape(s) && !(a.Run? && a.i < s.N() && InCritical(s.pc[a.i]))
    requires s.num < s.N() ==> s.pc[s.num].Unissued?
    ensures var s' := Next(s, a);
      s'.c == s.c && s'.served == s.served && s'.res == s.res
      && forall x: nat | x < s.N() && (Took(s.pc[x]) || Took(s'.pc[x])) :: s'.pc[x] == s.pc[x]
  {
    if a.Run? && a.i < s.N() && Doorway(s.pc[a.i]) {
      hide CheckAccess, CriticalAccess;
    } else {
      hide DoorwayAccess, CriticalAccess;
    }
  }

  lemma CriticalNext(s: State, i: nat)
    requires Shape(s) && i < s.N() && InCritical(s.pc[i])
    ensures Next(s, Run(i)) == CriticalAccess(s, i)
  {
  }

  lemma ServedOwnStep(s: State, i: nat)
    requires Shape(s) && i < s.N() && InCritical(s.pc[i]) && ServedInv(s)
    requires s.pc[i].Take? ==> s.c == Letter(|s.served|) && i !in s.served
    ensures ServedInv(Next(s, Run(i)))
  {
    hide Next, Access, DoorwayAccess, CheckAccess;
    CriticalNext(s, i);
    var s' := Next(s, Run(i));
    if s.pc[i].Take? {
      assert s'.served == s.served + [i];
      forall k: nat | k < |s'.served|
        ensures s'.served[k] < s.N() && Took(s'.pc[s'.served[k]]) && s'.res[s'.served[k]] == Letter(k)
      {
        assert k < |s.served| ==> s.served[k] in s.served;
      }
    } else {
      assert s'.served == s.served && s'.res == s.res;
      assert forall x: nat | x < s.N() :: Took(s'.pc[x]) <==> Took(s.pc[x]);
    }
  }

  lemma ServedStep(s: State, a: Action)
    requires LetterInv(s)
    ensures ServedInv(Next(s, a))
  {
    if a.Run? && a.i < s.N() && InCritical(s.pc[a.i]) {
      if s.pc[a.i].Take? {
        AloneAtTake(s, a.i);
      }
      ServedOwnStep(s, a.i);
    } else {
      assert s.num < s.N() ==> SlotInv(s, s.num);
      DispenserUntouched(s, a);
    }
  }

  /** A slot about to take a letter finds the dispenser at rest. */
  lemma AloneAtTake(s: State, i: nat)
    requires LetterInv(s) && i < s.N() && (s.pc[i].Take? || s.pc[i].Clear?)
    ensures s.c == Letter(|s.served|)
  {
    forall x: nat | x < s.N() ensures !Midway(s.pc[x]) {
      if x != i {
        MutualExclusion(s, x, i);
      }
    }
  }

  lemma DispenserOwnStep(s: State, i: nat)
    requires Shape(s) && i < s.N() && InCritical(s.pc[i]) && DispenserInv(s, i)
    requires s.pc[i].Take? ==> s.c == Letter(|s.served|)
    ensures DispenserInv(Next(s, Run(i)), i)
  {
  }

  lemma DispenserStep(s: State, a: Action, x: nat)
    requires LetterInv(s) && x < s.N()
    ensures DispenserInv(Next(s, a), x)
  {
    hide PairInv, DoorwayAccess, CheckAccess, CriticalAccess;
    assert DispenserInv(s, x);
    if a.Run? && a.i < s.N() && InCritical(s.pc[a.i]) {
      if a.i != x {
        MutualExclusion(s, a.i, x);
        ElsewhereSame(s, a, x);
      } else {
        if s.pc[x].Take? {
          AloneAtTake(s, x);
        }
        DispenserOwnStep(s, x);
      }
    } else {
      assert s.num < s.N() ==> SlotInv(s, s.num);
      DispenserUntouched(s, a);
    }
  }

  lemma LetterStep(s: State, a: Action)
    requires LetterInv(s)
    ensures LetterInv(Next(s, a))
  {
    var s' := Next(s, a);
    StepInv(s, a);
    ServedStep(s, a);
    forall x: nat | x < s'.N() ensures DispenserInv(s', x) && JoinInv(s', x) {
      DispenserStep(s, a, x);
      assert SlotInv(s, x) && JoinInv(s, x);
      JoinStep(s, a, x);
    }
    RestStep(s, a);
  }

  lemma JoinStep(s: State, a: Action, x: nat)
    requires Shape(s) && x < s.N() && JoinInv(s, x) && SlotInv(s, x)
    ensures JoinInv(Next(s, a), x)
  {
    if a.Run? && a.i != x {
      ElsewhereSame(s, a, x);
    }
  }

  /** When nobody is halfway, `c` holds the letter of the next customer. */
  lemma RestStep(s: State, a: Action)
    requires LetterInv(s)
    ensures var s' := Next(s, a); (forall i: nat | i < s.N() :: !Midway(s'.pc[i])) ==> s'.c == Letter(|s'.served|)
  {
    hide PairInv, ServedInv, JoinInv;
    var s' := Next(s, a);
    if a.Run? && a.i < s.N() && InCritical(s.pc[a.i]) {
      var i := a.i;
      assert DispenserInv(s, i);
      if Midway(s.pc[i]) && !Midway(s'.pc[i]) {
        NextLetterAdvances(|s.served| - 1);
      } else if s.pc[i].Clear? {
        AloneAtTake(s, i);
      } else {
        assert Midway(s'.pc[i]);
      }
    } else {
      assert s.num < s.N() ==> SlotInv(s, s.num);
      DispenserUntouched(s, a);
      if forall i: nat | i < s.N() :: !Midway(s'.pc[i]) {
        forall x: nat | x < s.N() ensures !Midway(s.pc[x]) {
          assert !Midway(s'.pc[x]);
        }
      }
    }
  }

  lemma {:induction false} LetterRun(s: State, acts: seq<Action>)
    requires LetterInv(s)
    ensures LetterInv(After(s, acts))
    decreases acts
  {
    if acts != [] {
      LetterStep(s, acts[0]);
      LetterRun(Next(s, acts[0]), acts[1..]);
    }
  }

  /** Under every schedule the k-th customer to be served is answered with the k-th letter, and no slot
      is served twice: no update of `c` is lost or repeated. */
  lemma LettersInOrder(n: nat, acts: seq<Action>, i: nat)
    requires i < n
    ensures
      var s := After(Init(n), acts);
      s.join[i].Answered? ==>
        exists k: nat :: k < |s.served| && s.served[k] == i && s.join[i].letter == Letter(k) == ALPHABET[k % 26] as int
          && forall k': nat | k' < |s.served| && s.served[k'] == i :: k' == k
  {
    InitLetters(n);
    LetterRun(Init(n), acts);
    var s := After(Init(n), acts);
    assert JoinInv(s, i);
    if s.join[i].Answered? {
      var k: nat :| k < |s.served| && s.served[k] == i;
      LettersAreAlphabet(k);
    }
  }
}
