/** The threaded bakery server (3/proc/bakery1/bakery_server.c) as a step machine: `GET_NUMBER` doorways,
    one service thread per slot and the final join, with one access to shared memory per step and any
    interleaving of the slots. */
module BakeryMachine {
  import opened Letters

  /** Where slot i is. The doorway runs in the request handler, the rest in the thread of slot i; the
      client calls them in this order, so one control point per slot is enough. */
  datatype Control =            // lines of 3/proc/bakery1/bakery_server.c
    | Unissued                    // no handler has taken this slot
    | Raise                       // 26: `num++` done, about to write choosing[i] = 1
    | Test(k: nat, max: nat)      // 28: about to test number[k] > max
    | Reread(k: nat, max: nat)    // 29: the test held, about to read number[k] again into max
    | WriteTicket(max: nat)       // 30: about to write number[i] = max + 1
    | Answer                      // 32: about to copy number[i] into the request
    | Lower                       // 33: about to write choosing[i] = 0
    | Reply                       // 35: about to copy number[i] into the reply
    | Issued                      // the doorway has returned, no thread yet
    | CheckChoosing(j: nat)       // 46: about to read choosing[j]
    | CheckZero(j: nat)           // 47: about to test number[j] != 0
    | CheckLess(j: nat)           // 47: about to test number[j] < number[i]
    | CheckEqual(j: nat)          // 47: about to test number[j] == number[i] && j < i
    | Take                        // 49: about to read c into res[i]
    | Bump(letter: int)           // 49: about to write c = letter + 1
    | TestZ                       // 50: about to test c > 'z'
    | Wrap                        // 51: about to write c = 'a'
    | Clear                       // 53: about to write number[i] = 0
    | Done

  /** The BAKERY_SERVICE call of a slot. */
  datatype Join = NotCalled | Waiting | Answered(letter: int)

  /** `before`, `ticket` and `served` are history: no step looks at them. `before[i]` is the set of slots
      whose ticket was set when slot i raised `choosing`, `ticket[i]` the ticket that slot i wrote (kept
      after it is cleared), `served` the slots in the order in which they took a letter. */
  datatype State = State(
    choosing: seq<bool>, number: seq<nat>, num: nat, c: int, res: seq<int>,
    answer: seq<nat>, pc: seq<Control>, join: seq<Join>,
    before: seq<set<nat>>, ticket: seq<nat>, served: seq<nat>)
  {
    function N(): nat { |pc| }
  }

  datatype Action =
    | GetNumber            // a handler starts: `ind = num++`
    | Run(i: nat)          // the handler or the thread of slot i performs its next access
    | Wait(i: nat)         // BAKERY_WAIT: start the thread of slot i
    | JoinCall(i: nat)     // BAKERY_SERVICE enters pthread_join
    | JoinReturn(i: nat)   // pthread_join returns and the letter is sent

  predicate Choosing(p: Control) {
    p.Test? || p.Reread? || p.WriteTicket? || p.Answer? || p.Lower?
  }

  predicate Doorway(p: Control) {
    p.Raise? || Choosing(p) || p.Reply?
  }

  predicate Scanning(p: Control) {
    p.Test? || p.Reread? || p.WriteTicket?
  }

  predicate InCritical(p: Control) {
    p.Take? || p.Bump? || p.TestZ? || p.Wrap? || p.Clear?
  }

  predicate Checking(p: Control) {
    p.CheckChoosing? || p.CheckZero? || p.CheckLess? || p.CheckEqual?
  }

  predicate Started(p: Control) {
    Checking(p) || InCritical(p)
  }

  /** The slot has written its ticket and has not cleared it. */
  predicate HasTicket(p: Control) {
    p.Answer? || p.Lower? || p.Reply? || p.Issued? || Started(p)
  }

  predicate InRange(p: Control, n: nat) {
    && (p.Test? || p.Reread? ==> p.k < n)
    && (Checking(p) ==> p.j < n)
  }

  ghost predicate Shape(s: State) {
    && |s.choosing| == |s.number| == |s.res| == |s.answer| == |s.join| == |s.before| == |s.ticket| == s.N()
    && s.num <= s.N()
    && forall i | 0 <= i < s.N() :: InRange(s.pc[i], s.N())
  }

  function Init(n: nat): (s: State) {
    State(
      seq(n, _ => false), seq(n, _ => 0), 0, CODE_A, seq(n, _ => 0), seq(n, _ => 0),
      seq(n, _ => Unissued), seq(n, _ => NotCalled), seq(n, _ => {}), seq(n, _ => 0), [])
  }

  /** The ticket order: by number, ties by slot. */
  predicate Less(a: nat, i: nat, b: nat, j: nat) {
    a < b || (a == b && i < j)
  }

  function Ticketed(number: seq<nat>): set<nat> {
    set m: nat | m < |number| && number[m] != 0
  }

  function ScanNext(n: nat, k: nat, max: nat): Control {
    if k + 1 < n then Test(k + 1, max) else WriteTicket(max)
  }

  function CheckNext(n: nat, j: nat): Control {
    if j + 1 < n then CheckChoosing(j + 1) else Take
  }

  /** The next access of the handler that holds slot i: `get_number_1_svc`. */
  function DoorwayAccess(s: State, i: nat): (s': State)
    requires Shape(s) && i < s.N() && Doorway(s.pc[i])
    ensures Shape(s') && s'.N() == s.N()
  {
    match s.pc[i]
    case Raise =>
      s.(choosing := s.choosing[i := true], before := s.before[i := Ticketed(s.number)], pc := s.pc[i := Test(0, 0)])
    case Test(k, max) =>
      s.(pc := s.pc[i := if s.number[k] > max then Reread(k, max) else ScanNext(s.N(), k, max)])
    case Reread(k, max) => s.(pc := s.pc[i := ScanNext(s.N(), k, s.number[k])])
    case WriteTicket(max) =>
      s.(number := s.number[i := max + 1], ticket := s.ticket[i := max + 1], pc := s.pc[i := Answer])
    case Answer => s.(answer := s.answer[i := s.number[i]], pc := s.pc[i := Lower])
    case Lower => s.(choosing := s.choosing[i := false], pc := s.pc[i := Reply])
    case Reply => s.(answer := s.answer[i := s.number[i]], pc := s.pc[i := Issued])
  }

  /** The next access of the waiting loop of slot i. */
  function CheckAccess(s: State, i: nat): (p: Control)
    requires Shape(s) && i < s.N() && Checking(s.pc[i])
    ensures InRange(p, s.N())
  {
    match s.pc[i]
    case CheckChoosing(j) => if s.choosing[j] then s.pc[i] else CheckZero(j)
    case CheckZero(j) => if s.number[j] != 0 then CheckLess(j) else CheckNext(s.N(), j)
    case CheckLess(j) => if s.number[j] < s.number[i] then CheckZero(j) else CheckEqual(j)
    case CheckEqual(j) => if s.number[j] == s.number[i] && j < i then CheckZero(j) else CheckNext(s.N(), j)
  }

  /** The next access of the critical section of slot i. */
  function CriticalAccess(s: State, i: nat): (s': State)
    requires Shape(s) && i < s.N() && InCritical(s.pc[i])
    ensures Shape(s') && s'.N() == s.N()
  {
    match s.pc[i]
    case Take => s.(res := s.res[i := s.c], served := s.served + [i], pc := s.pc[i := Bump(s.c)])
    case Bump(letter) => s.(c := letter + 1, pc := s.pc[i := TestZ])
    case TestZ => s.(pc := s.pc[i := if s.c > CODE_Z then Wrap else Clear])
    case Wrap => s.(c := CODE_A, pc := s.pc[i := Clear])
    case Clear => s.(number := s.number[i := 0], pc := s.pc[i := Done])
  }

  /** The next access of slot i. A slot with nothing to run stays as it is. */
  function Access(s: State, i: nat): (s': State)
    requires Shape(s) && i < s.N()
    ensures Shape(s') && s'.N() == s.N()
  {
    if Doorway(s.pc[i]) then DoorwayAccess(s, i)
    else if Checking(s.pc[i]) then s.(pc := s.pc[i := CheckAccess(s, i)])
    else if InCritical(s.pc[i]) then CriticalAccess(s, i)
    else s
  }

  /** Can the action happen now? Clients call get, wait, service in this order and pass back their own
      slot; `num < N` is what the server needs of GET_NUMBER. */
  predicate Enabled(s: State, a: Action)
    requires Shape(s)
  {
    match a
    case GetNumber => s.num < s.N()
    case Run(i) => i < s.N()
    case Wait(i) => i < s.N() && s.pc[i].Issued?
    case JoinCall(i) => i < s.N() && (Started(s.pc[i]) || s.pc[i].Done?) && s.join[i].NotCalled?
    case JoinReturn(i) => i < s.N() && s.pc[i].Done? && s.join[i].Waiting?
  }

  /** One step; an action that cannot happen changes nothing. */
  function Next(s: State, a: Action): (s': State)
    requires Shape(s)
    ensures Shape(s') && s'.N() == s.N()
  {
    if !Enabled(s, a) then s else
      match a
      case GetNumber => s.(num := s.num + 1, pc := s.pc[s.num := Raise])
      case Run(i) => Access(s, i)
      case Wait(i) => s.(pc := s.pc[i := CheckChoosing(0)])
      case JoinCall(i) => s.(join := s.join[i := Waiting])
      case JoinReturn(i) => s.(join := s.join[i := Answered(s.res[i])])
  }

  /** The state after a schedule. Handlers and threads may overlap in any way. */
  function After(s: State, acts: seq<Action>): (s': State)
    requires Shape(s)
    ensures Shape(s') && s'.N() == s.N()
    decreases acts
  {
    if acts == [] then s else After(Next(s, acts[0]), acts[1..])
  }

  lemma {:induction false} AfterConcat(s: State, xs: seq<Action>, ys: seq<Action>)
    requires Shape(s)
    ensures After(s, xs + ys) == After(After(s, xs), ys)
    decreases xs
  {
    if xs == [] {
      assert xs + ys == ys;
    } else {
      assert (xs + ys)[1..] == xs[1..] + ys;
      AfterConcat(Next(s, xs[0]), xs[1..], ys);
    }
  }
}
