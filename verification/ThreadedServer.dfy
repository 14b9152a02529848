/** The threaded bakery server (3/proc/bakery1/bakery_server.c) with its global arrays updated in place. The
    loops of the source are cut into one shared access per call, so that calls of different slots can
    interleave; each call is proved to be a step of the bakery machine. */
module ThreadedServer {
  import opened Letters
  import opened BakeryMachine
  import opened BakeryInvariant

  class Server {
    const choosing: array<bool>
    const number: array<nat>
    var num: nat
    var c: int
    var res: seq<int>
    var answer: seq<nat>
    var pc: seq<Control>
    var join: seq<Join>
    ghost var before: seq<set<nat>>
    ghost var ticket: seq<nat>
    ghost var served: seq<nat>

    ghost function View(): State
      reads this, choosing, number
    {
      State(choosing[..], number[..], num, c, res, answer, pc, join, before, ticket, served)
    }

    ghost predicate Valid()
      reads this, choosing, number
    {
      Inv(View())
    }

    constructor (n: nat)
      ensures Valid() && fresh(choosing) && fresh(number)
      ensures View() == Init(n)
    {
      choosing := new bool[n](_ => false);
      number := new nat[n](_ => 0);
      num, c := 0, CODE_A;
      res, answer := seq(n, _ => 0), seq(n, _ => 0);
      pc, join := seq(n, _ => Unissued), seq(n, _ => NotCalled);
      before, ticket, served := seq(n, _ => {}), seq(n, _ => 0), [];
      new;
      InitInv(n);
      assert View() == Init(n);
    }

    /** A handler of GET_NUMBER takes the next slot. The server does not check that there is one: with all slots
        handed out it would store past its arrays (`inside` is false), and the machine has no such step. */
    method OpenDoorway() returns (ind: nat, inside: bool)
      requires Valid()
      modifies this
      ensures inside <==> old(num) < number.Length
      ensures Valid() && View() == Next(old(View()), GetNumber)
      ensures inside ==> ind == old(num) && num == ind + 1 && Doorway(pc[ind])
    {
      ind, inside := num, num < number.Length;
      if inside {
        StepInv(View(), GetNumber);
        num := num + 1;
        pc := pc[ind := Raise];
      }
    }

    /** One shared access of `get_number_1_svc` for slot i. */
    method DoorwayStep(i: nat)
      requires Valid() && i < number.Length && Doorway(pc[i])
      modifies this, choosing, number
      ensures Valid() && View() == Next(old(View()), Run(i))
    {
      StepInv(View(), Run(i));
      var n := number.Length;
      match pc[i]
      case Raise =>
        before := before[i := Ticketed(number[..])];
        choosing[i] := true;
        pc := pc[i := Test(0, 0)];
      case Test(k, max) =>
        pc := pc[i := if number[k] > max then Reread(k, max) else ScanNext(n, k, max)];
      case Reread(k, max) =>
        pc := pc[i := ScanNext(n, k, number[k])];
      case WriteTicket(max) =>
        number[i] := max + 1;
        ticket := ticket[i := max + 1];
        pc := pc[i := Answer];
      case Answer =>
        answer := answer[i := number[i]];
        pc := pc[i := Lower];
      case Lower =>
        choosing[i] := false;
        pc := pc[i := Reply];
      case Reply =>
        answer := answer[i := number[i]];
        pc := pc[i := Issued];
    }

    /** BAKERY_WAIT starts the thread of slot i. */
    method StartThread(i: nat)
      requires Valid() && i < number.Length && pc[i].Issued?
      modifies this`pc
      ensures Valid() && View() == Next(old(View()), Wait(i))
    {
      StepInv(View(), Wait(i));
      pc := pc[i := CheckChoosing(0)];
    }

    /** One shared access of the waiting loop of `bakery_service`. */
    method CheckStep(i: nat)
      requires Valid() && i < number.Length && Checking(pc[i])
      modifies this`pc
      ensures Valid() && View() == Next(old(View()), Run(i))
    {
      StepInv(View(), Run(i));
      var n := number.Length;
      match pc[i]
      case CheckChoosing(j) =>
        if !choosing[j] {
          pc := pc[i := CheckZero(j)];
        }
      case CheckZero(j) =>
        pc := pc[i := if number[j] != 0 then CheckLess(j) else CheckNext(n, j)];
      case CheckLess(j) =>
        pc := pc[i := if number[j] < number[i] then CheckZero(j) else CheckEqual(j)];
      case CheckEqual(j) =>
        pc := pc[i := if number[j] == number[i] && j < i then CheckZero(j) else CheckNext(n, j)];
    }

    /** One shared access between taking a letter and clearing the ticket; nobody else is there. */
    method CriticalStep(i: nat)
      requires Valid() && i < number.Length && InCritical(pc[i])
      modifies this, number
      ensures Valid() && View() == Next(old(View()), Run(i))
      ensures forall j | 0 <= j < |pc| && j != i :: !InCritical(pc[j])
    {
      StepInv(View(), Run(i));
      forall j: nat | j < |pc| && j != i ensures !InCritical(pc[j]) {
        MutualExclusion(View(), i, j);
      }
      match pc[i]
      case Take =>
        res := res[i := c];
        served := served + [i];
        pc := pc[i := Bump(c)];
      case Bump(letter) =>
        c := letter + 1;
        pc := pc[i := TestZ];
      case TestZ =>
        pc := pc[i := if c > CODE_Z then Wrap else Clear];
      case Wrap =>
        c := CODE_A;
        pc := pc[i := Clear];
      case Clear =>
        number[i] := 0;
        pc := pc[i := Done];
    }

    /** BAKERY_SERVICE enters the join. */
    method CallService(i: nat)
      requires Valid() && i < number.Length && (Started(pc[i]) || pc[i].Done?) && join[i].NotCalled?
      modifies this`join
      ensures Valid() && View() == Next(old(View()), JoinCall(i))
    {
      StepInv(View(), JoinCall(i));
      join := join[i := Waiting];
    }

    /** The join returns and the letter goes out. */
    method ReturnService(i: nat) returns (letter: int)
      requires Valid() && i < number.Length && pc[i].Done? && join[i].Waiting?
      modifies this`join
      ensures Valid() && View() == Next(old(View()), JoinReturn(i))
      ensures join[i] == Answered(letter)
    {
      StepInv(View(), JoinReturn(i));
      letter := res[i];
      join := join[i := Answered(letter)];
    }
  }
}
