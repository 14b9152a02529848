/** The single-threaded bakery server (3/proc/bakery2/bakery_server.c) in its own form: the globals,
    `get_number_1_svc` and the timed waiting of `bakery_service_1_svc`. */
module MonoServer {
  import opened Letters
  import opened MonoBakery

  const CLOCKS_PER_SEC: int := 1000000

  /** The k-th value that clock() returns. */
  type Clock = nat -> int

  ghost predicate Reaches(clock: Clock, t: int) {
    exists i: nat :: clock(i) >= t
  }

  /** The clock never goes back and passes every time. */
  ghost predicate Advancing(clock: Clock) {
    && (forall i: nat, j: nat | i <= j :: clock(i) <= clock(j))
    && (forall t: int :: Reaches(clock, t))
  }

  /** Between two readings of the clock at most d passes. */
  ghost predicate Steady(clock: Clock, d: nat) {
    forall i: nat :: clock(i + 1) <= clock(i) + d
  }

  /** The turn of one slot in the waiting loop, from one count of readings to another: a slot that is not ahead
      costs one reading; for a slot ahead the clock is read until a second has passed, and no longer. */
  ghost predicate Turn(clock: Clock, from: nat, to: nat, ahead: bool) {
    if ahead then
      to >= from + 2 && clock(to - 1) - clock(from) >= CLOCKS_PER_SEC > clock(to - 2) - clock(from)
    else
      to == from + 1
  }

  /** The turns of the first slots, one after the other. */
  ghost predicate Turns(clock: Clock, starts: seq<nat>, number: seq<nat>, ticket: nat, pid: nat)
    requires |starts| <= |number| + 1
  {
    forall j: nat | j + 1 < |starts| :: Turn(clock, starts[j], starts[j + 1], Ahead(number, j, ticket, pid))
  }

  lemma FirstTurn(clock: Clock, start: nat, number: seq<nat>, ticket: nat, pid: nat)
    ensures Turns(clock, [start], number, ticket, pid)
  {
  }

  lemma TurnsAppend(clock: Clock, starts: seq<nat>, number: seq<nat>, ticket: nat, pid: nat, next: nat)
    requires 0 < |starts| <= |number| && Turns(clock, starts, number, ticket, pid)
    requires Turn(clock, starts[|starts| - 1], next, Ahead(number, |starts| - 1, ticket, pid))
    ensures Turns(clock, starts + [next], number, ticket, pid)
  {
    hide Turn, Ahead;
  }

  lemma TurnTakes(clock: Clock, from: nat, to: nat, ahead: bool, d: nat)
    requires Turn(clock, from, to, ahead) && Steady(clock, d)
    ensures clock(to) - clock(from) <= if ahead then CLOCKS_PER_SEC + 2 * d else d
  {
    if ahead {
      assert clock(to - 2 + 1) <= clock(to - 2) + d;
      assert clock(to - 1 + 1) <= clock(to - 1) + d;
    }
  }

  /** The waiting loop takes no more than a second for each slot ahead and the time between readings. */
  lemma {:induction false} TurnsTake(clock: Clock, starts: seq<nat>, number: seq<nat>, ticket: nat, pid: nat, d: nat,
                                     k: nat)
    requires k < |starts| <= |number| + 1 && Turns(clock, starts, number, ticket, pid) && Steady(clock, d)
    ensures
      clock(starts[k]) - clock(starts[0]) <= |AheadOf(number, ticket, pid, k)| * (CLOCKS_PER_SEC + d) + k * d
  {
    hide AheadOf, Turn, Steady, Ahead;
    AheadOfStep(number, ticket, pid, k);
    if k > 0 {
      TurnsTake(clock, starts, number, ticket, pid, d, k - 1);
      var ahead := Ahead(number, k - 1, ticket, pid);
      assert Turn(clock, starts[k - 1], starts[k - 1 + 1], ahead);
      TurnTakes(clock, starts[k - 1], starts[k], ahead, d);
      var w := |AheadOf(number, ticket, pid, k - 1)|;
      assert (w + 1) * (CLOCKS_PER_SEC + d) == w * (CLOCKS_PER_SEC + d) + CLOCKS_PER_SEC + d;
      assert k * d == (k - 1) * d + d;
    }
  }

  class Server {
    const choosing: array<bool>
    const number: array<nat>
    var num: nat
    var c: int
    var ticks: nat  // calls of clock() so far

    ghost predicate Valid()
      reads this, choosing, number
    {
      && choosing.Length == number.Length
      && num <= number.Length
      && forall j | 0 <= j < choosing.Length :: !choosing[j]
    }

    ghost function View(): Mono
      reads this, number
    {
      Mono(number[..], num, c)
    }

    constructor (n: nat)
      ensures Valid() && fresh(choosing) && fresh(number)
      ensures View() == Start(n) && ticks == 0
    {
      choosing := new bool[n](_ => false);
      number := new nat[n](_ => 0);
      num, c, ticks := 0, CODE_A, 0;
    }

    /** With all slots handed out the handler would store past its arrays (`inside` is false); what it does
        then is not modelled. */
    method GetNumber() returns (pid: nat, ticket: nat, inside: bool)
      requires Valid()
      modifies this`num, choosing, number
      ensures inside <==> Legal(old(View()), Get)
      ensures Valid() && View() == if inside then Apply(old(View()), Get) else old(View())
      ensures inside ==> pid == old(num) && ticket == number[pid]
      ensures inside ==> forall j | 0 <= j < number.Length :: old(number[j]) < ticket
      ensures inside ==> ticket == 1 || exists j :: 0 <= j < number.Length && old(number[j]) == ticket - 1
    {
      var ind, max := num, 0;
      if ind == number.Length {
        return ind, 0, false;
      }
      num := num + 1;
      choosing[ind] := true;
      for i := 0 to number.Length
        invariant max == Highest(number[..i])
      {
        assert number[..i + 1][..i] == number[..i];
        if number[i] > max {
          max := number[i];
        }
      }
      assert number[..number.Length] == number[..];
      number[ind] := max + 1;
      pid, ticket, inside := ind, number[ind], true;
      choosing[ind] := false;
    }

    /** Waits a second for each slot ahead, give or take two readings of the clock, then serves. `timedOut` lists
        the slots it gave up on. */
    method Service(pid: nat, ticket: nat, clock: Clock) returns (letter: int, ghost timedOut: seq<nat>)
      requires Valid() && pid < number.Length && Advancing(clock)
      modifies this`c, this`ticks, number
      ensures Valid() && number[..] == old(number[..])[pid := 0]
      ensures letter == old(c) && num == old(num) && c == NextLetter(letter)
      ensures
        Legal(old(View()), Serve(pid)) && ticket == old(number[pid]) ==>
          && View() == Apply(old(View()), Serve(pid))
          && Replies(old(View()), Serve(pid)) == [Reply(pid, letter, timedOut)]
      ensures timedOut == AheadOf(old(number[..]), ticket, pid, number.Length)
      ensures ticks >= old(ticks) + |timedOut| + number.Length
      ensures clock(ticks) - clock(old(ticks)) >= |timedOut| * CLOCKS_PER_SEC
      ensures forall d: nat | Steady(clock, d) ::
                clock(ticks) - clock(old(ticks)) <= |timedOut| * (CLOCKS_PER_SEC + d) + number.Length * d
    {
      hide Advancing, Turns, Steady, AheadOf;
      ghost var starts;
      timedOut, starts := WaitTurn(pid, ticket, clock);
      forall d: nat | Steady(clock, d)
        ensures clock(ticks) - clock(old(ticks)) <= |timedOut| * (CLOCKS_PER_SEC + d) + number.Length * d
      {
        TurnsTake(clock, starts, number[..], ticket, pid, d, number.Length);
      }
      letter := c;
      c := c + 1;
      if c > CODE_Z {
        c := CODE_A;
      }
      number[pid] := 0;
    }

    /** The requests of the clients one after the other, up to a GET_NUMBER for which no slot is left. Each
        client passes back the number of its slot and asks once; other requests are skipped. */
    method Perform(calls: seq<Call>, clock: Clock)
      returns (letters: seq<int>, inside: bool, ghost replies: seq<Reply>)
      requires Valid() && View() == Start(number.Length) && Advancing(clock)
      modifies this`num, this`c, this`ticks, choosing, number
      ensures inside <==> Gets(calls) <= number.Length
      ensures inside ==> Valid() && (View(), replies) == History(number.Length, calls)
      ensures inside ==> |letters| == |replies|
      ensures inside ==> forall k: nat | k < |letters| :: letters[k] == ALPHABET[k % 26] as int
      ensures inside ==> clock(ticks) - clock(old(ticks)) >= TotalTimeouts(replies) * CLOCKS_PER_SEC
    {
      hide Apply, NextLetter, Reaches, TotalTimeouts, AheadOf;
      var n := number.Length;
      letters, inside, replies := [], true, [];
      NoTimeouts();
      var i := 0;
      while i < |calls| && inside
        invariant i <= |calls| && number.Length == n
        invariant inside ==> Valid() && (View(), replies) == History(n, calls[..i]) && Gets(calls[..i]) <= n
        invariant inside ==> |letters| == |replies| && forall k: nat | k < |letters| :: letters[k] == replies[k].letter
        invariant inside ==> clock(ticks) - clock(old(ticks)) >= TotalTimeouts(replies) * CLOCKS_PER_SEC
        invariant !inside ==> Gets(calls[..i]) > n
      {
        assert calls[..i + 1][..i] == calls[..i];
        assert replies + [] == replies;
        HistoryGets(n, calls[..i]);
        match calls[i] {
          case Get =>
            var pid, ticket;
            pid, ticket, inside := GetNumber();
          case Serve(pid) =>
            if pid < n && number[pid] != 0 {
              var letter;
              ghost var timedOut;
              letter, timedOut := Service(pid, number[pid], clock);
              letters := letters + [letter];
              TotalOfAppend(replies, Reply(pid, letter, timedOut));
              replies := replies + [Reply(pid, letter, timedOut)];
            }
        }
        i := i + 1;
      }
      GetsOfFront(calls, i);
      if inside {
        assert calls[..i] == calls;
        forall k: nat | k < |letters| ensures letters[k] == ALPHABET[k % 26] as int {
          MonoLetters(n, calls, k);
        }
      }
    }

    /** The loop over the slots. `starts[j]` is the count of readings when the turn of slot j begins. */
    method WaitTurn(pid: nat, ticket: nat, clock: Clock) returns (ghost timedOut: seq<nat>, ghost starts: seq<nat>)
      requires Valid() && Advancing(clock)
      modifies this`ticks
      ensures timedOut == AheadOf(number[..], ticket, pid, number.Length)
      ensures ticks >= old(ticks) + |timedOut| + number.Length
      ensures clock(ticks) - clock(old(ticks)) >= |timedOut| * CLOCKS_PER_SEC
      ensures |starts| == number.Length + 1 && starts[0] == old(ticks) && starts[number.Length] == ticks
      ensures Turns(clock, starts, number[..], ticket, pid)
    {
      hide AheadOf, Ahead, Advancing, Turn, Turns;
      timedOut, starts := [], [ticks];
      AheadOfStep(number[..], ticket, pid, 0);
      FirstTurn(clock, ticks, number[..], ticket, pid);
      for j := 0 to number.Length
        invariant Valid()
        invariant timedOut == AheadOf(number[..], ticket, pid, j)
        invariant ticks >= old(ticks) + |timedOut| + j
        invariant clock(ticks) - clock(old(ticks)) >= |timedOut| * CLOCKS_PER_SEC
        invariant |starts| == j + 1 && starts[0] == old(ticks) && starts[j] == ticks
        invariant Turns(clock, starts, number[..], ticket, pid)
      {
        if choosing[j] {  // the spin of line 37 is never entered: no doorway is open
          assert false;
        }
        AheadOfStep(number[..], ticket, pid, j + 1);
        var gaveUp := WaitFor(j, pid, ticket, clock);
        if gaveUp {
          timedOut := timedOut + [j];
        }
        TurnsAppend(clock, starts, number[..], ticket, pid, ticks);
        starts := starts + [ticks];
      }
    }

    /** Lines 38 to 44 for one slot: spin until the slot is no longer ahead or a second has passed. Nobody
        else runs, so a slot that is ahead stays ahead and only the clock ends the loop. */
    method WaitFor(j: nat, pid: nat, ticket: nat, clock: Clock) returns (gaveUp: bool)
      requires j < number.Length && Advancing(clock)
      modifies this`ticks
      ensures gaveUp <==> Ahead(number[..], j, ticket, pid)
      ensures Turn(clock, old(ticks), ticks, gaveUp) && ticks >= old(ticks) + if gaveUp then 2 else 1
      ensures clock(ticks) - clock(old(ticks)) >= if gaveUp then CLOCKS_PER_SEC else 0
    {
      var flag := true;
      var tStart := clock(ticks);
      ticks := ticks + 1;
      assert Reaches(clock, tStart + CLOCKS_PER_SEC);
      ghost var limit: nat :| clock(limit) >= tStart + CLOCKS_PER_SEC;
      while flag && number[j] != 0 && (number[j] < ticket || (number[j] == ticket && j < pid))
        invariant ticks > old(ticks)
        invariant flag ==> ticks <= limit && clock(ticks - 1) - tStart < CLOCKS_PER_SEC
        invariant ticks > old(ticks) + 1 ==> Ahead(number[..], j, ticket, pid)
        invariant !flag ==> Turn(clock, old(ticks), ticks, true) && clock(ticks) - tStart >= CLOCKS_PER_SEC
        decreases flag, limit - ticks
      {
        var now := clock(ticks);
        ticks := ticks + 1;
        if (now - tStart) / CLOCKS_PER_SEC != 0 {
          flag := false;
        }
      }
      gaveUp := !flag;
    }
  }
}
