/** The single-threaded bakery server (3/proc/bakery2/bakery_server.c) as values: what each remote call does
    to the globals, and what holds over every sequence of calls in which each client first gets a number and
    later is served once. */
module MonoBakery {
  import opened Letters

  datatype Mono = Mono(number: seq<nat>, num: nat, c: int)

  function Start(n: nat): Mono {
    Mono(seq(n, _ => 0), 0, CODE_A)
  }

  function Highest(number: seq<nat>): (max: nat)
    ensures forall j | 0 <= j < |number| :: number[j] <= max
    ensures max != 0 ==> max in number
  {
    if number == [] then 0 else
      var m := Highest(number[..|number| - 1]);
      var last := number[|number| - 1];
      if last > m then last else m
  }

  /** Does a caller with this ticket and slot wait for slot j? */
  predicate Ahead(number: seq<nat>, j: nat, ticket: nat, pid: nat)
    requires j < |number|
  {
    number[j] != 0 && (number[j] < ticket || (number[j] == ticket && j < pid))
  }

  /** The slots among the first k that the caller waits for, in the order of the loop. */
  function AheadOf(number: seq<nat>, ticket: nat, pid: nat, k: nat): (r: seq<nat>)
    requires k <= |number|
    ensures forall j: nat :: j in r <==>
              j < k && number[j] != 0 && (number[j] < ticket || (number[j] == ticket && j < pid))
    ensures forall a | 0 <= a < |r| :: r[a] < k
    ensures forall a, b | 0 <= a < b < |r| :: r[a] < r[b]
  {
    if k == 0 then [] else
      var r := AheadOf(number, ticket, pid, k - 1);
      if Ahead(number, k - 1, ticket, pid) then r + [k - 1] else r
  }

  lemma AheadOfStep(number: seq<nat>, ticket: nat, pid: nat, k: nat)
    requires k <= |number|
    ensures
      AheadOf(number, ticket, pid, k) ==
        if k == 0 then []
        else AheadOf(number, ticket, pid, k - 1) + if Ahead(number, k - 1, ticket, pid) then [k - 1] else []
  {
  }

  // ----- sequences of calls

  datatype Call = Get | Serve(i: nat)

  /** What one served client caused: the letter it got and the slots it gave up waiting for. */
  datatype Reply = Reply(slot: nat, letter: int, waited: seq<nat>)

  /** Clients pass back the number they were given, so a client to be served holds a set number. */
  predicate Legal(m: Mono, call: Call) {
    match call
    case Get => m.num < |m.number|
    case Serve(i) => i < |m.number| && m.number[i] != 0
  }

  function Apply(m: Mono, call: Call): Mono
    requires Legal(m, call)
  {
    match call
    case Get => Mono(m.number[m.num := Highest(m.number) + 1], m.num + 1, m.c)
    case Serve(i) => Mono(m.number[i := 0], m.num, NextLetter(m.c))
  }

  function Replies(m: Mono, call: Call): seq<Reply>
    requires Legal(m, call)
  {
    match call
    case Get => []
    case Serve(i) => [Reply(i, m.c, AheadOf(m.number, m.number[i], i, |m.number|))]
  }

  /** The state and the replies after a sequence of calls; calls that no client makes are skipped. */
  function History(n: nat, calls: seq<Call>): (Mono, seq<Reply>) {
    if calls == [] then (Start(n), []) else
      var (m, rs) := History(n, calls[..|calls| - 1]);
      var call := calls[|calls| - 1];
      if Legal(m, call) then (Apply(m, call), rs + Replies(m, call)) else (m, rs)
  }

  /** The requests for a number. */
  function Gets(calls: seq<Call>): nat {
    if calls == [] then 0 else
      Gets(calls[..|calls| - 1]) + if calls[|calls| - 1].Get? then 1 else 0
  }

  /** Each request for a number takes a slot while there are slots. */
  lemma {:induction false} HistoryGets(n: nat, calls: seq<Call>)
    ensures var m := History(n, calls).0; |m.number| == n && m.num == if Gets(calls) <= n then Gets(calls) else n
  {
    if calls != [] {
      HistoryGets(n, calls[..|calls| - 1]);
    }
  }

  lemma {:induction false} GetsOfFront(calls: seq<Call>, k: nat)
    requires k <= |calls|
    ensures Gets(calls[..k]) <= Gets(calls)
    decreases |calls|
  {
    if k == |calls| {
      assert calls[..k] == calls;
    } else {
      assert calls[..|calls| - 1][..k] == calls[..k];
      GetsOfFront(calls[..|calls| - 1], k);
    }
  }

  /** Slot i is served in one of these replies. */
  ghost predicate ServedIn(rs: seq<Reply>, i: nat) {
    exists k :: 0 <= k < |rs| && rs[k].slot == i
  }

  ghost predicate NumberInv(m: Mono, rs: seq<Reply>, j: nat)
    requires j < |m.number|
  {
    && (m.number[j] != 0 <==> j < m.num && !ServedIn(rs, j))
    && m.number[j] <= j + 1
    && forall i: nat | i < j && m.number[i] != 0 && m.number[j] != 0 :: m.number[i] < m.number[j]
  }

  /** Reply k carries the k-th letter, is the only one of its slot, and waited for exactly the lower slots
      that were not served before it. */
  ghost predicate ReplyInv(m: Mono, rs: seq<Reply>, k: nat)
    requires k < |rs|
  {
    && rs[k].letter == Letter(k)
    && rs[k].slot < m.num
    && !ServedIn(rs[..k], rs[k].slot)
    && (forall i: nat :: i in rs[k].waited <==> i < rs[k].slot && !ServedIn(rs[..k], i))
    && (forall a, b | 0 <= a < b < |rs[k].waited| :: rs[k].waited[a] < rs[k].waited[b])
  }

  ghost predicate HistoryInv(m: Mono, rs: seq<Reply>) {
    && m.num <= |m.number|
    && m.c == Letter(|rs|)
    && (forall j: nat | j < |m.number| :: NumberInv(m, rs, j))
    && (forall k: nat | k < |rs| :: ReplyInv(m, rs, k))
  }

  lemma ServedIsIssued(m: Mono, rs: seq<Reply>, i: nat)
    requires HistoryInv(m, rs)
    ensures ServedIn(rs, i) ==> i < m.num
  {
    if ServedIn(rs, i) {
      var k: nat :| k < |rs| && rs[k].slot == i;
      assert ReplyInv(m, rs, k);
    }
  }

  lemma GetKeeps(m: Mono, rs: seq<Reply>)
    requires HistoryInv(m, rs) && m.num < |m.number|
    ensures HistoryInv(Apply(m, Get), rs)
  {
    var m' := Apply(m, Get);
    assert NumberInv(m, rs, m.num);
    var max := Highest(m.number);
    if max != 0 {
      var j: nat :| j < |m.number| && m.number[j] == max;
      assert NumberInv(m, rs, j);
    }
    ServedIsIssued(m, rs, m.num);
    forall j: nat | j < |m'.number| ensures NumberInv(m', rs, j) {
      assert NumberInv(m, rs, j);
      forall i: nat | i < j && m'.number[i] != 0 && m'.number[j] != 0 ensures m'.number[i] < m'.number[j] {
        assert NumberInv(m, rs, i);
      }
    }
    forall k: nat | k < |rs| ensures ReplyInv(m', rs, k) {
      assert ReplyInv(m, rs, k);
    }
  }

  lemma ServedInAppend(rs: seq<Reply>, r: Reply, i: nat)
    ensures ServedIn(rs + [r], i) <==> ServedIn(rs, i) || r.slot == i
  {
    if ServedIn(rs, i) {
      var k :| 0 <= k < |rs| && rs[k].slot == i;
      assert (rs + [r])[k].slot == i;
    }
    assert (rs + [r])[|rs|] == r;
  }

  /** Who is ahead of slot i: the lower unserved slots, because numbers increase with the slot. */
  lemma AheadIsLowerUnserved(m: Mono, rs: seq<Reply>, i: nat, j: nat)
    requires HistoryInv(m, rs) && i < |m.number| && m.number[i] != 0 && j < |m.number|
    ensures Ahead(m.number, j, m.number[i], i) <==> j < i && !ServedIn(rs, j)
  {
    assert NumberInv(m, rs, i) && NumberInv(m, rs, j);
  }

  lemma ServeKeeps(m: Mono, rs: seq<Reply>, i: nat)
    requires HistoryInv(m, rs) && Legal(m, Serve(i))
    ensures HistoryInv(Apply(m, Serve(i)), rs + Replies(m, Serve(i)))
  {
    var m' := Apply(m, Serve(i));
    var r := Replies(m, Serve(i))[0];
    var rs' := rs + [r];
    NextLetterAdvances(|rs|);
    forall j: nat | j < |m'.number| ensures NumberInv(m', rs', j) {
      assert NumberInv(m, rs, j);
      ServedInAppend(rs, r, j);
    }
    forall k: nat | k < |rs'| ensures ReplyInv(m', rs', k) {
      if k < |rs| {
        assert ReplyInv(m, rs, k);
        assert rs'[..k] == rs[..k];
      } else {
        assert rs'[..k] == rs && NumberInv(m, rs, i);
        forall j: nat ensures j in r.waited <==> j < i && !ServedIn(rs, j) {
          if j < |m.number| {
            AheadIsLowerUnserved(m, rs, i, j);
          }
        }
      }
    }
  }

  lemma {:induction false} HistoryKeeps(n: nat, calls: seq<Call>)
    ensures var (m, rs) := History(n, calls); |m.number| == n && HistoryInv(m, rs)
  {
    if calls != [] {
      var front := calls[..|calls| - 1];
      HistoryKeeps(n, front);
      var (m, rs) := History(n, front);
      var call := calls[|calls| - 1];
      if Legal(m, call) {
        match call
        case Get => GetKeeps(m, rs); assert rs + [] == rs;
        case Serve(i) => ServeKeeps(m, rs, i);
      }
    }
  }

  /** The k-th client to be served gets the k-th letter, whatever the order of service. */
  lemma MonoLetters(n: nat, calls: seq<Call>, k: nat)
    requires k < |History(n, calls).1|
    ensures History(n, calls).1[k].letter == Letter(k) == ALPHABET[k % 26] as int
  {
    LettersAreAlphabet(k);
    HistoryKeeps(n, calls);
    var (m, rs) := History(n, calls);
    assert ReplyInv(m, rs, k);
  }

  /** After any calls, numbers increase with the slot and are at most slot + 1. */
  lemma MonoNumbers(n: nat, calls: seq<Call>, j: nat)
    requires j < n
    ensures var m := History(n, calls).0;
      && |m.number| == n && m.number[j] <= j + 1
      && forall i: nat | i < j && m.number[i] != 0 && m.number[j] != 0 :: m.number[i] < m.number[j]
  {
    HistoryKeeps(n, calls);
    var (m, rs) := History(n, calls);
    assert NumberInv(m, rs, j);
  }

  /** After any calls, the next number handed out is one more than the largest set one, which is that of the
      last client not yet served; if everybody was served, it is 1. */
  lemma NewNumber(n: nat, calls: seq<Call>, m: Mono, rs: seq<Reply>)
    requires (m, rs) == History(n, calls) && m.num < n
    ensures
      var m' := History(n, calls + [Get]).0;
      && |m.number| == |m'.number| == n && m'.num == m.num + 1
      && (forall j: nat | j < n :: if j == m.num then m.number[j] < m'.number[m.num]
                                   else m.number[j] == m'.number[j] < m'.number[m.num])
      && NextNumber(m, rs, m'.number[m.num])
  {
    HistoryKeeps(n, calls);
    assert (calls + [Get])[..|calls|] == calls;
    NextNumberOfGet(m, rs);
  }

  ghost predicate NextNumber(m: Mono, rs: seq<Reply>, ticket: nat)
    requires m.num <= |m.number|
  {
    && (ticket == 1 || exists j: nat :: j < m.num && !ServedIn(rs, j) && m.number[j] == ticket - 1)
    && ((forall j: nat | j < m.num :: ServedIn(rs, j)) ==> ticket == 1)
    && (forall i: nat | i < m.num && !ServedIn(rs, i) && (forall j: nat | i < j < m.num :: ServedIn(rs, j)) ::
          ticket == m.number[i] + 1)
  }

  lemma NextNumberOfGet(m: Mono, rs: seq<Reply>)
    requires HistoryInv(m, rs) && m.num < |m.number|
    ensures NextNumber(m, rs, Highest(m.number) + 1)
  {
    var max := Highest(m.number);
    if max != 0 {
      var j: nat :| j < |m.number| && m.number[j] == max;
      assert NumberInv(m, rs, j);
      forall i: nat | i < m.num && !ServedIn(rs, i) && (forall k: nat | i < k < m.num :: ServedIn(rs, k))
        ensures max == m.number[i]
      {
        assert NumberInv(m, rs, i);
      }
    } else {
      forall i: nat | i < m.num ensures ServedIn(rs, i) {
        assert NumberInv(m, rs, i);
      }
    }
  }

  // ----- timeouts

  function Order(rs: seq<Reply>): (order: seq<nat>)
    ensures |order| == |rs| && forall k | 0 <= k < |rs| :: order[k] == rs[k].slot
  {
    if rs == [] then [] else Order(rs[..|rs| - 1]) + [rs[|rs| - 1].slot]
  }

  lemma PrefixServed(rs: seq<Reply>, k: nat)
    requires k <= |rs| && forall a | 0 <= a < k :: rs[a].slot == a
    ensures forall i: nat :: ServedIn(rs[..k], i) <==> i < k
  {
    forall i: nat | i < k ensures ServedIn(rs[..k], i) {
      assert rs[..k][i].slot == i;
    }
  }

  /** Up to k, serving without a timeout is serving in slot order. */
  lemma {:induction false} InOrderUpTo(n: nat, calls: seq<Call>, k: nat)
    requires var rs := History(n, calls).1;
      k <= |rs| && forall a | 0 <= a < k :: rs[a].waited == []
    ensures var rs := History(n, calls).1; forall a | 0 <= a < k :: rs[a].slot == a
  {
    if k != 0 {
      InOrderUpTo(n, calls, k - 1);
      HistoryKeeps(n, calls);
      var (m, rs) := History(n, calls);
      var a := k - 1;
      PrefixServed(rs, a);
      assert ReplyInv(m, rs, a);
      assert a in rs[a].waited <==> a < rs[a].slot && !ServedIn(rs[..a], a);
    }
  }

  lemma FirstIn(s: seq<nat>)
    ensures s == [] || s[0] in s
  {
  }

  /** No call ever times out exactly when the clients are served in slot order; then every slot gets the
      letter that the threaded server gives it. */
  lemma NoTimeoutIffSlotOrder(n: nat, calls: seq<Call>)
    ensures var rs := History(n, calls).1;
      (forall k | 0 <= k < |rs| :: rs[k].waited == []) <==> (forall k | 0 <= k < |rs| :: rs[k].slot == k)
    ensures var rs := History(n, calls).1;
      (forall k | 0 <= k < |rs| :: rs[k].waited == []) ==>
        forall k | 0 <= k < |rs| :: rs[k].letter == Letter(rs[k].slot)
  {
    HistoryKeeps(n, calls);
    var (m, rs) := History(n, calls);
    if forall k | 0 <= k < |rs| :: rs[k].slot == k {
      forall k | 0 <= k < |rs| ensures rs[k].waited == [] {
        FirstIn(rs[k].waited);
        PrefixServed(rs, k);
        assert ReplyInv(m, rs, k);
      }
    }
    if forall k | 0 <= k < |rs| :: rs[k].waited == [] {
      InOrderUpTo(n, calls, |rs|);
      forall k | 0 <= k < |rs| ensures rs[k].letter == Letter(rs[k].slot) {
        assert ReplyInv(m, rs, k);
      }
    }
  }

  function CountBelow(s: seq<nat>, x: nat): nat {
    if s == [] then 0 else (if s[0] < x then 1 else 0) + CountBelow(s[1..], x)
  }

  /** The pairs of clients that were served against their slot order. */
  function Inversions(order: seq<nat>): nat {
    if order == [] then 0 else CountBelow(order[1..], order[0]) + Inversions(order[1..])
  }

  function TotalTimeouts(rs: seq<Reply>): nat {
    if rs == [] then 0 else |rs[0].waited| + TotalTimeouts(rs[1..])
  }

  lemma NoTimeouts()
    ensures TotalTimeouts([]) == 0
  {
  }

  lemma {:induction false} TotalOfAppend(rs: seq<Reply>, r: Reply)
    ensures TotalTimeouts(rs + [r]) == TotalTimeouts(rs) + |r.waited|
  {
    if rs == [] {
      assert [r][1..] == [];
    } else {
      assert (rs + [r])[1..] == rs[1..] + [r];
      TotalOfAppend(rs[1..], r);
    }
  }

  ghost predicate Distinct(s: seq<nat>) {
    forall a, b | 0 <= a < b < |s| :: s[a] != s[b]
  }

  function Elements(s: seq<nat>): set<nat> {
    set x | x in s
  }

  lemma {:induction false} DistinctSize(s: seq<nat>)
    requires Distinct(s)
    ensures |s| == |Elements(s)|
  {
    if s != [] {
      var front, last := s[..|s| - 1], s[|s| - 1];
      DistinctSize(front);
      assert s == front + [last];
      assert last !in front;
      assert Elements(s) == Elements(front) + {last};
    }
  }

  lemma {:induction false} CountBelowSize(s: seq<nat>, x: nat)
    requires Distinct(s)
    ensures CountBelow(s, x) == |(set y | y in s && y < x)|
  {
    hide Distinct;
    if s != [] {
      BelowHead(s, x);
      CountBelowSize(s[1..], x);
    }
  }

  lemma BelowHead(s: seq<nat>, x: nat)
    requires s != [] && Distinct(s)
    ensures Distinct(s[1..])
    ensures var rest := set y | y in s[1..] && y < x;
      s[0] !in rest && (set y | y in s && y < x) == if s[0] < x then rest + {s[0]} else rest
  {
    var head, tail := s[0], s[1..];
    assert head !in tail;
    assert s == [head] + tail;
    assert forall y :: y in s <==> y == head || y in tail;
  }

  /** A reply times out once for each lower slot that is served after it, if all lower slots are served. */
  lemma TimeoutsOfReply(m: Mono, rs: seq<Reply>, k: nat)
    requires HistoryInv(m, rs) && k < |rs| && forall i: nat | i < m.num :: ServedIn(rs, i)
    ensures |rs[k].waited| == CountBelow(Order(rs)[k + 1..], rs[k].slot)
  {
    var order := Order(rs);
    var later := order[k + 1..];
    assert ReplyInv(m, rs, k);
    DistinctOrder(m, rs);
    CountBelowSize(later, rs[k].slot);
    DistinctSize(rs[k].waited);
    forall i: nat ensures i in rs[k].waited <==> i in later && i < rs[k].slot {
      LaterIffNotBefore(m, rs, k, i);
    }
    assert Elements(rs[k].waited) == (set y | y in later && y < rs[k].slot);
  }

  lemma DistinctOrder(m: Mono, rs: seq<Reply>)
    requires HistoryInv(m, rs)
    ensures Distinct(Order(rs))
  {
    forall a, b | 0 <= a < b < |rs| ensures rs[a].slot != rs[b].slot {
      assert ReplyInv(m, rs, b);
      assert rs[..b][a] == rs[a];
    }
  }

  lemma LaterIffNotBefore(m: Mono, rs: seq<Reply>, k: nat, i: nat)
    requires HistoryInv(m, rs) && k < |rs| && forall j: nat | j < m.num :: ServedIn(rs, j)
    ensures i < rs[k].slot ==> (i in Order(rs)[k + 1..] <==> !ServedIn(rs[..k], i))
  {
    if i < rs[k].slot {
      var order := Order(rs);
      assert ReplyInv(m, rs, k);
      DistinctOrder(m, rs);
      assert ServedIn(rs, i);
      var b: nat :| b < |rs| && rs[b].slot == i;
      if b < k {
        assert rs[..k][b].slot == i;
      } else {
        assert order[k + 1..][b - k - 1] == i;
      }
    }
  }

  lemma {:induction false} TimeoutsFrom(m: Mono, rs: seq<Reply>, k: nat)
    requires HistoryInv(m, rs) && k <= |rs| && forall i: nat | i < m.num :: ServedIn(rs, i)
    ensures TotalTimeouts(rs[k..]) == Inversions(Order(rs)[k..])
    decreases |rs| - k
  {
    if k < |rs| {
      TimeoutsOfReply(m, rs, k);
      TimeoutsFrom(m, rs, k + 1);
      assert rs[k..][1..] == rs[k + 1..];
      assert Order(rs)[k..][1..] == Order(rs)[k + 1..];
    }
  }

  /** Once everybody is served, the timeouts are as many as the pairs served against slot order. */
  lemma TimeoutsAreInversions(n: nat, calls: seq<Call>)
    requires var (m, rs) := History(n, calls); forall i: nat | i < m.num :: ServedIn(rs, i)
    ensures var rs := History(n, calls).1; TotalTimeouts(rs) == Inversions(Order(rs))
  {
    HistoryKeeps(n, calls);
    var (m, rs) := History(n, calls);
    TimeoutsFrom(m, rs, 0);
    assert rs[0..] == rs && Order(rs)[0..] == Order(rs);
  }
}
