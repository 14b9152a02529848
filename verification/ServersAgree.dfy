/** The two bakery servers side by side. */
module ServersAgree {
  import BakeryMachine
  import BakerySerial
  import MonoBakery

  /** If the single-threaded server never times out, then every client it serves gets the letter that the
      threaded server sends to the client of the same slot, in any run of each. */
  lemma SameLetters(n: nat, calls: seq<MonoBakery.Call>, acts: seq<BakeryMachine.Action>, i: nat)
    requires i < n
    requires var rs := MonoBakery.History(n, calls).1; i < |rs| && forall k | 0 <= k < |rs| :: rs[k].waited == []
    requires BakerySerial.SerialAfter(BakeryMachine.Init(n), acts).join[i].Answered?
    ensures var r := MonoBakery.History(n, calls).1[i];
      r.slot == i && r.letter == BakerySerial.SerialAfter(BakeryMachine.Init(n), acts).join[i].letter
  {
    MonoBakery.NoTimeoutIffSlotOrder(n, calls);
    BakerySerial.SerialRefinesCounters(n, acts, BakeryMachine.GetNumber, i);
  }
}
