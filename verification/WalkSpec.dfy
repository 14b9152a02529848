/** What a directory walk should do: show the nodes to the handler in preorder until it objects. */
module WalkSpec {
  import opened FileTree

  datatype FtwType = FTW_F | FTW_D | FTW_DNR | FTW_NS

  /** One call of the handler: the identity of the node, and its kind when it is a file. */
  datatype Visit = Visit(at: Pos, typ: FtwType, kind: Kind)

  function FileVisit(at: Pos, kind: Kind): Visit {
    Visit(at, FTW_F, kind)
  }

  function OtherVisit(at: Pos, typ: FtwType): Visit {
    Visit(at, typ, Odd)
  }

  function Preorder(node: Node, at: Pos): seq<Visit>
    decreases node
  {
    match node
    case NoStat => [OtherVisit(at, FTW_NS)]
    case File(kind) => [FileVisit(at, kind)]
    case Dir(readable, entries) =>
      [OtherVisit(at, FTW_D)] + (if readable then PreorderAll(entries, at) else [OtherVisit(at, FTW_DNR)])
  }

  function PreorderAll(entries: seq<Entry>, at: Pos): seq<Visit>
    decreases entries
  {
    if entries == [] then [] else
      (if IsDots(entries[0].name) then [] else Preorder(entries[0].node, at + [entries[0].name]))
        + PreorderAll(entries[1..], at)
  }

  // ----- handlers

  /** `Counting` is the handler of the program; `Custom` is any handler that tells nodes by their identity
      and may use everything it was shown before. */
  datatype Handler = Counting | Custom(f: seq<Visit> -> int)

  /** The return value of the counting handlers: they give up on what cannot be examined. */
  function CountVerdict(v: Visit): int {
    match v.typ
    case FTW_F => 0
    case FTW_D => 0
    case FTW_DNR => -1
    case FTW_NS => -1
  }

  function Verdict(h: Handler, trace: seq<Visit>): int
    requires trace != []
  {
    match h
    case Counting => CountVerdict(trace[|trace| - 1])
    case Custom(f) => f(trace)
  }

  /** Show the visits one by one until the handler returns something other than 0. */
  function Feed(h: Handler, trace: seq<Visit>, visits: seq<Visit>): (seq<Visit>, int)
    decreases visits
  {
    if visits == [] then (trace, 0) else
      var shown := trace + [visits[0]];
      if Verdict(h, shown) != 0 then (shown, Verdict(h, shown)) else Feed(h, shown, visits[1..])
  }

  lemma {:induction false} FeedConcat(h: Handler, trace: seq<Visit>, xs: seq<Visit>, ys: seq<Visit>)
    ensures
      var (shown, ret) := Feed(h, trace, xs);
      Feed(h, trace, xs + ys) == if ret != 0 then (shown, ret) else Feed(h, shown, ys)
    decreases xs
  {
    if xs == [] {
      assert xs + ys == ys;
    } else {
      assert (xs + ys)[1..] == xs[1..] + ys;
      FeedConcat(h, trace + [xs[0]], xs[1..], ys);
    }
  }

  lemma FeedOne(h: Handler, trace: seq<Visit>, v: Visit)
    ensures Feed(h, trace, [v]) == (trace + [v], Verdict(h, trace + [v]))
  {
    assert Feed(h, trace + [v], []) == (trace + [v], 0);
  }

  /** A directory is shown first; then comes what is below it, or that it cannot be opened. */
  lemma FeedDirectory(h: Handler, trace: seq<Visit>, node: Node, at: Pos)
    requires node.Dir?
    ensures
      var shown := trace + [OtherVisit(at, FTW_D)];
      var rest := if node.readable then PreorderAll(node.entries, at) else [OtherVisit(at, FTW_DNR)];
      Feed(h, trace, Preorder(node, at)) ==
        if Verdict(h, shown) != 0 then (shown, Verdict(h, shown)) else Feed(h, shown, rest)
  {
    FeedOne(h, trace, OtherVisit(at, FTW_D));
    FeedConcat(h, trace, [OtherVisit(at, FTW_D)],
      if node.readable then PreorderAll(node.entries, at) else [OtherVisit(at, FTW_DNR)]);
  }

  /** What one entry adds to the walk of a directory. */
  function EntryVisits(entry: Entry, at: Pos): seq<Visit> {
    if IsDots(entry.name) then [] else Preorder(entry.node, at + [entry.name])
  }

  lemma FeedNone(h: Handler, trace: seq<Visit>, entries: seq<Entry>, at: Pos)
    ensures PreorderAll(entries[0..], at) == PreorderAll(entries, at)
    ensures Feed(h, trace, PreorderAll(entries[|entries|..], at)) == (trace, 0)
  {
    assert entries[0..] == entries;
  }

  lemma FeedEntry(h: Handler, trace: seq<Visit>, entries: seq<Entry>, k: nat, at: Pos)
    requires k < |entries|
    ensures
      var (shown, ret) := Feed(h, trace, EntryVisits(entries[k], at));
      Feed(h, trace, PreorderAll(entries[k..], at)) ==
        if ret != 0 then (shown, ret) else Feed(h, shown, PreorderAll(entries[k + 1..], at))
    ensures IsDots(entries[k].name) ==> Feed(h, trace, EntryVisits(entries[k], at)) == (trace, 0)
  {
    assert entries[k..][1..] == entries[k + 1..];
    FeedConcat(h, trace, EntryVisits(entries[k], at), PreorderAll(entries[k + 1..], at));
  }

  /** The walk is cut exactly after the first visit that the handler objects to. */
  lemma {:induction false} FeedCuts(h: Handler, trace: seq<Visit>, visits: seq<Visit>) returns (k: nat)
    ensures k <= |visits|
    ensures Feed(h, trace, visits).0 == trace + visits[..k]
    ensures forall j | 1 <= j < k :: Verdict(h, trace + visits[..j]) == 0
    ensures
      var ret := Feed(h, trace, visits).1;
      if ret == 0 then k == |visits| && (k > 0 ==> Verdict(h, trace + visits) == 0)
      else k > 0 && ret == Verdict(h, trace + visits[..k])
    decreases visits
  {
    if visits == [] {
      k := 0;
      assert trace + [] == trace;
    } else {
      var shown := trace + [visits[0]];
      assert trace + visits[..1] == shown;
      if Verdict(h, shown) != 0 {
        k := 1;
      } else {
        var rest := FeedCuts(h, shown, visits[1..]);
        k := rest + 1;
        forall j: nat | j <= |visits[1..]| ensures shown + visits[1..][..j] == trace + visits[..j + 1] {
        }
        assert visits[..|visits|] == visits && visits[1..][..|visits| - 1] == visits[1..];
        assert rest == 0 ==> k == 1;
        forall j | 1 <= j < k ensures Verdict(h, trace + visits[..j]) == 0 {
          if j > 1 {
            assert shown + visits[1..][..j - 1] == trace + visits[..j];
          }
        }
      }
    }
  }

  // ----- the counters

  datatype Tally = Tally(reg: int, dir: int, blk: int, chr: int, fifo: int, link: int, sock: int)

  const ZERO_TALLY: Tally := Tally(0, 0, 0, 0, 0, 0, 0)

  function Bump(t: Tally, v: Visit): Tally {
    match v.typ
    case FTW_D => t.(dir := t.dir + 1)
    case FTW_F => (
      match v.kind
      case Reg => t.(reg := t.reg + 1)
      case Blk => t.(blk := t.blk + 1)
      case Chr => t.(chr := t.chr + 1)
      case Fifo => t.(fifo := t.fifo + 1)
      case Link => t.(link := t.link + 1)
      case Sock => t.(sock := t.sock + 1)
      case Odd => t)
    case _ => t
  }

  /** The counters after the handler was shown these visits. */
  function TallyOf(trace: seq<Visit>): Tally {
    if trace == [] then ZERO_TALLY else Bump(TallyOf(trace[..|trace| - 1]), trace[|trace| - 1])
  }

  lemma TallyOfAppend(trace: seq<Visit>, v: Visit)
    ensures TallyOf(trace + [v]) == Bump(TallyOf(trace), v)
  {
    assert (trace + [v])[..|trace|] == trace;
  }

  /** How many files of this kind, and how many directories, the handler was shown. */
  function FilesShown(trace: seq<Visit>, kind: Kind): nat {
    if trace == [] then 0 else
      var v := trace[|trace| - 1];
      FilesShown(trace[..|trace| - 1], kind) + if v.typ.FTW_F? && v.kind == kind then 1 else 0
  }

  function DirsShown(trace: seq<Visit>): nat {
    if trace == [] then 0 else
      DirsShown(trace[..|trace| - 1]) + if trace[|trace| - 1].typ.FTW_D? then 1 else 0
  }

  /** Wherever a counting walk ends, each counter is the number of visits of its own kind. */
  lemma {:induction false} TallyCounts(trace: seq<Visit>)
    ensures var t := TallyOf(trace);
      && t.reg == FilesShown(trace, Reg) && t.blk == FilesShown(trace, Blk) && t.chr == FilesShown(trace, Chr)
      && t.fifo == FilesShown(trace, Fifo) && t.link == FilesShown(trace, Link) && t.sock == FilesShown(trace, Sock)
      && t.dir == DirsShown(trace)
  {
    if trace != [] {
      TallyCounts(trace[..|trace| - 1]);
    }
  }

  /** The seven counters and the handler that updates them; each of the two walks has its own. */
  class Counters {
    var nreg: int
    var ndir: int
    var nblk: int
    var nchr: int
    var nfifo: int
    var nslink: int
    var nsock: int

    function Values(): Tally
      reads this
    {
      Tally(nreg, ndir, nblk, nchr, nfifo, nslink, nsock)
    }

    constructor ()
      ensures Values() == ZERO_TALLY
    {
      nreg, ndir, nblk, nchr, nfifo, nslink, nsock := 0, 0, 0, 0, 0, 0, 0;
    }

    method Handle(v: Visit) returns (ret: int)
      modifies this
      ensures nreg == old(nreg) + if v.typ.FTW_F? && v.kind.Reg? then 1 else 0
      ensures nblk == old(nblk) + if v.typ.FTW_F? && v.kind.Blk? then 1 else 0
      ensures nchr == old(nchr) + if v.typ.FTW_F? && v.kind.Chr? then 1 else 0
      ensures nfifo == old(nfifo) + if v.typ.FTW_F? && v.kind.Fifo? then 1 else 0
      ensures nslink == old(nslink) + if v.typ.FTW_F? && v.kind.Link? then 1 else 0
      ensures nsock == old(nsock) + if v.typ.FTW_F? && v.kind.Sock? then 1 else 0
      ensures ndir == old(ndir) + if v.typ.FTW_D? then 1 else 0
      ensures ret == if v.typ.FTW_F? || v.typ.FTW_D? then 0 else -1
      ensures Values() == Bump(old(Values()), v) && ret == CountVerdict(v)
    {
      match v.typ
      case FTW_F =>
        match v.kind {
          case Reg => nreg := nreg + 1;
          case Blk => nblk := nblk + 1;
          case Chr => nchr := nchr + 1;
          case Fifo => nfifo := nfifo + 1;
          case Link => nslink := nslink + 1;
          case Sock => nsock := nsock + 1;
          case Odd =>
        }
        ret := 0;
      case FTW_D =>
        ndir := ndir + 1;
        ret := 0;
      case _ =>
        ret := -1;
    }
  }
}
