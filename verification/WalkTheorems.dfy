/** The two walks agree, and what a complete walk has seen and counted. */
module WalkTheorems {
  import opened FileTree
  import opened WalkSpec
  import PathWalker
  import ChdirWalker

  /** What `main` does: both walks of one pathname, with the same handler. They show the same nodes in the
      same order, return the same value and count the same. */
  method RunBoth(root: Node, cwd: Pos, handler: Handler, initial: nat, pathname: string)
    returns (p: PathWalker.Walker, q: ChdirWalker.Walker, ret: int, myRet: int)
    requires initial > NAME_MAX && '\0' !in pathname && WellFormed(Lstat(root, cwd, pathname))
    ensures p.Valid() && q.Valid() && p.start == pathname == q.start && p.base == q.base
    ensures (p.trace, ret) == (q.trace, myRet) == Feed(handler, [], Preorder(Lstat(root, cwd, pathname), p.base))
    ensures handler.Counting? ==> p.counters.Values() == q.counters.Values() == TallyOf(p.trace)
  {
    p := new PathWalker.Walker(root, cwd, handler, initial);
    ret := p.MyFtw(pathname);
    q := new ChdirWalker.Walker(root, cwd, handler);
    myRet := q.MyMyFtw(pathname);
  }

  // ----- the preorder shows every reachable node once

  /** There is a way from the node down these names through directories that can be opened. */
  ghost predicate Reachable(node: Node, down: Pos)
    decreases down
  {
    down == [] ||
      (node.Dir? && node.readable && down[0] != "." && down[0] != ".." && Lookup(node.entries, down[0]).Some?
        && Reachable(Lookup(node.entries, down[0]).value, down[1..]))
  }

  /** The node that these names lead to. */
  ghost function Descend(node: Node, down: Pos): Node
    requires Reachable(node, down)
    decreases down
  {
    if down == [] then node else Descend(Lookup(node.entries, down[0]).value, down[1..])
  }

  /** The visit tells what the node is: the kind of a file, a directory, one that cannot be opened, or that it
      cannot be examined. Only for files does the kind mean anything. */
  predicate Tells(v: Visit, node: Node) {
    match v.typ
    case FTW_F => node == File(v.kind)
    case FTW_D => node.Dir? && v.kind.Odd?
    case FTW_DNR => node.Dir? && !node.readable && v.kind.Odd?
    case FTW_NS => node.NoStat? && v.kind.Odd?
  }

  /** The position of a visit lies below the start of the walk by these names. */
  lemma {:induction false} PreorderBelow(node: Node, at: Pos, v: Visit)
    requires v in Preorder(node, at)
    ensures at <= v.at
    decreases node, 0
  {
    if node.Dir? && node.readable && v in PreorderAll(node.entries, at) {
      var k := EntryOf(node.entries, at, v);
      PreorderBelow(node.entries[k].node, at + [node.entries[k].name], v);
    }
  }

  /** The entry that a visit below a directory comes from. */
  lemma {:induction false} EntryOf(entries: seq<Entry>, at: Pos, v: Visit) returns (k: nat)
    requires v in PreorderAll(entries, at)
    ensures k < |entries| && !IsDots(entries[k].name)
    ensures v in Preorder(entries[k].node, at + [entries[k].name])
  {
    hide Preorder;
    if !IsDots(entries[0].name) && v in Preorder(entries[0].node, at + [entries[0].name]) {
      k := 0;
    } else {
      assert v in PreorderAll(entries[1..], at);
      var rest := EntryOf(entries[1..], at, v);
      k := rest + 1;
    }
  }

  lemma {:induction false} EntryShown(entries: seq<Entry>, at: Pos, k: nat, v: Visit)
    requires k < |entries| && !IsDots(entries[k].name)
    requires v in Preorder(entries[k].node, at + [entries[k].name])
    ensures v in PreorderAll(entries, at)
  {
    if k != 0 {
      EntryShown(entries[1..], at, k - 1, v);
    }
  }

  lemma {:induction false} LookupIndex(entries: seq<Entry>, name: string) returns (k: nat)
    requires Lookup(entries, name).Some?
    ensures k < |entries| && entries[k] == Entry(name, Lookup(entries, name).value)
  {
    if entries[0].name == name {
      k := 0;
    } else {
      var rest := LookupIndex(entries[1..], name);
      k := rest + 1;
    }
  }

  /** A node is shown for what it is, and nothing is shown that cannot be reached. */
  lemma {:induction false} ShownIsReachable(node: Node, at: Pos, v: Visit)
    requires WellFormed(node) && v in Preorder(node, at)
    ensures at <= v.at && Reachable(node, v.at[|at|..]) && Tells(v, Descend(node, v.at[|at|..]))
    decreases node
  {
    if v.at == at && Tells(v, node) {
      assert at[|at|..] == [];
    } else {
      var k := EntryOf(node.entries, at, v);
      var e := node.entries[k];
      EntryFacts(node, k);
      ShownIsReachable(e.node, at + [e.name], v);
      var down := v.at[|at|..];
      assert down[0] == (at + [e.name])[|at|] == e.name;
      assert down[1..] == v.at[|at + [e.name]|..];
    }
  }

  /** Everything that can be reached is shown. */
  lemma {:induction false} ReachableIsShown(node: Node, at: Pos, down: Pos, v: Visit)
    requires WellFormed(node) && Reachable(node, down) && v.at == at + down && Tells(v, Descend(node, down))
    ensures v in Preorder(node, at)
    decreases node
  {
    if down == [] {
      assert at + [] == at;
    } else {
      var k := LookupIndex(node.entries, down[0]);
      var e := node.entries[k];
      EntryFacts(node, k);
      assert at + down == at + [e.name] + down[1..];
      ReachableIsShown(e.node, at + [e.name], down[1..], v);
      EntryShown(node.entries, at, k, v);
    }
  }

  /** The handler is shown exactly the nodes that can be reached, each for what it is. */
  lemma ShownIffReachable(node: Node, at: Pos, v: Visit)
    requires WellFormed(node)
    ensures
      v in Preorder(node, at) <==>
        at <= v.at && Reachable(node, v.at[|at|..]) && Tells(v, Descend(node, v.at[|at|..]))
  {
    if v in Preorder(node, at) {
      ShownIsReachable(node, at, v);
    }
    if at <= v.at && Reachable(node, v.at[|at|..]) && Tells(v, Descend(node, v.at[|at|..])) {
      assert at + v.at[|at|..] == v.at;
      ReachableIsShown(node, at, v.at[|at|..], v);
    }
  }

  // ----- the order of the preorder

  /** From the node, the names x lead to something that comes before what the names y lead to: to a directory
      above it, or into an entry that readdir returns earlier. */
  ghost predicate Earlier(node: Node, x: Pos, y: Pos)
    decreases |x|
  {
    y != [] && (x == [] || (node.Dir? &&
      if x[0] == y[0] then
        Lookup(node.entries, x[0]).Some? && Earlier(Lookup(node.entries, x[0]).value, x[1..], y[1..])
      else
        exists i, j :: 0 <= i < j < |node.entries| && node.entries[i].name == x[0] && node.entries[j].name == y[0]))
  }

  ghost predicate InOrder(node: Node, at: Pos, v: Visit, w: Visit) {
    && at <= v.at && at <= w.at
    && (if v.at == w.at then v.typ.FTW_D? && w.typ.FTW_DNR? else Earlier(node, v.at[|at|..], w.at[|at|..]))
  }

  ghost predicate AllInOrder(node: Node, at: Pos, visits: seq<Visit>) {
    forall i, j | 0 <= i < j < |visits| :: InOrder(node, at, visits[i], visits[j])
  }

  lemma OrderConcat(node: Node, at: Pos, xs: seq<Visit>, ys: seq<Visit>)
    requires AllInOrder(node, at, xs) && AllInOrder(node, at, ys)
    requires forall x, y | x in xs && y in ys :: InOrder(node, at, x, y)
    ensures AllInOrder(node, at, xs + ys)
  {
    var zs := xs + ys;
    forall i, j | 0 <= i < j < |zs| ensures InOrder(node, at, zs[i], zs[j]) {
      assert i < |xs| ==> zs[i] in xs && xs[i] in xs;
      assert j >= |xs| ==> zs[j] in ys;
    }
  }

  /** Order below an entry is order below the directory. */
  lemma OrderBelow(node: Node, at: Pos, k: nat, v: Visit, w: Visit)
    requires node.Dir? && WellFormed(node) && k < |node.entries| && !IsDots(node.entries[k].name)
    requires InOrder(node.entries[k].node, at + [node.entries[k].name], v, w)
    ensures InOrder(node, at, v, w)
  {
    var name := node.entries[k].name;
    EntryFacts(node, k);
    assert (at + [name])[..|at|] == at && v.at[..|at + [name]|][..|at|] == at;
    assert v.at[|at|] == (at + [name])[|at|] == name && w.at[|at|] == (at + [name])[|at|] == name;
    assert v.at[|at|..][1..] == v.at[|at + [name]|..] && w.at[|at|..][1..] == w.at[|at + [name]|..];
  }

  /** Entries are shown one after the other. */
  lemma OrderAcross(node: Node, at: Pos, k: nat, v: Visit, w: Visit)
    requires node.Dir? && WellFormed(node) && k < |node.entries| && !IsDots(node.entries[k].name)
    requires v in Preorder(node.entries[k].node, at + [node.entries[k].name])
    requires w in PreorderAll(node.entries[k + 1..], at)
    ensures InOrder(node, at, v, w)
  {
    var e := node.entries[k];
    PreorderBelow(e.node, at + [e.name], v);
    var m := EntryOf(node.entries[k + 1..], at, w);
    var f := node.entries[k + 1..][m];
    assert f == node.entries[k + 1 + m];
    PreorderBelow(f.node, at + [f.name], w);
    assert v.at[|at|] == (at + [e.name])[|at|] == e.name && w.at[|at|] == (at + [f.name])[|at|] == f.name;
    assert v.at[|at|..][0] == e.name != f.name == w.at[|at|..][0];
    assert at == (at + [e.name])[..|at|] == v.at[..|at|] && at == (at + [f.name])[..|at|] == w.at[..|at|];
  }

  /** The preorder: a directory before what is in it, entries in the order of readdir. Together with what is
      shown, this fixes the list of visits. */
  lemma {:induction false} PreorderInOrder(node: Node, at: Pos)
    requires WellFormed(node)
    ensures AllInOrder(node, at, Preorder(node, at))
    decreases node, 1, 0
  {
    if node.Dir? && node.readable {
      EntriesInOrder(node, at, 0);
      assert node.entries[0..] == node.entries;
      forall y | y in PreorderAll(node.entries, at) ensures InOrder(node, at, OtherVisit(at, FTW_D), y) {
        DirectoryFirst(node, at, y);
      }
      OrderConcat(node, at, [OtherVisit(at, FTW_D)], PreorderAll(node.entries, at));
    }
  }

  lemma DirectoryFirst(node: Node, at: Pos, y: Visit)
    requires node.Dir? && y in PreorderAll(node.entries, at)
    ensures InOrder(node, at, OtherVisit(at, FTW_D), y)
  {
    var k := EntryOf(node.entries, at, y);
    var name := node.entries[k].name;
    PreorderBelow(node.entries[k].node, at + [name], y);
    assert at == (at + [name])[..|at|] == y.at[..|at|];
    assert |y.at| > |at| && at[|at|..] == [];
  }

  lemma {:induction false} EntriesInOrder(node: Node, at: Pos, k: nat)
    requires node.Dir? && WellFormed(node) && k <= |node.entries|
    ensures AllInOrder(node, at, PreorderAll(node.entries[k..], at))
    decreases node, 0, |node.entries| - k
  {
    hide Preorder, InOrder, WellFormed;
    if k < |node.entries| {
      var e := node.entries[k];
      assert node.entries[k..][0] == e && node.entries[k..][1..] == node.entries[k + 1..];
      EntriesInOrder(node, at, k + 1);
      var xs, ys := EntryVisits(e, at), PreorderAll(node.entries[k + 1..], at);
      assert PreorderAll(node.entries[k..], at) == xs + ys;
      if !IsDots(e.name) {
        EntryFacts(node, k);
        PreorderInOrder(e.node, at + [e.name]);
        forall i, j | 0 <= i < j < |xs| ensures InOrder(node, at, xs[i], xs[j]) {
          OrderBelow(node, at, k, xs[i], xs[j]);
        }
        forall x, y | x in xs && y in ys ensures InOrder(node, at, x, y) {
          OrderAcross(node, at, k, x, y);
        }
      }
      OrderConcat(node, at, xs, ys);
    }
  }

  /** What comes later is not above: it goes on, or turns off, at some place d. */
  lemma {:induction false} EarlierParts(node: Node, x: Pos, y: Pos) returns (d: nat)
    requires Earlier(node, x, y)
    ensures d < |y| && (d == |x| || (d < |x| && x[d] != y[d]))
    decreases |x|
  {
    if x != [] && x[0] == y[0] {
      var rest := EarlierParts(Lookup(node.entries, x[0]).value, x[1..], y[1..]);
      d := rest + 1;
    } else {
      d := 0;
    }
  }

  /** Two visits of one position are the announcement of a directory and that it cannot be opened, and no
      directory is shown after something below it. */
  lemma PreorderOnce(node: Node, at: Pos)
    requires WellFormed(node)
    ensures var visits := Preorder(node, at);
      forall i, j | 0 <= i < j < |visits| ::
        && !(visits[j].at < visits[i].at)
        && (visits[i].at == visits[j].at ==> visits[i].typ.FTW_D? && visits[j].typ.FTW_DNR?)
  {
    hide Preorder;
    PreorderInOrder(node, at);
    var visits := Preorder(node, at);
    forall i, j | 0 <= i < j < |visits| && visits[i].at != visits[j].at ensures !(visits[j].at < visits[i].at) {
      assert InOrder(node, at, visits[i], visits[j]);
      var x, y := visits[i].at[|at|..], visits[j].at[|at|..];
      var d := EarlierParts(node, x, y);
      assert y[d] == visits[j].at[|at| + d] && (d < |x| ==> x[d] == visits[i].at[|at| + d]);
    }
  }

  // ----- the counters

  function Add(a: Tally, b: Tally): Tally {
    Tally(a.reg + b.reg, a.dir + b.dir, a.blk + b.blk, a.chr + b.chr, a.fifo + b.fifo, a.link + b.link, a.sock + b.sock)
  }

  function Sum(t: Tally): int {
    t.reg + t.dir + t.blk + t.chr + t.fifo + t.link + t.sock
  }

  /** The files of this kind in the tree, and its directories. */
  function Files(node: Node, kind: Kind): nat {
    match node
    case NoStat => 0
    case File(k) => if k == kind then 1 else 0
    case Dir(_, entries) => FilesAll(entries, kind)
  }

  function FilesAll(entries: seq<Entry>, kind: Kind): nat {
    if entries == [] then 0 else
      (if IsDots(entries[0].name) then 0 else Files(entries[0].node, kind)) + FilesAll(entries[1..], kind)
  }

  function Dirs(node: Node): nat {
    if node.Dir? then 1 + DirsAll(node.entries) else 0
  }

  function DirsAll(entries: seq<Entry>): nat {
    if entries == [] then 0 else
      (if IsDots(entries[0].name) then 0 else Dirs(entries[0].node)) + DirsAll(entries[1..])
  }

  /** What the counters should say after a complete walk. */
  function Census(node: Node): Tally {
    Tally(reg := Files(node, Reg), dir := Dirs(node), blk := Files(node, Blk), chr := Files(node, Chr),
          fifo := Files(node, Fifo), link := Files(node, Link), sock := Files(node, Sock))
  }

  function CensusAll(entries: seq<Entry>): Tally {
    Tally(reg := FilesAll(entries, Reg), dir := DirsAll(entries), blk := FilesAll(entries, Blk),
          chr := FilesAll(entries, Chr), fifo := FilesAll(entries, Fifo), link := FilesAll(entries, Link),
          sock := FilesAll(entries, Sock))
  }

  lemma CensusOfDir(node: Node)
    requires node.Dir?
    ensures Census(node) == Add(ZERO_TALLY.(dir := 1), CensusAll(node.entries))
  {
    hide FilesAll, DirsAll;
  }

  lemma FilesOfEntries(entries: seq<Entry>, kind: Kind)
    ensures
      FilesAll(entries, kind) ==
        if entries == [] then 0
        else (if IsDots(entries[0].name) then 0 else Files(entries[0].node, kind)) + FilesAll(entries[1..], kind)
  {
    hide Files;
  }

  lemma CensusOfEntries(entries: seq<Entry>)
    ensures
      CensusAll(entries) ==
        if entries == [] then ZERO_TALLY
        else Add(if IsDots(entries[0].name) then ZERO_TALLY else Census(entries[0].node), CensusAll(entries[1..]))
  {
    hide Files, FilesAll, Dirs;
    FilesOfEntries(entries, Reg);
    FilesOfEntries(entries, Blk);
    FilesOfEntries(entries, Chr);
    FilesOfEntries(entries, Fifo);
    FilesOfEntries(entries, Link);
    FilesOfEntries(entries, Sock);
  }

  /** All nodes of the tree. */
  function Size(node: Node): nat {
    if node.Dir? then 1 + SizeAll(node.entries) else 1
  }

  function SizeAll(entries: seq<Entry>): nat {
    if entries == [] then 0 else
      (if IsDots(entries[0].name) then 0 else Size(entries[0].node)) + SizeAll(entries[1..])
  }

  /** Everything in the tree can be examined. */
  predicate Clean(node: Node) {
    match node
    case NoStat => false
    case File(_) => true
    case Dir(readable, entries) => readable && CleanAll(entries)
  }

  predicate CleanAll(entries: seq<Entry>) {
    entries == [] || ((IsDots(entries[0].name) || Clean(entries[0].node)) && CleanAll(entries[1..]))
  }

  lemma {:induction false} CensusSum(node: Node)
    requires Clean(node)
    ensures Sum(Census(node)) + Files(node, Odd) == Size(node)
    decreases node, 1
  {
    if node.Dir? {
      hide Census, CensusAll, FilesAll, SizeAll, CleanAll;
      CensusSumAll(node.entries);
      CensusOfDir(node);
    }
  }

  lemma {:induction false} CensusSumAll(entries: seq<Entry>)
    requires CleanAll(entries)
    ensures Sum(CensusAll(entries)) + FilesAll(entries, Odd) == SizeAll(entries)
    decreases entries, 0
  {
    hide Census, CensusAll, Files, FilesAll, Size, Clean;
    CensusOfEntries(entries);
    FilesOfEntries(entries, Odd);
    if entries != [] {
      if !IsDots(entries[0].name) {
        CensusSum(entries[0].node);
      }
      CensusSumAll(entries[1..]);
    }
  }

  /** Feeding a tree to the counting handler: it goes to the end exactly if the tree is clean, and then
      the counters have grown by its census. */
  lemma {:induction false} CountingFeed(node: Node, at: Pos, trace: seq<Visit>)
    ensures var (shown, ret) := Feed(Counting, trace, Preorder(node, at));
      && ret == (if Clean(node) then 0 else -1)
      && (ret == 0 ==> TallyOf(shown) == Add(TallyOf(trace), Census(node)))
    decreases node, 1
  {
    if node.Dir? {
      hide Preorder, PreorderAll, Feed, TallyOf, Census, CensusAll, Clean, CleanAll, Add, Bump;
      if node.readable {
        CountingFeedAll(node.entries, at, trace + [OtherVisit(at, FTW_D)]);
      }
      CountingDirectory(node, at, trace);
    } else {
      CountingLeaf(node, at, trace);
    }
  }

  /** From the entries of a readable directory to the directory. */
  lemma CountingDirectory(node: Node, at: Pos, trace: seq<Visit>)
    requires node.Dir?
    requires node.readable ==>
      var below := trace + [OtherVisit(at, FTW_D)];
      var (shown, ret) := Feed(Counting, below, PreorderAll(node.entries, at));
      && ret == (if CleanAll(node.entries) then 0 else -1)
      && (ret == 0 ==> TallyOf(shown) == Add(TallyOf(below), CensusAll(node.entries)))
    ensures var (shown, ret) := Feed(Counting, trace, Preorder(node, at));
      && ret == (if Clean(node) then 0 else -1)
      && (ret == 0 ==> TallyOf(shown) == Add(TallyOf(trace), Census(node)))
  {
    hide Preorder, PreorderAll, Feed, TallyOf, Census, CensusAll, CleanAll;
    CensusOfDir(node);
    TallyOfAppend(trace, OtherVisit(at, FTW_D));
    FeedDirectory(Counting, trace, node, at);
    FeedOne(Counting, trace + [OtherVisit(at, FTW_D)], OtherVisit(at, FTW_DNR));
  }

  lemma CountingLeaf(node: Node, at: Pos, trace: seq<Visit>)
    requires !node.Dir?
    ensures var (shown, ret) := Feed(Counting, trace, Preorder(node, at));
      && ret == (if Clean(node) then 0 else -1)
      && (ret == 0 ==> TallyOf(shown) == Add(TallyOf(trace), Census(node)))
  {
    hide Feed, TallyOf;
    var v := Preorder(node, at)[0];
    assert Preorder(node, at) == [v];
    TallyOfAppend(trace, v);
    FeedOne(Counting, trace, v);
  }

  lemma {:induction false} CountingFeedAll(entries: seq<Entry>, at: Pos, trace: seq<Visit>)
    ensures var (shown, ret) := Feed(Counting, trace, PreorderAll(entries, at));
      && ret == (if CleanAll(entries) then 0 else -1)
      && (ret == 0 ==> TallyOf(shown) == Add(TallyOf(trace), CensusAll(entries)))
    decreases entries, 0
  {
    hide Preorder, PreorderAll, Feed, TallyOf, Census, CensusAll;
    CensusOfEntries(entries);
    FeedNone(Counting, trace, entries, at);
    if entries == [] {
      assert entries[|entries|..] == entries;
    } else {
      FeedEntry(Counting, trace, entries, 0, at);
      if !IsDots(entries[0].name) {
        CountingFeed(entries[0].node, at + [entries[0].name], trace);
      }
      var (shown, ret) := Feed(Counting, trace, EntryVisits(entries[0], at));
      CountingFeedAll(entries[1..], at, shown);
    }
  }

  lemma AddToStart(t: Tally)
    ensures Add(TallyOf([]), t) == t
  {
  }

  /** A counting walk returns 0 exactly if everything could be examined; then each counter is the number of
      nodes of its kind, and all nodes are counted except those of no named kind. */
  lemma CompleteWalkCounts(node: Node, at: Pos)
    ensures var (trace, ret) := Feed(Counting, [], Preorder(node, at));
      && ret == (if Clean(node) then 0 else -1)
      && (ret == 0 ==> TallyOf(trace) == Census(node) && Sum(TallyOf(trace)) + Files(node, Odd) == Size(node))
  {
    hide *;
    AddToStart(Census(node));
    CountingFeed(node, at, []);
    if Clean(node) {
      CensusSum(node);
    }
  }

  /** What `main` does with the counting handlers: both walks report the same, return 0 exactly if everything
      could be examined, and have then counted every node, except those of no named kind, under its kind. */
  method CountBoth(root: Node, cwd: Pos, initial: nat, pathname: string)
    returns (ret: int, counts: Tally, myRet: int, myCounts: Tally)
    requires initial > NAME_MAX && '\0' !in pathname && WellFormed(Lstat(root, cwd, pathname))
    ensures ret == myRet && counts == myCounts
    ensures
      var node := Lstat(root, cwd, pathname);
      && ret == (if Clean(node) then 0 else -1)
      && (ret == 0 ==> counts == Census(node) && Sum(counts) + Files(node, Odd) == Size(node))
  {
    hide *;
    var p, q;
    p, q, ret, myRet := RunBoth(root, cwd, Counting, initial, pathname);
    counts, myCounts := p.counters.Values(), q.counters.Values();
    CompleteWalkCounts(Lstat(root, cwd, pathname), p.base);
  }
}
