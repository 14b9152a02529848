/** `my_myftw` and `mydopath` of 1/catalog/main.c: the walk that moves the current directory and uses bare names. */
module ChdirWalker {
  import opened FileTree
  import opened WalkSpec

  /** What one call of the handler was given, and where the process stood. */
  datatype Call = Call(filename: string, cwd: Pos, depth: nat)

  /** A node below the start is shown under its own name, from its own directory, at its own level. */
  ghost predicate CallOf(call: Call, start: string, base: Pos, v: Visit) {
    && base <= v.at && call.depth == |v.at| - |base|
    && if v.at == base then call.filename == start
       else call.filename == v.at[|v.at| - 1] && call.cwd == Parent(v.at)
  }

  ghost predicate Announced(trace: seq<Visit>, calls: seq<Call>, start: string, base: Pos) {
    |calls| == |trace| && forall k | 0 <= k < |trace| :: CallOf(calls[k], start, base, trace[k])
  }

  /** The walk goes into the directory: the handler did not object to it and it can be opened. */
  predicate Entered(h: Handler, trace: seq<Visit>, node: Node, at: Pos) {
    node.Dir? && node.readable && Verdict(h, trace + [OtherVisit(at, FTW_D)]) == 0
  }

  /** Where the walk from a pathname leaves the process. */
  function EndOf(h: Handler, root: Node, cwd: Pos, filename: string): Pos {
    var at := Place(root, cwd, filename);
    if Entered(h, [], Lstat(root, cwd, filename), at) then Parent(at) else cwd
  }

  class Walker {
    const root: Node
    const handler: Handler
    const counters: Counters
    var cwd: Pos
    var trace: seq<Visit>          // what the handler was shown
    ghost var calls: seq<Call>     // how it was called
    ghost var start: string        // the pathname of the walk
    ghost var base: Pos            // the position it names

    ghost predicate Valid()
      reads this, counters
    {
      && Announced(trace, calls, start, base)
      && (handler.Counting? ==> counters.Values() == TallyOf(trace))
    }

    constructor (root: Node, cwd: Pos, handler: Handler)
      ensures Valid() && fresh(counters)
      ensures this.root == root && this.cwd == cwd && this.handler == handler
      ensures trace == [] && counters.Values() == ZERO_TALLY
    {
      this.root, this.cwd, this.handler := root, cwd, handler;
      counters := new Counters();
      trace, calls, start, base := [], [], "", [];
    }

    method Show(v: Visit, filename: string, depth: nat) returns (ret: int)
      requires Valid() && CallOf(Call(filename, cwd, depth), start, base, v)
      modifies this`trace, this`calls, counters
      ensures Valid() && trace == old(trace) + [v]
      ensures ret == Verdict(handler, trace)
    {
      TallyOfAppend(trace, v);
      trace := trace + [v];
      calls := calls + [Call(filename, cwd, depth)];
      match handler
      case Counting => ret := counters.Handle(v);
      case Custom(f) => ret := f(trace);
    }

    /** The walk from a name in the current directory. */
    method MyDoPath(filename: string, depth: nat, ghost at: Pos, ghost node: Node) returns (ret: int)
      requires Valid() && WellFormed(node)
      requires Place(root, cwd, filename) == at && Lstat(root, cwd, filename) == node
      requires forall typ: FtwType, kind: Kind :: CallOf(Call(filename, cwd, depth), start, base, Visit(at, typ, kind))
      modifies this`cwd, this`trace, this`calls, counters
      ensures Valid()
      ensures (trace, ret) == Feed(handler, old(trace), Preorder(node, at))
      ensures cwd == if Entered(handler, old(trace), node, at) then Parent(at) else old(cwd)
      decreases node
    {
      hide Lstat, Place, WellFormed;
      var place, statbuf := Place(root, cwd, filename), Lstat(root, cwd, filename);
      match statbuf {
        case NoStat =>
          FeedOne(handler, trace, OtherVisit(place, FTW_NS));
          ret := Show(OtherVisit(place, FTW_NS), filename, depth);
          return;
        case File(kind) =>
          FeedOne(handler, trace, FileVisit(place, kind));
          ret := Show(FileVisit(place, kind), filename, depth);
          return;
        case Dir(_, _) =>
      }
      FeedDirectory(handler, trace, node, at);
      ret := Show(OtherVisit(place, FTW_D), filename, depth);
      if ret != 0 {
        return;
      }
      if !statbuf.readable {
        FeedOne(handler, trace, OtherVisit(at, FTW_DNR));
        ret := Show(OtherVisit(place, FTW_DNR), filename, depth);
        return;
      }
      LstatAt(root, cwd, filename);
      cwd := place;
      ret := WalkEntries(statbuf.entries, depth, at, node);
      cwd := Parent(cwd);
    }

    /** The readdir loop, standing in the directory. */
    method WalkEntries(entries: seq<Entry>, depth: nat, ghost at: Pos, ghost node: Node) returns (ret: int)
      requires Valid() && WellFormed(node) && node == Dir(true, entries)
      requires cwd == at && At(root, at) == Some(node) && base <= at && depth == |at| - |base|
      modifies this`cwd, this`trace, this`calls, counters
      ensures Valid() && cwd == at
      ensures (trace, ret) == Feed(handler, old(trace), PreorderAll(entries, at))
      decreases entries
    {
      hide At, Lstat, Place, WellFormed, Preorder, PreorderAll, Feed;
      ret := 0;
      var k := 0;
      FeedNone(handler, trace, entries, at);
      while k < |entries| && ret == 0
        invariant 0 <= k <= |entries| && Valid() && cwd == at
        invariant
          Feed(handler, old(trace), PreorderAll(entries, at)) ==
            if ret != 0 then (trace, ret) else Feed(handler, trace, PreorderAll(entries[k..], at))
      {
        var name := entries[k].name;
        FeedEntry(handler, trace, entries, k, at);
        if !IsDots(name) {
          EntryFacts(node, k);
          LstatName(root, at, k);
          assert Parent(at + [name]) == at && base <= at + [name] && base != at + [name];
          ret := MyDoPath(name, depth + 1, at + [name], entries[k].node);
        }
        k := k + 1;
      }
      FeedNone(handler, trace, entries, at);
    }

    /** The whole walk from a pathname. */
    method MyMyFtw(filename: string) returns (ret: int)
      requires Valid() && trace == [] && counters.Values() == ZERO_TALLY
      requires WellFormed(Lstat(root, cwd, filename))
      modifies this, counters
      ensures Valid() && start == filename && base == Place(root, old(cwd), filename)
      ensures
        var node, at := Lstat(root, old(cwd), filename), Place(root, old(cwd), filename);
        (trace, ret) == Feed(handler, [], Preorder(node, at))
      ensures cwd == EndOf(handler, root, old(cwd), filename)
      ensures |calls| == |trace|
      ensures
        forall k | 0 <= k < |trace| ::
          var call, v := calls[k], trace[k];
          && base <= v.at && call.depth == |v.at| - |base|
          && (v.at == base ==> call.filename == filename)
          && (v.at != base ==> call.filename == v.at[|v.at| - 1] && call.cwd == v.at[..|v.at| - 1])
    {
      start, base, calls := filename, Place(root, cwd, filename), [];
      ret := MyDoPath(filename, 0, base, Lstat(root, cwd, filename));
    }
  }

  // ----- does the walk come back?

  /** Spelled out from the current directory, the pathname names an entry of it (or the root, from the root). */
  predicate NamesEntry(cwd: Pos, filename: string) {
    var from := if filename != "" && filename[0] == '/' then [] else cwd;
    Parent(Lexical(from, Components(filename))) == cwd
  }

  /** A walk from any pathname with any handler comes back to where it started exactly if it did not enter a
      directory or the pathname names an entry of the current directory: the final step to ".." goes to the
      parent of what was named. */
  lemma ReturnsExactly(h: Handler, root: Node, cwd: Pos, filename: string)
    ensures EndOf(h, root, cwd, filename) == cwd <==>
              !Entered(h, [], Lstat(root, cwd, filename), Place(root, cwd, filename)) || NamesEntry(cwd, filename)
  {
    hide Follow, Lexical, Components;
    if Lstat(root, cwd, filename).Dir? {
      FollowLexical(root, if filename[0] == '/' then [] else cwd, Components(filename));
    }
  }

  /** A relative pathname without dots names an entry exactly if it has one component. */
  lemma PlainNamesEntry(cwd: Pos, filename: string)
    requires filename != "" && filename[0] != '/'
    requires forall name | name in Components(filename) :: !IsDots(name)
    ensures NamesEntry(cwd, filename) <==> |Components(filename)| == 1
  {
    var names := Components(filename);
    LexicalPlain(cwd, names);
    RelativeHasComponent(filename);
    if |names| == 1 {
      assert (cwd + names)[..|cwd|] == cwd;
    }
  }

  /** An absolute one, exactly if all but its last component spell the current directory; a pathname of slashes,
      exactly in the root. */
  lemma AbsoluteNamesEntry(cwd: Pos, filename: string)
    requires filename != "" && filename[0] == '/'
    requires forall name | name in Components(filename) :: !IsDots(name)
    ensures
      var names := Components(filename);
      NamesEntry(cwd, filename) <==> cwd == if names == [] then [] else names[..|names| - 1]
  {
    var names := Components(filename);
    LexicalPlain([], names);
    assert [] + names == names;
  }

  /** "." and "..", with any slashes after them, exactly in the root. */
  lemma DotsNameEntry(cwd: Pos, filename: string, dots: string)
    requires filename != "" && filename[0] != '/'
    requires IsDots(dots) && Components(filename) == [dots]
    ensures NamesEntry(cwd, filename) <==> cwd == []
  {
    hide Components;
    assert [dots][..0] == [];
    assert Lexical(cwd, []) == cwd;
  }

  lemma {:induction false} RelativeHasComponent(path: string)
    requires path != "" && path[0] != '/'
    ensures Split(path) != ([], "") && Components(path) != []
  {
    if |path| > 1 {
      RelativeHasComponent(path[..|path| - 1]);
    } else {
      assert path[..0] == "";
    }
  }

  /** A directory `a` with a directory `b` in it. */
  const TWO_LEVELS: Node := Dir(true, [Entry("a", Dir(true, [Entry("b", Dir(true, []))]))])

  /** The walk from `a/b` goes through and leaves the process in `a`, not in the root where it started. */
  method WalkEndsElsewhere() returns (ret: int, end: Pos)
    ensures ret == 0 && end == ["a"]
  {
    var walker := new Walker(TWO_LEVELS, [], Counting);
    TwoLevelsAt();
    ret := walker.MyMyFtw("a/b");
    end := walker.cwd;
  }

  lemma TwoLevelsAt()
    ensures Place(TWO_LEVELS, [], "a/b") == ["a", "b"] && Lstat(TWO_LEVELS, [], "a/b") == Dir(true, [])
  {
    ResolveName(TWO_LEVELS, [], "a");
    ResolveBelow(TWO_LEVELS, [], "a", "b");
    assert "a" + "/" + "b" == "a/b";
    assert [] + ["a"] == ["a"] && ["a"] + ["b"] == ["a", "b"];
  }
}
