/** `myftw` and `dopath` of 1/catalog/main.c: the walk that keeps the whole path in one growable buffer and
    edits it in place. */
module PathWalker {
  import opened FileTree
  import opened WalkSpec

  function Slashed(names: seq<string>): string {
    if names == [] then "" else Slashed(names[..|names| - 1]) + "/" + names[|names| - 1]
  }

  /** The path of a node at or below the starting point, as it is spelled from the starting pathname. */
  function Spell(start: string, base: Pos, at: Pos): string
    requires base <= at
  {
    start + Slashed(at[|base|..])
  }

  lemma SpellStart(start: string, base: Pos)
    ensures Spell(start, base, base) == start
  {
  }

  lemma SpellBelow(start: string, base: Pos, at: Pos, name: string)
    requires base <= at
    ensures Spell(start, base, at + [name]) == Spell(start, base, at) + "/" + name
  {
    var names := (at + [name])[|base|..];
    assert names == at[|base|..] + [name];
    assert names[..|names| - 1] == at[|base|..];
    assert start + (Slashed(at[|base|..]) + "/" + name) == start + Slashed(at[|base|..]) + "/" + name;
  }

  /** What the handler is passed as pathname: for a directory that cannot be opened, the slash is there. */
  ghost predicate PathOf(path: string, start: string, base: Pos, v: Visit) {
    && base <= v.at
    && path == Spell(start, base, v.at) + (if v.typ.FTW_DNR? then "/" else "")
  }

  /** Is there room for a slash, a name and the final NUL after n bytes? */
  predicate RoomFor(n: nat, size: nat) {
    n + NAME_MAX + 2 <= size
  }

  /** The size of the buffer after the test in `dopath`. */
  function Grown(n: nat, size: nat): nat {
    if n + NAME_MAX + 2 > size then 2 * size else size
  }

  /** One doubling makes room below every path that fits exactly if the buffer started above NAME_MAX; with
      a smaller one, a path that fills the buffer has no room for the longest name. */
  lemma DoublingSuffices(size: nat)
    requires size > 0
    ensures (forall n: nat | n < size :: RoomFor(n, Grown(n, size))) <==> size > NAME_MAX
  {
    assert size <= NAME_MAX ==> !RoomFor(size - 1, Grown(size - 1, size));
  }

  /** Every visit was announced under its path. */
  ghost predicate Announced(trace: seq<Visit>, paths: seq<string>, start: string, base: Pos) {
    |paths| == |trace| && forall k | 0 <= k < |trace| :: PathOf(paths[k], start, base, trace[k])
  }

  /** Only a directory that cannot be opened leaves its slash behind. */
  predicate SlashLeft(h: Handler, trace: seq<Visit>, node: Node, at: Pos) {
    node.Dir? && !node.readable && Verdict(h, trace + [OtherVisit(at, FTW_D)]) == 0
  }

  class Walker {
    const root: Node
    const cwd: Pos
    const handler: Handler
    const counters: Counters
    var fullpath: array<char>
    var pathlen: nat
    var trace: seq<Visit>           // what the handler was shown
    var paths: seq<string>          // the pathnames it was passed, as they stood in the buffer
    ghost var start: string         // the pathname of the walk
    ghost var base: Pos             // the position it names

    ghost predicate Valid()
      reads this, counters
    {
      && pathlen == fullpath.Length && pathlen > NAME_MAX
      && Announced(trace, paths, start, base)
      && (handler.Counting? ==> counters.Values() == TallyOf(trace))
    }

    /** The buffer holds s as a C string. */
    ghost predicate Holds(s: string)
      reads this, fullpath
    {
      |s| < fullpath.Length && fullpath[..|s|] == s && fullpath[|s|] == '\0' && '\0' !in s
    }

    /** `initial` is what path_alloc gets from the system. */
    constructor (root: Node, cwd: Pos, handler: Handler, initial: nat)
      requires initial > NAME_MAX
      ensures Valid() && fresh(fullpath) && fresh(counters)
      ensures this.root == root && this.cwd == cwd && this.handler == handler
      ensures trace == [] && counters.Values() == ZERO_TALLY
    {
      this.root, this.cwd, this.handler := root, cwd, handler;
      counters := new Counters();
      fullpath := new char[initial];
      pathlen := initial;
      trace, paths, start, base := [], [], "", [];
    }

    /** Call the handler with the buffer: what it is passed as pathname is the C string that is there now. */
    method Show(v: Visit, ghost s: string) returns (ret: int)
      requires Valid() && Holds(s) && PathOf(s, start, base, v)
      modifies this`trace, this`paths, counters
      ensures Valid() && trace == old(trace) + [v] && paths == old(paths) + [s]
      ensures ret == Verdict(handler, trace)
    {
      var n := StrLen(s);
      TallyOfAppend(trace, v);
      trace := trace + [v];
      paths := paths + [fullpath[..n]];
      match handler
      case Counting => ret := counters.Handle(v);
      case Custom(f) => ret := f(trace);
    }

    method StrLen(ghost s: string) returns (n: nat)
      requires Holds(s)
      ensures n == |s|
    {
      forall k | 0 <= k < |s| ensures fullpath[k] != '\0' {
        assert fullpath[k] == fullpath[..|s|][k] && s[k] in s;
      }
      n := 0;
      while fullpath[n] != '\0'
        invariant n <= |s|
        decreases |s| - n
      {
        n := n + 1;
      }
    }

    /** strcpy(&fullpath[n], name): every byte written is inside the buffer. */
    method StrCpy(n: nat, name: string)
      requires n + |name| < fullpath.Length
      modifies fullpath
      ensures fullpath[..n] == old(fullpath[..n])
      ensures fullpath[n..n + |name|] == name && fullpath[n + |name|] == '\0'
    {
      for k := 0 to |name|
        invariant fullpath[..n] == old(fullpath[..n])
        invariant fullpath[n..n + k] == name[..k]
      {
        fullpath[n + k] := name[k];
        assert fullpath[n..n + k + 1] == fullpath[n..n + k] + [name[k]];
        assert name[..k + 1] == name[..k] + [name[k]];
      }
      fullpath[n + |name|] := '\0';
      assert name[..|name|] == name;
    }

    /** Make room for a slash, a name and the final NUL after the first n bytes. One doubling is enough. */
    method Grow(n: nat, ghost s: string)
      requires Valid() && Holds(s) && n == |s|
      modifies this`fullpath, this`pathlen
      ensures Valid() && Holds(s) && RoomFor(n, pathlen)
      ensures fullpath == old(fullpath) || fresh(fullpath)
      ensures pathlen == Grown(n, old(pathlen))
    {
      if n + NAME_MAX + 2 > pathlen {
        pathlen := pathlen * 2;
        Realloc(pathlen);
        assert fullpath[..|s|] == old(fullpath[..|s|]);
      }
    }

    method Realloc(size: nat)
      requires size >= fullpath.Length
      modifies this`fullpath
      ensures fresh(fullpath) && fullpath.Length == size
      ensures fullpath[..old(fullpath.Length)] == old(fullpath[..])
    {
      var larger := new char[size];
      forall k | 0 <= k < fullpath.Length {
        larger[k] := fullpath[k];
      }
      fullpath := larger;
    }

    /** The walk from the node that the buffer names. */
    method DoPath(ghost s: string, ghost at: Pos, ghost node: Node) returns (ret: int)
      requires Valid() && Holds(s) && WellFormed(node)
      requires Place(root, cwd, s) == at && Lstat(root, cwd, s) == node
      requires base <= at && s == Spell(start, base, at)
      modifies this`fullpath, this`pathlen, this`trace, this`paths, fullpath, counters
      ensures Valid() && (fullpath == old(fullpath) || fresh(fullpath)) && pathlen >= old(pathlen)
      ensures (trace, ret) == Feed(handler, old(trace), Preorder(node, at))
      ensures fullpath[..|s|] == s
      ensures Holds(if SlashLeft(handler, old(trace), node, at) then s + "/" else s)
      decreases node, 1
    {
      var n := StrLen(s);
      var text := fullpath[..n];
      var place, statbuf := Place(root, cwd, text), Lstat(root, cwd, text);
      match statbuf {
        case NoStat =>
          FeedOne(handler, trace, OtherVisit(place, FTW_NS));
          ret := Show(OtherVisit(place, FTW_NS), s);
          return;
        case File(kind) =>
          FeedOne(handler, trace, FileVisit(place, kind));
          ret := Show(FileVisit(place, kind), s);
          return;
        case Dir(_, _) =>
      }
      ret := DoDirectory(n, s, at, node);
    }

    /** The rest of `dopath` once lstat has found a directory. */
    method DoDirectory(len: nat, ghost s: string, ghost at: Pos, ghost node: Node) returns (ret: int)
      requires Valid() && Holds(s) && len == |s| && WellFormed(node) && node.Dir?
      requires Place(root, cwd, s) == at && Lstat(root, cwd, s) == node
      requires base <= at && s == Spell(start, base, at)
      modifies this`fullpath, this`pathlen, this`trace, this`paths, fullpath, counters
      ensures Valid() && (fullpath == old(fullpath) || fresh(fullpath)) && pathlen >= old(pathlen)
      ensures (trace, ret) == Feed(handler, old(trace), Preorder(node, at))
      ensures fullpath[..|s|] == s
      ensures Holds(if SlashLeft(handler, old(trace), node, at) then s + "/" else s)
      decreases node, 0
    {
      hide Lstat, Place, Preorder, Feed, Spell, WellFormed;
      var place := Place(root, cwd, fullpath[..len]);
      FeedDirectory(handler, trace, node, at);
      ret := Show(OtherVisit(place, FTW_D), s);
      if ret != 0 {
        return;
      }
      AddSlash(len, s);
      var n := len + 1;
      LstatSlash(root, cwd, s);
      var dir := Lstat(root, cwd, fullpath[..n]);
      if dir.readable {
        ret := WalkEntries(n, dir.entries, s, at, node);
        CutSlash(n, s);
      } else {
        FeedOne(handler, trace, OtherVisit(at, FTW_DNR));
        ret := Show(OtherVisit(place, FTW_DNR), s + "/");
        assert fullpath[..|s|] == (s + "/")[..|s|] == s;
      }
    }

    method AddSlash(n: nat, ghost s: string)
      requires Valid() && Holds(s) && n == |s|
      modifies this`fullpath, this`pathlen, fullpath
      ensures Valid() && Holds(s + "/") && pathlen >= n + NAME_MAX + 2 && pathlen >= old(pathlen)
      ensures fullpath == old(fullpath) || fresh(fullpath)
    {
      Grow(n, s);
      fullpath[n] := '/';
      fullpath[n + 1] := '\0';
      assert fullpath[..n + 1] == fullpath[..n] + ['/'];
    }

    /** Erase everything from the slash on. */
    method CutSlash(n: nat, ghost s: string)
      requires n == |s| + 1 && n <= fullpath.Length && fullpath[..n] == s + "/" && '\0' !in s
      modifies fullpath
      ensures Holds(s)
    {
      assert fullpath[..|s|] == fullpath[..n][..|s|] == s;
      fullpath[n - 1] := '\0';
    }

    /** The readdir loop of an opened directory; the buffer ends with the slash at n - 1. */
    method WalkEntries(n: nat, entries: seq<Entry>, ghost s: string, ghost at: Pos, ghost node: Node) returns (ret: int)
      requires Valid() && WellFormed(node) && node == Dir(true, entries)
      requires n == |s| + 1 && pathlen >= n + NAME_MAX + 1 && fullpath[..n] == s + "/" && '\0' !in s
      requires Place(root, cwd, s) == at && Lstat(root, cwd, s) == node
      requires base <= at && s == Spell(start, base, at)
      modifies this`fullpath, this`pathlen, this`trace, this`paths, fullpath, counters
      ensures Valid() && (fullpath == old(fullpath) || fresh(fullpath)) && pathlen >= old(pathlen)
      ensures (trace, ret) == Feed(handler, old(trace), PreorderAll(entries, at))
      ensures fullpath[..n] == s + "/"
      decreases entries, 1
    {
      hide Lstat, Place, WellFormed, Spell, Preorder, PreorderAll, EntryVisits, Feed;
      ret := 0;
      var k := 0;
      FeedNone(handler, trace, entries, at);
      while k < |entries|
        invariant 0 <= k <= |entries| && ret == 0
        invariant Valid() && (fullpath == old(fullpath) || fresh(fullpath)) && pathlen >= old(pathlen)
        invariant fullpath[..n] == s + "/"
        invariant
          Feed(handler, old(trace), PreorderAll(entries, at)) == Feed(handler, trace, PreorderAll(entries[k..], at))
      {
        FeedEntry(handler, trace, entries, k, at);
        if !IsDots(entries[k].name) {
          ret := WalkEntry(n, entries[k].name, k, entries, s, at, node);
          if ret != 0 {
            return;
          }
        }
        k := k + 1;
      }
      FeedNone(handler, trace, entries, at);
    }

    /** Put the name of an entry after the slash and walk from there. */
    method WalkEntry(n: nat, name: string, ghost k: nat, ghost entries: seq<Entry>, ghost s: string, ghost at: Pos,
                     ghost node: Node)
      returns (ret: int)
      requires Valid() && WellFormed(node) && node == Dir(true, entries)
      requires k < |entries| && name == entries[k].name && !IsDots(name)
      requires n == |s| + 1 && pathlen >= n + NAME_MAX + 1 && fullpath[..n] == s + "/" && '\0' !in s
      requires Place(root, cwd, s) == at && Lstat(root, cwd, s) == node
      requires base <= at && s == Spell(start, base, at)
      modifies this`fullpath, this`pathlen, this`trace, this`paths, fullpath, counters
      ensures Valid() && (fullpath == old(fullpath) || fresh(fullpath)) && pathlen >= old(pathlen)
      ensures (trace, ret) == Feed(handler, old(trace), EntryVisits(entries[k], at))
      ensures fullpath[..n] == s + "/"
      decreases entries, 0
    {
      hide Lstat, Place, WellFormed, Spell;
      ghost var entry := entries[k];
      EntryFacts(node, k);
      LstatEntry(root, cwd, s, k);
      SpellBelow(start, base, at, name);
      StrCpy(n, name);
      ghost var s' := s + "/" + name;
      assert fullpath[..|s'|] == fullpath[..n] + fullpath[n..n + |name|];
      ret := DoPath(s', at + [name], entry.node);
      assert fullpath[..n] == fullpath[..|s'|][..n] == s'[..n];
    }

    /** The whole walk from a pathname. */
    method MyFtw(pathname: string) returns (ret: int)
      requires Valid() && trace == [] && counters.Values() == ZERO_TALLY
      requires '\0' !in pathname && WellFormed(Lstat(root, cwd, pathname))
      modifies this, fullpath, counters
      ensures Valid() && start == pathname && base == Place(root, cwd, pathname)
      ensures |paths| == |trace|
      ensures
        forall k | 0 <= k < |trace| ::
          var v := trace[k];
          && base <= v.at
          && paths[k] == pathname + Slashed(v.at[|base|..]) + if v.typ.FTW_DNR? then "/" else ""
      ensures (trace, ret) == Feed(handler, [], Preorder(Lstat(root, cwd, pathname), Place(root, cwd, pathname)))
    {
      if pathlen <= |pathname| {
        pathlen := |pathname| * 2;
        Realloc(pathlen);
      }
      StrCpy(0, pathname);
      start, base, paths := pathname, Place(root, cwd, pathname), [];
      SpellStart(start, base);
      ret := DoPath(pathname, base, Lstat(root, cwd, pathname));
    }
  }
}
