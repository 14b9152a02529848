/** Directory trees, positions in them, and how a pathname is resolved. */
module FileTree {

  datatype Option<+T> = None | Some(value: T)

  const NAME_MAX: nat := 255

  /** What lstat tells of something that is not a directory. `Odd` is a mode that no case of the counting
      handlers names. */
  datatype Kind = Reg | Blk | Chr | Fifo | Link | Sock | Odd

  /** `NoStat` is a name for which lstat fails; a directory that is not readable cannot be opened. */
  datatype Node =
    | NoStat
    | File(kind: Kind)
    | Dir(readable: bool, entries: seq<Entry>)

  /** One name that readdir returns. The nodes of "." and ".." are never looked at. */
  datatype Entry = Entry(name: string, node: Node)

  predicate IsDots(name: string) {
    name == "." || name == ".."
  }

  predicate Plain(name: string) {
    name != "" && !IsDots(name) && '/' !in name && '\0' !in name
  }

  ghost predicate WellFormed(node: Node) {
    node.Dir? ==>
      && (forall e | e in node.entries && !IsDots(e.name) ::
            Plain(e.name) && |e.name| <= NAME_MAX && WellFormed(e.node))
      && (forall i, j | 0 <= i < j < |node.entries| && !IsDots(node.entries[i].name) ::
            node.entries[i].name != node.entries[j].name)
  }

  function Lookup(entries: seq<Entry>, name: string): Option<Node> {
    if entries == [] then None
    else if entries[0].name == name then Some(entries[0].node)
    else Lookup(entries[1..], name)
  }

  /** Names from the root of the file system down; this is what identifies a node. */
  type Pos = seq<string>

  function Parent(pos: Pos): Pos {
    if pos == [] then [] else pos[..|pos| - 1]
  }

  function At(root: Node, pos: Pos): Option<Node> {
    if pos == [] then Some(root) else
      match At(root, pos[..|pos| - 1])
      case Some(Dir(_, entries)) => Lookup(entries, pos[|pos| - 1])
      case _ => None
  }

  predicate IsDir(root: Node, pos: Pos) {
    At(root, pos).Some? && At(root, pos).value.Dir?
  }

  // ----- pathnames

  /** The complete components of a pathname and the one that is still being read. */
  function Split(path: string): (seq<string>, string) {
    if path == "" then ([], "") else
      var (done, cur) := Split(path[..|path| - 1]);
      var c := path[|path| - 1];
      if c != '/' then (done, cur + [c]) else (if cur == "" then done else done + [cur], "")
  }

  /** The components of a pathname; repeated and trailing slashes do not count. */
  function Components(path: string): seq<string> {
    var (done, cur) := Split(path);
    if cur == "" then done else done + [cur]
  }

  function Step(root: Node, pos: Pos, name: string): Option<Pos> {
    if !IsDir(root, pos) then None
    else if name == "." then Some(pos)
    else if name == ".." then Some(Parent(pos))
    else if Lookup(At(root, pos).value.entries, name).Some? then Some(pos + [name])
    else None
  }

  function Follow(root: Node, pos: Pos, names: seq<string>): Option<Pos> {
    if names == [] then Some(pos) else
      match Follow(root, pos, names[..|names| - 1])
      case None => None
      case Some(p) => Step(root, p, names[|names| - 1])
  }

  function Resolve(root: Node, cwd: Pos, path: string): Option<Pos> {
    if path == "" then None else
      var pos := Follow(root, if path[0] == '/' then [] else cwd, Components(path));
      if pos.Some? && path[|path| - 1] == '/' && !IsDir(root, pos.value) then None else pos
  }

  /** The position that a pathname names; for one that names nothing, the pathname stands for itself. */
  function Place(root: Node, cwd: Pos, path: string): Pos {
    match Resolve(root, cwd, path)
    case Some(pos) => pos
    case None => [path]
  }

  /** lstat(path): the node, or `NoStat` if it fails. */
  function Lstat(root: Node, cwd: Pos, path: string): Node {
    match Resolve(root, cwd, path)
    case Some(pos) => if At(root, pos).Some? then At(root, pos).value else NoStat
    case None => NoStat
  }

  // ----- a name below a directory

  /** Reading a plain name only lengthens the current component. */
  lemma {:induction false} SplitName(path: string, name: string)
    requires '/' !in name
    ensures Split(path + name) == (Split(path).0, Split(path).1 + name)
  {
    if name == "" {
      assert path + name == path && Split(path).1 + name == Split(path).1;
    } else {
      var front := name[..|name| - 1];
      SplitName(path, front);
      assert (path + name)[..|path + name| - 1] == path + front;
      var c := name[|name| - 1];
      assert (path + name)[|path + name| - 1] == c && c in name;
      assert Split(path).1 + front + [c] == Split(path).1 + name;
    }
  }

  lemma SplitSlash(path: string)
    ensures Split(path + "/") == (Components(path), "")
    ensures Components(path + "/") == Components(path)
  {
    assert (path + "/")[..|path|] == path;
  }

  lemma ComponentsBelow(path: string, name: string)
    requires Plain(name)
    ensures Components(path + "/" + name) == Components(path) + [name]
  {
    SplitSlash(path);
    SplitName(path + "/", name);
    assert "" + name == name;
  }

  lemma ResolveSlash(root: Node, cwd: Pos, path: string)
    requires Resolve(root, cwd, path).Some? && IsDir(root, Resolve(root, cwd, path).value)
    ensures Resolve(root, cwd, path + "/") == Resolve(root, cwd, path)
  {
    SplitSlash(path);
    var slashed := path + "/";
    assert slashed[0] == path[0] && slashed != "";
  }

  /** A path that names a directory, a slash and an entry of it name that entry. */
  lemma ResolveBelow(root: Node, cwd: Pos, path: string, name: string)
    requires Plain(name) && Resolve(root, cwd, path).Some?
    requires var pos := Resolve(root, cwd, path).value;
      IsDir(root, pos) && Lookup(At(root, pos).value.entries, name).Some?
    ensures
      var pos := Resolve(root, cwd, path).value;
      && Resolve(root, cwd, path + "/" + name) == Some(pos + [name])
      && At(root, pos + [name]) == Lookup(At(root, pos).value.entries, name)
  {
    var pos := Resolve(root, cwd, path).value;
    var below := path + "/" + name;
    ComponentsBelow(path, name);
    assert below[0] == path[0];
    assert below[|below| - 1] == name[|name| - 1] && name[|name| - 1] in name;
    var names := Components(path) + [name];
    assert names[..|names| - 1] == Components(path);
    assert (pos + [name])[..|pos|] == pos;
  }

  /** A bare name is looked up in the current directory. */
  lemma ResolveName(root: Node, cwd: Pos, name: string)
    requires Plain(name) && IsDir(root, cwd) && Lookup(At(root, cwd).value.entries, name).Some?
    ensures Resolve(root, cwd, name) == Some(cwd + [name])
    ensures At(root, cwd + [name]) == Lookup(At(root, cwd).value.entries, name)
  {
    hide Follow, Components, At, Lookup;
    ComponentsName(name);
    FollowName(root, cwd, name);
    assert name[0] in name && name[|name| - 1] in name;
  }

  lemma ComponentsName(name: string)
    requires Plain(name)
    ensures Components(name) == [name]
  {
    SplitName("", name);
    assert "" + name == name;
  }

  lemma FollowName(root: Node, cwd: Pos, name: string)
    requires !IsDots(name) && IsDir(root, cwd) && Lookup(At(root, cwd).value.entries, name).Some?
    ensures Follow(root, cwd, [name]) == Some(cwd + [name])
    ensures At(root, cwd + [name]) == Lookup(At(root, cwd).value.entries, name)
  {
    assert [name][..0] == [];
    assert Follow(root, cwd, []) == Some(cwd);
    assert (cwd + [name])[..|cwd|] == cwd;
  }

  lemma {:induction false} LookupEntry(entries: seq<Entry>, k: nat)
    requires k < |entries|
    requires forall i | 0 <= i < k :: entries[i].name != entries[k].name
    ensures Lookup(entries, entries[k].name) == Some(entries[k].node)
  {
    if k != 0 {
      LookupEntry(entries[1..], k - 1);
    }
  }

  // ----- the same in terms of lstat

  lemma LstatSlash(root: Node, cwd: Pos, path: string)
    requires Lstat(root, cwd, path).Dir?
    ensures Lstat(root, cwd, path + "/") == Lstat(root, cwd, path)
    ensures Place(root, cwd, path + "/") == Place(root, cwd, path)
  {
    ResolveSlash(root, cwd, path);
  }

  /** An entry of a well-formed directory: its name and its node. */
  lemma EntryFacts(node: Node, k: nat)
    requires node.Dir? && WellFormed(node) && k < |node.entries| && !IsDots(node.entries[k].name)
    ensures var e := node.entries[k];
      Plain(e.name) && |e.name| <= NAME_MAX && WellFormed(e.node) && Lookup(node.entries, e.name) == Some(e.node)
  {
    assert node.entries[k] in node.entries;
    LookupEntry(node.entries, k);
  }

  lemma LstatEntry(root: Node, cwd: Pos, path: string, k: nat)
    requires var node := Lstat(root, cwd, path);
      node.Dir? && WellFormed(node) && k < |node.entries| && !IsDots(node.entries[k].name)
    ensures var e := Lstat(root, cwd, path).entries[k];
      && Lstat(root, cwd, path + "/" + e.name) == e.node
      && Place(root, cwd, path + "/" + e.name) == Place(root, cwd, path) + [e.name]
  {
    var node := Lstat(root, cwd, path);
    EntryFacts(node, k);
    ResolveBelow(root, cwd, path, node.entries[k].name);
  }

  /** In the current directory the bare name of an entry names it. */
  lemma LstatName(root: Node, cwd: Pos, k: nat)
    requires IsDir(root, cwd)
    requires var node := At(root, cwd).value;
      WellFormed(node) && k < |node.entries| && !IsDots(node.entries[k].name)
    ensures var e := At(root, cwd).value.entries[k];
      && Lstat(root, cwd, e.name) == e.node
      && Place(root, cwd, e.name) == cwd + [e.name]
      && At(root, cwd + [e.name]) == Some(e.node)
  {
    var node := At(root, cwd).value;
    EntryFacts(node, k);
    ResolveName(root, cwd, node.entries[k].name);
  }

  lemma LstatAt(root: Node, cwd: Pos, path: string)
    requires Lstat(root, cwd, path).Dir?
    ensures At(root, Place(root, cwd, path)) == Some(Lstat(root, cwd, path))
  {
  }

  /** Where names lead according to their spelling alone. */
  function Lexical(pos: Pos, names: seq<string>): Pos {
    if names == [] then pos else
      var front, last := Lexical(pos, names[..|names| - 1]), names[|names| - 1];
      if last == "." then front else if last == ".." then Parent(front) else front + [last]
  }

  /** What can be followed leads where the spelling says. */
  lemma {:induction false} FollowLexical(root: Node, pos: Pos, names: seq<string>)
    requires Follow(root, pos, names).Some?
    ensures Follow(root, pos, names).value == Lexical(pos, names)
  {
    if names != [] {
      FollowLexical(root, pos, names[..|names| - 1]);
    }
  }

  /** Without "." and "..", names are appended. */
  lemma {:induction false} LexicalPlain(pos: Pos, names: seq<string>)
    requires forall name | name in names :: !IsDots(name)
    ensures Lexical(pos, names) == pos + names
  {
    if names == [] {
      assert pos + [] == pos;
    } else {
      var front, last := names[..|names| - 1], names[|names| - 1];
      LexicalPlain(pos, front);
      assert last in names;
      assert names == front + [last];
      assert pos + names == pos + front + [last];
    }
  }
}
