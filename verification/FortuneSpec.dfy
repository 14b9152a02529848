/** The fortune file (6/fortunka/fortune.c) as a list of messages with a rotating cursor. */
module FortuneSpec {

  type byte = x: int | 0 <= x < 256

  const NUL: byte := 0
  const NEWLINE: byte := 10

  type Message = seq<byte>

  datatype Pot = Pot(messages: seq<Message>, cursor: nat)

  /** The pot as bytes: each message and a NUL. */
  function Flatten(messages: seq<Message>): seq<byte> {
    if messages == [] then [] else Flatten(messages[..|messages| - 1]) + messages[|messages| - 1] + [NUL]
  }

  /** The first message of bytes that contain a NUL. */
  function Head(bytes: seq<byte>): (m: Message)
    requires NUL in bytes
    ensures |m| < |bytes| && bytes[|m|] == NUL && m == bytes[..|m|] && NUL !in m
  {
    if bytes[0] == NUL then [] else [bytes[0]] + Head(bytes[1..])
  }

  /** Cut bytes that end in NUL into messages. */
  function Cut(bytes: seq<byte>): (messages: seq<Message>)
    requires bytes == [] || bytes[|bytes| - 1] == NUL
    ensures forall m | m in messages :: NUL !in m
  {
    if bytes == [] then [] else [Head(bytes)] + Cut(bytes[|Head(bytes)| + 1..])
  }

  /** The bytes that a write leaves in the pot: its last byte becomes the NUL. */
  function Ended(data: seq<byte>): (bytes: seq<byte>)
    ensures |bytes| == |data| && (bytes == [] || bytes[|bytes| - 1] == NUL)
  {
    if data == [] then [] else data[..|data| - 1] + [NUL]
  }

  /** The messages that a write adds. */
  function Pieces(data: seq<byte>): (messages: seq<Message>)
    ensures forall m | m in messages :: NUL !in m
  {
    Cut(Ended(data))
  }

  lemma {:induction false} FlattenConcat(xs: seq<Message>, ys: seq<Message>)
    ensures Flatten(xs + ys) == Flatten(xs) + Flatten(ys)
  {
    if ys == [] {
      assert xs + ys == xs;
    } else {
      assert (xs + ys)[..|xs + ys| - 1] == xs + ys[..|ys| - 1];
      FlattenConcat(xs, ys[..|ys| - 1]);
    }
  }

  lemma FlattenEmpty()
    ensures Flatten([]) == []
  {
  }

  lemma FlattenOne(m: Message)
    ensures Flatten([m]) == m + [NUL]
  {
    assert [m][..0] == [];
  }

  lemma HeadSplits(bytes: seq<byte>)
    requires NUL in bytes
    ensures bytes == Head(bytes) + [NUL] + bytes[|Head(bytes)| + 1..]
  {
  }

  /** Cutting loses nothing. */
  lemma {:induction false} FlattenCut(bytes: seq<byte>)
    requires bytes == [] || bytes[|bytes| - 1] == NUL
    ensures Flatten(Cut(bytes)) == bytes
    decreases |bytes|
  {
    hide Flatten, Head;
    FlattenEmpty();
    if bytes != [] {
      var h := Head(bytes);
      var rest := bytes[|h| + 1..];
      HeadSplits(bytes);
      FlattenCut(rest);
      FlattenConcat([h], Cut(rest));
      FlattenOne(h);
    }
  }

  lemma {:induction false} HeadOf(m: Message, tail: seq<byte>)
    requires NUL !in m
    ensures NUL in m + [NUL] + tail && Head(m + [NUL] + tail) == m
  {
    var bytes := m + [NUL] + tail;
    assert bytes[|m|] == NUL;
    if m != [] {
      assert m[0] in m && m == [m[0]] + m[1..];
      assert bytes[1..] == m[1..] + [NUL] + tail;
      HeadOf(m[1..], tail);
    }
  }

  /** Cutting finds the messages that were put together. */
  lemma {:induction false} CutFlatten(messages: seq<Message>)
    requires forall m | m in messages :: NUL !in m
    ensures var bytes := Flatten(messages); (bytes == [] || bytes[|bytes| - 1] == NUL) && Cut(bytes) == messages
    decreases |messages|
  {
    if messages != [] {
      var m, rest := messages[0], messages[1..];
      assert messages == [m] + rest && m in messages;
      CutFlatten(rest);
      FlattenConcat([m], rest);
      FlattenOne(m);
      HeadOf(m, Flatten(rest));
      assert (m + [NUL] + Flatten(rest))[|m| + 1..] == Flatten(rest);
    }
  }

  /** A write without an inner NUL adds one message. */
  lemma OnePiece(data: seq<byte>)
    requires data != [] && NUL !in data[..|data| - 1]
    ensures Pieces(data) == [data[..|data| - 1]]
  {
    var m := data[..|data| - 1];
    FlattenOne(m);
    CutFlatten([m]);
  }

  // ----- operations

  function Used(p: Pot): nat {
    |Flatten(p.messages)|
  }

  /** The test of the source: it lets in one byte more than is left. */
  predicate LetIn(size: nat, used: nat, len: nat) {
    !(len > size - used + 1)
  }

  /** A write that is let in stores last at `used + len - 1`, the NUL; this is also the end of its copy. */
  predicate StoresInside(size: nat, used: nat, len: nat) {
    0 <= used + len - 1 < size
  }

  /** The write is let in and stores outside the pot. */
  predicate Escapes(p: Pot, size: nat, data: seq<byte>) {
    LetIn(size, Used(p), |data|) && !StoresInside(size, Used(p), |data|)
  }

  function Written(p: Pot, data: seq<byte>, size: nat): Pot {
    if LetIn(size, Used(p), |data|) then Pot(p.messages + Pieces(data), p.cursor) else p
  }

  /** The message that the next read returns. */
  function Current(p: Pot): (k: nat)
    requires p.messages != []
    ensures k < |p.messages|
  {
    if p.cursor < |p.messages| then p.cursor else 0
  }

  function Advanced(p: Pot): Pot
    requires p.messages != []
  {
    Pot(p.messages, Current(p) + 1)
  }

  /** What the reader gets for a message: a newline ends it, unless the message fills the whole pot. */
  function Line(m: Message, size: nat): seq<byte> {
    m + [if |m| + 1 < size then NEWLINE else NUL]
  }

  // ----- interleaved writes and reads

  datatype Op = Put(data: seq<byte>) | Fetch

  /** One operation; a rejected write and a read of an empty pot change nothing. */
  function Do(p: Pot, size: nat, op: Op): Pot {
    match op
    case Put(data) => Written(p, data, size)
    case Fetch => if p.messages == [] then p else Advanced(p)
  }

  /** The message that the operation returns, if any. */
  function Got(p: Pot, op: Op): seq<Message> {
    if op.Fetch? && p.messages != [] then [p.messages[Current(p)]] else []
  }

  /** The messages that the operation adds: those of an accepted write. */
  function Gain(p: Pot, size: nat, op: Op): seq<Message> {
    if op.Put? && LetIn(size, Used(p), |op.data|) then Pieces(op.data) else []
  }

  /** The read does not start again at the first message. */
  predicate Straight(p: Pot, op: Op) {
    op.Fetch? ==> p.cursor < |p.messages|
  }

  /** Where a sequence of operations leads: the pot, the messages read and added, and whether no read has
      wrapped; or a store outside the pot, after which nothing is known. */
  datatype Outcome =
    | Inside(pot: Pot, read: seq<Message>, added: seq<Message>, straight: bool)
    | Outside

  function Run(p: Pot, size: nat, ops: seq<Op>): Outcome {
    if ops == [] then Inside(p, [], [], true) else
      var op := ops[|ops| - 1];
      match Run(p, size, ops[..|ops| - 1])
      case Outside => Outside
      case Inside(q, read, added, straight) =>
        if op.Put? && Escapes(q, size, op.data) then Outside
        else Inside(Do(q, size, op), read + Got(q, op), added + Gain(q, size, op), straight && Straight(q, op))
  }

  /** Once outside, a run stays outside. */
  lemma {:induction false} OutsideStays(p: Pot, size: nat, ops: seq<Op>, k: nat)
    requires k <= |ops| && Run(p, size, ops[..k]).Outside?
    ensures Run(p, size, ops).Outside?
    decreases |ops|
  {
    if k == |ops| {
      assert ops[..k] == ops;
    } else {
      var front := ops[..|ops| - 1];
      assert front[..k] == ops[..k];
      OutsideStays(p, size, front, k);
    }
  }

  // ----- reading in turn

  function Fetches(n: nat): seq<Op> {
    seq(n, _ => Fetch)
  }

  /** j places after c on a round of this many places. */
  function Around(c: nat, j: nat, places: nat): (k: nat)
    requires places > 0
    ensures k < places
  {
    (c + j) % places
  }

  lemma AroundNext(c: nat, j: nat, places: nat)
    requires c < places
    ensures Around(c, 0, places) == c
    ensures Around(c, j + 1, places) == if Around(c, j, places) + 1 == places then 0 else Around(c, j, places) + 1
  {
    var q, r := (c + j) / places, (c + j) % places;
    assert (q + 1) * places == q * places + places;
    if r + 1 == places {
      ModIs(c + j + 1, q + 1, 0, places);
    } else {
      ModIs(c + j + 1, q, r + 1, places);
    }
    ModIs(c, 0, c, places);
  }

  lemma ModIs(a: nat, q: nat, r: nat, t: nat)
    requires r < t && a == q * t + r
    ensures a % t == r
  {
    var d := q - a / t;
    assert d * t == a % t - r;
    if d != 0 {
      MultipleIsLarge(d, t);
    }
  }

  lemma MultipleIsLarge(d: int, t: int)
    requires d != 0 && t > 0
    ensures d * t >= t || d * t <= -t
  {
    if d > 0 {
      assert (d - 1) * t >= 0;
    } else {
      assert (-1 - d) * t >= 0;
    }
  }

  lemma FetchNext(p: Pot, size: nat, n: nat)
    requires n > 0 && Run(p, size, Fetches(n - 1)).Inside? && Run(p, size, Fetches(n - 1)).pot.messages != []
    ensures
      var o, o' := Run(p, size, Fetches(n - 1)), Run(p, size, Fetches(n));
      && o'.Inside? && o'.pot == Advanced(o.pot) && o'.read == o.read + [o.pot.messages[Current(o.pot)]]
  {
    hide Straight, Gain;
    assert Fetches(n)[..n - 1] == Fetches(n - 1);
  }

  /** However many reads: the j-th returns the message j places after the cursor, going round. */
  lemma {:induction false} ReadsRotate(p: Pot, size: nat, n: nat)
    requires p.messages != []
    ensures
      var o, c, total := Run(p, size, Fetches(n)), Current(p), |p.messages|;
      && o.Inside? && o.pot.messages == p.messages && Current(o.pot) == Around(c, n, total)
      && |o.read| == n && forall j: nat | j < n :: o.read[j] == p.messages[Around(c, j, total)]
  {
    hide Around, Run, Fetches;
    if n == 0 {
      AroundNext(Current(p), 0, |p.messages|);
      NoFetches(p, size);
    } else {
      AroundNext(Current(p), n - 1, |p.messages|);
      ReadsRotate(p, size, n - 1);
      FetchNext(p, size, n);
    }
  }

  lemma NoFetches(p: Pot, size: nat)
    ensures Run(p, size, Fetches(0)) == Inside(p, [], [], true)
  {
  }

  /** As many reads as there are messages return each message exactly once, in cyclic write order. */
  lemma OneRound(p: Pot, size: nat)
    requires p.messages != []
    ensures var o := Run(p, size, Fetches(|p.messages|));
      && o.Inside? && o.read == p.messages[Current(p)..] + p.messages[..Current(p)]
      && multiset(o.read) == multiset(p.messages)
  {
    hide Run, Current;
    var c, total := Current(p), |p.messages|;
    ReadsRotate(p, size, total);
    forall j: nat | j < total ensures Around(c, j, total) == if c + j < total then c + j else c + j - total {
      ModIs(c + j, if c + j < total then 0 else 1, if c + j < total then c + j else c + j - total, total);
    }
    Rotated(Run(p, size, Fetches(total)).read, p.messages, c);
  }

  lemma Rotated(out: seq<Message>, messages: seq<Message>, c: nat)
    requires c < |messages| == |out|
    requires forall j: nat | j < |out| :: out[j] == messages[if c + j < |out| then c + j else c + j - |out|]
    ensures out == messages[c..] + messages[..c] && multiset(out) == multiset(messages)
  {
    var first, second := messages[..c], messages[c..];
    assert out == second + first;
    assert messages == first + second;
  }

  // ----- does a message come back?

  /** One piece that ends in a newline and leaves a byte of the pot free, or that fills the pot and ends in NUL. */
  predicate Returnable(data: seq<byte>, size: nat) {
    && 0 < |data| <= size && 0 !in data[..|data| - 1]
    && data[|data| - 1] == if |data| < size then 10 else 0
  }

  lemma FirstPiece(data: seq<byte>, size: nat)
    requires 0 < |data| <= size
    ensures Pieces(data) != [] && (Line(Pieces(data)[0], size) == data <==> Returnable(data, size))
  {
    var n := |data| - 1;
    var m := Head(Ended(data));
    assert Pieces(data)[0] == m;
    assert data == data[..n] + [data[n]];
    if NUL !in data[..n] {
      OnePiece(data);
    } else {
      assert |m| != n;
    }
  }

  /** With every message read, a write that fits is what the next read returns, and it comes back byte for
      byte exactly if it is returnable. */
  lemma WriteThenRead(p: Pot, size: nat, data: seq<byte>)
    requires p.cursor == |p.messages| && data != [] && Used(p) + |data| <= size
    ensures var o := Run(p, size, [Put(data), Fetch]);
      o.Inside? && |o.read| == 1 && (Line(o.read[0], size) == data <==> Returnable(data, size))
  {
    hide Pieces, Line, Used, Returnable;
    FirstPiece(data, size);
    RunTwo(p, size, Put(data), Fetch);
  }

  lemma RunTwo(p: Pot, size: nat, first: Op, second: Op)
    requires first.Put? ==> !Escapes(p, size, first.data)
    requires var q := Do(p, size, first); second.Put? ==> !Escapes(q, size, second.data)
    ensures var o, q := Run(p, size, [first, second]), Do(p, size, first);
      o.Inside? && o.pot == Do(q, size, second) && o.read == Got(p, first) + Got(q, second)
  {
    hide Escapes, Do, Got, Gain, Straight;
    RunOne(p, size, first);
    assert [first, second][..1] == [first];
  }

  lemma RunOne(p: Pot, size: nat, op: Op)
    requires op.Put? ==> !Escapes(p, size, op.data)
    ensures var o := Run(p, size, [op]); o.Inside? && o.pot == Do(p, size, op) && o.read == Got(p, op)
  {
    hide Escapes, Do, Got, Gain, Straight;
    assert [op][..0] == [];
    assert Run(p, size, []) == Inside(p, [], [], true);
  }

  /** Whatever is written into the empty pot, a read after it returns the same bytes exactly if it was one
      piece, not empty, and either left a byte free and ended in a newline, or filled the pot and ended in NUL. */
  lemma ComesBackExactly(size: nat, data: seq<byte>)
    ensures var o := Run(Pot([], 0), size, [Put(data), Fetch]);
      (o.Inside? && |o.read| == 1 && Line(o.read[0], size) == data) <==> Returnable(data, size)
  {
    hide Run, Line, Flatten, Pieces, Straight;
    var p := Pot([], 0);
    FlattenEmpty();
    if 0 < |data| <= size {
      WriteThenRead(p, size, data);
    } else if Hazard(size, 0, |data|) {
      FirstWrite(p, size, data);
      assert [Put(data), Fetch][..1] == [Put(data)];
      OutsideStays(p, size, [Put(data), Fetch], 1);
    } else {
      RunTwo(p, size, Put(data), Fetch);
    }
  }

  /** A single byte other than a newline comes back as a bare newline. */
  lemma ByteIsLost(size: nat, b: byte)
    requires size > 1 && b != 10
    ensures var o := Run(Pot([], 0), size, [Put([b]), Fetch]);
      o.Inside? && o.read == [[]] && Line(o.read[0], size) == [10] != [b]
  {
    FlattenEmpty();
    OnePiece([b]);
    RunTwo(Pot([], 0), size, Put([b]), Fetch);
  }

  // ----- when a run stays inside

  /** The bytes in use if exactly those writes are kept that fit; only lengths matter. */
  function Level(size: nat, used: nat, ops: seq<Op>): nat {
    if ops == [] then used else
      var u, op := Level(size, used, ops[..|ops| - 1]), ops[|ops| - 1];
      if op.Put? && u + |op.data| <= size then u + |op.data| else u
  }

  /** One byte more than is left, or nothing into an empty pot. */
  predicate Hazard(size: nat, used: nat, len: nat) {
    used + len == size + 1 || used + len == 0
  }

  ghost predicate Safe(size: nat, used: nat, ops: seq<Op>) {
    forall k | 0 <= k < |ops| && ops[k].Put? :: !Hazard(size, Level(size, used, ops[..k]), |ops[k].data|)
  }

  lemma SafeFront(size: nat, used: nat, ops: seq<Op>)
    requires ops != []
    ensures var front, op := ops[..|ops| - 1], ops[|ops| - 1];
      Safe(size, used, ops) <==>
        Safe(size, used, front) && (op.Put? ==> !Hazard(size, Level(size, used, front), |op.data|))
  {
    hide Level, Hazard;
    var front := ops[..|ops| - 1];
    assert forall k | 0 <= k < |front| :: front[k] == ops[k] && front[..k] == ops[..k];
  }

  /** A sequence of operations stays inside the pot exactly if no write, at its turn, is one byte longer than
      what is left or is empty and the first. The pot then holds what fits. */
  lemma {:induction false} StaysInsideExactly(p: Pot, size: nat, ops: seq<Op>)
    requires Used(p) <= size
    ensures Run(p, size, ops).Inside? <==> Safe(size, Used(p), ops)
    ensures Run(p, size, ops).Inside? ==> Used(Run(p, size, ops).pot) == Level(size, Used(p), ops) <= size
    decreases |ops|
  {
    hide Used, Safe, Do, Gain, Got, Straight;
    if ops == [] {
      SafeNone(size, Used(p));
    } else {
      var front, op := ops[..|ops| - 1], ops[|ops| - 1];
      StaysInsideExactly(p, size, front);
      SafeFront(size, Used(p), ops);
      if Run(p, size, ops).Inside? {
        DoUses(Run(p, size, front).pot, size, op);
      }
    }
  }

  lemma SafeNone(size: nat, used: nat)
    ensures Safe(size, used, [])
  {
  }

  lemma DoUses(p: Pot, size: nat, op: Op)
    requires Used(p) <= size && (op.Put? ==> !Escapes(p, size, op.data))
    ensures
      Used(Do(p, size, op)) == if op.Put? && Used(p) + |op.data| <= size then Used(p) + |op.data| else Used(p)
  {
    if op.Put? && LetIn(size, Used(p), |op.data|) {
      FlattenConcat(p.messages, Pieces(op.data));
      FlattenCut(Ended(op.data));
    }
  }

  /** Filling the pot and writing one more byte leaves it; so does an empty write as the first one. */
  lemma TwoWritesEscape(size: nat, data: seq<byte>, b: byte)
    requires |data| == size > 0
    ensures Run(Pot([], 0), size, [Put(data)]).Inside?
    ensures Run(Pot([], 0), size, [Put(data), Put([b])]).Outside?
    ensures Run(Pot([], 0), size, [Put([])]).Outside?
  {
    hide Run, Safe, Flatten;
    FlattenEmpty();
    var p, one, two := Pot([], 0), [Put(data)], [Put(data), Put([b])];
    FirstWrite(p, size, data);
    FirstWrite(p, size, []);
    StaysInsideExactly(p, size, two);
    SafeFront(size, 0, two);
    assert two[..1] == one;
    assert one[..0] == [];
  }

  lemma FirstWrite(p: Pot, size: nat, data: seq<byte>)
    requires Used(p) <= size
    ensures Run(p, size, [Put(data)]).Outside? <==> Hazard(size, Used(p), |data|)
  {
    assert [Put(data)][..0] == [];
    assert Run(p, size, []) == Inside(p, [], [], true);
  }

  // ----- what a run that stays inside does

  lemma DoKeeps(p: Pot, size: nat, op: Op)
    requires p.cursor <= |p.messages|
    ensures var q := Do(p, size, op);
      && q.messages == p.messages + Gain(p, size, op) && q.cursor <= |q.messages|
      && (Straight(p, op) ==> q.cursor == p.cursor + |Got(p, op)| && Got(p, op) == q.messages[p.cursor..q.cursor])
  {
    hide Flatten, Pieces, LetIn;
    assert p.messages + [] == p.messages;
  }

  /** As long as nothing is stored outside, writes only append and stay within the pot, and until a read
      wraps, the messages read are those from the cursor on, in write order, however writes and reads
      interleave. */
  lemma {:induction false} RunAppends(p: Pot, size: nat, ops: seq<Op>)
    requires p.cursor <= |p.messages| && Used(p) <= size && Safe(size, Used(p), ops)
    ensures Run(p, size, ops).Inside?
    ensures var o := Run(p, size, ops);
      && o.pot.messages == p.messages + o.added
      && Used(o.pot) == Level(size, Used(p), ops) <= size && o.pot.cursor <= |o.pot.messages|
      && (o.straight ==>
            o.pot.cursor == p.cursor + |o.read| && o.read == o.pot.messages[p.cursor..o.pot.cursor])
    decreases |ops|
  {
    hide Used, Do, Gain, Got, Straight, Safe, Escapes, Level;
    StaysInsideExactly(p, size, ops);
    if ops == [] {
      assert p.messages + [] == p.messages;
    } else {
      var front, op := ops[..|ops| - 1], ops[|ops| - 1];
      SafeFront(size, Used(p), ops);
      RunAppends(p, size, front);
      var o, o' := Run(p, size, front), Run(p, size, ops);
      DoKeeps(o.pot, size, op);
      AppendAssoc(p.messages, o.added, Gain(o.pot, size, op));
      if o'.straight {
        assert o.read == o'.pot.messages[p.cursor..o.pot.cursor];
        assert o'.read == o'.pot.messages[p.cursor..o'.pot.cursor];
      }
    }
  }

  /** The bytes of the writes that fit, each ended by its NUL. */
  function Kept(size: nat, used: nat, ops: seq<Op>): seq<byte> {
    if ops == [] then [] else
      var front, op := ops[..|ops| - 1], ops[|ops| - 1];
      Kept(size, used, front) +
        if op.Put? && Level(size, used, front) + |op.data| <= size then Ended(op.data) else []
  }

  /** What a run that stays inside adds are exactly the writes that fit, in order. */
  lemma {:induction false} AddsWhatFits(p: Pot, size: nat, ops: seq<Op>)
    requires Used(p) <= size && Safe(size, Used(p), ops)
    ensures Run(p, size, ops).Inside? && Flatten(Run(p, size, ops).added) == Kept(size, Used(p), ops)
    decreases |ops|
  {
    hide Used, Do, Got, Straight, Safe, Level, Flatten;
    StaysInsideExactly(p, size, ops);
    FlattenEmpty();
    if ops != [] {
      var front, op := ops[..|ops| - 1], ops[|ops| - 1];
      SafeFront(size, Used(p), ops);
      AddsWhatFits(p, size, front);
      StaysInsideExactly(p, size, front);
      var o := Run(p, size, front);
      FlattenConcat(o.added, Gain(o.pot, size, op));
      if op.Put? {
        FlattenCut(Ended(op.data));
      }
    }
  }

  lemma AppendAssoc(a: seq<Message>, b: seq<Message>, c: seq<Message>)
    ensures a + b + c == a + (b + c)
  {
  }
}
