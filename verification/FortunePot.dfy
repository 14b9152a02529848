/** `fortuneWrite` and `fortuneRead` of 6/fortunka/fortune.c on the flat byte buffer. */
module FortunePot {
  import opened FortuneSpec

  const EFAULT: int := 14
  const ENOSPC: int := 28

  /** How a write ends: with its return value, or with a store outside the pot, after which nothing is known. */
  datatype Reply = Returned(value: int) | LeftPot

  class FortuneFile {
    const cookiePot: array<byte>
    const tmpBuf: array<byte>
    var readInd: nat
    var writeInd: nat
    ghost var pot: Pot

    /** The used bytes are the messages, and the read index is the boundary before the cursor. */
    ghost predicate Valid()
      reads this, cookiePot
    {
      && cookiePot != tmpBuf && cookiePot.Length == tmpBuf.Length > 0
      && writeInd <= cookiePot.Length && cookiePot[..writeInd] == Flatten(pot.messages)
      && pot.cursor <= |pot.messages| && readInd == |Flatten(pot.messages[..pot.cursor])|
      && (forall m | m in pot.messages :: NUL !in m)
    }

    constructor (size: nat)
      requires size > 0
      ensures Valid() && fresh(cookiePot) && fresh(tmpBuf) && cookiePot.Length == size
      ensures pot == Pot([], 0)
    {
      cookiePot := new byte[size](_ => NUL);
      tmpBuf := new byte[size](_ => NUL);
      readInd, writeInd, pot := 0, 0, Pot([], 0);
    }

    /** A write is rejected, or leaves the pot, or adds its messages. */
    method Write(data: seq<byte>) returns (r: Reply)
      requires Valid()
      modifies this`writeInd, this`pot, cookiePot
      ensures r.LeftPot? <==> Escapes(old(pot), cookiePot.Length, data)
      ensures r.Returned? ==> Valid() && pot == Written(old(pot), data, cookiePot.Length)
      ensures r.Returned? ==>
        r.value == if LetIn(cookiePot.Length, old(writeInd), |data|) then |data| else -28  // -ENOSPC
      ensures r == Returned(-28) ==> cookiePot[..] == old(cookiePot[..]) && writeInd == old(writeInd)
    {
      var len := |data|;
      if len > cookiePot.Length - writeInd + 1 {
        return Returned(-ENOSPC);
      }
      if writeInd + len > cookiePot.Length || writeInd + len == 0 {
        return LeftPot;   // the copy would store behind the pot, or the NUL before it
      }
      ghost var before := cookiePot[..writeInd];
      FlattenEnds(pot.messages);
      Append(data);
      assert cookiePot[..writeInd] == before + Ended(data);
      AppendKeeps(pot.messages, pot.cursor, data);
      pot := Pot(pot.messages + Pieces(data), pot.cursor);
      return Returned(len);
    }

    /** Copy the bytes in and end them with a NUL. */
    method Append(data: seq<byte>)
      requires writeInd + |data| <= cookiePot.Length
      requires data != [] || (writeInd > 0 && cookiePot[writeInd - 1] == NUL)
      modifies this`writeInd, cookiePot
      ensures writeInd == old(writeInd) + |data|
      ensures cookiePot[..writeInd] == old(cookiePot[..writeInd]) + Ended(data)
    {
      ghost var before := cookiePot[..writeInd];
      CopyFromUser(writeInd, data);
      assert cookiePot[..writeInd + |data|] == before + data;
      writeInd := writeInd + |data|;
      cookiePot[writeInd - 1] := NUL;
      if data == [] {
        assert cookiePot[..writeInd] == before;
      } else {
        assert cookiePot[..writeInd] == before + data[..|data| - 1] + [NUL];
      }
    }

    method CopyFromUser(at: nat, data: seq<byte>)
      requires at + |data| <= cookiePot.Length
      modifies cookiePot
      ensures cookiePot[..at] == old(cookiePot[..at]) && cookiePot[at..at + |data|] == data
    {
      forall k | 0 <= k < |data| {
        cookiePot[at + k] := data[k];
      }
    }

    /** A read at a fresh file position returns the message under the cursor and moves on, starting again
        after the last one. `user` is the reader's memory from its buffer on; the length `len` that it asks for
        is never looked at, so that only the end of the memory stops the copy. */
    method Read(user: array<byte>, len: nat, fPos: nat) returns (r: int, newPos: int)
      requires Valid() && user != cookiePot && user != tmpBuf
      modifies this`readInd, this`pot, tmpBuf, user
      ensures Valid()
      ensures
        fPos > 0 || old(pot).messages == [] ==>
          r == 0 && newPos == fPos && pot == old(pot) && readInd == old(readInd) && user[..] == old(user[..])
      ensures
        fPos == 0 && old(pot).messages != [] ==>
          var k := Current(old(pot));
          var line := Line(old(pot).messages[k], cookiePot.Length);
          if |line| <= user.Length then
            r == |line| == newPos && pot == Advanced(old(pot)) && user[..r] == line && user[r..] == old(user[r..])
          else
            r == -14 /* -EFAULT */ && newPos == 0 && pot == Pot(old(pot).messages, k) && user[..] == line[..user.Length]
    {
      hide Flatten;
      FlattenEnds(pot.messages);
      if fPos > 0 || writeInd == 0 {
        return 0, fPos;
      }
      Rewind();
      ghost var m := pot.messages[pot.cursor];
      var readLen := Snprintf(m);
      var left := CopyToUser(user, readLen);
      if left != 0 {
        assert user[..] == user[..readLen - left] == tmpBuf[..readLen][..user.Length];
        return -EFAULT, fPos;
      }
      FlattenPrefix(pot.messages, pot.cursor);
      pot := Advanced(pot);
      readInd := readInd + readLen;
      return readLen, fPos + readLen;
    }

    /** After the last message start again; the message to be read then stands at the read index. */
    method Rewind()
      requires Valid() && pot.messages != []
      modifies this`readInd, this`pot
      ensures Valid() && pot == Pot(old(pot).messages, Current(old(pot)))
      ensures
        var m := pot.messages[pot.cursor];
        && readInd + |m| < writeInd && NUL !in m
        && cookiePot[readInd..readInd + |m|] == m && cookiePot[readInd + |m|] == NUL
    {
      hide Flatten;
      FlattenEnds(pot.messages[..0]);
      FlattenPrefix(pot.messages, pot.cursor);
      if readInd >= writeInd {
        readInd := 0;
      }
      pot := Pot(pot.messages, Current(pot));
      MessageAt(pot.messages, pot.cursor);
      assert pot.messages[pot.cursor] in pot.messages;
    }

    /** snprintf(tmpBuf, size, "%s\n", &cookiePot[readInd]): at most size - 1 bytes and a NUL are written,
        the full length is returned. */
    method Snprintf(ghost m: Message) returns (len: nat)
      requires cookiePot != tmpBuf && cookiePot.Length == tmpBuf.Length
      requires readInd + |m| < cookiePot.Length && NUL !in m
      requires cookiePot[readInd..readInd + |m|] == m && cookiePot[readInd + |m|] == NUL
      modifies tmpBuf
      ensures len == |m| + 1 <= tmpBuf.Length && tmpBuf[..len] == Line(m, tmpBuf.Length)
    {
      forall i | readInd <= i < readInd + |m| ensures cookiePot[i] != NUL {
        var k := i - readInd;
        assert m[k] in m && cookiePot[readInd..readInd + |m|][k] == m[k];
      }
      var n := 0;
      while cookiePot[readInd + n] != NUL
        invariant n <= |m|
        invariant tmpBuf[..n] == m[..n] && cookiePot[..] == old(cookiePot[..])
        decreases |m| - n
      {
        tmpBuf[n] := cookiePot[readInd + n];
        assert tmpBuf[n] == cookiePot[readInd..readInd + |m|][n] == m[n];
        n := n + 1;
      }
      assert m[..|m|] == m;
      if n + 1 < tmpBuf.Length {
        tmpBuf[n] := NEWLINE;
        tmpBuf[n + 1] := NUL;
      } else {
        tmpBuf[n] := NUL;
      }
      len := n + 1;
    }

    /** Copy as far as the reader's memory goes; what is left of the length is returned. */
    method CopyToUser(user: array<byte>, len: nat) returns (left: nat)
      requires user != tmpBuf && len <= tmpBuf.Length
      modifies user
      ensures left == if len <= user.Length then 0 else len - user.Length
      ensures user[..len - left] == tmpBuf[..len - left] && user[len - left..] == old(user[len - left..])
    {
      var copied := if len <= user.Length then len else user.Length;
      forall k | 0 <= k < copied {
        user[k] := tmpBuf[k];
      }
      left := len - copied;
    }

    /** A read at a fresh position into memory that can hold the pot: the line, if there is one. */
    method ReadLine() returns (line: seq<seq<byte>>)
      requires Valid()
      modifies this`readInd, this`pot, tmpBuf
      ensures Valid() && pot == Do(old(pot), cookiePot.Length, Fetch)
      ensures
        var m := Got(old(pot), Fetch);
        |line| == |m| && forall k | 0 <= k < |m| :: line[k] == Line(m[k], cookiePot.Length)
    {
      hide Flatten;
      var user := new byte[cookiePot.Length](_ => NUL);
      if pot.messages != [] {
        MessageAt(pot.messages, Current(pot));
      }
      var r, newPos := Read(user, user.Length, 0);
      line := if r > 0 then [user[..r]] else [];
    }

    /** A sequence of writes and of reads, each read at a fresh position into memory that can hold the pot,
        up to the first write that leaves the pot. */
    method Perform(ops: seq<Op>) returns (lines: seq<seq<byte>>, inside: bool)
      requires Valid()
      modifies this`readInd, this`writeInd, this`pot, cookiePot, tmpBuf
      ensures inside <==> Run(old(pot), cookiePot.Length, ops).Inside?
      ensures inside ==>
        var o := Run(old(pot), cookiePot.Length, ops);
        && Valid() && pot == o.pot
        && |lines| == |o.read| && forall k | 0 <= k < |lines| :: lines[k] == Line(o.read[k], cookiePot.Length)
    {
      hide Flatten, Pieces, Used, Escapes, Written, Gain, Straight, Current;
      ghost var o := Inside(pot, [], [], true);
      inside, lines := true, [];
      var i := 0;
      while i < |ops| && inside
        invariant i <= |ops| && o == Run(old(pot), cookiePot.Length, ops[..i]) && o.Inside? == inside
        invariant inside ==> Valid() && pot == o.pot && |lines| == |o.read|
        invariant inside ==> forall k | 0 <= k < |lines| :: lines[k] == Line(o.read[k], cookiePot.Length)
      {
        assert ops[..i + 1][..i] == ops[..i];
        match ops[i] {
          case Put(data) =>
            var r := Write(data);
            inside := r.Returned?;
          case Fetch =>
            var line := ReadLine();
            lines := lines + line;
        }
        i := i + 1;
        o := Run(old(pot), cookiePot.Length, ops[..i]);
      }
      if inside {
        assert ops[..i] == ops;
      } else {
        OutsideStays(old(pot), cookiePot.Length, ops, i);
      }
    }
  }

  /** Appending leaves the boundary of the cursor where it was. */
  lemma AppendKeeps(messages: seq<Message>, cursor: nat, data: seq<byte>)
    requires cursor <= |messages|
    ensures Flatten(messages + Pieces(data)) == Flatten(messages) + Ended(data)
    ensures (messages + Pieces(data))[..cursor] == messages[..cursor]
  {
    FlattenCut(Ended(data));
    FlattenConcat(messages, Pieces(data));
  }

  /** The messages take no room exactly if there are none; otherwise the last byte is a NUL. */
  lemma FlattenEnds(messages: seq<Message>)
    ensures Flatten(messages) == [] <==> messages == []
    ensures messages != [] ==> Flatten(messages)[|Flatten(messages)| - 1] == NUL
  {
  }

  /** The boundary before message k, and that the cursor is at the end exactly if its boundary is. */
  lemma FlattenPrefix(messages: seq<Message>, k: nat)
    requires k <= |messages|
    ensures Flatten(messages[..k]) <= Flatten(messages)
    ensures |Flatten(messages[..k])| == |Flatten(messages)| <==> k == |messages|
    ensures k < |messages| ==> |Flatten(messages[..k + 1])| == |Flatten(messages[..k])| + |messages[k]| + 1
  {
    assert messages == messages[..k] + messages[k..];
    FlattenConcat(messages[..k], messages[k..]);
    FlattenEnds(messages[k..]);
    assert messages[..|messages|] == messages;
    if k < |messages| {
      assert messages[..k + 1][..k] == messages[..k];
    }
  }

  lemma FlattenLast(messages: seq<Message>)
    requires messages != []
    ensures Flatten(messages) == Flatten(messages[..|messages| - 1]) + messages[|messages| - 1] + [NUL]
  {
  }

  /** Message k starts at its boundary and ends with a NUL inside the used bytes. */
  lemma MessageAt(messages: seq<Message>, k: nat)
    requires k < |messages|
    ensures var bytes, from, m := Flatten(messages), |Flatten(messages[..k])|, messages[k];
      from + |m| < |bytes| && bytes[from..from + |m|] == m && bytes[from + |m|] == NUL
  {
    hide Flatten;
    var front := Flatten(messages[..k]);
    FlattenPrefix(messages, k + 1);
    assert messages[..k + 1][..k] == messages[..k];
    var bytes := Flatten(messages);
    FlattenLast(messages[..k + 1]);
    assert bytes[..|front| + |messages[k]| + 1] == front + messages[k] + [NUL];
    var to := |front| + |messages[k]|;
    assert bytes[|front|..to] == bytes[..to + 1][|front|..to];
  }
}
