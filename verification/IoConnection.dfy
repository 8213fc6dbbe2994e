/** The other transcription of the framer: the receive side of an I/O connection. It has the modes of
    the socket channel but for NEVER, keeps no statistics, and does not look at what its callback
    answers. */
module IoConnection {
  import opened Framing

  class Connection {
    const setup: Setup
    const data: array<Byte>
    var writeIndex: nat
    var delimiterStart: nat
    /** The packets handed to V_DataRead, in order. */
    var delivered: seq<Packet>

    ghost predicate Valid()
      reads this, data
    {
      && setup.notify != Never
      && data.Length == setup.size
      && delimiterStart <= writeIndex <= setup.size
      && (setup.size > 0 ==> writeIndex < setup.size)
      && (setup.notify != WhenFullOrDelimiter ==> delimiterStart == 0)
      && (setup.notify == Asap ==> writeIndex == 0)
      && Unfinished(setup, data[delimiterStart..writeIndex])
    }

    ghost function State(): Framed
      requires delimiterStart <= writeIndex <= data.Length
      reads this, data
    {
      Framed(delivered, data[delimiterStart..writeIndex])
    }

    constructor (setup: Setup)
      requires setup.notify != Never
      ensures Valid() && fresh(data) && this.setup == setup && State() == EMPTY
    {
      this.setup := setup;
      data := new Byte[setup.size];
      writeIndex, delimiterStart, delivered := 0, 0, [];
    }

    method GetBuffer() returns (start: nat, room: nat)
      requires Valid()
      ensures start == writeIndex && start + room == setup.size
      ensures setup.size > 0 ==> room > 0
    {
      start, room := writeIndex, setup.size - writeIndex;
    }

    // ---- Delimiter mode --------------------------------------------------------------------------

    /** Up to position `i` the reference framer, started in `f` at position `first`, has delivered the
        same packets, and it holds the bytes from the start of the pending packet on. */
    ghost predicate Agrees(f: Framed, first: nat, i: nat)
      reads this, data
    {
      && first <= i <= data.Length && delimiterStart <= i
      && setup.delimiter !in data[delimiterStart..i]
      && Feed(setup, f, data[first..i]) == Flush(setup, Framed(delivered, data[delimiterStart..i]))
    }

    lemma NextByte(f: Framed, first: nat, i: nat)
      requires setup.notify == WhenFullOrDelimiter && data.Length == setup.size
      requires Agrees(f, first, i) && i < data.Length
      ensures if data[i] != setup.delimiter then Agrees(f, first, i + 1)
        else Feed(setup, f, data[first..i + 1]) == Framed(delivered + [data[delimiterStart..i + 1]], [])
    {
      ScanStep(setup, f, data[first..i], Framed(delivered, data[delimiterStart..i]), data[i]);
      assert data[first..i + 1] == data[first..i] + [data[i]];
      assert data[delimiterStart..i + 1] == data[delimiterStart..i] + [data[i]];
    }

    /** The body of the `if`: the packet up to the delimiter at position `i` is handed over. */
    method HandOver(ghost f: Framed, ghost first: nat, i: nat)
      requires setup.notify == WhenFullOrDelimiter && data.Length == setup.size
      requires Agrees(f, first, i) && i < data.Length && data[i] == setup.delimiter
      modifies `delimiterStart, `delivered
      ensures delimiterStart == i + 1 && Agrees(f, first, i + 1)
    {
      NextByte(f, first, i);
      delivered := delivered + [data[delimiterStart..i + 1]];
      delimiterStart := i + 1;
    }

    /** The do/for nest: the `for` breaks behind each delimiter, and the `do` starts it again there. */
    method ScanForDelimiters(ghost f: Framed, first: nat, last: nat)
      requires setup.notify == WhenFullOrDelimiter && data.Length == setup.size
      requires first < last <= data.Length && Agrees(f, first, first)
      modifies `delimiterStart, `delivered
      ensures Agrees(f, first, last)
    {
      var start, i, more := first, first, true;
      while more
        invariant first <= start <= last
        invariant Agrees(f, first, if more then start else last)
        decreases last - start, more
      {
        i := start;
        while i < last
          invariant start <= i <= last && Agrees(f, first, i)
        {
          if data[i] == setup.delimiter {
            HandOver(f, first, i);
            start := i + 1;
            break;
          }
          NextByte(f, first, i);
          i := i + 1;
        }
        more := i < last;
      }
    }

    /** The overlapping memcpy of the pending bytes, in ascending order. */
    method MoveToFront(toMove: nat)
      requires 0 < delimiterStart && delimiterStart + toMove == data.Length
      modifies data
      ensures data[..toMove] == old(data[delimiterStart..])
    {
      for i := 0 to toMove
        invariant forall k :: 0 <= k < i ==> data[k] == old(data[delimiterStart + k])
        invariant forall k :: i <= k < data.Length ==> data[k] == old(data[k])
      {
        data[i] := data[delimiterStart + i];
      }
    }

    /** A full buffer is one packet, or its pending bytes move to the front. */
    method MakeRoom()
      requires data.Length == setup.size == writeIndex > 0 && delimiterStart <= setup.size
      modifies this, data
      ensures delimiterStart == 0 && writeIndex < setup.size
      ensures State() == Flush(setup, old(State()))
    {
      if delimiterStart == 0 {
        assert data[..] == data[0..writeIndex];
        delivered := delivered + [data[..]];
        writeIndex := 0;
      } else {
        var toMove := setup.size - delimiterStart;
        if toMove != 0 {
          MoveToFront(toMove);
        }
        writeIndex, delimiterStart := toMove, 0;
      }
    }

    method ReadyDelimited(start: nat)
      requires setup.notify == WhenFullOrDelimiter && data.Length == setup.size
      requires delimiterStart <= start < writeIndex <= setup.size
      requires setup.delimiter !in data[delimiterStart..start]
      modifies this, data
      ensures Valid()
      ensures State() == Feed(setup, old(Framed(delivered, data[delimiterStart..start])), old(data[start..writeIndex]))
    {
      ghost var f := Framed(delivered, data[delimiterStart..start]);
      assert data[start..start] == [];
      ScanForDelimiters(f, start, writeIndex);
      if writeIndex >= setup.size {
        MakeRoom();
      }
    }

    // ---- All modes -------------------------------------------------------------------------------

    /** ASAP and WHEN_FULL mode: the buffer is handed over at once, or when it is full. */
    method ReadyWhole(start: nat)
      requires setup.notify == Asap || setup.notify == WhenFull
      requires delimiterStart == 0 && start < writeIndex <= setup.size == data.Length
      requires setup.notify == Asap ==> start == 0
      modifies this
      ensures Valid()
      ensures State() == Receive(setup, old(Framed(delivered, data[..start])), data[start..old(writeIndex)])
    {
      assert data[..start] + data[start..writeIndex] == data[..writeIndex] == data[0..writeIndex];
      if setup.notify == Asap {
        delivered := delivered + [data[..writeIndex]];
        writeIndex := 0;
      } else {
        FillsUp(setup, Framed(delivered, data[..start]), data[start..writeIndex]);
        if writeIndex == setup.size {
          delivered := delivered + [data[..writeIndex]];
          writeIndex := 0;
        }
      }
    }

    /** The bytes that a read of `nb` bytes stored; a count beyond the room is cut down to it. */
    ghost function NewBytes(nb: nat): seq<Byte>
      requires writeIndex <= setup.size == data.Length
      reads this, data
    {
      data[writeIndex..writeIndex + if nb <= setup.size - writeIndex then nb else setup.size - writeIndex]
    }

    method OnReadyRead(nb: nat)
      requires Valid()
      modifies this, data
      ensures Valid()
      ensures State() == Receive(setup, old(State()), old(NewBytes(nb)))
    {
      if nb != 0 {
        var remaining := setup.size - writeIndex;
        var count := if nb <= remaining then nb else remaining;
        if count != 0 {
          var start := writeIndex;
          ghost var chunk := NewBytes(nb);
          writeIndex := writeIndex + count;
          assert chunk == data[start..writeIndex];
          if setup.notify == WhenFullOrDelimiter {
            ReadyDelimited(start);
          } else {
            assert data[..start] == data[0..start];
            ReadyWhole(start);
          }
        }
      }
    }

    /** One read event: `chunk` is stored in the room that GetBuffer offered, and reported. */
    method Read(chunk: seq<Byte>)
      requires Valid() && writeIndex + |chunk| <= setup.size
      modifies this, data
      ensures Valid()
      ensures State() == Receive(setup, old(State()), chunk)
    {
      ghost var pending := data[delimiterStart..writeIndex];
      forall i | 0 <= i < |chunk| {
        data[writeIndex + i] := chunk[i];
      }
      assert data[delimiterStart..writeIndex] == pending;
      assert NewBytes(|chunk|) == chunk;
      OnReadyRead(|chunk|);
    }
  }
}
