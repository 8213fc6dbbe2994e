/** The receive side of a socket channel: a fixed buffer, a write cursor and the start of the pending
    packet, driven by GetBuffer and OnReadyRead, with statistics. Every method is proved against
    module Framing. */
module ReceiveFramer {
  import opened Basics
  import opened Framing

  // ---- Statistics -----------------------------------------------------------------------------

  /** How many of the first `n` packets the callback accepted; `verdict(i)` is its answer to the
      packet number `i`. */
  function Accepted(verdict: nat -> bool, n: nat): nat {
    if n == 0 then 0 else Accepted(verdict, n - 1) + (if verdict(n - 1) then 1 else 0)
  }

  function Refused(verdict: nat -> bool, n: nat): nat {
    if n == 0 then 0 else Refused(verdict, n - 1) + (if verdict(n - 1) then 0 else 1)
  }

  /** The total size of the accepted packets. */
  function AcceptedBytes(verdict: nat -> bool, packets: seq<Packet>): nat {
    if packets == [] then 0
    else
      var n := |packets| - 1;
      AcceptedBytes(verdict, packets[..n]) + (if verdict(n) then |packets[n]| else 0)
  }

  /** The packets that the callback accepted, and those it refused, in order. */
  function Kept(verdict: nat -> bool, packets: seq<Packet>, answer: bool): seq<Packet> {
    if packets == [] then []
    else
      var n := |packets| - 1;
      Kept(verdict, packets[..n], answer) + if verdict(n) == answer then [packets[n]] else []
  }

  /** Every delivered packet is counted once, as read or as refused, and the byte counter is the total
      size of the accepted ones and of no other. */
  lemma {:induction false} EveryPacketCountedOnce(verdict: nat -> bool, packets: seq<Packet>)
    ensures Accepted(verdict, |packets|) == |Kept(verdict, packets, true)|
    ensures Refused(verdict, |packets|) == |Kept(verdict, packets, false)|
    ensures Accepted(verdict, |packets|) + Refused(verdict, |packets|) == |packets|
    ensures AcceptedBytes(verdict, packets) == |Flatten(Kept(verdict, packets, true))|
    ensures |Flatten(packets)| == AcceptedBytes(verdict, packets) + |Flatten(Kept(verdict, packets, false))|
  {
    if packets != [] {
      var n := |packets| - 1;
      EveryPacketCountedOnce(verdict, packets[..n]);
      FlattenSnoc(Kept(verdict, packets[..n], verdict(n)), packets[n]);
      assert Kept(verdict, packets, !verdict(n)) == Kept(verdict, packets[..n], !verdict(n));
    }
  }

  lemma WrapAdd32(a: nat, b: nat)
    ensures (a % U32_RANGE + b) % U32_RANGE == (a + b) % U32_RANGE
  {
  }

  lemma WrapAdd64(a: nat, b: nat)
    ensures (a % U64_RANGE + b) % U64_RANGE == (a + b) % U64_RANGE
  {
  }

  // ---- The framer -----------------------------------------------------------------------------

  class Framer {
    const setup: Setup
    const verdict: nat -> bool
    const data: array<Byte>
    var writeIndex: nat
    var delimiterStart: nat
    var nbOpRead: nat
    var nbOpReadError: nat
    var nbDataByteRead: nat
    /** The packets handed to the callback, in order. */
    var delivered: seq<Packet>

    ghost predicate Counted()
      reads this
    {
      && nbOpRead == Accepted(verdict, |delivered|) % U32_RANGE
      && nbOpReadError == Refused(verdict, |delivered|) % U32_RANGE
      && nbDataByteRead == AcceptedBytes(verdict, delivered) % U64_RANGE
    }

    ghost predicate Valid()
      reads this, data
    {
      && data.Length == setup.size
      && delimiterStart <= writeIndex <= setup.size
      && (setup.size > 0 ==> writeIndex < setup.size)
      && (setup.notify != WhenFullOrDelimiter ==> delimiterStart == 0)
      && (!Cutting(setup) ==> writeIndex == 0)
      && Unfinished(setup, Pending())
      && Counted()
    }

    ghost function Pending(): Packet
      requires delimiterStart <= writeIndex <= data.Length
      reads this, data
    {
      data[delimiterStart..writeIndex]
    }

    ghost function State(): Framed
      requires delimiterStart <= writeIndex <= data.Length
      reads this, data
    {
      Framed(delivered, Pending())
    }

    constructor (setup: Setup, verdict: nat -> bool)
      ensures Valid() && fresh(data)
      ensures this.setup == setup && this.verdict == verdict
      ensures State() == EMPTY
    {
      this.setup, this.verdict := setup, verdict;
      data := new Byte[setup.size];
      writeIndex, delimiterStart := 0, 0;
      nbOpRead, nbOpReadError, nbDataByteRead := 0, 0, 0;
      delivered := [];
    }

    /** GetBuffer: where the next bytes may land. In a valid framer with a real buffer there is
        always room, so a read can always make progress. */
    method GetBuffer() returns (start: nat, room: nat)
      requires Valid()
      ensures start == writeIndex && start + room == setup.size
      ensures setup.size > 0 ==> room > 0
    {
      start, room := writeIndex, setup.size - writeIndex;
    }

    /** OnDataRead and the statistics that follow each call of it. */
    method Deliver(packet: Packet)
      requires Counted()
      modifies `delivered, `nbOpRead, `nbOpReadError, `nbDataByteRead
      ensures delivered == old(delivered) + [packet]
      ensures Counted()
    {
      ghost var n := |delivered|;
      var accepted := verdict(|delivered|);
      delivered := delivered + [packet];
      assert delivered[..n] == old(delivered);
      WrapAdd32(Accepted(verdict, n), 1);
      WrapAdd32(Refused(verdict, n), 1);
      WrapAdd64(AcceptedBytes(verdict, old(delivered)), |packet|);
      if accepted {
        nbOpRead := (nbOpRead + 1) % U32_RANGE;
        nbDataByteRead := (nbDataByteRead + |packet|) % U64_RANGE;
      } else {
        nbOpReadError := (nbOpReadError + 1) % U32_RANGE;
      }
    }

    /** Up to position `i` the reference framer, started in `f` at position `first`, has delivered
        the same packets and holds the same pending bytes. */
    ghost predicate Scanned(f: Framed, first: nat, i: nat)
      reads this, data
    {
      && first <= i <= data.Length
      && delimiterStart <= i
      && setup.delimiter !in data[delimiterStart..i]
      && Feed(setup, f, data[first..i]) == Flush(setup, Framed(delivered, data[delimiterStart..i]))
    }

    lemma ScanStart(first: nat)
      requires delimiterStart <= first < data.Length == setup.size
      requires setup.delimiter !in data[delimiterStart..first]
      ensures Scanned(Framed(delivered, data[delimiterStart..first]), first, first)
    {
      assert data[first..first] == [];
    }

    /** The inner `for`: the next delimiter in data[from..last), or `last`. */
    method FindDelimiter(from: nat, last: nat) returns (i: nat)
      requires from <= last <= data.Length
      ensures from <= i <= last
      ensures setup.delimiter !in data[from..i]
      ensures i < last ==> data[i] == setup.delimiter
    {
      i := from;
      while i < last
        invariant from <= i <= last
        invariant setup.delimiter !in data[from..i]
      {
        if data[i] == setup.delimiter {
          break;
        }
        i := i + 1;
      }
    }

    lemma {:induction false} SkipBytes(f: Framed, first: nat, from: nat, i: nat)
      requires setup.notify == WhenFullOrDelimiter && data.Length == setup.size
      requires Scanned(f, first, from) && from <= i <= data.Length
      requires setup.delimiter !in data[from..i]
      ensures Scanned(f, first, i)
      decreases i
    {
      if from < i {
        var j := i - 1;
        assert data[from..i] == data[from..j] + [data[j]];
        SkipBytes(f, first, from, j);
        ScanStep(setup, f, data[first..j], Framed(delivered, data[delimiterStart..j]), data[j]);
        assert data[first..i] == data[first..j] + [data[j]];
        assert data[delimiterStart..i] == data[delimiterStart..j] + [data[j]];
      }
    }

    /** A delimiter at position `i` ends the pending packet. */
    method CutAt(ghost f: Framed, ghost first: nat, i: nat)
      requires setup.notify == WhenFullOrDelimiter && data.Length == setup.size
      requires Scanned(f, first, i) && i < data.Length && data[i] == setup.delimiter
      requires Counted()
      modifies `delimiterStart, `delivered, `nbOpRead, `nbOpReadError, `nbDataByteRead
      ensures Counted() && delimiterStart == i + 1
      ensures Scanned(f, first, i + 1)
    {
      ScanStep(setup, f, data[first..i], Framed(delivered, data[delimiterStart..i]), data[i]);
      assert data[first..i + 1] == data[first..i] + [data[i]];
      assert data[delimiterStart..i + 1] == data[delimiterStart..i] + [data[i]];
      Deliver(data[delimiterStart..i + 1]);
      delimiterStart := i + 1;
    }

    /** The do/for nest of delimiter mode: deliver a packet at each delimiter in
        data[first..last), moving the start of the pending packet behind it. */
    method CutAtDelimiters(first: nat, last: nat)
      requires setup.notify == WhenFullOrDelimiter
      requires delimiterStart <= first < last <= data.Length == setup.size
      requires setup.delimiter !in data[delimiterStart..first]
      requires Counted()
      modifies `delimiterStart, `delivered, `nbOpRead, `nbOpReadError, `nbDataByteRead
      ensures Counted()
      ensures Scanned(old(Framed(delivered, data[delimiterStart..first])), first, last)
    {
      ghost var f, pos := Framed(delivered, data[delimiterStart..first]), first;
      ScanStart(first);
      var start, again := first, true;
      while again
        invariant first <= start <= last && Counted()
        invariant pos == if again then start else last
        invariant Scanned(f, first, pos)
        decreases last - start, again
      {
        var i := FindDelimiter(start, last);
        SkipBytes(f, first, start, i);
        pos := i;
        if i < last {
          CutAt(f, first, i);
          start := i + 1;
          pos := i + 1;
        }
        again := i < last;
      }
    }

    /** The overlapping move of the pending bytes to the front of the buffer, byte by byte in
        ascending order. */
    method Compact()
      requires 0 < delimiterStart <= data.Length
      modifies data
      ensures data[..data.Length - delimiterStart] == old(data[delimiterStart..])
    {
      var count := data.Length - delimiterStart;
      var i := 0;
      while i < count
        invariant 0 <= i <= count
        invariant forall k :: 0 <= k < i ==> data[k] == old(data[delimiterStart + k])
        invariant forall k :: i <= k < data.Length ==> data[k] == old(data[k])
      {
        data[i] := data[delimiterStart + i];
        i := i + 1;
      }
    }

    /** The end of delimiter mode: when the buffer is full, either the whole buffer is one packet
        or the pending bytes move to the front. */
    method MakeRoom()
      requires data.Length == setup.size == writeIndex > 0
      requires delimiterStart <= setup.size && Counted()
      modifies this, data
      ensures delimiterStart == 0 && writeIndex < setup.size && Counted()
      ensures State() == Flush(setup, old(State()))
    {
      if delimiterStart == 0 {
        assert data[..] == data[0..writeIndex];
        Deliver(data[..]);
        writeIndex := 0;
      } else {
        var toMove := setup.size - delimiterStart;
        assert toMove < setup.size;
        Compact();
        writeIndex := toMove;
        delimiterStart := 0;
      }
    }

    /** NEVER and ASAP mode, once the new bytes are counted in. */
    method ReadyUncut()
      requires !Cutting(setup)
      requires delimiterStart == 0 < writeIndex <= setup.size == data.Length && Counted()
      modifies this
      ensures Valid()
      ensures State() == Receive(setup, old(Framed(delivered, [])), old(data[..writeIndex]))
    {
      if setup.notify == Asap {
        Deliver(data[..writeIndex]);
      }
      writeIndex := 0;
    }

    /** WHEN_FULL mode, once the bytes behind `start` are counted in. */
    method ReadyWhenFull(start: nat)
      requires setup.notify == WhenFull
      requires delimiterStart == 0 && start < writeIndex <= setup.size == data.Length && Counted()
      modifies this
      ensures Valid()
      ensures State() == Feed(setup, old(Framed(delivered, data[..start])), data[start..old(writeIndex)])
    {
      FillsUp(setup, Framed(delivered, data[..start]), data[start..writeIndex]);
      assert data[..start] + data[start..writeIndex] == data[0..writeIndex];
      if writeIndex == setup.size {
        assert data[..] == data[0..writeIndex];
        Deliver(data[..]);
        writeIndex := 0;
      }
    }

    /** WHEN_FULL_OR_DELIMITER_FOUND mode, once the bytes behind `start` are counted in. */
    method ReadyDelimited(start: nat)
      requires setup.notify == WhenFullOrDelimiter
      requires delimiterStart <= start < writeIndex <= setup.size == data.Length && Counted()
      requires setup.delimiter !in data[delimiterStart..start]
      modifies this, data
      ensures Valid()
      ensures State() == Feed(setup, old(Framed(delivered, data[delimiterStart..start])), old(data[start..writeIndex]))
    {
      assert writeIndex <= setup.size && delimiterStart < setup.size;
      CutAtDelimiters(start, writeIndex);
      if writeIndex >= setup.size {
        MakeRoom();
      }
    }

    /** OnReadyRead: `nb` new bytes were stored behind the write cursor. Whatever the mode, the
        delivered packets and the pending bytes become those of the specification. */
    method OnReadyRead(nb: nat)
      requires Valid()
      modifies this, data
      ensures Valid()
      ensures State() == Receive(setup, old(State()), old(NewBytes(nb)))
    {
      var remaining := setup.size - writeIndex;
      var count := if nb <= remaining then nb else remaining;
      if count != 0 {
        var start := writeIndex;
        ghost var f, chunk := State(), NewBytes(nb);
        writeIndex := writeIndex + count;
        assert chunk == data[start..writeIndex] && f == Framed(delivered, data[delimiterStart..start]);
        if setup.notify == WhenFullOrDelimiter {
          ReadyDelimited(start);
        } else if setup.notify == WhenFull {
          assert data[..start] == data[0..start];
          ReadyWhenFull(start);
        } else {
          ReadyUncut();
        }
      }
    }

    /** The bytes that a read of `nb` bytes stored; a count beyond the room is cut down to it. */
    ghost function NewBytes(nb: nat): seq<Byte>
      requires writeIndex <= setup.size == data.Length
      reads this, data
    {
      data[writeIndex..writeIndex + if nb <= setup.size - writeIndex then nb else setup.size - writeIndex]
    }

    /** One read event: the loop stores `chunk` in the room that GetBuffer offered and reports it. */
    method Read(chunk: seq<Byte>)
      requires Valid()
      requires writeIndex + |chunk| <= setup.size
      modifies this, data
      ensures Valid()
      ensures State() == Receive(setup, old(State()), chunk)
    {
      ghost var pending := Pending();
      forall i | 0 <= i < |chunk| {
        data[writeIndex + i] := chunk[i];
      }
      assert Pending() == pending;
      assert NewBytes(|chunk|) == chunk;
      OnReadyRead(|chunk|);
    }

    /** The next read of a session that has consumed stream[..done]. */
    method PumpOnce(ghost f: Framed, stream: seq<Byte>, done: nat, burst: nat) returns (count: nat)
      requires Valid() && Cutting(setup) && setup.size > 0
      requires done < |stream| && State() == Feed(setup, f, stream[..done])
      modifies this, data
      ensures Valid() && 1 <= count && done + count <= |stream|
      ensures State() == Feed(setup, f, stream[..done + count])
    {
      var _, room := GetBuffer();
      count := ReadSize(burst, room, |stream| - done);
      FeedSlice(setup, f, stream, done, count);
      Read(stream[done..done + count]);
    }

    /** A whole session. The k-th read brings as many bytes as the peer feels like sending
        (`burst(k)`), at least one and never more than the room offered. The stream is always
        consumed to its end, and what is delivered depends on the stream alone. */
    method Pump(stream: seq<Byte>, burst: nat -> nat)
      requires Valid() && Cutting(setup) && setup.size > 0
      modifies this, data
      ensures Valid()
      ensures State() == Feed(setup, old(State()), stream)
    {
      ghost var f := State();
      var done, k := 0, 0;
      assert stream[..done] == [];
      while done < |stream|
        invariant 0 <= done <= |stream|
        invariant Valid() && State() == Feed(setup, f, stream[..done])
      {
        var count := PumpOnce(f, stream, done, burst(k));
        done, k := done + count, k + 1;
      }
      assert stream[..done] == stream;
    }
  }
}
