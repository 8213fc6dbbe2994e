/** The reference framer: what cutting a byte stream into packets means, one byte at a time.

    The receive path of a channel (module ReceiveFramer) works on a fixed buffer, in whatever
    chunks the socket hands over. Here the same cutting is stated on plain sequences, and the
    properties a client relies on are proved about it.
 */
module Framing {

  newtype Byte = x: int | 0 <= x < 256

  type Packet = seq<Byte>

  /** When the notification callback is called (BOF_SOCKET_NOTIFY_TYPE). */
  datatype NotifyType = Never | Asap | WhenFull | WhenFullOrDelimiter

  /** The fixed setup of a channel's receive side. */
  datatype Setup = Setup(notify: NotifyType, delimiter: Byte, size: nat)

  /** The packets delivered so far and the bytes of the packet still being received. */
  datatype Framed = Framed(packets: seq<Packet>, pending: Packet)

  /** Must the packet `p` be delivered once its last byte has been received? */
  predicate Complete(setup: Setup, p: Packet)
    requires |p| > 0
  {
    |p| == setup.size || (setup.notify == WhenFullOrDelimiter && p[|p| - 1] == setup.delimiter)
  }

  /** One byte of the reference framer. */
  function Push(setup: Setup, f: Framed, b: Byte): Framed {
    var p := f.pending + [b];
    if Complete(setup, p) then Framed(f.packets + [p], []) else Framed(f.packets, p)
  }

  /** The reference framer on a whole run of bytes. */
  function Feed(setup: Setup, f: Framed, bytes: seq<Byte>): Framed {
    if bytes == [] then f
    else Push(setup, Feed(setup, f, bytes[..|bytes| - 1]), bytes[|bytes| - 1])
  }

  /** What one successful read of `chunk` does to a channel, in every notification mode. The two
      cutting modes go through the reference framer, ASAP hands the chunk over and NEVER drops it. */
  function Receive(setup: Setup, f: Framed, chunk: seq<Byte>): Framed {
    if chunk == [] then f
    else match setup.notify
      case Never => Framed(f.packets, [])
      case Asap => Framed(f.packets + [chunk], [])
      case WhenFull => Feed(setup, f, chunk)
      case WhenFullOrDelimiter => Feed(setup, f, chunk)
  }

  function ReceiveAll(setup: Setup, f: Framed, chunks: seq<seq<Byte>>): Framed {
    if chunks == [] then f
    else Receive(setup, ReceiveAll(setup, f, chunks[..|chunks| - 1]), chunks[|chunks| - 1])
  }

  function Flatten(chunks: seq<seq<Byte>>): seq<Byte> {
    if chunks == [] then [] else Flatten(chunks[..|chunks| - 1]) + chunks[|chunks| - 1]
  }

  predicate Cutting(setup: Setup) {
    setup.notify == WhenFull || setup.notify == WhenFullOrDelimiter
  }

  const EMPTY := Framed([], [])

  // ---- Chunking does not matter --------------------------------------------------------------

  lemma {:induction false} FeedAppend(setup: Setup, f: Framed, a: seq<Byte>, b: seq<Byte>)
    ensures Feed(setup, f, a + b) == Feed(setup, Feed(setup, f, a), b)
  {
    if b == [] {
      assert a + b == a;
    } else {
      var ab := a + b;
      assert ab[..|ab| - 1] == a + b[..|b| - 1];
      FeedAppend(setup, f, a, b[..|b| - 1]);
    }
  }

  /** However a stream is split into reads, a cutting mode delivers what the reference framer
      delivers on the unsplit stream. */
  lemma {:induction false} ChunksAsOneStream(setup: Setup, f: Framed, chunks: seq<seq<Byte>>)
    requires Cutting(setup)
    ensures ReceiveAll(setup, f, chunks) == Feed(setup, f, Flatten(chunks))
  {
    if chunks != [] {
      var n := |chunks| - 1;
      ChunksAsOneStream(setup, f, chunks[..n]);
      FeedAppend(setup, f, Flatten(chunks[..n]), chunks[n]);
    }
  }

  /** Two chunkings of one stream deliver the same packets and leave the same bytes pending. */
  lemma ChunkingIndependence(setup: Setup, f: Framed, left: seq<seq<Byte>>, right: seq<seq<Byte>>)
    requires Cutting(setup)
    requires Flatten(left) == Flatten(right)
    ensures ReceiveAll(setup, f, left) == ReceiveAll(setup, f, right)
  {
    ChunksAsOneStream(setup, f, left);
    ChunksAsOneStream(setup, f, right);
  }

  // ---- What the packets are, said without the framer -------------------------------------------

  /** `p` is a complete packet and no shorter prefix of it was one. */
  predicate ExactPacket(setup: Setup, p: Packet) {
    && |p| > 0
    && Complete(setup, p)
    && Unfinished(setup, p[..|p| - 1])
  }

  /** `p` holds no place where it had to be delivered: it is shorter than the buffer and, in
      delimiter mode, free of delimiters. */
  predicate Unfinished(setup: Setup, p: Packet) {
    && (setup.size > 0 ==> |p| < setup.size)
    && (setup.notify == WhenFullOrDelimiter ==> setup.delimiter !in p)
  }

  predicate AllExact(setup: Setup, packets: seq<Packet>) {
    forall p :: p in packets ==> ExactPacket(setup, p)
  }

  /** The stream is the packets in order followed by the pending bytes, each packet is cut at the
      first place it may be, and the pending bytes hold no such place. */
  predicate IsFraming(setup: Setup, stream: seq<Byte>, f: Framed) {
    && stream == Flatten(f.packets) + f.pending
    && AllExact(setup, f.packets)
    && Unfinished(setup, f.pending)
  }

  lemma FlattenSnoc(packets: seq<Packet>, p: Packet)
    ensures Flatten(packets + [p]) == Flatten(packets) + p
  {
    assert (packets + [p])[..|packets|] == packets;
  }

  /** One more byte keeps a framing a framing. */
  lemma PushKeepsFraming(setup: Setup, stream: seq<Byte>, f: Framed, b: Byte)
    requires IsFraming(setup, stream, f)
    ensures IsFraming(setup, stream + [b], Push(setup, f, b))
  {
    var p := f.pending + [b];
    assert p[..|p| - 1] == f.pending;
    assert stream + [b] == Flatten(f.packets) + p;
    if Complete(setup, p) {
      FlattenSnoc(f.packets, p);
      assert ExactPacket(setup, p);
    }
  }

  lemma {:induction false} FeedIsFraming(setup: Setup, stream: seq<Byte>)
    ensures IsFraming(setup, stream, Feed(setup, EMPTY, stream))
  {
    if stream != [] {
      var n := |stream| - 1;
      FeedIsFraming(setup, stream[..n]);
      PushKeepsFraming(setup, stream[..n], Feed(setup, EMPTY, stream[..n]), stream[n]);
      assert stream == stream[..n] + [stream[n]];
    }
  }

  lemma {:induction false} UnfinishedStaysPending(setup: Setup, f: Framed, p: Packet)
    requires f.pending == []
    requires Unfinished(setup, p)
    ensures Feed(setup, f, p) == Framed(f.packets, p)
  {
    if p != [] {
      var q := p[..|p| - 1];
      UnfinishedStaysPending(setup, f, q);
      assert q + [p[|p| - 1]] == p;
    }
  }

  lemma ExactPacketIsDelivered(setup: Setup, packets: seq<Packet>, p: Packet)
    requires ExactPacket(setup, p)
    ensures Feed(setup, Framed(packets, []), p) == Framed(packets + [p], [])
  {
    var f, q, b := Framed(packets, []), p[..|p| - 1], p[|p| - 1];
    assert q + [b] == p;
    calc {
      Feed(setup, f, p);
      Push(setup, Feed(setup, f, q), b);
      { UnfinishedStaysPending(setup, f, q); }
      Push(setup, Framed(packets, q), b);
    }
  }

  lemma {:induction false} PacketsAreDelivered(setup: Setup, packets: seq<Packet>)
    requires AllExact(setup, packets)
    ensures Feed(setup, EMPTY, Flatten(packets)) == Framed(packets, [])
  {
    if packets != [] {
      var n := |packets| - 1;
      PacketsAreDelivered(setup, packets[..n]);
      FeedAppend(setup, EMPTY, Flatten(packets[..n]), packets[n]);
      ExactPacketIsDelivered(setup, packets[..n], packets[n]);
      assert packets[..n] + [packets[n]] == packets;
    }
  }

  /** The framing of a stream is unique: the reference framer computes it, and nothing else meets
      the description. */
  lemma FramingIsUnique(setup: Setup, stream: seq<Byte>, f: Framed)
    ensures IsFraming(setup, stream, f) <==> f == Feed(setup, EMPTY, stream)
  {
    FeedIsFraming(setup, stream);
    if IsFraming(setup, stream, f) {
      PacketsAreDelivered(setup, f.packets);
      FeedAppend(setup, EMPTY, Flatten(f.packets), f.pending);
      UnfinishedStaysPending(setup, Framed(f.packets, []), f.pending);
    }
  }

  // ---- Consequences a client sees ----------------------------------------------------------------

  /** In WHEN_FULL mode the packets are exactly the consecutive blocks of `size` bytes. */
  lemma WhenFullBlocks(setup: Setup, stream: seq<Byte>)
    requires setup.notify == WhenFull && setup.size > 0
    ensures var f := Feed(setup, EMPTY, stream);
      && |f.packets| * setup.size <= |stream| < |f.packets| * setup.size + setup.size
      && (forall i :: 0 <= i < |f.packets| ==> IsBlock(stream, setup.size, i, f.packets[i]))
      && f.pending == stream[|f.packets| * setup.size..]
  {
    FeedIsFraming(setup, stream);
    var f := Feed(setup, EMPTY, stream);
    EqualPacketsLength(setup.size, f.packets);
    forall i | 0 <= i < |f.packets|
      ensures IsBlock(stream, setup.size, i, f.packets[i])
    {
      EqualPacketIsBlock(setup.size, f.packets, f.pending, i);
    }
  }

  /** `p` is the block number `i` of `stream` cut every `size` bytes. */
  predicate IsBlock(stream: seq<Byte>, size: nat, i: nat, p: Packet) {
    |p| == size && i * size + size <= |stream| && p == stream[i * size..i * size + size]
  }

  lemma {:induction false} EqualPacketsLength(size: nat, packets: seq<Packet>)
    requires forall p :: p in packets ==> |p| == size
    ensures |Flatten(packets)| == |packets| * size
  {
    if packets != [] {
      var n := |packets| - 1;
      EqualPacketsLength(size, packets[..n]);
      OneMoreBlock(n, size);
    }
  }

  lemma OneMoreBlock(n: nat, size: nat)
    ensures (n + 1) * size == n * size + size
  {
  }

  lemma {:induction false} EqualPacketIsBlock(size: nat, packets: seq<Packet>, rest: seq<Byte>, i: nat)
    requires forall p :: p in packets ==> |p| == size
    requires i < |packets|
    ensures IsBlock(Flatten(packets) + rest, size, i, packets[i])
  {
    var n := |packets| - 1;
    var front := Flatten(packets[..n]);
    assert Flatten(packets) + rest == front + (packets[n] + rest);
    if i < n {
      EqualPacketIsBlock(size, packets[..n], packets[n] + rest, i);
    } else {
      EqualPacketsLength(size, packets[..n]);
      SliceAfter(front, packets[n], rest);
    }
  }

  lemma SliceAfter(a: seq<Byte>, p: seq<Byte>, rest: seq<Byte>)
    ensures (a + (p + rest))[|a|..|a| + |p|] == p
  {
  }

  /** The reads that brought something. */
  function NonEmpty(chunks: seq<seq<Byte>>): seq<Packet> {
    if chunks == [] then []
    else NonEmpty(chunks[..|chunks| - 1]) + if chunks[|chunks| - 1] == [] then [] else [chunks[|chunks| - 1]]
  }

  /** In ASAP mode the packets are the non-empty reads, one by one, so no byte is lost or reordered. */
  lemma {:induction false} AsapConserves(setup: Setup, chunks: seq<seq<Byte>>)
    requires setup.notify == Asap
    ensures ReceiveAll(setup, EMPTY, chunks) == Framed(NonEmpty(chunks), [])
    ensures Flatten(NonEmpty(chunks)) == Flatten(chunks)
  {
    if chunks != [] {
      var n := |chunks| - 1;
      AsapConserves(setup, chunks[..n]);
      if chunks[n] != [] {
        FlattenSnoc(NonEmpty(chunks[..n]), chunks[n]);
      }
    }
  }

  /** In NEVER mode nothing is ever delivered, and nothing is kept of a read. */
  lemma {:induction false} NeverDelivers(setup: Setup, f: Framed, chunks: seq<seq<Byte>>)
    requires setup.notify == Never
    ensures ReceiveAll(setup, f, chunks).packets == f.packets
    ensures ReceiveAll(setup, f, chunks).pending == if Flatten(chunks) == [] then f.pending else []
  {
    if chunks != [] {
      NeverDelivers(setup, f, chunks[..|chunks| - 1]);
    }
  }

  // ---- Steps of an implementation with a buffer --------------------------------------------------

  /** A packet that fills the whole buffer is delivered although it holds no delimiter. */
  ghost function Flush(setup: Setup, f: Framed): Framed {
    if |f.pending| == setup.size then Framed(f.packets + [f.pending], []) else f
  }

  /** Bytes that at most fill the buffer complete a packet only if they fill it. */
  lemma {:induction false} FillsUp(setup: Setup, f: Framed, bytes: seq<Byte>)
    requires setup.notify == WhenFull
    requires |f.pending| < setup.size && |f.pending| + |bytes| <= setup.size
    ensures Feed(setup, f, bytes) == Flush(setup, Framed(f.packets, f.pending + bytes))
  {
    if bytes == [] {
      assert f.pending + bytes == f.pending;
    } else {
      var n := |bytes| - 1;
      FillsUp(setup, f, bytes[..n]);
      assert f.pending + bytes == f.pending + bytes[..n] + [bytes[n]];
    }
  }

  /** One byte of the scan. The packet before it does not fill the buffer, so only this byte can
      complete it, either as a delimiter or as the last byte of the buffer. */
  lemma ScanStep(setup: Setup, f: Framed, bytes: seq<Byte>, g: Framed, b: Byte)
    requires setup.notify == WhenFullOrDelimiter
    requires |g.pending| < setup.size
    requires Feed(setup, f, bytes) == Flush(setup, g)
    ensures Feed(setup, f, bytes + [b]) ==
      if b == setup.delimiter then Framed(g.packets + [g.pending + [b]], [])
      else Flush(setup, Framed(g.packets, g.pending + [b]))
  {
    assert (bytes + [b])[..|bytes|] == bytes;
  }

  /** How many bytes the next read brings: what the peer sends in one go, within the room and the rest
      of the stream, and at least one. */
  function ReadSize(burst: nat, room: nat, left: nat): (count: nat)
    requires room > 0 && left > 0
    ensures 1 <= count <= room && count <= left
  {
    var most := if room <= left then room else left;
    if 1 <= burst <= most then burst else most
  }

  lemma FeedSlice(setup: Setup, f: Framed, stream: seq<Byte>, done: nat, count: nat)
    requires done + count <= |stream|
    ensures Feed(setup, f, stream[..done + count])
         == Feed(setup, Feed(setup, f, stream[..done]), stream[done..done + count])
  {
    FeedAppend(setup, f, stream[..done], stream[done..done + count]);
    assert stream[..done] + stream[done..done + count] == stream[..done + count];
  }

  lemma ReceiveAllSnoc(setup: Setup, f: Framed, chunks: seq<seq<Byte>>, chunk: seq<Byte>)
    ensures ReceiveAll(setup, f, chunks + [chunk]) == Receive(setup, ReceiveAll(setup, f, chunks), chunk)
  {
    assert (chunks + [chunk])[..|chunks|] == chunks;
  }
}
