/** The two transcriptions of the framer side by side, over whole sessions. */
module TwoFramers {
  import opened Framing
  import opened ReceiveFramer
  import opened IoConnection

  /** Both are ready, with the same setup, and have delivered and hold the same. */
  ghost predicate Alike(left: Framer, right: Connection)
    reads left, left.data, right, right.data
  {
    && left.Valid() && right.Valid() && left.data != right.data
    && left.setup == right.setup && left.State() == right.State()
  }

  /** The next read of both, as large as the smaller room allows. */
  method ReadBoth(left: Framer, right: Connection, rest: seq<Byte>, burst: nat) returns (chunk: seq<Byte>)
    requires Alike(left, right) && left.setup.size > 0 && rest != []
    modifies left, left.data, right, right.data
    ensures Alike(left, right) && left.State() == Receive(left.setup, old(left.State()), chunk)
    ensures chunk != [] && |chunk| <= |rest| && chunk == rest[..|chunk|]
  {
    var _, leftRoom := left.GetBuffer();
    var _, rightRoom := right.GetBuffer();
    var count := ReadSize(burst, if leftRoom <= rightRoom then leftRoom else rightRoom, |rest|);
    chunk := rest[..count];
    left.Read(chunk);
    right.Read(chunk);
  }

  lemma OneMoreRead(setup: Setup, f: Framed, chunks: seq<seq<Byte>>, chunk: seq<Byte>, rest: seq<Byte>)
    requires |chunk| <= |rest| && chunk == rest[..|chunk|]
    ensures Flatten(chunks + [chunk]) + rest[|chunk|..] == Flatten(chunks) + rest
    ensures ReceiveAll(setup, f, chunks + [chunk]) == Receive(setup, ReceiveAll(setup, f, chunks), chunk)
  {
    FlattenSnoc(chunks, chunk);
    ReceiveAllSnoc(setup, f, chunks, chunk);
  }

  /** From the same state and on the same reads, of any sizes, the two transcriptions deliver the same
      packets and hold the same bytes in each mode they share, whatever the callbacks answer. The
      stream is consumed to its end. */
  method RunBoth(left: Framer, right: Connection, stream: seq<Byte>, burst: nat -> nat)
    returns (chunks: seq<seq<Byte>>)
    requires Alike(left, right) && left.setup.size > 0
    modifies left, left.data, right, right.data
    ensures Alike(left, right) && Flatten(chunks) == stream
    ensures left.State() == ReceiveAll(left.setup, old(left.State()), chunks)
  {
    ghost var f := left.State();
    chunks := [];
    var rest := stream;
    while rest != []
      invariant Alike(left, right) && Flatten(chunks) + rest == stream
      invariant left.State() == ReceiveAll(left.setup, f, chunks)
      decreases |rest|
    {
      var chunk := ReadBoth(left, right, rest, burst(|chunks|));
      OneMoreRead(left.setup, f, chunks, chunk, rest);
      chunks, rest := chunks + [chunk], rest[|chunk|..];
    }
  }

  /** One session of an I/O connection in a cutting mode. */
  method PumpConnection(right: Connection, stream: seq<Byte>, burst: nat -> nat)
    requires right.Valid() && Cutting(right.setup) && right.setup.size > 0
    modifies right, right.data
    ensures right.Valid() && right.State() == Feed(right.setup, old(right.State()), stream)
  {
    ghost var f := right.State();
    var done, k := 0, 0;
    assert stream[..done] == [];
    while done < |stream|
      invariant 0 <= done <= |stream| && right.Valid()
      invariant right.State() == Feed(right.setup, f, stream[..done])
    {
      var _, room := right.GetBuffer();
      var count := ReadSize(burst(k), room, |stream| - done);
      FeedSlice(right.setup, f, stream, done, count);
      right.Read(stream[done..done + count]);
      done, k := done + count, k + 1;
    }
    assert stream[..done] == stream;
  }

  /** In the cutting modes even different reads of one stream make no difference between the two. */
  method RunApart(left: Framer, right: Connection, stream: seq<Byte>, leftBurst: nat -> nat, rightBurst: nat -> nat)
    requires Alike(left, right) && Cutting(left.setup) && left.setup.size > 0
    modifies left, left.data, right, right.data
    ensures Alike(left, right) && left.State() == Feed(left.setup, old(left.State()), stream)
  {
    left.Pump(stream, leftBurst);
    PumpConnection(right, stream, rightBurst);
  }
}
