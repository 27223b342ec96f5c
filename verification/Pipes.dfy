/**
 The 256-byte kernel ring behind an anonymous pipe.

 `sent` and `received` are history: every byte ever accepted by a write and
 every byte ever handed to a read.  `gen` numbers the allocations, so that a
 pipe can be told from a later one that lives at the same heap address.
 */
module Pipes {
  import opened Bytes

  const CAPACITY: nat := 256

  datatype Pipe = Pipe(buf: seq<byte>, head: nat, tail: nat, len: nat,
                       readers: int, writers: int,
                       gen: nat, sent: seq<byte>, received: seq<byte>)

  /** The two indices, the fill level and the buffer agree. */
  ghost predicate RingOk(p: Pipe) {
    && |p.buf| == CAPACITY
    && p.tail < CAPACITY
    && p.len <= CAPACITY
    && p.head == (p.tail + p.len) % CAPACITY
  }

  /** The bytes in flight, oldest first. */
  ghost function InFlight(p: Pipe): (r: seq<byte>)
    requires RingOk(p)
    ensures |r| == p.len
  {
    seq(p.len, k requires 0 <= k < p.len => p.buf[(p.tail + k) % CAPACITY])
  }

  /** The ring refines an unbounded byte stream. */
  ghost predicate StreamOk(p: Pipe) {
    RingOk(p) && p.sent == p.received + InFlight(p)
  }

  /** A zeroed pipe with one reader and one writer. */
  function Create(gen: nat): Pipe {
    Pipe(seq(CAPACITY, _ => 0), 0, 0, 0, 1, 1, gen, [], [])
  }

  function Push(p: Pipe, b: byte): Pipe
    requires |p.buf| == CAPACITY && p.head < CAPACITY
  {
    p.(buf := p.buf[p.head := b], head := (p.head + 1) % CAPACITY, len := p.len + 1, sent := p.sent + [b])
  }

  /** Accepting `d` appends exactly `d` to what is in flight. */
  function PushAll(p: Pipe, d: seq<byte>): (r: Pipe)
    requires RingOk(p) && p.len + |d| <= CAPACITY
    ensures RingOk(r) && InFlight(r) == InFlight(p) + d
    ensures r.sent == p.sent + d && r.received == p.received
    ensures (r.readers, r.writers, r.gen) == (p.readers, p.writers, p.gen)
    decreases |d|
  {
    if d == [] then p
    else
      PushKeepsRing(p, d[0]);
      assert [d[0]] + d[1..] == d;
      PushAll(Push(p, d[0]), d[1..])
  }

  /** The slot behind the contents is none of theirs. */
  lemma SlotTaken(tail: nat, len: nat, k: nat)
    requires tail < CAPACITY && k < len < CAPACITY
    ensures (tail + k) % CAPACITY != (tail + len) % CAPACITY
  {
  }

  lemma PushKeepsRing(p: Pipe, b: byte)
    requires RingOk(p) && p.len < CAPACITY
    ensures RingOk(Push(p, b)) && InFlight(Push(p, b)) == InFlight(p) + [b]
  {
    var q := Push(p, b);
    forall k | 0 <= k < p.len ensures InFlight(q)[k] == InFlight(p)[k] {
      SlotTaken(p.tail, p.len, k);
    }
  }

  function Pop(p: Pipe): Pipe
    requires RingOk(p) && p.len > 0
  {
    p.(tail := (p.tail + 1) % CAPACITY, len := p.len - 1, received := p.received + [p.buf[p.tail]])
  }

  /** The bytes the copy loop of a read visits. */
  function Oldest(p: Pipe, n: nat): (r: seq<byte>)
    requires RingOk(p) && n <= p.len
    ensures r == InFlight(p)[..n]
  {
    seq(n, k requires 0 <= k < n => p.buf[(p.tail + k) % CAPACITY])
  }

  /** Taking `n` bytes takes the `n` oldest ones. */
  function PopAll(p: Pipe, n: nat): (r: Pipe)
    requires RingOk(p) && n <= p.len
    ensures RingOk(r) && InFlight(r) == InFlight(p)[n..]
    ensures r.received == p.received + InFlight(p)[..n] && r.sent == p.sent
    ensures (r.readers, r.writers, r.gen) == (p.readers, p.writers, p.gen)
    decreases n
  {
    if n == 0 then p
    else
      PopKeepsRing(p);
      PopAll(Pop(p), n - 1)
  }

  lemma PopKeepsRing(p: Pipe)
    requires RingOk(p) && p.len > 0
    ensures RingOk(Pop(p)) && InFlight(Pop(p)) == InFlight(p)[1..]
    ensures p.buf[p.tail] == InFlight(p)[0]
  {
    var q := Pop(p);
    forall k | 0 <= k < q.len ensures InFlight(q)[k] == InFlight(p)[k + 1] {
      assert (q.tail + k) % CAPACITY == (p.tail + (k + 1)) % CAPACITY;
    }
  }

  /** Both directions keep the stream: what was accepted is what was delivered, then what is in flight. */
  lemma StreamKept(p: Pipe, d: seq<byte>, n: nat)
    requires StreamOk(p) && p.len + |d| <= CAPACITY && n <= p.len
    ensures StreamOk(PushAll(p, d)) && StreamOk(PopAll(p, n))
  {
    assert p.received + (InFlight(p) + d) == (p.received + InFlight(p)) + d;
    assert InFlight(p) == InFlight(p)[..n] + InFlight(p)[n..];
  }

  /** A read in one go: the copy loop moves only `tail`, the fill level is settled afterwards. */
  lemma {:induction false} PopAllAtOnce(p: Pipe, n: nat)
    requires RingOk(p) && n <= p.len
    ensures PopAll(p, n) == p.(tail := (p.tail + n) % CAPACITY, len := p.len - n, received := p.received + Oldest(p, n))
    decreases n
  {
    hide InFlight, Oldest, RingOk;
    if n > 0 {
      PopKeepsRing(p);
      PopAllAtOnce(Pop(p), n - 1);
      OldestFirst(p, n);
      TailMoves(p.tail, n);
    } else {
      NothingTaken(p);
    }
  }

  lemma OldestNone(p: Pipe)
    requires RingOk(p)
    ensures Oldest(p, 0) == [] && p.tail == (p.tail + 0) % CAPACITY
  {
  }

  lemma OldestMore(p: Pipe, n: nat)
    requires RingOk(p) && n < p.len
    ensures |p.buf| == CAPACITY && Oldest(p, n + 1) == Oldest(p, n) + [p.buf[(p.tail + n) % CAPACITY]]
    ensures ((p.tail + n) % CAPACITY + 1) % CAPACITY == (p.tail + (n + 1)) % CAPACITY
  {
    hide InFlight;
  }

  lemma TailMoves(tail: nat, n: nat)
    requires n > 0
    ensures ((tail + 1) % CAPACITY + (n - 1)) % CAPACITY == (tail + n) % CAPACITY
  {
  }

  lemma NothingTaken(p: Pipe)
    requires RingOk(p)
    ensures (p.tail + 0) % CAPACITY == p.tail && p.received + Oldest(p, 0) == p.received
  {
  }

  lemma OldestFirst(p: Pipe, n: nat)
    requires RingOk(p) && 0 < n <= p.len && RingOk(Pop(p))
    ensures Oldest(p, n) == [p.buf[p.tail]] + Oldest(Pop(p), n - 1)
  {
    PopKeepsRing(p);
    hide Oldest, Pop;
  }

  lemma {:induction false} PushAllOneMore(p: Pipe, d: seq<byte>, b: byte)
    requires RingOk(p) && p.len + |d| < CAPACITY
    ensures PushAll(p, d + [b]) == Push(PushAll(p, d), b)
    decreases |d|
  {
    if d == [] {
      PushKeepsRing(p, b);
      assert PushAll(Push(p, b), []) == Push(p, b);
      assert (d + [b])[1..] == [];
    } else {
      PushKeepsRing(p, d[0]);
      assert (d + [b])[1..] == d[1..] + [b];
      PushAllOneMore(Push(p, d[0]), d[1..], b);
    }
  }
}
