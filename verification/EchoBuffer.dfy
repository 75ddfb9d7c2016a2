/**
  A serial port whose received bytes are written round a circular buffer by DMA, and echoed by a
  loop that polls how far the DMA has come. Bytes may arrive at any time, also during a poll.
 */
module EchoBuffer {

  newtype Byte = x: int | 0 <= x < 256

  // The size of both buffers.
  const SIZE := 32

  // ------------------------------------------------------------------ which byte is sent

  // The newest of `n` received bytes that went to the same place of the ring as byte `p`.
  function Source(p: nat, n: nat): (k: nat)
    requires p < n
    ensures p <= k < n <= k + SIZE && k % SIZE == p % SIZE
    ensures k == p <==> n <= p + SIZE
  {
    p + SIZE * ((n - 1 - p) / SIZE)
  }

  // How many bytes a poll sends: those between the old head and the tail, going round.
  function Late(polled: nat, n: nat): nat
    requires polled <= n
  {
    (n - polled) % SIZE
  }

  // Which received byte the poll sends in place `j`, if `n` bytes had come when it read the counter,
  // `d` more when it made the first copy and `b` more when it made the second.
  function SentFrom(polled: nat, n: nat, d: nat, b: nat, j: nat): (k: nat)
    requires polled <= n && j < Late(polled, n)
    ensures k < n + d + b
  {
    var head, tail := polled % SIZE, n % SIZE;
    Source(n - Late(polled, n) + j, if head > tail && j >= SIZE - head then n + d + b else n + d)
  }

  function Chunk(all: seq<Byte>, polled: nat, n: nat, d: nat, b: nat): (chunk: seq<Byte>)
    requires polled <= n && |all| == n + d + b
    ensures |chunk| == Late(polled, n)
  {
    seq(Late(polled, n), j requires 0 <= j < Late(polled, n) => all[SentFrom(polled, n, d, b, j)])
  }

  // The newest bytes that went to the places of the bytes from `p` on.
  function Fetched(stream: seq<Byte>, p: nat, size: nat): (r: seq<Byte>)
    requires p + size <= |stream|
    ensures |r| == size
  {
    seq(size, j requires 0 <= j < size => stream[Source(p + j, |stream|)])
  }

  // What is sent is fetched in one piece, or in two with bytes arriving between them.
  lemma ChunkInPieces(stream: seq<Byte>, between: seq<Byte>, polled: nat, n: nat)
    requires polled <= n <= |stream|
    ensures var head, tail, late := polled % SIZE, n % SIZE, Late(polled, n);
      && late <= n && tail <= n && n - late + (if head > tail then SIZE - head else 0) <= n
      && Chunk(stream + between, polled, n, |stream| - n, |between|)
         == if head < tail then Fetched(stream, n - late, late)
            else if head > tail then
              Fetched(stream, n - late, SIZE - head) + Fetched(stream + between, n - tail, tail)
            else []
  {
    hide Source;
    LateBytes(polled, n);
    if polled % SIZE > n % SIZE {
      ChunkInTwo(stream, between, polled, n);
    }
  }

  lemma LateBytes(polled: nat, n: nat)
    requires polled <= n
    ensures var head, tail, late := polled % SIZE, n % SIZE, Late(polled, n);
      && late <= n && tail <= n && late < SIZE && (n - late) % SIZE == head && (n - tail) % SIZE == 0
      && late == if head <= tail then tail - head else SIZE - head + tail
  {
    var q, r := polled / SIZE, n / SIZE;
    assert polled == q * SIZE + polled % SIZE && n == r * SIZE + n % SIZE;
  }

  lemma ChunkInTwo(stream: seq<Byte>, between: seq<Byte>, polled: nat, n: nat)
    requires polled <= n <= |stream| && polled % SIZE > n % SIZE
    ensures var head, tail, late := polled % SIZE, n % SIZE, Late(polled, n);
      && late <= n && tail <= n && n - late + SIZE - head <= n
      && Chunk(stream + between, polled, n, |stream| - n, |between|)
         == Fetched(stream, n - late, SIZE - head) + Fetched(stream + between, n - tail, tail)
  {
    LateBytes(polled, n);
    hide Source, Late;
    var size, tail, late := SIZE - polled % SIZE, n % SIZE, Late(polled, n);
    var parts := Fetched(stream, n - late, size) + Fetched(stream + between, n - tail, tail);
    forall j | 0 <= j < late
      ensures Chunk(stream + between, polled, n, |stream| - n, |between|)[j] == parts[j]
    {
      if j >= size {
        assert n - tail + (j - size) == n - late + j;
      }
    }
  }

  // No copy of the poll is overrun by what arrives before it is made.
  predicate Whole(polled: nat, n: nat, d: nat, b: nat)
    requires polled <= n
  {
    var head, tail := polled % SIZE, n % SIZE;
    && (head != tail ==> Late(polled, n) + d <= SIZE)
    && (head > tail > 0 ==> tail + d + b <= SIZE)
  }

  // Exactly then each place holds the byte that is meant for it.
  lemma WholeMeansRightSources(polled: nat, n: nat, d: nat, b: nat)
    requires polled <= n
    ensures Whole(polled, n, d, b) <==>
      forall j :: 0 <= j < Late(polled, n) ==> SentFrom(polled, n, d, b, j) == n - Late(polled, n) + j
  {
    var head, tail, late := polled % SIZE, n % SIZE, Late(polled, n);
    assert late == if head <= tail then tail - head else SIZE - head + tail;
    if forall j :: 0 <= j < late ==> SentFrom(polled, n, d, b, j) == n - late + j {
      assert head != tail ==> SentFrom(polled, n, d, b, 0) == n - late;
      assert head > tail > 0 ==> SentFrom(polled, n, d, b, SIZE - head) == n - late + (SIZE - head);
    }
  }

  // ------------------------------------------------------------------ the port

  class Port {
    const rx: array<Byte>
    const tx: array<Byte>
    // The NDTR register: how many bytes the DMA will write before it starts over.
    var ndtr: nat
    var dmaHead: nat
    // What was handed to the transmitter.
    var sent: seq<Byte>
    // All that arrived, and how much of it had arrived when the counter was last read.
    ghost var received: seq<Byte>
    ghost var polled: nat

    ghost predicate Valid()
      reads this, rx
    {
      && rx != tx && rx.Length == SIZE && tx.Length == SIZE
      && 1 <= ndtr <= SIZE && SIZE - ndtr == |received| % SIZE
      && polled <= |received| && dmaHead == polled % SIZE
      && forall k :: 0 <= k < |received| <= k + SIZE ==> rx[k % SIZE] == received[k]
    }

    constructor ()
      ensures Valid() && received == [] && sent == [] && polled == 0 && fresh(rx) && fresh(tx)
    {
      rx := new Byte[SIZE];
      tx := new Byte[SIZE];
      ndtr := SIZE;
      dmaHead := 0;
      sent := [];
      received := [];
      polled := 0;
    }

    // The DMA moves one byte.
    method Arrive(b: Byte)
      requires Valid()
      modifies rx, `ndtr, `received
      ensures Valid() && received == old(received) + [b]
    {
      rx[SIZE - ndtr] := b;
      ndtr := if ndtr == 1 then SIZE else ndtr - 1;
      received := received + [b];
    }

    method Receive(bytes: seq<Byte>)
      requires Valid()
      modifies rx, `ndtr, `received
      ensures Valid() && received == old(received) + bytes
    {
      for i := 0 to |bytes|
        invariant Valid() && received == old(received) + bytes[..i]
      {
        Arrive(bytes[i]);
      }
    }

    // Copies a piece of the ring to the transmit buffer: the newest bytes that went to its places.
    method Fetch(at: nat, from: nat, size: nat, ghost p: nat)
      requires Valid() && at + size <= SIZE && from + size <= SIZE && p % SIZE == from && p + size <= |received|
      modifies tx
      ensures Valid() && tx[..at] == old(tx[..at])
      ensures tx[at..at + size] == Fetched(received, p, size)
    {
      Copy(tx, at, rx, from, size);
      assert tx[..at] == old(tx[..at]) && tx[at..at + size] == rx[from..from + size];
      RingPiece(rx[..], received, p, size);
      assert rx[..][from..from + size] == rx[from..from + size];
    }

    // The head is `late` bytes of the stream behind the tail, going round.
    ghost predicate Lag(n: nat, late: nat, tail: nat)
      reads this
    {
      && late <= n && late < SIZE && (n - late) % SIZE == dmaHead < SIZE && tail < SIZE
      && late == (if dmaHead <= tail then tail - dmaHead else SIZE - dmaHead + tail)
      && tail <= n && (n - tail) % SIZE == 0
    }

    lemma LagAtRead()
      requires Valid()
      ensures polled <= |received| && Lag(|received|, Late(polled, |received|), SIZE - ndtr)
      ensures SIZE - ndtr == |received| % SIZE && dmaHead == polled % SIZE
    {
      hide Late;
      LateBytes(polled, |received|);
    }

    lemma Buffers()
      requires Valid()
      ensures tx != rx && tx.Length == rx.Length == SIZE
    {
    }

    method OnePiece(dmaTail: nat, ghost n: nat, ghost late: nat) returns (chunk: seq<Byte>)
      requires Valid() && Lag(n, late, dmaTail) && n <= |received| && dmaHead < dmaTail
      modifies tx
      ensures Valid() && chunk == Fetched(received, n - late, late)
    {
      hide Valid, Fetched;
      Buffers();
      var size := dmaTail - dmaHead;
      Fetch(0, dmaHead, size, n - late);
      chunk := tx[..size];
    }

    method TwoPieces(dmaTail: nat, between: seq<Byte>, ghost n: nat, ghost late: nat)
      returns (chunk: seq<Byte>)
      requires Valid() && Lag(n, late, dmaTail) && n <= |received| && dmaHead > dmaTail
      modifies rx, tx, `ndtr, `received
      ensures Valid() && received == old(received) + between
      ensures chunk == Fetched(old(received), n - late, SIZE - dmaHead) + Fetched(received, n - dmaTail, dmaTail)
    {
      hide Valid, Fetched;
      Buffers();
      var size := SIZE - dmaHead;
      Fetch(0, dmaHead, size, n - late);
      Receive(between);
      Fetch(size, 0, dmaTail, n - dmaTail);
      chunk := tx[..size + dmaTail];
      assert chunk == tx[0..size] + tx[size..size + dmaTail];
    }

    // The transmitter gets what the buffer holds.
    method Send(chunk: seq<Byte>)
      requires Valid()
      modifies `sent
      ensures Valid() && sent == old(sent) + chunk
    {
      sent := sent + chunk;
    }

    // Copies what came since the last poll, in one piece or in two, and transmits it.
    method Transmit(dmaTail: nat, between: seq<Byte>, ghost n: nat)
      requires Valid() && polled <= n <= |received| && dmaTail == n % SIZE && dmaHead == polled % SIZE
      requires Lag(n, Late(polled, n), dmaTail)
      modifies rx, tx, `ndtr, `sent, `received
      ensures Valid() && received == old(received) + between
      ensures sent == old(sent) + Chunk(received, polled, n, |old(received)| - n, |between|)
    {
      hide Valid, Chunk;
      ghost var late, before := Late(polled, n), received;
      ChunkInPieces(before, between, polled, n);
      if dmaHead < dmaTail {
        var chunk := OnePiece(dmaTail, n, late);
        Receive(between);
        Send(chunk);
      } else if dmaHead > dmaTail {
        var chunk := TwoPieces(dmaTail, between, n, late);
        Send(chunk);
      } else {
        Receive(between);
        assert sent == old(sent) + [];
      }
    }

    // One poll: reads the counter, copies what came since the last poll and transmits it. Bytes go
    // on arriving meanwhile.
    method Poll(during: seq<Byte>, between: seq<Byte>)
      requires Valid()
      modifies this, rx, tx
      ensures Valid() && received == old(received) + during + between && polled == |old(received)|
      ensures sent == old(sent) + Chunk(received, old(polled), |old(received)|, |during|, |between|)
    {
      hide Valid, Chunk;
      ghost var n := |received|;
      LagAtRead();
      var counter := ndtr;
      Receive(during);
      Transmit(SIZE - counter, between, n);
      MoveHead(SIZE - counter, n);
    }

    method MoveHead(dmaTail: nat, ghost start: nat)
      requires Valid() && start <= |received| && dmaTail == start % SIZE
      modifies `dmaHead, `polled
      ensures Valid() && polled == start
    {
      dmaHead := dmaTail;
      polled := start;
    }
  }

  lemma LastPlace(p: nat, size: nat)
    requires 0 < size && p % SIZE + size <= SIZE
    ensures (p + size - 1) % SIZE == p % SIZE + size - 1
  {
    assert p == p / SIZE * SIZE + p % SIZE;
  }

  // Each place of the ring holds the newest byte that went there.
  lemma {:induction false} RingPiece(ring: seq<Byte>, received: seq<Byte>, p: nat, size: nat)
    requires |ring| == SIZE && forall k :: 0 <= k < |received| <= k + SIZE ==> ring[k % SIZE] == received[k]
    requires p % SIZE + size <= SIZE && p + size <= |received|
    ensures ring[p % SIZE..p % SIZE + size] == Fetched(received, p, size)
  {
    hide Source;
    if size > 0 {
      RingPiece(ring, received, p, size - 1);
      var at, k := p % SIZE, p + size - 1;
      var src := Source(k, |received|);
      LastPlace(p, size);
      assert k % SIZE == at + size - 1;
      assert received[src] == ring[src % SIZE] == ring[at + size - 1];
      assert ring[at..at + size] == ring[at..at + size - 1] + [ring[at + size - 1]];
      assert Fetched(received, p, size) == Fetched(received, p, size - 1) + [received[Source(k, |received|)]];
    }
  }

  // memcpy between different arrays.
  method Copy(dst: array<Byte>, at: nat, src: array<Byte>, from: nat, size: nat)
    requires dst != src && at + size <= dst.Length && from + size <= src.Length
    modifies dst
    ensures dst[..] == old(dst[..at]) + src[from..from + size] + old(dst[at + size..])
  {
    for i := 0 to size
      invariant forall k :: 0 <= k < at || at + i <= k < dst.Length ==> dst[k] == old(dst[k])
      invariant forall k :: at <= k < at + i ==> dst[k] == src[from + (k - at)]
    {
      dst[at + i] := src[from + i];
    }
    assert dst[..] == dst[..at] + dst[at..at + size] + dst[at + size..];
  }

  // ------------------------------------------------------------------ whole runs

  // What arrives before a poll reads the DMA counter, between that and its first copy, and between
  // its two copies.
  datatype Round = Round(before: seq<Byte>, during: seq<Byte>, between: seq<Byte>)

  // All that arrives in the first `n` rounds.
  function Arrived(rounds: seq<Round>, n: nat): seq<Byte>
    requires n <= |rounds|
  {
    if n == 0 then []
    else Arrived(rounds, n - 1) + rounds[n - 1].before + rounds[n - 1].during + rounds[n - 1].between
  }

  // What has arrived when the poll of round `n` reads the counter.
  function Polled(rounds: seq<Round>, n: nat): seq<Byte>
    requires n < |rounds|
  {
    Arrived(rounds, n) + rounds[n].before
  }

  // How much had arrived when the counter was read last, before round `n`.
  function PolledBefore(rounds: seq<Round>, n: nat): nat
    requires n <= |rounds|
  {
    if n == 0 then 0 else |Polled(rounds, n - 1)|
  }

  lemma PolledGrows(rounds: seq<Round>, n: nat)
    requires n < |rounds|
    ensures PolledBefore(rounds, n) <= |Arrived(rounds, n)| <= |Polled(rounds, n)|
    ensures Arrived(rounds, n + 1) == Polled(rounds, n) + rounds[n].during + rounds[n].between
    ensures n > 0 ==> Polled(rounds, n - 1) <= Polled(rounds, n)
  {
  }

  // How many bytes arrive between one reading of the counter and the next.
  function Gap(rounds: seq<Round>, n: nat): nat
    requires n < |rounds|
  {
    PolledGrows(rounds, n);
    |Polled(rounds, n)| - PolledBefore(rounds, n)
  }

  function ChunkOf(rounds: seq<Round>, n: nat): (chunk: seq<Byte>)
    requires n < |rounds|
    ensures |chunk| == Gap(rounds, n) % SIZE
  {
    PolledGrows(rounds, n);
    Chunk(Arrived(rounds, n + 1), PolledBefore(rounds, n), |Polled(rounds, n)|, |rounds[n].during|, |rounds[n].between|)
  }

  // What the first `n` rounds send.
  function Echoed(rounds: seq<Round>, n: nat): seq<Byte>
    requires n <= |rounds|
  {
    if n == 0 then [] else Echoed(rounds, n - 1) + ChunkOf(rounds, n - 1)
  }

  // The main loop, on a fresh port, sends exactly those bytes.
  method Echo(rounds: seq<Round>) returns (sent: seq<Byte>)
    ensures sent == Echoed(rounds, |rounds|)
  {
    hide Port.Valid, Chunk;
    var port := new Port();
    for i := 0 to |rounds|
      invariant port.Valid() && fresh(port) && fresh(port.rx) && fresh(port.tx)
      invariant port.received == Arrived(rounds, i) && port.polled == PolledBefore(rounds, i)
      invariant port.sent == Echoed(rounds, i)
    {
      PolledGrows(rounds, i);
      port.Receive(rounds[i].before);
      assert port.received == Polled(rounds, i);
      port.Poll(rounds[i].during, rounds[i].between);
    }
    sent := port.sent;
  }

  // No byte is lost between two polls, and no copy of the poll is overrun.
  predicate Safe(rounds: seq<Round>, n: nat)
    requires n < |rounds|
  {
    PolledGrows(rounds, n);
    && Gap(rounds, n) < SIZE
    && Whole(PolledBefore(rounds, n), |Polled(rounds, n)|, |rounds[n].during|, |rounds[n].between|)
  }

  // The echo is as long as what came until the last poll exactly if no gap brings SIZE bytes or more.
  lemma {:induction false} EchoLength(rounds: seq<Round>, n: nat)
    requires n <= |rounds|
    ensures |Echoed(rounds, n)| <= PolledBefore(rounds, n)
    ensures |Echoed(rounds, n)| == PolledBefore(rounds, n) <==> forall k :: 0 <= k < n ==> Gap(rounds, k) < SIZE
  {
    hide ChunkOf, Polled;
    if n > 0 {
      EchoLength(rounds, n - 1);
      var gap := Gap(rounds, n - 1);
      assert gap % SIZE <= gap && (gap % SIZE == gap <==> gap < SIZE);
    }
  }

  // A safe poll sends what came since the last one.
  lemma SafeChunk(rounds: seq<Round>, n: nat)
    requires n < |rounds|
    ensures PolledBefore(rounds, n) <= |Polled(rounds, n)|
    ensures Safe(rounds, n) ==> ChunkOf(rounds, n) == Polled(rounds, n)[PolledBefore(rounds, n)..]
  {
    hide SentFrom, Arrived, Polled;
    PolledGrows(rounds, n);
    WholeMeansRightSources(PolledBefore(rounds, n), |Polled(rounds, n)|, |rounds[n].during|, |rounds[n].between|);
  }

  lemma {:induction false} SafeEcho(rounds: seq<Round>, n: nat)
    requires n <= |rounds| && forall k :: 0 <= k < n ==> Safe(rounds, k)
    ensures n > 0 ==> Echoed(rounds, n) == Polled(rounds, n - 1)
  {
    hide Safe, ChunkOf, Polled;
    if n > 0 {
      SafeEcho(rounds, n - 1);
      SafeChunk(rounds, n - 1);
      PolledGrows(rounds, n - 1);
    }
  }

  // ------------------------------------------------------------------ exactly when the echo is right

  // The same numbers of bytes arrive at the same times.
  predicate SameShape(rs: seq<Round>, rounds: seq<Round>) {
    && |rs| == |rounds|
    && forall k :: 0 <= k < |rs| ==>
      && |rs[k].before| == |rounds[k].before|
      && |rs[k].during| == |rounds[k].during|
      && |rs[k].between| == |rounds[k].between|
  }

  lemma {:induction false} SameLengths(rs: seq<Round>, rounds: seq<Round>, n: nat)
    requires SameShape(rs, rounds) && n <= |rounds|
    ensures |Arrived(rs, n)| == |Arrived(rounds, n)|
    ensures n < |rounds| ==> |Polled(rs, n)| == |Polled(rounds, n)|
  {
    if n > 0 {
      SameLengths(rs, rounds, n - 1);
    }
  }

  lemma SameSafety(rs: seq<Round>, rounds: seq<Round>, n: nat)
    requires SameShape(rs, rounds) && n < |rounds|
    ensures PolledBefore(rs, n) == PolledBefore(rounds, n) && |Polled(rs, n)| == |Polled(rounds, n)|
    ensures Gap(rs, n) == Gap(rounds, n) && Safe(rs, n) == Safe(rounds, n)
  {
    hide Polled, Arrived;
    SameLengths(rs, rounds, n);
    if n > 0 {
      SameLengths(rs, rounds, n - 1);
    }
  }

  // The bytes f(from), f(from + 1), ...
  function Run(f: int -> Byte, from: nat, size: nat): (r: seq<Byte>)
    ensures |r| == size
  {
    seq(size, j requires 0 <= j < size => f(from + j))
  }

  lemma RunsJoin(f: int -> Byte, from: nat, a: nat, b: nat)
    ensures Run(f, from, a) + Run(f, from + a, b) == Run(f, from, a + b)
  {
  }

  lemma RunAt(f: int -> Byte, size: nat, j: nat)
    requires j < size
    ensures Run(f, 0, size)[j] == f(j)
  {
  }

  function RoundOf(r: Round, f: int -> Byte, n: nat): (r': Round)
    ensures |r'.before| == |r.before| && |r'.during| == |r.during| && |r'.between| == |r.between|
  {
    Round(Run(f, n, |r.before|), Run(f, n + |r.before|, |r.during|), Run(f, n + |r.before| + |r.during|, |r.between|))
  }

  // The bytes f(0), f(1), ... arriving in the shape of `rounds`.
  function Refilled(rounds: seq<Round>, f: int -> Byte): (rs: seq<Round>)
    ensures SameShape(rs, rounds)
  {
    seq(|rounds|, k requires 0 <= k < |rounds| => RoundOf(rounds[k], f, |Arrived(rounds, k)|))
  }

  lemma RoundJoins(f: int -> Byte, r: Round, n: nat)
    ensures Run(f, 0, n) + RoundOf(r, f, n).before == Run(f, 0, n + |r.before|)
    ensures var r' := RoundOf(r, f, n);
      Run(f, 0, n) + r'.before + r'.during + r'.between == Run(f, 0, n + |r.before| + |r.during| + |r.between|)
  {
    hide Run;
    RunsJoin(f, 0, n, |r.before|);
    RunsJoin(f, 0, n + |r.before|, |r.during|);
    RunsJoin(f, 0, n + |r.before| + |r.during|, |r.between|);
  }

  lemma RefilledAt(rounds: seq<Round>, f: int -> Byte, k: nat)
    requires k < |rounds|
    ensures Refilled(rounds, f)[k] == RoundOf(rounds[k], f, |Arrived(rounds, k)|)
  {
    hide RoundOf;
  }

  lemma {:induction false} ArrivedRefilled(rounds: seq<Round>, f: int -> Byte, n: nat)
    requires n <= |rounds|
    ensures |Refilled(rounds, f)| == |rounds|
    ensures Arrived(Refilled(rounds, f), n) == Run(f, 0, |Arrived(rounds, n)|)
    ensures n < |rounds| ==> Polled(Refilled(rounds, f), n) == Run(f, 0, |Polled(rounds, n)|)
  {
    hide RoundOf, Run, Refilled, Arrived, Polled;
    var rs := Refilled(rounds, f);
    assert |rs| == |rounds|;
    hide SameShape;
    if n == 0 {
      NothingArrived(rs);
      NothingArrived(rounds);
    } else {
      ArrivedRefilled(rounds, f, n - 1);
      RefilledAt(rounds, f, n - 1);
      RoundJoins(f, rounds[n - 1], |Arrived(rounds, n - 1)|);
      RoundArrives(rs, n - 1);
      RoundArrives(rounds, n - 1);
    }
    if n < |rounds| {
      RefilledAt(rounds, f, n);
      RoundJoins(f, rounds[n], |Arrived(rounds, n)|);
      RoundArrives(rs, n);
      RoundArrives(rounds, n);
    }
  }

  lemma NothingArrived(rounds: seq<Round>)
    ensures Arrived(rounds, 0) == []
  {
  }

  lemma RoundArrives(rounds: seq<Round>, n: nat)
    requires n < |rounds|
    ensures var r := rounds[n];
      && Polled(rounds, n) == Arrived(rounds, n) + r.before
      && Arrived(rounds, n + 1) == Arrived(rounds, n) + r.before + r.during + r.between
      && |Arrived(rounds, n + 1)| == |Arrived(rounds, n)| + |r.before| + |r.during| + |r.between|
  {
  }

  // While no gap is too long, each chunk has its place in the echo.
  lemma {:induction false} ChunkPlace(rounds: seq<Round>, n: nat, k: nat, j: nat)
    requires k < n <= |rounds| && forall m :: 0 <= m < n ==> Gap(rounds, m) < SIZE
    requires j < |ChunkOf(rounds, k)|
    ensures PolledBefore(rounds, k) + j < |Echoed(rounds, n)|
    ensures Echoed(rounds, n)[PolledBefore(rounds, k) + j] == ChunkOf(rounds, k)[j]
  {
    hide ChunkOf, Polled;
    EchoLength(rounds, n - 1);
    if k < n - 1 {
      ChunkPlace(rounds, n - 1, k, j);
    }
  }

  // If place `j` of a poll is filled from the wrong byte, and that byte differs, the echo is wrong.
  lemma WrongSourceShows(rs: seq<Round>, k: nat, j: nat)
    requires k < |rs| && j < |ChunkOf(rs, k)| && forall m :: 0 <= m < |rs| ==> Gap(rs, m) < SIZE
    requires PolledBefore(rs, k) + j < |Polled(rs, |rs| - 1)|
    requires ChunkOf(rs, k)[j] != Polled(rs, |rs| - 1)[PolledBefore(rs, k) + j]
    ensures Echoed(rs, |rs|) != Polled(rs, |rs| - 1)
  {
    hide *;
    ChunkPlace(rs, |rs|, k, j);
  }

  // An overrun copy fills some place from the wrong byte.
  lemma OverrunMisplaces(rounds: seq<Round>, k: nat) returns (j: nat, src: nat)
    requires k < |rounds| && !Safe(rounds, k) && Gap(rounds, k) < SIZE
    ensures j < Gap(rounds, k) && src < |Arrived(rounds, k + 1)| && src != PolledBefore(rounds, k) + j
    ensures forall rs :: SameShape(rs, rounds) ==>
      j < |ChunkOf(rs, k)| && src < |Arrived(rs, k + 1)| && ChunkOf(rs, k)[j] == Arrived(rs, k + 1)[src]
  {
    hide Polled, Arrived, SentFrom, Whole;
    var from, n, d, b := PolledBefore(rounds, k), |Polled(rounds, k)|, |rounds[k].during|, |rounds[k].between|;
    PolledGrows(rounds, k);
    WholeMeansRightSources(from, n, d, b);
    assert Gap(rounds, k) == n - from == Late(from, n);
    j :| 0 <= j < Late(from, n) && SentFrom(from, n, d, b, j) != n - Late(from, n) + j;
    src := SentFrom(from, n, d, b, j);
    forall rs | SameShape(rs, rounds)
      ensures j < |ChunkOf(rs, k)| && src < |Arrived(rs, k + 1)| && ChunkOf(rs, k)[j] == Arrived(rs, k + 1)[src]
    {
      SameSafety(rs, rounds, k);
      PolledGrows(rs, k);
    }
  }

  // An overrun copy sends a wrong byte for some bytes that could have arrived.
  lemma OverrunShows(rounds: seq<Round>, k: nat) returns (rs: seq<Round>)
    requires k < |rounds| && !Safe(rounds, k) && forall m :: 0 <= m < |rounds| ==> Gap(rounds, m) < SIZE
    ensures SameShape(rs, rounds) && Echoed(rs, |rounds|) != Polled(rs, |rounds| - 1)
  {
    hide Polled, Arrived, Safe, Refilled, Run, Echoed, ChunkOf;
    var j, src := OverrunMisplaces(rounds, k);
    var i := PolledBefore(rounds, k) + j;
    var f := (g: int) => if g == i then 1 as Byte else 0;
    rs := Refilled(rounds, f);
    forall m | 0 <= m < |rounds| ensures Gap(rs, m) < SIZE {
      SameSafety(rs, rounds, m);
    }
    SameSafety(rs, rounds, k);
    ArrivedRefilled(rounds, f, k + 1);
    ArrivedRefilled(rounds, f, |rounds| - 1);
    RunAt(f, |Arrived(rounds, k + 1)|, src);
    PolledIsMonotone(rounds, k, |rounds| - 1);
    RunAt(f, |Polled(rounds, |rounds| - 1)|, i);
    WrongSourceShows(rs, k, j);
  }

  lemma {:induction false} PolledIsMonotone(rounds: seq<Round>, k: nat, n: nat)
    requires k <= n < |rounds|
    ensures |Polled(rounds, k)| <= |Polled(rounds, n)|
  {
    hide Polled;
    if k < n {
      PolledIsMonotone(rounds, k, n - 1);
      PolledGrows(rounds, n);
    }
  }

  // The echo is the stream up to the last poll, whatever the bytes are, if and only if every round
  // is safe.
  lemma EchoIsExact(rounds: seq<Round>)
    requires rounds != []
    ensures (forall rs :: SameShape(rs, rounds) ==> Echoed(rs, |rounds|) == Polled(rs, |rounds| - 1))
       <==> forall k :: 0 <= k < |rounds| ==> Safe(rounds, k)
  {
    hide Echoed, Polled, Safe;
    var n := |rounds|;
    if forall k :: 0 <= k < n ==> Safe(rounds, k) {
      forall rs | SameShape(rs, rounds) ensures Echoed(rs, n) == Polled(rs, n - 1) {
        SafeShape(rs, rounds);
        SafeEcho(rs, n);
      }
    } else {
      var k :| 0 <= k < n && !Safe(rounds, k);
      EchoLength(rounds, n);
      IsOwnShape(rounds);
      if forall m :: 0 <= m < n ==> Gap(rounds, m) < SIZE {
        var rs := OverrunShows(rounds, k);
      } else {
        assert |Echoed(rounds, n)| != |Polled(rounds, n - 1)|;
      }
    }
  }

  lemma IsOwnShape(rounds: seq<Round>)
    ensures SameShape(rounds, rounds)
  {
  }

  lemma SafeShape(rs: seq<Round>, rounds: seq<Round>)
    requires SameShape(rs, rounds) && forall k :: 0 <= k < |rounds| ==> Safe(rounds, k)
    ensures |rs| == |rounds| && forall k :: 0 <= k < |rs| ==> Safe(rs, k)
  {
    hide Safe;
    forall k | 0 <= k < |rs| ensures Safe(rs, k) {
      SameSafety(rs, rounds, k);
    }
  }

  // Up to 31 bytes before the first poll are echoed; of 32 nothing is, since the counter is where it was.
  lemma FirstPollInNumbers(bytes: seq<Byte>)
    ensures |bytes| < 32 ==> Echoed([Round(bytes, [], [])], 1) == bytes
    ensures |bytes| == 32 ==> Echoed([Round(bytes, [], [])], 1) == []
  {
    var rounds := [Round(bytes, [], [])];
    assert Arrived(rounds, 0) == [] && Polled(rounds, 0) == bytes;
    assert Echoed(rounds, 0) == [];
    if |bytes| < 32 {
      assert Safe(rounds, 0);
      SafeEcho(rounds, 1);
    }
  }
}
