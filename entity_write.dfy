/**
  The chunked write engine of WriteRequest. A payload is cut into packets of
  `packLength` bytes (the last one either truncated or zero-padded), each
  packet is handed in order to the single-packet write of BleRequestImpl,
  progress is reported as the pair (bytes consumed, payload length), and the
  run ends in exactly one of: cancelled, failed, completed.

  The write oracle and the cooperative cancel flag (raised from another
  thread through cancelWriteEntity) are inputs: `Env` says, for the k-th
  packet, whether a cancel arrived before its check and whether its write was
  issued.
*/
module EntityWrite {
  import opened Wrappers
  import opened Gatt

  function Min(a: int, b: int): int { if a <= b then a else b }

  // ------------------------------------------------------------------
  // Packetisation
  // ------------------------------------------------------------------

  /** Bytes of a `length`-byte payload consumed by the first `k` packets. */
  function Consumed(length: nat, packLength: nat, k: nat): (c: nat)
    ensures c <= length
  {
    if k == 0 then 0 else Min(Consumed(length, packLength, k - 1) + packLength, length)
  }

  /** Number of packets a `length`-byte payload is cut into: ceil(length / packLength). */
  function PacketCount(length: nat, packLength: nat): nat
    requires packLength > 0
    decreases length
  {
    if length == 0 then 0 else 1 + PacketCount(length - Min(packLength, length), packLength)
  }

  /** The payload bytes carried by packet `k`. */
  function Chunk(data: seq<byte>, packLength: nat, k: nat): (c: seq<byte>)
    ensures |c| <= packLength
  {
    data[Consumed(|data|, packLength, k)..Consumed(|data|, packLength, k + 1)]
  }

  function Zeros(n: nat): (z: seq<byte>)
    ensures |z| == n && forall i :: 0 <= i < n ==> z[i] == 0
  {
    seq(n, _ => 0)
  }

  /** The buffer handed to the write oracle for packet `k`. */
  function Packet(data: seq<byte>, packLength: nat, lastPackComplete: bool, k: nat): seq<byte>
  {
    var c := Chunk(data, packLength, k);
    if lastPackComplete then c + Zeros(packLength - |c|) else c
  }

  /** The first `m` packets, in order. */
  function Packets(data: seq<byte>, packLength: nat, lastPackComplete: bool, m: nat): (ps: seq<seq<byte>>)
    ensures |ps| == m
  {
    if m == 0 then []
    else Packets(data, packLength, lastPackComplete, m - 1) + [Packet(data, packLength, lastPackComplete, m - 1)]
  }

  /** The payload bytes of the first `m` packets, without padding. */
  function Chunks(data: seq<byte>, packLength: nat, m: nat): (cs: seq<seq<byte>>)
    ensures |cs| == m
  {
    if m == 0 then [] else Chunks(data, packLength, m - 1) + [Chunk(data, packLength, m - 1)]
  }

  function Flatten(ps: seq<seq<byte>>): seq<byte>
  {
    if ps == [] then [] else Flatten(ps[..|ps| - 1]) + ps[|ps| - 1]
  }

  lemma MulMono(a: nat, b: nat, c: nat)
    ensures a <= b ==> a * c <= b * c
  {
    if a <= b {
      var d: nat := b - a;
      assert b * c == a * c + d * c;
    }
  }

  lemma {:induction false} ConsumedClosedForm(length: nat, packLength: nat, k: nat)
    ensures Consumed(length, packLength, k) == Min(k * packLength, length)
  {
    if k > 0 {
      ConsumedClosedForm(length, packLength, k - 1);
      assert (k - 1) * packLength + packLength == k * packLength;
    }
  }

  /** The packet count is ceil(length / packLength): the least `n` with length <= n * packLength. */
  lemma {:induction false} PacketCountBounds(length: nat, packLength: nat)
    requires packLength > 0
    ensures length <= PacketCount(length, packLength) * packLength
    ensures PacketCount(length, packLength) > 0 ==> (PacketCount(length, packLength) - 1) * packLength < length
    decreases length
  {
    if length == 0 {
    } else if length <= packLength {
      assert PacketCount(length, packLength) == 1;
    } else {
      var m := PacketCount(length - packLength, packLength);
      assert PacketCount(length, packLength) == m + 1;
      PacketCountBounds(length - packLength, packLength);
      assert m * packLength > 0;
      assert (m + 1) * packLength == m * packLength + packLength;
      assert (m - 1) * packLength == m * packLength - packLength;
    }
  }

  /** Integer division is determined by the bracketing multiples of the divisor. */
  lemma DivUnique(x: nat, d: nat, q: nat)
    requires d > 0 && q * d <= x < q * d + d
    ensures x / d == q
  {
    var q' := x / d;
    assert x == q' * d + x % d;
    assert (q' + 1) * d == q' * d + d && (q + 1) * d == q * d + d;
    MulMono(q' + 1, q, d);
    MulMono(q + 1, q', d);
  }

  /** The packet count is the rounded-up quotient the payload length and packet length give. */
  lemma PacketCountIsCeil(length: nat, packLength: nat)
    requires packLength > 0
    ensures PacketCount(length, packLength) == (length + packLength - 1) / packLength
  {
    var n := PacketCount(length, packLength);
    PacketCountBounds(length, packLength);
    if n > 0 {
      assert (n - 1) * packLength + packLength == n * packLength;
    }
    DivUnique(length + packLength - 1, packLength, n);
  }

  /**
    The loop `while (index < length)` runs exactly ceil(length / packLength)
    times: after `k` packets there are bytes left precisely when `k` is below
    the packet count.
  */
  lemma LoopBound(length: nat, packLength: nat, k: nat)
    requires packLength > 0
    ensures Consumed(length, packLength, k) < length <==> k < PacketCount(length, packLength)
  {
    var n := PacketCount(length, packLength);
    ConsumedClosedForm(length, packLength, k);
    PacketCountBounds(length, packLength);
    if k < n {
      MulMono(k, n - 1, packLength);
    } else {
      MulMono(n, k, packLength);
    }
  }

  /** The cursor strictly increases with every packet of the run. */
  lemma ConsumedAdvances(length: nat, packLength: nat, k: nat)
    requires packLength > 0 && k < PacketCount(length, packLength)
    ensures Consumed(length, packLength, k) < Consumed(length, packLength, k + 1)
  {
    LoopBound(length, packLength, k);
  }

  lemma {:induction false} ConsumedMonotone(length: nat, packLength: nat, i: nat, j: nat)
    requires i <= j
    ensures Consumed(length, packLength, i) <= Consumed(length, packLength, j)
  {
    if i < j {
      ConsumedMonotone(length, packLength, i, j - 1);
    }
  }

  /** The packet count consumes the whole payload. */
  lemma ConsumedAll(length: nat, packLength: nat)
    requires packLength > 0
    ensures Consumed(length, packLength, PacketCount(length, packLength)) == length
  {
    LoopBound(length, packLength, PacketCount(length, packLength));
  }

  lemma {:induction false} ChunksPrefix(data: seq<byte>, packLength: nat, m: nat)
    ensures Flatten(Chunks(data, packLength, m)) == data[..Consumed(|data|, packLength, m)]
  {
    if m > 0 {
      ChunksPrefix(data, packLength, m - 1);
      var cs := Chunks(data, packLength, m);
      assert cs[..|cs| - 1] == Chunks(data, packLength, m - 1);
      var a := Consumed(|data|, packLength, m - 1);
      var b := Consumed(|data|, packLength, m);
      assert data[..a] + data[a..b] == data[..b];
    }
  }

  /** Concatenating the unpadded packets of a whole run gives back the payload. */
  lemma Reassembly(data: seq<byte>, packLength: nat)
    requires packLength > 0
    ensures Flatten(Chunks(data, packLength, PacketCount(|data|, packLength))) == data
  {
    ChunksPrefix(data, packLength, PacketCount(|data|, packLength));
    ConsumedAll(|data|, packLength);
  }

  /** Without padding, the packets sent are exactly the payload chunks. */
  lemma {:induction false} UnpaddedPacketsAreChunks(data: seq<byte>, packLength: nat, m: nat)
    ensures Packets(data, packLength, false, m) == Chunks(data, packLength, m)
  {
    if m > 0 {
      UnpaddedPacketsAreChunks(data, packLength, m - 1);
    }
  }

  /**
    Every packet starts with its chunk of the payload. Without padding every
    packet but the last has `packLength` bytes and the last has what remains;
    with padding every packet has `packLength` bytes and the positions past
    the payload are zero.
  */
  lemma PacketShape(data: seq<byte>, packLength: nat, lastPackComplete: bool, k: nat)
    requires packLength > 0 && k < PacketCount(|data|, packLength)
    ensures var p := Packet(data, packLength, lastPackComplete, k);
            var c := Chunk(data, packLength, k);
            && |c| <= |p| && p[..|c|] == c
            && (lastPackComplete ==> |p| == packLength && forall j :: |c| <= j < packLength ==> p[j] == 0)
            && (!lastPackComplete ==>
                  |p| == if k + 1 < PacketCount(|data|, packLength) then packLength
                         else |data| - k * packLength)
  {
    var n := PacketCount(|data|, packLength);
    LoopBound(|data|, packLength, k);
    LoopBound(|data|, packLength, k + 1);
    ConsumedClosedForm(|data|, packLength, k);
    ConsumedClosedForm(|data|, packLength, k + 1);
    assert k * packLength + packLength == (k + 1) * packLength;
  }

  // ------------------------------------------------------------------
  // The run: outcome and callback trace
  // ------------------------------------------------------------------

  /** Callbacks of BleWriteEntityCallback; progress is (index, length). */
  datatype EntityEvent = WriteProgress(index: nat, length: nat) | WriteCancel | WriteFailed | WriteSuccess
  {
    predicate IsTerminal() { !WriteProgress? }
  }

  /**
    What the run observes from outside: whether cancelWriteEntity was called
    since the previous check when the check of packet `k` runs, and whether
    the write of packet `k` was issued.
  */
  datatype Env = Env(cancelBefore: nat -> bool, writeOk: nat -> bool)

  datatype Outcome = CancelledBefore(k: nat) | FailedAt(k: nat) | Completed

  /** Where a run over `n` packets stops, scanning from packet `k`. */
  function Stop(n: nat, env: Env, callback: bool, k: nat): Outcome
    decreases n - k
  {
    if k >= n then Completed
    else if env.cancelBefore(k) then CancelledBefore(k)
    else if callback && !env.writeOk(k) then FailedAt(k)
    else Stop(n, env, callback, k + 1)
  }

  /** Number of packets handed to the write oracle before the run ended. */
  function Issued(n: nat, o: Outcome): nat
  {
    match o
    case CancelledBefore(k) => k
    case FailedAt(k) => k + 1
    case Completed => n
  }

  /** Number of progress reports of a run with a callback. */
  function Reported(n: nat, o: Outcome): nat
  {
    match o
    case CancelledBefore(k) => k
    case FailedAt(k) => k
    case Completed => n
  }

  function Terminal(o: Outcome): EntityEvent
  {
    match o
    case CancelledBefore(_) => WriteCancel
    case FailedAt(_) => WriteFailed
    case Completed => WriteSuccess
  }

  /** The callbacks fired from packet `k` on. */
  function Events(length: nat, packLength: nat, env: Env, callback: bool, k: nat): seq<EntityEvent>
    requires packLength > 0
    decreases PacketCount(length, packLength) - k
  {
    if k >= PacketCount(length, packLength) then (if callback then [WriteSuccess] else [])
    else if env.cancelBefore(k) then (if callback then [WriteCancel] else [])
    else if !env.writeOk(k) then
      (if callback then [WriteFailed] else Events(length, packLength, env, callback, k + 1))
    else
      Progress(length, packLength, callback, k) + Events(length, packLength, env, callback, k + 1)
  }

  ghost predicate NoHaltBetween(env: Env, callback: bool, k: nat, j: nat)
  {
    forall i: nat :: k <= i < j ==> !env.cancelBefore(i) && (callback ==> env.writeOk(i))
  }

  /**
    The run stops at the first packet whose check sees a cancel (nothing of
    that packet is written) or, with a callback, at the first failed write;
    otherwise it completes. Without a callback a failed write never stops it.
  */
  lemma {:induction false} StopIsFirstHalt(n: nat, env: Env, callback: bool, k: nat)
    ensures match Stop(n, env, callback, k)
            case CancelledBefore(j) =>
              k <= j < n && env.cancelBefore(j) && NoHaltBetween(env, callback, k, j)
            case FailedAt(j) =>
              k <= j < n && callback && !env.cancelBefore(j) && !env.writeOk(j)
              && NoHaltBetween(env, callback, k, j)
            case Completed => NoHaltBetween(env, callback, k, n)
    decreases n - k
  {
    if k < n && !env.cancelBefore(k) && !(callback && !env.writeOk(k)) {
      StopIsFirstHalt(n, env, callback, k + 1);
    }
  }

  /** Without a callback the run reports nothing. */
  lemma {:induction false} SilentWithoutCallback(length: nat, packLength: nat, env: Env, k: nat)
    requires packLength > 0
    ensures Events(length, packLength, env, false, k) == []
    decreases PacketCount(length, packLength) - k
  {
    if k < PacketCount(length, packLength) && !env.cancelBefore(k) {
      SilentWithoutCallback(length, packLength, env, k + 1);
    }
  }

  /**
    With a callback, the trace is one progress report per successful packet,
    carrying the bytes consumed so far, followed by exactly one terminal
    callback that matches the outcome.
  */
  lemma {:induction false} CallbackEvents(length: nat, packLength: nat, env: Env, k: nat)
    requires packLength > 0 && k <= PacketCount(length, packLength)
    ensures var n := PacketCount(length, packLength);
            var o := Stop(n, env, true, k);
            var ev := Events(length, packLength, env, true, k);
            && k <= Reported(n, o)
            && |ev| == Reported(n, o) - k + 1
            && ev[|ev| - 1] == Terminal(o)
            && forall i :: 0 <= i < |ev| - 1 ==>
                 ev[i] == WriteProgress(Consumed(length, packLength, k + i + 1), length)
    decreases PacketCount(length, packLength) - k
  {
    var n := PacketCount(length, packLength);
    if k < n && !env.cancelBefore(k) && env.writeOk(k) {
      CallbackEvents(length, packLength, env, k + 1);
      var ev := Events(length, packLength, env, true, k);
      var rest := Events(length, packLength, env, true, k + 1);
      assert ev == [WriteProgress(Consumed(length, packLength, k + 1), length)] + rest;
      forall i | 0 <= i < |ev| - 1
        ensures ev[i] == WriteProgress(Consumed(length, packLength, k + i + 1), length)
      {
        if i > 0 {
          assert ev[i] == rest[i - 1];
        }
      }
    }
  }

  /** With a callback, exactly one terminal callback fires, and it is the last one. */
  lemma ExactlyOneTerminal(length: nat, packLength: nat, env: Env)
    requires packLength > 0
    ensures var ev := Events(length, packLength, env, true, 0);
            |ev| > 0 && forall i :: 0 <= i < |ev| ==> (ev[i].IsTerminal() <==> i == |ev| - 1)
  {
    CallbackEvents(length, packLength, env, 0);
  }

  /** Reported progress never decreases and never exceeds the payload length. */
  lemma ProgressNonDecreasing(length: nat, packLength: nat, env: Env, i: nat, j: nat)
    requires packLength > 0
    requires i <= j < |Events(length, packLength, env, true, 0)| - 1
    ensures var ev := Events(length, packLength, env, true, 0);
            ev[i].WriteProgress? && ev[j].WriteProgress?
            && ev[i].index <= ev[j].index <= ev[j].length == length
  {
    CallbackEvents(length, packLength, env, 0);
    ConsumedMonotone(length, packLength, i + 1, j + 1);
  }

  /** A completed run of a non-empty payload reports progress length/length last. */
  lemma FinalProgressIsWhole(length: nat, packLength: nat, env: Env)
    requires packLength > 0 && length > 0
    requires Stop(PacketCount(length, packLength), env, true, 0) == Completed
    ensures var ev := Events(length, packLength, env, true, 0);
            |ev| >= 2 && ev[|ev| - 1] == WriteSuccess
            && ev[|ev| - 2] == WriteProgress(length, length)
  {
    var n := PacketCount(length, packLength);
    CallbackEvents(length, packLength, env, 0);
    LoopBound(length, packLength, 0);
    ConsumedAll(length, packLength);
  }

  /**
    The buffer length executeEntity allocates for packet `k` and the bytes its
    copy loop moves into it make up exactly `Packet(k)`.
  */
  lemma PacketStep(data: seq<byte>, packLength: nat, lastPackComplete: bool, k: nat, onePackLength: int)
    requires packLength > 0 && k < PacketCount(|data|, packLength)
    requires onePackLength == if lastPackComplete then packLength
                              else Min(packLength, |data| - Consumed(|data|, packLength, k))
    ensures var c := Consumed(|data|, packLength, k);
            var next := c + Min(onePackLength, |data| - c);
            && 0 <= onePackLength && next == Consumed(|data|, packLength, k + 1)
            && data[c..next] + Zeros(onePackLength - (next - c)) == Packet(data, packLength, lastPackComplete, k)
  {
    LoopBound(|data|, packLength, k);
    var c := Consumed(|data|, packLength, k);
    var next := c + Min(onePackLength, |data| - c);
    if !lastPackComplete {
      assert data[c..next] + Zeros(0) == data[c..next];
    }
  }

  /** The copy loop of executeEntity: fills a fresh zeroed buffer from `data[index..]`. */
  method FillPacket(data: seq<byte>, index: nat, onePackLength: nat) returns (txBuffer: array<byte>, next: nat)
    requires index <= |data|
    ensures fresh(txBuffer)
    ensures next == index + Min(onePackLength, |data| - index)
    ensures txBuffer[..] == data[index..next] + Zeros(onePackLength - (next - index))
  {
    txBuffer := new byte[onePackLength](_ => 0);
    next := index;
    for i := 0 to onePackLength
      invariant next == index + Min(i, |data| - index)
      invariant forall j :: 0 <= j < onePackLength ==>
                  txBuffer[j] == if j < next - index then data[index + j] else 0
    {
      if next < |data| {
        txBuffer[i] := data[next];
        next := next + 1;
      }
    }
  }

  /**
    One packet of executeEntity: its length (packLength when the last packet
    is padded, otherwise what remains up to packLength), the buffer filled
    from the cursor, the advanced cursor and the bytes still available.
  */
  method NextPacket(data: seq<byte>, packLength: nat, lastPackComplete: bool, k: nat, index: nat,
                    availableLength: int)
    returns (txBuffer: array<byte>, next: nat, remaining: int)
    requires packLength > 0 && k < PacketCount(|data|, packLength)
    requires index == Consumed(|data|, packLength, k)
    requires !lastPackComplete ==> availableLength == |data| - index
    ensures fresh(txBuffer)
    ensures txBuffer[..] == Packet(data, packLength, lastPackComplete, k)
    ensures next == Consumed(|data|, packLength, k + 1)
    ensures !lastPackComplete ==> remaining == |data| - next
  {
    var onePackLength: int := packLength;
    if !lastPackComplete {
      onePackLength := if availableLength >= packLength then packLength else availableLength;
    }
    PacketStep(data, packLength, lastPackComplete, k, onePackLength);
    txBuffer, next := FillPacket(data, index, onePackLength);
    remaining := availableLength - onePackLength;
  }

  // ------------------------------------------------------------------
  // The request object
  // ------------------------------------------------------------------

  /** The exceptions writeEntity throws before anything is submitted. */
  datatype WriteError = EmptyEntity | PackLengthNotPositive

  /**
    What a writeEntity call did: thrown before submitting, or submitted the
    job, which either returned a value (`Some`) or ended with the exception
    `Thread.sleep` throws for a negative delay (`None`).
  */
  datatype Submission = Rejected(error: WriteError) | Submitted(result: Option<bool>)

  /** EntityData: the payload and how to send it. */
  datatype EntityData = EntityData(
    address: Address,
    data: seq<byte>,
    packLength: int,
    delay: int,
    autoWriteMode: bool,
    lastPackComplete: bool)

  /** The validation of the explicit writeEntity overload (and, as modelled, of EntityData.validParms). */
  function Validate(data: seq<byte>, packLength: int): (r: Option<WriteError>)
    ensures r == None <==> |data| > 0 && packLength > 0
    ensures r == Some(EmptyEntity) <==> |data| == 0
  {
    if |data| == 0 then Some(EmptyEntity)
    else if packLength <= 0 then Some(PackLengthNotPositive)
    else None
  }

  datatype Job = Job(data: seq<byte>, packLength: nat, autoWriteMode: bool, lastPackComplete: bool, delay: int)

  /** Manual pacing (`Thread.sleep(delay)`) with a negative delay throws IllegalArgumentException. */
  predicate SleepThrows(job: Job)
  {
    !job.autoWriteMode && job.delay < 0
  }

  /** The part of the request's state a run changes. */
  datatype EntityState = EntityState(
    writing: bool,
    autoMode: bool,
    issued: seq<seq<byte>>,
    events: seq<EntityEvent>)

  /**
    The run as executeEntity performs it, packet by packet, continued from
    packet `k` in state `s`: check the cancel flag, write the packet, then
    report failure (ending the run when a callback is set) or progress.
    Returns the state left behind and the value the Callable returns.
  */
  function RunFrom(s: EntityState, job: Job, callback: bool, env: Env, k: nat): (EntityState, bool)
    requires job.packLength > 0
    decreases PacketCount(|job.data|, job.packLength) - k
  {
    var length := |job.data|;
    if k >= PacketCount(length, job.packLength) then
      (if callback then EntityState(false, false, s.issued, s.events + [WriteSuccess]) else s, true)
    else if env.cancelBefore(k) then
      (EntityState(false, false, s.issued, s.events + (if callback then [WriteCancel] else [])), false)
    else
      var issued := s.issued + [Packet(job.data, job.packLength, job.lastPackComplete, k)];
      if callback && !env.writeOk(k) then
        (EntityState(false, false, issued, s.events + [WriteFailed]), false)
      else
        RunFrom(s.(issued := issued, events := s.events + Progress(length, job.packLength, callback, k)),
                job, callback, env, k + 1)
  }

  /** The progress report after a successful packet `k`, when a callback is set. */
  function Progress(length: nat, packLength: nat, callback: bool, k: nat): seq<EntityEvent>
  {
    if callback then [WriteProgress(Consumed(length, packLength, k + 1), length)] else []
  }

  /** A whole run: both flags are raised, then the packets are sent from the first. */
  function RunEntity(s: EntityState, job: Job, callback: bool, env: Env): (EntityState, bool)
    requires job.packLength > 0
  {
    RunFrom(s.(writing := true, autoMode := job.autoWriteMode), job, callback, env, 0)
  }

  /** Unfolding of RunFrom at a packet that is written and does not end the run. */
  lemma RunFromAdvance(s: EntityState, job: Job, callback: bool, env: Env, k: nat)
    requires job.packLength > 0 && k < PacketCount(|job.data|, job.packLength)
    requires !env.cancelBefore(k) && !(callback && !env.writeOk(k))
    ensures RunFrom(s, job, callback, env, k)
            == RunFrom(s.(issued := s.issued + [Packet(job.data, job.packLength, job.lastPackComplete, k)],
                          events := s.events + Progress(|job.data|, job.packLength, callback, k)),
                       job, callback, env, k + 1)
  {
  }

  /** Unfolding of RunFrom at a packet whose check sees a cancel. */
  lemma RunFromCancel(s: EntityState, job: Job, callback: bool, env: Env, k: nat)
    requires job.packLength > 0 && k < PacketCount(|job.data|, job.packLength) && env.cancelBefore(k)
    ensures RunFrom(s, job, callback, env, k)
            == (EntityState(false, false, s.issued, s.events + (if callback then [WriteCancel] else [])), false)
  {
  }

  /** Unfolding of RunFrom at a packet whose failed write ends the run. */
  lemma RunFromFailure(s: EntityState, job: Job, callback: bool, env: Env, k: nat)
    requires job.packLength > 0 && k < PacketCount(|job.data|, job.packLength)
    requires !env.cancelBefore(k) && callback && !env.writeOk(k)
    ensures RunFrom(s, job, callback, env, k)
            == (EntityState(false, false, s.issued + [Packet(job.data, job.packLength, job.lastPackComplete, k)],
                            s.events + [WriteFailed]), false)
  {
  }

  /** Unfolding of RunFrom once every packet is written. */
  lemma RunFromEnd(s: EntityState, job: Job, callback: bool, env: Env, k: nat)
    requires job.packLength > 0 && k >= PacketCount(|job.data|, job.packLength)
    ensures RunFrom(s, job, callback, env, k)
            == (if callback then EntityState(false, false, s.issued, s.events + [WriteSuccess]) else s, true)
  {
  }

  /**
    The run returns true exactly when it completes; only a completed run
    without a callback leaves isWritingEntity (and isAutoWriteMode, if
    requested) raised: every other ending clears both.
  */
  lemma {:induction false} RunFromOutcome(s: EntityState, job: Job, callback: bool, env: Env, k: nat)
    requires job.packLength > 0 && k <= PacketCount(|job.data|, job.packLength)
    requires s.writing && s.autoMode == job.autoWriteMode
    ensures var r := RunFrom(s, job, callback, env, k);
            var completed := Stop(PacketCount(|job.data|, job.packLength), env, callback, k) == Completed;
            && r.1 == completed
            && r.0.writing == (completed && !callback)
            && r.0.autoMode == (r.0.writing && job.autoWriteMode)
    decreases PacketCount(|job.data|, job.packLength) - k
  {
    var n := PacketCount(|job.data|, job.packLength);
    if k < n && !env.cancelBefore(k) && !(callback && !env.writeOk(k)) {
      RunFromAdvance(s, job, callback, env, k);
      RunFromOutcome(s.(issued := s.issued + [Packet(job.data, job.packLength, job.lastPackComplete, k)],
                        events := s.events + Progress(|job.data|, job.packLength, callback, k)),
                     job, callback, env, k + 1);
    }
  }

  /** The run writes, in order, the packets up to the one where it stops. */
  lemma {:induction false} RunFromIssued(s: EntityState, job: Job, callback: bool, env: Env, k: nat,
                                         issued0: seq<seq<byte>>)
    requires job.packLength > 0 && k <= PacketCount(|job.data|, job.packLength)
    requires s.issued == issued0 + Packets(job.data, job.packLength, job.lastPackComplete, k)
    ensures var n := PacketCount(|job.data|, job.packLength);
            RunFrom(s, job, callback, env, k).0.issued
            == issued0 + Packets(job.data, job.packLength, job.lastPackComplete, Issued(n, Stop(n, env, callback, k)))
    decreases PacketCount(|job.data|, job.packLength) - k
  {
    var n := PacketCount(|job.data|, job.packLength);
    var goal := issued0 + Packets(job.data, job.packLength, job.lastPackComplete, Issued(n, Stop(n, env, callback, k)));
    if k == n {
      assert RunFrom(s, job, callback, env, k).0.issued == goal by {
        RunFromEnd(s, job, callback, env, k);
        assert Issued(n, Stop(n, env, callback, k)) == k;
      }
    } else if env.cancelBefore(k) {
      assert RunFrom(s, job, callback, env, k).0.issued == goal by {
        RunFromCancel(s, job, callback, env, k);
        assert Issued(n, Stop(n, env, callback, k)) == k;
      }
    } else {
      var ps := Packets(job.data, job.packLength, job.lastPackComplete, k);
      var p := Packet(job.data, job.packLength, job.lastPackComplete, k);
      assert s.issued + [p] == issued0 + Packets(job.data, job.packLength, job.lastPackComplete, k + 1) by {
        assert issued0 + ps + [p] == issued0 + (ps + [p]);
      }
      if callback && !env.writeOk(k) {
        assert RunFrom(s, job, callback, env, k).0.issued == goal by {
          RunFromFailure(s, job, callback, env, k);
          assert Issued(n, Stop(n, env, callback, k)) == k + 1;
        }
      } else {
        assert RunFrom(s, job, callback, env, k).0.issued == goal by {
          var s' := s.(issued := s.issued + [p], events := s.events + Progress(|job.data|, job.packLength, callback, k));
          RunFromAdvance(s, job, callback, env, k);
          RunFromIssued(s', job, callback, env, k + 1, issued0);
          assert Stop(n, env, callback, k) == Stop(n, env, callback, k + 1);
        }
      }
    }
  }

  /** The callbacks the run fires are the trace `Events`. */
  lemma {:induction false} RunFromEvents(s: EntityState, job: Job, callback: bool, env: Env, k: nat)
    requires job.packLength > 0 && k <= PacketCount(|job.data|, job.packLength)
    ensures RunFrom(s, job, callback, env, k).0.events
            == s.events + Events(|job.data|, job.packLength, env, callback, k)
    decreases PacketCount(|job.data|, job.packLength) - k
  {
    var n := PacketCount(|job.data|, job.packLength);
    var length := |job.data|;
    if k == n {
      RunFromEnd(s, job, callback, env, k);
      assert callback || s.events + [] == s.events;
    } else if env.cancelBefore(k) {
      RunFromCancel(s, job, callback, env, k);
    } else if callback && !env.writeOk(k) {
      RunFromFailure(s, job, callback, env, k);
    } else {
      var progress := Progress(length, job.packLength, callback, k);
      var s' := s.(issued := s.issued + [Packet(job.data, job.packLength, job.lastPackComplete, k)],
                   events := s.events + progress);
      RunFromAdvance(s, job, callback, env, k);
      RunFromEvents(s', job, callback, env, k + 1);
      assert Events(length, job.packLength, env, callback, k)
             == progress + Events(length, job.packLength, env, callback, k + 1);
      assert s.events + progress + Events(length, job.packLength, env, callback, k + 1)
             == s.events + (progress + Events(length, job.packLength, env, callback, k + 1));
    }
  }

  /**
    What a whole run leaves behind: it returns true exactly when it
    completes, only a completed run without a callback leaves the flags
    raised, the packets up to the stop are written in order after the ones
    already written, and the callbacks fired are the trace `Events`.
  */
  lemma RunEntityEffect(s: EntityState, job: Job, callback: bool, env: Env)
    requires job.packLength > 0
    ensures var n := PacketCount(|job.data|, job.packLength);
            var o := Stop(n, env, callback, 0);
            var (t, ok) := RunEntity(s, job, callback, env);
            && ok == (o == Completed)
            && t.writing == (o == Completed && !callback)
            && t.autoMode == (t.writing && job.autoWriteMode)
            && t.issued == s.issued + Packets(job.data, job.packLength, job.lastPackComplete, Issued(n, o))
            && t.events == s.events + Events(|job.data|, job.packLength, env, callback, 0)
  {
    var s1 := s.(writing := true, autoMode := job.autoWriteMode);
    RunFromOutcome(s1, job, callback, env, 0);
    assert s1.issued == s.issued + [];
    RunFromIssued(s1, job, callback, env, 0, s.issued);
    RunFromEvents(s1, job, callback, env, 0);
  }

  /**
    The submitted Callable. When the pacing step throws, the job dies after
    the first packet that does not end the run (`None`); otherwise it is the
    whole run, with the value it returns.
  */
  function Execute(s: EntityState, job: Job, callback: bool, env: Env): (EntityState, Option<bool>)
    requires job.packLength > 0
  {
    if SleepThrows(job) && 0 < PacketCount(|job.data|, job.packLength)
       && !env.cancelBefore(0) && !(callback && !env.writeOk(0))
    then
      (EntityState(true, job.autoWriteMode, s.issued + [Packet(job.data, job.packLength, job.lastPackComplete, 0)],
                   s.events + Progress(|job.data|, job.packLength, callback, 0)),
       None)
    else
      var (t, ok) := RunEntity(s, job, callback, env);
      (t, Some(ok))
  }

  /** A job whose first packet already ends it, or whose pacing never throws, is the whole run. */
  lemma ExecuteWhole(s: EntityState, job: Job, callback: bool, env: Env)
    requires job.packLength > 0
    requires !SleepThrows(job) || PacketCount(|job.data|, job.packLength) == 0
             || env.cancelBefore(0) || (callback && !env.writeOk(0))
    ensures Execute(s, job, callback, env)
            == (RunEntity(s, job, callback, env).0, Some(RunEntity(s, job, callback, env).1))
  {
  }

  /** A job whose pacing throws after a first packet that does not end it stops there. */
  lemma ExecuteAborts(s: EntityState, job: Job, callback: bool, env: Env)
    requires job.packLength > 0 && SleepThrows(job) && 0 < PacketCount(|job.data|, job.packLength)
    requires !env.cancelBefore(0) && !(callback && !env.writeOk(0))
    ensures Execute(s, job, callback, env)
            == (EntityState(true, job.autoWriteMode, s.issued + [Packet(job.data, job.packLength, job.lastPackComplete, 0)],
                            s.events + Progress(|job.data|, job.packLength, callback, 0)), None)
  {
  }

  /**
    The job dies exactly when the pacing step throws and the first packet
    neither sees a cancel nor ends the run by a failure. It then leaves
    isWritingEntity raised, has written only the first packet and fires no
    terminal callback; every other job is the whole run.
  */
  lemma ExecuteEffect(s: EntityState, job: Job, callback: bool, env: Env)
    requires job.packLength > 0
    ensures var n := PacketCount(|job.data|, job.packLength);
            var (t, r) := Execute(s, job, callback, env);
            && (r == None <==> SleepThrows(job) && 0 < n
                               && Stop(n, env, callback, 0) != CancelledBefore(0) && Stop(n, env, callback, 0) != FailedAt(0))
            && (r == None ==>
                  && t.writing
                  && t.issued == s.issued + Packets(job.data, job.packLength, job.lastPackComplete, 1)
                  && s.events <= t.events && |t.events| <= |s.events| + 1
                  && forall i :: |s.events| <= i < |t.events| ==> !t.events[i].IsTerminal())
            && (r.Some? ==> (t, r.value) == RunEntity(s, job, callback, env))
  {
    var n := PacketCount(|job.data|, job.packLength);
    var (t, r) := Execute(s, job, callback, env);
    StopIsFirstHalt(n, env, callback, 1);
    if r == None {
      assert Packets(job.data, job.packLength, job.lastPackComplete, 1)
             == [Packet(job.data, job.packLength, job.lastPackComplete, 0)];
    }
  }

  /** Callbacks of the one-shot BleWriteCallback. */
  datatype WriteEvent = CharacteristicWritten(cha: Uuid) | CharacteristicWriteFailed(message: string)

  class WriteRequest {
    /** bleWriteCallback != null */
    var hasWriteCallback: bool
    /** bleWriteEntityCallback != null */
    var hasEntityCallback: bool
    var isWritingEntity: bool
    var isAutoWriteMode: bool
    /** Every buffer handed to BleRequestImpl.wirteCharacteristic, in order. */
    var issuedWrites: seq<seq<byte>>
    var entityEvents: seq<EntityEvent>
    var writeEvents: seq<WriteEvent>

    ghost function State(): EntityState
      reads this
    {
      EntityState(isWritingEntity, isAutoWriteMode, issuedWrites, entityEvents)
    }

    constructor ()
      ensures !hasWriteCallback && !hasEntityCallback && !isWritingEntity && !isAutoWriteMode
      ensures issuedWrites == [] && entityEvents == [] && writeEvents == []
    {
      hasWriteCallback, hasEntityCallback := false, false;
      isWritingEntity, isAutoWriteMode := false, false;
      issuedWrites, entityEvents, writeEvents := [], [], [];
    }

    /** One-shot write: the issue result of the packet write is the oracle `issued`. */
    method Write(data: seq<byte>, listener: bool, issued: bool) returns (r: bool)
      modifies this`hasWriteCallback, this`issuedWrites
      ensures hasWriteCallback == listener
      ensures issuedWrites == old(issuedWrites) + [data]
      ensures r == issued
    {
      hasWriteCallback := listener;
      issuedWrites := issuedWrites + [data];
      r := issued;
    }

    /** Clears both flags when a transfer is running; otherwise changes nothing. */
    method CancelWriteEntity()
      modifies this`isWritingEntity, this`isAutoWriteMode
      ensures old(isWritingEntity) ==> !isWritingEntity && !isAutoWriteMode
      ensures !old(isWritingEntity) ==> !isWritingEntity && isAutoWriteMode == old(isAutoWriteMode)
    {
      if isWritingEntity {
        isWritingEntity := false;
        isAutoWriteMode := false;
      }
    }

    /** writeEntity(EntityData, listener): validParms runs before the listener is stored. */
    method WriteEntityData(entity: EntityData, listener: bool, env: Env) returns (r: Submission)
      modifies this`hasEntityCallback, this`isWritingEntity, this`isAutoWriteMode, this`issuedWrites, this`entityEvents
      ensures var v := Validate(entity.data, entity.packLength);
              && (v.Some? ==> r == Rejected(v.value) && hasEntityCallback == old(hasEntityCallback)
                              && State() == old(State()))
              && (v.None? ==>
                    && hasEntityCallback == listener && entity.packLength > 0 && r.Submitted?
                    && (State(), r.result) == Execute(old(State()),
                         Job(entity.data, entity.packLength, entity.autoWriteMode, entity.lastPackComplete, entity.delay),
                         listener, env))
    {
      var v := Validate(entity.data, entity.packLength);
      if v.Some? {
        return Rejected(v.value);
      }
      hasEntityCallback := listener;
      var result := ExecuteEntity(Job(entity.data, entity.packLength, entity.autoWriteMode, entity.lastPackComplete, entity.delay), env);
      r := Submitted(result);
    }

    /**
      writeEntity(device, data, packLength, delay, listener): the listener is
      stored first, then empty data or a non-positive packLength throw, and
      nothing is submitted. The job paces with `Thread.sleep(delay)`, which
      throws for a negative delay.
    */
    method WriteEntity(address: Address, data: seq<byte>, packLength: int, delay: int, listener: bool, env: Env)
      returns (r: Submission)
      modifies this`hasEntityCallback, this`isWritingEntity, this`isAutoWriteMode, this`issuedWrites, this`entityEvents
      ensures hasEntityCallback == listener
      ensures var v := Validate(data, packLength);
              && (v.Some? ==> r == Rejected(v.value) && State() == old(State()))
              && (v.None? ==>
                    && packLength > 0 && r.Submitted?
                    && (State(), r.result) == Execute(old(State()), Job(data, packLength, false, false, delay), listener, env))
    {
      hasEntityCallback := listener;
      var v := Validate(data, packLength);
      if v.Some? {
        return Rejected(v.value);
      }
      var entity := EntityData(address, data, packLength, delay, false, false);
      var result := ExecuteEntity(Job(entity.data, entity.packLength, entity.autoWriteMode, entity.lastPackComplete, entity.delay), env);
      r := Submitted(result);
    }

    /** The Callable submitted by executeEntity, run to its end; None when it throws. */
    method ExecuteEntity(job: Job, env: Env) returns (result: Option<bool>)
      requires job.packLength > 0
      modifies this`isWritingEntity, this`isAutoWriteMode, this`issuedWrites, this`entityEvents
      ensures (State(), result) == Execute(old(State()), job, hasEntityCallback, env)
    {
      var data, packLength, lastPackComplete := job.data, job.packLength, job.lastPackComplete;
      ghost var n := PacketCount(|data|, packLength);
      ghost var cb := hasEntityCallback;
      ghost var s0 := State();
      isWritingEntity := true;
      isAutoWriteMode := job.autoWriteMode;
      ghost var goal := RunFrom(State(), job, cb, env, 0);
      assert goal == RunEntity(s0, job, cb, env);
      var index := 0;
      var length := |data|;
      var availableLength: int := length;
      var k: nat := 0;
      LoopBound(length, packLength, 0);
      while index < length
        invariant k <= n
        invariant index == Consumed(length, packLength, k)
        invariant !lastPackComplete ==> availableLength == length - index
        invariant isWritingEntity && isAutoWriteMode == job.autoWriteMode
        invariant RunFrom(State(), job, cb, env, k) == goal
        invariant SleepThrows(job) ==> k == 0 && issuedWrites == s0.issued && entityEvents == s0.events
        decreases length - index
      {
        LoopBound(length, packLength, k);
        ghost var before := State();
        var cancelled := CheckCancel(env, k);
        if cancelled {
          RunFromCancel(before, job, cb, env, k);
          ExecuteWhole(s0, job, cb, env);
          return Some(false);
        }
        var failed;
        failed, index, availableLength := SendPacket(job, env, k, index, availableLength);
        if failed {
          RunFromFailure(before, job, cb, env, k);
          ExecuteWhole(s0, job, cb, env);
          return Some(false);
        }
        // pacing: lock.wait(500) in auto mode, Thread.sleep(delay) otherwise; only a throw is modelled
        if !job.autoWriteMode && job.delay < 0 {
          ExecuteAborts(s0, job, cb, env);
          return None;
        }
        RunFromAdvance(before, job, cb, env, k);
        k := k + 1;
      }
      LoopBound(length, packLength, k);
      RunFromEnd(State(), job, cb, env, k);
      if hasEntityCallback {
        entityEvents := entityEvents + [WriteSuccess];
        isWritingEntity := false;
        isAutoWriteMode := false;
      }
      ExecuteWhole(s0, job, cb, env);
      return Some(true);
    }

    /**
      The check at the top of each packet: a cancel requested from another
      thread (sampled as `env.cancelBefore(k)`) clears the flag, and a
      cleared flag ends the run with onWriteCancel when a callback is set.
    */
    method CheckCancel(env: Env, k: nat) returns (cancelled: bool)
      requires isWritingEntity
      modifies this`isWritingEntity, this`isAutoWriteMode, this`entityEvents
      ensures cancelled == env.cancelBefore(k)
      ensures cancelled ==> State() == EntityState(false, false, old(issuedWrites),
                                                   old(entityEvents) + (if hasEntityCallback then [WriteCancel] else []))
      ensures !cancelled ==> State() == old(State())
    {
      if env.cancelBefore(k) {
        CancelWriteEntity();
      }
      cancelled := !isWritingEntity;
      if cancelled {
        if hasEntityCallback {
          entityEvents := entityEvents + [WriteCancel];
          isAutoWriteMode := false;
        }
        assert hasEntityCallback || entityEvents + [] == entityEvents;
      }
    }

    /**
      One packet of the run: cut packet `k`, hand it to the stack, then end
      the run on a failure when a callback is set, or report progress.
    */
    method SendPacket(job: Job, env: Env, k: nat, index: nat, availableLength: int)
      returns (failed: bool, next: nat, remaining: int)
      requires job.packLength > 0 && k < PacketCount(|job.data|, job.packLength)
      requires index == Consumed(|job.data|, job.packLength, k)
      requires !job.lastPackComplete ==> availableLength == |job.data| - index
      modifies this`isWritingEntity, this`isAutoWriteMode, this`issuedWrites, this`entityEvents
      ensures next == Consumed(|job.data|, job.packLength, k + 1)
      ensures !job.lastPackComplete ==> remaining == |job.data| - next
      ensures failed == (hasEntityCallback && !env.writeOk(k))
      ensures var issued := old(issuedWrites) + [Packet(job.data, job.packLength, job.lastPackComplete, k)];
              if failed then State() == EntityState(false, false, issued, old(entityEvents) + [WriteFailed])
              else State() == old(State()).(issued := issued,
                                             events := old(entityEvents) + Progress(|job.data|, job.packLength, hasEntityCallback, k))
    {
      var txBuffer;
      txBuffer, next, remaining := NextPacket(job.data, job.packLength, job.lastPackComplete, k, index, availableLength);
      var result := env.writeOk(k);
      issuedWrites := issuedWrites + [txBuffer[..]];
      failed := false;
      if !result {
        if hasEntityCallback {
          entityEvents := entityEvents + [WriteFailed];
          isWritingEntity := false;
          isAutoWriteMode := false;
          failed := true;
        }
      } else {
        if hasEntityCallback {
          entityEvents := entityEvents + [WriteProgress(next, |job.data|)];
        }
      }
      assert hasEntityCallback || entityEvents + [] == entityEvents;
    }

    /** Forwards a characteristic-write confirmation to the one-shot callback. */
    method OnWriteSuccess(cha: Uuid)
      modifies this`writeEvents
      ensures writeEvents == old(writeEvents) + (if hasWriteCallback then [CharacteristicWritten(cha)] else [])
    {
      if hasWriteCallback {
        writeEvents := writeEvents + [CharacteristicWritten(cha)];
      }
      // in auto mode this also wakes the paced run (lock.notify), a no-op here
    }

    /** Forwards a characteristic-write failure to the one-shot callback. */
    method OnWiteFailed(message: string)
      modifies this`writeEvents
      ensures writeEvents == old(writeEvents) + (if hasWriteCallback then [CharacteristicWriteFailed(message)] else [])
    {
      if hasWriteCallback {
        writeEvents := writeEvents + [CharacteristicWriteFailed(message)];
      }
    }
  }
}
