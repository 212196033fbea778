/** The polling wait: once per time unit, read what the transport has,
    append it to the receive buffer and scan for the expected reply, until
    it is found or the timeout runs out. */
module Polling {
  import opened CText
  import opened Scanner

  /** A scan of the receive buffer: the reply line it takes out and the
      buffer left behind, or nothing. */
  type Scan = string -> Option<Extraction>

  /** The driver's scan for an expected reply. */
  function ScanFor(token: string): Scan {
    buf => AtParser(buf, token)
  }

  /** Result of a wait: the reply line found and the buffer left behind,
      or the buffer at timeout; `polls` counts delay-and-read iterations. */
  datatype WaitOutcome =
    | Found(response: string, rx: string, polls: nat)
    | TimedOut(rx: string, polls: nat)

  /** What the transport returns at the `k`-th read of a stream: the `k`-th
      chunk, or nothing once the stream is exhausted. */
  function Chunk(chunks: seq<string>, k: nat): string {
    if k < |chunks| then chunks[k] else ""
  }

  /** The stream after its first read. */
  function Rest(chunks: seq<string>): seq<string> {
    if chunks == [] then [] else chunks[1..]
  }

  /** The receive buffer after `n` reads appended to `rx`. */
  function Received(rx: string, chunks: seq<string>, n: nat): string {
    if n == 0 then rx else Received(rx, chunks, n - 1) + UpToNul(Chunk(chunks, n - 1))
  }

  /** The scan after the read of iteration `k` finds the reply. */
  predicate Hit(rx: string, scan: Scan, chunks: seq<string>, k: nat) {
    scan(Received(rx, chunks, k + 1)).Some?
  }

  /** The wait loop: `timeout` iterations at most, each appending one read
      to the buffer and scanning it. */
  function Wait(rx: string, scan: Scan, chunks: seq<string>, timeout: nat): (w: WaitOutcome)
    ensures timeout == 0 ==> w == TimedOut(rx, 0)
    ensures w.TimedOut? ==> w.polls == timeout
    ensures w.Found? ==> 1 <= w.polls <= timeout
    decreases timeout
  {
    if timeout == 0 then TimedOut(rx, 0)
    else
      var rx' := rx + UpToNul(Chunk(chunks, 0));
      match scan(rx')
      case Some(x) => Found(x.response, x.rest, 1)
      case None =>
        var w := Wait(rx', scan, Rest(chunks), timeout - 1);
        w.(polls := w.polls + 1)
  }

  /** The wait counted from a later iteration. */
  function Later(w: WaitOutcome, k: nat): WaitOutcome {
    w.(polls := w.polls + k)
  }

  /** The loop as the driver runs it: a counter that starts at the timeout
      and drops by one per iteration. */
  method FindAtResponse(rx: string, scan: Scan, chunks: seq<string>, timeout: nat) returns (w: WaitOutcome)
    ensures w == Wait(rx, scan, chunks, timeout)
  {
    var buffer := rx;
    var pending := chunks;
    var remaining := timeout;
    var k := 0;
    while remaining > 0
      invariant Wait(rx, scan, chunks, timeout) == Later(Wait(buffer, scan, pending, remaining), k)
      decreases remaining
    {
      var next := buffer + UpToNul(Chunk(pending, 0));
      var m := scan(next);
      if m.Some? {
        StepFound(buffer, scan, pending, remaining, k);
        return Found(m.value.response, m.value.rest, k + 1);
      }
      StepMissed(buffer, scan, pending, remaining, k);
      buffer := next;
      pending := Rest(pending);
      remaining := remaining - 1;
      k := k + 1;
    }
    return TimedOut(buffer, k);
  }

  /** A loop iteration whose scan hits ends the wait. */
  lemma StepFound(rx: string, scan: Scan, chunks: seq<string>, timeout: nat, k: nat)
    requires timeout > 0
    requires scan(rx + UpToNul(Chunk(chunks, 0))).Some?
    ensures var x := scan(rx + UpToNul(Chunk(chunks, 0))).value;
      Later(Wait(rx, scan, chunks, timeout), k) == Found(x.response, x.rest, k + 1)
  {
    WaitUnfold(rx, scan, chunks, timeout);
  }

  /** A loop iteration whose scan misses leaves the rest of the wait to the
      next iteration. */
  lemma StepMissed(rx: string, scan: Scan, chunks: seq<string>, timeout: nat, k: nat)
    requires timeout > 0
    requires scan(rx + UpToNul(Chunk(chunks, 0))).None?
    ensures Later(Wait(rx, scan, chunks, timeout), k) ==
      Later(Wait(rx + UpToNul(Chunk(chunks, 0)), scan, Rest(chunks), timeout - 1), k + 1)
  {
    WaitUnfold(rx, scan, chunks, timeout);
  }

  /** The stream after its first read holds the later chunks. */
  lemma ChunkRest(chunks: seq<string>, k: nat)
    ensures Chunk(Rest(chunks), k) == Chunk(chunks, k + 1)
  {
  }

  /** Reading once and then `n` more times is reading `n + 1` times. */
  lemma {:induction false} ReceivedShift(rx: string, chunks: seq<string>, n: nat)
    ensures Received(rx + UpToNul(Chunk(chunks, 0)), Rest(chunks), n) == Received(rx, chunks, n + 1)
    decreases n
  {
    if n > 0 {
      ReceivedShift(rx, chunks, n - 1);
      ChunkRest(chunks, n - 1);
    }
  }

  /** Scanning after read `k + 1` of a stream is scanning after read `k`
      of the stream that follows its first read. */
  lemma HitShift(rx: string, scan: Scan, chunks: seq<string>, k: nat)
    ensures Hit(rx + UpToNul(Chunk(chunks, 0)), scan, Rest(chunks), k) == Hit(rx, scan, chunks, k + 1)
  {
    ReceivedShift(rx, chunks, k + 1);
  }

  /** The scan after the first read. */
  lemma FirstHit(rx: string, scan: Scan, chunks: seq<string>)
    ensures Received(rx, chunks, 1) == rx + UpToNul(Chunk(chunks, 0))
    ensures Hit(rx, scan, chunks, 0) == scan(rx + UpToNul(Chunk(chunks, 0))).Some?
  {
  }

  /** One iteration of the wait loop. */
  lemma WaitUnfold(rx: string, scan: Scan, chunks: seq<string>, timeout: nat)
    requires timeout > 0
    ensures var rx' := rx + UpToNul(Chunk(chunks, 0));
      Wait(rx, scan, chunks, timeout) ==
        match scan(rx')
        case Some(x) => Found(x.response, x.rest, 1)
        case None => Later(Wait(rx', scan, Rest(chunks), timeout - 1), 1)
  {
  }

  /** On success the reply line and the buffer left are what the scan
      after the last read yields. */
  lemma {:induction false} FoundScan(rx: string, scan: Scan, chunks: seq<string>, timeout: nat)
    requires Wait(rx, scan, chunks, timeout).Found?
    ensures var w := Wait(rx, scan, chunks, timeout);
      scan(Received(rx, chunks, w.polls)) == Some(Extraction(w.response, w.rx))
    decreases timeout
  {
    var rx' := rx + UpToNul(Chunk(chunks, 0));
    FirstHit(rx, scan, chunks);
    WaitUnfold(rx, scan, chunks, timeout);
    match scan(rx')
    case Some(x) =>
      assert Wait(rx, scan, chunks, timeout) == Found(x.response, x.rest, 1);
      assert scan(Received(rx, chunks, 1)) == Some(x);
    case None =>
      var w' := Wait(rx', scan, Rest(chunks), timeout - 1);
      assert Wait(rx, scan, chunks, timeout) == Later(w', 1);
      FoundScan(rx', scan, Rest(chunks), timeout - 1);
      ReceivedShift(rx, chunks, w'.polls);
  }

  /** On success the reply line is the one the first hitting read yields,
      and the buffer is what that scan left. */
  lemma {:induction false} WaitFoundFirst(rx: string, scan: Scan, chunks: seq<string>, timeout: nat)
    requires Wait(rx, scan, chunks, timeout).Found?
    ensures var w := Wait(rx, scan, chunks, timeout);
      (forall k :: 0 <= k < w.polls - 1 ==> !Hit(rx, scan, chunks, k)) &&
      scan(Received(rx, chunks, w.polls)) == Some(Extraction(w.response, w.rx))
    decreases timeout
  {
    FoundScan(rx, scan, chunks, timeout);
    var rx' := rx + UpToNul(Chunk(chunks, 0));
    FirstHit(rx, scan, chunks);
    WaitUnfold(rx, scan, chunks, timeout);
    if !Hit(rx, scan, chunks, 0) {
      var w' := Wait(rx', scan, Rest(chunks), timeout - 1);
      WaitFoundFirst(rx', scan, Rest(chunks), timeout - 1);
      forall k | 0 < k < w'.polls
        ensures !Hit(rx, scan, chunks, k)
      {
        HitShift(rx, scan, chunks, k - 1);
      }
    }
  }

  /** On timeout the loop kept all it read. */
  lemma {:induction false} TimedOutKeeps(rx: string, scan: Scan, chunks: seq<string>, timeout: nat)
    requires Wait(rx, scan, chunks, timeout).TimedOut?
    ensures Wait(rx, scan, chunks, timeout).rx == Received(rx, chunks, timeout)
    decreases timeout
  {
    if timeout > 0 {
      var rx' := rx + UpToNul(Chunk(chunks, 0));
      var w' := Wait(rx', scan, Rest(chunks), timeout - 1);
      WaitUnfold(rx, scan, chunks, timeout);
      assert scan(rx').None?;
      assert Wait(rx, scan, chunks, timeout).rx == w'.rx;
      TimedOutKeeps(rx', scan, Rest(chunks), timeout - 1);
      ReceivedShift(rx, chunks, timeout - 1);
    }
  }

  /** On timeout no read before the timeout made the scan hit, and the loop
      kept all it read. */
  lemma {:induction false} WaitTimedOut(rx: string, scan: Scan, chunks: seq<string>, timeout: nat)
    requires Wait(rx, scan, chunks, timeout).TimedOut?
    ensures forall k :: 0 <= k < timeout ==> !Hit(rx, scan, chunks, k)
    ensures Wait(rx, scan, chunks, timeout).rx == Received(rx, chunks, timeout)
    decreases timeout
  {
    TimedOutKeeps(rx, scan, chunks, timeout);
    if timeout > 0 {
      var rx' := rx + UpToNul(Chunk(chunks, 0));
      FirstHit(rx, scan, chunks);
      WaitUnfold(rx, scan, chunks, timeout);
      WaitTimedOut(rx', scan, Rest(chunks), timeout - 1);
      forall k | 0 < k < timeout
        ensures !Hit(rx, scan, chunks, k)
      {
        HitShift(rx, scan, chunks, k - 1);
      }
    }
  }

  /** The wait succeeds exactly when the scan hits after some read before
      the timeout. */
  lemma WaitFoundIff(rx: string, scan: Scan, chunks: seq<string>, timeout: nat)
    ensures Wait(rx, scan, chunks, timeout).Found? <==> exists k :: 0 <= k < timeout && Hit(rx, scan, chunks, k)
  {
    var w := Wait(rx, scan, chunks, timeout);
    if w.Found? {
      WaitFoundFirst(rx, scan, chunks, timeout);
      assert Hit(rx, scan, chunks, w.polls - 1);
    } else {
      WaitTimedOut(rx, scan, chunks, timeout);
    }
  }
}
