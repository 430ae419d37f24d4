/**
 The retry and error-tracking layer of the shared Modbus transport
 (`BaseModbusTransport._read_registers` and `_reconnect`).

 The device is an oracle: `device(address, count, k)` is what the k-th attempt
 (counting from 0) of one read returns for a wire request of `count` registers
 at `address`. Locks, sleeps and the backoff delays are not modelled.
 */
module ModbusRead {
  import opened Wrappers

  /** Largest register count the transport puts on the wire in one request. */
  const MaxRegistersPerRead := 40

  /** Consecutive failed attempts after which bulk reads reconnect first. */
  const DefaultMaxConsecutiveErrors := 3

  /** What one attempt of a register read produced. */
  datatype Attempt =
    | Answer(registers: seq<int>)       // a response carrying registers
    | ErrorResponse                     // `result.isError()` is true
    | NoRegisters                       // a response without a register list
    | ModbusIo(mentionsTimeout: bool)   // pymodbus `ModbusIOException`
    | AsyncTimeout                      // `TimeoutError`
    | OsFailure                         // `OSError`
    | Foreign                           // any other exception: not caught, no retry
  {
    /** The attempt failed in a way the retry loop catches and counts. */
    predicate Caught() {
      !Answer? && !Foreign?
    }
  }

  /** Why a read raised. */
  datatype ReadError =
    | NotConnected          // transport not connected
    | ClientMissing         // "Modbus client not initialized"
    | ReadFailed            // `TransportReadError`
    | ReadTimedOut          // `TransportTimeoutError`
    | Propagated            // an uncaught exception left the loop unchanged
    | NoAttemptMade         // `retries < 0`: the loop never ran and `raise None` fails

  /** The transport state the read logic consults and updates. */
  datatype Transport = Transport(
    connected: bool,
    clientReady: bool,
    retries: int,
    consecutiveErrors: nat,
    maxConsecutiveErrors: int,
    lastReadRetried: bool)

  /** The state right after construction and connection. */
  function NewTransport(retries: int): (t: Transport)
    ensures t.connected && t.clientReady && t.retries == retries
    ensures t.consecutiveErrors == 0 && !t.lastReadRetried
    ensures t.maxConsecutiveErrors == DefaultMaxConsecutiveErrors
  {
    Transport(true, true, retries, 0, DefaultMaxConsecutiveErrors, false)
  }

  /** The count actually requested on the wire: `min(count, 40)`. */
  function WireCount(count: int): (c: int)
    ensures c <= MaxRegistersPerRead
    ensures c == count || c == MaxRegistersPerRead
    ensures count <= MaxRegistersPerRead ==> c == count
  {
    if count < MaxRegistersPerRead then count else MaxRegistersPerRead
  }

  /** Number of attempts `range(retries + 1)` allows. */
  function AttemptBudget(retries: int): (n: nat)
    ensures retries >= 0 ==> n == retries + 1
    ensures retries < 0 ==> n == 0
  {
    if retries + 1 > 0 then retries + 1 else 0
  }

  /** The error `last_err` holds after a caught failed attempt. */
  function Classify(a: Attempt): (e: ReadError)
    requires a.Caught()
    ensures e == ReadTimedOut <==> a == AsyncTimeout || a == ModbusIo(true)
    ensures e == ReadFailed || e == ReadTimedOut
  {
    match a
    case ErrorResponse => ReadFailed
    case NoRegisters => ReadFailed
    case ModbusIo(t) => if t then ReadTimedOut else ReadFailed
    case AsyncTimeout => ReadTimedOut
    case OsFailure => ReadFailed
  }

  /**
   The first attempt index from `k` on, below `budget`, whose outcome the
   retry loop does not catch (an answer or a foreign exception); `budget`
   when every remaining attempt fails in a caught way.
   */
  function FirstStop(device: (int, int, nat) -> Attempt, address: int, wire: int, k: nat, budget: nat): (n: nat)
    requires k <= budget
    ensures k <= n <= budget
    ensures forall j :: k <= j < n ==> device(address, wire, j).Caught()
    ensures n < budget ==> !device(address, wire, n).Caught()
    decreases budget - k
  {
    if k == budget || !device(address, wire, k).Caught() then k
    else FirstStop(device, address, wire, k + 1, budget)
  }

  /** Attempts a read on a ready transport makes: up to and including the
      first uncaught outcome, or the whole budget. */
  function AttemptsMade(device: (int, int, nat) -> Attempt, address: int, wire: int, budget: nat): nat {
    var n := FirstStop(device, address, wire, 0, budget);
    if n < budget then n + 1 else n
  }

  /**
   `_read_registers`: up to `retries + 1` attempts of one read; success resets
   the consecutive-error counter, every caught failure adds one to it, and when
   every attempt fails the last attempt's error is raised. `attempts` is the
   number of attempts made.
   */
  method ReadRegisters(t: Transport, address: int, count: int, device: (int, int, nat) -> Attempt)
    returns (r: Result<seq<int>, ReadError>, t': Transport, attempts: nat)
    // the guards run before anything else changes, and only they raise these errors
    ensures r == Failure(NotConnected) <==> !t.connected
    ensures r == Failure(ClientMissing) <==> t.connected && !t.clientReady
    ensures !t.connected ==> t' == t && attempts == 0
    ensures t.connected && !t.clientReady ==> t' == t && attempts == 0
    // a ready transport reads: it answers, or raises what the attempts produced
    ensures t.connected && t.clientReady && t.retries >= 0 ==>
      attempts >= 1 && (r.Success? || r.error == ReadFailed || r.error == ReadTimedOut || r.error == Propagated)
    ensures t.connected && t.clientReady ==>
      attempts == AttemptsMade(device, address, WireCount(count), AttemptBudget(t.retries))
    // only the counter and the retried flag change
    ensures t'.connected == t.connected && t'.clientReady == t.clientReady
    ensures t'.retries == t.retries && t'.maxConsecutiveErrors == t.maxConsecutiveErrors
    // at most retries + 1 attempts, each a request for min(count, 40) registers
    ensures attempts <= AttemptBudget(t.retries)
    ensures forall j :: 0 <= j < attempts - 1 ==> device(address, WireCount(count), j).Caught()
    // success: the registers of the first attempt that answered, counter reset
    ensures r.Success? ==>
      attempts >= 1 && device(address, WireCount(count), attempts - 1) == Answer(r.value)
    ensures attempts >= 1 && device(address, WireCount(count), attempts - 1).Answer? ==> r.Success?
    ensures r.Success? ==> t'.consecutiveErrors == 0
    // every attempt failed: the last attempt's error, one count per attempt
    ensures r.Failure? && (r.error == ReadFailed || r.error == ReadTimedOut) <==>
      t.connected && t.clientReady && attempts >= 1 && attempts == AttemptBudget(t.retries) &&
      device(address, WireCount(count), attempts - 1).Caught()
    ensures r.Failure? && (r.error == ReadFailed || r.error == ReadTimedOut) ==>
      r.error == Classify(device(address, WireCount(count), attempts - 1)) &&
      t'.consecutiveErrors == t.consecutiveErrors + attempts
    // an uncaught exception ends the read without counting
    ensures r == Failure(Propagated) <==>
      attempts >= 1 && device(address, WireCount(count), attempts - 1).Foreign?
    ensures r == Failure(Propagated) ==> t'.consecutiveErrors == t.consecutiveErrors + attempts - 1
    ensures r == Failure(NoAttemptMade) <==> t.connected && t.clientReady && t.retries < 0
    ensures r == Failure(NoAttemptMade) ==> t'.consecutiveErrors == t.consecutiveErrors
    // the flag says whether a failed attempt was followed by another one
    ensures t.connected && t.clientReady ==> t'.lastReadRetried == (attempts >= 2)
  {
    if !t.connected {
      return Failure(NotConnected), t, 0;
    }
    if !t.clientReady {
      return Failure(ClientMissing), t, 0;
    }
    var wire := WireCount(count);
    var budget := AttemptBudget(t.retries);
    var errors := t.consecutiveErrors;
    var retried := false;
    var last: Option<ReadError> := None;
    var attempt: nat := 0;
    while attempt < budget
      invariant attempt <= budget
      invariant errors == t.consecutiveErrors + attempt
      invariant forall j :: 0 <= j < attempt ==> device(address, wire, j).Caught()
      invariant retried == (attempt >= 2 || (attempt == 1 && budget >= 2))
      invariant attempt == 0 ==> last == None
      invariant attempt >= 1 ==> last == Some(Classify(device(address, wire, attempt - 1)))
      invariant FirstStop(device, address, wire, attempt, budget) == FirstStop(device, address, wire, 0, budget)
    {
      var outcome := device(address, wire, attempt);
      if outcome.Answer? {
        t' := t.(consecutiveErrors := 0, lastReadRetried := retried);
        return Success(outcome.registers), t', attempt + 1;
      }
      if outcome.Foreign? {
        t' := t.(consecutiveErrors := errors, lastReadRetried := retried);
        return Failure(Propagated), t', attempt + 1;
      }
      errors := errors + 1;
      last := Some(Classify(outcome));
      if attempt < t.retries {
        retried := true;
      }
      attempt := attempt + 1;
    }
    t' := t.(consecutiveErrors := errors, lastReadRetried := retried);
    attempts := attempt;
    match last {
      case None => r := Failure(NoAttemptMade);
      case Some(e) => r := Failure(e);
    }
  }

  /**
   `_reconnect`: a no-op while the counter is below the limit (the double check
   under the lock); otherwise disconnect, connect and reset the counter.
   */
  function Reconnect(t: Transport): (t': Transport)
    ensures t.consecutiveErrors < t.maxConsecutiveErrors ==> t' == t
    ensures t.consecutiveErrors >= t.maxConsecutiveErrors ==>
      t' == t.(consecutiveErrors := 0, connected := true, clientReady := true)
  {
    if t.consecutiveErrors < t.maxConsecutiveErrors then t
    else t.(consecutiveErrors := 0, connected := true, clientReady := true)
  }

  /**
   The guard the bulk reads (`_read_register_groups`, `read_battery`) run first:
   they call `_reconnect` only when the counter has reached the limit. The
   outer check only mirrors the one inside `_reconnect`, so the guard is
   `_reconnect` itself.
   */
  function BeforeBulkRead(t: Transport): (r: Transport)
    ensures r == Reconnect(t)
  {
    if t.consecutiveErrors >= t.maxConsecutiveErrors then Reconnect(t) else t
  }

  /**
   After the guard the counter is below a positive limit, so a second guard
   does nothing: the guard is idempotent and never reconnects twice in a row.
   */
  lemma BeforeBulkReadSettles(t: Transport)
    requires t.maxConsecutiveErrors > 0
    ensures BeforeBulkRead(t).consecutiveErrors < t.maxConsecutiveErrors
    ensures BeforeBulkRead(BeforeBulkRead(t)) == BeforeBulkRead(t)
    ensures t.consecutiveErrors < t.maxConsecutiveErrors ==> BeforeBulkRead(t) == t
  {
  }
}
