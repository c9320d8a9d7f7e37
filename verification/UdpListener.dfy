/**
 * One UDP listener: the state its goroutines share and the critical sections they run on
 * it, each as a transition on values and as a method of the in-place object.
 */
module UdpListening {
  import opened Text

  type Key = string

  datatype Flow = Flow(conn: nat, lastActive: int)

  datatype Shared = Shared(
    flows: map<Key, Flow>,
    pending: set<Key>,
    ready: bool,
    starting: bool,
    removed: bool,
    lastActive: int,
    startTimeout: int)

  // ---- Retry budget -----------------------------------------------------------

  /** Nanoseconds between two readiness probes. */
  const READINESS_INTERVAL := 500_000_000

  /** Go's division truncates toward zero. */
  function TruncDiv(a: int, b: int): int
    requires b > 0
  {
    if a >= 0 then a / b else -(-a / b)
  }

  /** The sum of two 64-bit durations of which the second is small and positive. */
  function Wrap64(x: int): int {
    if x > MAX_INT then x - 0x1_0000_0000_0000_0000 else x
  }

  function Retries(startTimeout: int): (r: nat)
    ensures r >= 1
  {
    var n := TruncDiv(Wrap64(startTimeout + READINESS_INTERVAL - 1), READINESS_INTERVAL);
    if n < 1 then 1 else n
  }

  /** r is max(1, ceil(t / interval)). */
  ghost predicate IsBudget(t: int, r: int) {
    r >= 1 && t <= r * 500_000_000 && (r == 1 || (r - 1) * 500_000_000 < t)
  }

  /** The budget is max(1, ceil(startTimeout / 500ms)) unless the rounding overflows 64 bits, when it is 1. */
  lemma RetriesIsCeiling(t: int)
    requires MIN_INT <= t <= MAX_INT
    ensures t <= 0x7fff_ffff_ffff_ffff - 499_999_999 ==> IsBudget(t, Retries(t))
    ensures t > 0x7fff_ffff_ffff_ffff - 499_999_999 ==> Retries(t) == 1
  {
  }

  // ---- Critical sections, as transitions ------------------------------------------

  datatype Dispatched = Forward | Drop | Spawn

  function DispatchKind(sh: Shared, key: Key): Dispatched {
    if key in sh.flows then Forward else if key in sh.pending then Drop else Spawn
  }

  function Dispatch(sh: Shared, key: Key, now: int): Shared {
    match DispatchKind(sh, key)
    case Forward => sh.(flows := sh.flows[key := sh.flows[key].(lastActive := now)], lastActive := now)
    case Drop => sh
    case Spawn => sh.(pending := sh.pending + {key})
  }

  datatype Role = FastPath | Follow | GiveUp | Lead

  /** What a flow worker does once its upstream socket is dialled. */
  function RoleFor(sh: Shared): Role {
    if sh.ready then FastPath
    else if sh.starting then (if sh.removed then GiveUp else Follow)
    else Lead
  }

  function SelectRole(sh: Shared): Shared {
    if RoleFor(sh).Lead? then sh.(starting := true) else sh
  }

  /** What a follower does when it holds the lock again after a broadcast. */
  function RoleAfterWake(sh: Shared): Role {
    if sh.starting && !sh.removed then Follow
    else if !sh.ready || sh.removed then GiveUp
    else FastPath
  }

  function Publish(sh: Shared, responded: bool): Shared {
    sh.(starting := false, ready := sh.ready || responded)
  }

  function Register(sh: Shared, key: Key, conn: nat, now: int): Shared {
    sh.(pending := sh.pending - {key}, flows := sh.flows[key := Flow(conn, now)], lastActive := now)
  }

  /** A reply read on connection conn; the flow may have been swept, or replaced, in the meantime. */
  function Reply(sh: Shared, key: Key, conn: nat, now: int): Shared {
    if key in sh.flows && sh.flows[key].conn == conn
    then sh.(flows := sh.flows[key := Flow(conn, now)], lastActive := now)
    else sh.(lastActive := now)
  }

  function CleanUp(sh: Shared, key: Key): Shared {
    sh.(pending := sh.pending - {key})
  }

  function Sweep(sh: Shared, now: int, timeout: int): Shared {
    sh.(flows := map k | k in sh.flows && now - sh.flows[k].lastActive <= timeout :: sh.flows[k])
  }

  /** The listener's share of a container stop or removal. */
  function ExternalStop(sh: Shared): Shared {
    sh.(ready := false, starting := false)
  }

  // ---- The leader's probe loop -----------------------------------------------------------

  /** How one probe of the upstream ends. */
  datatype Outcome = Answered | Retryable | Fatal

  /** Whether the loop got an answer, and how many attempts it made in all, having made `done` already. */
  function ProbeLoop(outcome: nat -> Outcome, done: nat, budget: nat): (r: (bool, nat))
    requires done < budget
    ensures done < r.1 <= budget
    ensures forall k :: done < k < r.1 ==> outcome(k) == Retryable
    ensures r.0 <==> outcome(r.1) == Answered
    ensures outcome(r.1) == Retryable ==> r.1 == budget
    decreases budget - done
  {
    match outcome(done + 1)
    case Answered => (true, done + 1)
    case Fatal => (false, done + 1)
    case Retryable => if done + 1 < budget then ProbeLoop(outcome, done + 1, budget) else (false, done + 1)
  }

  // ---- The in-place object -------------------------------------------------------------

  class UdpListener {
    var flows: map<Key, Flow>
    var pending: set<Key>
    var ready: bool
    var starting: bool
    var removed: bool
    var lastActive: int
    var startTimeout: int

    ghost function View(): Shared
      reads this
    {
      Shared(flows, pending, ready, starting, removed, lastActive, startTimeout)
    }

    constructor (startTimeout: int)
      ensures View() == Shared(map[], {}, false, false, false, 0, startTimeout)
    {
      flows, pending := map[], {};
      ready, starting, removed := false, false, false;
      lastActive := 0;
      this.startTimeout := startTimeout;
    }

    /** The read loop's handling of one datagram; `action` says whether to spawn, forward or drop. */
    method OnDatagram(key: Key, now: int) returns (action: Dispatched)
      modifies this
      ensures View() == Dispatch(old(View()), key, now) && action == DispatchKind(old(View()), key)
    {
      if key !in flows {
        if key in pending {
          return Drop;
        }
        pending := pending + {key};
        return Spawn;
      }
      flows := flows[key := flows[key].(lastActive := now)];
      lastActive := now;
      action := Forward;
    }

    method ChooseRole() returns (role: Role)
      modifies this
      ensures View() == SelectRole(old(View())) && role == RoleFor(old(View()))
    {
      if ready {
        role := FastPath;
      } else if starting {
        role := if !removed then Follow else GiveUp;
      } else {
        starting := true;
        role := Lead;
      }
    }

    method PublishOutcome(responded: bool)
      modifies this
      ensures View() == Publish(old(View()), responded)
    {
      starting := false;
      if responded {
        ready := true;
      }
    }

    method RegisterFlow(key: Key, conn: nat, now: int)
      modifies this
      ensures View() == Register(old(View()), key, conn, now)
    {
      pending := pending - {key};
      flows := flows[key := Flow(conn, now)];
      lastActive := now;
    }

    method OnReply(key: Key, conn: nat, now: int)
      modifies this
      ensures View() == Reply(old(View()), key, conn, now)
    {
      if key in flows && flows[key].conn == conn {
        flows := flows[key := flows[key].(lastActive := now)];
      }
      lastActive := now;
    }

    method Abandon(key: Key)
      modifies this
      ensures View() == CleanUp(old(View()), key)
    {
      pending := pending - {key};
    }

    method SweepFlows(now: int, timeout: int)
      modifies this
      ensures View() == Sweep(old(View()), now, timeout)
    {
      var keys := flows.Keys;
      while keys != {}
        invariant keys <= flows.Keys <= old(flows).Keys
        invariant forall k :: k in old(flows) ==>
          (k in flows <==> k in keys || now - old(flows)[k].lastActive <= timeout)
        invariant forall k :: k in flows ==> flows[k] == old(flows)[k]
        invariant View() == old(View()).(flows := flows)
        decreases keys
      {
        var key :| key in keys;
        if now - flows[key].lastActive > timeout {
          flows := flows - {key};
        }
        keys := keys - {key};
      }
    }

    /** Returns whether sleeping followers are woken. */
    method OnContainerStopped() returns (broadcast: bool)
      modifies this
      ensures View() == ExternalStop(old(View())) && broadcast == old(starting)
    {
      ready := false;
      broadcast := starting;
      if starting {
        starting := false;
      }
    }

    /** The leader's loop; `outcome(k)` is how the k-th probe ends. */
    method ProbeUpstream(outcome: nat -> Outcome) returns (responded: bool, attempts: nat)
      ensures (responded, attempts) == ProbeLoop(outcome, 0, Retries(startTimeout))
      ensures attempts <= Retries(startTimeout)
    {
      var retries := Retries(startTimeout);
      responded := false;
      attempts := 0;
      while attempts < retries
        invariant attempts <= retries && !responded
        invariant forall k :: 0 < k <= attempts ==> outcome(k) == Retryable
        invariant attempts < retries ==> ProbeLoop(outcome, attempts, retries) == ProbeLoop(outcome, 0, retries)
        invariant attempts == retries ==> ProbeLoop(outcome, 0, retries) == (false, retries)
      {
        attempts := attempts + 1;
        match outcome(attempts) {
          case Answered =>
            responded := true;
            return;
          case Fatal =>
            return;
          case Retryable =>
        }
      }
    }
  }
}
