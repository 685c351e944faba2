/** The sliding-window limiter: it keeps pruned queues of failure times per key. Against it
    stands the full history of calls, never pruned, and the two are shown to agree.
 */
module RateLimit {

  /** An account or a client. */
  datatype Key = Key(name: string)

  datatype Call = Failure(key: Key, at: real) | Reset(key: Key)

  /** Failures of a key since its last reset, oldest first. */
  function Failures(history: seq<Call>, key: Key): seq<real> {
    if history == [] then [] else
    var earlier := Failures(history[..|history| - 1], key);
    match history[|history| - 1]
    case Failure(k, t) => if k == key then earlier + [t] else earlier
    case Reset(k) => if k == key then [] else earlier
  }

  /** How many of these times are later than a cutoff. */
  function Later(times: seq<real>, cutoff: real): nat {
    if times == [] then 0 else
    (if times[0] > cutoff then 1 else 0) + Later(times[1..], cutoff)
  }

  ghost predicate Sorted(times: seq<real>) {
    forall i, j :: 0 <= i < j < |times| ==> times[i] <= times[j]
  }

  /** A queue is what remains of the full list after dropping times not later than the cutoff. */
  ghost predicate PrunedFrom(queue: seq<real>, full: seq<real>, cutoff: real) {
    |queue| <= |full| && queue == full[|full| - |queue|..]
    && forall i :: 0 <= i < |full| - |queue| ==> full[i] <= cutoff
  }

  lemma {:induction false} DroppedDoNotCount(full: seq<real>, k: nat, cutoff: real)
    requires k <= |full| && forall i :: 0 <= i < k ==> full[i] <= cutoff
    ensures Later(full, cutoff) == Later(full[k..], cutoff)
  {
    if k > 0 {
      assert full[1..][k - 1..] == full[k..];
      DroppedDoNotCount(full[1..], k - 1, cutoff);
    } else {
      assert full[0..] == full;
    }
  }

  lemma {:induction false} AllCount(times: seq<real>, cutoff: real)
    requires Sorted(times) && (times != [] ==> times[0] > cutoff)
    ensures Later(times, cutoff) == |times|
  {
    if times != [] { AllCount(times[1..], cutoff); }
  }

  /** Once pruned at the cutoff itself, the queue's length is the count over the full list. */
  lemma PrunedLength(queue: seq<real>, full: seq<real>, cutoff: real)
    requires PrunedFrom(queue, full, cutoff) && Sorted(full) && (queue != [] ==> queue[0] > cutoff)
    ensures |queue| == Later(full, cutoff)
  {
    DroppedDoNotCount(full, |full| - |queue|, cutoff);
    AllCount(queue, cutoff);
  }

  function QueueOf(events: map<Key, seq<real>>, key: Key): seq<real> {
    if key in events then events[key] else []
  }

  /** A queue against the full list of its key's failures, at a clock reading. */
  ghost predicate Agrees(queue: seq<real>, full: seq<real>, window: real, clock: real) {
    PrunedFrom(queue, full, clock - window) && Sorted(full)
    && forall i :: 0 <= i < |full| ==> full[i] <= clock
  }

  ghost predicate Consistent(events: map<Key, seq<real>>, history: seq<Call>, window: real, clock: real) {
    forall key :: Agrees(QueueOf(events, key), Failures(history, key), window, clock)
  }

  /** A queue that agreed at an earlier reading still does. */
  lemma AgreesLater(queue: seq<real>, full: seq<real>, window: real, clock: real, now: real)
    requires Agrees(queue, full, window, clock) && clock <= now
    ensures Agrees(queue, full, window, now)
  {
  }

  /** Pruning further at a later reading keeps the agreement. */
  lemma PrunedAgrees(queue: seq<real>, q: seq<real>, full: seq<real>, window: real, clock: real, now: real)
    requires Agrees(queue, full, window, clock) && clock <= now && PrunedFrom(q, full, now - window)
    ensures Agrees(q, full, window, now)
  {
  }

  lemma PruneKeeps(events: map<Key, seq<real>>, history: seq<Call>, window: real, clock: real,
                   key: Key, q: seq<real>, now: real)
    requires Consistent(events, history, window, clock) && clock <= now
    requires PrunedFrom(q, Failures(history, key), now - window)
    ensures Consistent(events[key := q], history, window, now)
  {
    forall k ensures Agrees(QueueOf(events[key := q], k), Failures(history, k), window, now) {
      var queue, full := QueueOf(events, k), Failures(history, k);
      assert Agrees(queue, full, window, clock);
      if k == key {
        PrunedAgrees(queue, q, full, window, clock, now);
      } else {
        AgreesLater(queue, full, window, clock, now);
      }
    }
  }

  lemma AppendAgrees(q: seq<real>, full: seq<real>, window: real, now: real)
    requires Agrees(q, full, window, now)
    ensures Agrees(q + [now], full + [now], window, now)
  {
    var longer := full + [now];
    assert longer[|longer| - |q + [now]|..] == q + [now];
  }

  lemma FailureKeeps(events: map<Key, seq<real>>, history: seq<Call>, window: real, now: real,
                     key: Key, q: seq<real>, longer: seq<Call>)
    requires Consistent(events, history, window, now)
    requires q == QueueOf(events, key) + [now] && longer == history + [Failure(key, now)]
    ensures Consistent(events[key := q], longer, window, now)
  {
    assert longer[..|longer| - 1] == history;
    forall k ensures Agrees(QueueOf(events[key := q], k), Failures(longer, k), window, now) {
      assert Agrees(QueueOf(events, k), Failures(history, k), window, now);
      if k == key { AppendAgrees(QueueOf(events, k), Failures(history, k), window, now); }
    }
  }

  lemma ResetKeeps(events: map<Key, seq<real>>, history: seq<Call>, window: real, clock: real, key: Key)
    requires Consistent(events, history, window, clock)
    ensures Consistent(events - {key}, history + [Reset(key)], window, clock)
  {
    var longer := history + [Reset(key)];
    assert longer[..|longer| - 1] == history;
    forall k ensures Agrees(QueueOf(events - {key}, k), Failures(longer, k), window, clock) {
      assert Agrees(QueueOf(events, k), Failures(history, k), window, clock);
    }
  }

  /** The count in the window takes in exactly the times later than the cutoff, and a key's failures
      are those recorded since its last reset, whatever happens to other keys. */
  lemma {:induction false} CountsMean(times: seq<real>, t: real, cutoff: real)
    ensures Later([], cutoff) == 0
    ensures Later(times + [t], cutoff) == Later(times, cutoff) + if t > cutoff then 1 else 0
  {
    if times == [] {
      assert ([] + [t])[1..] == [];
    } else {
      assert (times + [t])[1..] == times[1..] + [t];
      CountsMean(times[1..], t, cutoff);
    }
  }

  lemma FailuresMean(history: seq<Call>, key: Key, other: Key, at: real)
    ensures Failures([], key) == []
    ensures Failures(history + [Failure(key, at)], key) == Failures(history, key) + [at]
    ensures Failures(history + [Reset(key)], key) == []
    ensures other != key ==>
              Failures(history + [Failure(other, at)], key) == Failures(history, key)
              && Failures(history + [Reset(other)], key) == Failures(history, key)
  {
    assert (history + [Failure(key, at)])[..|history|] == history && (history + [Reset(key)])[..|history|] == history;
    assert (history + [Failure(other, at)])[..|history|] == history;
    assert (history + [Reset(other)])[..|history|] == history;
  }

  class SlidingWindowLimiter {
    const maxAttempts: int
    const window: real
    var events: map<Key, seq<real>>
    ghost var history: seq<Call>
    ghost var clock: real

    ghost predicate Valid()
      reads this
    {
      Consistent(events, history, window, clock)
    }

    /** `start` is any reading of the clock; later calls must not read an earlier one. */
    constructor (maxAttempts: int, window: real, ghost start: real)
      ensures Valid() && history == [] && clock == start
      ensures this.maxAttempts == maxAttempts && this.window == window
    {
      this.maxAttempts, this.window := maxAttempts, window;
      events, history, clock := map[], [], start;
    }

    /** `_prune`: creates the queue if missing and pops expired times from its front. */
    method Prune(key: Key, now: real)
      requires Valid() && clock <= now
      modifies this`events, this`clock
      ensures Valid() && clock == now
      ensures key in events && (events[key] != [] ==> events[key][0] > now - window)
    {
      var cutoff := now - window;
      var q := QueueOf(events, key);
      ghost var full := Failures(history, key);
      assert Agrees(q, full, window, clock);
      while q != [] && q[0] <= cutoff
        invariant PrunedFrom(q, full, cutoff)
      {
        q := q[1..];
      }
      PruneKeeps(events, history, window, clock, key, q, now);
      events := events[key := q];
      clock := now;
    }

    /** True exactly when the failures since the last reset and inside the window reach the
        maximum, counted over the whole history. */
    method IsBlocked(key: Key, now: real) returns (blocked: bool)
      requires Valid() && clock <= now
      modifies this`events, this`clock
      ensures Valid() && history == old(history) && clock == now
      ensures blocked <==> Later(Failures(history, key), now - window) >= maxAttempts
    {
      Prune(key, now);
      assert Agrees(QueueOf(events, key), Failures(history, key), window, clock);
      PrunedLength(events[key], Failures(history, key), now - window);
      blocked := |events[key]| >= maxAttempts;
    }

    method RecordFailure(key: Key, now: real)
      requires Valid() && clock <= now
      modifies this
      ensures Valid() && clock == now && history == old(history) + [Failure(key, now)]
    {
      Prune(key, now);
      Append(key, now);
    }

    method Append(key: Key, now: real)
      requires Valid() && clock == now
      modifies this`events, this`history
      ensures Valid() && history == old(history) + [Failure(key, now)]
    {
      var q := QueueOf(events, key) + [now];
      FailureKeeps(events, history, window, now, key, q, history + [Failure(key, now)]);
      events := events[key := q];
      history := history + [Failure(key, now)];
    }

    method ResetKey(key: Key)
      requires Valid()
      modifies this`events, this`history
      ensures Valid() && history == old(history) + [Reset(key)]
    {
      ResetKeeps(events, history, window, clock, key);
      events := events - {key};
      history := history + [Reset(key)];
    }
  }
}
