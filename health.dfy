/** The health pass of the replica set, stated on values: the state a pass
    works on (the active and inactive index lists, the separately kept
    `length` and the per-connection status records) and what one pass does
    to it. The class in module Sqlt runs the same pass in place and is proved
    to end in exactly the state HealthPass describes. */
module Health {

  datatype Option<T> = None | Some(value: T)

  /** A wall-clock reading, as the program formats time.Now(). */
  type Stamp = string

  /** Per-connection status record. `error` is nil or an error, kept by its
      message. */
  datatype DbStatus = DbStatus(name: string, connected: bool, lastActive: Stamp, error: Option<string>)

  /** The zero value of a status record, before construction fills it in. */
  const ZeroStatus := DbStatus("", false, "", None)

  /** The answer of one call to a driver handle: success, with the time it
      was observed, or an error message. */
  datatype Outcome = Up(at: Stamp) | Down(msg: string)

  /** The driver's answers during one pass: the outcome of the `k`-th call,
      made to connection `v`, is `ping(k, v)`. Numbering the calls lets a
      connection answer differently the second time it is pinged. */
  type Oracle = (nat, nat) -> Outcome

  /** The Go error a call returns: nil on success. */
  function ErrOf(o: Outcome): Option<string>
  {
    if o.Up? then None else Some(o.msg)
  }

  /** A successful ping: connected, seen now, no error. */
  function MarkUp(st: DbStatus, at: Stamp): DbStatus
  {
    st.(connected := true, lastActive := at, error := None)
  }

  /** A failed ping: disconnected, error prefixed with the connection's name. */
  function MarkDown(st: DbStatus, msg: string): DbStatus
  {
    st.(connected := false, error := Some(st.name + ": " + msg))
  }

  /** The replica-set bookkeeping of a DB: `active` and `inactive` hold
      connection indices, `length` is meant to equal |active|, `stats[v]` is
      the status of connection v. */
  datatype Pool = Pool(active: seq<nat>, inactive: seq<nat>, length: int, stats: seq<DbStatus>)

  /** A pass in progress: the pool, the indices pinged so far in call order,
      the last error seen, and whether the pass returned early. */
  datatype Probe = Probe(pool: Pool, trace: seq<nat>, err: Option<string>, halted: bool)

  /** The indices 0, 1, ..., n-1 in order. */
  function Iota(n: nat): (s: seq<nat>)
    ensures |s| == n
    ensures forall k :: 0 <= k < n ==> s[k] == k
  {
    if n == 0 then [] else Iota(n - 1) + [n - 1]
  }

  /** Every index held by the pool addresses a status record. */
  ghost predicate InRange(p: Pool)
  {
    && (forall j :: 0 <= j < |p.active| ==> p.active[j] < |p.stats|)
    && (forall j :: 0 <= j < |p.inactive| ==> p.inactive[j] < |p.stats|)
  }

  /** No index occurs twice. */
  ghost predicate NoDup(s: seq<nat>)
  {
    forall v :: multiset(s)[v] <= 1
  }

  /** `active ++ inactive` is a permutation of 0..n-1. */
  ghost predicate IsPartition(active: seq<nat>, inactive: seq<nat>, n: nat)
  {
    multiset(active + inactive) == multiset(Iota(n))
  }

  /** The invariant of the bookkeeping for n connections: the two lists
      partition the indices, `length` agrees with the active list, and the
      active list is empty only when there are no connections at all. */
  ghost predicate Consistent(p: Pool, n: nat)
  {
    && |p.stats| == n
    && InRange(p)
    && IsPartition(p.active, p.inactive, n)
    && p.length == |p.active|
    && (n >= 1 ==> |p.active| >= 1)
  }

  lemma {:induction false} IotaCount(n: nat)
    ensures forall v: nat :: multiset(Iota(n))[v] == if v < n then 1 else 0
  {
    if n > 0 {
      IotaCount(n - 1);
      var prev: multiset<nat> := multiset(Iota(n - 1));
      var m: multiset<nat> := multiset(Iota(n));
      assert m == prev + multiset{n - 1} by {
        assert Iota(n) == Iota(n - 1) + [n - 1];
      }
      forall v: nat ensures m[v] == if v < n then 1 else 0 {
        assert m[v] == prev[v] + multiset{n - 1}[v];
      }
    }
  }

  /** What a partition means: both lists hold only indices below n, every
      index below n is in exactly one of them, and none occurs twice. */
  lemma PartitionFacts(active: seq<nat>, inactive: seq<nat>, n: nat)
    requires IsPartition(active, inactive, n)
    ensures forall v :: v in active ==> v < n
    ensures forall v :: v in inactive ==> v < n
    ensures forall v: nat :: v < n ==> v in active || v in inactive
    ensures forall v :: v in active ==> v !in inactive
    ensures NoDup(active + inactive)
  {
    IotaCount(n);
    var m := multiset(active + inactive);
    assert m == multiset(active) + multiset(inactive);
    forall v | v in active ensures v < n {
      assert m[v] >= multiset(active)[v] > 0;
    }
    forall v | v in inactive ensures v < n {
      assert m[v] >= multiset(inactive)[v] > 0;
    }
    forall v: nat | v < n ensures v in active || v in inactive {
      assert m[v] == 1;
      assert v in m;
    }
    forall v | v in active ensures v !in inactive {
      assert m[v] <= 1;
    }
  }

  /** Moves the index at position `i` of `active` to the tail of `inactive`
      and counts it out of `length`, keeping the order of the rest. */
  function Deactivate(p: Pool, i: nat): (q: Pool)
    requires i < |p.active| && InRange(p)
    ensures InRange(q) && q.stats == p.stats
    ensures |q.active| == |p.active| - 1 && q.length == p.length - 1
  {
    Pool(p.active[..i] + p.active[i + 1..], p.inactive + [p.active[i]], p.length - 1, p.stats)
  }

  /** Moves the index at position `i` of `inactive` to the tail of `active`
      and counts it into `length`, keeping the order of the rest. */
  function Activate(p: Pool, i: nat): (q: Pool)
    requires i < |p.inactive| && InRange(p)
    ensures InRange(q) && q.stats == p.stats
    ensures |q.active| == |p.active| + 1 && q.length == p.length + 1
  {
    Pool(p.active + [p.inactive[i]], p.inactive[..i] + p.inactive[i + 1..], p.length + 1, p.stats)
  }

  /** The pool after a successful ping of connection `v`. */
  function Heal(p: Pool, v: nat, at: Stamp): Pool
    requires v < |p.stats|
  {
    p.(stats := p.stats[v := MarkUp(p.stats[v], at)])
  }

  /** The pool after a failed ping of connection `v`. */
  function Fail(p: Pool, v: nat, msg: string): Pool
    requires v < |p.stats|
  {
    p.(stats := p.stats[v := MarkDown(p.stats[v], msg)])
  }

  /** Records a successful ping of connection `v`. */
  function Answered(s: Probe, v: nat, at: Stamp): Probe
    requires v < |s.pool.stats|
  {
    Probe(Heal(s.pool, v, at), s.trace + [v], None, false)
  }

  /** Records a failed ping of connection `v`. */
  function Refused(s: Probe, v: nat, msg: string): Probe
    requires v < |s.pool.stats|
  {
    Probe(Fail(s.pool, v, msg), s.trace + [v], Some(msg), false)
  }

  /** Phase one of a pass (the walk over `active`), from position `i` on.
      A connection that answers stays where it is; one that fails is removed
      in place, appended to `inactive`, and position `i` is looked at again;
      but if `length <= 1` when a ping fails, the pass returns that error at
      once with nothing moved. */
  function Demote(s: Probe, i: nat, ping: Oracle): (r: Probe)
    requires i <= |s.pool.active| && InRange(s.pool) && !s.halted
    ensures InRange(r.pool) && |r.pool.stats| == |s.pool.stats|
    decreases |s.pool.active| - i
  {
    if i == |s.pool.active| then s
    else
      var v := s.pool.active[i];
      match ping(|s.trace|, v)
      case Up(at) => Demote(Answered(s, v, at), i + 1, ping)
      case Down(msg) =>
        if s.pool.length <= 1 then Probe(s.pool, s.trace + [v], Some(msg), true)
        else Demote(Refused(s.(pool := Deactivate(s.pool, i)), v, msg), i, ping)
  }

  /** Phase two of a pass (the walk over `inactive`), from position `i` on.
      A connection that still fails stays; one that answers is removed in
      place, appended to `active` and counted in `length`. */
  function Promote(s: Probe, i: nat, ping: Oracle): (r: Probe)
    requires i <= |s.pool.inactive| && InRange(s.pool) && !s.halted
    ensures InRange(r.pool) && |r.pool.stats| == |s.pool.stats| && !r.halted
    decreases |s.pool.inactive| - i
  {
    if i == |s.pool.inactive| then s
    else
      var v := s.pool.inactive[i];
      match ping(|s.trace|, v)
      case Down(msg) => Promote(Refused(s, v, msg), i + 1, ping)
      case Up(at) => Promote(Answered(s.(pool := Activate(s.pool, i)), v, at), i, ping)
  }

  /** One heartbeat-mode pass: phase one, then, unless it returned early,
      phase two. The result's `err` is what Ping returns. */
  function HealthPass(p: Pool, ping: Oracle): (r: Probe)
    requires InRange(p)
    ensures InRange(r.pool) && |r.pool.stats| == |p.stats|
  {
    var s := Demote(Probe(p, [], None, false), 0, ping);
    if s.halted then s else Promote(s, 0, ping)
  }

  /** A status record after a successful ping. */
  ghost predicate Healthy(st: DbStatus)
  {
    st.connected && st.error.None?
  }

  /** A status record after a failed ping. */
  ghost predicate Failing(st: DbStatus)
  {
    !st.connected && st.error.Some?
  }

  /** The members of `xs` whose ping answers, when they are pinged in order
      as calls k, k+1, ... */
  function Kept(xs: seq<nat>, k: nat, ping: Oracle): seq<nat>
  {
    if xs == [] then [] else (if ping(k, xs[0]).Up? then [xs[0]] else []) + Kept(xs[1..], k + 1, ping)
  }

  /** The members of `xs` whose ping fails, when they are pinged in order as
      calls k, k+1, ... */
  function Dropped(xs: seq<nat>, k: nat, ping: Oracle): seq<nat>
  {
    if xs == [] then [] else (if ping(k, xs[0]).Down? then [xs[0]] else []) + Dropped(xs[1..], k + 1, ping)
  }

  /** Unless it returns early, phase one from position `i` pings every
      remaining active index once, in order, keeps the ones that answer in
      their order, and appends the failing ones to `inactive` in their order. */
  ghost predicate DemoteSplitsAt(s: Probe, i: nat, ping: Oracle)
    requires i <= |s.pool.active| && InRange(s.pool) && !s.halted
  {
    var r := Demote(s, i, ping);
    !r.halted ==>
      && r.pool.active == s.pool.active[..i] + Kept(s.pool.active[i..], |s.trace|, ping)
      && r.pool.inactive == s.pool.inactive + Dropped(s.pool.active[i..], |s.trace|, ping)
      && r.trace == s.trace + s.pool.active[i..]
  }

  /** Phase two from position `i` pings every remaining inactive index once,
      in order, leaves the failing ones in place and appends the ones that
      answer to the tail of `active`, in order. */
  ghost predicate PromoteSplitsAt(s: Probe, i: nat, ping: Oracle)
    requires i <= |s.pool.inactive| && InRange(s.pool) && !s.halted
  {
    var r := Promote(s, i, ping);
    && r.pool.active == s.pool.active + Kept(s.pool.inactive[i..], |s.trace|, ping)
    && r.pool.inactive == s.pool.inactive[..i] + Dropped(s.pool.inactive[i..], |s.trace|, ping)
    && r.trace == s.trace + s.pool.inactive[i..]
  }

  /** A list from position `i` on is its `i`-th member followed by the
      list from `i + 1` on. */
  lemma SliceAt(xs: seq<nat>, i: nat)
    requires i < |xs|
    ensures xs[i..] == [xs[i]] + xs[i + 1..] && xs[i..][1..] == xs[i + 1..]
    ensures xs[..i + 1] == xs[..i] + [xs[i]]
  {
  }

  lemma AppendOne(xs: seq<nat>, v: nat, ys: seq<nat>)
    ensures (xs + [v]) + ys == xs + ([v] + ys)
  {
  }

  lemma DemoteKeepStep(s: Probe, i: nat, ping: Oracle, at: Stamp)
    requires i < |s.pool.active| && InRange(s.pool) && !s.halted
    requires ping(|s.trace|, s.pool.active[i]) == Up(at)
    requires DemoteSplitsAt(Answered(s, s.pool.active[i], at), i + 1, ping)
    ensures DemoteSplitsAt(s, i, ping)
  {
    var a, v, k := s.pool.active, s.pool.active[i], |s.trace|;
    SliceAt(a, i);
    assert Kept(a[i..], k, ping) == [v] + Kept(a[i + 1..], k + 1, ping);
    AppendOne(a[..i], v, Kept(a[i + 1..], k + 1, ping));
    assert Dropped(a[i..], k, ping) == Dropped(a[i + 1..], k + 1, ping);
    AppendOne(s.trace, v, a[i + 1..]);
  }

  lemma DemoteDropStep(s: Probe, i: nat, ping: Oracle, msg: string)
    requires i < |s.pool.active| && InRange(s.pool) && !s.halted && s.pool.length > 1
    requires ping(|s.trace|, s.pool.active[i]) == Down(msg)
    requires DemoteSplitsAt(Refused(s.(pool := Deactivate(s.pool, i)), s.pool.active[i], msg), i, ping)
    ensures DemoteSplitsAt(s, i, ping)
  {
    var a, v, k := s.pool.active, s.pool.active[i], |s.trace|;
    var s' := Refused(s.(pool := Deactivate(s.pool, i)), v, msg);
    SliceAt(a, i);
    assert s'.pool.active[..i] == a[..i];
    assert s'.pool.active[i..] == a[i + 1..];
    assert Kept(a[i..], k, ping) == Kept(a[i + 1..], k + 1, ping);
    assert Dropped(a[i..], k, ping) == [v] + Dropped(a[i + 1..], k + 1, ping);
    AppendOne(s.pool.inactive, v, Dropped(a[i + 1..], k + 1, ping));
    AppendOne(s.trace, v, a[i + 1..]);
  }

  /** Removing in place and stepping back (`i--`) in phase one skips
      nothing and reorders nothing. */
  lemma {:induction false} DemoteSplits(s: Probe, i: nat, ping: Oracle)
    requires i <= |s.pool.active| && InRange(s.pool) && !s.halted
    ensures DemoteSplitsAt(s, i, ping)
    decreases |s.pool.active| - i
  {
    if i == |s.pool.active| {
      assert s.pool.active[i..] == [];
    } else {
      var v := s.pool.active[i];
      match ping(|s.trace|, v)
      case Up(at) =>
        DemoteSplits(Answered(s, v, at), i + 1, ping);
        DemoteKeepStep(s, i, ping, at);
      case Down(msg) =>
        if s.pool.length > 1 {
          DemoteSplits(Refused(s.(pool := Deactivate(s.pool, i)), v, msg), i, ping);
          DemoteDropStep(s, i, ping, msg);
        }
    }
  }

  lemma PromoteKeepStep(s: Probe, i: nat, ping: Oracle, msg: string)
    requires i < |s.pool.inactive| && InRange(s.pool) && !s.halted
    requires ping(|s.trace|, s.pool.inactive[i]) == Down(msg)
    requires PromoteSplitsAt(Refused(s, s.pool.inactive[i], msg), i + 1, ping)
    ensures PromoteSplitsAt(s, i, ping)
  {
    var b, v, k := s.pool.inactive, s.pool.inactive[i], |s.trace|;
    SliceAt(b, i);
    assert Kept(b[i..], k, ping) == Kept(b[i + 1..], k + 1, ping);
    assert Dropped(b[i..], k, ping) == [v] + Dropped(b[i + 1..], k + 1, ping);
    AppendOne(b[..i], v, Dropped(b[i + 1..], k + 1, ping));
    AppendOne(s.trace, v, b[i + 1..]);
  }

  lemma PromoteMoveStep(s: Probe, i: nat, ping: Oracle, at: Stamp)
    requires i < |s.pool.inactive| && InRange(s.pool) && !s.halted
    requires ping(|s.trace|, s.pool.inactive[i]) == Up(at)
    requires PromoteSplitsAt(Answered(s.(pool := Activate(s.pool, i)), s.pool.inactive[i], at), i, ping)
    ensures PromoteSplitsAt(s, i, ping)
  {
    var b, v, k := s.pool.inactive, s.pool.inactive[i], |s.trace|;
    var s' := Answered(s.(pool := Activate(s.pool, i)), v, at);
    SliceAt(b, i);
    assert s'.pool.inactive[..i] == b[..i];
    assert s'.pool.inactive[i..] == b[i + 1..];
    assert Kept(b[i..], k, ping) == [v] + Kept(b[i + 1..], k + 1, ping);
    assert Dropped(b[i..], k, ping) == Dropped(b[i + 1..], k + 1, ping);
    AppendOne(s.pool.active, v, Kept(b[i + 1..], k + 1, ping));
    AppendOne(s.trace, v, b[i + 1..]);
  }

  /** Removing in place and stepping back in phase two skips nothing and
      reorders nothing. */
  lemma {:induction false} PromoteSplits(s: Probe, i: nat, ping: Oracle)
    requires i <= |s.pool.inactive| && InRange(s.pool) && !s.halted
    ensures PromoteSplitsAt(s, i, ping)
    decreases |s.pool.inactive| - i
  {
    if i == |s.pool.inactive| {
      assert s.pool.inactive[i..] == [];
    } else {
      var v := s.pool.inactive[i];
      match ping(|s.trace|, v)
      case Down(msg) =>
        PromoteSplits(Refused(s, v, msg), i + 1, ping);
        PromoteKeepStep(s, i, ping, msg);
      case Up(at) =>
        PromoteSplits(Answered(s.(pool := Activate(s.pool, i)), v, at), i, ping);
        PromoteMoveStep(s, i, ping, at);
    }
  }

  /** Moving one index from `active` to `inactive` keeps the set of indices. */
  lemma DeactivateKeepsIndices(p: Pool, i: nat)
    requires i < |p.active| && InRange(p)
    ensures multiset(Deactivate(p, i).active + Deactivate(p, i).inactive) == multiset(p.active + p.inactive)
  {
    var a := p.active;
    assert a == a[..i] + [a[i]] + a[i + 1..];
    assert multiset(a) == multiset(a[..i]) + multiset{a[i]} + multiset(a[i + 1..]);
    var q := Deactivate(p, i);
    assert multiset(q.active + q.inactive)
        == multiset(a[..i]) + multiset(a[i + 1..]) + multiset(p.inactive) + multiset{a[i]};
  }

  /** Moving one index from `inactive` to `active` keeps the set of indices. */
  lemma ActivateKeepsIndices(p: Pool, i: nat)
    requires i < |p.inactive| && InRange(p)
    ensures multiset(Activate(p, i).active + Activate(p, i).inactive) == multiset(p.active + p.inactive)
  {
    var b := p.inactive;
    assert b == b[..i] + [b[i]] + b[i + 1..];
    assert multiset(b) == multiset(b[..i]) + multiset{b[i]} + multiset(b[i + 1..]);
    var q := Activate(p, i);
    assert multiset(q.active + q.inactive)
        == multiset(p.active) + multiset{b[i]} + multiset(b[..i]) + multiset(b[i + 1..]);
  }

  /** Phase one keeps the indices, keeps `length - |active|`, never takes
      `length` below one, and returns early only with `length <= 1` and an
      error. */
  lemma {:induction false} DemoteInvariant(s: Probe, i: nat, ping: Oracle)
    requires i <= |s.pool.active| && InRange(s.pool) && !s.halted
    ensures var r := Demote(s, i, ping);
      && multiset(r.pool.active + r.pool.inactive) == multiset(s.pool.active + s.pool.inactive)
      && r.pool.length - |r.pool.active| == s.pool.length - |s.pool.active|
      && (s.pool.length >= 1 ==> r.pool.length >= 1)
      && (r.halted ==> r.pool.length <= 1 && r.err.Some?)
    decreases |s.pool.active| - i
  {
    if i < |s.pool.active| {
      var v := s.pool.active[i];
      match ping(|s.trace|, v)
      case Up(at) =>
        DemoteInvariant(Answered(s, v, at), i + 1, ping);
      case Down(msg) =>
        if s.pool.length > 1 {
          DeactivateKeepsIndices(s.pool, i);
          DemoteInvariant(Refused(s.(pool := Deactivate(s.pool, i)), v, msg), i, ping);
        }
    }
  }

  /** Phase two keeps the indices: what it moves to `active` it takes out
      of `inactive`. */
  lemma PromoteKeepsIndices(s: Probe, i: nat, ping: Oracle)
    requires i <= |s.pool.inactive| && InRange(s.pool) && !s.halted
    ensures var r := Promote(s, i, ping);
      multiset(r.pool.active + r.pool.inactive) == multiset(s.pool.active + s.pool.inactive)
  {
    var b, k := s.pool.inactive, |s.trace|;
    PromoteSplits(s, i, ping);
    KeptDropped(b[i..], k, ping);
    assert b == b[..i] + b[i..];
    var r := Promote(s, i, ping);
    calc {
      multiset(r.pool.active + r.pool.inactive);
      multiset(s.pool.active) + multiset(Kept(b[i..], k, ping)) + multiset(b[..i]) + multiset(Dropped(b[i..], k, ping));
      multiset(s.pool.active) + multiset(b[..i]) + multiset(b[i..]);
      multiset(s.pool.active + s.pool.inactive);
    }
  }

  /** Phase two keeps `length - |active|` and never shrinks the active list. */
  lemma {:induction false} PromoteGrows(s: Probe, i: nat, ping: Oracle)
    requires i <= |s.pool.inactive| && InRange(s.pool) && !s.halted
    ensures var r := Promote(s, i, ping);
      && r.pool.length - |r.pool.active| == s.pool.length - |s.pool.active|
      && |r.pool.active| >= |s.pool.active|
    decreases |s.pool.inactive| - i
  {
    if i < |s.pool.inactive| {
      var v := s.pool.inactive[i];
      match ping(|s.trace|, v)
      case Down(msg) =>
        PromoteGrows(Refused(s, v, msg), i + 1, ping);
      case Up(at) =>
        PromoteGrows(Answered(s.(pool := Activate(s.pool, i)), v, at), i, ping);
    }
  }

  /** The error a probe carries is the outcome of its last ping (nil when
      nothing was pinged yet). */
  ghost predicate ErrIsLastPing(s: Probe, ping: Oracle)
  {
    s.err == if s.trace == [] then None
             else ErrOf(ping(|s.trace| - 1, s.trace[|s.trace| - 1]))
  }

  /** Phase one from position `i` pings, in order, a prefix of the
      indices it has still to visit, returns early only after at least one
      ping, and what it returns is the outcome of its last ping. */
  ghost predicate TracedAt(s: Probe, i: nat, ping: Oracle)
    requires i <= |s.pool.active| && InRange(s.pool) && !s.halted
  {
    var r := Demote(s, i, ping);
    && r.trace <= s.trace + s.pool.active[i..]
    && |r.trace| >= |s.trace|
    && (r.halted ==> |r.trace| > |s.trace|)
    && ErrIsLastPing(r, ping)
  }

  lemma TraceKeepStep(s: Probe, i: nat, ping: Oracle, at: Stamp)
    requires i < |s.pool.active| && InRange(s.pool) && !s.halted
    requires ping(|s.trace|, s.pool.active[i]) == Up(at)
    requires TracedAt(Answered(s, s.pool.active[i], at), i + 1, ping)
    ensures TracedAt(s, i, ping)
  {
    var a, v := s.pool.active, s.pool.active[i];
    SliceAt(a, i);
    AppendOne(s.trace, v, a[i + 1..]);
  }

  lemma TraceDropStep(s: Probe, i: nat, ping: Oracle, msg: string)
    requires i < |s.pool.active| && InRange(s.pool) && !s.halted && s.pool.length > 1
    requires ping(|s.trace|, s.pool.active[i]) == Down(msg)
    requires TracedAt(Refused(s.(pool := Deactivate(s.pool, i)), s.pool.active[i], msg), i, ping)
    ensures TracedAt(s, i, ping)
  {
    var a, v := s.pool.active, s.pool.active[i];
    var s' := Refused(s.(pool := Deactivate(s.pool, i)), v, msg);
    assert s'.pool.active[i..] == a[i + 1..];
    SliceAt(a, i);
    AppendOne(s.trace, v, a[i + 1..]);
  }

  lemma TraceHaltStep(s: Probe, i: nat, ping: Oracle, msg: string)
    requires i < |s.pool.active| && InRange(s.pool) && !s.halted && s.pool.length <= 1
    requires ping(|s.trace|, s.pool.active[i]) == Down(msg)
    ensures TracedAt(s, i, ping)
  {
    var a, v := s.pool.active, s.pool.active[i];
    SliceAt(a, i);
    assert s.trace + [v] <= s.trace + a[i..];
  }

  lemma {:induction false} DemoteTrace(s: Probe, i: nat, ping: Oracle)
    requires i <= |s.pool.active| && InRange(s.pool) && !s.halted
    requires ErrIsLastPing(s, ping)
    ensures TracedAt(s, i, ping)
    decreases |s.pool.active| - i
  {
    var a := s.pool.active;
    if i == |a| {
      assert a[i..] == [];
    } else {
      var v := a[i];
      match ping(|s.trace|, v) {
        case Up(at) =>
          DemoteTrace(Answered(s, v, at), i + 1, ping);
          TraceKeepStep(s, i, ping, at);
        case Down(msg) =>
          if s.pool.length > 1 {
            DemoteTrace(Refused(s.(pool := Deactivate(s.pool, i)), v, msg), i, ping);
            TraceDropStep(s, i, ping, msg);
          } else {
            TraceHaltStep(s, i, ping, msg);
          }
      }
    }
  }

  /** Phase two pings every index it has still to visit, and what it returns
      is the outcome of its last ping. */
  lemma {:induction false} PromoteTrace(s: Probe, i: nat, ping: Oracle)
    requires i <= |s.pool.inactive| && InRange(s.pool) && !s.halted
    requires ErrIsLastPing(s, ping)
    ensures ErrIsLastPing(Promote(s, i, ping), ping)
    decreases |s.pool.inactive| - i
  {
    if i < |s.pool.inactive| {
      var v := s.pool.inactive[i];
      match ping(|s.trace|, v)
      case Down(msg) =>
        PromoteTrace(Refused(s, v, msg), i + 1, ping);
      case Up(at) =>
        PromoteTrace(Answered(s.(pool := Activate(s.pool, i)), v, at), i, ping);
    }
  }

  /** Pinging splits a list into the answering and the failing members and
      loses none. */
  lemma {:induction false} KeptDropped(xs: seq<nat>, k: nat, ping: Oracle)
    ensures multiset(Kept(xs, k, ping)) + multiset(Dropped(xs, k, ping)) == multiset(xs)
    decreases |xs|
  {
    if xs != [] {
      var x, rest := xs[0], xs[1..];
      var K, D := Kept(rest, k + 1, ping), Dropped(rest, k + 1, ping);
      KeptDropped(rest, k + 1, ping);
      assert multiset(xs) == multiset{x} + multiset(rest) by {
        assert xs == [x] + rest;
      }
      if ping(k, x).Up? {
        assert Kept(xs, k, ping) == [x] + K && Dropped(xs, k, ping) == D;
        assert multiset([x] + K) == multiset{x} + multiset(K);
      } else {
        assert Kept(xs, k, ping) == K && Dropped(xs, k, ping) == [x] + D;
        assert multiset([x] + D) == multiset{x} + multiset(D);
      }
    }
  }

  lemma NoDupCons(v: nat, rest: seq<nat>)
    requires NoDup([v] + rest)
    ensures v !in rest && NoDup(rest)
  {
    assert multiset([v] + rest) == multiset{v} + multiset(rest);
    forall u ensures multiset(rest)[u] <= 1 {
      assert multiset([v] + rest)[u] == multiset{v}[u] + multiset(rest)[u];
    }
    assert multiset([v] + rest)[v] == 1 + multiset(rest)[v];
  }

  lemma NoDupParts(xs: seq<nat>, ys: seq<nat>)
    requires NoDup(xs + ys)
    ensures NoDup(xs) && NoDup(ys)
  {
    assert multiset(xs + ys) == multiset(xs) + multiset(ys);
    forall u ensures multiset(xs)[u] <= 1 && multiset(ys)[u] <= 1 {
      assert multiset(xs + ys)[u] == multiset(xs)[u] + multiset(ys)[u];
    }
  }

  /** Without duplicates, two positions hold two different indices. */
  lemma NoDupAt(s: seq<nat>, a: nat, b: nat)
    requires NoDup(s) && a < b < |s|
    ensures s[a] != s[b]
  {
    assert s == s[..b] + s[b..];
    assert s[a] in s[..b] && s[b] in s[b..];
    assert multiset(s)[s[b]] == multiset(s[..b])[s[b]] + multiset(s[b..])[s[b]];
  }

  /** The statuses after one ping of connection `v`. */
  function Visit(stats: seq<DbStatus>, v: nat, o: Outcome): seq<DbStatus>
    requires v < |stats|
  {
    match o
    case Up(at) => stats[v := MarkUp(stats[v], at)]
    case Down(msg) => stats[v := MarkDown(stats[v], msg)]
  }

  /** What pinging the members of `xs` in order did to the status of
      connection `v`: its name is kept, it is healthy if it answered, failing
      if it failed, and untouched if it is not in `xs`. */
  ghost predicate SettledAt(before: seq<DbStatus>, after: seq<DbStatus>, xs: seq<nat>, k: nat, ping: Oracle, v: nat)
    requires v < |before| && v < |after|
  {
    && after[v].name == before[v].name
    && (v in Kept(xs, k, ping) ==> Healthy(after[v]))
    && (v in Dropped(xs, k, ping) ==> Failing(after[v]))
    && (v !in xs ==> after[v] == before[v])
  }

  /** What pinging the members of `xs` in order does to all the statuses. */
  ghost predicate Settled(before: seq<DbStatus>, after: seq<DbStatus>, xs: seq<nat>, k: nat, ping: Oracle)
  {
    && |after| == |before|
    && forall v: nat :: v < |before| ==> SettledAt(before, after, xs, k, ping, v)
  }

  lemma SettledCons(before: seq<DbStatus>, after: seq<DbStatus>, v: nat, rest: seq<nat>, k: nat, ping: Oracle)
    requires v < |before| && v !in rest
    requires Settled(Visit(before, v, ping(k, v)), after, rest, k + 1, ping)
    ensures Settled(before, after, [v] + rest, k, ping)
  {
    var xs := [v] + rest;
    var mid := Visit(before, v, ping(k, v));
    assert xs[1..] == rest;
    assert Kept(xs, k, ping) == (if ping(k, v).Up? then [v] else []) + Kept(rest, k + 1, ping);
    assert Dropped(xs, k, ping) == (if ping(k, v).Down? then [v] else []) + Dropped(rest, k + 1, ping);
    KeptDropped(rest, k + 1, ping);
    forall u: nat | u < |before| ensures SettledAt(before, after, xs, k, ping, u) {
      assert SettledAt(mid, after, rest, k + 1, ping, u);
      if u == v {
        assert after[v] == mid[v];
      } else {
        assert mid[u] == before[u];
      }
    }
  }

  /** Unless it returns early, phase one from position `i` leaves the
      statuses of the indices it pinged healthy or failing according to
      their answer. */
  ghost predicate DemoteSettlesAt(s: Probe, i: nat, ping: Oracle)
    requires i <= |s.pool.active| && InRange(s.pool) && !s.halted
  {
    var r := Demote(s, i, ping);
    !r.halted ==> Settled(s.pool.stats, r.pool.stats, s.pool.active[i..], |s.trace|, ping)
  }

  /** Phase two from position `i` leaves the statuses of the indices it
      pinged healthy or failing according to their answer. */
  ghost predicate PromoteSettlesAt(s: Probe, i: nat, ping: Oracle)
    requires i <= |s.pool.inactive| && InRange(s.pool) && !s.halted
  {
    Settled(s.pool.stats, Promote(s, i, ping).pool.stats, s.pool.inactive[i..], |s.trace|, ping)
  }

  lemma DemoteSettleKeep(s: Probe, i: nat, ping: Oracle, at: Stamp)
    requires i < |s.pool.active| && InRange(s.pool) && !s.halted
    requires s.pool.active[i] !in s.pool.active[i + 1..]
    requires ping(|s.trace|, s.pool.active[i]) == Up(at)
    requires DemoteSettlesAt(Answered(s, s.pool.active[i], at), i + 1, ping)
    ensures DemoteSettlesAt(s, i, ping)
  {
    var a, v := s.pool.active, s.pool.active[i];
    var s' := Answered(s, v, at);
    SliceAt(a, i);
    assert s'.pool.stats == Visit(s.pool.stats, v, ping(|s.trace|, v));
    var r := Demote(s, i, ping);
    if !r.halted {
      SettledCons(s.pool.stats, r.pool.stats, v, a[i + 1..], |s.trace|, ping);
    }
  }

  lemma DemoteSettleDrop(s: Probe, i: nat, ping: Oracle, msg: string)
    requires i < |s.pool.active| && InRange(s.pool) && !s.halted && s.pool.length > 1
    requires s.pool.active[i] !in s.pool.active[i + 1..]
    requires ping(|s.trace|, s.pool.active[i]) == Down(msg)
    requires DemoteSettlesAt(Refused(s.(pool := Deactivate(s.pool, i)), s.pool.active[i], msg), i, ping)
    ensures DemoteSettlesAt(s, i, ping)
  {
    var a, v := s.pool.active, s.pool.active[i];
    var s' := Refused(s.(pool := Deactivate(s.pool, i)), v, msg);
    SliceAt(a, i);
    assert s'.pool.active[i..] == a[i + 1..];
    assert s'.pool.stats == Visit(s.pool.stats, v, ping(|s.trace|, v));
    var r := Demote(s, i, ping);
    if !r.halted {
      SettledCons(s.pool.stats, r.pool.stats, v, a[i + 1..], |s.trace|, ping);
    }
  }

  lemma {:induction false} DemoteStatus(s: Probe, i: nat, ping: Oracle)
    requires i <= |s.pool.active| && InRange(s.pool) && !s.halted
    requires NoDup(s.pool.active[i..])
    ensures DemoteSettlesAt(s, i, ping)
    decreases |s.pool.active| - i
  {
    var a := s.pool.active;
    if i == |a| {
      assert a[i..] == [];
    } else {
      var v := a[i];
      SliceAt(a, i);
      NoDupCons(v, a[i + 1..]);
      match ping(|s.trace|, v) {
        case Up(at) =>
          DemoteStatus(Answered(s, v, at), i + 1, ping);
          DemoteSettleKeep(s, i, ping, at);
        case Down(msg) =>
          if s.pool.length > 1 {
            var s' := Refused(s.(pool := Deactivate(s.pool, i)), v, msg);
            assert s'.pool.active[i..] == a[i + 1..];
            DemoteStatus(s', i, ping);
            DemoteSettleDrop(s, i, ping, msg);
          }
      }
    }
  }

  lemma PromoteSettleKeep(s: Probe, i: nat, ping: Oracle, msg: string)
    requires i < |s.pool.inactive| && InRange(s.pool) && !s.halted
    requires s.pool.inactive[i] !in s.pool.inactive[i + 1..]
    requires ping(|s.trace|, s.pool.inactive[i]) == Down(msg)
    requires PromoteSettlesAt(Refused(s, s.pool.inactive[i], msg), i + 1, ping)
    ensures PromoteSettlesAt(s, i, ping)
  {
    var b, v := s.pool.inactive, s.pool.inactive[i];
    var s' := Refused(s, v, msg);
    SliceAt(b, i);
    assert s'.pool.stats == Visit(s.pool.stats, v, ping(|s.trace|, v));
    SettledCons(s.pool.stats, Promote(s, i, ping).pool.stats, v, b[i + 1..], |s.trace|, ping);
  }

  lemma PromoteSettleMove(s: Probe, i: nat, ping: Oracle, at: Stamp)
    requires i < |s.pool.inactive| && InRange(s.pool) && !s.halted
    requires s.pool.inactive[i] !in s.pool.inactive[i + 1..]
    requires ping(|s.trace|, s.pool.inactive[i]) == Up(at)
    requires PromoteSettlesAt(Answered(s.(pool := Activate(s.pool, i)), s.pool.inactive[i], at), i, ping)
    ensures PromoteSettlesAt(s, i, ping)
  {
    var b, v := s.pool.inactive, s.pool.inactive[i];
    var s' := Answered(s.(pool := Activate(s.pool, i)), v, at);
    SliceAt(b, i);
    assert s'.pool.inactive[i..] == b[i + 1..];
    assert s'.pool.stats == Visit(s.pool.stats, v, ping(|s.trace|, v));
    SettledCons(s.pool.stats, Promote(s, i, ping).pool.stats, v, b[i + 1..], |s.trace|, ping);
  }

  lemma {:induction false} PromoteStatus(s: Probe, i: nat, ping: Oracle)
    requires i <= |s.pool.inactive| && InRange(s.pool) && !s.halted
    requires NoDup(s.pool.inactive[i..])
    ensures PromoteSettlesAt(s, i, ping)
    decreases |s.pool.inactive| - i
  {
    var b := s.pool.inactive;
    if i == |b| {
      assert b[i..] == [];
    } else {
      var v := b[i];
      SliceAt(b, i);
      NoDupCons(v, b[i + 1..]);
      match ping(|s.trace|, v) {
        case Down(msg) =>
          PromoteStatus(Refused(s, v, msg), i + 1, ping);
          PromoteSettleKeep(s, i, ping, msg);
        case Up(at) =>
          var s' := Answered(s.(pool := Activate(s.pool, i)), v, at);
          assert s'.pool.inactive[i..] == b[i + 1..];
          PromoteStatus(s', i, ping);
          PromoteSettleMove(s, i, ping, at);
      }
    }
  }

  /** With one connection counted active (or none), phase one never moves
      anything: a failure returns at once. */
  lemma {:induction false} DemoteAlone(s: Probe, i: nat, ping: Oracle)
    requires i <= |s.pool.active| && InRange(s.pool) && !s.halted
    requires s.pool.length <= 1
    ensures var r := Demote(s, i, ping);
      r.pool.active == s.pool.active && r.pool.inactive == s.pool.inactive && r.pool.length == s.pool.length
    decreases |s.pool.active| - i
  {
    if i < |s.pool.active| {
      var v := s.pool.active[i];
      match ping(|s.trace|, v)
      case Up(at) =>
        DemoteAlone(Answered(s, v, at), i + 1, ping);
      case Down(msg) =>
    }
  }

  /** A pass keeps the bookkeeping consistent: the two lists still
      partition the indices, `length` still counts the active list, and the
      active list does not become empty, whether or not the pass returned
      early. */
  lemma PassKeepsConsistent(p: Pool, n: nat, ping: Oracle)
    requires Consistent(p, n)
    ensures Consistent(HealthPass(p, ping).pool, n)
  {
    var s0 := Probe(p, [], None, false);
    var s1 := Demote(s0, 0, ping);
    DemoteInvariant(s0, 0, ping);
    if !s1.halted {
      PromoteKeepsIndices(s1, 0, ping);
      PromoteGrows(s1, 0, ping);
    }
  }

  /** Where a pass that runs to the end puts each index: it pings the active
      list, then the inactive list followed by the demoted indices; the
      active list ends as the answering active indices in their order
      followed by the answering inactive and demoted ones, and the inactive
      list as the rest of those, in order. */
  lemma PassMovesByOutcome(p: Pool, ping: Oracle)
    requires InRange(p)
    ensures var r := HealthPass(p, ping);
      var demoted := Dropped(p.active, 0, ping);
      !r.halted ==>
        && r.trace == p.active + (p.inactive + demoted)
        && r.pool.active == Kept(p.active, 0, ping) + Kept(p.inactive + demoted, |p.active|, ping)
        && r.pool.inactive == Dropped(p.inactive + demoted, |p.active|, ping)
  {
    var s0 := Probe(p, [], None, false);
    var s1 := Demote(s0, 0, ping);
    if !s1.halted {
      var A := p.active;
      DemoteSplits(s0, 0, ping);
      assert s1.pool.active == Kept(A, 0, ping) && s1.trace == A by {
        assert A[..0] == [] && A[0..] == A;
      }
      var I := s1.pool.inactive;
      assert I == p.inactive + Dropped(A, 0, ping) by {
        assert A[0..] == A;
      }
      PromoteSplits(s1, 0, ping);
      assert I[..0] == [] && I[0..] == I;
    }
  }

  /** A pass returns the outcome of the last ping it made, nil when there
      was nothing to ping. */
  lemma PassReturnsLastPing(p: Pool, ping: Oracle)
    requires InRange(p)
    ensures ErrIsLastPing(HealthPass(p, ping), ping)
  {
    var s0 := Probe(p, [], None, false);
    var s1 := Demote(s0, 0, ping);
    DemoteTrace(s0, 0, ping);
    if !s1.halted {
      PromoteTrace(s1, 0, ping);
    }
  }

  /** A pass returns early only when a ping fails while a single connection
      is counted active; the error is that ping's, made during the walk over
      the active list. */
  lemma PassHaltsOnlyWhenAlone(p: Pool, ping: Oracle)
    requires InRange(p) && p.length == |p.active|
    ensures var r := HealthPass(p, ping);
      r.halted ==>
        && r.pool.length == 1 && |r.pool.active| == 1
        && r.trace != [] && r.trace <= p.active
        && ping(|r.trace| - 1, r.trace[|r.trace| - 1]).Down?
        && r.err == Some(ping(|r.trace| - 1, r.trace[|r.trace| - 1]).msg)
  {
    var s0 := Probe(p, [], None, false);
    var s1 := Demote(s0, 0, ping);
    if s1.halted {
      DemoteInvariant(s0, 0, ping);
      DemoteTrace(s0, 0, ping);
      assert TracedAt(s0, 0, ping);
      assert s1.trace <= p.active by {
        assert p.active[0..] == p.active;
      }
    }
  }

  /** The demoted indices come from the active list, so appending them to
      the inactive list makes no duplicate. */
  lemma DemotedNoDup(A: seq<nat>, I: seq<nat>, k: nat, ping: Oracle)
    requires NoDup(A + I)
    ensures NoDup(I + Dropped(A, k, ping))
  {
    var D := Dropped(A, k, ping);
    var mA: multiset<nat>, mD: multiset<nat> := multiset(A), multiset(D);
    KeptDropped(A, k, ping);
    assert multiset(A + I) == mA + multiset(I);
    assert multiset(I + D) == multiset(I) + mD;
    forall u: nat ensures multiset(I + D)[u] <= 1 {
      assert mD[u] <= mA[u] by {
        assert multiset(Kept(A, k, ping))[u] + mD[u] == mA[u];
      }
      assert multiset(A + I)[u] == mA[u] + multiset(I)[u] <= 1;
      assert multiset(I + D)[u] == multiset(I)[u] + mD[u];
    }
  }

  /** The status of one connection after both phases: healthy if its last
      ping answered, failing if it failed. */
  lemma TwoPhaseSettle(before: seq<DbStatus>, mid: seq<DbStatus>, after: seq<DbStatus>,
                       A: seq<nat>, I1: seq<nat>, k: nat, ping: Oracle, v: nat)
    requires v < |before| && |mid| == |before| && |after| == |before|
    requires SettledAt(before, mid, A, 0, ping, v) && SettledAt(mid, after, I1, k, ping, v)
    requires v in A || v in I1
    requires v in Dropped(A, 0, ping) ==> v in I1
    ensures after[v].name == before[v].name
    ensures || (Healthy(after[v]) && (v in Kept(A, 0, ping) || v in Kept(I1, k, ping)))
            || (Failing(after[v]) && v in Dropped(I1, k, ping))
  {
    var mA: multiset<nat>, mI: multiset<nat> := multiset(A), multiset(I1);
    KeptDropped(A, 0, ping);
    KeptDropped(I1, k, ping);
    if v in I1 {
      assert mI[v] > 0;
      if v !in Kept(I1, k, ping) {
        assert multiset(Dropped(I1, k, ping))[v] > 0;
      }
    } else {
      assert mA[v] > 0;
      assert multiset(Dropped(A, 0, ping))[v] == 0;
      assert multiset(Kept(A, 0, ping))[v] > 0;
    }
  }

  /** After a pass that runs to the end, every connection has been pinged
      and is either healthy and active or failing and inactive. */
  lemma PassSettles(p: Pool, n: nat, ping: Oracle)
    requires Consistent(p, n)
    ensures var r := HealthPass(p, ping);
      !r.halted ==>
        forall v: nat :: v < n ==>
          && r.pool.stats[v].name == p.stats[v].name
          && ((Healthy(r.pool.stats[v]) && v in r.pool.active) || (Failing(r.pool.stats[v]) && v in r.pool.inactive))
  {
    var A, I := p.active, p.inactive;
    var s0 := Probe(p, [], None, false);
    var s1 := Demote(s0, 0, ping);
    var r := HealthPass(p, ping);
    if !r.halted {
      var I1 := I + Dropped(A, 0, ping);
      PassMovesByOutcome(p, ping);
      PartitionFacts(A, I, n);
      NoDupParts(A, I);
      DemotedNoDup(A, I, 0, ping);
      DemoteSplits(s0, 0, ping);
      assert A[..0] == [] && A[0..] == A;
      DemoteStatus(s0, 0, ping);
      assert s1.pool.inactive == I1 && |s1.trace| == |A|;
      assert s1.pool.inactive[0..] == I1;
      PromoteStatus(s1, 0, ping);
      forall v: nat | v < n
        ensures r.pool.stats[v].name == p.stats[v].name
        ensures (Healthy(r.pool.stats[v]) && v in r.pool.active) || (Failing(r.pool.stats[v]) && v in r.pool.inactive)
      {
        assert SettledAt(p.stats, s1.pool.stats, A, 0, ping, v);
        assert SettledAt(s1.pool.stats, r.pool.stats, I1, |A|, ping, v);
        TwoPhaseSettle(p.stats, s1.pool.stats, r.pool.stats, A, I1, |A|, ping, v);
      }
    }
  }

  /** After a pass that runs to the end, a connection is counted active
      exactly when its status says connected with no error, and inactive
      exactly when its status says disconnected with an error; names never
      change. */
  lemma PassAlignsStatus(p: Pool, n: nat, ping: Oracle)
    requires Consistent(p, n)
    ensures var r := HealthPass(p, ping);
      !r.halted ==>
        forall v: nat :: v < n ==>
          && r.pool.stats[v].name == p.stats[v].name
          && (Healthy(r.pool.stats[v]) <==> v in r.pool.active)
          && (Failing(r.pool.stats[v]) <==> v in r.pool.inactive)
  {
    var r := HealthPass(p, ping);
    if !r.halted {
      PassSettles(p, n, ping);
      PassKeepsConsistent(p, n, ping);
      PartitionFacts(r.pool.active, r.pool.inactive, n);
    }
  }

  /** The answers of handles 0 .. n-1 when they are pinged in index order,
      the j-th call going to handle j: what Ping sees without a heartbeat. */
  function InOrder(ping: Oracle, n: nat): seq<Outcome>
  {
    seq(n, j requires 0 <= j => ping(j, j))
  }

  /** Stop at the first failure: the error of the first outcome that is
      not a success, nil when all of them succeed. */
  function FirstError(os: seq<Outcome>): Option<string>
  {
    if os == [] then None
    else match os[0]
      case Down(msg) => Some(msg)
      case Up(_) => FirstError(os[1..])
  }

  /** FirstError is nil exactly when every outcome is a success, and
      otherwise it is the message of the first failure. */
  lemma {:induction false} FirstErrorMeans(os: seq<Outcome>)
    ensures FirstError(os).None? <==> forall l :: 0 <= l < |os| ==> os[l].Up?
    ensures FirstError(os).Some? ==>
      exists l :: 0 <= l < |os| && os[l] == Down(FirstError(os).value)
                && forall m :: 0 <= m < l ==> os[m].Up?
    decreases |os|
  {
    if os != [] {
      var tail := os[1..];
      FirstErrorMeans(tail);
      if os[0].Up? {
        assert forall l :: 1 <= l < |os| ==> os[l] == tail[l - 1];
        if FirstError(os).Some? {
          var l :| 0 <= l < |tail| && tail[l] == Down(FirstError(os).value)
                   && forall m :: 0 <= m < l ==> tail[m].Up?;
          assert os[l + 1] == tail[l];
          assert forall m :: 0 <= m < l + 1 ==> os[m].Up?;
        }
      }
    }
  }

  /** All n connections counted active, in index order, none inactive: the
      state the constructors leave behind is consistent. */
  lemma AllActiveConsistent(p: Pool, n: nat)
    requires p.active == Iota(n) && p.inactive == [] && p.length == n && |p.stats| == n
    ensures Consistent(p, n)
  {
    assert p.active + p.inactive == Iota(n);
  }

  /** Phase one, started with `length` counting the active list, returns
      early exactly when it started at the head of the list and no active
      connection answers. */
  lemma {:induction false} DemoteHaltsIff(s: Probe, i: nat, ping: Oracle)
    requires i <= |s.pool.active| && InRange(s.pool) && !s.halted
    requires s.pool.length == |s.pool.active| >= 1
    ensures Demote(s, i, ping).halted <==> i == 0 && Kept(s.pool.active[i..], |s.trace|, ping) == []
    decreases |s.pool.active| - i
  {
    var a, k := s.pool.active, |s.trace|;
    if i < |a| {
      var v := a[i];
      SliceAt(a, i);
      match ping(k, v)
      case Up(at) =>
        DemoteHaltsIff(Answered(s, v, at), i + 1, ping);
      case Down(msg) =>
        if s.pool.length > 1 {
          var s' := Refused(s.(pool := Deactivate(s.pool, i)), v, msg);
          assert s'.pool.active[i..] == a[i + 1..];
          DemoteHaltsIff(s', i, ping);
        } else {
          assert a[i..][1..] == [];
        }
    }
  }

  /** The active list never empties: a pass returns early exactly when
      there is a connection and none of the active ones answers. */
  lemma PassHaltsIffAllFail(p: Pool, n: nat, ping: Oracle)
    requires Consistent(p, n)
    ensures HealthPass(p, ping).halted <==> n >= 1 && Kept(p.active, 0, ping) == []
  {
    var s0 := Probe(p, [], None, false);
    if n >= 1 {
      DemoteHaltsIff(s0, 0, ping);
      assert p.active[0..] == p.active;
    } else {
      assert p.active == [];
    }
  }

  /** When every member of `xs` answers, all are kept and none dropped. */
  lemma {:induction false} AllAnswer(xs: seq<nat>, k: nat, ping: Oracle)
    requires forall j :: 0 <= j < |xs| ==> ping(k + j, xs[j]).Up?
    ensures Kept(xs, k, ping) == xs && Dropped(xs, k, ping) == []
    decreases |xs|
  {
    if xs != [] {
      assert ping(k + 0, xs[0]).Up?;
      forall j | 0 <= j < |xs[1..]| ensures ping(k + 1 + j, xs[1..][j]).Up? {
        assert ping(k + (j + 1), xs[j + 1]).Up?;
      }
      AllAnswer(xs[1..], k + 1, ping);
      assert xs == [xs[0]] + xs[1..];
    }
  }

  /** Replica 1 of three stops answering: the pass demotes it and, as it
      pings it again at the end and it still fails, returns its error
      although the master answered. */
  lemma ReplicaDemotedScenario(p: Pool, down: Oracle)
    requires p.active == [0, 1, 2] && p.inactive == [] && p.length == 3 && |p.stats| == 3
    requires forall k, v :: down(k, v) == if v == 1 then Down("timeout") else Up("t1")
    ensures var r := HealthPass(p, down);
      && !r.halted && r.pool.active == [0, 2] && r.pool.inactive == [1] && r.err == Some("timeout")
  {
    var r := HealthPass(p, down);
    var A := p.active;
    assert A[1..] == [1, 2] && A[1..][1..] == [2] && [2][1..] == [] && [1][1..] == [];
    assert Kept(A, 0, down) == [0, 2] && Dropped(A, 0, down) == [1] by {
      assert Kept([2], 2, down) == [2] && Dropped([2], 2, down) == [];
      assert Kept([1, 2], 1, down) == [2] && Dropped([1, 2], 1, down) == [1];
    }
    assert Kept([1], 3, down) == [] && Dropped([1], 3, down) == [1];
    assert !r.halted by {
      DemoteHaltsIff(Probe(p, [], None, false), 0, down);
      assert A[0..] == A;
    }
    PassMovesByOutcome(p, down);
    assert r.trace == [0, 1, 2, 1];
    PassReturnsLastPing(p, down);
  }

  /** Once the demoted replica answers again, the next pass promotes it to
      the tail of the active list, behind replica 2. */
  lemma ReplicaRecoveryScenario(p: Pool, up: Oracle)
    requires p.active == [0, 2] && p.inactive == [1] && p.length == 2 && |p.stats| == 3
    requires forall k, v :: up(k, v) == Up("t2")
    ensures var r := HealthPass(p, up);
      && !r.halted && r.pool.active == [0, 2, 1] && r.pool.inactive == [] && r.err == None
  {
    var r := HealthPass(p, up);
    AllAnswer(p.active, 0, up);
    AllAnswer(p.inactive, 2, up);
    assert p.inactive + [] == [1];
    assert !r.halted by {
      DemoteHaltsIff(Probe(p, [], None, false), 0, up);
      assert p.active[0..] == p.active;
    }
    PassMovesByOutcome(p, up);
    assert r.trace == [0, 2, 1];
    PassReturnsLastPing(p, up);
  }
}
