/** Any number of concurrent storeMessage calls on one handler (gossiper/gossiphandler.go,
    gossiper/status.go).

    A call first inserts its message, without the clock's lock, and later takes the lock to update the
    clock; while one call holds the lock and probes number after number, others go on inserting. */
module GossipRuns {
  import opened Basics
  import opened GossipStore

  /** The call that holds the lock, and its loop variable maxID. */
  datatype Holder = Holder(origin: Origin, id: Id, maxID: nat)

  /** pending are the calls between their insertion and their update. */
  datatype State = State(stored: Stored, entries: Clock, pending: multiset<(Origin, Id)>, lock: Option<Holder>)

  datatype Step = Insert(origin: Origin, id: Id) | Acquire(origin: Origin, id: Id) | Probe

  predicate Enabled(s: State, step: Step) {
    match step
    case Insert(_, _) => true
    case Acquire(o, id) => (o, id) in s.pending && s.lock.None?
    case Probe => s.lock.Some?
  }

  function Next(s: State, step: Step): State
    requires Enabled(s, step)
  {
    match step
    case Insert(o, id) => s.(stored := s.stored + {(o, id)}, pending := s.pending + multiset{(o, id)})
    case Acquire(o, id) =>
      var maxID := At(s.entries, o);
      s.(pending := s.pending - multiset{(o, id)},
         lock := if maxID <= id then Some(Holder(o, id, maxID)) else None)
    case Probe =>
      var h := s.lock.value;
      if h.maxID < LAST && (h.origin, h.maxID) in s.stored then
        s.(entries := s.entries[h.origin := h.maxID + 1], lock := Some(h.(maxID := h.maxID + 1)))
      else
        s.(lock := None)
  }

  /** Some call will still look at the present clock of o. */
  ghost predicate Attended(s: State, o: Origin) {
    || (exists id: Id :: (o, id) in s.pending && id >= At(s.entries, o))
    || (s.lock.Some? && s.lock.value.origin == o)
  }

  ghost predicate Inv(s: State) {
    && (forall o :: o in s.entries ==> 2 <= s.entries[o] <= LAST)
    && (forall o: Origin, k: Id :: 1 <= k < At(s.entries, o) ==> (o, k) in s.stored)
    && (forall o: Origin :: At(s.entries, o) < LAST && (o, At(s.entries, o)) in s.stored ==> Attended(s, o))
    && (s.lock.Some? ==> s.lock.value.maxID == At(s.entries, s.lock.value.origin))
  }

  const INITIAL := State({}, map[], multiset{}, None)

  lemma StepKeeps(s: State, step: Step)
    requires Inv(s) && Enabled(s, step)
    ensures Inv(Next(s, step))
  {
    hide Attended;
    var s' := Next(s, step);
    forall o: Origin | At(s'.entries, o) < LAST && (o, At(s'.entries, o)) in s'.stored ensures Attended(s', o) {
      StillAttended(s, step, o);
    }
  }

  lemma StillAttended(s: State, step: Step, o: Origin)
    requires Inv(s) && Enabled(s, step)
    requires var s' := Next(s, step); At(s'.entries, o) < LAST && (o, At(s'.entries, o)) in s'.stored
    ensures Attended(Next(s, step), o)
  {
    match step
    case Insert(p, id) =>
      assert (p, id) in Next(s, step).pending;
      if !(o == p && id == At(s.entries, o)) {
        KeptByInsert(s, p, id, o);
      }
    case Acquire(p, id) =>
      KeptByAcquire(s, p, id, o);
    case Probe =>
      KeptByProbe(s, o);
  }

  lemma KeptByInsert(s: State, p: Origin, id: Id, o: Origin)
    requires Attended(s, o)
    ensures Attended(Next(s, Insert(p, id)), o)
  {
    if exists k: Id :: (o, k) in s.pending && k >= At(s.entries, o) {
      var k: Id :| (o, k) in s.pending && k >= At(s.entries, o);
      assert (o, k) in Next(s, Insert(p, id)).pending;
    }
  }

  lemma KeptByAcquire(s: State, p: Origin, id: Id, o: Origin)
    requires Enabled(s, Acquire(p, id)) && Attended(s, o)
    ensures Attended(Next(s, Acquire(p, id)), o)
  {
    var k: Id :| (o, k) in s.pending && k >= At(s.entries, o);
    if (o, k) != (p, id) {
      assert (o, k) in Next(s, Acquire(p, id)).pending;
    }
  }

  lemma KeptByProbe(s: State, o: Origin)
    requires Inv(s) && s.lock.Some?
    requires var s' := Next(s, Probe); At(s'.entries, o) < LAST && (o, At(s'.entries, o)) in s'.stored
    ensures Attended(Next(s, Probe), o)
  {
    var s' := Next(s, Probe);
    if o != s.lock.value.origin {
      assert At(s'.entries, o) == At(s.entries, o);
      var k: Id :| (o, k) in s.pending && k >= At(s.entries, o);
      assert (o, k) in s'.pending;
    }
  }

  /** Neither clocks nor stored messages ever go back. */
  lemma StepGrows(s: State, step: Step)
    requires Inv(s) && Enabled(s, step)
    ensures var s' := Next(s, step);
      s.stored <= s'.stored && forall o: Origin :: At(s.entries, o) <= At(s'.entries, o)
  {
  }

  // ---- runs ----

  ghost predicate ValidRun(s: State, run: seq<Step>)
    decreases |run|
  {
    run == [] || (Enabled(s, run[0]) && ValidRun(Next(s, run[0]), run[1..]))
  }

  ghost function RunFrom(s: State, run: seq<Step>): State
    requires ValidRun(s, run)
    decreases |run|
  {
    if run == [] then s else RunFrom(Next(s, run[0]), run[1..])
  }

  lemma {:induction false} RunKeeps(s: State, run: seq<Step>)
    requires Inv(s) && ValidRun(s, run)
    ensures var e := RunFrom(s, run);
      && Inv(e) && s.stored <= e.stored && forall o: Origin :: At(s.entries, o) <= At(e.entries, o)
    decreases |run|
  {
    hide Inv, Next;
    if run != [] {
      StepKeeps(s, run[0]);
      StepGrows(s, run[0]);
      RunKeeps(Next(s, run[0]), run[1..]);
    }
  }

  predicate Quiescent(s: State) {
    s.pending == multiset{} && s.lock.None?
  }

  /** Under every interleaving: all messages below a clock are stored, and whenever no call is in
      progress each clock is exactly the least number not stored. */
  lemma ClocksAreLeast(run: seq<Step>)
    requires ValidRun(INITIAL, run)
    ensures var s := RunFrom(INITIAL, run);
      && (forall o: Origin, k: Id :: 1 <= k < At(s.entries, o) ==> (o, k) in s.stored)
      && (Quiescent(s) ==> forall o: Origin :: At(s.entries, o) == Least(s.stored, o, 1))
  {
    RunKeeps(INITIAL, run);
    var s := RunFrom(INITIAL, run);
    if Quiescent(s) {
      forall o: Origin ensures At(s.entries, o) == Least(s.stored, o, 1) {
        assert !Attended(s, o);
        LeastUnique(s.stored, o, 1, At(s.entries, o));
      }
    }
  }

  /** The packet picked for a peer, at any moment of any run, is found however much later it is looked
      up, unless the peer claims to wait for message 0. */
  lemma PickedPacketFound(run: seq<Step>, other: Clock, ps: PeerStatus, more: seq<Step>)
    requires ValidRun(INITIAL, run) && ValidRun(RunFrom(INITIAL, run), more)
    requires IsPick(RunFrom(INITIAL, run).entries, other, ps)
    ensures var later := RunFrom(RunFrom(INITIAL, run), more);
      && ps.nextID < LAST
      && (ps.nextID >= 1 ==> (ps.identifier, ps.nextID) in later.stored)
  {
    RunKeeps(INITIAL, run);
    RunKeeps(RunFrom(INITIAL, run), more);
  }
}
