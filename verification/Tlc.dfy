/** gossiper/tlc.go, with saveConfirmation of gossiper/blockchainhandler.go and the round structure of
    gossiper/qsc.go: one node's threshold logical clock.

    The client goroutine runs one round after the other, three to a consensus round; the message handler
    saves confirmations beside it, first reading the clock and only later writing. */
module Tlc {
  import opened Basics

  type Origin = string

  datatype Config = Config(self: Origin, size: nat, stubborn: bool)

  /** A confirmation as far as the clock goes: who sent it, and which message it confirms. */
  datatype Confirmation = Confirmation(origin: Origin, confirmed: nat)

  datatype Write = Write(round: nat, c: Confirmation)

  /** The consensus round started at clock start, in its step phase of three. */
  datatype Round = Round(start: nat, phase: nat)

  datatype Client =
    | Idle
    | Ready(q: Round)
    | Waiting(q: Round, id: nat, witnesses: set<Origin>, delivered: bool)

  /** A confirmation sent, for the message id, with the witnesses it names. */
  datatype Emission = Emission(id: nat, witnesses: set<Origin>)

  /** Besides the node's own fields: the pending write of the handler, the message gossiped in each
      round, the confirmations sent, and how often "no new round" was reported. */
  datatype State = State(
    myTime: nat, confirmations: Confirmations, client: Client, write: Option<Write>,
    gossiped: seq<nat>, emitted: seq<Emission>, errors: nat)

  const INITIAL := State(0, map[], Idle, None, [], [], 0)

  datatype Step =
    | Begin(id: nat)
    | Continue(id: nat)
    | Ack(origin: Origin, id: nat)
    | Confirm
    | SaveCheck(round: nat, c: Confirmation)
    | SaveWrite

  type Confirmations = map<nat, map<Origin, Confirmation>>

  predicate Majority(c: Config, confirmations: Confirmations, round: nat) {
    round in confirmations && |confirmations[round]| > c.size / 2
  }

  function Saved(confirmations: Confirmations, round: nat, m: Confirmation): Confirmations {
    var before := if round in confirmations then confirmations[round] else map[];
    confirmations[round := before[m.origin := m]]
  }

  /** qscRound looks the round up again after each tlcRound. */
  function AfterRound(s: State, q: Round): State {
    if q.start + q.phase !in s.confirmations then s.(client := Idle, errors := s.errors + 1)
    else if q.phase >= 2 then s.(client := Idle)
    else s.(client := Ready(q.(phase := q.phase + 1)))
  }

  /** checkForConfirmationsMajority with its effect: the clock advances, and the node confirms its
      message if it has not yet. */
  function Complete(s: State, q: Round, id: nat, delivered: bool): State
    requires s.myTime in s.confirmations
  {
    var e := Emission(id, s.confirmations[s.myTime].Keys);
    AfterRound(s.(myTime := s.myTime + 1, emitted := if delivered then s.emitted else s.emitted + [e]), q)
  }

  function Entered(c: Config, s: State, q: Round, id: nat): State {
    var s1 := s.(gossiped := s.gossiped + [id]);
    if Majority(c, s.confirmations, s.myTime) then Complete(s1, q, id, false)
    else if c.stubborn then s1.(client := Waiting(q, id, {c.self}, false))
    else AfterRound(s1, q)
  }

  function OnAck(c: Config, s: State, origin: Origin, id: nat): State
    requires s.client.Waiting?
  {
    var w := s.client;
    if id != w.id || w.delivered then s else
    var witnesses := w.witnesses + {origin};
    if |witnesses| > c.size / 2 then
      s.(client := w.(witnesses := witnesses, delivered := true),
         emitted := s.emitted + [Emission(w.id, witnesses)],
         confirmations := Saved(s.confirmations, s.myTime, Confirmation(c.self, w.id)))
    else
      s.(client := w.(witnesses := witnesses))
  }

  /** Acknowledgements and confirmations come from the other nodes of the network (gossiper/mainhandler.go
      keeps a node's own messages from its handler); the handler has one message at a time. */
  predicate Enabled(c: Config, names: set<Origin>, s: State, step: Step) {
    match step
    case Begin(_) => s.client.Idle?
    case Continue(_) => s.client.Ready?
    case Ack(origin, _) => s.client.Waiting? && origin in names - {c.self}
    case Confirm => s.client.Waiting?
    case SaveCheck(_, m) => s.write.None? && m.origin in names - {c.self}
    case SaveWrite => s.write.Some?
  }

  function Next(c: Config, names: set<Origin>, s: State, step: Step): State
    requires Enabled(c, names, s, step)
  {
    match step
    case Begin(id) => Entered(c, s, Round(s.myTime, 0), id)
    case Continue(id) => Entered(c, s, s.client.q, id)
    case Ack(origin, id) => OnAck(c, s, origin, id)
    case Confirm =>
      if Majority(c, s.confirmations, s.myTime) then Complete(s, s.client.q, s.client.id, s.client.delivered) else s
    case SaveCheck(round, m) => if round >= s.myTime then s.(write := Some(Write(round, m))) else s
    case SaveWrite =>
      var Write(round, m) := s.write.value;
      s.(write := None, confirmations := Saved(s.confirmations, round, m))
  }

  // ---- the invariant ----

  ghost predicate ConfigValid(c: Config, names: set<Origin>) {
    c.self in names && |names| == c.size
  }

  /** Rounds the client is in, given that no round ends unfinished. */
  ghost predicate ClientInv(s: State) {
    match s.client
    case Idle => |s.gossiped| == s.myTime
    case Ready(q) => |s.gossiped| == s.myTime && q.start + q.phase == s.myTime && 1 <= q.phase <= 2
    case Waiting(q, id, _, _) =>
      && |s.gossiped| == s.myTime + 1 && s.gossiped[s.myTime] == id
      && q.start + q.phase == s.myTime && q.phase <= 2
  }

  ghost predicate Inv(c: Config, names: set<Origin>, s: State) {
    && (forall r :: 0 <= r < s.myTime ==> Majority(c, s.confirmations, r))
    && (forall r :: r in s.confirmations ==> s.confirmations[r].Keys <= names)
    && (s.write.Some? ==> s.write.value.c.origin in names - {c.self})
    && (s.client.Waiting? ==> c.self in s.client.witnesses && s.client.witnesses <= names)
    && (s.client.Waiting? && s.client.delivered ==>
          OwnSaved(c, s))
    && |s.emitted| == s.myTime + (if s.client.Waiting? && s.client.delivered then 1 else 0)
    && (forall k :: 0 <= k < |s.emitted| ==> Backed(c, names, s.emitted[k]))
    && (c.stubborn ==> ClientInv(s) && s.errors == 0 && Answers(s.emitted, s.gossiped))
  }

  /** The node's own confirmation of the message it gossips is in the round it waits in. */
  ghost predicate OwnSaved(c: Config, s: State)
    requires s.client.Waiting?
  {
    && s.myTime in s.confirmations && c.self in s.confirmations[s.myTime]
    && s.confirmations[s.myTime][c.self] == Confirmation(c.self, s.client.id)
  }

  /** A majority of the network stands behind a confirmation. */
  ghost predicate Backed(c: Config, names: set<Origin>, e: Emission) {
    e.witnesses <= names && |e.witnesses| > c.size / 2
  }

  /** The confirmations sent are for the messages gossiped, in order. */
  ghost predicate Answers(emitted: seq<Emission>, gossiped: seq<nat>) {
    |emitted| <= |gossiped| && forall k :: 0 <= k < |emitted| ==> emitted[k].id == gossiped[k]
  }

  /** A saved confirmation only adds to a round. */
  lemma SavedGrows(c: Config, all: Confirmations, round: nat, m: Confirmation)
    ensures forall r :: Majority(c, all, r) ==> Majority(c, Saved(all, round, m), r)
  {
    forall r | Majority(c, all, r) ensures Majority(c, Saved(all, round, m), r) {
      if r == round {
        KeysGrow(all[r], m);
      }
    }
  }

  lemma KeysGrow(m: map<Origin, Confirmation>, c: Confirmation)
    ensures |m[c.origin := c]| >= |m|
  {
    var m' := m[c.origin := c];
    assert m'.Keys == m.Keys + {c.origin};
    if c.origin in m { assert m'.Keys == m.Keys; }
  }

  lemma StepKeeps(c: Config, names: set<Origin>, s: State, step: Step)
    requires ConfigValid(c, names) && Inv(c, names, s) && Enabled(c, names, s, step)
    ensures Inv(c, names, Next(c, names, s, step))
  {
    match step
    case Begin(id) => EnterKeeps(c, names, s, Round(s.myTime, 0), id);
    case Continue(id) => EnterKeeps(c, names, s, s.client.q, id);
    case Ack(origin, id) => AckKeeps(c, names, s, origin, id);
    case Confirm =>
    case SaveWrite => SavedGrows(c, s.confirmations, s.write.value.round, s.write.value.c);
    case SaveCheck(_, _) =>
  }

  lemma EnterKeeps(c: Config, names: set<Origin>, s: State, q: Round, id: nat)
    requires c.self in names && Inv(c, names, s) && !s.client.Waiting?
    requires c.stubborn ==> q.start + q.phase == s.myTime && q.phase <= 2
    ensures Inv(c, names, Entered(c, s, q, id))
  {
  }

  lemma AckKeeps(c: Config, names: set<Origin>, s: State, origin: Origin, id: nat)
    requires origin in names && Inv(c, names, s) && s.client.Waiting?
    ensures Inv(c, names, OnAck(c, s, origin, id))
  {
    SavedGrows(c, s.confirmations, s.myTime, Confirmation(c.self, s.client.id));
  }

  // ---- runs ----

  ghost predicate ValidRun(c: Config, names: set<Origin>, s: State, run: seq<Step>)
    decreases |run|
  {
    run == [] || (Enabled(c, names, s, run[0]) && ValidRun(c, names, Next(c, names, s, run[0]), run[1..]))
  }

  ghost function RunFrom(c: Config, names: set<Origin>, s: State, run: seq<Step>): State
    requires ValidRun(c, names, s, run)
    decreases |run|
  {
    if run == [] then s else RunFrom(c, names, Next(c, names, s, run[0]), run[1..])
  }

  lemma {:induction false} RunKeeps(c: Config, names: set<Origin>, s: State, run: seq<Step>)
    requires ConfigValid(c, names) && Inv(c, names, s) && ValidRun(c, names, s, run)
    ensures Inv(c, names, RunFrom(c, names, s, run))
    decreases |run|
  {
    hide Inv, Next;
    if run != [] {
      StepKeeps(c, names, s, run[0]);
      RunKeeps(c, names, Next(c, names, s, run[0]), run[1..]);
    }
  }

  /** In every reachable state each completed round holds confirmations of a majority, and so does each
      confirmation the node has sent name a majority of witnesses; once it has sent that of the round it
      waits in, its own confirmation counts there. With a resend timer, moreover, "no new round" is never
      reported and the node has confirmed, once each and in order, exactly the messages it gossiped in its
      completed rounds, besides possibly the one it is gossiping now. */
  lemma RoundsAreConfirmed(c: Config, names: set<Origin>, run: seq<Step>)
    requires ConfigValid(c, names) && ValidRun(c, names, INITIAL, run)
    ensures var s := RunFrom(c, names, INITIAL, run);
      && (forall r :: 0 <= r < s.myTime ==> Majority(c, s.confirmations, r))
      && |s.emitted| == s.myTime + (if s.client.Waiting? && s.client.delivered then 1 else 0)
      && (s.client.Waiting? && s.client.delivered ==>
            OwnSaved(c, s))
      && (forall k :: 0 <= k < |s.emitted| ==> Backed(c, names, s.emitted[k]))
      && (c.stubborn ==> s.errors == 0 && Answers(s.emitted, s.gossiped) && |s.gossiped| <= s.myTime + 1)
  {
    RunKeeps(c, names, INITIAL, run);
  }

  /** With this step the client comes back to qscRound from the TLC round of this number. */
  ghost predicate Leaves(c: Config, names: set<Origin>, s: State, step: Step, round: nat) {
    && Enabled(c, names, s, step) && (s.client.Waiting? || step.Begin? || step.Continue?)
    && !Next(c, names, s, step).client.Waiting?
    && var q := if step.Begin? then Round(s.myTime, 0) else s.client.q;
       q.start + q.phase == round
  }

  /** The clock has then passed that round. */
  lemma RoundLeft(c: Config, names: set<Origin>, s: State, step: Step, round: nat)
    requires ConfigValid(c, names) && Inv(c, names, s) && c.stubborn && Leaves(c, names, s, step, round)
    ensures Next(c, names, s, step).myTime == round + 1
  {
  }

  /** Step i of a run leaves this round. */
  ghost predicate LeavesAt(c: Config, names: set<Origin>, run: seq<Step>, i: nat, round: nat) {
    && i < |run| && ValidRun(c, names, INITIAL, run[..i])
    && Leaves(c, names, RunFrom(c, names, INITIAL, run[..i]), run[i], round)
  }

  /** The confirmations the client then finds. */
  ghost function ConfirmationsAt(c: Config, names: set<Origin>, run: seq<Step>, i: nat, round: nat): Confirmations
    requires LeavesAt(c, names, run, i, round)
  {
    Next(c, names, RunFrom(c, names, INITIAL, run[..i]), run[i]).confirmations
  }

  /** They are those of a majority. */
  lemma LeftConfirmed(c: Config, names: set<Origin>, run: seq<Step>, i: nat, round: nat)
    requires ConfigValid(c, names) && c.stubborn && LeavesAt(c, names, run, i, round)
    ensures Majority(c, ConfirmationsAt(c, names, run, i, round), round)
  {
    hide Next, Enabled;
    var s := RunFrom(c, names, INITIAL, run[..i]);
    RunKeeps(c, names, INITIAL, run[..i]);
    StepKeeps(c, names, s, run[i]);
    RoundLeft(c, names, s, run[i], round);
  }

  /** Without the timer a round may end unfinished, and is then reported. */
  lemma NoTimerNoRound(c: Config, names: set<Origin>, id: nat)
    requires !c.stubborn
    ensures ValidRun(c, names, INITIAL, [Begin(id)])
    ensures RunFrom(c, names, INITIAL, [Begin(id)]).errors == 1
  {
    assert [Begin(id)][1..] == [];
  }

  // ---- two nodes ----

  lemma MajoritiesMeet(names: set<Origin>, a: set<Origin>, b: set<Origin>)
    requires a <= names && b <= names && |a| > |names| / 2 && |b| > |names| / 2
    ensures exists o :: o in a && o in b
  {
    if a * b == {} {
      assert |a + b| == |a| + |b|;
      SubsetSize(a + b, names);
      assert false;
    }
    var o :| o in a * b;
    assert o in a && o in b;
  }

  /** Any two confirmations, of whatever nodes, messages and rounds, have a witness in common. */
  lemma SharedWitness(c: Config, d: Config, names: set<Origin>, run: seq<Step>, run': seq<Step>, k: nat, l: nat)
    requires ConfigValid(c, names) && ConfigValid(d, names)
    requires ValidRun(c, names, INITIAL, run) && ValidRun(d, names, INITIAL, run')
    requires k < |RunFrom(c, names, INITIAL, run).emitted| && l < |RunFrom(d, names, INITIAL, run').emitted|
    ensures var e, e' := RunFrom(c, names, INITIAL, run).emitted[k], RunFrom(d, names, INITIAL, run').emitted[l];
      exists o :: o in e.witnesses && o in e'.witnesses
  {
    var s, s' := RunFrom(c, names, INITIAL, run), RunFrom(d, names, INITIAL, run');
    RunKeeps(c, names, INITIAL, run);
    RunKeeps(d, names, INITIAL, run');
    assert Backed(c, names, s.emitted[k]) && Backed(d, names, s'.emitted[l]);
    MajoritiesMeet(names, s.emitted[k].witnesses, s'.emitted[l].witnesses);
  }

  /** Two nodes that have both completed a round have a confirming origin in common. */
  lemma SharedConfirmer(c: Config, d: Config, names: set<Origin>, run: seq<Step>, run': seq<Step>, r: nat)
    requires ConfigValid(c, names) && ConfigValid(d, names)
    requires ValidRun(c, names, INITIAL, run) && ValidRun(d, names, INITIAL, run')
    requires r < RunFrom(c, names, INITIAL, run).myTime && r < RunFrom(d, names, INITIAL, run').myTime
    ensures var s, s' := RunFrom(c, names, INITIAL, run), RunFrom(d, names, INITIAL, run');
      && r in s.confirmations && r in s'.confirmations
      && exists o :: o in s.confirmations[r] && o in s'.confirmations[r]
  {
    var s, s' := RunFrom(c, names, INITIAL, run), RunFrom(d, names, INITIAL, run');
    RunKeeps(c, names, INITIAL, run);
    RunKeeps(d, names, INITIAL, run');
    assert Majority(c, s.confirmations, r) && Majority(d, s'.confirmations, r);
    MajoritiesMeet(names, s.confirmations[r].Keys, s'.confirmations[r].Keys);
  }

  // ---- completed rounds ----

  /** The handler is about to change the confirmations of round r: it passed the clock check for r,
      maybe before the clock moved past r. */
  predicate ChangePending(s: State, r: nat)
    requires r in s.confirmations
  {
    && s.write.Some? && s.write.value.round == r
    && var m := s.write.value.c;
       !(m.origin in s.confirmations[r] && s.confirmations[r][m.origin] == m)
  }

  lemma StepFreezes(c: Config, names: set<Origin>, s: State, step: Step, r: nat)
    requires Inv(c, names, s) && Enabled(c, names, s, step)
    requires r < s.myTime && r in s.confirmations && !ChangePending(s, r)
    ensures var s' := Next(c, names, s, step);
      && r < s'.myTime && r in s'.confirmations && s'.confirmations[r] == s.confirmations[r]
      && !ChangePending(s', r)
  {
    if step.SaveWrite? && s.write.value.round == r {
      var m := s.write.value.c;
      assert s.confirmations[r][m.origin := m] == s.confirmations[r];
    }
  }

  lemma {:induction false} RunFreezes(c: Config, names: set<Origin>, s: State, run: seq<Step>, r: nat)
    requires ConfigValid(c, names) && Inv(c, names, s) && ValidRun(c, names, s, run)
    requires r < s.myTime && r in s.confirmations && !ChangePending(s, r)
    ensures var s' := RunFrom(c, names, s, run);
      r in s'.confirmations && s'.confirmations[r] == s.confirmations[r]
    decreases |run|
  {
    hide Inv, Next, ChangePending;
    if run != [] {
      StepKeeps(c, names, s, run[0]);
      StepFreezes(c, names, s, run[0], r);
      RunFreezes(c, names, Next(c, names, s, run[0]), run[1..], r);
    }
  }

  ghost predicate NeverChanges(c: Config, names: set<Origin>, s: State, r: nat)
    requires r in s.confirmations
  {
    forall run :: ValidRun(c, names, s, run) ==>
      var s' := RunFrom(c, names, s, run);
      r in s'.confirmations && s'.confirmations[r] == s.confirmations[r]
  }

  /** A pending change is one step away. */
  lemma PendingChangeLands(c: Config, names: set<Origin>, s: State, r: nat)
    requires r in s.confirmations && ChangePending(s, r)
    ensures !NeverChanges(c, names, s, r)
  {
    var run := [SaveWrite];
    assert run[1..] == [];
    assert ValidRun(c, names, s, run);
    var s' := RunFrom(c, names, s, run);
    assert s' == Next(c, names, s, SaveWrite);
    var m := s.write.value.c;
    assert s'.confirmations[r][m.origin] == m;
  }

  /** A completed round of a reachable state is final exactly when the handler is not about to change
      it. */
  lemma CompletedRoundFinal(c: Config, names: set<Origin>, run: seq<Step>, r: nat)
    requires ConfigValid(c, names) && ValidRun(c, names, INITIAL, run)
    requires r < RunFrom(c, names, INITIAL, run).myTime
    ensures var s := RunFrom(c, names, INITIAL, run);
      r in s.confirmations && (NeverChanges(c, names, s, r) <==> !ChangePending(s, r))
  {
    var s := RunFrom(c, names, INITIAL, run);
    RunKeeps(c, names, INITIAL, run);
    assert Majority(c, s.confirmations, r);
    if ChangePending(s, r) {
      PendingChangeLands(c, names, s, r);
    } else {
      forall more | ValidRun(c, names, s, more)
        ensures var s' := RunFrom(c, names, s, more);
          r in s'.confirmations && s'.confirmations[r] == s.confirmations[r]
      {
        RunFreezes(c, names, s, more, r);
      }
    }
  }

  /** Such a late change can happen, in a network of three: round 0 is completed between the two halves of
      saving the third confirmation for it. */
  lemma LateSaveChanges(a: Origin, b: Origin, d: Origin)
    requires a != b && a != d && b != d
    ensures var c, names := Config(a, 3, true), {a, b, d};
      exists run :: (
        && ConfigValid(c, names) && ValidRun(c, names, INITIAL, run)
        && var s := RunFrom(c, names, INITIAL, run);
           s.myTime == 1 && 0 in s.confirmations && !NeverChanges(c, names, s, 0))
  {
    hide NeverChanges, Next, Enabled;
    var c, names := Config(a, 3, true), {a, b, d};
    var run, s := OneSaved(a, b, d);
    var s1, s2, s3 := OneLate(a, b, d, s);
    RunSnoc(c, names, INITIAL, run, Ack(b, 0));
    RunSnoc(c, names, INITIAL, run + [Ack(b, 0)], SaveCheck(0, Confirmation(d, 0)));
    RunSnoc(c, names, INITIAL, run + [Ack(b, 0)] + [SaveCheck(0, Confirmation(d, 0))], Confirm);
    PendingChangeLands(c, names, s3, 0);
  }

  /** The node waits in round 0, and one confirmation is saved. */
  ghost predicate OneConfirmation(a: Origin, b: Origin, s: State) {
    s == State(0, map[0 := map[b := Confirmation(b, 0)]], Waiting(Round(0, 0), 0, {a}, false), None, [0], [], 0)
  }

  lemma OneSaved(a: Origin, b: Origin, d: Origin) returns (run: seq<Step>, s: State)
    requires a != b
    ensures var c, names := Config(a, 3, true), {a, b, d};
      ValidRun(c, names, INITIAL, run) && s == RunFrom(c, names, INITIAL, run) && OneConfirmation(a, b, s)
  {
    hide ValidRun, RunFrom;
    var c, names := Config(a, 3, true), {a, b, d};
    var early := Confirmation(b, 0);
    var s1 := Next(c, names, INITIAL, Begin(0));
    var s2 := Next(c, names, s1, SaveCheck(0, early));
    s := Next(c, names, s2, SaveWrite);
    EmptyRun(c, names, INITIAL);
    RunSnoc(c, names, INITIAL, [], Begin(0));
    RunSnoc(c, names, INITIAL, [] + [Begin(0)], SaveCheck(0, early));
    RunSnoc(c, names, INITIAL, [] + [Begin(0)] + [SaveCheck(0, early)], SaveWrite);
    run := [] + [Begin(0)] + [SaveCheck(0, early)] + [SaveWrite];
  }

  lemma OneLate(a: Origin, b: Origin, d: Origin, s: State) returns (s1: State, s2: State, s3: State)
    requires a != b && a != d && b != d && OneConfirmation(a, b, s)
    ensures var c, names := Config(a, 3, true), {a, b, d};
      && Enabled(c, names, s, Ack(b, 0)) && s1 == Next(c, names, s, Ack(b, 0))
      && Enabled(c, names, s1, SaveCheck(0, Confirmation(d, 0)))
      && s2 == Next(c, names, s1, SaveCheck(0, Confirmation(d, 0)))
      && Enabled(c, names, s2, Confirm) && s3 == Next(c, names, s2, Confirm)
      && s3.myTime == 1 && 0 in s3.confirmations && ChangePending(s3, 0)
  {
    var c, names := Config(a, 3, true), {a, b, d};
    assert {a} + {b} == {a, b};
    s1 := Next(c, names, s, Ack(b, 0));
    assert s1.confirmations[0].Keys == {a, b};
    s2 := Next(c, names, s1, SaveCheck(0, Confirmation(d, 0)));
    s3 := Next(c, names, s2, Confirm);
  }

  // ---- one consensus round in a run ----

  lemma {:induction false} RunSplit(c: Config, names: set<Origin>, s: State, run: seq<Step>)
    requires ValidRun(c, names, s, run) && run != []
    ensures var init, last := run[..|run| - 1], run[|run| - 1];
      && ValidRun(c, names, s, init) && Enabled(c, names, RunFrom(c, names, s, init), last)
      && RunFrom(c, names, s, run) == Next(c, names, RunFrom(c, names, s, init), last)
    decreases |run|
  {
    hide Next, Enabled;
    if |run| == 1 {
      assert run[..0] == [] && run[1..] == [];
    } else {
      RunSplit(c, names, Next(c, names, s, run[0]), run[1..]);
      assert run[..|run| - 1][1..] == run[1..][..|run| - 2];
    }
  }

  /** Step i leaves the TLC round q of a consensus round. */
  ghost predicate LeavesPhase(c: Config, names: set<Origin>, run: seq<Step>, i: nat, q: Round) {
    && LeavesAt(c, names, run, i, q.start + q.phase)
    && (q.phase > 0 ==> InRound(RunFrom(c, names, INITIAL, run[..i]), q))
  }

  predicate InRound(s: State, q: Round) {
    !s.client.Idle? && s.client.q == q
  }

  /** What a step does to the phase: it starts, stays, or moves on by leaving the one before. */
  lemma PhaseStep(c: Config, names: set<Origin>, s: State, step: Step, q: Round)
    requires ConfigValid(c, names) && Inv(c, names, s) && c.stubborn && Enabled(c, names, s, step)
    requires InRound(Next(c, names, s, step), q) && q.phase > 0
    ensures InRound(s, q) ||
      (Leaves(c, names, s, step, q.start + q.phase - 1)
       && (q.phase > 1 ==> InRound(s, Round(q.start, q.phase - 1))))
  {
  }

  /** A client past the first TLC round of a consensus round has left the one before. */
  lemma {:induction false} PhaseBefore(c: Config, names: set<Origin>, run: seq<Step>, q: Round) returns (i: nat)
    requires ConfigValid(c, names) && c.stubborn && ValidRun(c, names, INITIAL, run)
    requires InRound(RunFrom(c, names, INITIAL, run), q) && q.phase > 0
    ensures LeavesPhase(c, names, run, i, Round(q.start, q.phase - 1))
    decreases |run|
  {
    hide Next, Enabled, Leaves, Inv;
    assert run != [];
    var init, last := run[..|run| - 1], run[|run| - 1];
    RunSplit(c, names, INITIAL, run);
    var s := RunFrom(c, names, INITIAL, init);
    InitialInv(c, names);
    RunKeeps(c, names, INITIAL, init);
    PhaseStep(c, names, s, last, q);
    if InRound(s, q) {
      i := PhaseBefore(c, names, init, q);
      assert run[..i] == init[..i];
    } else {
      i := |init|;
    }
  }

  lemma InitialInv(c: Config, names: set<Origin>)
    ensures Inv(c, names, INITIAL)
  {
  }

  /** So whoever leaves the third TLC round of a consensus round has left the first two, in this order. */
  lemma ThreeLeft(c: Config, names: set<Origin>, run: seq<Step>, k: nat, start: nat) returns (i: nat, j: nat)
    requires ConfigValid(c, names) && c.stubborn && LeavesPhase(c, names, run, k, Round(start, 2))
    ensures i < j < k
    ensures LeavesAt(c, names, run, i, start) && LeavesAt(c, names, run, j, start + 1)
  {
    hide Next, Enabled, Leaves;
    j := PhaseBefore(c, names, run[..k], Round(start, 2));
    assert run[..k][..j] == run[..j];
    i := PhaseBefore(c, names, run[..j], Round(start, 1));
    assert run[..j][..i] == run[..i];
  }

  // ---- acknowledgements ----

  /** Who has acknowledged message id since a message was last gossiped. */
  ghost function Acked(run: seq<Step>, id: nat): set<Origin> {
    if run == [] then {} else
    var init, last := run[..|run| - 1], run[|run| - 1];
    if last.Begin? || last.Continue? then {}
    else if last.Ack? && last.id == id then Acked(init, id) + {last.origin}
    else Acked(init, id)
  }

  /** No message is gossiped from step i on. */
  predicate NoneGossiped(run: seq<Step>, i: nat) {
    forall j :: i <= j < |run| ==> !run[j].Begin? && !run[j].Continue?
  }

  lemma {:induction false} AckedMeans(run: seq<Step>, id: nat, o: Origin)
    ensures o in Acked(run, id) <==> exists i: nat :: i < |run| && run[i] == Ack(o, id) && NoneGossiped(run, i)
    decreases |run|
  {
    if run != [] {
      var init, n := run[..|run| - 1], |run| - 1;
      AckedMeans(init, id, o);
      if o in Acked(init, id) && !run[n].Begin? && !run[n].Continue? {
        var i: nat :| i < |init| && init[i] == Ack(o, id) && NoneGossiped(init, i);
        assert run[i] == Ack(o, id) && NoneGossiped(run, i);
      }
      if i: nat :| i < |run| && run[i] == Ack(o, id) && NoneGossiped(run, i) {
        if i < n { assert init[i] == Ack(o, id) && NoneGossiped(init, i); }
      }
      if run[n] == Ack(o, id) { assert NoneGossiped(run, n); }
    }
  }

  lemma AckedSnoc(run: seq<Step>, step: Step, id: nat)
    ensures Acked(run + [step], id) ==
      if step.Begin? || step.Continue? then {}
      else if step.Ack? && step.id == id then Acked(run, id) + {step.origin}
      else Acked(run, id)
  {
    assert (run + [step])[..|run|] == run;
  }

  /** Until the node confirms its message its witnesses are itself and the acknowledgers, and these are no
      majority yet; afterwards it may ignore some. */
  ghost predicate WitnessesAre(c: Config, s: State, run: seq<Step>) {
    s.client.Waiting? ==>
      var acked := Acked(run, s.client.id);
      && s.client.witnesses <= {c.self} + acked
      && (!s.client.delivered ==>
            s.client.witnesses == {c.self} + acked && (acked == {} || |s.client.witnesses| <= c.size / 2))
  }

  /** A confirmation sent by the last step of run, from s to s': after an acknowledgement it is for the
      message acknowledged and names the acknowledgers, otherwise it names the confirmers of the round that
      is completed. */
  ghost predicate Justified(c: Config, s: State, run: seq<Step>, s': State, e: Emission)
    requires run != []
  {
    match run[|run| - 1]
    case Ack(_, id) => s.client.Waiting? && e.id == id == s.client.id && e.witnesses == {c.self} + Acked(run, id)
    case Begin(id) => e.id == id && NamesConfirmers(s, s', e)
    case Continue(id) => e.id == id && NamesConfirmers(s, s', e)
    case Confirm => s.client.Waiting? && e.id == s.client.id && NamesConfirmers(s, s', e)
    case _ => false
  }

  ghost predicate NamesConfirmers(s: State, s': State, e: Emission) {
    s.myTime in s.confirmations && e.witnesses == s.confirmations[s.myTime].Keys && s'.myTime == s.myTime + 1
  }

  lemma WitnessStep(c: Config, names: set<Origin>, s: State, run: seq<Step>, step: Step)
    requires Enabled(c, names, s, step) && WitnessesAre(c, s, run)
    ensures WitnessesAre(c, Next(c, names, s, step), run + [step])
  {
    hide Acked;
    match step
    case Ack(origin, id) =>
      WitnessAck(c, s, run, origin, id);
    case Begin(id) =>
      AckedSnoc(run, step, id);
    case Continue(id) =>
      AckedSnoc(run, step, id);
    case _ =>
      AckedSnoc(run, step, if s.client.Waiting? then s.client.id else 0);
  }

  lemma WitnessAck(c: Config, s: State, run: seq<Step>, origin: Origin, id: nat)
    requires s.client.Waiting? && WitnessesAre(c, s, run)
    ensures WitnessesAre(c, OnAck(c, s, origin, id), run + [Ack(origin, id)])
  {
    hide Acked, Saved;
    AckedSnoc(run, Ack(origin, id), s.client.id);
    if !s.client.delivered {
      assert s.client.witnesses + {origin} == {c.self} + (Acked(run, s.client.id) + {origin});
    }
  }

  lemma EmitStep(c: Config, names: set<Origin>, s: State, run: seq<Step>, step: Step)
    requires Enabled(c, names, s, step) && WitnessesAre(c, s, run)
    ensures var s', more := Next(c, names, s, step), run + [step];
      && s.emitted <= s'.emitted && |s'.emitted| <= |s.emitted| + 1
      && (|s'.emitted| > |s.emitted| ==> Justified(c, s, more, s', s'.emitted[|s.emitted|]))
  {
    hide Acked, Saved;
    AckedSnoc(run, step, if s.client.Waiting? then s.client.id else 0);
    if step.Ack? && !s.client.delivered {
      assert s.client.witnesses + {step.origin} == {c.self} + (Acked(run, s.client.id) + {step.origin});
    }
  }

  /** Confirmation k was sent by step i of the run. */
  ghost predicate SentAt(c: Config, names: set<Origin>, run: seq<Step>, i: nat, k: nat, e: Emission) {
    && i < |run| && ValidRun(c, names, INITIAL, run[..i]) && ValidRun(c, names, INITIAL, run[..i + 1])
    && var s, s' := RunFrom(c, names, INITIAL, run[..i]), RunFrom(c, names, INITIAL, run[..i + 1]);
    && |s.emitted| == k < |s'.emitted| && s'.emitted[k] == e && Justified(c, s, run[..i + 1], s', e)
  }

  ghost predicate WasSent(c: Config, names: set<Origin>, run: seq<Step>, k: nat, e: Emission) {
    exists i: nat :: SentAt(c, names, run, i, k, e)
  }

  lemma {:induction false} WitnessesAcked(c: Config, names: set<Origin>, run: seq<Step>)
    requires ValidRun(c, names, INITIAL, run)
    ensures WitnessesAre(c, RunFrom(c, names, INITIAL, run), run)
    decreases |run|
  {
    hide Next, Enabled, WitnessesAre;
    if run != [] {
      var init, last := run[..|run| - 1], run[|run| - 1];
      RunSplit(c, names, INITIAL, run);
      WitnessesAcked(c, names, init);
      WitnessStep(c, names, RunFrom(c, names, INITIAL, init), init, last);
      assert init + [last] == run;
    } else {
      NothingWaits(c);
    }
  }

  lemma {:induction false} SentSomewhere(c: Config, names: set<Origin>, run: seq<Step>, k: nat) returns (i: nat)
    requires ValidRun(c, names, INITIAL, run) && k < |RunFrom(c, names, INITIAL, run).emitted|
    ensures SentAt(c, names, run, i, k, RunFrom(c, names, INITIAL, run).emitted[k])
    decreases |run|
  {
    hide Next, Enabled, WitnessesAre, Justified, Acked, SentAt;
    assert run != [];
    var init, last := run[..|run| - 1], run[|run| - 1];
    RunSplit(c, names, INITIAL, run);
    var s, s' := RunFrom(c, names, INITIAL, init), RunFrom(c, names, INITIAL, run);
    WitnessesAcked(c, names, init);
    EmitStep(c, names, s, init, last);
    assert init + [last] == run;
    if k < |s.emitted| {
      i := SentSomewhere(c, names, init, k);
      StillSentAt(c, names, init, last, i, k, s.emitted[k]);
    } else {
      i := |init|;
      LastSent(c, names, run, k);
    }
  }

  /** Over every run: while the node waits, its witnesses have acknowledged the very message it gossips, and
      each confirmation it has sent names either the acknowledgers of its message or the confirmers of the
      round it completed. */
  lemma AcksCount(c: Config, names: set<Origin>, run: seq<Step>)
    requires ValidRun(c, names, INITIAL, run)
    ensures var s := RunFrom(c, names, INITIAL, run);
      && WitnessesAre(c, s, run)
      && forall k: nat :: k < |s.emitted| ==> WasSent(c, names, run, k, s.emitted[k])
  {
    hide SentAt, WitnessesAre;
    var s := RunFrom(c, names, INITIAL, run);
    WitnessesAcked(c, names, run);
    forall k: nat | k < |s.emitted| ensures WasSent(c, names, run, k, s.emitted[k]) {
      var i := SentSomewhere(c, names, run, k);
    }
  }

  lemma NothingWaits(c: Config)
    ensures WitnessesAre(c, INITIAL, [])
  {
  }

  lemma StillSentAt(c: Config, names: set<Origin>, init: seq<Step>, last: Step, i: nat, k: nat, e: Emission)
    requires SentAt(c, names, init, i, k, e)
    ensures SentAt(c, names, init + [last], i, k, e)
  {
    assert (init + [last])[..i] == init[..i] && (init + [last])[..i + 1] == init[..i + 1];
  }

  lemma LastSent(c: Config, names: set<Origin>, run: seq<Step>, k: nat)
    requires run != [] && ValidRun(c, names, INITIAL, run) && ValidRun(c, names, INITIAL, run[..|run| - 1])
    requires var s, s' := RunFrom(c, names, INITIAL, run[..|run| - 1]), RunFrom(c, names, INITIAL, run);
      |s.emitted| == k < |s'.emitted| && Justified(c, s, run, s', s'.emitted[k])
    ensures SentAt(c, names, run, |run| - 1, k, RunFrom(c, names, INITIAL, run).emitted[k])
  {
    hide Justified;
    assert run[..|run| - 1 + 1] == run;
  }

  // ---- what moves the node on ----

  /** The clock moves exactly when the client looks at a round that a majority has confirmed, which it does
      when it gossips and at each notification; it then comes back, and otherwise, with a resend timer,
      waits. */
  lemma ClockMovesIff(c: Config, names: set<Origin>, s: State, step: Step)
    requires Enabled(c, names, s, step)
    ensures var s' := Next(c, names, s, step);
      var looks := step.Begin? || step.Continue? || step.Confirm?;
      var moves := looks && s.myTime in s.confirmations && |s.confirmations[s.myTime]| > c.size / 2;
      && s'.myTime == s.myTime + (if moves then 1 else 0)
      && (looks && c.stubborn ==> (s'.client.Waiting? <==> !moves))
  {
  }

  /** A consensus round goes on to its third TLC round, and ends with it. */
  lemma PhaseAfter(c: Config, names: set<Origin>, s: State, step: Step, round: nat)
    requires ConfigValid(c, names) && Inv(c, names, s) && c.stubborn && Leaves(c, names, s, step, round)
    ensures var q := if step.Begin? then Round(s.myTime, 0) else s.client.q;
      Next(c, names, s, step).client == if q.phase == 2 then Idle else Ready(Round(q.start, q.phase + 1))
  {
  }

  predicate Holds(confirmations: Confirmations, round: nat, o: Origin, m: Confirmation) {
    round in confirmations && o in confirmations[round] && confirmations[round][o] == m
  }

  /** A confirmation that comes in is saved exactly when its round is not over, under its round and origin,
      and disturbs no other. */
  lemma SaveTakes(c: Config, names: set<Origin>, s: State, round: nat, m: Confirmation)
    requires Enabled(c, names, s, SaveCheck(round, m))
    ensures var s1 := Next(c, names, s, SaveCheck(round, m));
      if round < s.myTime then s1 == s else
      && Enabled(c, names, s1, SaveWrite)
      && var s2 := Next(c, names, s1, SaveWrite);
      && s2 == s.(confirmations := s2.confirmations)
      && forall r, o, n :: Holds(s2.confirmations, r, o, n) <==>
           if r == round && o == m.origin then n == m else Holds(s.confirmations, r, o, n)
  {
  }

  // ---- the node ----

  lemma EmptyRun(c: Config, names: set<Origin>, s: State)
    ensures ValidRun(c, names, s, []) && RunFrom(c, names, s, []) == s
  {
  }

  lemma {:induction false} RunSnoc(c: Config, names: set<Origin>, s: State, run: seq<Step>, step: Step)
    requires ValidRun(c, names, s, run) && Enabled(c, names, RunFrom(c, names, s, run), step)
    ensures ValidRun(c, names, s, run + [step])
    ensures RunFrom(c, names, s, run + [step]) == Next(c, names, RunFrom(c, names, s, run), step)
    decreases |run|
  {
    hide Next;
    if run == [] {
      assert run + [step] == [step] && [step][1..] == [];
    } else {
      assert (run + [step])[1..] == run[1..] + [step];
      RunSnoc(c, names, Next(c, names, s, run[0]), run[1..], step);
    }
  }

  class BlockchainHandler {
    const c: Config
    ghost const names: set<Origin>
    var myTime: nat
    var confirmations: Confirmations
    var client: Client
    var write: Option<Write>
    var gossiped: seq<nat>
    var emitted: seq<Emission>
    var errors: nat

    ghost function View(): State
      reads this
    {
      State(myTime, confirmations, client, write, gossiped, emitted, errors)
    }

    constructor (c: Config, ghost names: set<Origin>)
      ensures View() == INITIAL && this.c == c && this.names == names
    {
      this.c, this.names := c, names;
      myTime, confirmations, client, write := 0, map[], Idle, None;
      gossiped, emitted, errors := [], [], 0;
    }

    /** The unlocked part of saveConfirmation: only the clock is read. */
    method CheckRound(round: nat, m: Confirmation)
      requires Enabled(c, names, View(), SaveCheck(round, m))
      modifies this
      ensures View() == Next(c, names, old(View()), SaveCheck(round, m))
    {
      if round >= myTime {
        write := Some(Write(round, m));
      }
    }

    method StoreConfirmation()
      requires Enabled(c, names, View(), SaveWrite)
      modifies this
      ensures View() == Next(c, names, old(View()), SaveWrite)
    {
      var Write(round, m) := write.value;
      write := None;
      Store(round, m);
    }

    method Store(round: nat, m: Confirmation)
      modifies this`confirmations
      ensures confirmations == Saved(old(confirmations), round, m)
    {
      if round !in confirmations {
        confirmations := confirmations[round := map[]];
      }
      confirmations := confirmations[round := confirmations[round][m.origin := m]];
    }

    method CheckForConfirmationsMajority(id: nat, delivered: bool) returns (done: bool)
      modifies this`myTime, this`emitted
      ensures done == Majority(c, confirmations, old(myTime))
      ensures myTime == old(myTime) + (if done then 1 else 0)
      ensures emitted == old(emitted) +
        (if done && !delivered then [Emission(id, confirmations[old(myTime)].Keys)] else [])
    {
      done := false;
      if myTime in confirmations && |confirmations[myTime]| > c.size / 2 {
        var round := myTime;
        myTime := myTime + 1;
        if !delivered {
          emitted := emitted + [Emission(id, confirmations[round].Keys)];
        }
        done := true;
      }
    }

    /** Back in qscRound after a tlcRound. */
    method FinishRound(q: Round)
      modifies this`client, this`errors
      ensures View() == AfterRound(old(View()), q)
    {
      if q.start + q.phase !in confirmations {
        client := Idle;
        errors := errors + 1;
      } else if q.phase >= 2 {
        client := Idle;
      } else {
        client := Ready(Round(q.start, q.phase + 1));
      }
    }

    method Enter(q: Round, id: nat)
      modifies this
      ensures View() == Entered(c, old(View()), q, id)
    {
      gossiped := gossiped + [id];
      var done := CheckForConfirmationsMajority(id, false);
      if done {
        FinishRound(q);
      } else if c.stubborn {
        client := Waiting(q, id, {c.self}, false);
      } else {
        FinishRound(q);
      }
    }

    method HandleAck(origin: Origin, id: nat)
      requires client.Waiting?
      modifies this
      ensures View() == OnAck(c, old(View()), origin, id)
    {
      var Waiting(q, mine, witnesses, delivered) := client;
      if id == mine && !delivered {
        witnesses := witnesses + {origin};
        client := Waiting(q, mine, witnesses, false);
        if |witnesses| > c.size / 2 {
          emitted := emitted + [Emission(mine, witnesses)];
          client := Waiting(q, mine, witnesses, true);
          Store(myTime, Confirmation(c.self, mine));
        }
      }
    }

    method HandleConfirm()
      requires client.Waiting?
      modifies this
      ensures View() == Next(c, names, old(View()), Confirm)
    {
      var q := client.q;
      var done := CheckForConfirmationsMajority(client.id, client.delivered);
      if done {
        FinishRound(q);
      }
    }

    /** The event loop of gossipWithConfirmation on the events of its two channels: it is a run of the
        state machine, and stops at the first event that completes the round. */
    method GossipWithConfirmation(q: Round, id: nat, events: seq<Step>) returns (used: nat)
      requires forall i :: 0 <= i < |events| ==>
        (events[i].Ack? && events[i].origin in names - {c.self}) || events[i].Confirm?
      modifies this
      ensures used <= |events|
      ensures var s := Entered(c, old(View()), q, id);
        && ValidRun(c, names, s, events[..used])
        && View() == RunFrom(c, names, s, events[..used])
      ensures client.Waiting? ==> used == |events|
    {
      hide Entered, OnAck, Complete, ValidRun, RunFrom;
      Enter(q, id);
      ghost var s := View();
      used := 0;
      EmptyRun(c, names, s);
      assert events[..0] == [];
      while used < |events| && client.Waiting?
        invariant used <= |events|
        invariant ValidRun(c, names, s, events[..used]) && View() == RunFrom(c, names, s, events[..used])
      {
        assert events[..used + 1] == events[..used] + [events[used]];
        RunSnoc(c, names, s, events[..used], events[used]);
        match events[used] {
          case Ack(origin, ack) => HandleAck(origin, ack);
          case Confirm => HandleConfirm();
          case _ =>
        }
        used := used + 1;
      }
    }
  }
}
