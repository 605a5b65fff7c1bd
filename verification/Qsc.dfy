/** The decision rule of gossiper/qsc.go: the best message of the first step wins if the node saw no
    rival and the second step reconfirmed it. */
module Qsc {
  import opened Basics
  import opened BlockChain
  import Tlc

  type Origin = string

  /** The fields that matter here of gossiper/header.go:162-169. */
  datatype TLCMessage = TLCMessage(origin: Origin, id: nat, txBlock: BlockPublish, fitness: real)

  type Messages = map<Origin, TLCMessage>

  const NO_MESSAGE := TLCMessage("", 0, BlockPublish(ZERO, TxPublish([], 0, [])), 0.0)

  /** A message of greatest fitness, or the empty message when no fitness is positive. */
  predicate IsBest(all: Messages, m: TLCMessage) {
    && (forall o :: o in all ==> all[o].fitness <= m.fitness)
    && if m.fitness > 0.0 then m in all.Values else m == NO_MESSAGE
  }

  method GetTLCWithHighestFitness(all: Messages) returns (best: TLCMessage)
    ensures IsBest(all, best)
  {
    best := NO_MESSAGE;
    var rest := all.Keys;
    while rest != {}
      invariant rest <= all.Keys
      invariant forall o :: o in all && o !in rest ==> all[o].fitness <= best.fitness
      invariant best == NO_MESSAGE || (best.fitness > 0.0 && best in all.Values)
      decreases |rest|
    {
      var o :| o in rest;
      if all[o].fitness > best.fitness {
        best := all[o];
      }
      rest := rest - {o};
    }
  }

  predicate SameBlock(sha: Sha, a: TLCMessage, b: TLCMessage) {
    BlockHash(sha, a.txBlock) == BlockHash(sha, b.txBlock)
  }

  /** No message seen for another block is as fit. */
  predicate Unrivalled(sha: Sha, seen: Messages, best: TLCMessage) {
    forall o :: o in seen ==> seen[o].fitness >= best.fitness ==> SameBlock(sha, seen[o], best)
  }

  predicate Reconfirmed(sha: Sha, second: Messages, best: TLCMessage) {
    exists o :: o in second && SameBlock(sha, second[o], best)
  }

  predicate Decides(sha: Sha, first: Messages, second: Messages, seen: Messages, best: TLCMessage) {
    IsBest(first, best) && Unrivalled(sha, seen, best) && Reconfirmed(sha, second, best)
  }

  /** The code panics when it has seen no message of the round. */
  datatype Verdict = Panics | NoConsensus | Consensus(message: TLCMessage)

  /** What checkIfConsensusReached may return: which of several best messages it takes depends on the
      order of the map. */
  ghost predicate IsVerdict(sha: Sha, first: Messages, second: Messages, seen: Option<Messages>, v: Verdict) {
    match v
    case Panics => seen.None?
    case Consensus(m) => seen.Some? && Decides(sha, first, second, seen.value, m)
    case NoConsensus =>
      seen.Some? && exists m: TLCMessage ::
        IsBest(first, m) && !Decides(sha, first, second, seen.value, m)
  }

  method CheckIfConsensusReached(sha: Sha, first: Messages, second: Messages, seen: Option<Messages>)
    returns (v: Verdict)
    ensures IsVerdict(sha, first, second, seen, v)
    ensures v.Panics? <==> seen.None?
    ensures v.Consensus? ==>
      && (exists o :: o in second && SameBlock(sha, second[o], v.message))
      && (forall o :: o in first ==> first[o].fitness <= v.message.fitness)
      && (forall o :: o in seen.value && seen.value[o].fitness >= v.message.fitness ==>
            SameBlock(sha, seen.value[o], v.message))
    ensures v.NoConsensus? ==>
      exists best: TLCMessage :: (
        && IsBest(first, best)
        && ((forall o :: o in second ==> !SameBlock(sha, second[o], best))
            || (exists o :: o in seen.value && seen.value[o].fitness >= best.fitness
                  && !SameBlock(sha, seen.value[o], best))))
  {
    var best := GetTLCWithHighestFitness(first);
    if seen.None? {
      return Panics;
    }
    var saw := seen.value;
    var rest := saw.Keys;
    while rest != {}
      invariant rest <= saw.Keys
      invariant forall o :: o in saw && o !in rest && saw[o].fitness >= best.fitness ==> SameBlock(sha, saw[o], best)
      decreases |rest|
    {
      var o :| o in rest;
      if saw[o].fitness >= best.fitness && BlockHash(sha, saw[o].txBlock) != BlockHash(sha, best.txBlock) {
        assert !Unrivalled(sha, saw, best);
        return NoConsensus;
      }
      rest := rest - {o};
    }
    rest := second.Keys;
    while rest != {}
      invariant rest <= second.Keys
      invariant forall o :: o in second && o !in rest ==> !SameBlock(sha, second[o], best)
      decreases |rest|
    {
      var o :| o in rest;
      if BlockHash(sha, second[o].txBlock) == BlockHash(sha, best.txBlock) {
        assert Decides(sha, first, second, saw, best);
        return Consensus(best);
      }
      rest := rest - {o};
    }
    assert !Reconfirmed(sha, second, best);
    return NoConsensus;
  }

  // ---- agreement ----

  /** seen holds a message for m's block that is at least as fit as f. */
  predicate HasSeen(sha: Sha, seen: Messages, m: TLCMessage, f: real) {
    exists o :: o in seen && SameBlock(sha, seen[o], m) && seen[o].fitness >= f
  }

  /** A node never decides against a block it has seen at its own best fitness or above. */
  lemma DecisionBlocksRivals(sha: Sha, first: Messages, second: Messages, seen: Messages,
                             best: TLCMessage, m: TLCMessage)
    requires Decides(sha, first, second, seen, best)
    ensures HasSeen(sha, seen, m, best.fitness) ==> SameBlock(sha, best, m)
  {
  }

  /** Two nodes that decide choose the same block if the one with the less fit decision has seen the
      other's block with its fitness. */
  lemma Agreement(sha: Sha, first: Messages, second: Messages, seen: Messages, a: TLCMessage,
                  first': Messages, second': Messages, seen': Messages, b: TLCMessage)
    requires IsVerdict(sha, first, second, Some(seen), Consensus(a))
    requires IsVerdict(sha, first', second', Some(seen'), Consensus(b))
    requires a.fitness <= b.fitness ==> HasSeen(sha, seen, b, b.fitness)
    requires b.fitness <= a.fitness ==> HasSeen(sha, seen', a, a.fitness)
    ensures SameBlock(sha, a, b)
  {
    if a.fitness <= b.fitness {
      assert HasSeen(sha, seen, b, a.fitness);
      DecisionBlocksRivals(sha, first, second, seen, a, b);
    } else {
      assert HasSeen(sha, seen', a, b.fitness);
      DecisionBlocksRivals(sha, first', second', seen', b, a);
    }
  }

  /** Both no consensus, or both for the same block. */
  predicate SameVerdict(sha: Sha, v: Verdict, w: Verdict) {
    (v.Consensus? <==> w.Consensus?) && (v.Consensus? && w.Consensus? ==> SameBlock(sha, v.message, w.message))
  }

  ghost predicate OrderIrrelevant(sha: Sha, first: Messages, second: Messages, seen: Messages) {
    forall v, w ::
      IsVerdict(sha, first, second, Some(seen), v) && IsVerdict(sha, first, second, Some(seen), w) ==>
        SameVerdict(sha, v, w)
  }

  /** The map order does not matter exactly when no best message is for another block than one that can
      be decided. */
  lemma OrderIrrelevantIff(sha: Sha, first: Messages, second: Messages, seen: Messages)
    ensures OrderIrrelevant(sha, first, second, seen) <==>
      forall m: TLCMessage, n: TLCMessage ::
        Decides(sha, first, second, seen, m) && IsBest(first, n) ==> SameBlock(sha, m, n)
  {
    hide Decides, IsBest, SameBlock;
    if OrderIrrelevant(sha, first, second, seen) {
      forall m: TLCMessage, n: TLCMessage | Decides(sha, first, second, seen, m) && IsBest(first, n)
        ensures SameBlock(sha, m, n)
      {
        var w := if Decides(sha, first, second, seen, n) then Consensus(n) else NoConsensus;
        assert IsVerdict(sha, first, second, Some(seen), w);
        assert IsVerdict(sha, first, second, Some(seen), Consensus(m));
      }
    }
    if forall m: TLCMessage, n: TLCMessage ::
      Decides(sha, first, second, seen, m) && IsBest(first, n) ==> SameBlock(sha, m, n)
    {
      forall v, w | IsVerdict(sha, first, second, Some(seen), v) && IsVerdict(sha, first, second, Some(seen), w)
        ensures SameVerdict(sha, v, w)
      {
        if v.Consensus? { ConsensusForced(sha, first, second, seen, v.message, w); }
        if w.Consensus? { ConsensusForced(sha, first, second, seen, w.message, v); }
      }
    }
  }

  /** So it does not matter to a node that has seen the blocks of its best messages. */
  lemma OrderIrrelevantWhenSeen(sha: Sha, first: Messages, second: Messages, seen: Messages)
    requires forall m: TLCMessage :: IsBest(first, m) ==> HasSeen(sha, seen, m, m.fitness)
    ensures OrderIrrelevant(sha, first, second, seen)
  {
    OrderIrrelevantIff(sha, first, second, seen);
    forall m: TLCMessage, n: TLCMessage | Decides(sha, first, second, seen, m) && IsBest(first, n)
      ensures SameBlock(sha, m, n)
    {
      BestEquallyFit(first, m, n);
      DecisionBlocksRivals(sha, first, second, seen, m, n);
    }
  }

  lemma BestEquallyFit(all: Messages, m: TLCMessage, n: TLCMessage)
    requires IsBest(all, m) && IsBest(all, n)
    ensures m.fitness == n.fitness
  {
    if m.fitness > 0.0 {
      var o :| o in all && all[o] == m;
    }
    if n.fitness > 0.0 {
      var o :| o in all && all[o] == n;
    }
  }

  lemma ConsensusForced(sha: Sha, first: Messages, second: Messages, seen: Messages, m: TLCMessage, w: Verdict)
    requires Decides(sha, first, second, seen, m) && IsVerdict(sha, first, second, Some(seen), w)
    requires forall n: TLCMessage :: IsBest(first, n) ==> SameBlock(sha, m, n)
    ensures w.Consensus? && SameBlock(sha, m, w.message)
  {
    var n: TLCMessage :|
      IsBest(first, n) && w == if Decides(sha, first, second, seen, n) then Consensus(n) else NoConsensus;
    BestEquallyFit(first, m, n);
    assert Unrivalled(sha, seen, n);
    var o :| o in second && SameBlock(sha, second[o], m);
    assert SameBlock(sha, second[o], n);
  }

  /** When nothing as fit has been seen it does matter: of two equally fit messages either may be decided. */
  lemma OrderMatters(sha: Sha, a: TLCMessage, b: TLCMessage, seen: Messages)
    requires a.fitness == b.fitness > 0.0 && !SameBlock(sha, a, b)
    requires forall o :: o in seen ==> seen[o].fitness < a.fitness
    ensures var all := map["a" := a, "b" := b];
      && IsVerdict(sha, all, all, Some(seen), Consensus(a))
      && IsVerdict(sha, all, all, Some(seen), Consensus(b))
      && !OrderIrrelevant(sha, all, all, seen)
  {
    var all := map["a" := a, "b" := b];
    assert all["a"] == a && all["b"] == b;
    assert a in all.Values && b in all.Values;
    assert !SameVerdict(sha, Consensus(a), Consensus(b));
  }

  // ---- agreement on the chain ----

  /** One node's view of one QSC round: the confirmations of its first two steps, the messages seen in
      the first, what was decided, and the best message of the second step. */
  datatype RoundView = RoundView(
    first: Messages, second: Messages, seen: Option<Messages>, verdict: Verdict, proposal: TLCMessage)
  {
    ghost predicate Valid(sha: Sha) {
      IsVerdict(sha, first, second, seen, verdict) && !verdict.Panics? && IsBest(second, proposal)
    }

    function Outcome(): Outcome {
      if verdict.Consensus? then Decided(verdict.message.txBlock.transaction) else Undecided(proposal.txBlock)
    }
  }

  /** In this round both nodes decide or neither; the one with the less fit decision has seen the
      other's block; and the hashes of the two blocks do not collide. */
  predicate Compatible(sha: Sha, v: RoundView, w: RoundView) {
    && (v.verdict.Consensus? <==> w.verdict.Consensus?)
    && (v.verdict.Consensus? && v.seen.Some? && w.seen.Some? ==>
          var a, b := v.verdict.message, w.verdict.message;
          && (a.fitness <= b.fitness ==> HasSeen(sha, v.seen.value, b, b.fitness))
          && (b.fitness <= a.fitness ==> HasSeen(sha, w.seen.value, a, a.fitness))
          && HashesTellApart(sha, a.txBlock, b.txBlock))
  }

  /** Two outcomes that move equal tops to equal tops. */
  predicate SameChoice(o: Outcome, o': Outcome) {
    if o.Decided? && o'.Decided? then SameTx(o.tx, o'.tx) else o.Undecided? && o'.Undecided?
  }

  lemma RoundAgrees(sha: Sha, v: RoundView, w: RoundView)
    requires v.Valid(sha) && w.Valid(sha) && Compatible(sha, v, w)
    ensures SameChoice(v.Outcome(), w.Outcome())
  {
    hide HasSeen, Decides, NoCollision;
    if v.verdict.Consensus? {
      var a, b := v.verdict.message, w.verdict.message;
      Agreement(sha, v.first, v.second, v.seen.value, a, w.first, w.second, w.seen.value, b);
      HashBinds(sha, a.txBlock, b.txBlock);
    }
  }

  /** From equal tops, and with fresh commits that do not collide, two outcomes lead to equal tops again
      exactly when they are the same choice: a node that decides alone leaves the other behind. */
  lemma RoundAgreesIff(sha: Sha, l: Ledger, l': Ledger, o: Outcome, o': Outcome)
    requires Chained(l) && Chained(l') && l.top == l'.top
    requires (o.Decided? ==> Fresh(sha, l, o.tx)) && (o'.Decided? ==> Fresh(sha, l', o'.tx))
    requires o.Decided? && o'.Decided? ==> HashesTellApart(sha, NewBlock(l, o.tx), NewBlock(l', o'.tx))
    ensures RoundEnd(sha, l, o).top == RoundEnd(sha, l', o').top <==> SameChoice(o, o')
  {
    TopCommitted(l);
    TopCommitted(l');
    if o.Decided? && o'.Decided? {
      HashBinds(sha, NewBlock(l, o.tx), NewBlock(l', o'.tx));
    }
  }

  lemma TopCommitted(l: Ledger)
    requires Chained(l)
    ensures l.top == ZERO || l.top in l.committed
  {
    var trail :| CoveredBy(l, trail);
  }

  function Outcomes(views: seq<RoundView>): seq<Outcome> {
    seq(|views|, i requires 0 <= i < |views| => views[i].Outcome())
  }

  lemma {:induction false} SameDecisions(run: seq<Outcome>, run': seq<Outcome>)
    requires |run| == |run'| && forall i :: 0 <= i < |run| ==> SameChoice(run[i], run'[i])
    ensures SameTxs(Decisions(run), Decisions(run'))
    decreases |run|
  {
    if run != [] {
      assert SameChoice(run[0], run'[0]);
      forall i | 0 <= i < |run[1..]| ensures SameChoice(run[1..][i], run'[1..][i]) {
        assert SameChoice(run[i + 1], run'[i + 1]);
      }
      SameDecisions(run[1..], run'[1..]);
    }
  }

  /** After any rounds, whoever decided when, two nodes have the same top exactly when they have decided the
      same transactions in the same order, unless blocks of their chains collide. */
  lemma TopsAgreeIff(sha: Sha, run: seq<Outcome>, run': seq<Outcome>)
    requires ChainsApart(sha, Decisions(run), Decisions(run'))
    ensures After(sha, EMPTY, run).top == After(sha, EMPTY, run').top <==> SameTxs(Decisions(run), Decisions(run'))
  {
    TopAfter(sha, EMPTY, [], run);
    TopAfter(sha, EMPTY, [], run');
    assert [] + Decisions(run) == Decisions(run) && [] + Decisions(run') == Decisions(run');
    TopFixesChain(sha, Decisions(run), Decisions(run'));
  }

  /** Agreement over whole runs: two nodes whose views are compatible round by round decide the same
      transactions, reach the same top, and, while no block clashes with the histories, have chains that
      list the same names in order. */
  lemma NodesAgree(sha: Sha, views: seq<RoundView>, views': seq<RoundView>)
    requires |views| == |views'|
    requires forall i :: 0 <= i < |views| ==>
      views[i].Valid(sha) && views'[i].Valid(sha) && Compatible(sha, views[i], views'[i])
    ensures var run, run' := Outcomes(views), Outcomes(views');
      && SameTxs(Decisions(run), Decisions(run'))
      && After(sha, EMPTY, run).top == After(sha, EMPTY, run').top
      && (NoClashes(sha, EMPTY, run) && NoClashes(sha, EMPTY, run') ==>
            exists names :: Lists(After(sha, EMPTY, run), names) && Lists(After(sha, EMPTY, run'), names))
  {
    hide Compatible, SameChoice, RoundView.Valid, RoundView.Outcome, Lists, NoClashes, Chained, CoveredBy, SameTxs,
      DecidedNames, Decisions, After, AllFresh;
    var run, run' := Outcomes(views), Outcomes(views');
    forall i | 0 <= i < |run| ensures SameChoice(run[i], run'[i]) {
      RoundAgrees(sha, views[i], views'[i]);
    }
    SameDecisions(run, run');
    SameTops(sha, run, run');
    NamesOfDecisions(run, run');
    EmptyChained();
    FreshRunUnlessClash(sha, EMPTY, run);
    FreshRunUnlessClash(sha, EMPTY, run');
    if AllFresh(sha, EMPTY, run) && AllFresh(sha, EMPTY, run') {
      RunListsNames(sha, EMPTY, [], run);
      RunListsNames(sha, EMPTY, [], run');
      assert [] + DecidedNames(run) == [] + DecidedNames(run');
    }
  }

  lemma SameTops(sha: Sha, run: seq<Outcome>, run': seq<Outcome>)
    requires SameTxs(Decisions(run), Decisions(run'))
    ensures After(sha, EMPTY, run).top == After(sha, EMPTY, run').top
  {
    TopAfter(sha, EMPTY, [], run);
    TopAfter(sha, EMPTY, [], run');
    assert [] + Decisions(run) == Decisions(run) && [] + Decisions(run') == Decisions(run');
    SameTxsTop(sha, Decisions(run), Decisions(run'));
  }

  lemma {:induction false} SameTxsTop(sha: Sha, txs: seq<TxPublish>, txs': seq<TxPublish>)
    requires SameTxs(txs, txs')
    ensures TopOf(sha, txs) == TopOf(sha, txs')
    decreases |txs|
  {
    if txs != [] {
      SameTxsSnoc(txs, txs');
      SameTxsTop(sha, txs[..|txs| - 1], txs'[..|txs'| - 1]);
    }
  }

  // ---- the round ----

  /** How qscRound ends. */
  datatype RoundResult = NoNewRound | Crashed | Done(view: RoundView)

  /** qscRound, given what the confirmations map held after each of its three TLC rounds. proposals are the
      blocks gossiped in the second and third. */
  method QscRound(chain: Blockchain, first: Option<Messages>, second: Option<Messages>, third: Option<Messages>,
                  seen: Option<Messages>)
    returns (proposals: seq<TLCMessage>, result: RoundResult)
    modifies chain
    ensures |proposals| == if first.None? then 0 else if second.None? then 1 else 2
    ensures |proposals| > 0 ==> IsBest(first.value, proposals[0])
    ensures |proposals| > 1 ==> IsBest(second.value, proposals[1])
    ensures result.NoNewRound? <==> first.None? || second.None? || third.None?
    ensures result.Crashed? ==> seen.None?
    ensures result.Done? ==>
      && result.view.Valid(chain.sha) && result.view.seen == seen
      && Some(result.view.first) == first && Some(result.view.second) == second
      && result.view.proposal == proposals[1]
    ensures chain.View() ==
      if result.Done? then RoundEnd(chain.sha, old(chain.View()), result.view.Outcome()) else old(chain.View())
    ensures result.Done? && result.view.verdict.Consensus? ==>
      chain.View() == Committed(chain.sha, old(chain.View()), result.view.verdict.message.txBlock.transaction)
    ensures result.Done? && !result.view.verdict.Consensus? ==>
      chain.View() == old(chain.View()).(previous := BlockHash(chain.sha, proposals[1].txBlock))
  {
    proposals := [];
    if first.None? {
      return proposals, NoNewRound;
    }
    var highestS := GetTLCWithHighestFitness(first.value);
    proposals := [highestS];
    if second.None? {
      return proposals, NoNewRound;
    }
    var highestS1 := GetTLCWithHighestFitness(second.value);
    proposals := [highestS, highestS1];
    if third.None? {
      return proposals, NoNewRound;
    }
    var verdict := CheckIfConsensusReached(chain.sha, first.value, second.value, seen);
    match verdict {
      case Panics => return proposals, Crashed;
      case Consensus(m) => chain.Commit(m.txBlock);
      case NoConsensus => chain.Propose(highestS1.txBlock);
    }
    result := Done(RoundView(first.value, second.value, seen, verdict, highestS1));
  }

  /** confirmations.Load, with the message that each confirmation carries. */
  function Loaded(confirmations: Tlc.Confirmations, message: Tlc.Confirmation -> TLCMessage, round: nat)
    : Option<Messages>
  {
    if round !in confirmations then None else
    Some(map o | o in confirmations[round] :: message(confirmations[round][o]))
  }

  /** qscRound on the confirmations that the node's own clock has collected: those found at the three steps
      of one run of the clock that leave the TLC rounds from start on. None of the lookups fails, and each
      step draws on confirmations of a majority. */
  method QscRoundOfNode(chain: Blockchain, ghost c: Tlc.Config, ghost names: set<Tlc.Origin>,
                        ghost run: seq<Tlc.Step>, ghost at: seq<nat>, start: nat, after: seq<Tlc.Confirmations>,
                        message: Tlc.Confirmation -> TLCMessage, seen: Option<Messages>)
    returns (proposals: seq<TLCMessage>, result: RoundResult)
    requires Tlc.ConfigValid(c, names) && c.stubborn && Tlc.ValidRun(c, names, Tlc.INITIAL, run)
    requires |after| == |at| == 3 && at[0] < at[1] < at[2]
    requires forall k :: 0 <= k < 3 ==> IsFound(c, names, run, at[k], start + k, after[k])
    modifies chain
    ensures !result.NoNewRound? && (result.Crashed? <==> seen.None?) && |proposals| == 2
    ensures forall k :: 0 <= k < 2 ==>
      var loaded := Loaded(after[k], message, start + k);
      loaded.Some? && |loaded.value| > c.size / 2 && IsBest(loaded.value, proposals[k])
    ensures result.Done? ==>
      && result.view.Valid(chain.sha) && result.view.seen == seen
      && Some(result.view.first) == Loaded(after[0], message, start)
      && Some(result.view.second) == Loaded(after[1], message, start + 1)
      && chain.View() == RoundEnd(chain.sha, old(chain.View()), result.view.Outcome())
    ensures result.Crashed? ==> chain.View() == old(chain.View())
  {
    hide Loaded, IsBest, RoundView.Valid, RoundView.Outcome, IsFound, Tlc.ValidRun;
    LoadedThere(c, names, run, at[0], start + 0, after[0], message);
    LoadedThere(c, names, run, at[1], start + 1, after[1], message);
    LoadedThere(c, names, run, at[2], start + 2, after[2], message);
    proposals, result := QscRound(chain, Loaded(after[0], message, start), Loaded(after[1], message, start + 1),
                                  Loaded(after[2], message, start + 2), seen);
    if result.Done? { ValidSeen(chain.sha, result.view); }
  }

  /** The confirmations found when step i of the run leaves the round. */
  ghost predicate IsFound(c: Tlc.Config, names: set<Tlc.Origin>, run: seq<Tlc.Step>, i: nat, round: nat,
                          confirmations: Tlc.Confirmations)
  {
    Tlc.LeavesAt(c, names, run, i, round) && confirmations == Tlc.ConfirmationsAt(c, names, run, i, round)
  }

  lemma LoadedThere(c: Tlc.Config, names: set<Tlc.Origin>, run: seq<Tlc.Step>, i: nat, round: nat,
                    confirmations: Tlc.Confirmations, message: Tlc.Confirmation -> TLCMessage)
    requires Tlc.ConfigValid(c, names) && c.stubborn && IsFound(c, names, run, i, round, confirmations)
    ensures var loaded := Loaded(confirmations, message, round); loaded.Some? && |loaded.value| > c.size / 2
  {
    Tlc.LeftConfirmed(c, names, run, i, round);
    assert Loaded(confirmations, message, round).value.Keys == confirmations[round].Keys;
  }

  lemma ValidSeen(sha: Sha, v: RoundView)
    requires v.Valid(sha)
    ensures v.seen.Some?
  {
  }
}
