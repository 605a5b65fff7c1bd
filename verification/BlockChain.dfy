/** The hash-linked history of gossiper/qsc.go: committing a block, and the two walks along the chain
    from its top. */
module BlockChain {
  import opened Bytes
  import opened NumberTheory

  type Digest = d: Bytes | |d| == 32 witness seq(32, _ => 0)

  const ZERO: Digest := Repeat(0, 32)

  datatype TxPublish = TxPublish(name: Bytes, size: int, metafileHash: Bytes)

  datatype BlockPublish = BlockPublish(prevHash: Digest, transaction: TxPublish)

  type Sha = Bytes -> Digest

  type History = map<Digest, BlockPublish>

  // ---- hashes ----

  function TxPreimage(t: TxPublish): Bytes {
    LittleEndian(|t.name|, 4) + t.name + t.metafileHash
  }

  function BlockPreimage(sha: Sha, b: BlockPublish): Bytes {
    b.prevHash + sha(TxPreimage(b.transaction))
  }

  function BlockHash(sha: Sha, b: BlockPublish): Digest {
    sha(BlockPreimage(sha, b))
  }

  predicate NoCollision(sha: Sha, x: Bytes, y: Bytes) {
    sha(x) == sha(y) ==> x == y
  }

  /** The length prefix separates name and metafile hash. */
  lemma TxPreimageInjective(t: TxPublish, u: TxPublish)
    requires TxPreimage(t) == TxPreimage(u) && |t.name| < 0x1_0000_0000 && |u.name| < 0x1_0000_0000
    ensures t.name == u.name && t.metafileHash == u.metafileHash
  {
    var x, y := TxPreimage(t), TxPreimage(u);
    assert x[..4] == LittleEndian(|t.name|, 4) && y[..4] == LittleEndian(|u.name|, 4);
    assert Pow(256, 4) == 0x1_0000_0000 by { assert Pow(256, 2) == 0x1_0000; }
    LittleEndianInjective(|t.name|, |u.name|, 4);
    var k := 4 + |t.name|;
    assert x[4..k] == t.name && y[4..k] == u.name;
    assert x[k..] == t.metafileHash && y[k..] == u.metafileHash;
  }

  lemma BlockPreimageInjective(sha: Sha, a: BlockPublish, b: BlockPublish)
    requires BlockPreimage(sha, a) == BlockPreimage(sha, b)
    ensures a.prevHash == b.prevHash && sha(TxPreimage(a.transaction)) == sha(TxPreimage(b.transaction))
  {
    var x, y := BlockPreimage(sha, a), BlockPreimage(sha, b);
    assert x[..32] == a.prevHash && y[..32] == b.prevHash;
    assert x[32..] == sha(TxPreimage(a.transaction)) && y[32..] == sha(TxPreimage(b.transaction));
  }

  /** A block's hash fixes its parent, name and metafile hash, but not the size. */
  lemma HashBinds(sha: Sha, a: BlockPublish, b: BlockPublish)
    requires NoCollision(sha, BlockPreimage(sha, a), BlockPreimage(sha, b))
    requires NoCollision(sha, TxPreimage(a.transaction), TxPreimage(b.transaction))
    requires |a.transaction.name| < 0x1_0000_0000 && |b.transaction.name| < 0x1_0000_0000
    ensures
      BlockHash(sha, a) == BlockHash(sha, b) <==>
      (&& a.prevHash == b.prevHash
       && a.transaction.name == b.transaction.name
       && a.transaction.metafileHash == b.transaction.metafileHash)
  {
    if BlockHash(sha, a) == BlockHash(sha, b) {
      BlockPreimageInjective(sha, a, b);
      TxPreimageInjective(a.transaction, b.transaction);
    }
  }

  // ---- trails ----

  /** trail lists the hashes met when walking from a hash to the zero hash. */
  ghost predicate IsTrail(h: History, from: Digest, trail: seq<Digest>)
    decreases |trail|
  {
    if trail == [] then from == ZERO
    else trail[0] == from && from != ZERO && from in h && IsTrail(h, h[from].prevHash, trail[1..])
  }

  lemma {:induction false} TrailsAgree(h: History, from: Digest, t: seq<Digest>, u: seq<Digest>)
    requires IsTrail(h, from, t) && IsTrail(h, from, u)
    ensures t == u
    decreases |t|
  {
    if t != [] && u != [] {
      TrailsAgree(h, h[from].prevHash, t[1..], u[1..]);
      assert t == [t[0]] + t[1..] && u == [u[0]] + u[1..];
    }
  }

  lemma {:induction false} TrailFrom(h: History, from: Digest, t: seq<Digest>, i: nat)
    requires IsTrail(h, from, t) && i < |t|
    ensures t[i] in h && t[i] != ZERO && IsTrail(h, t[i], t[i..])
    decreases i
  {
    if i > 0 {
      TrailFrom(h, h[from].prevHash, t[1..], i - 1);
      assert t[1..][i - 1..] == t[i..];
    } else {
      assert t[0..] == t;
    }
  }

  lemma TrailDistinct(h: History, from: Digest, t: seq<Digest>)
    requires IsTrail(h, from, t)
    ensures forall i, j :: 0 <= i < j < |t| ==> t[i] != t[j]
  {
    forall i, j | 0 <= i < j < |t| ensures t[i] != t[j] {
      TrailFrom(h, from, t, i);
      TrailFrom(h, from, t, j);
      if t[i] == t[j] {
        TrailsAgree(h, t[i], t[i..], t[j..]);
        assert false;
      }
    }
  }

  lemma TrailMembers(h: History, from: Digest, t: seq<Digest>)
    requires IsTrail(h, from, t)
    ensures forall d :: d in t ==> d in h && d != ZERO
  {
    forall d | d in t ensures d in h && d != ZERO {
      var i :| 0 <= i < |t| && t[i] == d;
      TrailFrom(h, from, t, i);
    }
  }

  /** A walk that avoids d does not depend on what is stored under d. */
  lemma {:induction false} TrailAvoids(h: History, h': History, d: Digest, from: Digest, t: seq<Digest>)
    requires IsTrail(h, from, t) && d !in t
    requires forall e :: e != d ==> (e in h <==> e in h') && (e in h ==> h[e] == h'[e])
    ensures IsTrail(h', from, t)
    decreases |t|
  {
    if t != [] {
      TrailAvoids(h, h', d, h[from].prevHash, t[1..]);
    }
  }

  // ---- the ledger ----

  datatype Ledger = Ledger(committed: History, top: Digest, previous: Digest)

  const EMPTY := Ledger(map[], ZERO, ZERO)

  /** The walk from the top ends at the zero hash and visits each committed block exactly once
      (TrailDistinct). */
  ghost predicate CoveredBy(l: Ledger, trail: seq<Digest>) {
    IsTrail(l.committed, l.top, trail) && forall d :: d in l.committed <==> d in trail
  }

  ghost predicate Chained(l: Ledger) {
    exists trail :: CoveredBy(l, trail)
  }

  function NewBlock(l: Ledger, tx: TxPublish): BlockPublish {
    BlockPublish(l.top, tx)
  }

  function Committed(sha: Sha, l: Ledger, tx: TxPublish): Ledger {
    var b := NewBlock(l, tx);
    var d := BlockHash(sha, b);
    Ledger(l.committed[d := b], d, d)
  }

  /** The new block's hash is new, and not the one that marks the end of the chain. */
  predicate Fresh(sha: Sha, l: Ledger, tx: TxPublish) {
    var d := BlockHash(sha, NewBlock(l, tx));
    d !in l.committed && d != ZERO
  }

  /** Beyond repair: the zero hash is taken, or the walk from the top never ends. */
  ghost predicate Broken(l: Ledger) {
    ZERO in l.committed || forall trail :: !IsTrail(l.committed, l.top, trail)
  }

  lemma BrokenNotChained(l: Ledger)
    ensures !(Broken(l) && Chained(l))
  {
    if Broken(l) && Chained(l) {
      var t :| CoveredBy(l, t);
      TrailMembers(l.committed, l.top, t);
      assert false;
    }
  }

  lemma CommitExtends(sha: Sha, l: Ledger, tx: TxPublish, trail: seq<Digest>)
    requires CoveredBy(l, trail) && Fresh(sha, l, tx)
    ensures var l' := Committed(sha, l, tx); CoveredBy(l', [l'.top] + trail)
  {
    var l' := Committed(sha, l, tx);
    assert l'.committed[l'.top].prevHash == l.top;
    TrailAvoids(l.committed, l'.committed, l'.top, l.top, trail);
    assert ([l'.top] + trail)[1..] == trail;
  }

  /** A trail of the new ledger is one of the old below its head. */
  lemma TrailBelow(sha: Sha, l: Ledger, tx: TxPublish, t: seq<Digest>)
    requires var l' := Committed(sha, l, tx); l'.top != ZERO && IsTrail(l'.committed, l'.top, t)
    ensures t != [] && t[0] == Committed(sha, l, tx).top && t[0] !in t[1..]
    ensures IsTrail(l.committed, l.top, t[1..])
  {
    var l' := Committed(sha, l, tx);
    TrailDistinct(l'.committed, l'.top, t);
    TrailAvoids(l'.committed, l.committed, l'.top, l.top, t[1..]);
  }

  /** A commit that is not fresh breaks the chain. */
  lemma CommitBreaks(sha: Sha, l: Ledger, tx: TxPublish)
    requires Chained(l) && !Fresh(sha, l, tx)
    ensures Broken(Committed(sha, l, tx))
  {
    var l' := Committed(sha, l, tx);
    var trail :| CoveredBy(l, trail);
    if l'.top != ZERO {
      forall t ensures !IsTrail(l'.committed, l'.top, t) {
        if IsTrail(l'.committed, l'.top, t) {
          TrailBelow(sha, l, tx, t);
          TrailsAgree(l.committed, l.top, trail, t[1..]);
          assert false;
        }
      }
    }
  }

  lemma BrokenStays(sha: Sha, l: Ledger, tx: TxPublish)
    requires Broken(l)
    ensures Broken(Committed(sha, l, tx))
  {
    var l' := Committed(sha, l, tx);
    if ZERO !in l'.committed {
      forall t ensures !IsTrail(l'.committed, l'.top, t) {
        if IsTrail(l'.committed, l'.top, t) {
          TrailBelow(sha, l, tx, t);
          assert false;
        }
      }
    }
  }

  /** Every stored block is filed under its hash. */
  ghost predicate Addressed(sha: Sha, l: Ledger) {
    forall d :: d in l.committed ==> BlockHash(sha, l.committed[d]) == d
  }

  /** Committing tx meets neither the zero hash nor a collision with a block of the history. */
  ghost predicate NoClash(sha: Sha, l: Ledger, tx: TxPublish) {
    && BlockHash(sha, NewBlock(l, tx)) != ZERO
    && forall d :: d in l.committed ==>
         NoCollision(sha, BlockPreimage(sha, NewBlock(l, tx)), BlockPreimage(sha, l.committed[d]))
  }

  /** Only a hash collision between two blocks of the history, or a block that hashes to zero, makes a
      commit not fresh. */
  lemma FreshUnlessClash(sha: Sha, l: Ledger, tx: TxPublish)
    requires Chained(l) && Addressed(sha, l)
    ensures NoClash(sha, l, tx) <==> Fresh(sha, l, tx)
    ensures Addressed(sha, Committed(sha, l, tx))
  {
    var b := NewBlock(l, tx);
    var d := BlockHash(sha, b);
    if d in l.committed && NoClash(sha, l, tx) {
      BlockPreimageInjective(sha, b, l.committed[d]);
      var trail :| CoveredBy(l, trail);
      var i :| 0 <= i < |trail| && trail[i] == d;
      TrailFrom(l.committed, l.top, trail, i);
      TrailsAgree(l.committed, l.top, trail, trail[i..][1..]);
      assert false;
    }
  }

  // ---- runs ----

  /** How a QSC round ends: with a decision, or with the best block of its second step. */
  datatype Outcome = Decided(tx: TxPublish) | Undecided(block: BlockPublish)

  function RoundEnd(sha: Sha, l: Ledger, o: Outcome): Ledger {
    match o
    case Decided(tx) => Committed(sha, l, tx)
    case Undecided(b) => l.(previous := BlockHash(sha, b))
  }

  ghost function After(sha: Sha, l: Ledger, run: seq<Outcome>): Ledger
    decreases |run|
  {
    if run == [] then l else After(sha, RoundEnd(sha, l, run[0]), run[1..])
  }

  ghost predicate AllFresh(sha: Sha, l: Ledger, run: seq<Outcome>)
    decreases |run|
  {
    run == [] ||
    ((run[0].Decided? ==> Fresh(sha, l, run[0].tx)) && AllFresh(sha, RoundEnd(sha, l, run[0]), run[1..]))
  }

  lemma {:induction false} BrokenRun(sha: Sha, l: Ledger, run: seq<Outcome>)
    requires Broken(l)
    ensures Broken(After(sha, l, run))
    decreases |run|
  {
    if run != [] {
      if run[0].Decided? { BrokenStays(sha, l, run[0].tx); }
      BrokenRun(sha, RoundEnd(sha, l, run[0]), run[1..]);
    }
  }

  lemma RoundKeepsChain(sha: Sha, l: Ledger, o: Outcome)
    requires Chained(l)
    ensures if o.Decided? ==> Fresh(sha, l, o.tx) then Chained(RoundEnd(sha, l, o)) else Broken(RoundEnd(sha, l, o))
  {
    var t :| CoveredBy(l, t);
    match o
    case Undecided(b) => assert CoveredBy(RoundEnd(sha, l, o), t);
    case Decided(tx) => if Fresh(sha, l, tx) { CommitExtends(sha, l, tx, t); } else { CommitBreaks(sha, l, tx); }
  }

  /** From a chained ledger, any run of rounds ends chained exactly when every commit was fresh;
      otherwise the chain is broken for good. */
  lemma {:induction false} ChainAfter(sha: Sha, l: Ledger, run: seq<Outcome>)
    requires Chained(l)
    ensures Chained(After(sha, l, run)) <==> AllFresh(sha, l, run)
    ensures Broken(After(sha, l, run)) <==> !AllFresh(sha, l, run)
    decreases |run|
  {
    if run == [] {
      BrokenNotChained(l);
    } else {
      var l' := RoundEnd(sha, l, run[0]);
      RoundKeepsChain(sha, l, run[0]);
      if run[0].Decided? ==> Fresh(sha, l, run[0].tx) {
        ChainAfter(sha, l', run[1..]);
      } else {
        BrokenRun(sha, l', run[1..]);
        BrokenNotChained(After(sha, l, run));
      }
    }
  }

  ghost predicate NoClashes(sha: Sha, l: Ledger, run: seq<Outcome>)
    decreases |run|
  {
    run == [] ||
    ((run[0].Decided? ==> NoClash(sha, l, run[0].tx)) && NoClashes(sha, RoundEnd(sha, l, run[0]), run[1..]))
  }

  /** So over a run, what keeps the chain is exactly that no two blocks of the history collide. */
  lemma {:induction false} FreshRunUnlessClash(sha: Sha, l: Ledger, run: seq<Outcome>)
    requires Chained(l) && Addressed(sha, l)
    ensures NoClashes(sha, l, run) <==> AllFresh(sha, l, run)
    decreases |run|
  {
    if run != [] {
      RoundKeepsChain(sha, l, run[0]);
      if run[0].Decided? {
        FreshUnlessClash(sha, l, run[0].tx);
      }
      if run[0].Decided? ==> Fresh(sha, l, run[0].tx) {
        FreshRunUnlessClash(sha, RoundEnd(sha, l, run[0]), run[1..]);
      }
    }
  }

  lemma EmptyChained()
    ensures CoveredBy(EMPTY, []) && Chained(EMPTY) && Lists(EMPTY, [])
  {
    assert CoveredBy(EMPTY, []) && Names(EMPTY.committed, []) == [];
  }

  // ---- names along the chain ----

  /** Oldest first. */
  ghost function Names(h: History, trail: seq<Digest>): seq<Bytes>
    requires forall d :: d in trail ==> d in h
  {
    if trail == [] then [] else Names(h, trail[1..]) + [h[trail[0]].transaction.name]
  }

  /** Walking the chain from its top meets these names, newest first. */
  ghost predicate Lists(l: Ledger, names: seq<Bytes>) {
    exists trail :: CoveredBy(l, trail) && Names(l.committed, trail) == names
  }

  lemma {:induction false} NamesAvoid(h: History, d: Digest, b: BlockPublish, trail: seq<Digest>)
    requires (forall e :: e in trail ==> e in h) && d !in trail
    ensures Names(h[d := b], trail) == Names(h, trail)
  {
    if trail != [] {
      NamesAvoid(h, d, b, trail[1..]);
    }
  }

  lemma CommitListsName(sha: Sha, l: Ledger, tx: TxPublish, names: seq<Bytes>)
    requires Lists(l, names) && Fresh(sha, l, tx)
    ensures Lists(Committed(sha, l, tx), names + [tx.name])
  {
    var l' := Committed(sha, l, tx);
    var trail :| CoveredBy(l, trail) && Names(l.committed, trail) == names;
    CommitExtends(sha, l, tx, trail);
    assert ([l'.top] + trail)[1..] == trail;
    NamesAvoid(l.committed, l'.top, NewBlock(l, tx), trail);
  }

  function DecidedNames(run: seq<Outcome>): seq<Bytes> {
    if run == [] then []
    else (if run[0].Decided? then [run[0].tx.name] else []) + DecidedNames(run[1..])
  }

  lemma NamesStep(names: seq<Bytes>, run: seq<Outcome>)
    ensures run == [] ==> names + DecidedNames(run) == names
    ensures run != [] ==>
      names + DecidedNames(run) == names + (if run[0].Decided? then [run[0].tx.name] else []) + DecidedNames(run[1..])
  {
  }

  lemma UndecidedListsNames(sha: Sha, l: Ledger, b: BlockPublish, names: seq<Bytes>)
    requires Lists(l, names)
    ensures Lists(RoundEnd(sha, l, Undecided(b)), names)
  {
    var trail :| CoveredBy(l, trail) && Names(l.committed, trail) == names;
    assert CoveredBy(RoundEnd(sha, l, Undecided(b)), trail);
  }

  /** The chain lists the decided names in the order of their rounds. */
  lemma {:induction false} RunListsNames(sha: Sha, l: Ledger, names: seq<Bytes>, run: seq<Outcome>)
    requires Lists(l, names) && AllFresh(sha, l, run)
    ensures Lists(After(sha, l, run), names + DecidedNames(run))
    decreases |run|
  {
    hide Lists, DecidedNames, Committed, Fresh;
    NamesStep(names, run);
    if run != [] {
      var l' := RoundEnd(sha, l, run[0]);
      match run[0]
      case Decided(tx) =>
        CommitListsName(sha, l, tx, names);
        RunListsNames(sha, l', names + [tx.name], run[1..]);
      case Undecided(b) =>
        UndecidedListsNames(sha, l, b, names);
        assert names + [] == names;
        RunListsNames(sha, l', names, run[1..]);
    }
  }

  // ---- what a top stands for ----

  function Decisions(run: seq<Outcome>): seq<TxPublish> {
    if run == [] then [] else (if run[0].Decided? then [run[0].tx] else []) + Decisions(run[1..])
  }

  /** The block that ends the chain of these transactions, if there are any. */
  function LastBlock(sha: Sha, txs: seq<TxPublish>): BlockPublish
    requires txs != []
    decreases |txs|, 0
  {
    BlockPublish(TopOf(sha, txs[..|txs| - 1]), txs[|txs| - 1])
  }

  function TopOf(sha: Sha, txs: seq<TxPublish>): Digest
    decreases |txs|, 1
  {
    if txs == [] then ZERO else BlockHash(sha, LastBlock(sha, txs))
  }

  lemma CommitTop(sha: Sha, l: Ledger, txs: seq<TxPublish>, tx: TxPublish)
    requires l.top == TopOf(sha, txs)
    ensures Committed(sha, l, tx).top == TopOf(sha, txs + [tx])
  {
    var more := txs + [tx];
    assert more[..|more| - 1] == txs;
  }

  lemma DecisionsStep(txs: seq<TxPublish>, run: seq<Outcome>)
    ensures run == [] ==> txs + Decisions(run) == txs
    ensures run != [] ==>
      txs + Decisions(run) == txs + (if run[0].Decided? then [run[0].tx] else []) + Decisions(run[1..])
  {
  }

  /** The top after a run only depends on what was decided. */
  lemma {:induction false} TopAfter(sha: Sha, l: Ledger, txs: seq<TxPublish>, run: seq<Outcome>)
    requires l.top == TopOf(sha, txs)
    ensures After(sha, l, run).top == TopOf(sha, txs + Decisions(run))
    decreases |run|
  {
    hide TopOf, Committed, Decisions;
    DecisionsStep(txs, run);
    if run != [] {
      if run[0].Decided? {
        CommitTop(sha, l, txs, run[0].tx);
        TopAfter(sha, RoundEnd(sha, l, run[0]), txs + [run[0].tx], run[1..]);
      } else {
        assert txs + [] == txs;
        TopAfter(sha, RoundEnd(sha, l, run[0]), txs, run[1..]);
      }
    }
  }

  predicate SameTx(t: TxPublish, u: TxPublish) {
    t.name == u.name && t.metafileHash == u.metafileHash
  }

  predicate SameTxs(txs: seq<TxPublish>, txs': seq<TxPublish>) {
    |txs| == |txs'| && forall i :: 0 <= i < |txs| ==> SameTx(txs[i], txs'[i])
  }

  predicate HashesTellApart(sha: Sha, a: BlockPublish, b: BlockPublish) {
    && NoCollision(sha, BlockPreimage(sha, a), BlockPreimage(sha, b))
    && NoCollision(sha, TxPreimage(a.transaction), TxPreimage(b.transaction))
    && |a.transaction.name| < 0x1_0000_0000 && |b.transaction.name| < 0x1_0000_0000
  }

  function BlockAt(sha: Sha, txs: seq<TxPublish>, i: nat): BlockPublish
    requires i < |txs|
  {
    LastBlock(sha, txs[..i + 1])
  }

  /** No block of either chain hashes to zero, and no two blocks of the two chains collide. */
  ghost predicate ChainsApart(sha: Sha, txs: seq<TxPublish>, txs': seq<TxPublish>) {
    && (forall i :: 0 <= i < |txs| ==> BlockHash(sha, BlockAt(sha, txs, i)) != ZERO)
    && (forall i :: 0 <= i < |txs'| ==> BlockHash(sha, BlockAt(sha, txs', i)) != ZERO)
    && (forall i, j :: 0 <= i < |txs| && 0 <= j < |txs'| ==>
          HashesTellApart(sha, BlockAt(sha, txs, i), BlockAt(sha, txs', j)))
  }

  lemma ApartInit(sha: Sha, txs: seq<TxPublish>, txs': seq<TxPublish>)
    requires ChainsApart(sha, txs, txs') && txs != [] && txs' != []
    ensures ChainsApart(sha, txs[..|txs| - 1], txs'[..|txs'| - 1])
  {
    hide HashesTellApart, BlockHash, LastBlock;
    var init, init' := txs[..|txs| - 1], txs'[..|txs'| - 1];
    forall i: nat | i < |init| ensures BlockAt(sha, init, i) == BlockAt(sha, txs, i) {
      assert init[..i + 1] == txs[..i + 1];
    }
    forall i: nat | i < |init'| ensures BlockAt(sha, init', i) == BlockAt(sha, txs', i) {
      assert init'[..i + 1] == txs'[..i + 1];
    }
  }

  /** Two chains have the same top exactly when they are of the same transactions in the same order. */
  lemma {:induction false} TopFixesChain(sha: Sha, txs: seq<TxPublish>, txs': seq<TxPublish>)
    requires ChainsApart(sha, txs, txs')
    ensures TopOf(sha, txs) == TopOf(sha, txs') <==> SameTxs(txs, txs')
    decreases |txs|
  {
    hide HashesTellApart, BlockHash, ChainsApart;
    if txs != [] && txs' != [] {
      LastApart(sha, txs, txs');
      HashBinds(sha, LastBlock(sha, txs), LastBlock(sha, txs'));
      ApartInit(sha, txs, txs');
      TopFixesChain(sha, txs[..|txs| - 1], txs'[..|txs'| - 1]);
      SameTxsSnoc(txs, txs');
    } else {
      NonZero(sha, txs, txs');
    }
  }

  lemma LastApart(sha: Sha, txs: seq<TxPublish>, txs': seq<TxPublish>)
    requires ChainsApart(sha, txs, txs') && txs != [] && txs' != []
    ensures var a, b := LastBlock(sha, txs), LastBlock(sha, txs');
      && NoCollision(sha, BlockPreimage(sha, a), BlockPreimage(sha, b))
      && NoCollision(sha, TxPreimage(a.transaction), TxPreimage(b.transaction))
      && |a.transaction.name| < 0x1_0000_0000 && |b.transaction.name| < 0x1_0000_0000
  {
    hide LastBlock, NoCollision;
    assert txs[..|txs| - 1 + 1] == txs && txs'[..|txs'| - 1 + 1] == txs';
    assert HashesTellApart(sha, BlockAt(sha, txs, |txs| - 1), BlockAt(sha, txs', |txs'| - 1));
  }

  lemma NonZero(sha: Sha, txs: seq<TxPublish>, txs': seq<TxPublish>)
    requires ChainsApart(sha, txs, txs')
    ensures txs != [] ==> TopOf(sha, txs) != ZERO
    ensures txs' != [] ==> TopOf(sha, txs') != ZERO
  {
    hide LastBlock, BlockHash;
    if txs != [] {
      assert txs[..|txs| - 1 + 1] == txs;
      assert BlockHash(sha, BlockAt(sha, txs, |txs| - 1)) != ZERO;
    }
    if txs' != [] {
      assert txs'[..|txs'| - 1 + 1] == txs';
      assert BlockHash(sha, BlockAt(sha, txs', |txs'| - 1)) != ZERO;
    }
  }

  lemma SameTxsSnoc(txs: seq<TxPublish>, txs': seq<TxPublish>)
    requires txs != [] && txs' != []
    ensures SameTxs(txs, txs') <==>
      SameTxs(txs[..|txs| - 1], txs'[..|txs'| - 1]) && SameTx(txs[|txs| - 1], txs'[|txs'| - 1])
  {
    if SameTxs(txs[..|txs| - 1], txs'[..|txs'| - 1]) && SameTx(txs[|txs| - 1], txs'[|txs'| - 1]) {
      forall i | 0 <= i < |txs| ensures SameTx(txs[i], txs'[i]) {
        if i < |txs| - 1 { assert SameTx(txs[..|txs| - 1][i], txs'[..|txs'| - 1][i]); }
      }
    }
  }

  lemma {:induction false} NamesOfDecisions(run: seq<Outcome>, run': seq<Outcome>)
    requires SameTxs(Decisions(run), Decisions(run'))
    ensures DecidedNames(run) == DecidedNames(run')
  {
    NamesAreOf(run);
    NamesAreOf(run');
  }

  lemma {:induction false} NamesAreOf(run: seq<Outcome>)
    ensures |DecidedNames(run)| == |Decisions(run)|
    ensures forall i :: 0 <= i < |Decisions(run)| ==> DecidedNames(run)[i] == Decisions(run)[i].name
    decreases |run|
  {
    if run != [] { NamesAreOf(run[1..]); }
  }

  // ---- which blocks are accepted ----

  predicate NameTaken(l: Ledger, name: Bytes) {
    exists d :: d in l.committed && l.committed[d].transaction.name == name
  }

  /** isTxBlockValid on a chained ledger. */
  predicate Accepted(l: Ledger, b: BlockPublish) {
    !NameTaken(l, b.transaction.name) && (b.prevHash == ZERO || b.prevHash in l.committed)
  }

  /** The block a node publishes next, createAndPublishTxBlock. */
  function Published(l: Ledger, tx: TxPublish): BlockPublish {
    BlockPublish(l.previous, tx)
  }

  /** After a decision the next block a node publishes names the new top as its parent; after none it names
      the best proposed block, whatever the rounds before. */
  lemma {:induction false} PublishedAfter(sha: Sha, l: Ledger, run: seq<Outcome>, tx: TxPublish)
    requires run != []
    ensures var l' := After(sha, l, run);
      Published(l', tx) == BlockPublish(ParentAfter(sha, l', run[|run| - 1]), tx)
    decreases |run|
  {
    if |run| > 1 {
      PublishedAfter(sha, RoundEnd(sha, l, run[0]), run[1..], tx);
    } else {
      assert run[1..] == [];
    }
  }

  function ParentAfter(sha: Sha, l: Ledger, last: Outcome): Digest {
    if last.Decided? then l.top else BlockHash(sha, last.block)
  }

  lemma CommitTakesName(sha: Sha, l: Ledger, tx: TxPublish, name: Bytes)
    requires Fresh(sha, l, tx)
    ensures NameTaken(Committed(sha, l, tx), name) <==> NameTaken(l, name) || name == tx.name
  {
    var l' := Committed(sha, l, tx);
    if NameTaken(l, name) {
      var d :| d in l.committed && l.committed[d].transaction.name == name;
      assert d in l'.committed && l'.committed[d].transaction.name == name;
    }
    if name == tx.name {
      assert l'.top in l'.committed && l'.committed[l'.top].transaction.name == name;
    }
  }

  /** A node accepts its own next block unless the name is taken. After an undecided round, however, that
      block refers to the best proposed block as its parent, and unless the hash of that proposal happens
      to be committed, the node itself, and any node with the same history, rejects it. */
  lemma NextAccepted(sha: Sha, l: Ledger, o: Outcome, tx: TxPublish)
    requires o.Decided? ==> Fresh(sha, l, o.tx)
    ensures var l' := RoundEnd(sha, l, o);
      Accepted(l', Published(l', tx)) <==>
      (&& !NameTaken(l, tx.name)
       && match o
          case Decided(t) => tx.name != t.name
          case Undecided(b) => BlockHash(sha, b) == ZERO || BlockHash(sha, b) in l.committed)
  {
    match o
    case Decided(t) => CommitTakesName(sha, l, t, tx.name);
    case Undecided(_) =>
      assert NameTaken(RoundEnd(sha, l, o), tx.name) <==> NameTaken(l, tx.name);
  }

  class Blockchain {
    const sha: Sha
    var committedHistory: History
    var topBlockchainHash: Digest
    var previousBlockHash: Digest

    function View(): Ledger
      reads this
    {
      Ledger(committedHistory, topBlockchainHash, previousBlockHash)
    }

    constructor (sha: Sha)
      ensures View() == EMPTY && this.sha == sha
    {
      this.sha := sha;
      committedHistory, topBlockchainHash, previousBlockHash := map[], ZERO, ZERO;
    }

    method Commit(chosen: BlockPublish)
      modifies this
      ensures View() == Committed(sha, old(View()), chosen.transaction)
      ensures var tx, top := chosen.transaction, old(topBlockchainHash);
        && topBlockchainHash == previousBlockHash
             == sha(top + sha(LittleEndian(|tx.name|, 4) + tx.name + tx.metafileHash))
        && committedHistory == old(committedHistory)[topBlockchainHash := BlockPublish(top, tx)]
    {
      var block := chosen.(prevHash := topBlockchainHash);
      committedHistory := committedHistory[BlockHash(sha, block) := block];
      topBlockchainHash := BlockHash(sha, block);
      previousBlockHash := topBlockchainHash;
    }

    method Propose(chosen: BlockPublish)
      modifies this`previousBlockHash
      ensures View() == RoundEnd(sha, old(View()), Undecided(chosen))
    {
      previousBlockHash := BlockHash(sha, chosen);
    }

    /** The two parts of isTxBlockValid: the loop over the map, in any order, and the walk. */
    method IsTxBlockValid(b: BlockPublish) returns (valid: bool)
      requires Chained(View())
      ensures valid <==> Accepted(View(), b)
    {
      valid := true;
      var rest := committedHistory.Keys;
      while rest != {}
        invariant rest <= committedHistory.Keys
        invariant forall d :: d in committedHistory && d !in rest ==>
          committedHistory[d].transaction.name != b.transaction.name
        decreases |rest|
      {
        var d :| d in rest;
        if committedHistory[d].transaction.name == b.transaction.name {
          return false;
        }
        rest := rest - {d};
      }

      ghost var trail :| CoveredBy(View(), trail);
      ghost var left := [];
      var blockHash := b.prevHash;
      if blockHash != ZERO && blockHash in committedHistory {
        ghost var i :| 0 <= i < |trail| && trail[i] == blockHash;
        TrailFrom(committedHistory, topBlockchainHash, trail, i);
        left := trail[i..];
      }
      while blockHash != ZERO
        invariant IsTrail(committedHistory, blockHash, left)
          || (blockHash == b.prevHash && blockHash !in committedHistory)
        invariant IsTrail(committedHistory, blockHash, left) ==>
          b.prevHash == ZERO || b.prevHash in committedHistory
        decreases |left|
      {
        if blockHash !in committedHistory {
          valid := false;
          break;
        }
        blockHash := committedHistory[blockHash].prevHash;
        left := left[1..];
      }
    }

    /** The walk of printConsensusMessage. */
    method Filenames() returns (names: seq<Bytes>)
      requires Chained(View())
      ensures Lists(View(), names)
    {
      ghost var trail :| CoveredBy(View(), trail);
      ghost var left := trail;
      names := [];
      var blockHash := topBlockchainHash;
      while blockHash != ZERO
        invariant IsTrail(committedHistory, blockHash, left)
        invariant forall d :: d in left ==> d in committedHistory
        invariant Names(committedHistory, left) + names == Names(committedHistory, trail)
        decreases |left|
      {
        var block := committedHistory[blockHash];
        names := [block.transaction.name] + names;
        blockHash := block.prevHash;
        left := left[1..];
      }
    }
  }
}
