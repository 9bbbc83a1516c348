/** The builder lock and the drain of the transaction pool, over every run of the ledger. */
module BuilderLock {
  import opened Options
  import opened Ledger

  predicate InSection(pc: Pc) {
    pc.Drain? || pc.Clear? || pc.Store? || pc.AskLock? || pc.DropLock?
  }

  /** A worker in the builder section owns the lock, and it is the only one there. */
  ghost predicate LockInv(c: Config, s: State)
    requires |c.ids| == |s.pcs|
  {
    && (forall p :: 0 <= p < |s.pcs| && InSection(s.pcs[p]) ==> s.builderLock == Some(c.ids[p]))
    && (forall p, q :: 0 <= p < |s.pcs| && 0 <= q < |s.pcs| && InSection(s.pcs[p]) && InSection(s.pcs[q]) ==> p == q)
  }

  lemma StepKeepsLock(c: Config, s: State, e: Event)
    requires |c.ids| == |s.pcs| && LockInv(c, s)
    ensures LockInv(c, Step(c, s, e))
  {
    hide Step;
    LockMoves(c, s, e);
    var s' := Step(c, s, e);
    if e.p < |s.pcs| {
      assert InSection(s.pcs[e.p]) ==> s.builderLock == Some(c.ids[e.p]);
      forall q | 0 <= q < |s.pcs| && q != e.p && InSection(s'.pcs[q])
        ensures s'.builderLock == Some(c.ids[q]) && !InSection(s'.pcs[e.p]) {
        assert InSection(s.pcs[q]) && s.builderLock == Some(c.ids[q]);
      }
    }
  }

  /** A worker enters the section only by taking the free lock; only a worker in the section frees it. */
  lemma LockMoves(c: Config, s: State, e: Event)
    requires |c.ids| == |s.pcs|
    ensures var s', p := Step(c, s, e), e.p;
            if p >= |s.pcs| then s' == s
            else
              && s'.pcs == s.pcs[p := s'.pcs[p]]
              && (InSection(s'.pcs[p]) && !InSection(s.pcs[p]) ==> s.builderLock.None? && s'.builderLock == Some(c.ids[p]))
              && (InSection(s'.pcs[p]) && InSection(s.pcs[p]) ==> s'.builderLock == s.builderLock)
              && (!InSection(s'.pcs[p]) && !InSection(s.pcs[p]) ==> s'.builderLock == s.builderLock)
  {
    hide Increment;
  }

  /** Whatever the interleaving and whatever the workers' ids, at most one worker is in the builder section. */
  lemma {:induction false} MutualExclusion(c: Config, s: State, es: seq<Event>)
    requires Start(c, s)
    ensures LockInv(c, Run(c, s, es))
  {
    hide Step;
    if es != [] {
      MutualExclusion(c, s, es[..|es| - 1]);
      StepKeepsLock(c, Run(c, s, es[..|es| - 1]), es[|es| - 1]);
    }
  }

  // ---- the lock is given back ----

  /** How many more steps of its own a worker makes in the section, at most. */
  function StepsLeft(pc: Pc): nat {
    match pc
    case Drain => 5
    case Clear(_, _) => 4
    case Store(_) => 3
    case AskLock => 2
    case DropLock => 1
    case _ => 0
  }

  function OwnSteps(es: seq<Event>, p: nat): nat {
    if es == [] then 0 else OwnSteps(es[..|es| - 1], p) + if es[|es| - 1] == Advance(p) then 1 else 0
  }

  ghost predicate Released(s: State, p: nat) {
    p < |s.pcs| && s.pcs[p] == Idle && s.builderLock.None?
  }

  /** Only its own steps move a worker on in the section, and the last of them frees the lock: its owner is never refused
      the release. */
  lemma SectionStep(c: Config, s: State, e: Event, p: nat)
    requires |c.ids| == |s.pcs| && LockInv(c, s) && p < |s.pcs| && InSection(s.pcs[p])
    ensures var s' := Step(c, s, e);
            if e != Advance(p) then s'.pcs[p] == s.pcs[p]
            else Released(s', p) || (InSection(s'.pcs[p]) && StepsLeft(s'.pcs[p]) < StepsLeft(s.pcs[p]))
  {
    hide Increment;
  }

  /** Whatever the others do meanwhile: after five steps of its own at the latest, fewer when it is further on, a worker
      in the section is out of it and the lock was free at that moment. */
  lemma {:induction false} LockIsReleased(c: Config, s: State, es: seq<Event>, p: nat)
    requires |c.ids| == |s.pcs| && LockInv(c, s) && p < |s.pcs| && InSection(s.pcs[p])
    ensures LockInv(c, Run(c, s, es))
    ensures (exists k :: 0 <= k <= |es| && Released(Run(c, s, es[..k]), p))
            || (InSection(Run(c, s, es).pcs[p])
                && StepsLeft(Run(c, s, es).pcs[p]) + OwnSteps(es, p) <= StepsLeft(s.pcs[p]))
    ensures OwnSteps(es, p) >= StepsLeft(s.pcs[p]) ==> exists k :: 0 <= k <= |es| && Released(Run(c, s, es[..k]), p)
  {
    hide Step, LockInv, Released;
    if es != [] {
      var n := |es| - 1;
      LockIsReleased(c, s, es[..n], p);
      StepKeepsLock(c, Run(c, s, es[..n]), es[n]);
      if k :| 0 <= k <= n && Released(Run(c, s, es[..n][..k]), p) {
        assert es[..n][..k] == es[..k];
      } else {
        SectionStep(c, Run(c, s, es[..n]), es[n], p);
        assert es[..n + 1] == es;
      }
    }
  }

  // ---- the drain ----

  function Cleared(ws: seq<Window>): nat {
    if ws == [] then 0 else ws[|ws| - 1].cleared
  }

  /** Each drain reads after the one before cleared, and clears after it read. */
  predicate Ordered(ws: seq<Window>, pushes: nat) {
    if ws == [] then true else
    var w, before := ws[|ws| - 1], ws[..|ws| - 1];
    Cleared(before) <= w.read <= w.cleared <= pushes && Ordered(before, w.read)
  }

  /** The pushes that some drain read: all before its read and after the previous drain's clear.  Left out are exactly
      the pushes made between a drain's read and its clear. */
  function Kept(pushed: seq<Tx>, ws: seq<Window>): seq<Tx>
    requires Ordered(ws, |pushed|)
  {
    if ws == [] then [] else
    var w, before := ws[|ws| - 1], ws[..|ws| - 1];
    OrderedLater(before, w.read, |pushed|);
    Kept(pushed, before) + pushed[Cleared(before)..w.read]
  }

  lemma {:induction false} OrderedLater(ws: seq<Window>, pushes: nat, later: nat)
    requires Ordered(ws, pushes) && pushes <= later
    ensures Ordered(ws, later) && Cleared(ws) <= pushes
  {
  }

  lemma {:induction false} KeptIsStable(pushed: seq<Tx>, ws: seq<Window>, tx: Tx)
    requires Ordered(ws, |pushed|)
    ensures Ordered(ws, |pushed + [tx]|) && Kept(pushed + [tx], ws) == Kept(pushed, ws)
  {
    OrderedLater(ws, |pushed|, |pushed| + 1);
    if ws != [] {
      var w, before := ws[|ws| - 1], ws[..|ws| - 1];
      OrderedLater(before, w.read, |pushed|);
      KeptIsStable(pushed, before, tx);
      assert (pushed + [tx])[Cleared(before)..w.read] == pushed[Cleared(before)..w.read];
    }
  }

  function Concat(blocks: seq<seq<Tx>>): seq<Tx> {
    if blocks == [] then [] else Concat(blocks[..|blocks| - 1]) + blocks[|blocks| - 1]
  }

  /** What the builder has read off the pool and deleted there, but not stored yet. */
  function InHand(pcs: seq<Pc>): seq<Tx> {
    if pcs == [] then []
    else if pcs[|pcs| - 1].Store? then pcs[|pcs| - 1].txs
    else InHand(pcs[..|pcs| - 1])
  }

  lemma {:induction false} InHandIsTheOne(pcs: seq<Pc>, p: nat)
    requires p < |pcs|
    requires forall q :: 0 <= q < |pcs| && q != p ==> !pcs[q].Store?
    ensures InHand(pcs) == if pcs[p].Store? then pcs[p].txs else []
  {
    var n := |pcs| - 1;
    if p == n {
      NothingInHand(pcs[..n]);
    } else {
      InHandIsTheOne(pcs[..n], p);
    }
  }

  lemma {:induction false} NothingInHand(pcs: seq<Pc>)
    requires forall q :: 0 <= q < |pcs| ==> !pcs[q].Store?
    ensures InHand(pcs) == []
  {
    if pcs != [] {
      NothingInHand(pcs[..|pcs| - 1]);
    }
  }

  ghost predicate DrainInv(s: State) {
    && Ordered(s.windows, |s.pushed|)
    && Cleared(s.windows) <= |s.pushed|
    && s.pool == s.pushed[Cleared(s.windows)..]
    && (forall p :: 0 <= p < |s.pcs| && s.pcs[p].Clear? ==>
          Cleared(s.windows) <= s.pcs[p].read <= |s.pushed|
          && s.pcs[p].txs == s.pushed[Cleared(s.windows)..s.pcs[p].read])
    && Concat(s.blocks) + InHand(s.pcs) == Kept(s.pushed, s.windows)
  }

  /** In a step that leaves the stores and the history of the pool alone, the invariant only needs the builder's
      hand to stay as it is. */
  lemma DrainInvUntouched(s: State, s': State)
    requires DrainInv(s)
    requires s'.windows == s.windows && s'.pushed == s.pushed && s'.pool == s.pool && s'.blocks == s.blocks
    requires InHand(s'.pcs) == InHand(s.pcs)
    requires forall p :: 0 <= p < |s'.pcs| && s'.pcs[p].Clear? ==> p < |s.pcs| && s'.pcs[p] == s.pcs[p]
    ensures DrainInv(s')
  {
  }

  /** Moving one worker between points that are not Store keeps the hand as it is. */
  lemma HandAfterMove(c: Config, s: State, p: nat, pc: Pc)
    requires |c.ids| == |s.pcs| && LockInv(c, s) && p < |s.pcs|
    requires !s.pcs[p].Store? && !pc.Store?
    ensures InHand(s.pcs[p := pc]) == InHand(s.pcs)
  {
    if q :| 0 <= q < |s.pcs| && s.pcs[q].Store? {
      InHandIsTheOne(s.pcs, q);
      InHandIsTheOne(s.pcs[p := pc], q);
    } else {
      NothingInHand(s.pcs);
      NothingInHand(s.pcs[p := pc]);
    }
  }

  lemma PushKeepsDrain(c: Config, s: State, p: nat)
    requires |c.ids| == |s.pcs| && LockInv(c, s) && DrainInv(s) && p < |s.pcs| && s.pcs[p].Push?
    ensures DrainInv(Step(c, s, Advance(p)))
  {
    hide Kept, Concat, Ordered, LockInv;
    var tx, s' := s.pcs[p].tx, Step(c, s, Advance(p));
    var base := Cleared(s.windows);
    HandAfterMove(c, s, p, Idle);
    KeptIsStable(s.pushed, s.windows, tx);
    assert s'.pool == s'.pushed[base..];
    forall q | 0 <= q < |s'.pcs| && s'.pcs[q].Clear?
      ensures s'.pcs[q].txs == s'.pushed[base..s'.pcs[q].read]
    {
      assert s'.pushed[base..s'.pcs[q].read] == s.pushed[base..s'.pcs[q].read];
    }
  }

  lemma ReadKeepsDrain(c: Config, s: State, p: nat)
    requires |c.ids| == |s.pcs| && LockInv(c, s) && DrainInv(s) && p < |s.pcs| && s.pcs[p].Drain?
    ensures DrainInv(Step(c, s, Advance(p)))
  {
    hide Kept, Concat, Ordered, LockInv;
    HandAfterMove(c, s, p, Clear(s.pool, |s.pushed|));
    assert s.pushed[Cleared(s.windows)..] == s.pushed[Cleared(s.windows)..|s.pushed|];
  }

  /** The hand of the builder is empty before it clears the pool and holds what it had read afterwards. */
  lemma HandWhenCleared(c: Config, s: State, p: nat)
    requires |c.ids| == |s.pcs| && LockInv(c, s) && p < |s.pcs| && s.pcs[p].Clear?
    ensures InHand(s.pcs) == [] && InHand(Step(c, s, Advance(p)).pcs) == s.pcs[p].txs
    ensures forall q :: 0 <= q < |s.pcs| && q != p ==> !s.pcs[q].Clear? && Step(c, s, Advance(p)).pcs[q] == s.pcs[q]
  {
    hide InHand;
    assert forall q :: 0 <= q < |s.pcs| && q != p ==> !InSection(s.pcs[q]);
    InHandIsTheOne(s.pcs, p);
    InHandIsTheOne(Step(c, s, Advance(p)).pcs, p);
  }

  lemma ClearKeepsDrain(c: Config, s: State, p: nat)
    requires |c.ids| == |s.pcs| && LockInv(c, s) && DrainInv(s) && p < |s.pcs| && s.pcs[p].Clear?
    ensures DrainInv(Step(c, s, Advance(p)))
  {
    hide Concat, Kept, Ordered, InHand, LockInv;
    HandWhenCleared(c, s, p);
    OneMoreWindow(s.pushed, s.windows, s.pcs[p].read);
    assert Concat(s.blocks) + [] == Concat(s.blocks);
  }

  /** A drain that cleared just now keeps what was kept and what it had read. */
  lemma OneMoreWindow(pushed: seq<Tx>, ws: seq<Window>, read: nat)
    requires Ordered(ws, |pushed|) && Cleared(ws) <= read <= |pushed|
    ensures var now := ws + [Window(read, |pushed|)];
            && Ordered(now, |pushed|) && Cleared(now) == |pushed|
            && Kept(pushed, now) == Kept(pushed, ws) + pushed[Cleared(ws)..read]
  {
  }

  lemma StoreKeepsDrain(c: Config, s: State, p: nat)
    requires |c.ids| == |s.pcs| && LockInv(c, s) && DrainInv(s) && p < |s.pcs| && s.pcs[p].Store?
    ensures DrainInv(Step(c, s, Advance(p)))
  {
    hide Kept, Ordered;
    var s', txs := Step(c, s, Advance(p)), s.pcs[p].txs;
    assert forall q :: 0 <= q < |s.pcs| && q != p ==> !InSection(s.pcs[q]);
    InHandIsTheOne(s.pcs, p);
    InHandIsTheOne(s'.pcs, p);
    assert s'.blocks[..|s.blocks|] == s.blocks;
    assert Concat(s'.blocks) + [] == Concat(s.blocks) + txs;
  }

  lemma StepKeepsDrain(c: Config, s: State, e: Event)
    requires |c.ids| == |s.pcs| && LockInv(c, s) && DrainInv(s)
    ensures DrainInv(Step(c, s, e))
  {
    hide Kept, Concat, Ordered, LockInv, DrainInv;
    if Enabled(s, e) {
      var p, s' := e.p, Step(c, s, e);
      if e.Advance? && s.pcs[p].Push? {
        PushKeepsDrain(c, s, p);
      } else if e.Advance? && s.pcs[p].Drain? {
        ReadKeepsDrain(c, s, p);
      } else if e.Advance? && s.pcs[p].Clear? {
        ClearKeepsDrain(c, s, p);
      } else if e.Advance? && s.pcs[p].Store? {
        StoreKeepsDrain(c, s, p);
      } else {
        HandAfterMove(c, s, p, s'.pcs[p]);
        assert s'.pcs == s.pcs[p := s'.pcs[p]];
        DrainInvUntouched(s, s');
      }
    }
  }

  /** The pool theorem.  In every interleaving the pool is what was pushed since the last clear, and the contents of
      the blocks in order, with what the builder still has in hand, are the pushes in order without those made between
      a drain's LRANGE and its DEL: nothing is duplicated, reordered or otherwise lost. */
  lemma {:induction false} BlocksKeepPushes(c: Config, s: State, es: seq<Event>)
    requires Start(c, s)
    ensures DrainInv(Run(c, s, es))
  {
    hide Step;
    if es == [] {
      NothingInHand(s.pcs);
    } else {
      BlocksKeepPushes(c, s, es[..|es| - 1]);
      MutualExclusion(c, s, es[..|es| - 1]);
      StepKeepsDrain(c, Run(c, s, es[..|es| - 1]), es[|es| - 1]);
    }
  }

  // ---- one worker ----

  ghost predicate NoGap(s: State) {
    && (forall i :: 0 <= i < |s.windows| ==> s.windows[i].read == s.windows[i].cleared)
    && (forall p :: 0 <= p < |s.pcs| && s.pcs[p].Clear? ==> s.pcs[p].read == |s.pushed|)
  }

  lemma StepLeavesNoGap(c: Config, s: State, e: Event)
    requires |c.ids| == |s.pcs| == 1 && NoGap(s)
    ensures NoGap(Step(c, s, e))
  {
  }

  lemma {:induction false} AloneLeavesNoGap(c: Config, s: State, es: seq<Event>)
    requires Start(c, s) && |c.ids| == 1
    ensures NoGap(Run(c, s, es))
  {
    hide Step;
    if es != [] {
      AloneLeavesNoGap(c, s, es[..|es| - 1]);
      StepLeavesNoGap(c, Run(c, s, es[..|es| - 1]), es[|es| - 1]);
    }
  }

  lemma {:induction false} KeptWithoutGaps(pushed: seq<Tx>, ws: seq<Window>)
    requires Ordered(ws, |pushed|) && Cleared(ws) <= |pushed|
    requires forall i :: 0 <= i < |ws| ==> ws[i].read == ws[i].cleared
    ensures Kept(pushed, ws) == pushed[..Cleared(ws)]
  {
    if ws != [] {
      var w, before := ws[|ws| - 1], ws[..|ws| - 1];
      OrderedLater(before, w.read, |pushed|);
      KeptWithoutGaps(pushed, before);
      assert pushed[..Cleared(before)] + pushed[Cleared(before)..w.read] == pushed[..w.read];
    }
  }

  /** With one worker nothing is lost at all. */
  lemma AloneLosesNothing(c: Config, s: State, es: seq<Event>)
    requires Start(c, s) && |c.ids| == 1
    ensures var t := Run(c, s, es);
            Concat(t.blocks) + InHand(t.pcs) + t.pool == t.pushed
  {
    hide Run, Concat, InHand, Ordered, Kept;
    BlocksKeepPushes(c, s, es);
    AloneLeavesNoGap(c, s, es);
    var t := Run(c, s, es);
    KeptWithoutGaps(t.pushed, t.windows);
    assert t.pushed[..Cleared(t.windows)] + t.pushed[Cleared(t.windows)..] == t.pushed;
  }

  // ---- when something is lost ----

  /** How many pushes fell between a drain's read and its clear. */
  function Missed(ws: seq<Window>, pushes: nat): nat
    requires Ordered(ws, pushes)
  {
    if ws == [] then 0 else
    var w := ws[|ws| - 1];
    Missed(ws[..|ws| - 1], w.read) + (w.cleared - w.read)
  }

  lemma {:induction false} KeptLength(pushed: seq<Tx>, ws: seq<Window>)
    requires Ordered(ws, |pushed|) && Cleared(ws) <= |pushed|
    ensures |Kept(pushed, ws)| + Missed(ws, |pushed|) == Cleared(ws)
  {
    if ws != [] {
      var w, before := ws[|ws| - 1], ws[..|ws| - 1];
      OrderedLater(before, w.read, |pushed|);
      KeptLength(pushed, before);
      MissedLater(before, w.read, |pushed|);
    }
  }

  lemma {:induction false} MissedLater(ws: seq<Window>, pushes: nat, later: nat)
    requires Ordered(ws, pushes) && pushes <= later
    ensures Ordered(ws, later) && Missed(ws, later) == Missed(ws, pushes)
  {
  }

  lemma {:induction false} NothingMissed(ws: seq<Window>, pushes: nat)
    requires Ordered(ws, pushes)
    ensures Missed(ws, pushes) == 0 <==> forall i :: 0 <= i < |ws| ==> ws[i].read == ws[i].cleared
  {
    if ws != [] {
      var w, before := ws[|ws| - 1], ws[..|ws| - 1];
      NothingMissed(before, w.read);
      assert forall i :: 0 <= i < |before| ==> ws[i] == before[i];
    }
  }

  /** Blocks, hand and pool together are the whole push history exactly when no push fell into a drain. */
  lemma CompleteIffNoPushDuringDrain(c: Config, s: State, es: seq<Event>)
    requires Start(c, s)
    ensures var t := Run(c, s, es);
            Concat(t.blocks) + InHand(t.pcs) + t.pool == t.pushed
            <==> forall i :: 0 <= i < |t.windows| ==> t.windows[i].read == t.windows[i].cleared
  {
    hide Run, Concat, InHand, Ordered, Kept, Missed;
    BlocksKeepPushes(c, s, es);
    var t := Run(c, s, es);
    KeptLength(t.pushed, t.windows);
    NothingMissed(t.windows, |t.pushed|);
    if Missed(t.windows, |t.pushed|) == 0 {
      KeptWithoutGaps(t.pushed, t.windows);
      assert t.pushed[..Cleared(t.windows)] + t.pushed[Cleared(t.windows)..] == t.pushed;
    } else {
      assert |Concat(t.blocks) + InHand(t.pcs) + t.pool| < |t.pushed|;
    }
  }

  const TWO := Config(["1", "2"], [])

  /** A state of the two workers in which no money moved and no block was stored. */
  function At(pcs: seq<Pc>, lock: Option<string>, booted: bool, pushed: seq<Tx>, pool: seq<Tx>, ws: seq<Window>): State {
    State(map[], pool, lock, if booted then Some("1") else None, [], pcs, pushed, ws, 0, 0, 0, 0)
  }

  function Run3(c: Config, s: State, e1: Event, e2: Event, e3: Event): State
    requires |c.ids| == |s.pcs|
  {
    Step(c, Step(c, Step(c, s, e1), e2), e3)
  }

  lemma BothBoot()
    ensures Run3(TWO, At([Boot, Boot], None, false, [], [], []), Advance(0), Advance(0), Advance(1))
            == At([Idle, Idle], None, true, [], [], [])
  {
  }

  lemma FirstReadsEmptyPool(tx: Tx)
    ensures Run3(TWO, At([Idle, Idle], None, true, [], [], []), Tick(0), Advance(0), Submit(1, tx))
            == At([Clear([], 0), Query(tx)], Some("1"), true, [], [], [])
  {
  }

  lemma SecondPushesThenFirstClears(tx: Tx)
    requires tx.from != "" && tx.value > 0
    ensures Run3(TWO, At([Clear([], 0), Query(tx)], Some("1"), true, [], [], []), Advance(1), Advance(1), Advance(0))
            == At([AskLock, Idle], Some("1"), true, [tx], [], [Window(0, 1)])
  {
  }

  lemma RunThreeMore(c: Config, s: State, es: seq<Event>, e1: Event, e2: Event, e3: Event)
    requires |c.ids| == |s.pcs|
    ensures Run(c, s, es + [e1, e2, e3]) == Run3(c, Run(c, s, es), e1, e2, e3)
  {
    hide Step, Run;
    RunOneMore(c, s, es, e1);
    RunOneMore(c, s, es + [e1], e2);
    RunOneMore(c, s, es + [e1] + [e2], e3);
    assert es + [e1] + [e2] + [e3] == es + [e1, e2, e3];
  }

  /** It does happen with two workers: while the first drains an empty pool, the second pushes a transaction, and that
      transaction is in no block, in no hand and not in the pool. */
  lemma SecondWorkerLosesPush(tx: Tx) returns (s: State, es: seq<Event>)
    requires tx.from != "" && tx.value > 0
    ensures Start(TWO, s)
    ensures var t := Run(TWO, s, es);
            t.pushed == [tx] && Concat(t.blocks) + InHand(t.pcs) + t.pool == []
  {
    hide Step, Run3;
    s := At([Boot, Boot], None, false, [], [], []);
    es := [];
    assert Run(TWO, s, es) == s;
    RunThreeMore(TWO, s, es, Advance(0), Advance(0), Advance(1));
    es := es + [Advance(0), Advance(0), Advance(1)];
    BothBoot();
    RunThreeMore(TWO, s, es, Tick(0), Advance(0), Submit(1, tx));
    es := es + [Tick(0), Advance(0), Submit(1, tx)];
    FirstReadsEmptyPool(tx);
    RunThreeMore(TWO, s, es, Advance(1), Advance(1), Advance(0));
    es := es + [Advance(1), Advance(1), Advance(0)];
    SecondPushesThenFirstClears(tx);
    NothingInHand([AskLock, Idle]);
  }
}
