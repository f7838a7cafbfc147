/**
 * When the tables hold complete, verified rounds. For each protocol the exact condition is that every stored
 * row carries the round of its message. For FTSO the relayed roots enforce it; for FDC nothing does.
 */
module Completeness {
  import opened Records
  import opened LeafEncoding
  import opened Providers
  import opened Agreement
  import opened Storage
  import opened Ingestion
  import opened Pipeline

  // ---- the exact condition ----

  /** If the action stores an FTSO publication, its rows carry the round of the message. */
  ghost predicate FtsoStepTagged(lib: Library, setup: Setup, sys: System, action: Action) {
    action.FtsoTick? ==>
      match FtsoPut(lib, setup, sys, action.answer, action.ftsoReplies)
      case None => true
      case Some((m, p)) => TaggedFtso(p, m.round)
  }

  ghost predicate FdcStepTagged(lib: Library, setup: Setup, sys: System, action: Action) {
    action.FdcTick? ==>
      match FdcPut(lib, setup, sys, action.answer, action.fdcReplies)
      case None => true
      case Some((m, p)) => Tagged(p, m.round)
  }

  /** Every FTSO publication that the run stores carries the round of its message. */
  ghost predicate FtsoStoresTagged(lib: Library, setup: Setup, actions: seq<Action>) {
    actions != [] ==>
      && FtsoStoresTagged(lib, setup, actions[..|actions| - 1])
      && FtsoStepTagged(lib, setup, Reach(lib, setup, actions[..|actions| - 1]), actions[|actions| - 1])
  }

  ghost predicate FdcStoresTagged(lib: Library, setup: Setup, actions: seq<Action>) {
    actions != [] ==>
      && FdcStoresTagged(lib, setup, actions[..|actions| - 1])
      && FdcStepTagged(lib, setup, Reach(lib, setup, actions[..|actions| - 1]), actions[|actions| - 1])
  }

  /** At every moment of the run the FTSO tables hold exactly the archived publications. */
  ghost predicate FtsoAlwaysRefines(lib: Library, setup: Setup, actions: seq<Action>) {
    && (actions != [] ==> FtsoAlwaysRefines(lib, setup, actions[..|actions| - 1]))
    && FtsoRefines(Reach(lib, setup, actions).db, Reach(lib, setup, actions).archive.ftso)
  }

  ghost predicate FdcAlwaysRefines(lib: Library, setup: Setup, actions: seq<Action>) {
    && (actions != [] ==> FdcAlwaysRefines(lib, setup, actions[..|actions| - 1]))
    && FdcRefines(Reach(lib, setup, actions).db, Reach(lib, setup, actions).archive.fdc)
  }

  lemma FtsoStepRefines(lib: Library, setup: Setup, sys: System, action: Action)
    requires FtsoRefines(sys.db, sys.archive.ftso)
    ensures var after := Next(lib, setup, sys, action);
            FtsoRefines(after.db, after.archive.ftso) <==> FtsoStepTagged(lib, setup, sys, action)
  {
    match action {
      case FtsoTick(a, replies) =>
        FtsoEffect(lib, setup, sys, a, replies);
        match FtsoPut(lib, setup, sys, a, replies) {
          case None =>
          case Some((m, p)) => FtsoStoreRefines(sys.db, sys.archive.ftso, m, p);
        }
      case FdcTick(a, replies) =>
        FdcEffect(lib, setup, sys, a, replies);
        match FdcPut(lib, setup, sys, a, replies) {
          case None =>
          case Some((m, p)) => FdcStoreKeepsFtso(sys.db, m, p, sys.archive.ftso);
        }
      case HistoryTick(c) => SweepRefines(sys.db, sys.archive.ftso, sys.archive.fdc, c);
      case _ =>
    }
  }

  lemma FdcStepRefines(lib: Library, setup: Setup, sys: System, action: Action)
    requires FdcRefines(sys.db, sys.archive.fdc)
    ensures var after := Next(lib, setup, sys, action);
            FdcRefines(after.db, after.archive.fdc) <==> FdcStepTagged(lib, setup, sys, action)
  {
    match action {
      case FtsoTick(a, replies) =>
        FtsoEffect(lib, setup, sys, a, replies);
        match FtsoPut(lib, setup, sys, a, replies) {
          case None =>
          case Some((m, p)) => FtsoStoreKeepsFdc(sys.db, m, p, sys.archive.fdc);
        }
      case FdcTick(a, replies) =>
        FdcEffect(lib, setup, sys, a, replies);
        match FdcPut(lib, setup, sys, a, replies) {
          case None =>
          case Some((m, p)) => FdcStoreRefines(sys.db, sys.archive.fdc, m, p);
        }
      case HistoryTick(c) => SweepRefines(sys.db, sys.archive.ftso, sys.archive.fdc, c);
      case _ =>
    }
  }

  /** The FTSO tables are right at every moment exactly when every stored publication carries its round. */
  lemma {:induction false} FtsoExactly(lib: Library, setup: Setup, actions: seq<Action>)
    ensures FtsoAlwaysRefines(lib, setup, actions) <==> FtsoStoresTagged(lib, setup, actions)
  {
    if actions != [] {
      var init := actions[..|actions| - 1];
      FtsoExactly(lib, setup, init);
      if FtsoAlwaysRefines(lib, setup, init) {
        FtsoStepRefines(lib, setup, Reach(lib, setup, init), actions[|actions| - 1]);
      }
    }
  }

  lemma {:induction false} FdcExactly(lib: Library, setup: Setup, actions: seq<Action>)
    ensures FdcAlwaysRefines(lib, setup, actions) <==> FdcStoresTagged(lib, setup, actions)
  {
    if actions != [] {
      var init := actions[..|actions| - 1];
      FdcExactly(lib, setup, init);
      if FdcAlwaysRefines(lib, setup, init) {
        FdcStepRefines(lib, setup, Reach(lib, setup, init), actions[|actions| - 1]);
      }
    }
  }

  // ---- what makes the condition true: for FTSO, the chain ----

  /** Every FTSO root on the chain was made from leaves of its own round. */
  ghost predicate HonestChain(lib: Library, chain: iset<Message>) {
    forall m :: m in chain && m.body.protocol == FTSO ==> HonestRoot(lib, m)
  }

  ghost predicate FromChain(logs: seq<Log>, chain: iset<Message>) {
    forall i :: 0 <= i < |logs| ==> logs[i].Decoded? ==> logs[i].message in chain
  }

  ghost predicate LogsFromChain(action: Action, chain: iset<Message>) {
    action.FtsoTick? && action.answer.logs.Some? ==> FromChain(action.answer.logs.value, chain)
  }

  /** What FTSO needs: hash and tree pin their inputs, and the FTSO indexer reads an honest chain. */
  ghost predicate HonestFtso(lib: Library, chain: iset<Message>, actions: seq<Action>) {
    && CollisionFree(lib) && RootPins(lib) && HonestChain(lib, chain)
    && forall i :: 0 <= i < |actions| ==> LogsFromChain(actions[i], chain)
  }

  ghost predicate EventsFromChain(s: Indexer, chain: iset<Message>) {
    && FromChain(s.pending, chain)
    && (forall i :: 0 <= i < |s.queue| ==> s.queue[i].event.message in chain)
  }

  lemma HandleFromChain(cfg: Config, s: Indexer, a: Answer, chain: iset<Message>)
    requires EventsFromChain(s, chain) && s.pending != []
    ensures var s' := Handle(cfg, s, a);
            EventsFromChain(s', chain) && (JustProcessed(s, s').Some? ==> JustProcessed(s, s').value in chain)
  {
    assert s.pending[0].Decoded? ==> s.pending[0].message in chain;
  }

  lemma RetryFromChain(s: Indexer, a: Answer, chain: iset<Message>)
    requires EventsFromChain(s, chain) && s.queue != []
    ensures var s' := Retry(s, a);
            EventsFromChain(s', chain) && (JustProcessed(s, s').Some? ==> JustProcessed(s, s').value in chain)
  {
    assert s.queue[0].event.message in chain;
  }

  lemma StepFromChain(cfg: Config, s: Indexer, a: Answer, chain: iset<Message>)
    requires EventsFromChain(s, chain) && (a.logs.Some? ==> FromChain(a.logs.value, chain))
    ensures var s' := Step(cfg, s, a);
            EventsFromChain(s', chain) && (JustProcessed(s, s').Some? ==> JustProcessed(s, s').value in chain)
  {
    if s.phase.Catching? && s.pending != [] {
      HandleFromChain(cfg, s, a, chain);
    } else if s.phase.Retrying? && s.queue != [] {
      RetryFromChain(s, a, chain);
    }
  }

  lemma ChainTags(lib: Library, setup: Setup, sys: System, action: Action, chain: iset<Message>)
    requires CollisionFree(lib) && RootPins(lib) && HonestChain(lib, chain)
    requires EventsFromChain(sys.ftso, chain) && LogsFromChain(action, chain)
    ensures EventsFromChain(Next(lib, setup, sys, action).ftso, chain)
    ensures FtsoStepTagged(lib, setup, sys, action)
  {
    if action.FtsoTick? {
      StepFromChain(setup.ftso, sys.ftso, FtsoAnswer(lib, sys.db, action.answer, action.ftsoReplies), chain);
      match FtsoPut(lib, setup, sys, action.answer, action.ftsoReplies) {
        case None =>
        case Some((m, p)) =>
          var i := FtsoAccepted(lib, m, action.ftsoReplies(m.round), p);
          FtsoRowsCarryTheRound(lib, m, action.ftsoReplies(m.round)[i]);
      }
    }
  }

  /** An honest chain makes every stored FTSO publication carry its round, whatever the providers send. */
  lemma {:induction false} HonestRunsAreTagged(lib: Library, setup: Setup, chain: iset<Message>, actions: seq<Action>)
    requires HonestFtso(lib, chain, actions)
    ensures EventsFromChain(Reach(lib, setup, actions).ftso, chain)
    ensures FtsoStoresTagged(lib, setup, actions)
  {
    if actions != [] {
      var init := actions[..|actions| - 1];
      HonestRunsAreTagged(lib, setup, chain, init);
      ChainTags(lib, setup, Reach(lib, setup, init), actions[|actions| - 1], chain);
    }
  }

  // ---- and for FDC, the providers ----

  /** FDC providers tag attestations with the round they are asked for. */
  ghost predicate TaggedReplies(action: Action) {
    action.FdcTick? ==>
      forall r, i :: 0 <= i < |action.fdcReplies(r)| ==>
        action.fdcReplies(r)[i].FdcData? ==> Tagged(action.fdcReplies(r)[i].attestations, r)
  }

  lemma {:induction false} TaggedRepliesSuffice(lib: Library, setup: Setup, actions: seq<Action>)
    requires forall i :: 0 <= i < |actions| ==> TaggedReplies(actions[i])
    ensures FdcStoresTagged(lib, setup, actions)
  {
    if actions != [] {
      var init, action := actions[..|actions| - 1], actions[|actions| - 1];
      TaggedRepliesSuffice(lib, setup, init);
      if action.FdcTick? {
        match FdcPut(lib, setup, Reach(lib, setup, init), action.answer, action.fdcReplies) {
          case None =>
          case Some((m, p)) =>
            var i := FdcAccepted(lib, m, action.fdcReplies(m.round), p);
            assert TaggedReplies(action);
        }
      }
    }
  }

  // ---- what it means for the rounds ----

  /** One message, one random and the feeds behind the relayed root, or nothing at all. */
  ghost predicate FtsoWhole(lib: Library, v: FtsoView) {
    || (v.messages == [] && v.randoms == [] && v.feeds == [])
    || (|v.messages| == 1 && |v.randoms| == 1
        && Backed(lib, FtsoPayload(v.randoms[0], v.feeds), v.messages[0].body.root))
  }

  /** One message and at least one attestation behind the relayed root, or nothing at all. */
  ghost predicate FdcWhole(lib: Library, v: FdcView) {
    || (v.messages == [] && v.attestations == [])
    || (|v.messages| == 1 && v.attestations != [] && BackedFdc(lib, v.attestations, v.messages[0].body.root))
  }

  /** An FTSO message is stored exactly when its data is, and then all of it is, with the relayed root. */
  lemma FtsoRoundsWhole(lib: Library, setup: Setup, chain: iset<Message>, actions: seq<Action>, r: int)
    requires HonestFtso(lib, chain, actions)
    ensures FtsoWhole(lib, FtsoRound(Reach(lib, setup, actions).db, r))
  {
    HonestRunsAreTagged(lib, setup, chain, actions);
    FtsoExactly(lib, setup, actions);
    ReachableInvariant(lib, setup, actions);
    var sys := Reach(lib, setup, actions);
    assert FtsoRound(sys.db, r) == FtsoExpected(sys.archive.ftso, r);
  }

  /** The same for FDC, as long as every stored attestation carries its round; an empty tree has no root. */
  lemma FdcRoundsWhole(lib: Library, setup: Setup, actions: seq<Action>, r: int)
    requires lib.merkleRoot([]).None? && FdcStoresTagged(lib, setup, actions)
    ensures FdcWhole(lib, FdcRound(Reach(lib, setup, actions).db, r))
  {
    FdcExactly(lib, setup, actions);
    ReachableInvariant(lib, setup, actions);
    var sys := Reach(lib, setup, actions);
    assert FdcRound(sys.db, r) == FdcExpected(sys.archive.fdc, r);
  }

  /**
   * What is stored for a message does not depend on the configuration, on which providers answered, on
   * retries or on the interleaving: two runs that hold the same message agree on every hashed field.
   */
  lemma FtsoRunsAgree(
    lib: Library, chain: iset<Message>, s: Setup, a: seq<Action>, t: Setup, b: seq<Action>, r: int)
    requires HonestFtso(lib, chain, a) && HonestFtso(lib, chain, b)
    ensures var v, w := FtsoRound(Reach(lib, s, a).db, r), FtsoRound(Reach(lib, t, b).db, r);
            v.messages != [] && v.messages == w.messages ==>
              |v.randoms| == |w.randoms| == 1
              && SameFields(lib, FtsoPayload(v.randoms[0], v.feeds), FtsoPayload(w.randoms[0], w.feeds))
  {
    FtsoRoundsWhole(lib, s, chain, a, r);
    FtsoRoundsWhole(lib, t, chain, b, r);
    var v, w := FtsoRound(Reach(lib, s, a).db, r), FtsoRound(Reach(lib, t, b).db, r);
    if v.messages != [] && v.messages == w.messages {
      BackedAgree(lib, FtsoPayload(v.randoms[0], v.feeds), FtsoPayload(w.randoms[0], w.feeds), v.messages[0].body.root);
    }
  }

  lemma FdcRunsAgree(lib: Library, s: Setup, a: seq<Action>, t: Setup, b: seq<Action>, r: int)
    requires CollisionFree(lib) && RootPins(lib) && lib.merkleRoot([]).None?
    requires FdcStoresTagged(lib, s, a) && FdcStoresTagged(lib, t, b)
    ensures var v, w := FdcRound(Reach(lib, s, a).db, r), FdcRound(Reach(lib, t, b).db, r);
            v.messages != [] && v.messages == w.messages ==> SameResponses(lib, v.attestations, w.attestations)
  {
    FdcRoundsWhole(lib, s, a, r);
    FdcRoundsWhole(lib, t, b, r);
    var v, w := FdcRound(Reach(lib, s, a).db, r), FdcRound(Reach(lib, t, b).db, r);
    if v.messages != [] && v.messages == w.messages {
      BackedFdcAgree(lib, v.attestations, w.attestations, v.messages[0].body.root);
    }
  }

  /** What one step does to the archived publication of a round. */
  ghost predicate EntryMoves<P>(before: map<int, (Message, P)>, after: map<int, (Message, P)>, r: int,
                                swept: bool, filled: bool)
  {
    || ((r in before <==> r in after) && (r in before ==> after[r] == before[r]))
    || (r !in after && swept)
    || (r !in before && filled)
  }

  lemma ArchiveMoves(lib: Library, setup: Setup, sys: System, action: Action, r: int)
    requires Invariant(lib, sys)
    ensures var after := Next(lib, setup, sys, action);
            var swept := action.HistoryTick? && r < action.cutoff;
            && EntryMoves(sys.archive.ftso, after.archive.ftso, r, swept, action.FtsoTick?)
            && EntryMoves(sys.archive.fdc, after.archive.fdc, r, swept, action.FdcTick?)
  {
    match action {
      case FtsoTick(a, replies) =>
        FtsoEffect(lib, setup, sys, a, replies);
        var put := FtsoPut(lib, setup, sys, a, replies);
        if put.Some? {
          assert Relayed(sys.db, FTSO, put.value.0.round) == Expected(sys.archive, FTSO, put.value.0.round);
        }
      case FdcTick(a, replies) =>
        FdcEffect(lib, setup, sys, a, replies);
        var put := FdcPut(lib, setup, sys, a, replies);
        if put.Some? {
          assert Relayed(sys.db, FDC, put.value.0.round) == Expected(sys.archive, FDC, put.value.0.round);
        }
      case _ =>
    }
  }

  /** A step fills an empty FTSO round, removes the round whole below a sweep's cut-off, or leaves it alone. */
  lemma FtsoRoundsMoveWhole(lib: Library, setup: Setup, chain: iset<Message>, actions: seq<Action>, r: int)
    requires actions != [] && HonestFtso(lib, chain, actions)
    ensures var action := actions[|actions| - 1];
            var before := FtsoRound(Reach(lib, setup, actions[..|actions| - 1]).db, r);
            var after := FtsoRound(Reach(lib, setup, actions).db, r);
            || after == before
            || (after == FtsoView([], [], []) && action.HistoryTick? && r < action.cutoff)
            || (before == FtsoView([], [], []) && action.FtsoTick?)
  {
    var init := actions[..|actions| - 1];
    var sys, sys' := Reach(lib, setup, init), Reach(lib, setup, actions);
    HonestRunsAreTagged(lib, setup, chain, actions);
    FtsoExactly(lib, setup, actions);
    ReachableInvariant(lib, setup, init);
    ArchiveMoves(lib, setup, sys, actions[|actions| - 1], r);
    assert FtsoRound(sys.db, r) == FtsoExpected(sys.archive.ftso, r);
    assert FtsoRound(sys'.db, r) == FtsoExpected(sys'.archive.ftso, r);
  }

  lemma FdcRoundsMoveWhole(lib: Library, setup: Setup, actions: seq<Action>, r: int)
    requires actions != [] && FdcStoresTagged(lib, setup, actions)
    ensures var action := actions[|actions| - 1];
            var before := FdcRound(Reach(lib, setup, actions[..|actions| - 1]).db, r);
            var after := FdcRound(Reach(lib, setup, actions).db, r);
            || after == before
            || (after == FdcView([], []) && action.HistoryTick? && r < action.cutoff)
            || (before == FdcView([], []) && action.FdcTick?)
  {
    var init := actions[..|actions| - 1];
    var sys, sys' := Reach(lib, setup, init), Reach(lib, setup, actions);
    FdcExactly(lib, setup, actions);
    ReachableInvariant(lib, setup, init);
    ArchiveMoves(lib, setup, sys, actions[|actions| - 1], r);
    assert FdcRound(sys.db, r) == FdcExpected(sys.archive.fdc, r);
    assert FdcRound(sys'.db, r) == FdcExpected(sys'.archive.fdc, r);
  }
}
