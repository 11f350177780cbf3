/** Revocations and invocations together: what a set bit stops, from the next admission on, and what it does not stop. */
module RevocationRuns {
  import opened Wrappers
  import opened Text
  import opened Capability
  import opened Attenuation
  import opened AttenuationTheory
  import opened Monitor
  import opened MonitorRuns
  import opened EndToEnd
  import opened KillSwitch
  import opened Witnesses
  import S = StatusList

  /** The status checks of the network read the current version of one status list; of other lists nothing is said. */
  ghost predicate Watches(net: Network, list: Did, bits: set<int>) {
    exists lists: Lists :: Serves(lists, list, bits) && forall c, d :: net.status(c, d) == CheckHop(lists, c, d)
  }

  /** A run of the monitor and a run of the revocations of one list, step by step side by side. */
  ghost predicate Joint(cfg: Config, honest: set<Did>, trace: seq<State>, board: seq<S.History>, list: Did) {
    && Run(cfg, honest, trace) && S.Run(board) && |board| == |trace|
    && forall k | 0 <= k < |trace| :: board[k].versions != [] && Watches(trace[k].net, list, S.Current(board[k]))
  }

  ghost predicate NothingLost(board: seq<S.History>, n: nat) {
    forall k, l | 0 <= k && k + 1 == l <= n && l < |board| :: S.WritesOnCurrent(board[k], board[l])
  }

  /** The chain that an invocation presents passes through a hop that points at this bit. */
  ghost predicate Through(net: Network, cfg: Config, inv: Invocation, list: Did, index: nat) {
    exists i :: 0 <= i < |Walk(net.world.ledger, inv.chain.leafVcDid, None, MAX_HOPS)|
                && PointsAt(PolicyOf(net, cfg, inv.chain.disclosed),
                            Walk(net.world.ledger, inv.chain.leafVcDid, None, MAX_HOPS)[i], list, index)
  }

  lemma {:induction false} ResolvedIsLive(
      net: Network, cfg: Config, inv: Invocation, from: Did, leaf: Leaf, list: Did, bits: set<int>, index: nat)
    requires Resolves(net, cfg, inv, from, leaf) && Watches(net, list, bits) && index in bits
    ensures !Through(net, cfg, inv, list, index)
  {
    hide Verdict, Walk, PointsAt;
    var p := PolicyOf(net, cfg, inv.chain.disclosed);
    var lists: Lists :| Serves(lists, list, bits) && forall c, d :: net.status(c, d) == CheckHop(lists, c, d);
    var hops := Walk(net.world.ledger, inv.chain.leafVcDid, None, MAX_HOPS);
    forall i: nat | i < |hops| && PointsAt(p, hops[i], list, index) ensures false {
      RevokedIsRefused(lists, net.world, p, inv.chain.leafVcDid, i, list, index);
    }
  }

  /** After the bit of a hop was set, no invocation over a chain through the hop is admitted any more. */
  lemma {:induction false} NoAdmissionAfterRevocation(
      cfg: Config, honest: set<Did>, trace: seq<State>, board: seq<S.History>, list: Did, index: nat, i: nat, j: nat,
      t: State, p: nat, inv: Invocation, from: Did, leaf: Leaf, now: int)
    requires Joint(cfg, honest, trace, board, list) && i <= j < |trace| && NothingLost(board, j)
    requires index in S.Current(board[i])
    requires Admit(cfg, trace[j], t, p, inv, from, leaf, now)
    ensures !Through(trace[j].net, cfg, inv, list, index)
  {
    hide Run, S.Run, S.WritesOnCurrent, Resolves, Watches, Through, S.Durable;
    S.BitsStay(board, i, j);
    ResolvedIsLive(trace[j].net, cfg, inv, from, leaf, list, S.Current(board[j]), index);
  }

  /** In every joint run, whatever is disclosed was admitted over a chain none of whose hops had been revoked by then. */
  lemma {:induction false} DisclosedWasLive(
      cfg: Config, honest: set<Did>, trace: seq<State>, board: seq<S.History>, list: Did, i: nat, p: nat) returns (j: nat)
    requires Joint(cfg, honest, trace, board, list) && i < |trace| && NothingLost(board, i)
    requires p < |trace[i].phases| && trace[i].phases[p].Disclosed?
    ensures j < i && AdmittedAt(cfg, trace[j], trace[j + 1], p, trace[i].phases[p].c.inv, trace[i].phases[p].c.leaf)
    ensures forall k, index: nat | 0 <= k <= j && index in S.Current(board[k]) ::
              !Through(trace[j].net, cfg, trace[i].phases[p].c.inv, list, index)
  {
    hide Run, S.Run, S.WritesOnCurrent, Watches, Admit, PointsAt, Walk;
    j := WasAdmitted(cfg, honest, trace, i, p);
    var inv, leaf := trace[i].phases[p].c.inv, trace[i].phases[p].c.leaf;
    var first, from, now :|
      Admit(cfg, trace[j], trace[j + 1], p, first, from, leaf, now) && first.act == inv.act && first.chain == inv.chain;
    forall k: nat, index: nat | k <= j && index in S.Current(board[k])
      ensures !Through(trace[j].net, cfg, inv, list, index)
    {
      NoAdmissionAfterRevocation(cfg, honest, trace, board, list, index, k, j, trace[j + 1], p, first, from, leaf, now);
    }
  }

  // ---------- what it does not stop ----------

  function OneList(list: Did, bits: set<int>): Lists {
    map[list := Published(SOVEREIGN, bits)]
  }

  function StatusFrom(list: Did, bits: set<int>): (Option<Caveats>, Did) -> HopStatus {
    (c, d) => CheckHop(OneList(list, bits), c, d)
  }

  /** The bit of the only hop is set after the admission: the chain is refused from then on, and the invocation that
      was admitted, and may be waiting for the consent of a human, is granted all the same. */
  lemma {:induction false} RevokedAfterAdmission(honest: set<Did>, list: Did, index: nat, ch: string, txn: string)
    returns (trace: seq<State>, k: nat)
    requires S.InRange(index)
    ensures trace != [] && Run(Setting(), honest, trace) && k < |trace| && |trace[k].phases| == 1
    ensures trace[k].phases[0].Admitted? && Watches(trace[k].net, list, {index})
    ensures var chain := trace[k].phases[0].inv.chain;
            !Verdict(trace[k].net.world, PolicyOf(trace[k].net, Setting(), chain.disclosed), chain.leafVcDid).Accept?
    ensures var s := trace[|trace| - 1]; s.net == trace[k].net && |s.phases| == 1 && s.phases[0].Disclosed?
  {
    hide Run, Resolves, Passes, Verdict, Walk, ClearOf;
    var pointer := Some(StatusPointer(list, index));
    var before := NetworkWith(pointer, StatusFrom(list, {}), {(ch, txn)});
    var after := NetworkWith(pointer, StatusFrom(list, {index}), {(ch, txn)});
    var a := AttemptOf(pointer, ch, txn);
    AttemptResolves(pointer, StatusFrom(list, {}), {(ch, txn)}, ch, txn);
    AttemptPasses(pointer, StatusFrom(list, {index}), {(ch, txn)}, ch, txn);
    NobodyConsented(honest, pointer, StatusFrom(list, {}), {(ch, txn)});
    NobodyConsented(honest, pointer, StatusFrom(list, {index}), {(ch, txn)});
    trace, k := AdmittedStillDiscloses(Setting(), honest, before, after, {}, a);
    k := k + 1;
    assert Watches(after, list, {index}) by { assert Serves(OneList(list, {index}), list, {index}); }
    ChainIsRefused(list, index, {(ch, txn)});
  }

  lemma {:induction false} ChainIsRefused(list: Did, index: nat, asked: set<(string, string)>)
    ensures var pointer := Some(StatusPointer(list, index));
            var net := NetworkWith(pointer, StatusFrom(list, {index}), asked);
            !Verdict(net.world, PolicyOf(net, Setting(), map[GRANT := Shown(pointer)]), GRANT).Accept?
  {
    hide Verdict;
    var pointer := Some(StatusPointer(list, index));
    var net := NetworkWith(pointer, StatusFrom(list, {index}), asked);
    var p := PolicyOf(net, Setting(), map[GRANT := Shown(pointer)]);
    assert Walk(net.world.ledger, GRANT, None, MAX_HOPS) == [Hop(GRANT, RootVersion(pointer))];
    RevokedIsRefused(OneList(list, {index}), net.world, p, GRANT, 0, list, index);
  }
}
