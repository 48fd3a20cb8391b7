/**
 Closed and retired are not the same: a module can be closed without its resources
 (closeWithExitCodeWithoutClosingResource in internal/wasm/module_instance.go), which leaves its
 memory to the next FailIfClosed. This is when it is left for good.
 */
module ReclamationClosing {
  import opened ImportGraph
  import opened Reclamation
  import opened ReclamationInv
  import opened ReclamationSafety

  /** Step `k` of the run is the load of Closed in a FailIfClosed that finds `m` closed. */
  ghost predicate FoundClosed(r: seq<State>, k: nat, m: Id) {
    && 0 < k < |r| && m in r[k - 1].mods.exit
    && exists t :: At(r[k - 1], t) == LoadClosed(m) && At(r[k], t) != LoadClosed(m)
  }

  ghost predicate BeingRetired(s: State, m: Id) {
    m in s.mods.graph.closed || exists t :: Retiring(At(s, t), m)
  }

  /** What has begun to retire ends retired. */
  lemma BeingRetiredStays(s: State, t: Tid, a: Action, m: Id)
    requires Base(s) && Enabled(s, t, a) && m in s.mods.exit && BeingRetired(s, m)
    ensures BeingRetired(Step(s, t, a), m)
  {
    ClosedGrows(s, t, a, m);
    if m !in s.mods.graph.closed {
      var u :| Retiring(At(s, u), m);
      RetiringStays(s, t, a, m, u);
    }
  }

  lemma {:induction false} ExitStays(r: seq<State>, i: nat, j: nat, m: Id)
    requires Run(r) && i <= j < |r| && m in r[i].mods.exit
    ensures m in r[j].mods.exit && r[j].mods.exit[m] == r[i].mods.exit[m]
    decreases j
  {
    if i < j {
      ExitStays(r, i, j - 1, m);
      var t, a := StepOf(r, j);
      ClosedGrows(r[j - 1], t, a, m);
    }
  }

  lemma {:induction false} FoundIsRetired(r: seq<State>, k: nat, i: nat, m: Id)
    requires Run(r) && k <= i < |r| && FoundClosed(r, k, m) && r[k - 1].mods.exit[m] == ResourceNotClosed
    ensures m in r[i].mods.exit && BeingRetired(r[i], m)
    decreases i
  {
    if k < i {
      FoundIsRetired(r, k, i - 1, m);
      var t, a := StepOf(r, i);
      ClosedGrows(r[i - 1], t, a, m);
      BeingRetiredStays(r[i - 1], t, a, m);
    } else {
      var t, a := StepOf(r, k);
      ExitStays(r, k - 1, k, m);
      var u :| At(r[k - 1], u) == LoadClosed(m) && At(r[k], u) != LoadClosed(m);
      LoadsClosed(r[k - 1], t, a, u, m);
    }
  }

  lemma LoadsClosed(s: State, t: Tid, a: Action, u: Tid, m: Id)
    requires Base(s) && Enabled(s, t, a) && m in s.mods.exit && s.mods.exit[m] == ResourceNotClosed
    requires At(s, u) == LoadClosed(m) && At(Step(s, t, a), u) != LoadClosed(m)
    ensures Retiring(At(Step(s, t, a), u), m)
  {
    OthersStay(s, t, a);
  }

  /** Retirement begins only with a close that also closes the resources, or with such a load. */
  lemma RetirementBegins(s: State, t: Tid, a: Action, m: Id)
    requires Base(s) && Enabled(s, t, a) && !BeingRetired(s, m) && BeingRetired(Step(s, t, a), m)
    ensures m in Step(s, t, a).mods.exit
    ensures Step(s, t, a).mods.exit[m] == ResourceClosed || (At(s, t) == LoadClosed(m) && m in s.mods.exit)
    ensures At(Step(s, t, a), t) != LoadClosed(m)
  {
    OthersStay(s, t, a);
    assert !Retiring(At(s, t), m);
    assert Retiring(At(Step(s, t, a), t), m);
  }

  lemma {:induction false} UnfoundStays(r: seq<State>, i: nat, m: Id)
    requires Run(r) && i < |r|
    requires m in r[i].mods.exit ==> r[i].mods.exit[m] == ResourceNotClosed
    requires forall k :: 0 < k <= i ==> !FoundClosed(r, k, m)
    ensures !BeingRetired(r[i], m)
    decreases i
  {
    if i > 0 {
      if m in r[i - 1].mods.exit {
        ExitStays(r, i - 1, i, m);
      }
      UnfoundStays(r, i - 1, m);
      var t, a := StepOf(r, i);
      if BeingRetired(r[i], m) {
        RetirementBegins(r[i - 1], t, a, m);
        assert FoundClosed(r, i, m);
      }
    }
  }

  /** When no call and no retirement is in progress, a module whose Closed is set is not retired
      if and only if it was closed without its resources and no FailIfClosed has found it closed. */
  lemma ClosedButNotRetired(r: seq<State>, i: nat, m: Id)
    requires Run(r) && i < |r| && AllQuiet(r[i]) && m in r[i].mods.exit
    ensures m !in r[i].mods.graph.closed <==>
            r[i].mods.exit[m] == ResourceNotClosed && forall k :: 0 < k <= i ==> !FoundClosed(r, k, m)
  {
    RunKeepsInv(r, i);
    if r[i].mods.exit[m] == ResourceNotClosed {
      if k :| 0 < k <= i && FoundClosed(r, k, m) {
        ExitStays(r, k - 1, i, m);
        FoundIsRetired(r, k, i, m);
      } else {
        UnfoundStays(r, i, m);
      }
    }
  }

  /** One step of a run more. */
  lemma Extend(r: seq<State>, t: Tid, a: Action) returns (r': seq<State>)
    requires Run(r) && Enabled(r[|r| - 1], t, a)
    ensures r' == r + [Step(r[|r| - 1], t, a)] && Run(r')
  {
    r' := r + [Step(r[|r| - 1], t, a)];
    forall i | 0 < i < |r'| ensures StepsTo(r', i) {
      if i < |r| {
        assert StepsTo(r, i);
      }
    }
  }

  /** Such a run: a module with a memory is created and closed without its resources, and nobody
      comes back to it. All is quiet, and its memory is neither freed nor on its way to be. */
  lemma ClosedMayStay(t: Tid, m: Id) returns (r: seq<State>)
    ensures Run(r) && AllQuiet(r[|r| - 1])
    ensures var s := r[|r| - 1];
            && m in s.mods.exit && m in s.mods.owns && m !in s.mods.graph.closed
            && m !in s.mem.place && s.mem.freed == []
  {
    r := Extend([Initial], t, Instantiate(m));
    r := Extend(r, t, Publish(true));
    r := Extend(r, t, Close(m, ResourceNotClosed));
    r := Extend(r, t, Go);
  }
}
