/** Soundness of entering and leaving blocks. */
module ValidationBlocks {
  import opened Validation
  import opened WasmMachine
  import opened ValidationLemmas
  import opened ValidationTrace
  import opened ValidationAgreement

  /** Entering a block leaves a known stack as it is. */
  lemma EnterIs(v: VState, f: Frame)
    requires WellFormed(v) && v.frames != [] && Known(v.stack) && Known(f.ft.params) && Enter(v, f).Some?
    ensures var v' := Enter(v, f).value;
            && v'.stack == v.stack && v'.frames == v.frames + [f]
            && |f.ft.params| <= |v.stack| && v'.limits == v.limits + [|v.stack| - |f.ft.params|]
            && v.stack == v.stack[..|v.stack| - |f.ft.params|] + f.ft.params
  {
    PoppedAndPushed(v, f.ft.params);
  }

  lemma PoppedAndPushed(v: VState, ts: Types)
    requires Limit(v) <= |v.stack| && Known(v.stack) && Known(ts) && PopTypes(v, ts).Some?
    ensures var v1 := PopTypes(v, ts).value;
            var v2 := PushAll(v1, ts);
            && |v1.stack| + |ts| == |v.stack| && v.stack == v.stack[..|v1.stack|] + ts
            && v2.stack == v.stack && v2.frames == v.frames && v2.limits == v.limits
  {
    PopTypesExact(v, ts);
    var v1 := PopTypes(v, ts).value;
    PushAllIs(v1, ts);
    assert v.stack == v.stack[..|v1.stack|] + v.stack[|v1.stack|..];
  }

  lemma LabelsEntered(v: VState, v': VState, f: Frame, limit: nat)
    requires WellFormed(v) && v.frames != []
    requires v'.frames == v.frames + [f] && v'.limits == v.limits + [limit]
    ensures LabelsOf(v') == LabelsOf(v) + [Label(f.startAt, f.op == OpLoop, f.ft, limit)]
  {
    forall j | 0 <= j < |v.frames|
      ensures LabelAt(v', j) == LabelAt(v, j)
    {
    }
  }

  /** Entering a block whose parameters the validator has checked. */
  lemma EnterAgrees(c: Config, v: VState, f: Frame, pc: nat)
    requires Agrees(c, v) && WellFormed(v) && v.frames != [] && Known(f.ft.params) && Enter(v, f).Some?
    requires f.startAt == c.pc
    ensures var o := EnterBlock(c, f.op == OpLoop, f.ft, pc);
            && o.Next? && o.c == c.(pc := pc, labels := LabelsOf(Enter(v, f).value))
            && Agrees(o.c, Enter(v, f).value)
  {
    HasWhatIsPopped(c, v, f.ft.params);
    EnterIs(v, f);
    LabelsEntered(v, Enter(v, f).value, f, |v.stack| - |f.ft.params|);
  }

  lemma BlockSound(fn: Function, tr: seq<VState>, c: Config, choice: Choice)
    requires KnownFunction(fn) && Trace(fn, tr) && Typed(fn, tr, c)
    requires fn.code[c.pc].Block? || fn.code[c.pc].Loop?
    ensures Sound(fn, tr, Exec(fn, c, choice))
  {
    var i := fn.code[c.pc];
    BlockChecked(fn, tr, c.pc);
    assert KnownAt(fn, c.pc);
    BlockIs(fn, c, choice);
    EnterAgrees(c, tr[c.pc], OpenedBy(i, c.pc), c.pc + 1);
  }

  function OpenedBy(i: Instr, pc: nat): Frame
    requires i.Block? || i.Loop?
  {
    Frame(pc, if i.Loop? then OpLoop else OpBlock, i.ft)
  }

  lemma BlockChecked(fn: Function, tr: seq<VState>, pc: nat)
    requires Trace(fn, tr) && pc < |fn.code| && (fn.code[pc].Block? || fn.code[pc].Loop?)
    ensures pc + 1 < |fn.code| && WellFormed(tr[pc]) && tr[pc].frames != []
    ensures Enter(tr[pc], OpenedBy(fn.code[pc], pc)) == Some(tr[pc + 1])
  {
    Entered(fn, tr, pc);
    TraceWellFormed(fn, tr, pc);
    assert Checks(fn, tr, pc);
  }

  lemma BlockIs(fn: Function, c: Config, choice: Choice)
    requires c.pc < |fn.code| && c.labels != [] && (fn.code[c.pc].Block? || fn.code[c.pc].Loop?)
    ensures Exec(fn, c, choice) == EnterBlock(c, fn.code[c.pc].Loop?, fn.code[c.pc].ft, c.pc + 1)
  {
  }

  lemma LabelsTurned(v: VState, v': VState)
    requires v.frames != [] && v.frames[|v.frames| - 1].op == OpIf && v'.limits == v.limits
    requires v'.frames == v.frames[..|v.frames| - 1] + [v.frames[|v.frames| - 1].(op := OpElse)]
    ensures LabelsOf(v') == LabelsOf(v)
  {
    forall j | 0 <= j < |v.frames|
      ensures LabelAt(v', j) == LabelAt(v, j)
    {
    }
  }

  /** An If in reachable code, with its condition popped. */
  ghost predicate AtIf(fn: Function, tr: seq<VState>, c: Config, v1: VState) {
    && Trace(fn, tr) && c.pc + 1 < |fn.code| && fn.code[c.pc].If?
    && Known(fn.code[c.pc].ft.params) && Known(fn.code[c.pc].ft.results)
    && WellFormed(v1) && v1.frames != [] && Agrees(c, v1) && StoreTyped(fn, c)
    && Enter(v1, Frame(c.pc, OpIf, fn.code[c.pc].ft)) == Some(tr[c.pc + 1])
  }

  /** Else brings back the stack and the labels with which its If was entered. */
  lemma ElseRestores(u: VState, w: VState, k: nat)
    requires WellFormed(u) && WellFormed(w) && Keeps(u, w, k) && |u.frames| == |w.frames| == k + 1
    requires u.stack == u.stack[..LimitOf(u, k)] + u.frames[k].ft.params && CheckElse(w).Some?
    ensures CheckElse(w).value.stack == u.stack && LabelsOf(CheckElse(w).value) == LabelsOf(u)
  {
    ElseTurns(w);
    LabelsTurned(w, CheckElse(w).value);
    FrameLimit(u, w, k);
    LabelsKept(u, w, k);
    assert LabelsOf(w)[..k + 1] == LabelsOf(w) && LabelsOf(u)[..k + 1] == LabelsOf(u);
  }

  lemma ElseChecked(fn: Function, tr: seq<VState>, q: nat)
    requires Trace(fn, tr) && q < |fn.code| && fn.code[q].Else?
    ensures WellFormed(tr[q]) && tr[q].frames != [] && q + 1 < |fn.code|
    ensures CheckElse(tr[q]) == Some(tr[q + 1])
  {
    Advance(fn, tr, q, 0);
    assert Checks(fn, tr, q);
  }

  lemma IfChecked(fn: Function, tr: seq<VState>, pc: nat)
    requires Trace(fn, tr) && pc < |fn.code| && fn.code[pc].If?
    ensures WellFormed(tr[pc]) && tr[pc].frames != [] && pc + 1 < |fn.code|
    ensures PopType(tr[pc], I32).Some?
    ensures Enter(PopType(tr[pc], I32).value, Frame(pc, OpIf, fn.code[pc].ft)) == Some(tr[pc + 1])
  {
    Advance(fn, tr, pc, 0);
    assert Checks(fn, tr, pc);
  }

  /** A false If goes to its Else, where the stack is again as after entering the If. */
  lemma FalseIfWithElse(fn: Function, tr: seq<VState>, c: Config, v1: VState, q: nat)
    requires AtIf(fn, tr, c, v1)
    requires q < |fn.code| && fn.code[q].Else? && Keeps(tr[c.pc + 1], tr[q], |v1.frames|)
    requires |tr[q].frames| == |v1.frames| + 1
    ensures Typed(fn, tr, c.(pc := q + 1, labels := LabelsOf(tr[c.pc + 1])))
  {
    var u, k := tr[c.pc + 1], |v1.frames|;
    EnterIs(v1, Frame(c.pc, OpIf, fn.code[c.pc].ft));
    TraceWellFormed(fn, tr, c.pc + 1);
    ElseChecked(fn, tr, q);
    ElseRestores(u, tr[q], k);
  }

  /** Without an Else it goes behind its End: the parameters are the results. */
  lemma FalseIfWithoutElse(fn: Function, tr: seq<VState>, c: Config, v1: VState, q: nat)
    requires AtIf(fn, tr, c, v1)
    requires q < |fn.code| && fn.code[q].End? && Keeps(tr[c.pc + 1], tr[q], |v1.frames|)
    requires |tr[q].frames| == |v1.frames| + 1 && tr[q].frames[|v1.frames|].op == OpIf
    ensures Has(c, fn.code[c.pc].ft.params) && Typed(fn, tr, c.(pc := q + 1))
  {
    var f := Frame(c.pc, OpIf, fn.code[c.pc].ft);
    var u, k := tr[c.pc + 1], |v1.frames|;
    HasWhatIsPopped(c, v1, f.ft.params);
    IfEntered(c, v1, f);
    TraceWellFormed(fn, tr, c.pc + 1);
    EndOfIf(fn, tr, q, k);
    LandsAfterEnd(fn, tr, u, q, k, c.(pc := q + 1));
  }

  lemma IfEntered(c: Config, v1: VState, f: Frame)
    requires Agrees(c, v1) && WellFormed(v1) && v1.frames != [] && Known(f.ft.params) && Enter(v1, f).Some?
    ensures var u, k := Enter(v1, f).value, |v1.frames|;
            && u.frames == v1.frames + [f] && LimitOf(u, k) <= |u.stack| && LabelsOf(u)[..k] == c.labels
            && TypesOf(c.vals) == u.stack[..LimitOf(u, k)] + f.ft.params && Known(u.stack[..LimitOf(u, k)])
  {
    EnterIs(v1, f);
    EnteredShape(c, v1, Enter(v1, f).value, f, |v1.stack| - |f.ft.params|);
  }

  lemma EnteredShape(c: Config, v: VState, u: VState, f: Frame, n: nat)
    requires Agrees(c, v) && WellFormed(v) && v.frames != [] && n <= |v.stack| && v.stack == v.stack[..n] + f.ft.params
    requires u.stack == v.stack && u.frames == v.frames + [f] && u.limits == v.limits + [n]
    ensures var k := |v.frames|;
            && LimitOf(u, k) <= |u.stack| && LabelsOf(u)[..k] == c.labels
            && TypesOf(c.vals) == u.stack[..LimitOf(u, k)] + f.ft.params && Known(u.stack[..LimitOf(u, k)])
  {
    LabelsEntered(v, u, f, n);
  }

  /** An If that ends without an Else has the same parameters as results. */
  lemma EndOfIf(fn: Function, tr: seq<VState>, q: nat, k: nat)
    requires Trace(fn, tr) && q < |fn.code| && fn.code[q].End? && |tr[q].frames| == k + 1 && tr[q].frames[k].op == OpIf
    ensures tr[q].frames[k].ft.params == tr[q].frames[k].ft.results
  {
    assert Checks(fn, tr, q) && CheckEnd(tr[q]).Some?;
  }

  lemma FalseIfEnters(fn: Function, tr: seq<VState>, c: Config, v1: VState, q: nat)
    requires AtIf(fn, tr, c, v1)
    requires q < |fn.code| && fn.code[q].Else? && Keeps(tr[c.pc + 1], tr[q], |v1.frames|)
    requires |tr[q].frames| == |v1.frames| + 1
    ensures Sound(fn, tr, EnterBlock(c, false, fn.code[c.pc].ft, q + 1))
  {
    EnterAgrees(c, v1, Frame(c.pc, OpIf, fn.code[c.pc].ft), q + 1);
    FalseIfWithElse(fn, tr, c, v1, q);
  }

  lemma FalseIfSound(fn: Function, tr: seq<VState>, c: Config, v1: VState)
    requires AtIf(fn, tr, c, v1)
    ensures var q := ElseOf(fn.code, c.pc + 1, 0);
            var ft := fn.code[c.pc].ft;
            if q < |fn.code| && fn.code[q].Else? then Sound(fn, tr, EnterBlock(c, false, ft, q + 1))
            else Has(c, ft.params) && Typed(fn, tr, c.(pc := q + 1))
  {
    var q := IfGoesTo(fn, tr, c, v1);
    if fn.code[q].Else? {
      FalseIfEnters(fn, tr, c, v1, q);
    } else {
      FalseIfWithoutElse(fn, tr, c, v1, q);
    }
  }

  /** Where a false If goes: the Else or the End of its own block. */
  lemma IfGoesTo(fn: Function, tr: seq<VState>, c: Config, v1: VState) returns (q: nat)
    requires AtIf(fn, tr, c, v1)
    ensures q == ElseOf(fn.code, c.pc + 1, 0) && q < |fn.code| && (fn.code[q].Else? || fn.code[q].End?)
    ensures q < |tr| && |tr[q].frames| == |v1.frames| + 1 && tr[q].frames[|v1.frames|].op == OpIf
    ensures Keeps(tr[c.pc + 1], tr[q], |v1.frames|)
  {
    EnterIs(v1, Frame(c.pc, OpIf, fn.code[c.pc].ft));
    q := ElseMatches(fn, tr, c.pc + 1, 0);
  }

  lemma FrameLimit(u: VState, v: VState, k: nat)
    requires Keeps(u, v, k)
    ensures LimitOf(u, k) == LimitOf(v, k)
  {
    assert k > 0 ==> u.limits[..k][k - 1] == v.limits[..k][k - 1];
  }

  lemma IfIs(fn: Function, c: Config, choice: Choice)
    requires c.pc < |fn.code| && c.labels != [] && fn.code[c.pc].If? && Has(c, [I32])
    ensures var c1, ft, q := c.(vals := Popped(c, 1)), fn.code[c.pc].ft, ElseOf(fn.code, c.pc + 1, 0);
            Exec(fn, c, choice) ==
            if c.vals[|c.vals| - 1].bits != 0 then EnterBlock(c1, false, ft, c.pc + 1)
            else if q < |fn.code| && fn.code[q].Else? then EnterBlock(c1, false, ft, q + 1)
            else if !Has(c1, ft.params) then Stuck
            else Next(c1.(pc := q + 1))
  {
  }

  lemma IfSound(fn: Function, tr: seq<VState>, c: Config, choice: Choice)
    requires KnownFunction(fn) && Trace(fn, tr) && Typed(fn, tr, c) && fn.code[c.pc].If?
    ensures Sound(fn, tr, Exec(fn, c, choice))
  {
    var v, ft := tr[c.pc], fn.code[c.pc].ft;
    IfChecked(fn, tr, c.pc);
    assert KnownAt(fn, c.pc);
    HasTop(c, v, I32);
    var c1, v1 := c.(vals := Popped(c, 1)), PopType(v, I32).value;
    assert AtIf(fn, tr, c1, v1);
    IfIs(fn, c, choice);
    EnterAgrees(c1, v1, Frame(c.pc, OpIf, ft), c.pc + 1);
    FalseIfSound(fn, tr, c1, v1);
  }

  /** At the end of a block in reachable code exactly its results are above its limit. */
  lemma ExactlyResults(c: Config, v: VState)
    requires Agrees(c, v) && WellFormed(v) && v.frames != []
    requires var f := v.frames[|v.frames| - 1];
             && Known(f.ft.results) && PopTypes(v, f.ft.results).Some? && AtLimit(PopTypes(v, f.ft.results).value)
    ensures var f := v.frames[|v.frames| - 1];
            && v.stack == v.stack[..Limit(v)] + f.ft.results
            && c.labels[|c.labels| - 1].height == Limit(v) <= |c.vals|
            && TypesOf(c.vals[Limit(v)..]) == f.ft.results
  {
    BaseIsLimit(c, v);
    StackAtEnd(v, v.frames[|v.frames| - 1].ft.results);
    TypesOfSlice(c.vals, Limit(v), |c.vals|);
    assert c.vals[Limit(v)..|c.vals|] == c.vals[Limit(v)..];
  }

  lemma StackAtEnd(v: VState, ts: Types)
    requires Limit(v) <= |v.stack| && Known(v.stack) && Known(ts)
    requires PopTypes(v, ts).Some? && AtLimit(PopTypes(v, ts).value)
    ensures v.stack == v.stack[..Limit(v)] + ts && v.stack[Limit(v)..] == ts
  {
    PopTypesExact(v, ts);
    assert v.stack == v.stack[..|v.stack| - |ts|] + v.stack[|v.stack| - |ts|..];
  }

  lemma EndChecked(fn: Function, tr: seq<VState>, e: nat)
    requires Trace(fn, tr) && e < |fn.code| && fn.code[e].End?
    ensures WellFormed(tr[e]) && tr[e].frames != []
    ensures CheckEnd(tr[e]) == Some(tr[e + 1])
  {
    Advance(fn, tr, e, 0);
    assert Checks(fn, tr, e);
  }

  lemma EndSound(fn: Function, tr: seq<VState>, c: Config)
    requires KnownFunction(fn) && Trace(fn, tr) && Typed(fn, tr, c) && fn.code[c.pc].End?
    ensures c.labels != [] && Sound(fn, tr, AtEnd(c, c.pc + 1))
  {
    var k := EndFinds(fn, tr, c);
    EndGoesOn(c, tr[c.pc]);
    if k == 0 {
      EndReturns(fn, c, tr[c.pc]);
    } else {
      EndLands(fn, tr, c, k);
    }
  }

  /** At the end of block `k` its results are all that is on its stack. */
  lemma EndFinds(fn: Function, tr: seq<VState>, c: Config) returns (k: nat)
    requires KnownFunction(fn) && Trace(fn, tr) && Typed(fn, tr, c) && fn.code[c.pc].End?
    ensures var v := tr[c.pc];
            && WellFormed(v) && |v.frames| == k + 1 && c.labels != []
            && Known(v.frames[k].ft.results) && (k == 0 ==> v.frames[k].ft == fn.ft)
            && v.stack == v.stack[..Limit(v)] + v.frames[k].ft.results
            && c.labels[|c.labels| - 1].height == Limit(v) <= |c.vals|
            && TypesOf(c.vals[Limit(v)..]) == v.frames[k].ft.results
  {
    EndChecked(fn, tr, c.pc);
    k := |tr[c.pc].frames| - 1;
    FramesKnown(fn, tr, c.pc, k);
    ExactlyResults(c, tr[c.pc]);
  }

  lemma EndGoesOn(c: Config, v: VState)
    requires Agrees(c, v) && WellFormed(v) && v.frames != []
    requires c.labels[|c.labels| - 1].height == Limit(v) <= |c.vals|
    requires TypesOf(c.vals[Limit(v)..]) == v.frames[|v.frames| - 1].ft.results
    ensures AtEnd(c, c.pc + 1) == if |v.frames| == 1 then Returned(c.vals)
                                  else Next(c.(pc := c.pc + 1, labels := c.labels[..|v.frames| - 1]))
  {
    AtEndIs(c, c.pc + 1);
  }

  lemma EndReturns(fn: Function, c: Config, v: VState)
    requires Agrees(c, v) && WellFormed(v) && |v.frames| == 1 && v.frames[0].ft == fn.ft
    requires v.stack == v.stack[..Limit(v)] + v.frames[0].ft.results
    ensures TypesOf(c.vals) == fn.ft.results
  {
    assert v.stack == v.frames[0].ft.results;
  }

  lemma AtEndIs(c: Config, pc: nat)
    requires c.labels != []
    requires var target := c.labels[|c.labels| - 1];
             target.height <= |c.vals| && TypesOf(c.vals[target.height..]) == target.ft.results
    ensures AtEnd(c, pc) == if |c.labels| == 1 then Returned(c.vals)
                            else Next(c.(pc := pc, labels := c.labels[..|c.labels| - 1]))
  {
  }

  lemma EndLands(fn: Function, tr: seq<VState>, c: Config, k: nat)
    requires Trace(fn, tr) && Typed(fn, tr, c) && fn.code[c.pc].End? && WellFormed(tr[c.pc])
    requires k == |tr[c.pc].frames| - 1 > 0 && Known(tr[c.pc].frames[k].ft.results)
    requires tr[c.pc].stack == tr[c.pc].stack[..LimitOf(tr[c.pc], k)] + tr[c.pc].frames[k].ft.results
    ensures Typed(fn, tr, c.(pc := c.pc + 1, labels := c.labels[..k]))
  {
    KeepsSelf(tr[c.pc], k);
    LandsAfterEnd(fn, tr, tr[c.pc], c.pc, k, c.(pc := c.pc + 1, labels := c.labels[..k]));
  }

  lemma ElseSound(fn: Function, tr: seq<VState>, c: Config)
    requires KnownFunction(fn) && Trace(fn, tr) && Typed(fn, tr, c) && fn.code[c.pc].Else?
    ensures c.labels != [] && Sound(fn, tr, AtEnd(c, EndOf(fn.code, c.pc + 1, 0) + 1))
  {
    var v := tr[c.pc];
    var k := |v.frames| - 1;
    ElseChecked(fn, tr, c.pc);
    ElseTurns(v);
    FramesKnown(fn, tr, c.pc, k);
    ExactlyResults(c, v);
    AtEndIs(c, EndOf(fn.code, c.pc + 1, 0) + 1);
    ElseLands(fn, tr, c, k);
  }

  lemma ElseLands(fn: Function, tr: seq<VState>, c: Config, k: nat)
    requires Trace(fn, tr) && Typed(fn, tr, c) && fn.code[c.pc].Else? && WellFormed(tr[c.pc])
    requires k == |tr[c.pc].frames| - 1 > 0 && Known(tr[c.pc].frames[k].ft.results)
    requires tr[c.pc].stack == tr[c.pc].stack[..LimitOf(tr[c.pc], k)] + tr[c.pc].frames[k].ft.results
    ensures Typed(fn, tr, c.(pc := EndOf(fn.code, c.pc + 1, 0) + 1, labels := c.labels[..k]))
  {
    var v := tr[c.pc];
    Advance(fn, tr, c.pc, k);
    var e := EndMatches(fn, tr, c.pc + 1, 0);
    KeepsThrough(v, tr[c.pc + 1], tr[e], k);
    LandsAfterEnd(fn, tr, v, e, k, c.(pc := e + 1, labels := c.labels[..k]));
  }
}
