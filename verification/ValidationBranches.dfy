/** Soundness of branches and of return. */
module ValidationBranches {
  import opened Validation
  import opened WasmMachine
  import opened ValidationLemmas
  import opened ValidationTrace
  import opened ValidationAgreement
  import opened ValidationPlain

  /** A configuration in front of a branch: its operand stack agrees with `v1`, which is the
      validator's state at `pc` but for operands popped above the limit. */
  ghost predicate AtBranch(fn: Function, tr: seq<VState>, c: Config, v1: VState) {
    && Trace(fn, tr) && c.pc < |fn.code| && Plain(fn.code[c.pc])
    && WellFormed(v1) && v1.frames == tr[c.pc].frames != [] && v1.limits == tr[c.pc].limits
    && Limit(v1) <= |tr[c.pc].stack| && v1.stack[..Limit(v1)] == tr[c.pc].stack[..Limit(v1)]
    && Agrees(c, v1) && StoreTyped(fn, c)
  }

  /** The branch to label `k`, which is that of a loop or not and starts at `start`. */
  function Taken(code: seq<Instr>, c: Config, k: nat, isLoop: bool, start: nat, vals: seq<Value>): Outcome
    requires k < |c.labels|
  {
    if isLoop then Next(c.(pc := start + 1, vals := vals, labels := c.labels[..k + 1]))
    else if k == 0 then Returned(vals)
    else Next(c.(pc := EndOf(code, c.pc + 1, |c.labels| - 1 - k) + 1, vals := vals, labels := c.labels[..k]))
  }

  /** Where a branch with enough operands goes. */
  lemma BranchIs(code: seq<Instr>, c: Config, l: nat, vals: seq<Value>)
    requires l < |c.labels| && Has(c, Carries(c.labels[|c.labels| - 1 - l]))
    requires var target := c.labels[|c.labels| - 1 - l];
             && target.height + |Carries(target)| <= |c.vals|
             && vals == c.vals[..target.height] + c.vals[|c.vals| - |Carries(target)|..]
    ensures var k := |c.labels| - 1 - l;
            Branch(code, c, l) == Taken(code, c, k, c.labels[k].isLoop, c.labels[k].start, vals)
  {
    var k := |c.labels| - 1 - l;
    assert c.labels[..k + 1][..k] == c.labels[..k];
  }

  /** The machine can take the branch to frame `k`, and carries `vals` there. */
  ghost predicate CanBranch(code: seq<Instr>, c: Config, v: VState, k: nat, vals: seq<Value>, o: Outcome) {
    && |c.labels| == |v.frames| && k < |v.frames|
    && Known(v.stack) && LimitOf(v, k) <= |v.stack|
    && TypesOf(vals) == v.stack[..LimitOf(v, k)] + LabelTypes(v.frames[k])
    && o == Taken(code, c, k, v.frames[k].op == OpLoop, v.frames[k].startAt, vals)
  }

  lemma BranchHas(code: seq<Instr>, c: Config, v: VState, k: nat) returns (vals: seq<Value>)
    requires Agrees(c, v) && WellFormed(v) && k < |v.frames|
    requires Known(LabelTypes(v.frames[k])) && PopTypes(v, LabelTypes(v.frames[k])).Some?
    ensures CanBranch(code, c, v, k, vals, Branch(code, c, |v.frames| - 1 - k))
  {
    var ts, h := LabelTypes(v.frames[k]), LimitOf(v, k);
    assert Has(c, ts) && |c.vals| == |v.stack| && h + |ts| <= |v.stack| && v.stack[|v.stack| - |ts|..] == ts by {
      HasWhatIsPopped(c, v, ts);
    }
    vals := c.vals[..h] + c.vals[|c.vals| - |ts|..];
    assert TypesOf(vals) == v.stack[..h] + ts by {
      BranchTypes(c, v, h, ts);
    }
    BranchIsTo(code, c, v, k, vals);
  }

  lemma BranchIsTo(code: seq<Instr>, c: Config, v: VState, k: nat, vals: seq<Value>)
    requires c.labels == LabelsOf(v) && k < |v.frames|
    requires var ts, h := LabelTypes(v.frames[k]), LimitOf(v, k);
             && Has(c, ts) && h + |ts| <= |c.vals| && vals == c.vals[..h] + c.vals[|c.vals| - |ts|..]
             && Known(v.stack) && h <= |v.stack| && TypesOf(vals) == v.stack[..h] + ts
    ensures CanBranch(code, c, v, k, vals, Branch(code, c, |v.frames| - 1 - k))
  {
    assert c.labels[k] == LabelAt(v, k) && Carries(c.labels[k]) == LabelTypes(v.frames[k]);
    BranchIs(code, c, |v.frames| - 1 - k, vals);
  }

  /** A branch whose operands the validator has checked. */
  lemma BranchSound(fn: Function, tr: seq<VState>, c: Config, v1: VState, l: nat)
    requires KnownFunction(fn) && AtBranch(fn, tr, c, v1)
    requires l < |v1.frames| && PopTypes(v1, LabelTypes(FrameOf(v1, l))).Some?
    ensures Sound(fn, tr, Branch(fn.code, c, l))
  {
    var k := |v1.frames| - 1 - l;
    FramesKnown(fn, tr, c.pc, k);
    var vals := BranchHas(fn.code, c, v1, k);
    BranchLands(fn, tr, c, v1, k, vals, Branch(fn.code, c, l));
  }

  lemma BranchLands(fn: Function, tr: seq<VState>, c: Config, v1: VState, k: nat, vals: seq<Value>, o: Outcome)
    requires AtBranch(fn, tr, c, v1) && CanBranch(fn.code, c, v1, k, vals, o)
    requires Known(v1.frames[k].ft.params) && Known(v1.frames[k].ft.results)
    requires k == 0 ==> v1.frames[0] == Frame(0, OpBlock, fn.ft)
    ensures Sound(fn, tr, o)
  {
    if v1.frames[k].op == OpLoop {
      BranchBack(fn, tr, c, v1, k, vals);
    } else if k > 0 {
      BranchOut(fn, tr, c, v1, |v1.frames| - 1 - k, vals);
    } else {
      assert v1.stack[..LimitOf(v1, 0)] + fn.ft.results == fn.ft.results;
    }
  }

  lemma BranchBack(fn: Function, tr: seq<VState>, c: Config, v1: VState, k: nat, vals: seq<Value>)
    requires AtBranch(fn, tr, c, v1) && 0 < k < |v1.frames| && v1.frames[k].op == OpLoop
    requires Known(v1.stack[..LimitOf(v1, k)]) && Known(v1.frames[k].ft.params)
    requires TypesOf(vals) == v1.stack[..LimitOf(v1, k)] + v1.frames[k].ft.params
    ensures Typed(fn, tr, c.(pc := v1.frames[k].startAt + 1, vals := vals, labels := c.labels[..k + 1]))
  {
    TraceWellFormed(fn, tr, c.pc);
    KeepsAbove(tr[c.pc], v1, k);
    LabelsSame(tr[c.pc], v1);
    LandsInLoop(fn, tr, c.pc, k, c.(pc := v1.frames[k].startAt + 1, vals := vals, labels := c.labels[..k + 1]));
  }

  lemma LabelsSame(u: VState, v: VState)
    requires u.frames == v.frames && u.limits == v.limits
    ensures LabelsOf(u) == LabelsOf(v)
  {
  }

  lemma BranchTypes(c: Config, v: VState, h: nat, ts: Types)
    requires Agrees(c, v) && h + |ts| <= |v.stack| && v.stack[|v.stack| - |ts|..] == ts
    ensures |c.vals| == |v.stack| && TypesOf(c.vals[..h] + c.vals[|c.vals| - |ts|..]) == v.stack[..h] + ts
    ensures Known(v.stack[..h])
  {
    TypesOfSlice(c.vals, 0, h);
    TypesOfSlice(c.vals, |c.vals| - |ts|, |c.vals|);
    assert c.vals[|c.vals| - |ts|..|c.vals|] == c.vals[|c.vals| - |ts|..];
    TypesOfConcat(c.vals[..h], c.vals[|c.vals| - |ts|..]);
  }

  lemma BranchOut(fn: Function, tr: seq<VState>, c: Config, v1: VState, l: nat, vals: seq<Value>)
    requires AtBranch(fn, tr, c, v1) && l < |v1.frames| - 1
    requires var k := |v1.frames| - 1 - l;
             && Known(v1.stack[..LimitOf(v1, k)]) && Known(v1.frames[k].ft.results)
             && TypesOf(vals) == v1.stack[..LimitOf(v1, k)] + v1.frames[k].ft.results
    ensures var k := |v1.frames| - 1 - l;
            Typed(fn, tr, c.(pc := EndOf(fn.code, c.pc + 1, l) + 1, vals := vals, labels := c.labels[..k]))
  {
    var u := tr[c.pc];
    var k := |v1.frames| - 1 - l;
    Advance(fn, tr, c.pc, k);
    KeepsAbove(u, v1, k);
    var e := EndMatches(fn, tr, c.pc + 1, l);
    KeepsThrough(u, tr[c.pc + 1], tr[e], k);
    LabelsSame(u, v1);
    LandsAfterEnd(fn, tr, u, e, k, c.(pc := e + 1, vals := vals, labels := c.labels[..k]));
  }

  lemma BrSound(fn: Function, tr: seq<VState>, c: Config)
    requires KnownFunction(fn) && Trace(fn, tr) && Typed(fn, tr, c) && fn.code[c.pc].Br?
    ensures Sound(fn, tr, ExecBranch(fn.code, c, fn.code[c.pc]))
  {
    GoesOn(fn, tr, c.pc);
    assert AtBranch(fn, tr, c, tr[c.pc]);
    BranchSound(fn, tr, c, tr[c.pc], fn.code[c.pc].l);
  }

  /** With the condition or index popped, the blocks are the same. */
  lemma CondPopped(fn: Function, tr: seq<VState>, c: Config)
    requires Trace(fn, tr) && Typed(fn, tr, c) && Plain(fn.code[c.pc])
    requires WellFormed(tr[c.pc]) && tr[c.pc].frames != [] && PopType(tr[c.pc], I32).Some?
    ensures Has(c, [I32]) && AtBranch(fn, tr, c.(vals := Popped(c, 1)), PopType(tr[c.pc], I32).value)
  {
    HasTop(c, tr[c.pc], I32);
  }

  lemma BrIfChecked(fn: Function, tr: seq<VState>, pc: nat)
    requires Trace(fn, tr) && pc < |fn.code| && fn.code[pc].BrIf?
    ensures WellFormed(tr[pc]) && tr[pc].frames != [] && pc + 1 < |fn.code| && fn.code[pc].l < |tr[pc].frames|
    ensures PopType(tr[pc], I32).Some?
    ensures var v1, ts := PopType(tr[pc], I32).value, LabelTypes(FrameOf(tr[pc], fn.code[pc].l));
            v1.frames == tr[pc].frames && PopTypes(v1, ts).Some? && tr[pc + 1] == PushAll(PopTypes(v1, ts).value, ts)
  {
    GoesOn(fn, tr, pc);
  }

  lemma BrIfTaken(fn: Function, tr: seq<VState>, c: Config)
    requires KnownFunction(fn) && Trace(fn, tr) && Typed(fn, tr, c) && fn.code[c.pc].BrIf?
    ensures Has(c, [I32]) && Sound(fn, tr, Branch(fn.code, c.(vals := Popped(c, 1)), fn.code[c.pc].l))
  {
    BrIfChecked(fn, tr, c.pc);
    CondPopped(fn, tr, c);
    BranchSound(fn, tr, c.(vals := Popped(c, 1)), PopType(tr[c.pc], I32).value, fn.code[c.pc].l);
  }

  lemma BrIfNotTaken(fn: Function, tr: seq<VState>, c: Config)
    requires KnownFunction(fn) && Trace(fn, tr) && Typed(fn, tr, c) && fn.code[c.pc].BrIf?
    ensures Typed(fn, tr, c.(pc := c.pc + 1, vals := Popped(c, 1)))
  {
    var v, l := tr[c.pc], fn.code[c.pc].l;
    BrIfChecked(fn, tr, c.pc);
    HasTop(c, v, I32);
    FramesKnown(fn, tr, c.pc, |v.frames| - 1 - l);
    PushedBack(c.(vals := Popped(c, 1)), PopType(v, I32).value, LabelTypes(FrameOf(v, l)));
  }

  lemma BrIfSound(fn: Function, tr: seq<VState>, c: Config, choice: Choice)
    requires KnownFunction(fn) && Trace(fn, tr) && Typed(fn, tr, c) && fn.code[c.pc].BrIf?
    ensures Sound(fn, tr, Exec(fn, c, choice))
  {
    BrIfTaken(fn, tr, c);
    BrIfNotTaken(fn, tr, c);
    GoesOn(fn, tr, c.pc);
    BrIfIs(fn, c, choice);
  }

  lemma BrIfIs(fn: Function, c: Config, choice: Choice)
    requires c.pc < |fn.code| && c.labels != [] && fn.code[c.pc].BrIf? && Has(c, [I32])
    ensures Exec(fn, c, choice) ==
            if c.vals[|c.vals| - 1].bits != 0 then Branch(fn.code, c.(vals := Popped(c, 1)), fn.code[c.pc].l)
            else Next(c.(pc := c.pc + 1, vals := Popped(c, 1)))
  {
    ExecutesBranch(fn, c, choice);
  }

  lemma ExecutesBranch(fn: Function, c: Config, choice: Choice)
    requires c.pc < |fn.code| && c.labels != []
    requires fn.code[c.pc].Br? || fn.code[c.pc].BrIf? || fn.code[c.pc].BrTable?
    ensures Exec(fn, c, choice) == ExecBranch(fn.code, c, fn.code[c.pc])
  {
  }

  /** Popping operands and pushing the same types back changes nothing. */
  lemma PushedBack(c: Config, v: VState, ts: Types)
    requires Agrees(c, v) && WellFormed(v) && v.frames != [] && Known(ts) && PopTypes(v, ts).Some?
    ensures Agrees(c, PushAll(PopTypes(v, ts).value, ts))
  {
    var v1 := PopTypes(v, ts).value;
    PopTypesExact(v, ts);
    PushAllIs(v1, ts);
    assert v.stack == v.stack[..|v.stack| - |ts|] + v.stack[|v.stack| - |ts|..];
    LabelsSame(v, PushAll(v1, ts));
  }

  /** br_table: whichever label the index selects, its operands have been checked. */
  lemma BrTableChecked(fn: Function, tr: seq<VState>, pc: nat, l: nat)
    requires KnownFunction(fn) && Trace(fn, tr) && pc < |fn.code| && fn.code[pc].BrTable? && Known(tr[pc].stack)
    requires l == fn.code[pc].ln || l in fn.code[pc].ls
    ensures WellFormed(tr[pc]) && tr[pc].frames != [] && PopType(tr[pc], I32).Some? && l < |tr[pc].frames|
    ensures PopTypes(PopType(tr[pc], I32).value, LabelTypes(FrameOf(tr[pc], l))).Some?
  {
    var v, i := tr[pc], fn.code[pc];
    GoesOn(fn, tr, pc);
    FramesKnown(fn, tr, pc, |v.frames| - 1 - i.ln);
    BrTableOperands(fn, v, i.ls, i.ln, l);
  }

  lemma BrTableOperands(fn: Function, v: VState, ls: seq<nat>, ln: nat, l: nat)
    requires Limit(v) <= |v.stack| && Known(v.stack) && CheckBrTable(fn, v, ls, ln).Some? && (l == ln || l in ls)
    requires Known(LabelTypes(FrameOf(v, ln)))
    ensures PopType(v, I32).Some? && l < |v.frames|
    ensures PopTypes(PopType(v, I32).value, LabelTypes(FrameOf(v, l))).Some?
  {
    BrTableDefault(fn, v, ls, ln);
    if l in ls {
      LabelMatches(v.frames, ls, LabelTypes(FrameOf(v, ln)), l);
    }
  }

  lemma LabelMatches(frames: seq<Frame>, ls: seq<nat>, known: Types, l: nat)
    requires LabelsMatch(frames, ls, known) && l in ls && Known(known)
    ensures l < |frames| && LabelTypes(frames[|frames| - 1 - l]) == known
  {
    var j :| 0 <= j < |ls| && ls[j] == l;
  }

  lemma BrTableDefault(fn: Function, v: VState, ls: seq<nat>, ln: nat)
    requires Limit(v) <= |v.stack| && Known(v.stack) && CheckBrTable(fn, v, ls, ln).Some?
    requires Known(LabelTypes(FrameOf(v, ln)))
    ensures PopType(v, I32).Some? && PopTypes(PopType(v, I32).value, LabelTypes(FrameOf(v, ln))).Some?
    ensures LabelsMatch(v.frames, ls, LabelTypes(FrameOf(v, ln)))
  {
    var v1, want := PopType(v, I32).value, LabelTypes(FrameOf(v, ln));
    PopsOne(v);
    if fn.refTypes {
      PopKnownExact(v1, want);
    }
  }

  lemma BrTableTaken(fn: Function, tr: seq<VState>, c: Config, l: nat)
    requires KnownFunction(fn) && Trace(fn, tr) && Typed(fn, tr, c) && fn.code[c.pc].BrTable?
    requires l == fn.code[c.pc].ln || l in fn.code[c.pc].ls
    ensures Has(c, [I32]) && Sound(fn, tr, Branch(fn.code, c.(vals := Popped(c, 1)), l))
  {
    BrTableChecked(fn, tr, c.pc, l);
    CondPopped(fn, tr, c);
    BranchSound(fn, tr, c.(vals := Popped(c, 1)), PopType(tr[c.pc], I32).value, l);
  }

  lemma BrTableSound(fn: Function, tr: seq<VState>, c: Config)
    requires KnownFunction(fn) && Trace(fn, tr) && Typed(fn, tr, c) && fn.code[c.pc].BrTable?
    ensures Sound(fn, tr, ExecBranch(fn.code, c, fn.code[c.pc]))
  {
    var i := fn.code[c.pc];
    BrTableTaken(fn, tr, c, i.ln);
    BrTableIs(fn.code, c, i);
    forall l | l in i.ls
      ensures Sound(fn, tr, Branch(fn.code, c.(vals := Popped(c, 1)), l))
    {
      BrTableTaken(fn, tr, c, l);
    }
  }

  lemma BrTableIs(code: seq<Instr>, c: Config, i: Instr)
    requires i.BrTable? && Has(c, [I32])
    ensures var x := c.vals[|c.vals| - 1].bits;
            ExecBranch(code, c, i) == Branch(code, c.(vals := Popped(c, 1)), if 0 <= x < |i.ls| then i.ls[x] else i.ln)
  {
  }

  lemma ReturnSound(fn: Function, tr: seq<VState>, c: Config, choice: Choice)
    requires KnownFunction(fn) && Trace(fn, tr) && Typed(fn, tr, c) && fn.code[c.pc].Return?
    ensures Sound(fn, tr, Exec(fn, c, choice))
  {
    GoesOn(fn, tr, c.pc);
    HasWhatIsPopped(c, tr[c.pc], fn.ft.results);
  }

  lemma NopSound(fn: Function, tr: seq<VState>, c: Config, choice: Choice)
    requires Trace(fn, tr) && Typed(fn, tr, c) && fn.code[c.pc].Nop?
    ensures Sound(fn, tr, Exec(fn, c, choice))
  {
    GoesOn(fn, tr, c.pc);
  }
}
