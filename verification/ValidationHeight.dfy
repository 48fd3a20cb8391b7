/**
 The bound on stack height: maximumStackPointer is at least the height of every stack that
 reachable code can have, although unreachable code pushes its Unknown without counting it.
 */
module ValidationHeight {
  import opened Validation
  import opened ValidationLemmas
  import opened ValidationTrace

  /** maximumStackPointer bounds every stack of known types below the current one. */
  ghost predicate HeightInv(v: VState) {
    forall n :: 0 <= n <= |v.stack| && Known(v.stack[..n]) ==> n <= v.max
  }

  lemma HeightPushAll(v: VState, ts: Types)
    requires HeightInv(v)
    ensures HeightInv(PushAll(v, ts)) && v.max <= PushAll(v, ts).max
  {
    var v' := PushAll(v, ts);
    PushAllIs(v, ts);
    forall n | 0 <= n <= |v'.stack| && Known(v'.stack[..n])
      ensures n <= v'.max
    {
      if n <= |v.stack| {
        assert v'.stack[..n] == v.stack[..n];
      }
    }
  }

  lemma HeightShorter(v: VState, v': VState)
    requires HeightInv(v) && v'.max == v.max
    requires |v'.stack| <= |v.stack| && v'.stack == v.stack[..|v'.stack|]
    ensures HeightInv(v')
  {
    assert forall n :: 0 <= n <= |v'.stack| ==> v'.stack[..n] == v.stack[..n];
  }

  lemma HeightUnreachable(v: VState)
    requires HeightInv(v) && Limit(v) <= |v.stack|
    ensures HeightInv(MakeUnreachable(v)) && MakeUnreachable(v).max == v.max
  {
    var v' := MakeUnreachable(v);
    assert !Known(v'.stack[..|v'.stack|]) by {
      assert v'.stack[..|v'.stack|][|v'.stack| - 1] == Unknown;
    }
    forall n | 0 <= n <= |v'.stack| && Known(v'.stack[..n])
      ensures n <= v'.max
    {
      assert v'.stack[..n] == v.stack[..n];
    }
  }

  ghost predicate HeightGrows(v: VState, v': VState) {
    HeightInv(v') && v.max <= v'.max
  }

  lemma HeightPopTypes(v: VState, want: Types, pushes: Types)
    requires HeightInv(v) && Limit(v) <= |v.stack| && PopTypes(v, want).Some?
    ensures HeightGrows(v, PushAll(PopTypes(v, want).value, pushes))
    ensures HeightGrows(v, MakeUnreachable(PopTypes(v, want).value))
    ensures HeightGrows(v, PushAll(Cut(PopTypes(v, want).value), pushes))
  {
    var v1 := PopTypes(v, want).value;
    PopTypesPops(v, want);
    HeightShorter(v, v1);
    HeightPushAll(v1, pushes);
    HeightUnreachable(v1);
    HeightShorter(v1, Cut(v1));
    HeightPushAll(Cut(v1), pushes);
  }

  lemma HeightPop(v: VState)
    requires HeightInv(v) && Pop(v).Some?
    ensures HeightInv(Pop(v).value.0) && Pop(v).value.0.max == v.max && Limit(Pop(v).value.0) <= |Pop(v).value.0.stack|
  {
    HeightShorter(v, Pop(v).value.0);
  }

  lemma HeightPush(v: VState, t: ValueType)
    requires HeightInv(v)
    ensures HeightGrows(v, Push(v, t))
  {
    HeightPushAll(v, [t]);
    assert PushAll(Push(v, t), [t][1..]) == Push(v, t);
  }

  lemma HeightSelect(v: VState)
    requires HeightInv(v) && CheckSelect(v).Some?
    ensures HeightGrows(v, CheckSelect(v).value)
  {
    HeightPop(v);
    var v1 := PopType(v, I32).value;
    HeightPop(v1);
    var v2, a := Pop(v1).value.0, Pop(v1).value.1;
    HeightPop(v2);
    var v3, b := Pop(v2).value.0, Pop(v2).value.1;
    HeightPush(v3, if a == Unknown then b else a);
  }

  lemma HeightBrTable(fn: Function, v: VState, ls: seq<nat>, ln: nat)
    requires HeightInv(v) && CheckBrTable(fn, v, ls, ln).Some?
    ensures HeightGrows(v, CheckBrTable(fn, v, ls, ln).value)
  {
    var v1, want := PopType(v, I32).value, LabelTypes(FrameOf(v, ln));
    HeightPop(v);
    if fn.refTypes {
      PopKnownPops(v1, want);
      HeightShorter(v1, PopKnown(v1, want).value.0);
      HeightUnreachable(PopKnown(v1, want).value.0);
    } else {
      HeightPopTypes(v1, want, []);
    }
  }

  lemma HeightEnter(v: VState, f: Frame)
    requires HeightInv(v) && Limit(v) <= |v.stack| && Enter(v, f).Some?
    ensures HeightGrows(v, Enter(v, f).value)
  {
    HeightPopTypes(v, f.ft.params, f.ft.params);
  }

  lemma HeightVariable(fn: Function, pc: nat, i: Instr, v: VState)
    requires HeightInv(v) && WellFormed(v) && Check(fn, pc, i, v).Some?
    requires i.LocalGet? || i.LocalSet? || i.LocalTee? || i.GlobalGet? || i.GlobalSet? || i.Drop?
    ensures HeightGrows(v, Check(fn, pc, i, v).value)
  {
    match i
    case LocalGet(x) => HeightPush(v, fn.locals[x]);
    case LocalSet(x) => HeightPop(v);
    case LocalTee(x) => HeightPop(v); HeightPush(PopType(v, fn.locals[x]).value, fn.locals[x]);
    case GlobalGet(x) => HeightPush(v, fn.globals[x].t);
    case GlobalSet(x) => HeightPop(v);
    case Drop => HeightPop(v);
  }

  lemma HeightControl(fn: Function, pc: nat, i: Instr, v: VState)
    requires HeightInv(v) && WellFormed(v) && Check(fn, pc, i, v).Some?
    requires i.Block? || i.Loop? || i.If? || i.Else? || i.End?
    ensures HeightGrows(v, Check(fn, pc, i, v).value)
  {
    var f := v.frames[|v.frames| - 1];
    match i
    case Block(ft) => HeightEnter(v, Frame(pc, OpBlock, ft));
    case Loop(ft) => HeightEnter(v, Frame(pc, OpLoop, ft));
    case If(ft) => HeightPop(v); HeightEnter(PopType(v, I32).value, Frame(pc, OpIf, ft));
    case Else => HeightPopTypes(v, f.ft.results, f.ft.params);
    case End => HeightPopTypes(v, f.ft.results, f.ft.results);
  }

  lemma HeightBranch(fn: Function, pc: nat, i: Instr, v: VState)
    requires HeightInv(v) && WellFormed(v) && Check(fn, pc, i, v).Some?
    requires i.Op? || i.Br? || i.BrIf? || i.BrTable? || i.Return? || i.Unreachable?
    ensures HeightGrows(v, Check(fn, pc, i, v).value)
  {
    match i
    case Op(pops, pushes) => HeightPopTypes(v, pops, pushes);
    case Br(l) => HeightPopTypes(v, LabelTypes(FrameOf(v, l)), []);
    case BrIf(l) =>
      HeightPop(v);
      HeightPopTypes(PopType(v, I32).value, LabelTypes(FrameOf(v, l)), LabelTypes(FrameOf(v, l)));
    case BrTable(ls, ln) => HeightBrTable(fn, v, ls, ln);
    case Return => HeightPopTypes(v, fn.ft.results, []);
    case Unreachable => HeightUnreachable(v);
  }

  lemma CheckHeight(fn: Function, pc: nat, i: Instr, v: VState)
    requires HeightInv(v) && WellFormed(v) && Check(fn, pc, i, v).Some?
    ensures HeightGrows(v, Check(fn, pc, i, v).value)
  {
    match i
    case Nop =>
    case Select => HeightSelect(v);
    case _ =>
      if i.Block? || i.Loop? || i.If? || i.Else? || i.End? {
        HeightControl(fn, pc, i, v);
      } else if i.LocalGet? || i.LocalSet? || i.LocalTee? || i.GlobalGet? || i.GlobalSet? || i.Drop? {
        HeightVariable(fn, pc, i, v);
      } else {
        HeightBranch(fn, pc, i, v);
      }
  }

  lemma {:induction false} TraceHeight(fn: Function, tr: seq<VState>, pc: nat)
    requires Trace(fn, tr) && pc <= |fn.code|
    ensures HeightInv(tr[pc])
  {
    if pc > 0 {
      TraceHeight(fn, tr, pc - 1);
      TraceWellFormed(fn, tr, pc - 1);
      assert Checks(fn, tr, pc - 1);
      CheckHeight(fn, pc - 1, fn.code[pc - 1], tr[pc - 1]);
    }
  }

  lemma {:induction false} MaxGrows(fn: Function, tr: seq<VState>, pc: nat)
    requires Trace(fn, tr) && pc <= |fn.code|
    ensures tr[pc].max <= tr[|fn.code|].max
    decreases |fn.code| - pc
  {
    if pc < |fn.code| {
      TraceHeight(fn, tr, pc);
      TraceWellFormed(fn, tr, pc);
      assert Checks(fn, tr, pc);
      CheckHeight(fn, pc, fn.code[pc], tr[pc]);
      MaxGrows(fn, tr, pc + 1);
    }
  }
}
