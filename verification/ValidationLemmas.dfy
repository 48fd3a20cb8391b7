/**
 What the validator keeps from one instruction to the next: limits are ordered and below the
 stack, a block cannot touch what was on the stack before it opened, and every End, Else and
 branch target finds the block it belongs to.
 */
module ValidationLemmas {
  import opened Validation

  predicate Known(ts: Types) {
    forall i :: 0 <= i < |ts| ==> ts[i] != Unknown
  }

  ghost predicate WellFormed(v: VState) {
    && |v.frames| == (if v.frames == [] then 0 else |v.limits| + 1)
    && (v.frames == [] ==> v.limits == [])
    && (forall i, j :: 0 <= i < j < |v.limits| ==> v.limits[i] <= v.limits[j])
    && (forall i :: 0 <= i < |v.limits| ==> v.limits[i] <= |v.stack|)
  }

  /** The limit of frame `k`: what was on the stack when it opened. */
  function LimitOf(v: VState, k: nat): nat {
    if 0 < k <= |v.limits| then v.limits[k - 1] else 0
  }

  // Pushing and popping

  lemma {:induction false} PushAllIs(v: VState, ts: Types)
    ensures PushAll(v, ts).stack == v.stack + ts
    ensures PushAll(v, ts).limits == v.limits && PushAll(v, ts).frames == v.frames
    ensures v.max <= PushAll(v, ts).max
    ensures ts != [] ==> |v.stack| + |ts| <= PushAll(v, ts).max
    decreases |ts|
  {
    if ts != [] {
      PushAllIs(Push(v, ts[0]), ts[1..]);
      assert v.stack + ts == v.stack + [ts[0]] + ts[1..];
    } else {
      assert v.stack + ts == v.stack;
    }
  }

  /** `v'` is `v` after some pops: a shorter stack, no shorter than the limit. */
  ghost predicate Pops(v: VState, v': VState) {
    && v'.limits == v.limits && v'.frames == v.frames && v'.max == v.max
    && Limit(v) <= |v'.stack| <= |v.stack|
    && v'.stack == v.stack[..|v'.stack|]
  }

  lemma {:induction false} PopTypesPops(v: VState, want: Types)
    requires Limit(v) <= |v.stack| && PopTypes(v, want).Some?
    ensures Pops(v, PopTypes(v, want).value)
    decreases |want|
  {
    if want != [] {
      PopTypesPops(PopType(v, want[|want| - 1]).value, want[..|want| - 1]);
    }
  }

  lemma {:induction false} PopKnownPops(v: VState, want: Types)
    requires Limit(v) <= |v.stack| && PopKnown(v, want).Some?
    ensures Pops(v, PopKnown(v, want).value.0) && |PopKnown(v, want).value.1| == |want|
    decreases |want|
  {
    if want != [] {
      PopKnownPops(Pop(v).value.0, want[..|want| - 1]);
    }
  }

  /** In reachable code the stack holds no Unknown, and pops are exact. */
  lemma {:induction false} PopTypesExact(v: VState, want: Types)
    requires Limit(v) <= |v.stack| && Known(v.stack) && Known(want) && PopTypes(v, want).Some?
    ensures Limit(v) + |want| <= |v.stack|
    ensures v.stack[|v.stack| - |want|..] == want
    ensures PopTypes(v, want).value == v.(stack := v.stack[..|v.stack| - |want|])
    decreases |want|
  {
    if want == [] {
      assert v.stack[..|v.stack|] == v.stack;
    } else {
      var v1 := PopType(v, want[|want| - 1]).value;
      PopTypeExact(v, want[|want| - 1]);
      PopTypesFirst(v, want);
      PopTypesExact(v1, want[..|want| - 1]);
      SuffixNext(v.stack, v1.stack, want);
    }
  }

  lemma PopTypesFirst(v: VState, want: Types)
    requires want != [] && PopTypes(v, want).Some?
    ensures PopType(v, want[|want| - 1]).Some?
    ensures PopTypes(v, want) == PopTypes(PopType(v, want[|want| - 1]).value, want[..|want| - 1])
  {
  }

  lemma PopTypeExact(v: VState, t: ValueType)
    requires Limit(v) <= |v.stack| && Known(v.stack) && t != Unknown && PopType(v, t).Some?
    ensures Limit(v) < |v.stack| && v.stack[|v.stack| - 1] == t
    ensures PopType(v, t).value == v.(stack := v.stack[..|v.stack| - 1])
  {
  }

  /** A suffix with its last element. */
  lemma SuffixNext(s: Types, front: Types, want: Types)
    requires 0 < |want| <= |s| && front == s[..|s| - 1] && s[|s| - 1] == want[|want| - 1]
    requires front[|s| - |want|..] == want[..|want| - 1]
    ensures s[|s| - |want|..] == want && front[..|s| - |want|] == s[..|s| - |want|]
  {
    assert want == want[..|want| - 1] + [want[|want| - 1]];
    assert s[|s| - |want|..] == front[|s| - |want|..] + [s[|s| - 1]];
  }

  /** In reachable code br_table's operands have exactly the default label's types. */
  lemma {:induction false} PopKnownExact(v: VState, want: Types)
    requires Limit(v) <= |v.stack| && Known(v.stack) && Known(want) && PopKnown(v, want).Some?
    ensures PopTypes(v, want).Some? && PopKnown(v, want).value == (PopTypes(v, want).value, want)
    decreases |want|
  {
    if want != [] {
      PopKnownExact(Pop(v).value.0, want[..|want| - 1]);
      assert want == want[..|want| - 1] + [want[|want| - 1]];
    }
  }

  // Blocks

  /** The same block, whose If may meanwhile have turned into its Else. */
  predicate SameBlock(f: Frame, g: Frame) {
    f.startAt == g.startAt && f.ft == g.ft && (f.op == g.op || (f.op == OpIf && g.op == OpElse))
  }

  /** From `v` to `v'` the validator has stayed inside frame `k`: the frames around it, the
      limits and the stack below the limit of frame `k` are untouched. */
  ghost predicate Keeps(v: VState, v': VState, k: nat) {
    && k < |v.frames| && k < |v'.frames|
    && k <= |v.limits| && k <= |v'.limits|
    && v'.frames[..k] == v.frames[..k] && SameBlock(v.frames[k], v'.frames[k])
    && v'.limits[..k] == v.limits[..k]
    && LimitOf(v, k) <= |v.stack| && LimitOf(v, k) <= |v'.stack|
    && v'.stack[..LimitOf(v, k)] == v.stack[..LimitOf(v, k)]
  }

  lemma KeepsSelf(v: VState, k: nat)
    requires WellFormed(v) && k < |v.frames|
    ensures Keeps(v, v, k)
  {
  }

  lemma KeepsThrough(u: VState, v: VState, w: VState, k: nat)
    requires Keeps(u, v, k) && Keeps(v, w, k)
    ensures Keeps(u, w, k)
  {
    assert LimitOf(v, k) == LimitOf(u, k) by {
      assert k > 0 ==> v.limits[..k][k - 1] == u.limits[..k][k - 1];
    }
  }

  /** Keeping an inner frame keeps the frames around it. */
  lemma KeepsOuter(v: VState, v': VState, k: nat, j: nat)
    requires WellFormed(v) && Keeps(v, v', k) && j <= k
    ensures Keeps(v, v', j)
  {
    if j < k {
      assert v'.frames[j] == v'.frames[..k][j] == v.frames[..k][j] == v.frames[j];
      assert v'.frames[..j] == v'.frames[..k][..j] && v.frames[..j] == v.frames[..k][..j];
      assert v'.limits[..j] == v'.limits[..k][..j] && v.limits[..j] == v.limits[..k][..j];
      assert v'.stack[..LimitOf(v, j)] == v'.stack[..LimitOf(v, k)][..LimitOf(v, j)];
      assert v.stack[..LimitOf(v, j)] == v.stack[..LimitOf(v, k)][..LimitOf(v, j)];
    }
  }

  /** A frame is kept by whatever leaves the stack below some height above its limit. */
  lemma KeepsBelow(v: VState, v': VState, k: nat, n: nat)
    requires k < |v.frames| && k < |v'.frames| && k <= |v.limits| && k <= |v'.limits|
    requires v'.frames[..k] == v.frames[..k] && SameBlock(v.frames[k], v'.frames[k])
    requires v'.limits[..k] == v.limits[..k]
    requires LimitOf(v, k) <= n <= |v.stack| && n <= |v'.stack| && v'.stack[..n] == v.stack[..n]
    ensures Keeps(v, v', k)
  {
    assert v'.stack[..LimitOf(v, k)] == v'.stack[..n][..LimitOf(v, k)];
    assert v.stack[..LimitOf(v, k)] == v.stack[..n][..LimitOf(v, k)];
  }

  /** The innermost frame is kept by whatever changes only the stack above the limit. */
  lemma KeepsAbove(v: VState, v': VState, k: nat)
    requires WellFormed(v) && k < |v.frames|
    requires v'.frames == v.frames && v'.limits == v.limits
    requires Limit(v) <= |v'.stack| && v'.stack[..Limit(v)] == v.stack[..Limit(v)]
    ensures WellFormed(v') && Keeps(v, v', k)
  {
    KeepsBelow(v, v', k, Limit(v));
  }

  /** An instruction inside a block. */
  predicate Plain(i: Instr) {
    !i.Block? && !i.Loop? && !i.If? && !i.Else? && !i.End?
  }

  /** A plain instruction changes only the stack above the current limit. */
  ghost predicate Above(v: VState, v': VState) {
    && v'.frames == v.frames && v'.limits == v.limits
    && Limit(v) <= |v.stack| && Limit(v) <= |v'.stack|
    && v'.stack[..Limit(v)] == v.stack[..Limit(v)]
  }

  lemma PopsAbove(v: VState, v': VState, v'': VState, ts: Types)
    requires Limit(v) <= |v.stack| && Pops(v, v') && v''.frames == v.frames && v''.limits == v.limits
    requires v''.stack == v'.stack + ts || v''.stack == v'.stack[..Limit(v)] + ts
    ensures Above(v, v'')
  {
  }

  lemma PopTypesAbove(v: VState, want: Types, pushes: Types)
    requires Limit(v) <= |v.stack| && PopTypes(v, want).Some?
    ensures Above(v, PushAll(PopTypes(v, want).value, pushes))
    ensures Above(v, MakeUnreachable(PopTypes(v, want).value))
  {
    var v1 := PopTypes(v, want).value;
    PopTypesPops(v, want);
    PushAllIs(v1, pushes);
    PopsAbove(v, v1, PushAll(v1, pushes), pushes);
    PopsAbove(v, v1, MakeUnreachable(v1), [Unknown]);
  }

  lemma AboveThrough(u: VState, v: VState, w: VState)
    requires Above(u, v) && Above(v, w)
    ensures Above(u, w)
  {
  }

  lemma BranchAbove(fn: Function, pc: nat, i: Instr, v: VState)
    requires WellFormed(v) && Check(fn, pc, i, v).Some?
    requires i.Op? || i.Br? || i.BrIf? || i.Return?
    ensures Above(v, Check(fn, pc, i, v).value)
  {
    match i
    case Op(pops, pushes) => PopTypesAbove(v, pops, pushes);
    case Br(l) => PopTypesAbove(v, LabelTypes(FrameOf(v, l)), []);
    case Return => PopTypesAbove(v, fn.ft.results, []);
    case BrIf(l) =>
      var ts := LabelTypes(FrameOf(v, l));
      var v1 := PopType(v, I32).value;
      assert Above(v, v1);
      PopTypesAbove(v1, ts, ts);
      AboveThrough(v, v1, PushAll(PopTypes(v1, ts).value, ts));
  }

  lemma BrTableAbove(fn: Function, v: VState, ls: seq<nat>, ln: nat)
    requires WellFormed(v) && CheckBrTable(fn, v, ls, ln).Some?
    ensures Above(v, CheckBrTable(fn, v, ls, ln).value)
  {
    var ts := LabelTypes(FrameOf(v, ln));
    var v1 := PopType(v, I32).value;
    assert Above(v, v1);
    if fn.refTypes {
      PopKnownPops(v1, ts);
      var v2 := PopKnown(v1, ts).value.0;
      PopsAbove(v1, v2, MakeUnreachable(v2), [Unknown]);
      AboveThrough(v, v1, MakeUnreachable(v2));
    } else {
      PopTypesAbove(v1, ts, []);
      AboveThrough(v, v1, MakeUnreachable(PopTypes(v1, ts).value));
    }
  }

  lemma PlainAbove(fn: Function, pc: nat, i: Instr, v: VState)
    requires Plain(i) && WellFormed(v) && Check(fn, pc, i, v).Some?
    ensures Above(v, Check(fn, pc, i, v).value)
  {
    if i.Op? || i.Br? || i.BrIf? || i.Return? {
      BranchAbove(fn, pc, i, v);
    } else if i.BrTable? {
      BrTableAbove(fn, v, i.ls, i.ln);
    } else if i.Select? {
      SelectAbove(v);
    } else {
      SimpleAbove(fn, pc, i, v);
    }
  }

  lemma PopAbove(v: VState)
    requires Limit(v) <= |v.stack| && Pop(v).Some?
    ensures Above(v, Pop(v).value.0)
  {
  }

  lemma PushAbove(v: VState, t: ValueType)
    requires Limit(v) <= |v.stack|
    ensures Above(v, Push(v, t))
  {
  }

  lemma SelectAbove(v: VState)
    requires Limit(v) <= |v.stack| && CheckSelect(v).Some?
    ensures Above(v, CheckSelect(v).value)
  {
    var v1 := Pop(v).value.0;
    PopAbove(v);
    var v2 := Pop(v1).value.0;
    PopAbove(v1);
    AboveThrough(v, v1, v2);
    var v3 := Pop(v2).value.0;
    PopAbove(v2);
    AboveThrough(v, v2, v3);
    PushAbove(v3, I32);
    AboveThrough(v, v3, CheckSelect(v).value);
  }

  /** Instructions that pop at most one value and push at most one. */
  lemma SimpleAbove(fn: Function, pc: nat, i: Instr, v: VState)
    requires Plain(i) && WellFormed(v) && Check(fn, pc, i, v).Some?
    requires !i.Op? && !i.Br? && !i.BrIf? && !i.Return? && !i.BrTable? && !i.Select?
    ensures Above(v, Check(fn, pc, i, v).value)
  {
    var v' := Check(fn, pc, i, v).value;
    if i.LocalSet? || i.GlobalSet? || i.Drop? {
      PopAbove(v);
    } else if i.LocalTee? {
      PopAbove(v);
      var v1 := Pop(v).value.0;
      PushAbove(v1, fn.locals[i.x]);
      AboveThrough(v, v1, v');
    } else if i.LocalGet? {
      PushAbove(v, fn.locals[i.x]);
    } else if i.GlobalGet? {
      PushAbove(v, fn.globals[i.x].t);
    }
  }

  // Opening, turning and closing a block

  /** A block opens at height `n`. */
  lemma OpensBlock(v: VState, v': VState, f: Frame, n: nat, ts: Types, k: nat)
    requires WellFormed(v) && v.frames != [] && Limit(v) <= n <= |v.stack|
    requires v'.frames == v.frames + [f] && v'.limits == v.limits + [n] && v'.stack == v.stack[..n] + ts
    ensures WellFormed(v') && (k < |v.frames| ==> Keeps(v, v', k))
  {
    if k < |v.frames| {
      KeepsBelow(v, v', k, n);
    }
  }

  lemma EnterOpens(v: VState, f: Frame) returns (n: nat)
    requires WellFormed(v) && Enter(v, f).Some?
    ensures Limit(v) <= n <= |v.stack|
    ensures var v' := Enter(v, f).value;
            v'.frames == v.frames + [f] && v'.limits == v.limits + [n] && v'.stack == v.stack[..n] + f.ft.params
  {
    var v1 := PopTypes(v, f.ft.params).value;
    PopTypesPops(v, f.ft.params);
    PushAllIs(v1, f.ft.params);
    n := |v1.stack|;
  }

  lemma EnterKeeps(v: VState, f: Frame, k: nat)
    requires WellFormed(v) && Enter(v, f).Some? && v.frames != []
    ensures WellFormed(Enter(v, f).value)
    ensures k < |v.frames| ==> Keeps(v, Enter(v, f).value, k)
    ensures Enter(v, f).value.frames == v.frames + [f]
  {
    var n := EnterOpens(v, f);
    OpensBlock(v, Enter(v, f).value, f, n, f.ft.params, k);
  }

  /** The innermost block starts over. */
  lemma TurnsBlock(v: VState, v': VState, f: Frame, ts: Types, k: nat)
    requires WellFormed(v) && v.frames != [] && SameBlock(v.frames[|v.frames| - 1], f)
    requires v'.frames == v.frames[..|v.frames| - 1] + [f] && v'.limits == v.limits
    requires v'.stack == v.stack[..Limit(v)] + ts
    ensures WellFormed(v') && (k < |v.frames| ==> Keeps(v, v', k))
  {
    if k < |v.frames| {
      KeepsBelow(v, v', k, Limit(v));
    }
  }

  /** What is left of a stack that has been cut at its limit. */
  lemma CutIs(v: VState, v1: VState)
    requires Limit(v) <= |v.stack| && Pops(v, v1)
    ensures Cut(v1).stack == v.stack[..Limit(v)] && Cut(v1).limits == v.limits && Cut(v1).frames == v.frames
  {
  }

  /** What Else leaves: the stack as it was when the If was entered, and the frame turned. */
  lemma ElseTurns(v: VState)
    requires WellFormed(v) && v.frames != [] && CheckElse(v).Some?
    ensures var k, v' := |v.frames| - 1, CheckElse(v).value;
            && v.frames[k].op == OpIf
            && v'.stack == v.stack[..LimitOf(v, k)] + v.frames[k].ft.params && v'.limits == v.limits
            && v'.frames == v.frames[..k] + [v.frames[k].(op := OpElse)]
  {
    var f := v.frames[|v.frames| - 1];
    var v1 := PopTypes(v, f.ft.results).value;
    PopTypesPops(v, f.ft.results);
    CutIs(v, v1);
    PushAllIs(Cut(v1), f.ft.params);
  }

  lemma ElseKeeps(v: VState, k: nat)
    requires WellFormed(v) && v.frames != [] && CheckElse(v).Some?
    ensures WellFormed(CheckElse(v).value)
    ensures k < |v.frames| ==> Keeps(v, CheckElse(v).value, k)
    ensures |CheckElse(v).value.frames| == |v.frames|
    ensures k < |v.frames| - 1 ==> CheckElse(v).value.frames[k] == v.frames[k]
  {
    var f := v.frames[|v.frames| - 1];
    ElseTurns(v);
    TurnsBlock(v, CheckElse(v).value, f.(op := OpElse), f.ft.params, k);
  }

  /** The innermost block closes. */
  lemma ClosesBlock(v: VState, v': VState, ts: Types, k: nat)
    requires WellFormed(v) && v.frames != []
    requires v'.frames == v.frames[..|v.frames| - 1]
    requires v'.limits == if v.limits == [] then [] else v.limits[..|v.limits| - 1]
    requires v'.stack == v.stack[..Limit(v)] + ts
    ensures WellFormed(v') && (k < |v.frames| - 1 ==> Keeps(v, v', k))
  {
    if k < |v.frames| - 1 {
      KeepsBelow(v, v', k, Limit(v));
    }
  }

  lemma EndCloses(v: VState)
    requires WellFormed(v) && v.frames != [] && CheckEnd(v).Some?
    ensures var f, v' := v.frames[|v.frames| - 1], CheckEnd(v).value;
            && v'.frames == v.frames[..|v.frames| - 1]
            && v'.limits == (if v.limits == [] then [] else v.limits[..|v.limits| - 1])
            && v'.stack == v.stack[..Limit(v)] + f.ft.results
  {
    var f := v.frames[|v.frames| - 1];
    var v1 := PopTypes(v, f.ft.results).value;
    PopTypesPops(v, f.ft.results);
    CutIs(v, v1);
    PushAllIs(Cut(v1), f.ft.results);
  }

  lemma EndKeeps(v: VState, k: nat)
    requires WellFormed(v) && v.frames != [] && CheckEnd(v).Some?
    ensures WellFormed(CheckEnd(v).value)
    ensures CheckEnd(v).value.frames == v.frames[..|v.frames| - 1]
    ensures k < |v.frames| - 1 ==> Keeps(v, CheckEnd(v).value, k)
  {
    EndCloses(v);
    ClosesBlock(v, CheckEnd(v).value, v.frames[|v.frames| - 1].ft.results, k);
  }

  /** One instruction stays inside every frame that is still there afterwards. */
  lemma CheckKeeps(fn: Function, pc: nat, i: Instr, v: VState, k: nat)
    requires WellFormed(v) && Check(fn, pc, i, v).Some?
    ensures WellFormed(Check(fn, pc, i, v).value)
    ensures k < |v.frames| && k < |Check(fn, pc, i, v).value.frames| ==> Keeps(v, Check(fn, pc, i, v).value, k)
  {
    if Plain(i) {
      PlainAbove(fn, pc, i, v);
      KeepsAbove(v, Check(fn, pc, i, v).value, if k < |v.frames| then k else 0);
    } else {
      match i
      case Block(ft) => EnterKeeps(v, Frame(pc, OpBlock, ft), k);
      case Loop(ft) => EnterKeeps(v, Frame(pc, OpLoop, ft), k);
      case If(ft) =>
        var v1 := PopType(v, I32).value;
        KeepsAbove(v, v1, if k < |v.frames| then k else 0);
        EnterKeeps(v1, Frame(pc, OpIf, ft), k);
        if k < |v.frames| {
          KeepsThrough(v, v1, Enter(v1, Frame(pc, OpIf, ft)).value, k);
        }
      case Else => ElseKeeps(v, k);
      case End => EndKeeps(v, k);
    }
  }
}
