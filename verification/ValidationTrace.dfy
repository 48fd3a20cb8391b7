/**
 The validator's run over a whole body, as the sequence of its states: every open block
 knows where it opened, and the End and Else that the machine jumps to are those that the
 validator matched to the block.
 */
module ValidationTrace {
  import opened Validation
  import opened WasmMachine
  import opened ValidationLemmas

  ghost predicate Checks(fn: Function, tr: seq<VState>, pc: nat)
    requires pc < |fn.code| && pc + 1 < |tr|
  {
    Check(fn, pc, fn.code[pc], tr[pc]) == Some(tr[pc + 1])
  }

  /** `tr[pc]` is the state in which the validator arrives at `pc`. */
  ghost predicate Trace(fn: Function, tr: seq<VState>) {
    && |tr| == |fn.code| + 1 && tr[0] == InitialState(fn)
    && (forall pc :: 0 <= pc < |fn.code| ==> Checks(fn, tr, pc))
    && tr[|fn.code|].frames == [] && tr[|fn.code|].max <= fn.maxStackValues
  }

  lemma {:induction false} TraceUpTo(fn: Function, n: nat) returns (tr: seq<VState>)
    requires n <= |fn.code| && StateAt(fn, n).Some?
    ensures |tr| == n + 1 && tr[0] == InitialState(fn) && tr[n] == StateAt(fn, n).value
    ensures forall pc :: 0 <= pc < n ==> Checks(fn, tr, pc)
  {
    if n == 0 {
      tr := [InitialState(fn)];
    } else {
      var tr0 := TraceUpTo(fn, n - 1);
      tr := tr0 + [StateAt(fn, n).value];
      forall pc | 0 <= pc < n
        ensures Checks(fn, tr, pc)
      {
        if pc < n - 1 {
          assert Checks(fn, tr0, pc);
        }
      }
    }
  }

  /** How an instruction changes the number of open blocks. */
  function Depth(i: Instr): int {
    match i
    case Block(_) => 1
    case Loop(_) => 1
    case If(_) => 1
    case End => -1
    case _ => 0
  }

  lemma CheckDepth(fn: Function, pc: nat, i: Instr, v: VState)
    requires WellFormed(v) && Check(fn, pc, i, v).Some?
    ensures v.frames != []
    ensures |Check(fn, pc, i, v).value.frames| == |v.frames| + Depth(i)
    ensures Depth(i) == 1 ==> var f := Check(fn, pc, i, v).value.frames[|v.frames|]; f.startAt == pc && f.ft == i.ft
    ensures Depth(i) == 1 ==> (Check(fn, pc, i, v).value.frames[|v.frames|].op == OpLoop <==> i.Loop?)
  {
    if Plain(i) {
      PlainAbove(fn, pc, i, v);
    } else {
      match i
      case Block(ft) => EnterKeeps(v, Frame(pc, OpBlock, ft), 0);
      case Loop(ft) => EnterKeeps(v, Frame(pc, OpLoop, ft), 0);
      case If(ft) =>
        var v1 := PopType(v, I32).value;
        KeepsAbove(v, v1, 0);
        EnterKeeps(v1, Frame(pc, OpIf, ft), 0);
      case Else => ElseKeeps(v, 0);
      case End => EndKeeps(v, 0);
    }
  }

  /** Only its own Else turns a frame. */
  lemma FrameUnchanged(fn: Function, pc: nat, i: Instr, v: VState, k: nat)
    requires WellFormed(v) && Check(fn, pc, i, v).Some?
    requires k < |v.frames| && k < |Check(fn, pc, i, v).value.frames|
    requires i.Else? ==> k < |v.frames| - 1
    ensures Check(fn, pc, i, v).value.frames[k] == v.frames[k]
  {
    if Plain(i) {
      PlainAbove(fn, pc, i, v);
    } else {
      match i
      case Block(ft) => EnterKeeps(v, Frame(pc, OpBlock, ft), k);
      case Loop(ft) => EnterKeeps(v, Frame(pc, OpLoop, ft), k);
      case If(ft) =>
        var v1 := PopType(v, I32).value;
        KeepsAbove(v, v1, k);
        EnterKeeps(v1, Frame(pc, OpIf, ft), k);
      case Else => ElseKeeps(v, k);
      case End => EndKeeps(v, k);
    }
  }

  lemma {:induction false} TraceWellFormed(fn: Function, tr: seq<VState>, pc: nat)
    requires Trace(fn, tr) && pc <= |fn.code|
    ensures WellFormed(tr[pc])
  {
    if pc > 0 {
      TraceWellFormed(fn, tr, pc - 1);
      assert Checks(fn, tr, pc - 1);
      StaysWellFormed(fn, pc - 1, fn.code[pc - 1], tr[pc - 1], tr[pc]);
    }
  }

  lemma StaysWellFormed(fn: Function, pc: nat, i: Instr, v: VState, v': VState)
    requires WellFormed(v) && Check(fn, pc, i, v) == Some(v')
    ensures WellFormed(v')
  {
    CheckKeeps(fn, pc, i, v, 0);
  }

  /** One step of the validator, and what it keeps. */
  lemma Advance(fn: Function, tr: seq<VState>, pc: nat, k: nat)
    requires Trace(fn, tr) && pc < |fn.code|
    ensures WellFormed(tr[pc]) && WellFormed(tr[pc + 1]) && tr[pc].frames != []
    ensures |tr[pc + 1].frames| == |tr[pc].frames| + Depth(fn.code[pc])
    ensures k < |tr[pc].frames| && k < |tr[pc + 1].frames| ==> Keeps(tr[pc], tr[pc + 1], k)
    ensures k < |tr[pc].frames| && k < |tr[pc + 1].frames| && !(fn.code[pc].Else? && k == |tr[pc].frames| - 1) ==>
              tr[pc + 1].frames[k] == tr[pc].frames[k]
  {
    var v, v', i := tr[pc], tr[pc + 1], fn.code[pc];
    TraceWellFormed(fn, tr, pc);
    assert Checks(fn, tr, pc);
    CheckKeeps(fn, pc, i, v, k);
    CheckDepth(fn, pc, i, v);
    if k < |v.frames| && k < |v'.frames| && !(i.Else? && k == |v.frames| - 1) {
      FrameUnchanged(fn, pc, i, v, k);
    }
  }

  lemma EndOfStep(code: seq<Instr>, pc: nat, d: nat)
    requires pc < |code| && !(code[pc].End? && d == 0)
    ensures d + Depth(code[pc]) >= 0 && EndOf(code, pc, d) == EndOf(code, pc + 1, d + Depth(code[pc]))
  {
  }

  lemma ElseOfStep(code: seq<Instr>, pc: nat, d: nat)
    requires pc < |code| && !((code[pc].End? || code[pc].Else?) && d == 0)
    ensures d + Depth(code[pc]) >= 0 && ElseOf(code, pc, d) == ElseOf(code, pc + 1, d + Depth(code[pc]))
  {
  }

  /** The End that closes frame `k` of an accepted function exists, and arriving there the
      validator has kept frame `k` and everything around it. */
  lemma {:induction false} EndMatches(fn: Function, tr: seq<VState>, pc: nat, d: nat) returns (e: nat)
    requires Trace(fn, tr) && pc <= |fn.code| && d < |tr[pc].frames|
    ensures e == EndOf(fn.code, pc, d) && pc <= e < |fn.code| && fn.code[e].End?
    ensures |tr[e].frames| == |tr[pc].frames| - d && Keeps(tr[pc], tr[e], |tr[pc].frames| - 1 - d)
    decreases |fn.code| - pc
  {
    var k := |tr[pc].frames| - 1 - d;
    TraceWellFormed(fn, tr, pc);
    if fn.code[pc].End? && d == 0 {
      KeepsSelf(tr[pc], k);
      e := pc;
    } else {
      Advance(fn, tr, pc, k);
      EndOfStep(fn.code, pc, d);
      e := EndMatches(fn, tr, pc + 1, d + Depth(fn.code[pc]));
      KeepsThrough(tr[pc], tr[pc + 1], tr[e], k);
    }
  }

  /** The Else that belongs to frame `k`, or its End if there is none; up to there the frame
      itself has not changed. */
  lemma {:induction false} ElseMatches(fn: Function, tr: seq<VState>, pc: nat, d: nat) returns (q: nat)
    requires Trace(fn, tr) && pc <= |fn.code| && d < |tr[pc].frames|
    ensures q == ElseOf(fn.code, pc, d) && pc <= q < |fn.code| && (fn.code[q].Else? || fn.code[q].End?)
    ensures |tr[q].frames| == |tr[pc].frames| - d && Keeps(tr[pc], tr[q], |tr[pc].frames| - 1 - d)
    ensures tr[q].frames[|tr[pc].frames| - 1 - d] == tr[pc].frames[|tr[pc].frames| - 1 - d]
    decreases |fn.code| - pc
  {
    var k := |tr[pc].frames| - 1 - d;
    TraceWellFormed(fn, tr, pc);
    if (fn.code[pc].Else? || fn.code[pc].End?) && d == 0 {
      KeepsSelf(tr[pc], k);
      q := pc;
    } else {
      Advance(fn, tr, pc, k);
      ElseOfStep(fn.code, pc, d);
      q := ElseMatches(fn, tr, pc + 1, d + Depth(fn.code[pc]));
      KeepsThrough(tr[pc], tr[pc + 1], tr[q], k);
    }
  }

  /** Frame `k` at `pc` was opened by the instruction at `s`, and has been kept since. */
  ghost predicate OpenedAt(fn: Function, tr: seq<VState>, pc: nat, k: nat, s: nat) {
    && s < pc < |tr| == |fn.code| + 1 && k < |tr[pc].frames|
    && tr[pc].frames[k].startAt == s
    && Depth(fn.code[s]) == 1 && fn.code[s].ft == tr[pc].frames[k].ft
    && (tr[pc].frames[k].op == OpLoop <==> fn.code[s].Loop?)
    && |tr[s + 1].frames| == k + 1 && Keeps(tr[s + 1], tr[pc], k)
  }

  lemma {:induction false} Opened(fn: Function, tr: seq<VState>, pc: nat, k: nat)
    requires Trace(fn, tr) && pc <= |fn.code| && 0 < k < |tr[pc].frames|
    ensures OpenedAt(fn, tr, pc, k, tr[pc].frames[k].startAt)
  {
    if pc > 0 {
      if k < |tr[pc - 1].frames| {
        Opened(fn, tr, pc - 1, k);
        OpenedEarlier(fn, tr, pc, k, tr[pc - 1].frames[k].startAt);
      } else {
        OpenedJustNow(fn, tr, pc, k);
      }
    }
  }

  lemma OpenedEarlier(fn: Function, tr: seq<VState>, pc: nat, k: nat, s: nat)
    requires Trace(fn, tr) && 0 < pc <= |fn.code| && k < |tr[pc].frames| && OpenedAt(fn, tr, pc - 1, k, s)
    ensures tr[pc].frames[k].startAt == s && OpenedAt(fn, tr, pc, k, s)
  {
    Advance(fn, tr, pc - 1, k);
    KeepsThrough(tr[s + 1], tr[pc - 1], tr[pc], k);
  }

  lemma OpenedJustNow(fn: Function, tr: seq<VState>, pc: nat, k: nat)
    requires Trace(fn, tr) && 0 < pc <= |fn.code| && |tr[pc - 1].frames| <= k < |tr[pc].frames|
    ensures tr[pc].frames[k].startAt == pc - 1 && OpenedAt(fn, tr, pc, k, pc - 1)
  {
    Advance(fn, tr, pc - 1, k);
    assert Checks(fn, tr, pc - 1);
    CheckDepth(fn, pc - 1, fn.code[pc - 1], tr[pc - 1]);
    KeepsSelf(tr[pc], k);
  }
}
