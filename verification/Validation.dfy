/**
 The abstract stack machine of the function validator (internal/wasm/func_validation.go) as
 a function from one validation state to the next, for the numeric types and the control
 instructions. The validator that works in place, and is proved to compute this, is in
 FunctionValidator.dfy.
 */
module Validation {

  /** Unknown is the validator's valueTypeUnknown: a value popped in unreachable code. */
  datatype ValueType = I32 | I64 | F32 | F64 | Unknown

  type Types = seq<ValueType>

  datatype FuncType = FuncType(params: Types, results: Types)

  datatype GlobalType = GlobalType(t: ValueType, mutable: bool)

  /** Decoded instructions. Op stands for every instruction that only pops operands and pushes
      results: constants, numeric operations, loads and stores, calls. */
  datatype Instr =
    | Nop
    | Unreachable
    | Op(pops: Types, pushes: Types)
    | LocalGet(x: nat)
    | LocalSet(x: nat)
    | LocalTee(x: nat)
    | GlobalGet(x: nat)
    | GlobalSet(x: nat)
    | Drop
    | Select
    | Block(ft: FuncType)
    | Loop(ft: FuncType)
    | If(ft: FuncType)
    | Else
    | End
    | Br(l: nat)
    | BrIf(l: nat)
    | BrTable(ls: seq<nat>, ln: nat)
    | Return

  /** `locals` are the parameters followed by the declared locals; `refTypes` is whether the
      reference-types feature is enabled, and `maxStackValues` the limit on stack height. */
  datatype Function = Function(
    ft: FuncType,
    locals: Types,
    globals: seq<GlobalType>,
    code: seq<Instr>,
    refTypes: bool,
    maxStackValues: nat)

  datatype BlockOp = OpBlock | OpLoop | OpIf | OpElse

  /** controlBlock: `startAt` is where the block opened. The outermost one is the function. */
  datatype Frame = Frame(startAt: nat, op: BlockOp, ft: FuncType)

  /** valueTypeStack and controlBlockStack. A limit is the height below which the block that
      pushed it may not pop; the function's own frame has none. */
  datatype VState = VState(stack: Types, limits: seq<nat>, max: nat, frames: seq<Frame>)

  datatype Option<+T> = None | Some(value: T) {
    predicate IsFailure() { None? }
    function PropagateFailure<U>(): Option<U>
      requires None?
    { None }
    function Extract(): T
      requires Some?
    { value }
  }

  // The value type stack

  function Limit(v: VState): nat {
    if v.limits == [] then 0 else v.limits[|v.limits| - 1]
  }

  /** The stack above the current limit starts with Unknown: the code here is unreachable. */
  predicate Polymorphic(v: VState) {
    Limit(v) < |v.stack| && v.stack[Limit(v)] == Unknown
  }

  function Push(v: VState, t: ValueType): VState {
    v.(stack := v.stack + [t], max := if v.max < |v.stack| + 1 then |v.stack| + 1 else v.max)
  }

  function PushAll(v: VState, ts: Types): VState
    decreases |ts|
  {
    if ts == [] then v else PushAll(Push(v, ts[0]), ts[1..])
  }

  /** tryPop: the Unknown at the bottom of an unreachable block stays for the next pop. */
  function Pop(v: VState): Option<(VState, ValueType)> {
    if |v.stack| <= Limit(v) then None
    else if |v.stack| == Limit(v) + 1 && Polymorphic(v) then Some((v, Unknown))
    else Some((v.(stack := v.stack[..|v.stack| - 1]), v.stack[|v.stack| - 1]))
  }

  predicate Matches(have: ValueType, want: ValueType) {
    have == Unknown || want == Unknown || have == want
  }

  function PopType(v: VState, want: ValueType): Option<VState> {
    var (v', have) :- Pop(v);
    if Matches(have, want) then Some(v') else None
  }

  /** Pops `want`, the last type first. */
  function PopTypes(v: VState, want: Types): Option<VState>
    decreases |want|
  {
    if want == [] then Some(v)
    else
      var v' :- PopType(v, want[|want| - 1]);
      PopTypes(v', want[..|want| - 1])
  }

  /** Nothing is left above the limit but possibly the Unknown of unreachable code. */
  predicate AtLimit(v: VState) {
    |v.stack| == Limit(v) || (|v.stack| == Limit(v) + 1 && Polymorphic(v))
  }

  function Cut(v: VState): VState {
    if Limit(v) <= |v.stack| then v.(stack := v.stack[..Limit(v)]) else v
  }

  function MakeUnreachable(v: VState): VState {
    var v' := Cut(v);
    v'.(stack := v'.stack + [Unknown])
  }

  // Control

  function LabelTypes(f: Frame): Types {
    if f.op == OpLoop then f.ft.params else f.ft.results
  }

  /** The frame that label `l` names, counting from the innermost. */
  function FrameOf(v: VState, l: nat): Frame
    requires l < |v.frames|
  {
    v.frames[|v.frames| - 1 - l]
  }

  function Enter(v: VState, f: Frame): Option<VState> {
    var v1 :- PopTypes(v, f.ft.params);
    var v2 := PushAll(v1, f.ft.params);
    Some(v2.(frames := v2.frames + [f], limits := v2.limits + [|v1.stack|]))
  }

  function CheckElse(v: VState): Option<VState>
    requires v.frames != []
  {
    var f := v.frames[|v.frames| - 1];
    if f.op != OpIf then None
    else
      var v1 :- PopTypes(v, f.ft.results);
      if !AtLimit(v1) then None
      else Some(PushAll(Cut(v1), f.ft.params).(frames := v.frames[..|v.frames| - 1] + [f.(op := OpElse)]))
  }

  function CheckEnd(v: VState): Option<VState>
    requires v.frames != []
  {
    var f := v.frames[|v.frames| - 1];
    if f.op == OpIf && f.ft.results != f.ft.params then None
    else
      var v1 :- PopTypes(v, f.ft.results);
      if !AtLimit(v1) then None
      else
        var v2 := PushAll(Cut(v1), f.ft.results);
        Some(v2.(frames := v.frames[..|v.frames| - 1],
                 limits := if v.limits == [] then [] else v.limits[..|v.limits| - 1]))
  }

  /** The operand types of br_table's default label, Unknown where the code is unreachable:
      with reference types, each other label is compared only where the type is known. */
  function PopKnown(v: VState, want: Types): Option<(VState, Types)>
    decreases |want|
  {
    if want == [] then Some((v, []))
    else
      var (v1, have) :- Pop(v);
      if !Matches(have, want[|want| - 1]) then None
      else
        var (v2, rest) :- PopKnown(v1, want[..|want| - 1]);
        Some((v2, rest + [if have == Unknown then Unknown else want[|want| - 1]]))
  }

  predicate SameLabel(known: Types, other: Types) {
    && |known| == |other|
    && forall i :: 0 <= i < |known| ==> known[i] == Unknown || known[i] == other[i]
  }

  predicate LabelsMatch(frames: seq<Frame>, ls: seq<nat>, known: Types) {
    forall i :: 0 <= i < |ls| ==> ls[i] < |frames| && SameLabel(known, LabelTypes(frames[|frames| - 1 - ls[i]]))
  }

  function CheckBrTable(fn: Function, v: VState, ls: seq<nat>, ln: nat): Option<VState> {
    if ln >= |v.frames| then None
    else
      var v1 :- PopType(v, I32);
      var want := LabelTypes(FrameOf(v, ln));
      var (v2, known) :- if fn.refTypes then PopKnown(v1, want)
                         else (var v2 :- PopTypes(v1, want); Some((v2, want)));
      if LabelsMatch(v.frames, ls, known) then Some(MakeUnreachable(v2)) else None
  }

  function CheckSelect(v: VState): Option<VState> {
    var v1 :- PopType(v, I32);
    var (v2, a) :- Pop(v1);
    var (v3, b) :- Pop(v2);
    if !Matches(a, b) then None else Some(Push(v3, if a == Unknown then b else a))
  }

  /** One iteration of the validator's loop over the body. */
  function Check(fn: Function, pc: nat, i: Instr, v: VState): Option<VState> {
    if v.frames == [] then None
    else
      match i
      case Nop => Some(v)
      case Unreachable => Some(MakeUnreachable(v))
      case Op(pops, pushes) => var v1 :- PopTypes(v, pops); Some(PushAll(v1, pushes))
      case LocalGet(x) => if x < |fn.locals| then Some(Push(v, fn.locals[x])) else None
      case LocalSet(x) => if x < |fn.locals| then PopType(v, fn.locals[x]) else None
      case LocalTee(x) =>
        if x < |fn.locals| then (var v1 :- PopType(v, fn.locals[x]); Some(Push(v1, fn.locals[x]))) else None
      case GlobalGet(x) => if x < |fn.globals| then Some(Push(v, fn.globals[x].t)) else None
      case GlobalSet(x) => if x < |fn.globals| && fn.globals[x].mutable then PopType(v, fn.globals[x].t) else None
      case Drop => var (v1, _) :- Pop(v); Some(v1)
      case Select => CheckSelect(v)
      case Block(ft) => Enter(v, Frame(pc, OpBlock, ft))
      case Loop(ft) => Enter(v, Frame(pc, OpLoop, ft))
      case If(ft) => var v1 :- PopType(v, I32); Enter(v1, Frame(pc, OpIf, ft))
      case Else => CheckElse(v)
      case End => CheckEnd(v)
      case Br(l) =>
        if l >= |v.frames| then None
        else var v1 :- PopTypes(v, LabelTypes(FrameOf(v, l))); Some(MakeUnreachable(v1))
      case BrIf(l) =>
        if l >= |v.frames| then None
        else
          var v1 :- PopType(v, I32);
          var v2 :- PopTypes(v1, LabelTypes(FrameOf(v, l)));
          Some(PushAll(v2, LabelTypes(FrameOf(v, l))))
      case BrTable(ls, ln) => CheckBrTable(fn, v, ls, ln)
      case Return => var v1 :- PopTypes(v, fn.ft.results); Some(MakeUnreachable(v1))
  }

  function InitialState(fn: Function): VState {
    VState([], [], 0, [Frame(0, OpBlock, fn.ft)])
  }

  /** The state in which the validator arrives at `pc`, if it gets there. */
  function StateAt(fn: Function, pc: nat): Option<VState>
    requires pc <= |fn.code|
  {
    if pc == 0 then Some(InitialState(fn))
    else
      var v :- StateAt(fn, pc - 1);
      Check(fn, pc - 1, fn.code[pc - 1], v)
  }

  /** validateFunctionWithMaxStackValues returns no error. */
  predicate Accepts(fn: Function) {
    var last := StateAt(fn, |fn.code|);
    last.Some? && last.value.frames == [] && last.value.max <= fn.maxStackValues
  }
}
