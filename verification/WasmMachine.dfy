/**
 Execution of decoded function bodies, step by step, after section 4.4 of the WebAssembly
 Core Specification 1.0 with multi-value blocks. Values carry their type, and a step that
 would underflow the operand stack of the current block, pop a value of another type, or
 branch to a label that does not exist is Stuck. The machine knows nothing of validation.
 */
module WasmMachine {
  import opened Validation

  datatype Value = Value(t: ValueType, bits: int)

  /** A label on the control stack: where its block opened, the block's type and the height of
      the operand stack to unwind to. */
  datatype Label = Label(start: nat, isLoop: bool, ft: FuncType, height: nat)

  /** The operands that a branch to the label carries. */
  function Carries(target: Label): Types {
    if target.isLoop then target.ft.params else target.ft.results
  }

  datatype Config = Config(pc: nat, vals: seq<Value>, labels: seq<Label>, locals: seq<Value>, globals: seq<Value>)

  datatype Outcome = Next(c: Config) | Trapped | Returned(vals: seq<Value>) | Stuck

  /** What an Op computes is left open: any values of its result types, or a trap. */
  datatype Choice = Trap | Values(vals: seq<Value>)

  function TypesOf(vals: seq<Value>): Types {
    seq(|vals|, i requires 0 <= i < |vals| => vals[i].t)
  }

  function Base(c: Config): nat {
    if c.labels == [] then 0 else c.labels[|c.labels| - 1].height
  }

  /** The innermost block has operands of exactly these types on top of its stack. */
  predicate Has(c: Config, ts: Types) {
    |c.vals| >= Base(c) + |ts| && TypesOf(c.vals[|c.vals| - |ts|..]) == ts
  }

  function Popped(c: Config, n: nat): seq<Value> {
    if n <= |c.vals| then c.vals[..|c.vals| - n] else []
  }

  /** The End that closes the block `d` levels out from `pc`, or the end of the code. */
  function EndOf(code: seq<Instr>, pc: nat, d: nat): nat
    decreases |code| - pc
  {
    if pc >= |code| then |code|
    else
      match code[pc]
      case Block(_) => EndOf(code, pc + 1, d + 1)
      case Loop(_) => EndOf(code, pc + 1, d + 1)
      case If(_) => EndOf(code, pc + 1, d + 1)
      case End => if d == 0 then pc else EndOf(code, pc + 1, d - 1)
      case _ => EndOf(code, pc + 1, d)
  }

  /** The Else of the block `d` levels out from `pc`, or its End if it has none. */
  function ElseOf(code: seq<Instr>, pc: nat, d: nat): nat
    decreases |code| - pc
  {
    if pc >= |code| then |code|
    else
      match code[pc]
      case Block(_) => ElseOf(code, pc + 1, d + 1)
      case Loop(_) => ElseOf(code, pc + 1, d + 1)
      case If(_) => ElseOf(code, pc + 1, d + 1)
      case Else => if d == 0 then pc else ElseOf(code, pc + 1, d)
      case End => if d == 0 then pc else ElseOf(code, pc + 1, d - 1)
      case _ => ElseOf(code, pc + 1, d)
  }

  /** Leaves the innermost block with the operands it has and goes on at `pc`. */
  function Leave(c: Config, pc: nat): Outcome
    requires c.labels != []
  {
    if |c.labels| == 1 then Returned(c.vals)
    else Next(c.(pc := pc, labels := c.labels[..|c.labels| - 1]))
  }

  function EnterBlock(c: Config, isLoop: bool, ft: FuncType, pc: nat): Outcome {
    if !Has(c, ft.params) then Stuck
    else
      Next(c.(pc := pc, labels := c.labels + [Label(c.pc, isLoop, ft, |c.vals| - |ft.params|)]))
  }

  /** Unwinds to label `l` with its operands, and goes on at the start of a loop or behind the
      end of another block. A branch to the outermost label returns. */
  function Branch(code: seq<Instr>, c: Config, l: nat): Outcome {
    if l >= |c.labels| then Stuck
    else
      var k := |c.labels| - 1 - l;
      var target := c.labels[k];
      var n := |Carries(target)|;
      if !Has(c, Carries(target)) || |c.vals| < target.height + n then Stuck
      else
        var vals := c.vals[..target.height] + c.vals[|c.vals| - n..];
        if target.isLoop then Next(c.(pc := target.start + 1, vals := vals, labels := c.labels[..k + 1]))
        else Leave(c.(vals := vals, labels := c.labels[..k + 1]), EndOf(code, c.pc + 1, l) + 1)
  }

  function ExecIf(code: seq<Instr>, c: Config, ft: FuncType): Outcome {
    if !Has(c, [I32]) then Stuck
    else
      var c1 := c.(vals := Popped(c, 1));
      if c.vals[|c.vals| - 1].bits != 0 then EnterBlock(c1, false, ft, c.pc + 1)
      else
        var q := ElseOf(code, c.pc + 1, 0);
        if q < |code| && code[q].Else? then EnterBlock(c1, false, ft, q + 1)
        else if !Has(c1, ft.params) then Stuck
        else Next(c1.(pc := q + 1))
  }

  function ExecOp(c: Config, pops: Types, pushes: Types, choice: Choice): Outcome {
    if !Has(c, pops) then Stuck
    else if choice.Trap? || TypesOf(choice.vals) != pushes then Trapped
    else Next(c.(pc := c.pc + 1, vals := Popped(c, |pops|) + choice.vals))
  }

  function ExecVariable(fn: Function, c: Config, i: Instr): Outcome {
    match i
    case LocalGet(x) =>
      if x >= |c.locals| then Stuck else Next(c.(pc := c.pc + 1, vals := c.vals + [c.locals[x]]))
    case LocalSet(x) =>
      if x >= |c.locals| || !Has(c, [c.locals[x].t]) then Stuck
      else Next(c.(pc := c.pc + 1, vals := Popped(c, 1), locals := c.locals[x := c.vals[|c.vals| - 1]]))
    case LocalTee(x) =>
      if x >= |c.locals| || !Has(c, [c.locals[x].t]) then Stuck
      else Next(c.(pc := c.pc + 1, locals := c.locals[x := c.vals[|c.vals| - 1]]))
    case GlobalGet(x) =>
      if x >= |c.globals| then Stuck else Next(c.(pc := c.pc + 1, vals := c.vals + [c.globals[x]]))
    case GlobalSet(x) =>
      if x >= |c.globals| || x >= |fn.globals| || !fn.globals[x].mutable || !Has(c, [c.globals[x].t]) then Stuck
      else Next(c.(pc := c.pc + 1, vals := Popped(c, 1), globals := c.globals[x := c.vals[|c.vals| - 1]]))
    case _ => Stuck
  }

  function ExecSelect(c: Config): Outcome {
    if |c.vals| < Base(c) + 3 then Stuck
    else
      var n := |c.vals|;
      if c.vals[n - 1].t != I32 || c.vals[n - 2].t != c.vals[n - 3].t then Stuck
      else Next(c.(pc := c.pc + 1,
                   vals := Popped(c, 3) + [if c.vals[n - 1].bits != 0 then c.vals[n - 3] else c.vals[n - 2]]))
  }

  function ExecBranch(code: seq<Instr>, c: Config, i: Instr): Outcome {
    match i
    case Br(l) => Branch(code, c, l)
    case BrIf(l) =>
      if !Has(c, [I32]) then Stuck
      else if c.vals[|c.vals| - 1].bits != 0 then Branch(code, c.(vals := Popped(c, 1)), l)
      else Next(c.(pc := c.pc + 1, vals := Popped(c, 1)))
    case BrTable(ls, ln) =>
      if !Has(c, [I32]) then Stuck
      else
        var x := c.vals[|c.vals| - 1].bits;
        Branch(code, c.(vals := Popped(c, 1)), if 0 <= x < |ls| then ls[x] else ln)
    case _ => Stuck
  }

  function Exec(fn: Function, c: Config, choice: Choice): Outcome {
    if c.pc >= |fn.code| || c.labels == [] then Stuck
    else
      var i := fn.code[c.pc];
      match i
      case Nop => Next(c.(pc := c.pc + 1))
      case Unreachable => Trapped
      case Op(pops, pushes) => ExecOp(c, pops, pushes, choice)
      case Drop => if |c.vals| < Base(c) + 1 then Stuck else Next(c.(pc := c.pc + 1, vals := Popped(c, 1)))
      case Select => ExecSelect(c)
      case Block(ft) => EnterBlock(c, false, ft, c.pc + 1)
      case Loop(ft) => EnterBlock(c, true, ft, c.pc + 1)
      case If(ft) => ExecIf(fn.code, c, ft)
      case Else => AtEnd(c, EndOf(fn.code, c.pc + 1, 0) + 1)
      case End => AtEnd(c, c.pc + 1)
      case Br(_) => ExecBranch(fn.code, c, i)
      case BrIf(_) => ExecBranch(fn.code, c, i)
      case BrTable(_, _) => ExecBranch(fn.code, c, i)
      case Return =>
        if !Has(c, fn.ft.results) then Stuck
        else Returned(c.vals[|c.vals| - |fn.ft.results|..])
      case _ => ExecVariable(fn, c, i)
  }

  /** Control falls out of a block: exactly its results must be on its stack. */
  function AtEnd(c: Config, pc: nat): Outcome
    requires c.labels != []
  {
    var target := c.labels[|c.labels| - 1];
    if target.height > |c.vals| || TypesOf(c.vals[target.height..]) != target.ft.results then Stuck
    else Leave(c, pc)
  }

  /** A call starts with no operands, its arguments and zeroed locals as locals, and the
      function body as its outermost block. */
  predicate Starts(fn: Function, c: Config) {
    && c.pc == 0 && c.vals == [] && c.labels == [Label(0, false, fn.ft, 0)]
    && TypesOf(c.locals) == fn.locals
    && TypesOf(c.globals) == seq(|fn.globals|, i requires 0 <= i < |fn.globals| => fn.globals[i].t)
  }
}
