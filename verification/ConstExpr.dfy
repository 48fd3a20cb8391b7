/**
 Constant expressions (internal/wasm/const_expr.go): an evaluator over a stack of 64-bit slots and
 a stack of types, and the analysis that tells whether an expression may depend on the globals.
 */
module ConstExpr {
  import opened Bytes
  import L = LEB128
  import S = LEB128Signed

  datatype ValueType = I32 | I64 | F32 | F64 | V128 | Funcref | Externref | Exnref | ConcreteRef(typeIdx: nat)

  datatype BinOp = Add | Sub | Mul

  /** The source's errors; RanOff is io.ErrUnexpectedEOF where an instruction should start. */
  datatype Error =
    | RanOff | UnexpectedEOF | BadImmediate | BadVecOpcode | Underflow | Mismatch
    | NotOneValue | BadOpcode | FromResolver(code: int)

  // Reading instructions

  /** A value of a type; `hi` is used by vectors only. */
  datatype Value = Value(t: ValueType, lo: nat, hi: nat)

  datatype Instr =
    | Const(v: Value)
    | GlobalGet(index: nat)
    | RefFunc(index: nat)
    | Arith(t: ValueType, op: BinOp)
    | End

  /** The instruction at a position and where the next one starts; the evaluator panics where it
      reads the byte after a vector prefix that is the last one. */
  datatype Fetched = Fetched(instr: Instr, next: nat) | Malformed(error: Error) | Panic

  function Word(v: int, bits64: bool): nat {
    v % if bits64 then TWO_TO_THE_64 else TWO_TO_THE_32
  }

  function FetchConst(r: L.Result, pc: nat, t: ValueType): Fetched {
    match r
    case Ok(v, n) => Fetched(Const(Value(t, Word(v, t == I64), 0)), pc + n)
    case _ => Malformed(BadImmediate)
  }

  function FetchIndex(data: seq<byte>, pc: nat, global: bool): Fetched
    requires pc <= |data|
  {
    match L.UnsignedSpec(32, 5, data[pc..])
    case Ok(v, n) => Fetched(if global then GlobalGet(v) else RefFunc(v), pc + n)
    case _ => Malformed(BadImmediate)
  }

  function FetchNull(data: seq<byte>, pc: nat): Fetched
    requires pc <= |data|
  {
    if pc == |data| then Malformed(BadImmediate)
    else if data[pc] == 0x70 then Fetched(Const(Value(Funcref, 0, 0)), pc + 1)
    else if data[pc] == 0x6f then Fetched(Const(Value(Externref, 0, 0)), pc + 1)
    else if data[pc] == 0x69 then Fetched(Const(Value(Exnref, 0, 0)), pc + 1)
    else
      match L.UnsignedSpec(32, 5, data[pc..])
      case Ok(v, n) => Fetched(Const(Value(ConcreteRef(v), 0, 0)), pc + n)
      case _ => Malformed(BadImmediate)
  }

  function FetchVector(data: seq<byte>, pc: nat): Fetched
    requires pc <= |data|
  {
    if pc == |data| then Panic
    else if data[pc] != 0x0c then Malformed(BadVecOpcode)
    else if |data| - pc - 1 < 16 then Malformed(BadImmediate)
    else Fetched(Const(Value(V128, FromLE(data[pc + 1..pc + 9]), FromLE(data[pc + 9..pc + 17]))), pc + 17)
  }

  function Fetch(data: seq<byte>, pc: nat): (f: Fetched)
    requires pc < |data|
    ensures f.Fetched? ==> pc < f.next <= |data|
    ensures f.Fetched? && f.instr.Arith? ==> f.instr.t == I32 || f.instr.t == I64
  {
    var op, at := data[pc], pc + 1;
    if op == 0x41 then FetchConst(S.Decoded(32, 5, data[at..]), at, I32)
    else if op == 0x42 then FetchConst(S.Decoded(64, 10, data[at..]), at, I64)
    else if op == 0x43 then
      if |data| - at < 4 then Malformed(UnexpectedEOF)
      else Fetched(Const(Value(F32, FromLE(data[at..at + 4]), 0)), at + 4)
    else if op == 0x44 then
      if |data| - at < 8 then Malformed(UnexpectedEOF)
      else Fetched(Const(Value(F64, FromLE(data[at..at + 8]), 0)), at + 8)
    else if op == 0x23 then FetchIndex(data, at, true)
    else if op == 0xd2 then FetchIndex(data, at, false)
    else if op == 0xd0 then FetchNull(data, at)
    else if op == 0xfd then FetchVector(data, at)
    else if op == 0x6a then Fetched(Arith(I32, Add), at)
    else if op == 0x6b then Fetched(Arith(I32, Sub), at)
    else if op == 0x6c then Fetched(Arith(I32, Mul), at)
    else if op == 0x7c then Fetched(Arith(I64, Add), at)
    else if op == 0x7d then Fetched(Arith(I64, Sub), at)
    else if op == 0x7e then Fetched(Arith(I64, Mul), at)
    else if op == 0x0b then Fetched(End, at)
    else Malformed(BadOpcode)
  }

  // What an expression means: a machine over typed values

  datatype Lookup<T> = Found(value: T) | NotFound(code: int)

  /** The resolvers of globals and of function references. */
  datatype Env = Env(globals: nat -> Lookup<Value>, funcs: nat -> Lookup<nat>)

  datatype Result = Done(v: Value) | Failed(error: Error) | Panicked

  /** A result, and how often a resolver was called for it. */
  datatype Outcome = Outcome(result: Result, calls: nat)

  function Compute(op: BinOp, a: int, b: int): int {
    match op
    case Add => a + b
    case Sub => a - b
    case Mul => a * b
  }

  /** Modular arithmetic of the type's width. */
  function ArithValue(t: ValueType, op: BinOp, a: nat, b: nat): Value {
    Value(t, Word(Compute(op, Word(a, t == I64), Word(b, t == I64)), t == I64), 0)
  }

  function Push(vs: seq<Value>, v: Value): seq<Value> {
    vs + [v]
  }

  /** What an instruction does: go on with other values, or stop. */
  datatype Effect = Next(vs: seq<Value>, calls: nat) | Stop(result: Result, calls: nat)

  function Step(i: Instr, vs: seq<Value>, env: Env): Effect {
    match i
    case Const(v) => Next(Push(vs, v), 0)
    case GlobalGet(index) =>
      (match env.globals(index)
       case NotFound(c) => Stop(Failed(FromResolver(c)), 1)
       case Found(v) => Next(Push(vs, v), 1))
    case RefFunc(index) =>
      (match env.funcs(index)
       case NotFound(c) => Stop(Failed(FromResolver(c)), 1)
       case Found(ref) => Next(Push(vs, Value(Funcref, ref, 0)), 1))
    case Arith(t, op) =>
      var n := |vs|;
      if n < 2 then Stop(Failed(Underflow), 0)
      else if vs[n - 1].t != t || vs[n - 2].t != t then Stop(Failed(Mismatch), 0)
      else Next(Push(vs[..n - 2], ArithValue(t, op, vs[n - 2].lo, vs[n - 1].lo)), 0)
    case End => if |vs| != 1 then Stop(Failed(NotOneValue), 0) else Stop(Done(vs[0]), 0)
  }

  function Eval(data: seq<byte>, pc: nat, vs: seq<Value>, env: Env): Outcome
    decreases |data| - pc
  {
    if pc >= |data| then Outcome(Failed(RanOff), 0)
    else
      match Fetch(data, pc)
      case Malformed(e) => Outcome(Failed(e), 0)
      case Panic => Outcome(Panicked, 0)
      case Fetched(i, next) =>
        match Step(i, vs, env)
        case Stop(r, calls) => Outcome(r, calls)
        case Next(vs', calls) =>
          var rest := Eval(data, next, vs', env);
          Outcome(rest.result, rest.calls + calls)
  }

  // The evaluator: values in slots of 64 bits, types beside them

  function SlotsOf(v: Value): seq<nat> {
    if v.t == V128 then [v.lo, v.hi] else [v.lo]
  }

  function Flatten(vs: seq<Value>): seq<nat> {
    if vs == [] then [] else Flatten(vs[..|vs| - 1]) + SlotsOf(vs[|vs| - 1])
  }

  function Types(vs: seq<Value>): (ts: seq<ValueType>)
    ensures |ts| == |vs|
  {
    seq(|vs|, i requires 0 <= i < |vs| => vs[i].t)
  }

  function Width(t: ValueType): nat {
    if t == V128 then 2 else 1
  }

  function TotalWidth(ts: seq<ValueType>): nat {
    if ts == [] then 0 else TotalWidth(ts[..|ts| - 1]) + Width(ts[|ts| - 1])
  }

  /** The slots are as many as the types are wide. */
  lemma {:induction false} SlotsMatchTypes(vs: seq<Value>)
    ensures |Flatten(vs)| == TotalWidth(Types(vs))
  {
    if vs != [] {
      SlotsMatchTypes(vs[..|vs| - 1]);
      assert Types(vs)[..|vs| - 1] == Types(vs[..|vs| - 1]);
    }
  }

  lemma PushFlattened(vs: seq<Value>, v: Value)
    ensures Flatten(Push(vs, v)) == Flatten(vs) + SlotsOf(v)
    ensures Types(Push(vs, v)) == Types(vs) + [v.t]
  {
    assert Push(vs, v)[..|vs|] == vs;
  }

  /** The two topmost values of one slot each. */
  lemma {:induction false} TopTwo(vs: seq<Value>)
    requires |vs| >= 2 && vs[|vs| - 1].t != V128 && vs[|vs| - 2].t != V128
    ensures var n := |vs|;
            && Flatten(vs) == Flatten(vs[..n - 2]) + [vs[n - 2].lo, vs[n - 1].lo]
            && Types(vs)[..n - 2] == Types(vs[..n - 2])
  {
    var n := |vs|;
    var one := vs[..n - 1];
    assert one[..n - 2] == vs[..n - 2] && one[n - 2] == vs[n - 2];
    assert Flatten(one) == Flatten(vs[..n - 2]) + [vs[n - 2].lo];
    assert Flatten(vs) == Flatten(one) + [vs[n - 1].lo];
  }

  datatype SlotResult = Slots(stack: seq<nat>, t: ValueType) | Error(error: Error) | Crash

  function Flat(r: Result): SlotResult {
    match r
    case Done(v) => Slots(SlotsOf(v), v.t)
    case Failed(e) => Error(e)
    case Panicked => Crash
  }

  /** What remains to be evaluated is what was to be evaluated at first, but for the calls made. */
  ghost predicate Remains(whole: Outcome, rest: Outcome, calls: nat) {
    whole.result == rest.result && whole.calls == rest.calls + calls
  }

  /** The slots and types hold the values. */
  ghost predicate Represents(stack: seq<nat>, typeStack: seq<ValueType>, vs: seq<Value>) {
    stack == Flatten(vs) && typeStack == Types(vs)
  }

  lemma Represented(stack: seq<nat>, typeStack: seq<ValueType>, vs: seq<Value>, v: Value)
    requires Represents(stack, typeStack, vs)
    ensures Represents(stack + SlotsOf(v), typeStack + [v.t], Push(vs, v))
  {
    PushFlattened(vs, v);
  }

  /** An arithmetic operator on the slots. */
  method Operate(stack: seq<nat>, typeStack: seq<ValueType>, t: ValueType, op: BinOp, ghost vs: seq<Value>)
      returns (stack': seq<nat>, typeStack': seq<ValueType>)
    requires Represents(stack, typeStack, vs) && t != V128
    requires |vs| >= 2 && typeStack[|vs| - 1] == t && typeStack[|vs| - 2] == t
    ensures Represents(stack', typeStack', Push(vs[..|vs| - 2], ArithValue(t, op, vs[|vs| - 2].lo, vs[|vs| - 1].lo)))
  {
    TopTwo(vs);
    ghost var n := |vs|;
    var b, a := stack[|stack| - 1], stack[|stack| - 2];
    var v := ArithValue(t, op, a, b);
    assert stack[..|stack| - 2] == Flatten(vs[..n - 2]) && typeStack[..|typeStack| - 2] == Types(vs[..n - 2]);
    Represented(stack[..|stack| - 2], typeStack[..|typeStack| - 2], vs[..n - 2], v);
    stack' := stack[..|stack| - 2] + [v.lo];
    typeStack' := typeStack[..|typeStack| - 2] + [t];
  }

  datatype SlotEffect =
    | SlotNext(stack: seq<nat>, typeStack: seq<ValueType>, calls: nat)
    | SlotStop(r: SlotResult, calls: nat)

  /** The same effect on slots as on values. */
  ghost predicate SameEffect(e: Effect, s: SlotEffect) {
    e.calls == s.calls &&
    match e
    case Next(vs, _) => s.SlotNext? && Represents(s.stack, s.typeStack, vs)
    case Stop(r, _) => s.SlotStop? && s.r == Flat(r)
  }

  /** One instruction of evaluateConstExpr. Only the integer types have arithmetic. */
  method StepSlots(i: Instr, stack: seq<nat>, typeStack: seq<ValueType>, env: Env, ghost vs: seq<Value>)
      returns (e: SlotEffect)
    requires Represents(stack, typeStack, vs) && (i.Arith? ==> i.t == I32 || i.t == I64)
    ensures SameEffect(Step(i, vs, env), e)
  {
    match i
    case Const(v) =>
      Represented(stack, typeStack, vs, v);
      return SlotNext(stack + SlotsOf(v), typeStack + [v.t], 0);
    case GlobalGet(index) =>
      var g := env.globals(index);
      if g.NotFound? {
        return SlotStop(Error(FromResolver(g.code)), 1);
      }
      Represented(stack, typeStack, vs, g.value);
      return SlotNext(stack + SlotsOf(g.value), typeStack + [g.value.t], 1);
    case RefFunc(index) =>
      var g := env.funcs(index);
      if g.NotFound? {
        return SlotStop(Error(FromResolver(g.code)), 1);
      }
      Represented(stack, typeStack, vs, Value(Funcref, g.value, 0));
      return SlotNext(stack + [g.value], typeStack + [Funcref], 1);
    case Arith(t, op) =>
      e := ArithSlots(stack, typeStack, t, op, env, vs);
    case End =>
      if |typeStack| != 1 {
        return SlotStop(Error(NotOneValue), 0);
      }
      OneValue(vs);
      return SlotStop(Slots(stack, typeStack[0]), 0);
  }

  lemma OneValue(vs: seq<Value>)
    requires |vs| == 1
    ensures Flatten(vs) == SlotsOf(vs[0]) && Types(vs) == [vs[0].t]
  {
    assert vs == Push([], vs[0]);
    PushFlattened([], vs[0]);
  }

  /** The checks of an arithmetic instruction. */
  method ArithSlots(stack: seq<nat>, typeStack: seq<ValueType>, t: ValueType, op: BinOp, env: Env, ghost vs: seq<Value>)
      returns (e: SlotEffect)
    requires Represents(stack, typeStack, vs) && (t == I32 || t == I64)
    ensures SameEffect(Step(Arith(t, op), vs, env), e)
  {
    if |typeStack| < 2 {
      return SlotStop(Error(Underflow), 0);
    }
    var v1, v2 := typeStack[|typeStack| - 1], typeStack[|typeStack| - 2];
    if v1 != t || v2 != t {
      return SlotStop(Error(Mismatch), 0);
    }
    var stack', typeStack' := Operate(stack, typeStack, t, op, vs);
    return SlotNext(stack', typeStack', 0);
  }

  /** evaluateConstExpr */
  method EvaluateConstExpr(data: seq<byte>, env: Env) returns (r: SlotResult, calls: nat)
    ensures r == Flat(Eval(data, 0, [], env).result) && calls == Eval(data, 0, [], env).calls
    ensures r.Slots? ==> |r.stack| == Width(r.t)
  {
    var stack: seq<nat>, typeStack: seq<ValueType>, pc := [], [], 0;
    calls := 0;
    ghost var vs: seq<Value> := [];
    ghost var whole := Eval(data, 0, [], env);
    while true
      invariant 0 <= pc <= |data|
      invariant Represents(stack, typeStack, vs) && |stack| == TotalWidth(typeStack)
      invariant Remains(whole, Eval(data, pc, vs, env), calls)
      decreases |data| - pc
    {
      if pc >= |data| {
        return Error(RanOff), calls;
      }
      var f := Fetch(data, pc);
      if f.Malformed? {
        return Error(f.error), calls;
      } else if f.Panic? {
        return Crash, calls;
      }
      var e := StepSlots(f.instr, stack, typeStack, env, vs);
      calls := calls + e.calls;
      if e.SlotStop? {
        return e.r, calls;
      }
      stack, typeStack, pc := e.stack, e.typeStack, f.next;
      vs := Step(f.instr, vs, env).vs;
      SlotsMatchTypes(vs);
    }
  }

  // The analysis

  /** The only instructions that the analysis lets pass. */
  predicate Harmless(i: Instr) {
    i.Arith? || (i.Const? && (i.v.t == I32 || i.v.t == I64))
  }

  /** The expression is not known to be built from integer constants and arithmetic alone. */
  predicate References(data: seq<byte>, pc: nat)
    decreases |data| - pc
  {
    pc >= |data| ||
    var f := Fetch(data, pc);
    !f.Fetched? || (!f.instr.End? && (!Harmless(f.instr) || References(data, f.next)))
  }

  datatype Skipped = Past(next: nat) | Over | Unknown

  function SkipConst(r: L.Result, pc: nat): Skipped {
    if r.Ok? then Past(pc + r.bytesRead) else Unknown
  }

  /** How the analysis passes over the instruction at `pc`. */
  function Skip(data: seq<byte>, pc: nat): Skipped
    requires pc < |data|
  {
    var op, at := data[pc], pc + 1;
    if op == 0x23 then Unknown
    else if op == 0x0b then Over
    else if op == 0x41 then SkipConst(S.Decoded(32, 5, data[at..]), at)
    else if op == 0x42 then SkipConst(S.Decoded(64, 10, data[at..]), at)
    else if op == 0x6a || op == 0x6b || op == 0x6c || op == 0x7c || op == 0x7d || op == 0x7e then Past(at)
    else Unknown
  }

  /** It passes over the harmless instructions only, and as the evaluator reads them. */
  lemma SkipsHarmless(data: seq<byte>, pc: nat)
    requires pc < |data|
    ensures var f := Fetch(data, pc);
            Skip(data, pc) == if !f.Fetched? then Unknown else if f.instr.End? then Over
                              else if Harmless(f.instr) then Past(f.next) else Unknown
  {
  }

  /** constExprReferencesGlobal */
  method ConstExprReferencesGlobal(data: seq<byte>) returns (b: bool)
    ensures b == References(data, 0)
  {
    var pc := 0;
    while pc < |data|
      invariant 0 <= pc <= |data| && References(data, 0) == References(data, pc)
      decreases |data| - pc
    {
      SkipsHarmless(data, pc);
      var s := Skip(data, pc);
      if s.Unknown? {
        return true;
      } else if s.Over? {
        return false;
      }
      pc := s.next;
    }
    return true;
  }

  /** An expression that is not reported calls no resolver and means the same in every environment. */
  lemma {:induction false} UnreportedIsIndependent(data: seq<byte>, pc: nat, vs: seq<Value>, env: Env, env': Env)
    requires !References(data, pc)
    ensures Eval(data, pc, vs, env) == Eval(data, pc, vs, env') && Eval(data, pc, vs, env).calls == 0
    decreases |data| - pc
  {
    var f := Fetch(data, pc);
    if !f.instr.End? {
      assert Step(f.instr, vs, env) == Step(f.instr, vs, env') && Step(f.instr, vs, env).calls == 0;
      if Step(f.instr, vs, env).Next? {
        UnreportedIsIndependent(data, f.next, Step(f.instr, vs, env).vs, env, env');
      }
    }
  }

  // Where evaluation reads out of bounds

  lemma ConstLocal(a: seq<byte>, b: seq<byte>, bits: nat, maxLen: nat)
    requires a <= b && S.Format(bits, maxLen)
    ensures S.Decoded(bits, maxLen, a).Ok? ==> S.Decoded(bits, maxLen, b) == S.Decoded(bits, maxLen, a)
    ensures var r := S.Decoded(bits, maxLen, b); r.Ok? && r.bytesRead <= |a| ==> S.Decoded(bits, maxLen, a) == r
  {
    L.TermLenPrefix(a, b);
    if L.TermLen(a) == L.TermLen(b) > 0 {
      S.SamePrefix(bits, maxLen, a, b);
    }
  }

  lemma IndexLocal(a: seq<byte>, b: seq<byte>)
    requires a <= b
    ensures L.UnsignedSpec(32, 5, a).Ok? ==> L.UnsignedSpec(32, 5, b) == L.UnsignedSpec(32, 5, a)
    ensures var r := L.UnsignedSpec(32, 5, b); r.Ok? && r.bytesRead <= |a| ==> L.UnsignedSpec(32, 5, a) == r
  {
    L.TermLenPrefix(a, b);
    if L.TermLen(a) == L.TermLen(b) {
      assert a[..L.TermLen(a)] == b[..L.TermLen(a)];
    }
  }

  /** `f` and `g` are what is read from data and from more data. */
  ghost predicate Local(f: Fetched, g: Fetched, n: nat) {
    (f.Fetched? ==> g == f) && (g.Fetched? && g.next <= n ==> f == g)
  }

  lemma FetchConstLocal(a: seq<byte>, b: seq<byte>, at: nat, bits: nat, maxLen: nat, t: ValueType)
    requires a <= b && at <= |a| && S.Format(bits, maxLen)
    ensures Local(FetchConst(S.Decoded(bits, maxLen, a[at..]), at, t),
                  FetchConst(S.Decoded(bits, maxLen, b[at..]), at, t), |a|)
  {
    assert a[at..] <= b[at..];
    ConstLocal(a[at..], b[at..], bits, maxLen);
  }

  lemma FetchIndexLocal(a: seq<byte>, b: seq<byte>, at: nat, global: bool)
    requires a <= b && at <= |a|
    ensures Local(FetchIndex(a, at, global), FetchIndex(b, at, global), |a|)
  {
    assert a[at..] <= b[at..];
    IndexLocal(a[at..], b[at..]);
  }

  lemma FetchNullLocal(a: seq<byte>, b: seq<byte>, at: nat)
    requires a <= b && at <= |a|
    ensures Local(FetchNull(a, at), FetchNull(b, at), |a|)
  {
    assert a[at..] <= b[at..];
    IndexLocal(a[at..], b[at..]);
  }

  lemma FetchVectorLocal(a: seq<byte>, b: seq<byte>, at: nat)
    requires a <= b && at <= |a|
    ensures Local(FetchVector(a, at), FetchVector(b, at), |a|)
  {
    if at + 17 <= |a| {
      assert a[at + 1..at + 9] == b[at + 1..at + 9] && a[at + 9..at + 17] == b[at + 9..at + 17];
    }
  }

  /** An instruction is read from its own bytes alone. */
  lemma FetchLocal(a: seq<byte>, b: seq<byte>, pc: nat)
    requires a <= b && pc < |a|
    ensures Local(Fetch(a, pc), Fetch(b, pc), |a|)
  {
    var at := pc + 1;
    assert a[pc] == b[pc];
    if a[pc] == 0x41 {
      FetchConstLocal(a, b, at, 32, 5, I32);
    } else if a[pc] == 0x42 {
      FetchConstLocal(a, b, at, 64, 10, I64);
    } else if a[pc] == 0x23 {
      FetchIndexLocal(a, b, at, true);
    } else if a[pc] == 0xd2 {
      FetchIndexLocal(a, b, at, false);
    } else if a[pc] == 0xd0 {
      FetchNullLocal(a, b, at);
    } else if a[pc] == 0xfd {
      FetchVectorLocal(a, b, at);
    } else {
      assert at + 4 <= |a| ==> a[at..at + 4] == b[at..at + 4];
      assert at + 8 <= |a| ==> a[at..at + 8] == b[at..at + 8];
    }
  }

  /** The data ends in a vector prefix and, without that byte, evaluation gets through to where the
      next instruction should start. */
  ghost predicate EndsInPrefix(data: seq<byte>, pc: nat, vs: seq<Value>, env: Env)
    requires data != []
  {
    data[|data| - 1] == 0xfd && Eval(data[..|data| - 1], pc, vs, env).result == Failed(RanOff)
  }

  ghost predicate Panics(data: seq<byte>, pc: nat, vs: seq<Value>, env: Env) {
    Eval(data, pc, vs, env).result == Panicked
  }

  lemma PanicsAtLast(data: seq<byte>, vs: seq<Value>, env: Env)
    requires data != []
    ensures Panics(data, |data| - 1, vs, env) <==> EndsInPrefix(data, |data| - 1, vs, env)
  {
    var f := Fetch(data, |data| - 1);
    EvalByFetch(data, |data| - 1, vs, env, f);
    OnlyPrefixPanics(data, |data| - 1, f);
    if f.Fetched? && Step(f.instr, vs, env).Next? {
      assert Eval(data, |data|, Step(f.instr, vs, env).vs, env).result == Failed(RanOff);
    }
  }

  /** An instruction before the last byte takes both evaluations on, or stops both short. */
  lemma BothGoOn(data: seq<byte>, pc: nat, vs: seq<Value>, env: Env, f: Fetched)
    requires pc < |data| - 1 && f == Fetch(data, pc) && f.Fetched? && f.next < |data| && Step(f.instr, vs, env).Next?
    ensures var vs' := Step(f.instr, vs, env).vs;
            && (Panics(data, pc, vs, env) <==> Panics(data, f.next, vs', env))
            && (EndsInPrefix(data, pc, vs, env) <==> EndsInPrefix(data, f.next, vs', env))
  {
    var p := data[..|data| - 1];
    FetchLocal(p, data, pc);
    EvalByFetch(data, pc, vs, env, f);
    EvalByFetch(p, pc, vs, env, f);
  }

  lemma BothStop(data: seq<byte>, pc: nat, vs: seq<Value>, env: Env, f: Fetched)
    requires pc < |data| - 1 && f == Fetch(data, pc)
    requires !(f.Fetched? && f.next < |data| && Step(f.instr, vs, env).Next?)
    ensures !Panics(data, pc, vs, env) && !EndsInPrefix(data, pc, vs, env)
  {
    var p := data[..|data| - 1];
    var g := Fetch(p, pc);
    FetchLocal(p, data, pc);
    EvalByFetch(data, pc, vs, env, f);
    EvalByFetch(p, pc, vs, env, g);
    OnlyPrefixPanics(data, pc, f);
    OnlyPrefixPanics(p, pc, g);
    if f.Fetched? && Step(f.instr, vs, env).Next? {
      assert Eval(data, |data|, Step(f.instr, vs, env).vs, env).result == Failed(RanOff);
    }
  }

  /** Evaluation reads out of bounds if and only if the data ends in a vector prefix that it reaches. */
  lemma {:induction false} PanicsExactly(data: seq<byte>, pc: nat, vs: seq<Value>, env: Env)
    requires pc < |data|
    ensures Panics(data, pc, vs, env) <==> EndsInPrefix(data, pc, vs, env)
    decreases |data| - pc
  {
    var f := Fetch(data, pc);
    if pc == |data| - 1 {
      PanicsAtLast(data, vs, env);
    } else if f.Fetched? && f.next < |data| && Step(f.instr, vs, env).Next? {
      BothGoOn(data, pc, vs, env, f);
      PanicsExactly(data, f.next, Step(f.instr, vs, env).vs, env);
    } else {
      BothStop(data, pc, vs, env, f);
    }
  }

  /** Walking over the instructions from `pc` comes to one that starts at `q`. */
  predicate WalksTo(data: seq<byte>, pc: nat, q: nat)
    decreases |data| - pc
  {
    pc == q || (pc < |data| && var f := Fetch(data, pc); f.Fetched? && !f.instr.End? && WalksTo(data, f.next, q))
  }

  /** A walk over the opcodes, without any values, tells when this cannot happen. */
  lemma {:induction false} PanicsAfterWalk(data: seq<byte>, pc: nat, vs: seq<Value>, env: Env)
    requires pc < |data| && Panics(data, pc, vs, env)
    ensures data[|data| - 1] == 0xfd && WalksTo(data, pc, |data| - 1)
    decreases |data| - pc
  {
    var f := Fetch(data, pc);
    EvalByFetch(data, pc, vs, env, f);
    OnlyPrefixPanics(data, pc, f);
    if f.Fetched? {
      PanicsAfterWalk(data, f.next, Step(f.instr, vs, env).vs, env);
    }
  }

  /** One instruction of the evaluation, once it has been read. */
  lemma EvalByFetch(data: seq<byte>, pc: nat, vs: seq<Value>, env: Env, f: Fetched)
    requires pc < |data| && f == Fetch(data, pc)
    ensures f.Malformed? ==> Eval(data, pc, vs, env).result == Failed(f.error)
    ensures f.Panic? ==> Eval(data, pc, vs, env).result == Panicked
    ensures f.Fetched? && Step(f.instr, vs, env).Stop? ==>
              Eval(data, pc, vs, env).result != Panicked && Eval(data, pc, vs, env).result != Failed(RanOff)
    ensures f.Fetched? && Step(f.instr, vs, env).Next? ==>
              Eval(data, pc, vs, env).result == Eval(data, f.next, Step(f.instr, vs, env).vs, env).result
  {
  }

  lemma OnlyPrefixPanics(data: seq<byte>, pc: nat, f: Fetched)
    requires pc < |data| && f == Fetch(data, pc)
    ensures f == Panic <==> data[pc] == 0xfd && pc + 1 == |data|
    ensures f != Malformed(RanOff)
    ensures f.Fetched? ==> f.next <= |data|
  {
  }

  /** Data that ends in the end opcode, as all that the binary decoder lets through does, is always
      evaluated within its bounds. */
  lemma EndedIsSafe(data: seq<byte>, env: Env)
    requires data != [] && data[|data| - 1] == 0x0b
    ensures !Panics(data, 0, [], env)
  {
    PanicsExactly(data, 0, [], env);
  }

  lemma PrefixAloneGoesWrong(env: Env)
    ensures Eval([0xfd], 0, [], env).result == Panicked
  {
    assert Fetch([0xfd], 0) == Panic;
  }

  // Expressions made from a constant

  /** NewConstantExpressionFromOpcode */
  function FromOpcode(opcode: byte, opData: seq<byte>): seq<byte> {
    (if opcode == 0x0c then [0xfd] else []) + [opcode] + opData + [0x0b]
  }

  lemma FromOpcodeIs(opcode: byte, opData: seq<byte>)
    requires opcode != 0x0c
    ensures var data := FromOpcode(opcode, opData);
            |data| == |opData| + 2 && data[0] == opcode && data[1..] == opData + [0x0b] && data[|data| - 1] == 0x0b
  {
    assert FromOpcode(opcode, opData) == [opcode] + (opData + [0x0b]);
  }

  lemma TwoInstructions(data: seq<byte>, v: Value, env: Env)
    requires |data| > 0 && Fetch(data, 0) == Fetched(Const(v), |data| - 1) && data[|data| - 1] == 0x0b
    ensures Eval(data, 0, [], env) == Outcome(Done(v), 0)
  {
    EndsWith(data, v, env);
    assert Push([], v) == [v];
    assert Step(Const(v), [], env) == Next([v], 0);
  }

  lemma EndsWith(data: seq<byte>, v: Value, env: Env)
    requires |data| > 0 && data[|data| - 1] == 0x0b
    ensures Eval(data, |data| - 1, [v], env) == Outcome(Done(v), 0)
  {
    assert Fetch(data, |data| - 1) == Fetched(End, |data|);
    assert Step(End, [v], env) == Stop(Done(v), 0);
  }

  /** NewConstantExpressionFromI32: evaluating the expression gives the value back. */
  lemma FromI32RoundTrip(val: int, env: Env)
    requires S.InRange(32, val)
    ensures Eval(FromOpcode(0x41, S.EncodeSigned(val)), 0, [], env) ==
            Outcome(Done(Value(I32, val % TWO_TO_THE_32, 0)), 0)
  {
    var bs := S.EncodeSigned(val);
    var data := FromOpcode(0x41, bs);
    S.DecodedRoundTrip(32, 5, val, [0x0b]);
    FromOpcodeIs(0x41, bs);
    TwoInstructions(data, Value(I32, val % TWO_TO_THE_32, 0), env);
  }

  /** NewConstantExpressionFromI64 */
  lemma FromI64RoundTrip(val: int, env: Env)
    requires S.InRange(64, val)
    ensures Eval(FromOpcode(0x42, S.EncodeSigned(val)), 0, [], env) ==
            Outcome(Done(Value(I64, val % TWO_TO_THE_64, 0)), 0)
  {
    var bs := S.EncodeSigned(val);
    var data := FromOpcode(0x42, bs);
    S.DecodedRoundTrip(64, 10, val, [0x0b]);
    FromOpcodeIs(0x42, bs);
    TwoInstructions(data, Value(I64, val % TWO_TO_THE_64, 0), env);
  }

  lemma FromVectorIs(opData: seq<byte>)
    requires |opData| == 16
    ensures var data := FromOpcode(0x0c, opData);
            && |data| == 19 && data[0] == 0xfd && data[1] == 0x0c && data[18] == 0x0b
            && data[2..10] == opData[..8] && data[10..18] == opData[8..]
  {
    var data := FromOpcode(0x0c, opData);
    assert forall i :: 0 <= i < 16 ==> data[2 + i] == opData[i];
  }

  /** A vector takes two slots. */
  lemma FromVectorRoundTrip(opData: seq<byte>, env: Env)
    requires |opData| == 16
    ensures Eval(FromOpcode(0x0c, opData), 0, [], env) ==
            Outcome(Done(Value(V128, FromLE(opData[..8]), FromLE(opData[8..]))), 0)
  {
    var data := FromOpcode(0x0c, opData);
    FromVectorIs(opData);
    TwoInstructions(data, Value(V128, FromLE(opData[..8]), FromLE(opData[8..])), env);
  }
}
