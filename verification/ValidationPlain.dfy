/** Soundness of the instructions that only work on the operands, the locals and the globals. */
module ValidationPlain {
  import opened Validation
  import opened WasmMachine
  import opened ValidationLemmas
  import opened ValidationTrace
  import opened ValidationAgreement

  lemma OpChecked(fn: Function, tr: seq<VState>, pc: nat)
    requires Trace(fn, tr) && pc < |fn.code| && fn.code[pc].Op?
    ensures WellFormed(tr[pc]) && tr[pc].frames != [] && pc + 1 < |fn.code|
    ensures PopTypes(tr[pc], fn.code[pc].pops).Some?
    ensures tr[pc + 1] == PushAll(PopTypes(tr[pc], fn.code[pc].pops).value, fn.code[pc].pushes)
  {
    GoesOn(fn, tr, pc);
  }

  lemma OpSound(fn: Function, tr: seq<VState>, c: Config, choice: Choice)
    requires KnownFunction(fn) && Trace(fn, tr) && Typed(fn, tr, c) && fn.code[c.pc].Op?
    ensures Sound(fn, tr, ExecOp(c, fn.code[c.pc].pops, fn.code[c.pc].pushes, choice))
  {
    var v, i := tr[c.pc], fn.code[c.pc];
    OpChecked(fn, tr, c.pc);
    assert KnownAt(fn, c.pc);
    OpAgrees(c, v, i.pops, i.pushes, choice);
  }

  lemma OpAgrees(c: Config, v: VState, pops: Types, pushes: Types, choice: Choice)
    requires Agrees(c, v) && WellFormed(v) && v.frames != [] && Known(pops) && Known(pushes) && PopTypes(v, pops).Some?
    ensures var o := ExecOp(c, pops, pushes, choice);
            o == Trapped ||
            (o.Next? && o.c == c.(pc := c.pc + 1, vals := o.c.vals) &&
              Agrees(o.c, PushAll(PopTypes(v, pops).value, pushes)))
  {
    HasWhatIsPopped(c, v, pops);
    ExecOpIs(c, pops, pushes, choice);
    if choice.Values? && TypesOf(choice.vals) == pushes {
      AgreesPushed(c.(vals := Popped(c, |pops|)), PopTypes(v, pops).value, choice.vals);
    }
  }

  lemma ExecOpIs(c: Config, pops: Types, pushes: Types, choice: Choice)
    requires Has(c, pops)
    ensures ExecOp(c, pops, pushes, choice) ==
            if choice.Trap? || TypesOf(choice.vals) != pushes then Trapped
            else Next(c.(pc := c.pc + 1, vals := Popped(c, |pops|) + choice.vals))
  {
  }

  lemma LocalChecked(fn: Function, tr: seq<VState>, pc: nat)
    requires Trace(fn, tr) && pc < |fn.code|
    requires fn.code[pc].LocalGet? || fn.code[pc].LocalSet? || fn.code[pc].LocalTee?
    ensures WellFormed(tr[pc]) && tr[pc].frames != [] && pc + 1 < |fn.code| && fn.code[pc].x < |fn.locals|
    ensures var v, t := tr[pc], fn.locals[fn.code[pc].x];
            if fn.code[pc].LocalGet? then tr[pc + 1] == Push(v, t)
            else PopType(v, t).Some? && tr[pc + 1] ==
                 if fn.code[pc].LocalSet? then PopType(v, t).value else Push(PopType(v, t).value, t)
  {
    GoesOn(fn, tr, pc);
  }

  lemma LocalGetAgrees(fn: Function, c: Config, v: VState, x: nat)
    requires Agrees(c, v) && StoreTyped(fn, c) && x < |fn.locals| && fn.locals[x] != Unknown
    ensures x < |c.locals| && Agrees(c.(vals := c.vals + [c.locals[x]]), Push(v, fn.locals[x]))
  {
    assert TypesOf(c.locals)[x] == fn.locals[x];
    PushOne(c, v, c.locals[x]);
  }

  lemma LocalSetAgrees(fn: Function, c: Config, v: VState, x: nat)
    requires Agrees(c, v) && WellFormed(v) && v.frames != [] && StoreTyped(fn, c)
    requires x < |fn.locals| && fn.locals[x] != Unknown && PopType(v, fn.locals[x]).Some?
    ensures x < |c.locals| && c.locals[x].t == fn.locals[x] && Has(c, [fn.locals[x]]) && c.vals != []
    ensures StoreTyped(fn, c.(locals := c.locals[x := c.vals[|c.vals| - 1]]))
    ensures Agrees(c.(vals := Popped(c, 1)), PopType(v, fn.locals[x]).value)
    ensures Agrees(c, Push(PopType(v, fn.locals[x]).value, fn.locals[x]))
  {
    var t := fn.locals[x];
    assert TypesOf(c.locals)[x] == t;
    HasTop(c, v, t);
    var top := c.vals[|c.vals| - 1];
    assert TypesOf(c.locals[x := top]) == TypesOf(c.locals);
    PushOne(c.(vals := Popped(c, 1)), PopType(v, t).value, top);
    assert Popped(c, 1) + [top] == c.vals;
  }

  lemma LocalSound(fn: Function, tr: seq<VState>, c: Config)
    requires KnownFunction(fn) && Trace(fn, tr) && Typed(fn, tr, c)
    requires fn.code[c.pc].LocalGet? || fn.code[c.pc].LocalSet? || fn.code[c.pc].LocalTee?
    ensures Sound(fn, tr, ExecVariable(fn, c, fn.code[c.pc]))
  {
    LocalChecked(fn, tr, c.pc);
    if fn.code[c.pc].LocalGet? {
      LocalGetAgrees(fn, c, tr[c.pc], fn.code[c.pc].x);
    } else {
      LocalSetAgrees(fn, c, tr[c.pc], fn.code[c.pc].x);
    }
  }

  lemma GlobalSound(fn: Function, tr: seq<VState>, c: Config)
    requires KnownFunction(fn) && Trace(fn, tr) && Typed(fn, tr, c)
    requires fn.code[c.pc].GlobalGet? || fn.code[c.pc].GlobalSet?
    ensures Sound(fn, tr, ExecVariable(fn, c, fn.code[c.pc]))
  {
    var v, x := tr[c.pc], fn.code[c.pc].x;
    GoesOn(fn, tr, c.pc);
    assert TypesOf(c.globals)[x] == GlobalTypes(fn)[x];
    if fn.code[c.pc].GlobalGet? {
      PushOne(c, v, c.globals[x]);
    } else {
      HasTop(c, v, fn.globals[x].t);
      assert TypesOf(c.globals[x := c.vals[|c.vals| - 1]]) == TypesOf(c.globals);
    }
  }

  lemma PushOne(c: Config, v: VState, x: Value)
    requires Agrees(c, v) && x.t != Unknown
    ensures Agrees(c.(vals := c.vals + [x]), Push(v, x.t))
  {
    assert TypesOf([x]) == [x.t];
    AgreesPushed(c, v, [x]);
    assert PushAll(Push(v, x.t), [x.t][1..]) == Push(v, x.t);
  }

  lemma DropSound(fn: Function, tr: seq<VState>, c: Config, choice: Choice)
    requires KnownFunction(fn) && Trace(fn, tr) && Typed(fn, tr, c) && fn.code[c.pc].Drop?
    ensures Sound(fn, tr, Exec(fn, c, choice))
  {
    var v := tr[c.pc];
    GoesOn(fn, tr, c.pc);
    BaseIsLimit(c, v);
    HasTop(c, v, v.stack[|v.stack| - 1]);
  }

  function Shorter(v: VState, n: nat): VState
    requires n <= |v.stack|
  {
    v.(stack := v.stack[..|v.stack| - n])
  }

  lemma SelectShape(v: VState)
    requires Limit(v) <= |v.stack| && Known(v.stack) && CheckSelect(v).Some?
    ensures var n := |v.stack|;
            && Limit(v) + 3 <= n && v.stack[n - 1] == I32 && v.stack[n - 2] == v.stack[n - 3]
            && CheckSelect(v).value == Push(Shorter(v, 3), v.stack[n - 2])
  {
    var v1 := PopType(v, I32).value;
    PopsOne(v);
    PopsOne(v1);
    PopsOne(Pop(v1).value.0);
  }

  lemma PopsOne(v: VState)
    requires Limit(v) <= |v.stack| && Known(v.stack) && Pop(v).Some?
    ensures Limit(v) < |v.stack| && Pop(v).value == (v.(stack := v.stack[..|v.stack| - 1]), v.stack[|v.stack| - 1])
    ensures Known(Pop(v).value.0.stack) && Limit(Pop(v).value.0) == Limit(v)
  {
  }

  lemma SelectChecked(fn: Function, tr: seq<VState>, pc: nat)
    requires Trace(fn, tr) && pc < |fn.code| && fn.code[pc].Select?
    ensures WellFormed(tr[pc]) && tr[pc].frames != [] && pc + 1 < |fn.code|
    ensures CheckSelect(tr[pc]) == Some(tr[pc + 1])
  {
    GoesOn(fn, tr, pc);
  }

  /** The operands of a select are there, and one of the two values below the condition stays. */
  lemma SelectAgrees(c: Config, v: VState)
    requires Agrees(c, v) && WellFormed(v) && v.frames != [] && CheckSelect(v).Some?
    ensures var o := ExecSelect(c);
            o.Next? && o.c == c.(pc := c.pc + 1, vals := o.c.vals) && Agrees(o.c, CheckSelect(v).value)
  {
    var n := |c.vals|;
    BaseIsLimit(c, v);
    SelectShape(v);
    assert c.vals[n - 1].t == v.stack[n - 1] && c.vals[n - 2].t == v.stack[n - 2] && c.vals[n - 3].t == v.stack[n - 3];
    ThreeFewer(c, v);
    PushOne(c.(vals := Popped(c, 3)), Shorter(v, 3),
            if c.vals[n - 1].bits != 0 then c.vals[n - 3] else c.vals[n - 2]);
  }

  lemma ThreeFewer(c: Config, v: VState)
    requires Agrees(c, v) && |c.vals| >= 3
    ensures |v.stack| >= 3 && Agrees(c.(vals := Popped(c, 3)), Shorter(v, 3))
  {
    TypesOfSlice(c.vals, 0, |c.vals| - 3);
  }

  lemma SelectSound(fn: Function, tr: seq<VState>, c: Config)
    requires KnownFunction(fn) && Trace(fn, tr) && Typed(fn, tr, c) && fn.code[c.pc].Select?
    ensures Sound(fn, tr, ExecSelect(c))
  {
    SelectChecked(fn, tr, c.pc);
    SelectAgrees(c, tr[c.pc]);
  }
}
