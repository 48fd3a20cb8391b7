/** How a configuration of the machine agrees with a state of the validator, and where control lands. */
module ValidationAgreement {
  import opened Validation
  import opened WasmMachine
  import opened ValidationLemmas
  import opened ValidationTrace

  // The types in a function are real types; Unknown is the validator's own.

  predicate KnownInstr(i: Instr) {
    match i
    case Op(pops, pushes) => Known(pops) && Known(pushes)
    case Block(ft) => Known(ft.params) && Known(ft.results)
    case Loop(ft) => Known(ft.params) && Known(ft.results)
    case If(ft) => Known(ft.params) && Known(ft.results)
    case _ => true
  }

  function GlobalTypes(fn: Function): Types {
    seq(|fn.globals|, i requires 0 <= i < |fn.globals| => fn.globals[i].t)
  }

  predicate KnownAt(fn: Function, pc: nat)
    requires pc < |fn.code|
  {
    KnownInstr(fn.code[pc])
  }

  ghost predicate KnownFunction(fn: Function) {
    && Known(fn.ft.params) && Known(fn.ft.results) && Known(fn.locals) && Known(GlobalTypes(fn))
    && forall pc :: 0 <= pc < |fn.code| ==> KnownAt(fn, pc)
  }

  // How a configuration agrees with a validation state

  function LabelAt(v: VState, k: nat): Label
    requires k < |v.frames|
  {
    Label(v.frames[k].startAt, v.frames[k].op == OpLoop, v.frames[k].ft, LimitOf(v, k))
  }

  function LabelsOf(v: VState): seq<Label> {
    seq(|v.frames|, k requires 0 <= k < |v.frames| => LabelAt(v, k))
  }

  /** The operands have the types on the validator's stack, none of them Unknown, and the labels
      are the validator's frames. */
  ghost predicate Agrees(c: Config, v: VState) {
    && Known(v.stack) && TypesOf(c.vals) == v.stack
    && c.labels == LabelsOf(v)
  }

  ghost predicate StoreTyped(fn: Function, c: Config) {
    TypesOf(c.locals) == fn.locals && TypesOf(c.globals) == GlobalTypes(fn)
  }

  ghost predicate Typed(fn: Function, tr: seq<VState>, c: Config) {
    && c.pc < |fn.code| && c.pc < |tr|
    && Agrees(c, tr[c.pc]) && StoreTyped(fn, c)
  }

  /** What soundness says of one step. */
  ghost predicate Sound(fn: Function, tr: seq<VState>, o: Outcome) {
    match o
    case Next(c) => Typed(fn, tr, c)
    case Trapped => true
    case Returned(vals) => TypesOf(vals) == fn.ft.results
    case Stuck => false
  }

  lemma TypesOfSlice(vals: seq<Value>, i: nat, j: nat)
    requires i <= j <= |vals|
    ensures TypesOf(vals[i..j]) == TypesOf(vals)[i..j]
  {
  }

  lemma TypesOfConcat(a: seq<Value>, b: seq<Value>)
    ensures TypesOf(a + b) == TypesOf(a) + TypesOf(b)
  {
  }

  lemma BaseIsLimit(c: Config, v: VState)
    requires Agrees(c, v) && WellFormed(v) && v.frames != []
    ensures Base(c) == Limit(v) && |c.vals| == |v.stack| && |c.labels| == |v.frames|
  {
  }

  /** What the validator pops from a known stack, the machine finds on its stack. */
  lemma HasWhatIsPopped(c: Config, v: VState, want: Types)
    requires Agrees(c, v) && WellFormed(v) && v.frames != [] && Known(want) && PopTypes(v, want).Some?
    ensures Has(c, want)
    ensures Agrees(c.(vals := Popped(c, |want|)), PopTypes(v, want).value)
    ensures PopTypes(v, want).value == v.(stack := v.stack[..|v.stack| - |want|])
    ensures Limit(v) + |want| <= |v.stack| && v.stack[|v.stack| - |want|..] == want
    ensures WellFormed(PopTypes(v, want).value)
  {
    BaseIsLimit(c, v);
    PopTypesExact(v, want);
    TypesOfSlice(c.vals, |c.vals| - |want|, |c.vals|);
    TypesOfSlice(c.vals, 0, |c.vals| - |want|);
    assert c.vals[|c.vals| - |want|..|c.vals|] == c.vals[|c.vals| - |want|..];
    assert LabelsOf(PopTypes(v, want).value) == LabelsOf(v);
  }

  lemma HasTop(c: Config, v: VState, t: ValueType)
    requires Agrees(c, v) && WellFormed(v) && v.frames != [] && t != Unknown && PopType(v, t).Some?
    ensures Has(c, [t]) && Agrees(c.(vals := Popped(c, 1)), PopType(v, t).value)
    ensures PopType(v, t).value == v.(stack := v.stack[..|v.stack| - 1]) && WellFormed(PopType(v, t).value)
    ensures Limit(v) < |v.stack| && v.stack[|v.stack| - 1] == t == c.vals[|c.vals| - 1].t
  {
    var want := [t];
    assert want[..0] == [];
    assert PopTypes(v, want) == PopType(v, t);
    HasWhatIsPopped(c, v, want);
    assert TypesOf(c.vals)[|c.vals| - 1] == t;
  }

  lemma AgreesPushed(c: Config, v: VState, vals: seq<Value>)
    requires Agrees(c, v) && Known(TypesOf(vals))
    ensures Agrees(c.(vals := c.vals + vals), PushAll(v, TypesOf(vals)))
  {
    PushAllIs(v, TypesOf(vals));
    TypesOfConcat(c.vals, vals);
    assert LabelsOf(PushAll(v, TypesOf(vals))) == LabelsOf(v);
  }

  // Where control lands

  lemma LabelsKept(u: VState, v: VState, k: nat)
    requires WellFormed(u) && WellFormed(v) && Keeps(u, v, k)
    ensures LabelsOf(v)[..k + 1] == LabelsOf(u)[..k + 1]
  {
    forall j | 0 <= j <= k
      ensures LabelAt(u, j) == LabelAt(v, j)
    {
      KeepsOuter(u, v, k, j);
    }
  }

  /** What End leaves: the stack below the block, and the block's results. */
  lemma AfterEnd(v: VState)
    requires WellFormed(v) && v.frames != [] && CheckEnd(v).Some?
    ensures var k := |v.frames| - 1;
            var v' := CheckEnd(v).value;
            && v'.stack == v.stack[..LimitOf(v, k)] + v.frames[k].ft.results
            && v'.frames == v.frames[..k] && v'.limits == (if k == 0 then [] else v.limits[..k - 1])
  {
    var f := v.frames[|v.frames| - 1];
    PopTypesPops(v, f.ft.results);
    PushAllIs(Cut(PopTypes(v, f.ft.results).value), f.ft.results);
  }

  lemma LandsAfterEnd(fn: Function, tr: seq<VState>, u: VState, e: nat, k: nat, c: Config)
    requires Trace(fn, tr) && e < |fn.code| && fn.code[e].End?
    requires WellFormed(u) && Keeps(u, tr[e], k) && |tr[e].frames| == k + 1 && k > 0
    requires c.pc == e + 1 && c.labels == LabelsOf(u)[..k] && StoreTyped(fn, c)
    requires Known(u.stack[..LimitOf(u, k)]) && Known(u.frames[k].ft.results)
    requires TypesOf(c.vals) == u.stack[..LimitOf(u, k)] + u.frames[k].ft.results
    ensures Typed(fn, tr, c)
  {
    var v, v' := tr[e], tr[e + 1];
    TraceWellFormed(fn, tr, e);
    assert Checks(fn, tr, e);
    AfterEnd(v);
    LabelsKept(u, v, k);
    assert LabelsOf(v') == LabelsOf(v)[..k];
    assert LabelsOf(u)[..k] == LabelsOf(u)[..k + 1][..k];
    assert LabelsOf(v)[..k] == LabelsOf(v)[..k + 1][..k];
    assert LabelAt(u, k) == LabelsOf(u)[..k + 1][k] == LabelsOf(v)[..k + 1][k] == LabelAt(v, k);
  }

  lemma LandsInLoop(fn: Function, tr: seq<VState>, pc: nat, k: nat, c: Config)
    requires Trace(fn, tr) && pc < |fn.code| && 0 < k < |tr[pc].frames| && tr[pc].frames[k].op == OpLoop
    requires c.pc == tr[pc].frames[k].startAt + 1 && c.labels == LabelsOf(tr[pc])[..k + 1] && StoreTyped(fn, c)
    requires WellFormed(tr[pc])
    requires Known(tr[pc].stack[..LimitOf(tr[pc], k)]) && Known(tr[pc].frames[k].ft.params)
    requires TypesOf(c.vals) == tr[pc].stack[..LimitOf(tr[pc], k)] + tr[pc].frames[k].ft.params
    ensures Typed(fn, tr, c)
  {
    var s := tr[pc].frames[k].startAt;
    Opened(fn, tr, pc, k);
    TraceWellFormed(fn, tr, s + 1);
    LabelsKept(tr[s + 1], tr[pc], k);
    Entered(fn, tr, s);
    assert LabelsOf(tr[s + 1])[..k + 1] == LabelsOf(tr[s + 1]);
    assert LabelAt(tr[s + 1], k) == LabelsOf(tr[s + 1])[..k + 1][k] == LabelsOf(tr[pc])[..k + 1][k] ==
           LabelAt(tr[pc], k);
  }

  /** Just inside a block the stack is what was below it and the block's parameters. */
  lemma Entered(fn: Function, tr: seq<VState>, s: nat)
    requires Trace(fn, tr) && s < |fn.code| && Depth(fn.code[s]) == 1
    ensures s + 1 < |fn.code| && WellFormed(tr[s + 1]) && tr[s + 1].frames != []
    ensures var k := |tr[s + 1].frames| - 1;
            tr[s + 1].stack == tr[s + 1].stack[..LimitOf(tr[s + 1], k)] + fn.code[s].ft.params
  {
    var v := tr[s];
    Advance(fn, tr, s, 0);
    assert Checks(fn, tr, s);
    var v1 := if fn.code[s].If? then PopType(v, I32).value else v;
    var ps := fn.code[s].ft.params;
    PopTypesPops(v1, ps);
    PushAllIs(PopTypes(v1, ps).value, ps);
  }

  /** The types of every open block are real types, and the outermost block is the function. */
  lemma {:induction false} FramesKnown(fn: Function, tr: seq<VState>, pc: nat, k: nat)
    requires KnownFunction(fn) && Trace(fn, tr) && pc <= |fn.code| && k < |tr[pc].frames|
    ensures Known(tr[pc].frames[k].ft.params) && Known(tr[pc].frames[k].ft.results)
    ensures k == 0 ==> tr[pc].frames[0] == Frame(0, OpBlock, fn.ft)
  {
    if k > 0 {
      Opened(fn, tr, pc, k);
      assert KnownAt(fn, tr[pc].frames[k].startAt);
    } else if pc > 0 {
      Advance(fn, tr, pc - 1, 0);
      FramesKnown(fn, tr, pc - 1, 0);
    }
  }

  /** After a plain instruction validation goes on inside the same blocks. */
  lemma GoesOn(fn: Function, tr: seq<VState>, pc: nat)
    requires Trace(fn, tr) && pc < |fn.code| && Plain(fn.code[pc])
    ensures WellFormed(tr[pc]) && tr[pc].frames != [] && pc + 1 < |fn.code|
    ensures tr[pc + 1].frames == tr[pc].frames && tr[pc + 1].limits == tr[pc].limits
    ensures Check(fn, pc, fn.code[pc], tr[pc]) == Some(tr[pc + 1])
  {
    Advance(fn, tr, pc, 0);
    assert Checks(fn, tr, pc);
    PlainAbove(fn, pc, fn.code[pc], tr[pc]);
  }
}
