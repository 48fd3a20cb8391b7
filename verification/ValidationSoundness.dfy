/**
 Type soundness: a function that the validator accepts never gets stuck. At every step its
 operand stack has exactly the types that the validator computed for that instruction, so it
 never underflows, never meets a value of another type, returns exactly the declared results
 and never grows beyond the maximum that the validator recorded.
 */
module ValidationSoundness {
  import opened Validation
  import opened WasmMachine
  import opened ValidationTrace
  import opened ValidationHeight
  import opened ValidationAgreement
  import opened ValidationPlain
  import opened ValidationBlocks
  import opened ValidationBranches

  /** Progress and preservation: one step of a typed configuration of an accepted function does
      not get stuck, and leads to a typed configuration, a trap, or the declared results. */
  lemma StepSound(fn: Function, tr: seq<VState>, c: Config, choice: Choice)
    requires KnownFunction(fn) && Trace(fn, tr) && Typed(fn, tr, c)
    ensures Sound(fn, tr, Exec(fn, c, choice))
  {
    Advance(fn, tr, c.pc, 0);
    assert c.labels != [];
    match fn.code[c.pc]
    case Nop => NopSound(fn, tr, c, choice);
    case Unreachable =>
    case Op(_, _) => OpSound(fn, tr, c, choice);
    case Drop => DropSound(fn, tr, c, choice);
    case Select => SelectSound(fn, tr, c);
    case Block(_) => BlockSound(fn, tr, c, choice);
    case Loop(_) => BlockSound(fn, tr, c, choice);
    case If(_) => IfSound(fn, tr, c, choice);
    case Else => ElseSound(fn, tr, c);
    case End => EndSound(fn, tr, c);
    case Br(_) => BrSound(fn, tr, c);
    case BrIf(_) => BrIfSound(fn, tr, c, choice);
    case BrTable(_, _) => BrTableSound(fn, tr, c);
    case Return => ReturnSound(fn, tr, c, choice);
    case LocalGet(_) => LocalSound(fn, tr, c);
    case LocalSet(_) => LocalSound(fn, tr, c);
    case LocalTee(_) => LocalSound(fn, tr, c);
    case GlobalGet(_) => GlobalSound(fn, tr, c);
    case GlobalSet(_) => GlobalSound(fn, tr, c);
  }

  // Whole executions

  predicate Executes(fn: Function, c: Config, choice: Choice, c': Config) {
    Exec(fn, c, choice) == Next(c')
  }

  ghost predicate ExecutesTo(fn: Function, cs: seq<Config>, i: nat)
    requires 0 < i < |cs|
  {
    var c, c' := cs[i - 1], cs[i];
    exists choice :: Executes(fn, c, choice, c')
  }

  /** An execution of a call: it starts as a call starts and takes machine steps. */
  ghost predicate Execution(fn: Function, cs: seq<Config>) {
    && cs != [] && Starts(fn, cs[0])
    && forall i :: 0 < i < |cs| ==> ExecutesTo(fn, cs, i)
  }

  lemma {:induction false} ExecutionTyped(fn: Function, tr: seq<VState>, cs: seq<Config>, i: nat)
    requires KnownFunction(fn) && Trace(fn, tr) && Execution(fn, cs) && i < |cs|
    ensures Typed(fn, tr, cs[i])
  {
    if i == 0 {
      assert LabelsOf(tr[0]) == [Label(0, false, fn.ft, 0)];
      assert |fn.code| > 0;
    } else {
      ExecutionTyped(fn, tr, cs, i - 1);
      assert ExecutesTo(fn, cs, i);
      var choice :| Executes(fn, cs[i - 1], choice, cs[i]);
      StepSound(fn, tr, cs[i - 1], choice);
    }
  }

  /** Type soundness: at any point of any execution of an accepted function, the next step is
      not stuck, a return delivers exactly the declared result types, and the operand stack is
      within the limit that validation enforced. */
  lemma AcceptedFunctionsAreSound(fn: Function, cs: seq<Config>, i: nat, choice: Choice)
    requires KnownFunction(fn) && Accepts(fn) && Execution(fn, cs) && i < |cs|
    ensures !Exec(fn, cs[i], choice).Stuck?
    ensures Exec(fn, cs[i], choice).Returned? ==> TypesOf(Exec(fn, cs[i], choice).vals) == fn.ft.results
    ensures |cs[i].vals| <= StateAt(fn, |fn.code|).value.max <= fn.maxStackValues
  {
    var tr := TraceUpTo(fn, |fn.code|);
    ExecutionTyped(fn, tr, cs, i);
    StepSound(fn, tr, cs[i], choice);
    var v := tr[cs[i].pc];
    TraceHeight(fn, tr, cs[i].pc);
    MaxGrows(fn, tr, cs[i].pc);
    assert v.stack[..|v.stack|] == v.stack;
  }
}
