/**
 The function validator (internal/wasm/func_validation.go) as it works: one loop over the
 body that pushes to and pops from a value type stack, a stack of limits and a stack of
 control blocks in place. It accepts exactly what Validation.Accepts describes.
 */
module FunctionValidator {
  import opened Validation
  import opened ValidationLemmas

  /** Pops `n` values of whatever type; the value popped first comes last. */
  function PopAny(v: VState, n: nat): Option<(VState, Types)>
    decreases n
  {
    if n == 0 then Some((v, []))
    else
      var (v1, t) :- Pop(v);
      var (v2, ts) :- PopAny(v1, n - 1);
      Some((v2, ts + [t]))
  }

  predicate AllMatch(have: Types, want: Types) {
    |have| == |want| && forall i :: 0 <= i < |have| ==> Matches(have[i], want[i])
  }

  /** Popping first and comparing types afterwards is popping typed values one by one. */
  lemma {:induction false} PopAnyThenMatch(v: VState, want: Types)
    ensures PopAny(v, |want|).None? ==> PopTypes(v, want).None?
    ensures PopAny(v, |want|).Some? ==>
              var (v', have) := PopAny(v, |want|).value;
              |have| == |want| && PopTypes(v, want) == if AllMatch(have, want) then Some(v') else None
    decreases |want|
  {
    if want != [] && Pop(v).Some? {
      var rest, w := want[..|want| - 1], want[|want| - 1];
      assert want == rest + [w];
      PopAnyThenMatch(Pop(v).value.0, rest);
    }
  }

  function Followed(o: Option<(VState, Types)>, ts: Types): Option<(VState, Types)> {
    match o
    case None => None
    case Some((v, have)) => Some((v, have + ts))
  }

  lemma FollowedBy(o: Option<(VState, Types)>, a: Types, b: Types)
    ensures Followed(Followed(o, a), b) == Followed(o, a + b)
  {
    if o.Some? {
      assert o.value.1 + a + b == o.value.1 + (a + b);
    }
  }

  class Stacks {
    var stack: Types
    var limits: seq<nat>
    var max: nat
    var frames: seq<Frame>

    ghost function View(): VState
      reads this
    {
      VState(stack, limits, max, frames)
    }

    ghost predicate Valid()
      reads this
    {
      WellFormed(View())
    }

    constructor (fn: Function)
      ensures Valid() && View() == InitialState(fn)
    {
      stack, limits, max, frames := [], [], 0, [Frame(0, OpBlock, fn.ft)];
    }

    method CurrentLimit() returns (n: nat)
      ensures n == Limit(View())
    {
      n := 0;
      if |limits| > 0 {
        n := limits[|limits| - 1];
      }
    }

    method TryPop() returns (t: ValueType, ok: bool)
      modifies this
      ensures ok == Pop(old(View())).Some?
      ensures if ok then (View(), t) == Pop(old(View())).value else View() == old(View())
    {
      var n := CurrentLimit();
      if |stack| <= n {
        t, ok := Unknown, false;
      } else if |stack| == n + 1 && stack[n] == Unknown {
        t, ok := Unknown, true;
      } else {
        t, ok := stack[|stack| - 1], true;
        stack := stack[..|stack| - 1];
      }
    }

    method PopAndVerifyType(expected: ValueType) returns (ok: bool)
      modifies this
      ensures ok == PopType(old(View()), expected).Some?
      ensures ok ==> View() == PopType(old(View()), expected).value
    {
      var have;
      have, ok := TryPop();
      if ok && have != Unknown && expected != Unknown && have != expected {
        ok := false;
      }
    }

    method PushType(t: ValueType)
      modifies this
      ensures View() == Push(old(View()), t)
    {
      stack := stack + [t];
      if |stack| > max {
        max := |stack|;
      }
    }

    method PushTypes(ts: Types)
      modifies this
      ensures View() == PushAll(old(View()), ts)
    {
      assert ts[0..] == ts;
      for i := 0 to |ts|
        invariant PushAll(View(), ts[i..]) == PushAll(old(View()), ts)
      {
        assert ts[i..][0] == ts[i] && ts[i..][1..] == ts[i + 1..];
        PushType(ts[i]);
      }
    }

    method ResetAtStackLimit()
      requires Limit(View()) <= |stack|
      modifies this
      ensures View() == Cut(old(View()))
    {
      if |limits| != 0 {
        stack := stack[..limits[|limits| - 1]];
      } else {
        stack := stack[..0];
      }
    }

    method Unreachable()
      requires Limit(View()) <= |stack|
      modifies this
      ensures View() == MakeUnreachable(old(View()))
    {
      ResetAtStackLimit();
      stack := stack + [ValueType.Unknown];
    }

    /** First part of requireStackValues: are there enough values? */
    method PopValues(n: nat) returns (popped: Types, ok: bool)
      modifies this
      ensures ok == PopAny(old(View()), n).Some?
      ensures ok ==> (View(), popped) == PopAny(old(View()), n).value
    {
      ghost var all := PopAny(View(), n);
      popped, ok := [], true;
      var i := n;
      assert all == Followed(all, []) by {
        if all.Some? {
          assert all.value.1 + [] == all.value.1;
        }
      }
      while i > 0
        invariant 0 <= i <= n && ok
        invariant all == Followed(PopAny(View(), i), popped)
      {
        var t;
        t, ok := TryPop();
        if !ok {
          return;
        }
        FollowedBy(PopAny(View(), i - 1), [t], popped);
        popped := [t] + popped;
        i := i - 1;
      }
      assert [] + popped == popped;
    }

    /** requireStackValues: pop as many values as wanted, then look for values left above the
        limit, then compare the types. */
    method RequireStackValues(want: Types, checkAboveLimit: bool) returns (ok: bool)
      modifies this
      ensures ok <==> PopTypes(old(View()), want).Some? &&
                      (checkAboveLimit ==> AtLimit(PopTypes(old(View()), want).value))
      ensures ok ==> View() == PopTypes(old(View()), want).value
    {
      PopAnyThenMatch(View(), want);
      var popped;
      popped, ok := PopValues(|want|);
      if !ok {
        return;
      }
      var limit := CurrentLimit();
      if checkAboveLimit && !(limit == |stack| || (limit + 1 == |stack| && stack[limit] == ValueType.Unknown)) {
        return false;
      }
      for j := 0 to |popped|
        invariant forall k :: 0 <= k < j ==> Matches(popped[k], want[k])
      {
        if popped[j] != ValueType.Unknown && want[j] != ValueType.Unknown && popped[j] != want[j] {
          return false;
        }
      }
      return true;
    }

    /** The Unknown-aware pops of br_table's default label when reference types are enabled. */
    method PopDefaultLabel(want: Types) returns (known: Types, ok: bool)
      modifies this
      ensures ok == PopKnown(old(View()), want).Some?
      ensures ok ==> (View(), known) == PopKnown(old(View()), want).value
    {
      ghost var all := PopKnown(View(), want);
      known, ok := [], true;
      var i := |want|;
      assert want[..i] == want && all == Followed(all, []) by {
        if all.Some? {
          assert all.value.1 + [] == all.value.1;
        }
      }
      while i > 0
        invariant 0 <= i <= |want| && ok
        invariant all == Followed(PopKnown(View(), want[..i]), known)
      {
        assert want[..i][..i - 1] == want[..i - 1];
        var actual;
        actual, ok := TryPop();
        if !ok {
          return;
        }
        if actual != ValueType.Unknown && want[i - 1] != ValueType.Unknown && actual != want[i - 1] {
          ok := false;
          return;
        }
        ghost var t := if actual == ValueType.Unknown then ValueType.Unknown else want[i - 1];
        FollowedBy(PopKnown(View(), want[..i - 1]), [t], known);
        known := [if actual == ValueType.Unknown then ValueType.Unknown else want[i - 1]] + known;
        i := i - 1;
      }
      assert [] + known == known;
    }

    /** The operands of the default label. */
    method DefaultLabel(refTypes: bool, want: Types) returns (known: Types, ok: bool)
      requires Valid()
      modifies this
      ensures var r := if refTypes then PopKnown(old(View()), want)
                       else (var v2 :- PopTypes(old(View()), want); Some((v2, want)));
              ok == r.Some? && (ok ==> r.value == (View(), known))
      ensures ok ==> Limit(View()) <= |stack| && frames == old(frames)
    {
      ghost var v := View();
      known := want;
      if refTypes {
        known, ok := PopDefaultLabel(want);
        if ok {
          PopKnownPops(v, want);
        }
      } else {
        ok := RequireStackValues(want, false);
        if ok {
          PopTypesPops(v, want);
        }
      }
    }

    method BrTable(fn: Function, ls: seq<nat>, ln: nat) returns (ok: bool)
      requires Valid()
      modifies this
      ensures ok == CheckBrTable(fn, old(View()), ls, ln).Some?
      ensures ok ==> View() == CheckBrTable(fn, old(View()), ls, ln).value
    {
      if ln >= |frames| {
        return false;
      }
      ok := PopAndVerifyType(I32);
      if !ok {
        return;
      }
      var known := LabelTypes(frames[|frames| - 1 - ln]);
      known, ok := DefaultLabel(fn.refTypes, known);
      if !ok {
        return;
      }
      ok := CompareLabels(frames, ls, known);
      if !ok {
        return;
      }
      Unreachable();
    }

    method OpenBlock(f: Frame) returns (ok: bool)
      requires Valid()
      modifies this
      ensures ok == Enter(old(View()), f).Some?
      ensures ok ==> View() == Enter(old(View()), f).value
    {
      ghost var v := View();
      ok := RequireStackValues(f.ft.params, false);
      if ok {
        ghost var v1 := View();
        PushTypes(f.ft.params);
        PushAllIs(v1, f.ft.params);
        limits := limits + [|stack| - |f.ft.params|];
        frames := frames + [f];
      }
    }

    method ElseBlock() returns (ok: bool)
      requires Valid() && frames != []
      modifies this
      ensures ok == CheckElse(old(View())).Some?
      ensures ok ==> View() == CheckElse(old(View())).value
    {
      var f := frames[|frames| - 1];
      ghost var v := View();
      if f.op != OpIf {
        return false;
      }
      ok := RequireStackValues(f.ft.results, true);
      if ok {
        PopTypesPops(v, f.ft.results);
        ResetAtStackLimit();
        ghost var v1 := View();
        PushTypes(f.ft.params);
        PushAllIs(v1, f.ft.params);
        frames := frames[|frames| - 1 := f.(op := OpElse)];
        assert frames == v.frames[..|v.frames| - 1] + [f.(op := OpElse)];
      }
    }

    method EndBlock() returns (ok: bool)
      requires Valid() && frames != []
      modifies this
      ensures ok == CheckEnd(old(View())).Some?
      ensures ok ==> View() == CheckEnd(old(View())).value
    {
      var f := frames[|frames| - 1];
      ghost var v := View();
      if f.op == OpIf && f.ft.results != f.ft.params {
        return false;
      }
      ok := RequireStackValues(f.ft.results, true);
      if ok {
        PopTypesPops(v, f.ft.results);
        ResetAtStackLimit();
        ghost var v1 := View();
        PushTypes(f.ft.results);
        PushAllIs(v1, f.ft.results);
        frames := frames[..|frames| - 1];
        if |limits| != 0 {
          limits := limits[..|limits| - 1];
        }
      }
    }

    method SelectValues() returns (ok: bool)
      modifies this
      ensures ok == CheckSelect(old(View())).Some?
      ensures ok ==> View() == CheckSelect(old(View())).value
    {
      ok := PopAndVerifyType(I32);
      if !ok {
        return;
      }
      var a, b;
      a, ok := TryPop();
      if !ok {
        return;
      }
      b, ok := TryPop();
      if !ok {
        return;
      }
      if a != ValueType.Unknown && b != ValueType.Unknown && a != b {
        return false;
      }
      PushType(if a == ValueType.Unknown then b else a);
    }

    /** Pops operands and pushes results, or makes the rest of the block unreachable. */
    method Operate(pops: Types, pushes: Types, jumps: bool) returns (ok: bool)
      requires Valid()
      modifies this
      ensures ok == PopTypes(old(View()), pops).Some?
      ensures ok && !jumps ==> View() == PushAll(PopTypes(old(View()), pops).value, pushes)
      ensures ok && jumps ==> View() == MakeUnreachable(PopTypes(old(View()), pops).value)
    {
      ghost var v := View();
      ok := RequireStackValues(pops, false);
      if ok {
        PopTypesPops(v, pops);
        if jumps {
          Unreachable();
        } else {
          PushTypes(pushes);
        }
      }
    }

    method Variable(fn: Function, pc: nat, i: Instr) returns (ok: bool)
      requires frames != []
      requires i.LocalGet? || i.LocalSet? || i.LocalTee? || i.GlobalGet? || i.GlobalSet?
      modifies this
      ensures ok == Check(fn, pc, i, old(View())).Some?
      ensures ok ==> View() == Check(fn, pc, i, old(View())).value
    {
      match i
      case LocalGet(x) =>
        ok := x < |fn.locals|;
        if ok { PushType(fn.locals[x]); }
      case LocalSet(x) =>
        ok := x < |fn.locals|;
        if ok { ok := PopAndVerifyType(fn.locals[x]); }
      case LocalTee(x) =>
        ok := x < |fn.locals|;
        if ok {
          ok := PopAndVerifyType(fn.locals[x]);
          if ok { PushType(fn.locals[x]); }
        }
      case GlobalGet(x) =>
        ok := x < |fn.globals|;
        if ok { PushType(fn.globals[x].t); }
      case GlobalSet(x) =>
        ok := x < |fn.globals| && fn.globals[x].mutable;
        if ok { ok := PopAndVerifyType(fn.globals[x].t); }
    }

    method BrIf(fn: Function, pc: nat, l: nat) returns (ok: bool)
      requires Valid() && frames != []
      modifies this
      ensures ok == Check(fn, pc, Instr.BrIf(l), old(View())).Some?
      ensures ok ==> View() == Check(fn, pc, Instr.BrIf(l), old(View())).value
    {
      ok := l < |frames|;
      if ok {
        ok := PopAndVerifyType(I32);
        if ok {
          var ts := LabelTypes(frames[|frames| - 1 - l]);
          ok := Operate(ts, ts, false);
        }
      }
    }

    method Branch(fn: Function, pc: nat, i: Instr) returns (ok: bool)
      requires Valid() && frames != []
      requires i.Br? || i.BrIf? || i.BrTable? || i.Return?
      modifies this
      ensures ok == Check(fn, pc, i, old(View())).Some?
      ensures ok ==> View() == Check(fn, pc, i, old(View())).value
    {
      match i
      case Br(l) =>
        ok := l < |frames|;
        if ok { ok := Operate(LabelTypes(frames[|frames| - 1 - l]), [], true); }
      case BrIf(l) =>
        ok := BrIf(fn, pc, l);
      case BrTable(ls, ln) =>
        ok := BrTable(fn, ls, ln);
      case Return =>
        ok := Operate(fn.ft.results, [], true);
    }

    method Control(fn: Function, pc: nat, i: Instr) returns (ok: bool)
      requires Valid() && frames != []
      requires i.Block? || i.Loop? || i.If? || i.Else? || i.End?
      modifies this
      ensures ok == Check(fn, pc, i, old(View())).Some?
      ensures ok ==> View() == Check(fn, pc, i, old(View())).value
    {
      match i
      case Block(ft) => ok := OpenBlock(Frame(pc, OpBlock, ft));
      case Loop(ft) => ok := OpenBlock(Frame(pc, OpLoop, ft));
      case If(ft) =>
        ok := PopAndVerifyType(I32);
        if ok { ok := OpenBlock(Frame(pc, OpIf, ft)); }
      case Else => ok := ElseBlock();
      case End => ok := EndBlock();
    }

    /** One iteration of the loop over the body. */
    method Instruction(fn: Function, pc: nat, i: Instr) returns (ok: bool)
      requires Valid()
      modifies this
      ensures ok == Check(fn, pc, i, old(View())).Some?
      ensures ok ==> Valid() && View() == Check(fn, pc, i, old(View())).value
    {
      ghost var v := View();
      if |frames| == 0 {
        return false;
      }
      if i.Nop? {
        ok := true;
      } else if i.Unreachable? {
        Unreachable();
        ok := true;
      } else if i.Op? {
        ok := Operate(i.pops, i.pushes, false);
      } else if i.Drop? {
        var t;
        t, ok := TryPop();
      } else if i.Select? {
        ok := SelectValues();
      } else if i.Block? || i.Loop? || i.If? || i.Else? || i.End? {
        ok := Control(fn, pc, i);
      } else if i.Br? || i.BrIf? || i.BrTable? || i.Return? {
        ok := Branch(fn, pc, i);
      } else {
        ok := Variable(fn, pc, i);
      }
      if ok {
        CheckKeeps(fn, pc, i, v, 0);
      }
    }

    /** One round of the loop over the body. */
    method Advance(fn: Function, pc: nat, ghost states: nat -> Option<VState>) returns (ok: bool)
      requires pc < |fn.code| && Passes(fn, states) && Valid() && states(pc) == Some(View())
      modifies this
      ensures if ok then Valid() && states(pc + 1) == Some(View()) else states(|fn.code|) == None
    {
      assert states(pc) == StateAt(fn, pc) && states(pc + 1) == StateAt(fn, pc + 1);
      ok := Instruction(fn, pc, fn.code[pc]);
      if !ok {
        RejectedForGood(fn, pc + 1, |fn.code|);
      }
    }

    /** The loop over the body. */
    method Walk(fn: Function, ghost states: nat -> Option<VState>) returns (ok: bool)
      requires Passes(fn, states) && Valid() && states(0) == Some(View())
      modifies this
      ensures states(|fn.code|) == if ok then Some(View()) else None
    {
      var pc := 0;
      while pc < |fn.code|
        invariant 0 <= pc <= |fn.code|
        invariant Valid() && states(pc) == Some(View())
      {
        ok := Advance(fn, pc, states);
        if !ok {
          return;
        }
        pc := pc + 1;
      }
      ok := true;
    }
  }

  /** validateFunctionWithMaxStackValues: walks the body once, and accepts if every instruction
      checks, every block is closed and the stack stays within the limit. */
  method Validate(fn: Function) returns (ok: bool)
    ensures ok == Accepts(fn)
  {
    var sts := new Stacks(fn);
    ghost var states: nat -> Option<VState> := (p: nat) => if p <= |fn.code| then StateAt(fn, p) else None;
    ok := sts.Walk(fn, states);
    AcceptsLast(fn, if ok then Some(sts.View()) else None);
    if !ok || |sts.frames| > 0 {
      return false;
    }
    return sts.max <= fn.maxStackValues;
  }

  /** `states` are the states that the abstract machine goes through. */
  ghost predicate Passes(fn: Function, states: nat -> Option<VState>) {
    forall p: nat {:trigger StateAt(fn, p)} :: p <= |fn.code| ==> states(p) == StateAt(fn, p)
  }

  lemma AcceptsLast(fn: Function, last: Option<VState>)
    requires StateAt(fn, |fn.code|) == last
    ensures Accepts(fn) <==> last.Some? && last.value.frames == [] && last.value.max <= fn.maxStackValues
  {
  }

  lemma {:induction false} RejectedForGood(fn: Function, p: nat, q: nat)
    requires p <= q <= |fn.code| && StateAt(fn, p).None?
    ensures StateAt(fn, q).None?
    decreases q
  {
    if p < q {
      RejectedForGood(fn, p, q - 1);
    }
  }

  method CompareLabels(frames: seq<Frame>, ls: seq<nat>, known: Types) returns (same: bool)
    ensures same == LabelsMatch(frames, ls, known)
  {
    for i := 0 to |ls|
      invariant LabelsMatch(frames, ls[..i], known)
    {
      assert ls[..i + 1] == ls[..i] + [ls[i]];
      if ls[i] >= |frames| {
        return false;
      }
      same := CompareLabel(known, LabelTypes(frames[|frames| - 1 - ls[i]]));
      if !same {
        return;
      }
    }
    assert ls[..|ls|] == ls;
    return true;
  }

  method CompareLabel(known: Types, other: Types) returns (same: bool)
    ensures same == SameLabel(known, other)
  {
    if |known| != |other| {
      return false;
    }
    for i := 0 to |known|
      invariant forall j :: 0 <= j < i ==> known[j] == Unknown || known[j] == other[j]
    {
      if known[i] != Unknown && known[i] != other[i] {
        return false;
      }
    }
    return true;
  }
}
