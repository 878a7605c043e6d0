/**
 * The fiber library of `src/fiber.rs`: cooperative coroutines, each with
 * its own value stack, switched by native functions. A fiber is created
 * `Initial`; `resume` runs a `Paused` or `Initial` fiber and leaves the
 * caller `Waiting`; `yield` pauses the running fiber and returns to the one
 * that resumed it; `transfer` switches without a way back; `error` marks
 * the running fiber failed and returns; `check` and `resumable` inspect a
 * fiber.
 *
 * Each native function takes the VM and its argument count, and works on
 * the current fiber's stack: the arguments on top, the callee below them.
 * An `unwrap` of an empty stack, a failed type test or a failed state test
 * is a panic. A pointer that does not name a live object (a `Fiber` value
 * or `prev` missing from the table, a closure without a chunk) is read as
 * a panic too, where the Rust code would read freed memory.
 */
module Fibers {
  import opened Wrappers
  import opened Bytecode
  import opened Runtime

  /** The states `resume` and `transfer` accept. */
  predicate CanResume(st: FiberState) {
    st == Paused || st == Initial
  }

  /** The `n` values on top of the stack, in push order, and the VM
      without them (the pop loop of `sloth_fiber_create` followed by
      `args.reverse()`). */
  function TakeArgs(rt: Rt, n: nat): (r: Option<(Rt, seq<Value>)>)
    requires HasCurrent(rt)
    ensures r.None? <==> |Stack(rt)| < n
    ensures r.Some? ==> HasCurrent(r.value.0) && |r.value.1| == n && Stack(r.value.0) + r.value.1 == Stack(rt)
    ensures r.Some? ==> r.value.0 == WithStack(rt, Stack(r.value.0))
  {
    var st := Stack(rt);
    if |st| < n then None
    else
      assert st[..|st| - n] + st[|st| - n..] == st;
      Some((WithStack(rt, st[..|st| - n]), st[|st| - n..]))
  }

  /** The pass value of `resume` and `yield`: popped when the call has
      the argument count that carries one, `Nil` otherwise. */
  function PassValue(rt: Rt, present: bool): (r: Option<(Rt, Value)>)
    requires HasCurrent(rt)
    ensures !present ==> r == Some((rt, Nil))
    ensures present ==> r == PopValue(rt)
  {
    if present then PopValue(rt) else Some((rt, Nil))
  }

  /** Pop a value that must be a live fiber, then drop the callee. */
  function PopFiber(rt: Rt): (r: Option<(Rt, nat)>)
    requires HasCurrent(rt)
    ensures var st := Stack(rt);
      r.None? <==> (|st| == 0 || !st[|st| - 1].Fiber? || st[|st| - 1].fiber !in rt.fibers)
    ensures r.Some? ==> var st := Stack(rt);
      && st[|st| - 1] == Value.Fiber(r.value.1)
      && r.value.0 == Drop(WithStack(rt, st[..|st| - 1]))
    ensures r.Some? ==> HasCurrent(r.value.0) && r.value.1 in r.value.0.fibers
    ensures r.Some? ==> r.value.0.fibers.Keys == rt.fibers.Keys && r.value.0.current == rt.current
  {
    match PopValue(rt)
    case None => None
    case Some((rt1, v)) =>
      var rt2 := Drop(rt1);
      if v.Fiber? && v.fiber in rt2.fibers then Some((rt2, v.fiber)) else None
  }

  /** Popping operands keeps the discipline. */
  lemma PopFiberValid(rt: Rt)
    requires Valid(rt) && PopFiber(rt).Some?
    ensures Valid(PopFiber(rt).value.0)
  {
    var st := Stack(rt);
    var rt1 := WithStack(rt, st[..|st| - 1]);
    ValidWithStack(rt, st[..|st| - 1]);
    ValidWithStack(rt1, Stack(Drop(rt1)));
  }

  /** The first fiber stack of a closure: the leading `parameterNum`
      arguments, then `Nil` for the remaining locals. */
  function BindArgs(c: Chunk, args: seq<Value>): (st: seq<Value>)
    requires c.parameterNum <= |args| && c.parameterNum <= c.numLocals
    ensures |st| == c.numLocals
    ensures forall i :: 0 <= i < c.parameterNum ==> st[i] == args[i]
    ensures forall i :: c.parameterNum <= i < c.numLocals ==> st[i] == Nil
  {
    args[..c.parameterNum] + Nils(c.numLocals - c.parameterNum)
  }

  /** Whether `create` accepts `argc` arguments for `c`: exactly its
      arity, or more when it is variadic. */
  predicate ArityFits(c: Chunk, argc: nat) {
    c.parameterNum == argc || (c.parameterNum < argc && c.isVa)
  }

  /** `sloth_fiber_create`: the arguments, then the closure, then the
      callee are popped; the closure's function must accept the
      arguments (see `Spawn`). An argument count of 0 underflows
      `arg_num - 1`, as does a chunk with fewer locals than parameters in
      the `Nil` loop; both panic. */
  function Create(rt: Rt, argNum: nat): (r: Outcome)
    requires HasCurrent(rt)
  {
    if argNum == 0 then Panic
    else
      var argc := argNum - 1;
      match TakeArgs(rt, argc)
      case None => Panic
      case Some((rt1, args)) =>
        match PopValue(rt1)
        case None => Panic
        case Some((rt2, callee)) =>
          var rt3 := Drop(rt2);
          if !callee.Closure? || callee.closure !in rt3.chunks then Panic
          else
            var c := rt3.chunks[callee.closure];
            if !ArityFits(c, argc) || c.numLocals < c.parameterNum then Panic
            else Done(Spawn(rt3, callee.closure, c, args))
  }

  /** The new fiber of `create`: `Initial`, with no `prev`, the bound
      arguments as its stack and one frame holding the surplus arguments
      of a variadic function, at a fresh address that is pushed. */
  function Spawn(rt: Rt, closure: Ref, c: Chunk, args: seq<Value>): (r: Rt)
    requires HasCurrent(rt) && c.parameterNum <= |args| && c.parameterNum <= c.numLocals
  {
    var f := FiberObj(false, [FrameRec(0, closure, args[c.parameterNum..])], BindArgs(c, args), Initial, None);
    var id := rt.nextFiber;
    Push(rt.(fibers := rt.fibers[id := f], nextFiber := id + 1), Value.Fiber(id))
  }

  /** The running fiber stops, in state `s`. */
  function Leave(rt: Rt, s: FiberState): (r: Rt)
    requires HasCurrent(rt)
    ensures HasCurrent(r) && r.current == rt.current && r.fibers.Keys == rt.fibers.Keys
    ensures r.fibers[rt.current] == rt.fibers[rt.current].(state := s)
    ensures forall g :: g in rt.fibers && g != rt.current ==> r.fibers[g] == rt.fibers[g]
  {
    rt.(fibers := rt.fibers[rt.current := rt.fibers[rt.current].(state := s)])
  }

  /** Fiber `t` becomes `f`, runs, and is current (`set_fiber`). */
  function Enter(rt: Rt, t: nat, f: FiberObj): (r: Rt)
    ensures HasCurrent(r) && r.current == t && r.fibers.Keys == rt.fibers.Keys + {t}
    ensures r.fibers[t] == f.(state := Running)
    ensures forall g :: g in rt.fibers && g != t ==> r.fibers[g] == rt.fibers[g]
  {
    rt.(fibers := rt.fibers[t := f.(state := Running)], current := t)
  }

  /** `sloth_fiber_resume`: pop the pass value (with 2 arguments) and
      the target fiber (both taken at once here), then the callee; the target must be `Paused` or
      `Initial`. The caller becomes `Waiting`; a `Paused` target receives
      the pass value on its stack; the target's `prev` is the caller; an
      `Initial` target sets `fiber_changed`; the target runs. */
  function Resume(rt: Rt, argNum: nat): (r: Outcome)
    requires HasCurrent(rt)
  {
    var below := if argNum == 2 then 2 else 1;
    match TakeArgs(rt, below)
    case None => Panic
    case Some((rt1, operands)) =>
      var pass := if argNum == 2 then operands[1] else Nil;
      var rt2 := Drop(rt1);
      if !operands[0].Fiber? || operands[0].fiber !in rt2.fibers then Panic
      else if !CanResume(rt2.fibers[operands[0].fiber].state) then Panic
      else Done(Wake(rt2, operands[0].fiber, pass))
  }

  /** The switch of `resume` once the operands are popped: the caller
      waits; a `Paused` target receives the pass value; the target's
      `prev` is the caller; an `Initial` target sets `fiber_changed`; the
      target runs. */
  function Wake(rt: Rt, t: nat, pass: Value): (r: Rt)
    requires HasCurrent(rt) && t in rt.fibers
  {
    var rt1 := Leave(rt, Waiting);
    var target := rt1.fibers[t];
    var pushed := if target.state == Paused then target.(stack := target.stack + [pass]) else target;
    var changed := if target.state == Initial then true else rt1.fiberChanged;
    Enter(rt1, t, pushed.(prev := Some(rt.current))).(fiberChanged := changed)
  }

  /** `sloth_fiber_yield`: pop the pass value (with 1 argument) and the
      callee; the running fiber pauses; its `prev` must exist, receives
      the pass value and runs. */
  function Yield(rt: Rt, argNum: nat): (r: Outcome)
    requires HasCurrent(rt)
  {
    match PassValue(rt, argNum == 1)
    case None => Panic
    case Some((rt1, pass)) =>
      var rt2 := Leave(Drop(rt1), Paused);
      match rt2.fibers[rt2.current].prev
      case None => Panic
      case Some(p) =>
        if p !in rt2.fibers then Panic
        else
          var back := rt2.fibers[p];
          Done(Enter(rt2, p, back.(stack := back.stack + [pass])))
  }

  /** `sloth_fiber_transfer`: takes no argument; pop the target fiber and
      the callee; the target must be `Paused` or `Initial` (see
      `Switch`). */
  function Transfer(rt: Rt, argNum: nat): (r: Outcome)
    requires HasCurrent(rt)
  {
    if argNum != 0 then Panic
    else
      match PopFiber(rt)
      case None => Panic
      case Some((rt1, t)) =>
        if !CanResume(rt1.fibers[t].state) then Panic
        else Done(Switch(rt1, t))
  }

  /** The switch of `transfer` once the operands are popped: the running
      fiber pauses; a `Paused` target receives `Nil`; an `Initial` target
      sets `fiber_changed`; the target runs, its `prev` untouched. */
  function Switch(rt: Rt, t: nat): (r: Rt)
    requires HasCurrent(rt) && t in rt.fibers
  {
    var rt1 := Leave(rt, Paused);
    var target := rt1.fibers[t];
    var pushed := if target.state == Paused then target.(stack := target.stack + [Nil]) else target;
    var changed := if target.state == Initial then true else rt1.fiberChanged;
    Enter(rt1, t, pushed).(fiberChanged := changed)
  }

  /** `sloth_fiber_set_error`: drop the callee; the running fiber is in
      error; its `prev` must exist and runs again, with `Nil` pushed as
      the result of the call that resumed the failed fiber. */
  function SetError(rt: Rt): (r: Outcome)
    requires HasCurrent(rt)
  {
    var rt1 := Leave(Drop(rt), FiberState.Error);
    match rt1.fibers[rt1.current].prev
    case None => Panic
    case Some(p) =>
      if p !in rt1.fibers then Panic
      else Done(Push(Enter(rt1, p, rt1.fibers[p]), Nil))
  }

  /** `sloth_fiber_check`: whether a fiber has not failed. */
  function Check(rt: Rt): (r: Outcome)
    requires HasCurrent(rt)
  {
    match PopFiber(rt)
    case None => Panic
    case Some((rt1, t)) => Done(Push(rt1, Bool(rt1.fibers[t].state != FiberState.Error)))
  }

  /** `sloth_fiber_resumable`: whether a fiber may be resumed. */
  function IsResumable(rt: Rt): (r: Outcome)
    requires HasCurrent(rt)
  {
    match PopFiber(rt)
    case None => Panic
    case Some((rt1, t)) => Done(Push(rt1, Bool(CanResume(rt1.fibers[t].state))))
  }

  // ---------------------------------------------------------------------
  // The scheduling discipline.
  // ---------------------------------------------------------------------

  /** No fiber runs but (possibly) `c`. */
  predicate OthersIdle(fs: map<nat, FiberObj>, c: nat) {
    forall f :: f in fs && f != c ==> fs[f].state != Running
  }

  /** Every `prev` names a fiber of the table. */
  predicate PrevsLive(fs: map<nat, FiberObj>) {
    forall f :: f in fs && fs[f].prev.Some? ==> fs[f].prev.value in fs
  }

  /** Exactly one fiber runs, the current one; every `prev` names a
      fiber; every fiber address is below the next fresh one. */
  predicate Valid(rt: Rt) {
    Scheduled(rt.fibers, rt.current, rt.nextFiber)
  }

  predicate Scheduled(fs: map<nat, FiberObj>, current: nat, next: nat) {
    && current in fs
    && fs[current].state == Running
    && OthersIdle(fs, current)
    && PrevsLive(fs)
    && (forall f :: f in fs ==> f < next)
  }

  /** Stack operations keep the discipline. */
  lemma ValidWithStack(rt: Rt, st: seq<Value>)
    requires Valid(rt)
    ensures Valid(WithStack(rt, st))
  {
    var r := WithStack(rt, st);
    assert forall f :: f in r.fibers ==> r.fibers[f].state == rt.fibers[f].state && r.fibers[f].prev == rt.fibers[f].prev;
  }

  /** Handing over from the running fiber to a fiber of the table keeps
      the discipline, whatever the new fiber's stack, if the running one
      leaves in another state and the new one's `prev` is live. */
  lemma HandOverValid(rt: Rt, s: FiberState, t: nat, f: FiberObj)
    requires Valid(rt) && s != Running && t in rt.fibers
    requires f.prev.Some? ==> f.prev.value in rt.fibers
    ensures Valid(Enter(Leave(rt, s), t, f))
  {
    var l := Leave(rt, s);
    var r := Enter(l, t, f);
    assert forall g :: g in l.fibers ==> l.fibers[g].prev == rt.fibers[g].prev;
    assert OthersIdle(l.fibers, t) by {
      forall g | g in l.fibers && g != t ensures l.fibers[g].state != Running {
        if g != rt.current {
          assert l.fibers[g] == rt.fibers[g];
        }
      }
    }
  }

  /** The stack of `create` taken apart: the callee slot, the closure,
      and the arguments on top; and the VM once all three are popped. */
  lemma CreatePops(rt: Rt, argNum: nat)
    requires HasCurrent(rt) && 0 < argNum <= |Stack(rt)|
    ensures var st := Stack(rt);
      var (rt1, args) := TakeArgs(rt, argNum - 1).value;
      && PopValue(rt1).Some?
      && PopValue(rt1).value.1 == st[|st| - argNum]
      && args == st[|st| - argNum + 1..]
      && Stack(PopValue(rt1).value.0) == st[..|st| - argNum]
      && PopValue(rt1).value.0 == WithStack(rt, st[..|st| - argNum])
  {
    var st := Stack(rt);
    var (rt1, args) := TakeArgs(rt, argNum - 1).value;
    assert Stack(rt1) == st[..|st| - (argNum - 1)];
    var (rt2, callee) := PopValue(rt1).value;
    assert Stack(rt2) == st[..|st| - argNum];
  }

  /** Lemma: `create` panics exactly when the argument count is 0, the
      stack is too short, the value below the arguments is not a known
      closure, or its function does not fit the arguments. */
  lemma CreatePanics(rt: Rt, argNum: nat)
    requires HasCurrent(rt)
    ensures var st := Stack(rt);
      Create(rt, argNum).Panic? <==>
        argNum == 0 || |st| < argNum ||
        !st[|st| - argNum].Closure? || st[|st| - argNum].closure !in rt.chunks ||
        !ArityFits(rt.chunks[st[|st| - argNum].closure], argNum - 1) ||
        rt.chunks[st[|st| - argNum].closure].numLocals < rt.chunks[st[|st| - argNum].closure].parameterNum
  {
    if 0 < argNum <= |Stack(rt)| {
      CreatePops(rt, argNum);
    }
  }

  /** Lemma: a successful `create` spawns the fiber from the closure
      below the arguments, with the arguments, once they, the closure and
      the callee below it are popped. */
  lemma CreateSpawns(rt: Rt, argNum: nat)
    requires HasCurrent(rt)
    ensures Create(rt, argNum).Done? ==>
      var st := Stack(rt);
      var callee := st[|st| - argNum];
      Create(rt, argNum).rt == Spawn(Drop(WithStack(rt, st[..|st| - argNum])), callee.closure, rt.chunks[callee.closure], st[|st| - argNum + 1..])
  {
    if 0 < argNum <= |Stack(rt)| {
      CreatePops(rt, argNum);
    }
  }

  /** Lemma: spawning adds an `Initial` fiber with no `prev` at a fresh
      address, holding the bound arguments and the surplus ones, pushes
      it, changes no other fiber but for the current fiber's stack, and
      keeps the discipline. */
  lemma SpawnEffect(rt: Rt, closure: Ref, c: Chunk, args: seq<Value>)
    requires Valid(rt) && c.parameterNum <= |args| && c.parameterNum <= c.numLocals
    ensures var r := Spawn(rt, closure, c, args);
      var f := r.fibers[rt.nextFiber];
      && rt.nextFiber !in rt.fibers
      && r.current == rt.current
      && f.state == Initial && f.prev == None
      && f.stack == BindArgs(c, args)
      && f.frames == [FrameRec(0, closure, args[c.parameterNum..])]
      && Stack(r) == Stack(rt) + [Value.Fiber(rt.nextFiber)]
      && (forall g :: g in rt.fibers && g != rt.current ==> r.fibers[g] == rt.fibers[g])
      && Valid(r)
  {
    var f := FiberObj(false, [FrameRec(0, closure, args[c.parameterNum..])], BindArgs(c, args), Initial, None);
    var id := rt.nextFiber;
    var r1 := rt.(fibers := rt.fibers[id := f], nextFiber := id + 1);
    assert Valid(r1);
    ValidWithStack(r1, Stack(r1) + [Value.Fiber(id)]);
  }

  /** Lemma: `resume` succeeds exactly when the value below the pass
      value is a fiber that is `Paused` or `Initial`, and then wakes it
      with the pass value once the operands and the callee are popped. */
  lemma ResumeWakes(rt: Rt, argNum: nat)
    requires HasCurrent(rt)
    ensures var st := Stack(rt);
      var below := if argNum == 2 then 2 else 1;
      Resume(rt, argNum).Done? <==>
        |st| >= below && st[|st| - below].Fiber? && st[|st| - below].fiber in rt.fibers &&
        CanResume(rt.fibers[st[|st| - below].fiber].state)
    ensures Resume(rt, argNum).Done? ==>
      var st := Stack(rt);
      var below := if argNum == 2 then 2 else 1;
      var pass := if argNum == 2 then st[|st| - 1] else Nil;
      Resume(rt, argNum).rt == Wake(Drop(WithStack(rt, st[..|st| - below])), st[|st| - below].fiber, pass)
  {
    var st := Stack(rt);
    var below := if argNum == 2 then 2 else 1;
    if |st| >= below {
      var (rt1, operands) := TakeArgs(rt, below).value;
      assert operands == st[|st| - below..];
      assert Stack(rt1) == st[..|st| - below];
    }
  }

  /** Lemma: waking a `Paused` or `Initial` fiber other than the running
      one leaves the caller waiting and the target running and current
      with the caller as its `prev`; the pass value is pushed exactly when
      the target was `Paused`; `fiber_changed` is set when it was
      `Initial`; no other fiber changes; the discipline holds. */
  lemma WakeEffect(rt: Rt, t: nat, pass: Value)
    requires Valid(rt) && t in rt.fibers && CanResume(rt.fibers[t].state)
    ensures t != rt.current
    ensures var r := Wake(rt, t, pass);
      && r.current == t
      && r.fibers[rt.current] == rt.fibers[rt.current].(state := Waiting)
      && r.fibers[t].state == Running && r.fibers[t].prev == Some(rt.current)
      && r.fibers[t].stack == (if rt.fibers[t].state == Paused then rt.fibers[t].stack + [pass] else rt.fibers[t].stack)
      && r.fiberChanged == (rt.fiberChanged || rt.fibers[t].state == Initial)
      && (forall g :: g in rt.fibers && g != rt.current && g != t ==> r.fibers[g] == rt.fibers[g])
    ensures Valid(Wake(rt, t, pass))
  {
    var target := rt.fibers[t];
    var pushed := if target.state == Paused then target.(stack := target.stack + [pass]) else target;
    WakeValid(rt, t, pass);
  }

  lemma WakeValid(rt: Rt, t: nat, pass: Value)
    requires Valid(rt) && t in rt.fibers
    ensures Valid(Wake(rt, t, pass))
  {
    var target := rt.fibers[t];
    var pushed := if target.state == Paused then target.(stack := target.stack + [pass]) else target;
    var e := Enter(Leave(rt, Waiting), t, pushed.(prev := Some(rt.current)));
    HandOverValid(rt, Waiting, t, pushed.(prev := Some(rt.current)));
    assert Wake(rt, t, pass).fibers == e.fibers;
  }

  /** Lemma: `yield` pauses the running fiber and runs its `prev`, which
      receives the pass value; without a `prev` it panics. */
  lemma YieldEffect(rt: Rt, argNum: nat)
    requires Valid(rt)
    ensures rt.fibers[rt.current].prev.None? ==> Yield(rt, argNum).Panic?
    ensures Yield(rt, argNum).Done? ==>
      var r := Yield(rt, argNum).rt;
      var p := rt.fibers[rt.current].prev.value;
      var pass := if argNum == 1 then Stack(rt)[|Stack(rt)| - 1] else Nil;
      && rt.fibers[rt.current].prev.Some?
      && r.current == p
      && (p != rt.current ==> r.fibers[rt.current].state == Paused)
      && r.fibers[p].state == Running
      && (p != rt.current ==> r.fibers[p].stack == rt.fibers[p].stack + [pass])
      && (forall g :: g in rt.fibers && g != rt.current && g != p ==> r.fibers[g] == rt.fibers[g])
      && Valid(r)
  {
    match PassValue(rt, argNum == 1)
    case None =>
    case Some((rt1, pass)) =>
      ValidWithStack(rt, Stack(rt1));
      var rt2 := Drop(rt1);
      ValidWithStack(rt1, Stack(rt2));
      var l := Leave(rt2, Paused);
      if l.fibers[l.current].prev.Some? {
        var p := l.fibers[l.current].prev.value;
        var back := l.fibers[p];
        HandOverValid(rt2, Paused, p, back.(stack := back.stack + [pass]));
      }
  }

  /** Lemma: `transfer` takes no argument, and succeeds exactly when the
      value on top is a fiber that is `Paused` or `Initial`; it then
      switches to that fiber once it and the callee are popped. */
  lemma TransferSwitches(rt: Rt, argNum: nat)
    requires HasCurrent(rt)
    ensures var st := Stack(rt);
      Transfer(rt, argNum).Done? <==>
        argNum == 0 && |st| > 0 && st[|st| - 1].Fiber? && st[|st| - 1].fiber in rt.fibers &&
        CanResume(rt.fibers[st[|st| - 1].fiber].state)
    ensures Transfer(rt, argNum).Done? ==>
      var st := Stack(rt);
      Transfer(rt, argNum).rt == Switch(Drop(WithStack(rt, st[..|st| - 1])), st[|st| - 1].fiber)
  {
    var st := Stack(rt);
    if |st| > 0 {
      var rt1 := WithStack(rt, st[..|st| - 1]);
      assert rt1.fibers.Keys == rt.fibers.Keys;
      assert Drop(rt1).fibers.Keys == rt.fibers.Keys;
    }
  }

  /** Lemma: switching to a `Paused` or `Initial` fiber pauses the running
      one (it does not wait), runs the target without touching its `prev`,
      pushes `Nil` only into a `Paused` target, sets `fiber_changed` for an
      `Initial` one, changes no other fiber, and keeps the discipline. */
  lemma SwitchEffect(rt: Rt, t: nat)
    requires Valid(rt) && t in rt.fibers && CanResume(rt.fibers[t].state)
    ensures t != rt.current
    ensures var r := Switch(rt, t);
      && r.current == t
      && r.fibers[rt.current] == rt.fibers[rt.current].(state := Paused)
      && r.fibers[t].state == Running && r.fibers[t].prev == rt.fibers[t].prev
      && r.fibers[t].stack == (if rt.fibers[t].state == Paused then rt.fibers[t].stack + [Nil] else rt.fibers[t].stack)
      && r.fiberChanged == (rt.fiberChanged || rt.fibers[t].state == Initial)
      && (forall g :: g in rt.fibers && g != rt.current && g != t ==> r.fibers[g] == rt.fibers[g])
    ensures Valid(Switch(rt, t))
  {
    SwitchValid(rt, t);
  }

  lemma SwitchValid(rt: Rt, t: nat)
    requires Valid(rt) && t in rt.fibers && CanResume(rt.fibers[t].state)
    ensures Valid(Switch(rt, t))
  {
    var target := rt.fibers[t];
    var pushed := if target.state == Paused then target.(stack := target.stack + [Nil]) else target;
    var e := Enter(Leave(rt, Paused), t, pushed);
    HandOverValid(rt, Paused, t, pushed);
    assert Switch(rt, t).fibers == e.fibers;
  }

  /** Lemma: `error` marks the running fiber failed and runs its `prev`,
      with `Nil` pushed there; without a `prev` it panics. */
  lemma SetErrorEffect(rt: Rt)
    requires Valid(rt)
    ensures SetError(rt).Panic? <==> rt.fibers[rt.current].prev.None?
    ensures SetError(rt).Done? ==>
      var r := SetError(rt).rt;
      var p := rt.fibers[rt.current].prev.value;
      && r.current == p
      && (p != rt.current ==> r.fibers[rt.current].state == FiberState.Error)
      && r.fibers[p].state == Running
      && (p != rt.current ==> r.fibers[p].stack == rt.fibers[p].stack + [Nil])
      && (forall g :: g in rt.fibers && g != rt.current && g != p ==> r.fibers[g] == rt.fibers[g])
      && Valid(r)
  {
    var rt1 := Drop(rt);
    ValidWithStack(rt, Stack(rt1));
    var l := Leave(rt1, FiberState.Error);
    if l.fibers[l.current].prev.Some? {
      var p := l.fibers[l.current].prev.value;
      var e := Enter(l, p, l.fibers[p]);
      HandOverValid(rt1, FiberState.Error, p, l.fibers[p]);
      ValidWithStack(e, Stack(e) + [Nil]);
    }
  }

  /** Lemma: `check` succeeds exactly when the value on top is a live
      fiber, and then pushes whether that fiber has not failed, in place of
      it and the callee, keeping the discipline. */
  lemma CheckResult(rt: Rt)
    requires Valid(rt)
    ensures var st := Stack(rt);
      Check(rt).Done? <==> |st| > 0 && st[|st| - 1].Fiber? && st[|st| - 1].fiber in rt.fibers
    ensures Check(rt).Done? ==>
      var st := Stack(rt);
      var r := Check(rt).rt;
      && Stack(r) == Stack(Drop(WithStack(rt, st[..|st| - 1]))) + [Bool(rt.fibers[st[|st| - 1].fiber].state != FiberState.Error)]
      && r.fibers.Keys == rt.fibers.Keys
      && Valid(r)
  {
    if PopFiber(rt).Some? {
      var (rt1, t) := PopFiber(rt).value;
      PopFiberValid(rt);
      ValidWithStack(rt1, Stack(rt1) + [Bool(rt1.fibers[t].state != FiberState.Error)]);
    }
  }

  /** Lemma: `resumable` succeeds exactly when the value on top is a live
      fiber, and then pushes whether that fiber is `Paused` or `Initial`,
      in place of it and the callee, keeping the discipline. */
  lemma ResumableResult(rt: Rt)
    requires Valid(rt)
    ensures var st := Stack(rt);
      IsResumable(rt).Done? <==> |st| > 0 && st[|st| - 1].Fiber? && st[|st| - 1].fiber in rt.fibers
    ensures IsResumable(rt).Done? ==>
      var st := Stack(rt);
      var f := rt.fibers[st[|st| - 1].fiber];
      var r := IsResumable(rt).rt;
      && Stack(r) == Stack(Drop(WithStack(rt, st[..|st| - 1]))) + [Bool(f.state == Paused || f.state == Initial)]
      && r.fibers.Keys == rt.fibers.Keys
      && Valid(r)
  {
    if PopFiber(rt).Some? {
      var (rt1, t) := PopFiber(rt).value;
      PopFiberValid(rt);
      ValidWithStack(rt1, Stack(rt1) + [Bool(CanResume(rt1.fibers[t].state))]);
    }
  }
}
