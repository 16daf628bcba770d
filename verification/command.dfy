/** The command pattern: a remote control (the invoker) with three buttons,
    each bound to a reversible command on a car (the receiver), and a LIFO
    history of executed commands that `Undo` unwinds.

    The car keeps no state; all it does is report actions, so the receiver is
    modelled by the sequence of effects it produces. */
module Command {
  import opened Wrappers
  import opened Seqs

  /** What the car reports for each of its primitive operations. */
  datatype CarAction = EngineOn | EngineOff | MovedLeft | MovedRight | DoorsLocked | DoorsUnlocked

  /** The semantic inverse of each car action, defined independently of the
      commands so that the commands' pairs can be checked against it. */
  function Opposite(a: CarAction): CarAction
  {
    match a
    case EngineOn => EngineOff
    case EngineOff => EngineOn
    case MovedLeft => MovedRight
    case MovedRight => MovedLeft
    case DoorsLocked => DoorsUnlocked
    case DoorsUnlocked => DoorsLocked
  }

  /** The three concrete commands. Each holds a non-owning pointer to the one
      car, which the model leaves implicit. */
  datatype Cmd = TurnCarOn | MoveCarLeft | LockCarDoors

  /** The actions that make a change: starting, moving left, locking. */
  predicate IsForward(a: CarAction)
  {
    a == EngineOn || a == MovedLeft || a == DoorsLocked
  }

  /** The car action performed by `execute`: always a forward action. */
  function Execute(c: Cmd): (a: CarAction)
    ensures IsForward(a)
  {
    match c
    case TurnCarOn => EngineOn
    case MoveCarLeft => MovedLeft
    case LockCarDoors => DoorsLocked
  }

  /** The car action performed by `unexecute`: never a forward action, and
      exactly the opposite of what `execute` does for the same command. */
  function Unexecute(c: Cmd): (a: CarAction)
    ensures !IsForward(a)
    ensures Opposite(a) == Execute(c)
  {
    match c
    case TurnCarOn => EngineOff
    case MoveCarLeft => MovedRight
    case LockCarDoors => DoorsUnlocked
  }

  /** Every command's `unexecute` is the inverse of its `execute`, and the two
      differ, so each command is a genuine forward/inverse pair. */
  lemma UnexecuteInvertsExecute(c: Cmd)
    ensures Unexecute(c) == Opposite(Execute(c))
    ensures Execute(c) == Opposite(Unexecute(c))
    ensures Execute(c) != Unexecute(c)
  {
  }

  /** Distinct commands drive distinct car actions, forward and backward. */
  lemma CommandsAreDistinguishable(c: Cmd, d: Cmd)
    ensures Execute(c) == Execute(d) <==> c == d
    ensures Unexecute(c) == Unexecute(d) <==> c == d
  {
  }

  /** Something the system makes observable: either a car action or the
      remote's "nothing left to undo" message. */
  datatype Effect = Car(action: CarAction) | NoCommandsLeft

  /** The buttons of `RemoteControlA`. */
  datatype Button = A | B | C

  /** `RemoteControlA`: three possibly-unbound buttons and the command stack,
      whose top is the LAST element of `history`. */
  datatype Remote = Remote(buttonA: Option<Cmd>, buttonB: Option<Cmd>, buttonC: Option<Cmd>, history: seq<Cmd>)
  {
    /** The command bound to button `b`, if any. */
    function Slot(b: Button): Option<Cmd>
    {
      match b
      case A => buttonA
      case B => buttonB
      case C => buttonC
    }
  }

  /** The remote together with everything observed so far. */
  datatype State = State(remote: Remote, trace: seq<Effect>)

  /** A freshly constructed remote: no button bound, empty stack, nothing observed. */
  function Init(): (s: State)
    ensures forall b: Button :: s.remote.Slot(b) == None
    ensures s.remote.history == [] && s.trace == []
  {
    State(Remote(None, None, None, []), [])
  }

  /** True when the two remotes bind every button alike. */
  predicate SameSlots(r: Remote, r': Remote)
  {
    r.buttonA == r'.buttonA && r.buttonB == r'.buttonB && r.buttonC == r'.buttonC
  }

  /** `setButtonA/B/C`: bind `cmd` (possibly null) to button `b`, releasing
      whatever was bound there before. */
  function SetButton(s: State, b: Button, cmd: Option<Cmd>): (r: State)
    ensures r.remote.Slot(b) == cmd
    ensures forall other: Button :: other != b ==> r.remote.Slot(other) == s.remote.Slot(other)
    ensures r.remote.history == s.remote.history
    ensures r.trace == s.trace
  {
    match b
    case A => s.(remote := s.remote.(buttonA := cmd))
    case B => s.(remote := s.remote.(buttonB := cmd))
    case C => s.(remote := s.remote.(buttonC := cmd))
  }

  /** `pressButtonA/B/C`: run the bound command's `execute`, then push that
      command. The button must be bound: the source dereferences the stored
      pointer without a check. */
  function Press(s: State, b: Button): (r: State)
    requires s.remote.Slot(b).Some?
    ensures SameSlots(r.remote, s.remote)
    ensures r.remote.history == s.remote.history + [s.remote.Slot(b).value]
    ensures |r.remote.history| == |s.remote.history| + 1
    ensures r.trace == s.trace + [Car(Execute(s.remote.Slot(b).value))]
  {
    var cmd := s.remote.Slot(b).value;
    State(s.remote.(history := s.remote.history + [cmd]), s.trace + [Car(Execute(cmd))])
  }

  /** `undoLastCommand`: on a non-empty stack run the top command's
      `unexecute` and pop it; on an empty stack only report that there is
      nothing to undo. */
  function Undo(s: State): (r: State)
    ensures SameSlots(r.remote, s.remote)
    ensures s.remote.history != [] ==>
      && r.remote.history == s.remote.history[..|s.remote.history| - 1]
      && r.trace == s.trace + [Car(Unexecute(s.remote.history[|s.remote.history| - 1]))]
    ensures s.remote.history == [] ==>
      && r.remote.history == []
      && r.trace == s.trace + [NoCommandsLeft]
  {
    var h := s.remote.history;
    if h != [] then
      State(s.remote.(history := h[..|h| - 1]), s.trace + [Car(Unexecute(h[|h| - 1]))])
    else
      State(s.remote, s.trace + [NoCommandsLeft])
  }

  /** Undo on an empty stack changes neither the remote nor the car: the only
      observable is the "nothing to undo" message. */
  lemma UndoOnEmptyHistory(s: State)
    requires s.remote.history == []
    ensures Undo(s).remote == s.remote
    ensures Undo(s).trace == s.trace + [NoCommandsLeft]
    ensures forall i :: |s.trace| <= i < |Undo(s).trace| ==> !Undo(s).trace[i].Car?
  {
  }

  /** Press followed by undo restores the remote exactly and leaves the car
      having performed an action and then its inverse. */
  lemma PressThenUndo(s: State, b: Button)
    requires s.remote.Slot(b).Some?
    ensures Undo(Press(s, b)).remote == s.remote
    ensures Undo(Press(s, b)).trace
         == s.trace + [Car(Execute(s.remote.Slot(b).value)), Car(Opposite(Execute(s.remote.Slot(b).value)))]
  {
    var p := Press(s, b);
    assert p.remote.history[..|p.remote.history| - 1] == s.remote.history;
    UnexecuteInvertsExecute(s.remote.Slot(b).value);
  }

  /** True when every button in `bs` is bound on `r`. */
  predicate AllBound(r: Remote, bs: seq<Button>)
  {
    forall b :: b in bs ==> r.Slot(b).Some?
  }

  /** The commands bound to the buttons `bs`, in order. */
  function Bound(r: Remote, bs: seq<Button>): (cmds: seq<Cmd>)
    requires AllBound(r, bs)
    ensures |cmds| == |bs|
  {
    if bs == [] then [] else [r.Slot(bs[0]).value] + Bound(r, bs[1..])
  }

  /** The effects of executing `cmds` in order. */
  function Forward(cmds: seq<Cmd>): (es: seq<Effect>)
    ensures |es| == |cmds|
  {
    if cmds == [] then [] else [Car(Execute(cmds[0]))] + Forward(cmds[1..])
  }

  /** The effects of unexecuting the commands of stack `cmds` from its top
      down: the last command first. */
  function Backward(cmds: seq<Cmd>): (es: seq<Effect>)
    ensures |es| == |cmds|
  {
    if cmds == [] then [] else [Car(Unexecute(cmds[|cmds| - 1]))] + Backward(cmds[..|cmds| - 1])
  }

  /** The i-th effect of `Backward` undoes the i-th command counted from
      the top of the stack. */
  lemma {:induction false} BackwardAt(cmds: seq<Cmd>, i: nat)
    requires i < |cmds|
    ensures Backward(cmds)[i] == Car(Unexecute(cmds[|cmds| - 1 - i]))
  {
    var init := cmds[..|cmds| - 1];
    assert Backward(cmds) == [Car(Unexecute(cmds[|cmds| - 1]))] + Backward(init);
    if i > 0 {
      BackwardAt(init, i - 1);
    }
  }

  /** `Backward` is the inverse actions in reverse order: its i-th effect
      undoes the i-th command counted from the top of the stack. */
  lemma BackwardIsReversed(cmds: seq<Cmd>)
    ensures forall i :: 0 <= i < |cmds| ==> Backward(cmds)[i] == Car(Unexecute(cmds[|cmds| - 1 - i]))
  {
    forall i | 0 <= i < |cmds| {
      BackwardAt(cmds, i);
    }
  }

  /** Remotes that bind every button alike bind any button sequence to the
      same commands. */
  lemma {:induction false} BoundDependsOnSlotsOnly(r: Remote, r': Remote, bs: seq<Button>)
    requires SameSlots(r, r') && AllBound(r, bs)
    ensures AllBound(r', bs)
    ensures Bound(r', bs) == Bound(r, bs)
  {
    assert forall b: Button :: r.Slot(b) == r'.Slot(b);
    if bs != [] {
      BoundDependsOnSlotsOnly(r, r', bs[1..]);
    }
  }

  /** Executing a first command and then `cmds` is that command's action
      followed by the actions of `cmds`. */
  lemma ForwardCons(c: Cmd, cmds: seq<Cmd>)
    ensures Forward([c] + cmds) == [Car(Execute(c))] + Forward(cmds)
  {
    assert ([c] + cmds)[1..] == cmds;
  }

  /** Press the buttons `bs` one after another. */
  function PressAll(s: State, bs: seq<Button>): (r: State)
    requires AllBound(s.remote, bs)
    ensures SameSlots(r.remote, s.remote)
    ensures r.remote.history == s.remote.history + Bound(s.remote, bs)
    ensures r.trace == s.trace + Forward(Bound(s.remote, bs))
    decreases |bs|
  {
    if bs == [] then s
    else
      var c := s.remote.Slot(bs[0]).value;
      var s' := Press(s, bs[0]);
      BoundDependsOnSlotsOnly(s.remote, s'.remote, bs[1..]);
      ForwardCons(c, Bound(s.remote, bs[1..]));
      ConcatAssoc(s.remote.history, [c], Bound(s.remote, bs[1..]));
      ConcatAssoc(s.trace, [Car(Execute(c))], Forward(Bound(s.remote, bs[1..])));
      PressAll(s', bs[1..])
  }

  /** The buttons `b, b, ..., b` (n of them) are bound to n copies of `b`'s command. */
  lemma {:induction false} BoundRepeated(r: Remote, b: Button, n: nat)
    requires r.Slot(b).Some?
    ensures AllBound(r, seq(n, _ => b))
    ensures Bound(r, seq(n, _ => b)) == seq(n, _ => r.Slot(b).value)
  {
    if n > 0 {
      assert seq(n, _ => b)[1..] == seq(n - 1, _ => b);
      BoundRepeated(r, b, n - 1);
      assert seq(n, _ => r.Slot(b).value) == [r.Slot(b).value] + seq(n - 1, _ => r.Slot(b).value);
    }
  }

  /** Pressing one button n times pushes n copies of its command: the remote
      neither merges nor refuses repeated presses. */
  lemma RepeatedPressPushesCopies(s: State, b: Button, n: nat)
    requires s.remote.Slot(b).Some?
    ensures AllBound(s.remote, seq(n, _ => b))
    ensures PressAll(s, seq(n, _ => b)).remote.history
         == s.remote.history + seq(n, _ => s.remote.Slot(b).value)
    ensures |PressAll(s, seq(n, _ => b)).remote.history| == |s.remote.history| + n
  {
    BoundRepeated(s.remote, b, n);
  }

  /** Unwinding the top n entries of `h` reports the top entry first and
      then unwinds the top n - 1 entries of what remains. */
  lemma BackwardSuffixStep(h: seq<Cmd>, n: nat)
    requires 0 < n <= |h|
    ensures Backward(h[|h| - n..]) == [Car(Unexecute(h[|h| - 1]))] + Backward(h[..|h| - 1][|h| - n..])
  {
    var t := h[|h| - n..];
    assert t[|t| - 1] == h[|h| - 1];
    assert t[..|t| - 1] == h[..|h| - 1][|h| - n..];
  }

  /** `r` is what `n` undos leave of `s`: the top n entries are popped and
      their inverses reported top-first; undos beyond the bottom of the stack
      each report that nothing is left. */
  predicate UnwoundBy(s: State, n: nat, r: State)
  {
    var h := s.remote.history;
    && SameSlots(r.remote, s.remote)
    && (n <= |h| ==>
         && r.remote.history == h[..|h| - n]
         && r.trace == s.trace + Backward(h[|h| - n..]))
    && (n > |h| ==>
         && r.remote.history == []
         && r.trace == s.trace + Backward(h) + seq(n - |h|, _ => NoCommandsLeft))
  }

  /** One undo on an empty stack followed by n - 1 more is n undos. */
  lemma UnwoundByStepEmpty(s: State, n: nat, r: State)
    requires n > 0 && s.remote.history == [] && UnwoundBy(Undo(s), n - 1, r)
    ensures UnwoundBy(s, n, r)
  {
    assert seq(n, _ => NoCommandsLeft) == [NoCommandsLeft] + seq(n - 1, _ => NoCommandsLeft);
    ConcatAssoc(s.trace, [NoCommandsLeft], seq(n - 1, _ => NoCommandsLeft));
  }

  /** One undo followed by n - 1 more, all within the stack, is n undos. */
  lemma UnwoundByStepWithin(s: State, n: nat, r: State)
    requires 0 < n <= |s.remote.history| && UnwoundBy(Undo(s), n - 1, r)
    ensures UnwoundBy(s, n, r)
  {
    var h := s.remote.history;
    BackwardSuffixStep(h, n);
    assert h[..|h| - 1][..|h| - n] == h[..|h| - n];
    ConcatAssoc(s.trace, [Car(Unexecute(h[|h| - 1]))], Backward(h[..|h| - 1][|h| - n..]));
  }

  /** One undo on a non-empty stack followed by n - 1 more that run past its
      bottom is n undos. */
  lemma UnwoundByStepBeyond(s: State, n: nat, r: State)
    requires 0 < |s.remote.history| < n && UnwoundBy(Undo(s), n - 1, r)
    ensures UnwoundBy(s, n, r)
  {
    var h := s.remote.history;
    ConcatAssoc(s.trace, [Car(Unexecute(h[|h| - 1]))], Backward(h[..|h| - 1]));
  }

  /** One undo followed by n - 1 more is n undos. */
  lemma UnwoundByStep(s: State, n: nat, r: State)
    requires n > 0 && UnwoundBy(Undo(s), n - 1, r)
    ensures UnwoundBy(s, n, r)
  {
    if s.remote.history == [] {
      UnwoundByStepEmpty(s, n, r);
    } else if n <= |s.remote.history| {
      UnwoundByStepWithin(s, n, r);
    } else {
      UnwoundByStepBeyond(s, n, r);
    }
  }

  /** Undo `n` times in a row. */
  function UndoN(s: State, n: nat): (r: State)
    ensures SameSlots(r.remote, s.remote)
    ensures n <= |s.remote.history| ==>
      && r.remote.history == s.remote.history[..|s.remote.history| - n]
      && r.trace == s.trace + Backward(s.remote.history[|s.remote.history| - n..])
    ensures n > |s.remote.history| ==>
      && r.remote.history == []
      && r.trace == s.trace + Backward(s.remote.history) + seq(n - |s.remote.history|, _ => NoCommandsLeft)
    decreases n
  {
    if n == 0 then
      assert s.remote.history[|s.remote.history|..] == [];
      s
    else
      var r := UndoN(Undo(s), n - 1);
      UnwoundByStep(s, n, r);
      r
  }

  /** LIFO: after pressing the bound buttons P1..Pn, n undos report the
      inverse actions of Pn..P1 in that order and restore the remote exactly,
      stack included. */
  lemma PressesThenUndosUnwind(s: State, bs: seq<Button>)
    requires AllBound(s.remote, bs)
    ensures UndoN(PressAll(s, bs), |bs|).remote == s.remote
    ensures UndoN(PressAll(s, bs), |bs|).trace
         == s.trace + Forward(Bound(s.remote, bs)) + Backward(Bound(s.remote, bs))
  {
    var p := PressAll(s, bs);
    var h := s.remote.history;
    var cmds := Bound(s.remote, bs);
    assert p.remote.history[..|p.remote.history| - |bs|] == h;
    assert p.remote.history[|p.remote.history| - |bs|..] == cmds;
  }

  /** The demonstration wiring: engine on/off on A, left/right on B and
      lock/unlock on C. Pressing A then B and undoing three times turns the
      engine on, moves left, moves back right, turns the engine off, and then
      finds nothing left to undo. */
  lemma UndoScenario()
    ensures
      var s := SetButton(SetButton(SetButton(Init(), A, Some(TurnCarOn)), B, Some(MoveCarLeft)), C, Some(LockCarDoors));
      UndoN(Press(Press(s, A), B), 3).trace
        == [Car(EngineOn), Car(MovedLeft), Car(MovedRight), Car(EngineOff), NoCommandsLeft]
  {
    var s := SetButton(SetButton(SetButton(Init(), A, Some(TurnCarOn)), B, Some(MoveCarLeft)), C, Some(LockCarDoors));
    var p := Press(Press(s, A), B);
    assert p.remote.history == [TurnCarOn, MoveCarLeft];
    assert p.trace == [Car(EngineOn), Car(MovedLeft)];
    assert Backward([TurnCarOn, MoveCarLeft]) == [Car(MovedRight), Car(EngineOff)];
  }
}
