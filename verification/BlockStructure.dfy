/**
 Nested if/while programs and their recursive meaning, and the proof that the
 flat command loop of mysqltest computes it.
 */
module BlockStructure {
  import opened Wrappers
  import opened BlockMachine

  /** A sequence of commands with properly nested blocks. */
  datatype Code =
    | Done
    | Do(text: string, rest: Code)
    | Quit(rest: Code)
    | Block(kind: BlockCmd, cond: string, negated: bool, body: Code, rest: Code)

  function Flatten(c: Code): seq<Command> {
    match c
    case Done => []
    case Do(text, rest) => [Act(text)] + Flatten(rest)
    case Quit(rest) => [Exit] + Flatten(rest)
    case Block(kind, cond, negated, body, rest) =>
      [Open(kind, cond, negated)] + Flatten(body) + [End] + Flatten(rest)
  }

  /** The number of commands of c. */
  function Lines(c: Code): nat {
    match c
    case Done => 0
    case Do(_, rest) => 1 + Lines(rest)
    case Quit(rest) => 1 + Lines(rest)
    case Block(_, _, _, body, rest) => 2 + Lines(body) + Lines(rest)
  }

  function Max(a: nat, b: nat): nat {
    if a > b then a else b
  }

  function Nesting(c: Code): nat {
    match c
    case Done => 0
    case Do(_, rest) => Nesting(rest)
    case Quit(rest) => Nesting(rest)
    case Block(_, _, _, body, rest) => Max(1 + Nesting(body), Nesting(rest))
  }

  datatype Result<+E> = Fin(env: E) | Exited(env: E) | Dead | OutOfFuel

  /** The recursive meaning; fuel bounds the loop iterations. */
  function Exec<E>(eng: Engine<E>, c: Code, e: E, fuel: nat): Result<E>
    decreases fuel, c
  {
    match c
    case Done => Fin(e)
    case Do(text, rest) => (
      match eng.exec(text, e)
      case None => Dead
      case Some(e') => Exec(eng, rest, e', fuel)
    )
    case Quit(_) => Exited(e)
    case Block(kind, cond, negated, body, rest) => (
      match eng.eval(cond, e)
      case None => Dead
      case Some((v, e')) =>
        if v == negated then Exec(eng, rest, e', fuel)
        else
          match Exec(eng, body, e', fuel)
          case Fin(e'') =>
            if kind != CmdWhile then Exec(eng, rest, e'', fuel)
            else if fuel == 0 then OutOfFuel
            else Exec(eng, c, e'', fuel - 1)
          case r => r
    )
  }

  // --- a segment of the command list ---

  /** The commands of c stand at line `at`. */
  predicate Segment(prog: seq<Command>, at: nat, c: Code)
    decreases c
  {
    match c
    case Done => at <= |prog|
    case Do(text, rest) => at < |prog| && prog[at] == Act(text) && Segment(prog, at + 1, rest)
    case Quit(rest) => at < |prog| && prog[at] == Exit && Segment(prog, at + 1, rest)
    case Block(kind, cond, negated, body, rest) =>
      && at < |prog| && prog[at] == Open(kind, cond, negated)
      && Segment(prog, at + 1, body)
      && at + 1 + Lines(body) < |prog| && prog[at + 1 + Lines(body)] == End
      && Segment(prog, at + 2 + Lines(body), rest)
  }

  ghost predicate StandsAt(prog: seq<Command>, at: nat, f: seq<Command>) {
    at + |f| <= |prog| && forall k :: 0 <= k < |f| ==> prog[at + k] == f[k]
  }

  lemma StandsAtParts(prog: seq<Command>, at: nat, x: seq<Command>, y: seq<Command>)
    requires StandsAt(prog, at, x + y)
    ensures StandsAt(prog, at, x) && StandsAt(prog, at + |x|, y)
  {
    forall k | 0 <= k < |y|
      ensures prog[at + |x| + k] == y[k]
    {
      assert (x + y)[|x| + k] == y[k];
      assert prog[at + (|x| + k)] == (x + y)[|x| + k];
    }
    forall k | 0 <= k < |x|
      ensures prog[at + k] == x[k]
    {
      assert (x + y)[k] == x[k];
    }
  }

  lemma {:induction false} FlattenIsSegment(prog: seq<Command>, at: nat, c: Code)
    requires StandsAt(prog, at, Flatten(c))
    ensures |Flatten(c)| == Lines(c) && Segment(prog, at, c)
    decreases c
  {
    match c
    case Done =>
    case Do(text, rest) =>
      StandsAtParts(prog, at, [Act(text)], Flatten(rest));
      FlattenIsSegment(prog, at + 1, rest);
      assert prog[at + 0] == [Act(text)][0];
    case Quit(rest) =>
      StandsAtParts(prog, at, [Exit], Flatten(rest));
      FlattenIsSegment(prog, at + 1, rest);
      assert prog[at + 0] == [Exit][0];
    case Block(kind, cond, negated, body, rest) =>
      FlattenBlockIsSegment(prog, at, c);
  }

  lemma {:induction false} FlattenBlockIsSegment(prog: seq<Command>, at: nat, c: Code)
    requires StandsAt(prog, at, Flatten(c)) && c.Block?
    ensures |Flatten(c)| == Lines(c) && Segment(prog, at, c)
    decreases c, 0
  {
    var open, b := [Open(c.kind, c.cond, c.negated)], Flatten(c.body);
    StandsAtParts(prog, at, open + b + [End], Flatten(c.rest));
    StandsAtParts(prog, at, open + b, [End]);
    StandsAtParts(prog, at, open, b);
    FlattenIsSegment(prog, at + 1, c.body);
    FlattenIsSegment(prog, at + 2 + |b|, c.rest);
    assert prog[at + 0] == open[0] && prog[at + 1 + |b| + 0] == [End][0];
  }

  /** The frames below the current one are untouched, the current one up to its line. */
  ghost predicate SameBelow<E>(m: Machine<E>, m': Machine<E>)
    requires Sized(m) && Sized(m')
  {
    && m'.cur == m.cur
    && (forall i :: 0 <= i < m.cur ==> m'.blocks[i] == m.blocks[i])
    && m'.blocks[m.cur].ok == m.blocks[m.cur].ok
    && m'.blocks[m.cur].cmd == m.blocks[m.cur].cmd
  }

  /** m' has come from m to line `at`, at the same level, with environment e. */
  ghost predicate Reaches<E>(eng: Engine<E>, prog: seq<Command>, m: Machine<E>, n: nat, at: nat, e: E)
    requires Sized(m)
  {
    var s := Run(eng, prog, m, n);
    && s.Running? && Shape(prog, s.m) && SameBelow(m, s.m) && !s.m.abort
    && s.m.current == at && s.m.env == e
  }

  lemma ReachesTrans<E>(eng: Engine<E>, prog: seq<Command>, m: Machine<E>, n: nat, at: nat, e: E, k: nat, at': nat,
                        e': E)
    requires Sized(m) && Reaches(eng, prog, m, n, at, e)
    requires Reaches(eng, prog, Run(eng, prog, m, n).m, k, at', e')
    ensures Reaches(eng, prog, m, n + k, at', e')
  {
    RunAdd(eng, prog, m, n, k);
  }

  /** One turn over a command that is not a block. */
  lemma OneTurn<E>(eng: Engine<E>, prog: seq<Command>, m: Machine<E>)
    requires Sized(m)
    ensures Run(eng, prog, m, 1) == Step(eng, prog, m)
  {
    if Step(eng, prog, m).Running? {
      assert Run(eng, prog, Step(eng, prog, m).m, 0) == Step(eng, prog, m);
    }
  }

  /** The machine inside the block that starts at m's current line. */
  ghost predicate Entered<E>(m: Machine<E>, m1: Machine<E>, kind: BlockCmd, ok: bool)
    requires Sized(m) && m.cur + 1 < STACK_SIZE && Sized(m1)
  {
    && m1.cur == m.cur + 1 && m1.current == m.current + 1 && !m1.abort
    && (forall i :: 0 <= i < m.cur ==> m1.blocks[i] == m.blocks[i])
    && m1.blocks[m.cur] == m.blocks[m.cur].(line := m.current)
    && m1.blocks[m1.cur].ok == ok && m1.blocks[m1.cur].cmd == kind
  }

  /** The turn at the end of a block: back to the opening line, or on to the next one. */
  lemma EndTurn<E>(eng: Engine<E>, prog: seq<Command>, m: Machine<E>, t: Machine<E>)
    requires Shape(prog, m) && Shape(prog, t) && m.cur + 1 < STACK_SIZE && t.cur == m.cur + 1 && !t.abort
    requires t.current < |prog| && prog[t.current] == End
    requires forall i :: 0 <= i < m.cur ==> t.blocks[i] == m.blocks[i]
    requires t.blocks[m.cur] == m.blocks[m.cur].(line := m.current) && m.current <= t.current
    ensures var s := Step(eng, prog, t);
            && s.Running? && Shape(prog, s.m) && SameBelow(m, s.m) && !s.m.abort && s.m.env == t.env
            && s.m.current == if t.blocks[t.cur].cmd == CmdWhile && t.blocks[t.cur].ok then m.current else t.current + 1
  {
  }

  /** One turn, k turns, one turn. */
  lemma RunAround<E>(eng: Engine<E>, prog: seq<Command>, m: Machine<E>, m1: Machine<E>, k: nat, t: Machine<E>)
    requires Sized(m) && Sized(m1) && Sized(t)
    requires Run(eng, prog, m, 1) == Running(m1) && Run(eng, prog, m1, k) == Running(t)
    ensures Run(eng, prog, m, 1 + k + 1) == Step(eng, prog, t)
  {
    RunAdd(eng, prog, m, 1, k);
    OneMore(eng, prog, m, 1 + k, t);
  }

  lemma OneMore<E>(eng: Engine<E>, prog: seq<Command>, m: Machine<E>, n: nat, t: Machine<E>)
    requires Sized(m) && Run(eng, prog, m, n) == Running(t)
    ensures Run(eng, prog, m, n + 1) == Step(eng, prog, t)
  {
    RunAdd(eng, prog, m, n, 1);
    OneTurn(eng, prog, t);
  }

  /** From inside the block, through its body and its end. */
  lemma LeaveBlock<E>(eng: Engine<E>, prog: seq<Command>, m: Machine<E>, c: Code, m1: Machine<E>, k: nat, e: E)
    requires Shape(prog, m) && c.Block? && Segment(prog, m.current, c) && m.cur + 1 < STACK_SIZE
    requires Sized(m1) && Entered(m, m1, c.kind, m1.blocks[m1.cur].ok) && Run(eng, prog, m, 1) == Running(m1)
    requires Reaches(eng, prog, m1, k, m.current + 1 + Lines(c.body), e)
    ensures Reaches(eng, prog, m, 1 + k + 1,
                    if c.kind == CmdWhile && m1.blocks[m1.cur].ok then m.current else m.current + 2 + Lines(c.body), e)
  {
    var t := Run(eng, prog, m1, k).m;
    RunAround(eng, prog, m, m1, k, t);
    EndTurn(eng, prog, m, t);
  }

  lemma EnterSkipped<E>(eng: Engine<E>, prog: seq<Command>, m: Machine<E>, c: Code) returns (m1: Machine<E>)
    requires Shape(prog, m) && c.Block? && Segment(prog, m.current, c) && m.cur + 1 < STACK_SIZE
    requires !m.blocks[m.cur].ok && !m.abort
    ensures Shape(prog, m1) && Run(eng, prog, m, 1) == Running(m1) && Entered(m, m1, c.kind, false) && m1.env == m.env
  {
    OneTurn(eng, prog, m);
    m1 := Step(eng, prog, m).m;
  }

  lemma PassSkipped<E>(eng: Engine<E>, prog: seq<Command>, m: Machine<E>, c: Code)
    requires Shape(prog, m) && !c.Block? && !c.Done? && Segment(prog, m.current, c)
    requires !m.blocks[m.cur].ok && !m.abort
    ensures Reaches(eng, prog, m, 1, m.current + 1, m.env)
  {
    OneTurn(eng, prog, m);
  }

  /** The line after the first command or block of c. */
  function AfterFirst(at: nat, c: Code): nat
    requires !c.Done?
  {
    if c.Block? then at + 2 + Lines(c.body) else at + 1
  }

  lemma {:induction false} SkipFirst<E>(eng: Engine<E>, prog: seq<Command>, m: Machine<E>, c: Code) returns (n: nat)
    requires Shape(prog, m) && Segment(prog, m.current, c) && m.cur + Nesting(c) < STACK_SIZE && !c.Done?
    requires !m.blocks[m.cur].ok && !m.abort
    ensures Reaches(eng, prog, m, n, AfterFirst(m.current, c), m.env)
    decreases c, 0
  {
    if c.Block? {
      var m1 := EnterSkipped(eng, prog, m, c);
      var k := SkipSegment(eng, prog, m1, c.body);
      LeaveBlock(eng, prog, m, c, m1, k, m.env);
      n := 1 + k + 1;
    } else {
      PassSkipped(eng, prog, m, c);
      n := 1;
    }
  }

  /** A block that is not ok is passed over without any effect. */
  lemma {:induction false} SkipSegment<E>(eng: Engine<E>, prog: seq<Command>, m: Machine<E>, c: Code) returns (n: nat)
    requires Shape(prog, m) && Segment(prog, m.current, c) && m.cur + Nesting(c) < STACK_SIZE
    requires !m.blocks[m.cur].ok && !m.abort
    ensures Reaches(eng, prog, m, n, m.current + Lines(c), m.env)
    decreases c, 1
  {
    if c.Done? {
      n := 0;
    } else {
      n := SkipFirst(eng, prog, m, c);
      n := SkipRest(eng, prog, m, c, n);
    }
  }

  lemma {:induction false} SkipRest<E>(eng: Engine<E>, prog: seq<Command>, m: Machine<E>, c: Code, n: nat)
    returns (k: nat)
    requires Shape(prog, m) && Segment(prog, m.current, c) && m.cur + Nesting(c) < STACK_SIZE && !c.Done?
    requires !m.blocks[m.cur].ok && Reaches(eng, prog, m, n, AfterFirst(m.current, c), m.env)
    ensures Reaches(eng, prog, m, k, m.current + Lines(c), m.env)
    decreases c.rest, 2
  {
    var m2 := Run(eng, prog, m, n).m;
    k := SkipSegment(eng, prog, m2, c.rest);
    ReachesTrans(eng, prog, m, n, m2.current, m.env, k, m.current + Lines(c), m.env);
    k := n + k;
  }

  /** An exit was executed on a line before `end`; inside a block the block's end is still to come. */
  ghost predicate Stops<E>(eng: Engine<E>, prog: seq<Command>, m: Machine<E>, n: nat, end: nat, e: E)
    requires Sized(m)
  {
    var s := Run(eng, prog, m, n);
    && s.Running? && Shape(prog, s.m) && s.m.abort && s.m.env == e
    && m.cur <= s.m.cur && s.m.current <= end && (m.cur < s.m.cur ==> s.m.current < end)
  }

  /** The run of n turns from m ends as the recursive meaning says. */
  ghost predicate Agrees<E>(eng: Engine<E>, prog: seq<Command>, m: Machine<E>, n: nat, end: nat, r: Result<E>,
                            fuel: nat)
    requires Sized(m)
  {
    match r
    case Fin(e) => Reaches(eng, prog, m, n, end, e)
    case Exited(e) => Stops(eng, prog, m, n, end, e)
    case Dead => Run(eng, prog, m, n) == Died
    case OutOfFuel => n >= fuel && Run(eng, prog, m, n).Running?
  }

  lemma AgreesTrans<E>(eng: Engine<E>, prog: seq<Command>, m: Machine<E>, n: nat, at: nat, e: E, k: nat, end: nat,
                       r: Result<E>, fuel: nat)
    requires Sized(m) && Reaches(eng, prog, m, n, at, e)
    requires Agrees(eng, prog, Run(eng, prog, m, n).m, k, end, r, fuel)
    ensures Agrees(eng, prog, m, n + k, end, r, n + fuel)
  {
    RunAdd(eng, prog, m, n, k);
  }

  lemma AgreesLess<E>(eng: Engine<E>, prog: seq<Command>, m: Machine<E>, n: nat, end: nat, r: Result<E>, fuel: nat,
                      less: nat)
    requires Sized(m) && Agrees(eng, prog, m, n, end, r, fuel) && less <= fuel
    ensures Agrees(eng, prog, m, n, end, r, less)
  {
  }

  /** A plain command in a block that is ok. */
  lemma ExecCommand<E>(eng: Engine<E>, prog: seq<Command>, m: Machine<E>, c: Code)
    requires Shape(prog, m) && Segment(prog, m.current, c) && c.Do?
    requires m.blocks[m.cur].ok && !m.abort
    ensures match eng.exec(c.text, m.env)
            case None => Run(eng, prog, m, 1) == Died
            case Some(e) => Reaches(eng, prog, m, 1, m.current + 1, e)
  {
    OneTurn(eng, prog, m);
  }

  lemma ExecExit<E>(eng: Engine<E>, prog: seq<Command>, m: Machine<E>, c: Code)
    requires Shape(prog, m) && Segment(prog, m.current, c) && c.Quit?
    requires m.blocks[m.cur].ok && !m.abort
    ensures Stops(eng, prog, m, 1, m.current + Lines(c), m.env)
  {
    OneTurn(eng, prog, m);
  }

  /** The opening command of a block in a block that is ok. */
  lemma EnterBlock<E>(eng: Engine<E>, prog: seq<Command>, m: Machine<E>, c: Code) returns (m1: Machine<E>)
    requires Shape(prog, m) && c.Block? && Segment(prog, m.current, c) && m.cur + 1 < STACK_SIZE
    requires m.blocks[m.cur].ok && !m.abort
    ensures match eng.eval(c.cond, m.env)
            case None => Run(eng, prog, m, 1) == Died
            case Some((v, e)) =>
              && Shape(prog, m1) && Run(eng, prog, m, 1) == Running(m1)
              && Entered(m, m1, c.kind, v != c.negated) && m1.env == e
  {
    OneTurn(eng, prog, m);
    var s := Step(eng, prog, m);
    m1 := if s.Running? then s.m else m;
  }

  /** What happens inside the body happens to the whole block. */
  lemma BodyStops<E>(eng: Engine<E>, prog: seq<Command>, m: Machine<E>, c: Code, m1: Machine<E>, k: nat, r: Result<E>,
                     fuel: nat)
    requires Shape(prog, m) && c.Block? && Segment(prog, m.current, c) && m.cur + 1 < STACK_SIZE
    requires Sized(m1) && m1.cur == m.cur + 1 && Run(eng, prog, m, 1) == Running(m1) && !r.Fin?
    requires Agrees(eng, prog, m1, k, m.current + 1 + Lines(c.body), r, fuel)
    ensures Agrees(eng, prog, m, 1 + k, m.current + Lines(c), r, fuel)
  {
    RunAdd(eng, prog, m, 1, k);
  }

  lemma {:induction false} ExecBlock<E>(eng: Engine<E>, prog: seq<Command>, m: Machine<E>, c: Code, fuel: nat)
    returns (n: nat)
    requires Shape(prog, m) && Segment(prog, m.current, c) && m.cur + Nesting(c) < STACK_SIZE && c.Block?
    requires m.blocks[m.cur].ok && !m.abort
    ensures Agrees(eng, prog, m, n, m.current + Lines(c), Exec(eng, c, m.env, fuel), fuel)
    decreases fuel, c, 1
  {
    var m1 := EnterBlock(eng, prog, m, c);
    match eng.eval(c.cond, m.env)
    case None =>
      n := 1;
    case Some((v, e)) =>
      if v == c.negated {
        var k := SkipSegment(eng, prog, m1, c.body);
        LeaveBlock(eng, prog, m, c, m1, k, e);
        n := ExecRest(eng, prog, m, c, 1 + k + 1, e, fuel);
      } else {
        n := ExecBody(eng, prog, m, c, m1, fuel);
      }
  }

  /** From inside a block whose condition held. */
  lemma {:induction false} ExecBody<E>(eng: Engine<E>, prog: seq<Command>, m: Machine<E>, c: Code, m1: Machine<E>,
                                       fuel: nat)
    returns (n: nat)
    requires Shape(prog, m) && Segment(prog, m.current, c) && m.cur + Nesting(c) < STACK_SIZE && c.Block?
    requires m.blocks[m.cur].ok
    requires Shape(prog, m1) && Run(eng, prog, m, 1) == Running(m1) && Entered(m, m1, c.kind, true)
    ensures var r := Exec(eng, c.body, m1.env, fuel);
            if !r.Fin? then Agrees(eng, prog, m, n, m.current + Lines(c), r, fuel)
            else if c.kind != CmdWhile then
              Agrees(eng, prog, m, n, m.current + Lines(c), Exec(eng, c.rest, r.env, fuel), fuel)
            else if fuel == 0 then Agrees(eng, prog, m, n, m.current + Lines(c), OutOfFuel, 0)
            else Agrees(eng, prog, m, n, m.current + Lines(c), Exec(eng, c, r.env, fuel - 1), fuel)
    decreases fuel, c, 0
  {
    var k := ExecSegment(eng, prog, m1, c.body, fuel);
    var r := Exec(eng, c.body, m1.env, fuel);
    if !r.Fin? {
      BodyStops(eng, prog, m, c, m1, k, r, fuel);
      n := 1 + k;
    } else {
      LeaveBlock(eng, prog, m, c, m1, k, r.env);
      n := 1 + k + 1;
      if c.kind != CmdWhile {
        n := ExecRest(eng, prog, m, c, n, r.env, fuel);
      } else if fuel > 0 {
        n := ExecAgain(eng, prog, m, c, n, r.env, fuel);
      }
    }
  }

  /** Back at the opening line of a while block. */
  lemma {:induction false} ExecAgain<E>(eng: Engine<E>, prog: seq<Command>, m: Machine<E>, c: Code, n: nat, e: E,
                                        fuel: nat)
    returns (k: nat)
    requires Shape(prog, m) && Segment(prog, m.current, c) && m.cur + Nesting(c) < STACK_SIZE && fuel > 0 && n > 0
    requires m.blocks[m.cur].ok && Reaches(eng, prog, m, n, m.current, e)
    ensures Agrees(eng, prog, m, k, m.current + Lines(c), Exec(eng, c, e, fuel - 1), fuel)
    decreases fuel - 1, c, 3
  {
    var m2, end, r := Run(eng, prog, m, n).m, m.current + Lines(c), Exec(eng, c, e, fuel - 1);
    var k2 := ExecSegment(eng, prog, m2, c, fuel - 1);
    assert Agrees(eng, prog, m2, k2, end, r, fuel - 1);
    AgreesTrans(eng, prog, m, n, m.current, e, k2, end, r, fuel - 1);
    k := n + k2;
    AgreesLess(eng, prog, m, k, end, r, n + fuel - 1, fuel);
  }

  /** Having passed the first command or block, go on with the rest. */
  lemma {:induction false} ExecRest<E>(eng: Engine<E>, prog: seq<Command>, m: Machine<E>, c: Code, n: nat, e: E,
                                       fuel: nat)
    returns (k: nat)
    requires Shape(prog, m) && Segment(prog, m.current, c) && m.cur + Nesting(c) < STACK_SIZE && !c.Done?
    requires m.blocks[m.cur].ok
    requires Reaches(eng, prog, m, n, AfterFirst(m.current, c), e)
    ensures Agrees(eng, prog, m, k, m.current + Lines(c), Exec(eng, c.rest, e, fuel), fuel)
    decreases fuel, c.rest, 3
  {
    var m2 := Run(eng, prog, m, n).m;
    var k2 := ExecSegment(eng, prog, m2, c.rest, fuel);
    var end, r := m.current + Lines(c), Exec(eng, c.rest, e, fuel);
    assert Agrees(eng, prog, m2, k2, end, r, fuel);
    AgreesTrans(eng, prog, m, n, m2.current, e, k2, end, r, fuel);
    k := n + k2;
    AgreesLess(eng, prog, m, k, end, r, n + fuel, fuel);
  }

  /** A block that is ok has exactly its recursive meaning. */
  lemma {:induction false} ExecSegment<E>(eng: Engine<E>, prog: seq<Command>, m: Machine<E>, c: Code, fuel: nat)
    returns (n: nat)
    requires Shape(prog, m) && Segment(prog, m.current, c) && m.cur + Nesting(c) < STACK_SIZE
    requires m.blocks[m.cur].ok && !m.abort
    ensures Agrees(eng, prog, m, n, m.current + Lines(c), Exec(eng, c, m.env, fuel), fuel)
    decreases fuel, c, 2
  {
    match c
    case Done =>
      n := if Exec(eng, c, m.env, fuel).OutOfFuel? then fuel else 0;
    case Do(text, rest) =>
      ExecCommand(eng, prog, m, c);
      n := 1;
      if eng.exec(text, m.env).Some? {
        n := ExecRest(eng, prog, m, c, 1, eng.exec(text, m.env).value, fuel);
      }
    case Quit(_) =>
      ExecExit(eng, prog, m, c);
      n := 1;
    case Block(_, _, _, _, _) =>
      n := ExecBlock(eng, prog, m, c, fuel);
  }

  // --- the whole program ---

  /** How a run of the command loop ends, for a result of the recursive meaning. */
  function Ending<E>(r: Result<E>): Status<E>
    requires !r.OutOfFuel?
  {
    match r
    case Fin(e) => Finished(e, false)
    case Exited(e) => Finished(e, true)
    case Dead => Died
  }

  /**
   Refinement: whatever the recursive meaning of a nested program is, the flat
   command loop ends in it; and while the recursive meaning runs out of fuel
   iterations, the loop is still running after that many turns. Blocks may be
   nested 31 deep.
   */
  lemma LoopRefinesMeaning<E>(eng: Engine<E>, c: Code, e: E, fuel: nat) returns (n: nat)
    requires Nesting(c) <= 31
    ensures var r, s := Exec(eng, c, e, fuel), Run(eng, Flatten(c), Initial(e), n);
            if r.OutOfFuel? then n >= fuel && s.Running? else s == Ending(r)
  {
    var prog := Flatten(c);
    var m := Initial(e);
    FlattenIsSegment(prog, 0, c);
    n := ExecSegment(eng, prog, m, c, fuel);
    var r := Exec(eng, c, e, fuel);
    if r.Fin? || r.Exited? {
      OneMore(eng, prog, m, n, Run(eng, prog, m, n).m);
      n := n + 1;
    }
  }

  /** Conversely, when the command loop has ended, the recursive meaning is that ending. */
  lemma MeaningOfEndedLoop<E>(eng: Engine<E>, c: Code, e: E, n: nat)
    requires Nesting(c) <= 31
    requires !Run(eng, Flatten(c), Initial(e), n).Running?
    ensures !Exec(eng, c, e, n).OutOfFuel?
    ensures Run(eng, Flatten(c), Initial(e), n) == Ending(Exec(eng, c, e, n))
  {
    var prog, m := Flatten(c), Initial(e);
    var k := LoopRefinesMeaning(eng, c, e, n);
    if k <= n {
      RunAdd(eng, prog, m, k, n - k);
    } else {
      RunAdd(eng, prog, m, n, k - n);
    }
    if Exec(eng, c, e, n).OutOfFuel? {
      assert false;
    }
  }

  // --- arbitrary command lists ---

  ghost predicate Balanced(prog: seq<Command>) {
    (forall k :: 0 <= k <= |prog| ==> Level(prog, k) >= 0) && Level(prog, |prog|) == 0
  }

  /** Levels within a part of the list, relative to its start. */
  lemma {:induction false} LevelOfPart(prog: seq<Command>, at: nat, part: seq<Command>, k: nat)
    requires at + |part| <= |prog| && prog[at..at + |part|] == part && k <= |part|
    ensures Level(part, k) == Level(prog, at + k) - Level(prog, at)
    decreases k
  {
    if k > 0 {
      LevelOfPart(prog, at, part, k - 1);
      assert part[k - 1] == prog[at + (k - 1)];
    }
  }

  /** The line of the end command that closes a block opened on line 0. */
  lemma FirstReturn(prog: seq<Command>) returns (k: nat)
    requires Balanced(prog) && prog != [] && prog[0].Open?
    ensures 2 <= k <= |prog| && Level(prog, k) == 0 && prog[k - 1] == End
    ensures forall j :: 1 <= j < k ==> Level(prog, j) >= 1
  {
    k := 1;
    assert Level(prog, 0) == 0;
    while Level(prog, k) != 0
      invariant 1 <= k <= |prog|
      invariant forall j :: 1 <= j < k ==> Level(prog, j) >= 1
      decreases |prog| - k
    {
      k := k + 1;
    }
    assert Level(prog, k - 1) >= 1;
  }

  /** A block from its parts. */
  lemma JoinBlock(prog: seq<Command>, k: nat, body: Code, rest: Code) returns (c: Code)
    requires 2 <= k <= |prog| && prog[0].Open? && prog[k - 1] == End
    requires Flatten(body) == prog[1..k - 1] && Flatten(rest) == prog[k..]
    ensures Flatten(c) == prog && Nesting(c) == Max(1 + Nesting(body), Nesting(rest))
  {
    c := Block(prog[0].kind, prog[0].cond, prog[0].negated, body, rest);
    SplitAtBlock(prog, k);
  }

  lemma SplitAtBlock(prog: seq<Command>, k: nat)
    requires 2 <= k <= |prog|
    ensures prog == [prog[0]] + prog[1..k - 1] + [prog[k - 1]] + prog[k..]
  {
    assert prog[..k - 1] == [prog[0]] + prog[1..k - 1];
    assert prog[..k] == prog[..k - 1] + [prog[k - 1]];
    assert prog == prog[..k] + prog[k..];
  }

  lemma JoinSimple(prog: seq<Command>, rest: Code) returns (c: Code)
    requires prog != [] && (prog[0].Act? || prog[0].Exit?) && Flatten(rest) == prog[1..]
    ensures Flatten(c) == prog && Nesting(c) == Nesting(rest)
  {
    c := if prog[0].Act? then Do(prog[0].text, rest) else Quit(rest);
    assert prog == [prog[0]] + prog[1..];
  }

  /** Every balanced command list is a nested program, nested as deep as its levels go. */
  lemma {:induction false} BalancedIsNested(prog: seq<Command>, limit: nat) returns (c: Code)
    requires Balanced(prog) && forall k :: 0 <= k <= |prog| ==> Level(prog, k) <= limit
    ensures Flatten(c) == prog && Nesting(c) <= limit
    decreases |prog|
  {
    if prog == [] {
      c := Done;
      return;
    }
    assert Level(prog, 0) == 0 && Level(prog, 1) >= 0;
    if prog[0].Open? {
      assert 1 == Level(prog, 1) <= limit;
      var k := FirstReturn(prog);
      var body := BalancedPart(prog, 1, k - 1, limit);
      var rest := BalancedPart(prog, k, |prog|, limit);
      assert prog[k..|prog|] == prog[k..];
      c := JoinBlock(prog, k, body, rest);
    } else {
      var rest := BalancedPart(prog, 1, |prog|, limit);
      assert prog[1..|prog|] == prog[1..];
      c := JoinSimple(prog, rest);
    }
  }

  lemma {:induction false} BalancedPart(prog: seq<Command>, lo: nat, hi: nat, limit: nat) returns (c: Code)
    requires 0 < lo <= hi <= |prog| && Level(prog, lo) == Level(prog, hi) <= limit
    requires forall j :: lo <= j <= hi ==> Level(prog, lo) <= Level(prog, j) <= limit
    requires Level(prog, lo) >= 0
    ensures Flatten(c) == prog[lo..hi] && Nesting(c) <= limit - Level(prog, lo)
    decreases |prog|, 0
  {
    var part := prog[lo..hi];
    forall k | 0 <= k <= |part|
      ensures Level(part, k) == Level(prog, lo + k) - Level(prog, lo)
    {
      LevelOfPart(prog, lo, part, k);
    }
    c := BalancedIsNested(part, limit - Level(prog, lo));
  }

  /** In the lines read so far there is no stray end and no nesting too deep. */
  ghost predicate LevelsInRange<E>(prog: seq<Command>, m: Machine<E>) {
    m.read <= |prog| && forall k :: 0 <= k <= m.read ==> 0 <= Level(prog, k) < STACK_SIZE
  }

  lemma {:induction false} RunSeesLevelsInRange<E>(eng: Engine<E>, prog: seq<Command>, m: Machine<E>, n: nat)
    requires Nested(prog, m) && LevelsInRange(prog, m) && Run(eng, prog, m, n).Running?
    ensures LevelsInRange(prog, Run(eng, prog, m, n).m)
    decreases n
  {
    if n > 0 {
      StepKeepsNesting(eng, prog, m);
      RunSeesLevelsInRange(eng, prog, Step(eng, prog, m).m, n - 1);
    }
  }

  lemma LastTurn<E>(eng: Engine<E>, prog: seq<Command>, m: Machine<E>)
    requires Shape(prog, m) && !m.abort && Step(eng, prog, m).Finished?
    ensures m.current == |prog| && m.cur == 0 && Step(eng, prog, m) == Finished(m.env, false)
  {
  }

  /**
   For any command list: if the loop comes to the end of the input without an
   error and without an exit, the list is a nested program within the stack
   limit, and what the loop computed is its recursive meaning.
   */
  lemma FinishedLoopIsMeaning<E>(eng: Engine<E>, prog: seq<Command>, e: E, n: nat) returns (c: Code)
    requires var s := Run(eng, prog, Initial(e), n);
             s.Running? && !s.m.abort && Step(eng, prog, s.m).Finished?
    ensures Flatten(c) == prog && Nesting(c) <= 31
    ensures Exec(eng, c, e, n + 1) == Fin(Run(eng, prog, Initial(e), n).m.env)
  {
    var m := Initial(e);
    InitialNested(prog, e);
    RunKeepsNesting(eng, prog, m, n);
    RunSeesLevelsInRange(eng, prog, m, n);
    var last := Run(eng, prog, m, n).m;
    LastTurn(eng, prog, last);
    c := BalancedIsNested(prog, STACK_SIZE - 1);
    EndedIsMeaning(eng, prog, e, n, c);
  }

  /** As deep as the nesting goes, the levels go. */
  lemma {:induction false} NestingIsLevel(c: Code) returns (k: nat)
    ensures k <= |Flatten(c)| && Level(Flatten(c), k) == Nesting(c)
    ensures Level(Flatten(c), |Flatten(c)|) == 0
    decreases c, 1
  {
    var prog := Flatten(c);
    match c
    case Done =>
      k := 0;
    case Do(_, rest) =>
      k := NestingBehind(prog, 1, rest);
    case Quit(rest) =>
      k := NestingBehind(prog, 1, rest);
    case Block(_, _, _, body, rest) =>
      k := NestingOfBlock(c);
  }

  /** The rest of the list behind a part that opens nothing it does not end. */
  lemma {:induction false} NestingBehind(prog: seq<Command>, at: nat, rest: Code) returns (k: nat)
    requires at <= |prog| && prog[at..] == Flatten(rest) && Level(prog, at) == 0
    ensures k <= |prog| && Level(prog, k) == Nesting(rest) && Level(prog, |prog|) == 0
    decreases rest, 2
  {
    var j := NestingIsLevel(rest);
    LevelOfPart(prog, at, Flatten(rest), j);
    LevelOfPart(prog, at, Flatten(rest), |Flatten(rest)|);
    k := at + j;
  }

  lemma {:induction false} NestingOfBlock(c: Code) returns (k: nat)
    requires c.Block?
    ensures k <= |Flatten(c)| && Level(Flatten(c), k) == Nesting(c)
    ensures Level(Flatten(c), |Flatten(c)|) == 0
    decreases c, 0
  {
    var prog, b := Flatten(c), Flatten(c.body);
    var end := 1 + |b|;
    BlockParts(c);
    var j := NestingIsLevel(c.body);
    assert Level(prog, 1) == 1;
    LevelOfPart(prog, 1, b, j);
    LevelOfPart(prog, 1, b, |b|);
    assert Level(prog, end + 1) == 0;
    k := NestingBehind(prog, end + 1, c.rest);
    if 1 + Nesting(c.body) > Nesting(c.rest) {
      k := 1 + j;
    }
  }

  lemma BlockParts(c: Code)
    requires c.Block?
    ensures var prog, b := Flatten(c), Flatten(c.body);
            && |prog| >= 2 + |b| && prog[0].Open? && prog[1..1 + |b|] == b && prog[1 + |b|] == End
            && prog[2 + |b|..] == Flatten(c.rest)
  {
    var open, b, rest := [Open(c.kind, c.cond, c.negated)], Flatten(c.body), Flatten(c.rest);
    assert Flatten(c) == open + (b + ([End] + rest));
  }

  /** A program that is nested deeper than 31 blocks never comes to its end. */
  lemma EndsOnlyIfNestedIn<E>(eng: Engine<E>, c: Code, e: E, n: nat)
    requires var s := Run(eng, Flatten(c), Initial(e), n);
             s.Running? && !s.m.abort && Step(eng, Flatten(c), s.m).Finished?
    ensures Nesting(c) <= 31
  {
    var prog, m := Flatten(c), Initial(e);
    InitialNested(prog, e);
    RunKeepsNesting(eng, prog, m, n);
    RunSeesLevelsInRange(eng, prog, m, n);
    LastTurn(eng, prog, Run(eng, prog, m, n).m);
    var k := NestingIsLevel(c);
  }

  lemma EndedIsMeaning<E>(eng: Engine<E>, prog: seq<Command>, e: E, n: nat, c: Code)
    requires Run(eng, prog, Initial(e), n).Running? && Flatten(c) == prog && Nesting(c) < STACK_SIZE
    requires Step(eng, prog, Run(eng, prog, Initial(e), n).m).Finished?
    ensures !Exec(eng, c, e, n + 1).OutOfFuel?
    ensures Step(eng, prog, Run(eng, prog, Initial(e), n).m) == Ending(Exec(eng, c, e, n + 1))
  {
    OneMore(eng, prog, Initial(e), n, Run(eng, prog, Initial(e), n).m);
    MeaningOfEndedLoop(eng, c, e, n + 1);
  }

  // --- runs that end by an exit ---

  /** The first h lines, and an end for every block still open. */
  function Closed(prog: seq<Command>, h: nat): seq<Command>
    requires h <= |prog| && Level(prog, h) >= 0
  {
    prog[..h] + seq(Level(prog, h), _ => End)
  }

  lemma {:induction false} LevelOfClosed(prog: seq<Command>, h: nat, k: nat)
    requires h <= |prog| && Level(prog, h) >= 0 && k <= |Closed(prog, h)|
    ensures Level(Closed(prog, h), k) == if k <= h then Level(prog, k) else Level(prog, h) - (k - h)
    decreases k
  {
    if k > 0 {
      LevelOfClosed(prog, h, k - 1);
      assert Closed(prog, h)[k - 1] == if k - 1 < h then prog[k - 1] else End;
    }
  }

  lemma ClosedIsNested(prog: seq<Command>, h: nat) returns (c: Code)
    requires h <= |prog| && forall k :: 0 <= k <= h ==> 0 <= Level(prog, k) < STACK_SIZE
    ensures Flatten(c) == Closed(prog, h) && Nesting(c) < STACK_SIZE
  {
    var closed := Closed(prog, h);
    forall k | 0 <= k <= |closed|
      ensures 0 <= Level(closed, k) < STACK_SIZE
    {
      LevelOfClosed(prog, h, k);
    }
    LevelOfClosed(prog, h, |closed|);
    c := BalancedIsNested(closed, STACK_SIZE - 1);
  }

  lemma SameLineSameStep<E>(eng: Engine<E>, prog: seq<Command>, other: seq<Command>, m: Machine<E>, h: nat)
    requires Shape(prog, m) && Step(eng, prog, m).Running? && Step(eng, prog, m).m.read <= h
    requires h <= |prog| && h <= |other| && prog[..h] == other[..h]
    ensures Step(eng, other, m) == Step(eng, prog, m) && m.read <= Step(eng, prog, m).m.read
  {
    assert prog[m.current] == prog[..h][m.current] == other[m.current];
    assert ReadCommand(prog, m) == ReadCommand(other, m);
  }

  /** A run depends only on the lines it has read. */
  lemma {:induction false} SameLinesSameRun<E>(eng: Engine<E>, prog: seq<Command>, other: seq<Command>,
                                               m: Machine<E>, n: nat)
    requires Nested(prog, m) && Run(eng, prog, m, n).Running?
    requires var h := Run(eng, prog, m, n).m.read; h <= |prog| && h <= |other| && prog[..h] == other[..h]
    ensures Run(eng, other, m, n) == Run(eng, prog, m, n) && m.read <= Run(eng, prog, m, n).m.read
    decreases n
  {
    if n > 0 {
      var m1 := Step(eng, prog, m).m;
      StepKeepsNesting(eng, prog, m);
      SameLinesSameRun(eng, prog, other, m1, n - 1);
      SameLineSameStep(eng, prog, other, m, Run(eng, prog, m1, n - 1).m.read);
    }
  }

  /** The turn after an exit, on the list and on the closed list of the lines read. */
  lemma ExitTurn<E>(eng: Engine<E>, prog: seq<Command>, m: Machine<E>)
    requires Nested(prog, m) && m.abort && Level(prog, m.read) >= 0
    ensures Step(eng, prog, m) == if m.current == |prog| && m.cur > 0 then Died else Finished(m.env, true)
    ensures Step(eng, Closed(prog, m.read), m) == Finished(m.env, true)
  {
  }

  /**
   For any command list: if an exit was carried out, the lines read by then,
   with the open blocks ended, are a nested program within the stack limit
   that exits with the same environment. The loop stops with it too, except in
   a block after the last line, where it dies.
   */
  lemma ExitedLoopIsMeaning<E>(eng: Engine<E>, prog: seq<Command>, e: E, n: nat) returns (c: Code)
    requires var s := Run(eng, prog, Initial(e), n); s.Running? && s.m.abort
    ensures var m := Run(eng, prog, Initial(e), n).m;
            && m.read <= |prog| && Level(prog, m.read) >= 0 && Flatten(c) == Closed(prog, m.read)
            && Nesting(c) < STACK_SIZE && Exec(eng, c, e, n + 1) == Exited(m.env)
            && Step(eng, prog, m) == if m.current == |prog| && m.cur > 0 then Died else Finished(m.env, true)
  {
    var m := Initial(e);
    InitialNested(prog, e);
    RunKeepsNesting(eng, prog, m, n);
    RunSeesLevelsInRange(eng, prog, m, n);
    var last := Run(eng, prog, m, n).m;
    var closed := Closed(prog, last.read);
    c := ClosedIsNested(prog, last.read);
    assert prog[..last.read] == closed[..last.read];
    SameLinesSameRun(eng, prog, closed, m, n);
    ExitTurn(eng, prog, last);
    EndedIsMeaning(eng, closed, e, n, c);
  }
}
