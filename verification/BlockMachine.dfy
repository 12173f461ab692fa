/**
 The command loop of mysqltest: commands are read into a cache, `if` and
 `while` push a frame on the block stack, `end` pops one and may jump back.

 What a command does and what a condition evaluates to is a parameter: an
 Engine over environments E. None stands for die().
 */
module BlockMachine {
  import opened Wrappers

  datatype BlockCmd = CmdNone | CmdIf | CmdWhile

  /** A condition text with its leading '!' already split off. */
  datatype Command =
    | Act(text: string)
    | Exit
    | Open(kind: BlockCmd, cond: string, negated: bool)
    | End

  datatype Engine<!E> = Engine(exec: (string, E) -> Option<E>, eval: (string, E) -> Option<(bool, E)>)

  /** st_block */
  datatype Frame = Frame(line: nat, ok: bool, cmd: BlockCmd)

  const STACK_SIZE := 32

  /** blocks[cur] is the current block; frames above cur are leftovers. */
  datatype Machine<+E> = Machine(current: nat, read: nat, blocks: seq<Frame>, cur: nat, env: E, abort: bool)

  /** How a run stands; a finished run knows whether an exit command ended it. */
  datatype Status<+E> = Running(m: Machine<E>) | Finished(env: E, exited: bool) | Died

  predicate Sized<E>(m: Machine<E>) {
    |m.blocks| == STACK_SIZE && m.cur < STACK_SIZE
  }

  /** Only lines of the cache, or the first one after it, are ever current. */
  predicate Shape<E>(prog: seq<Command>, m: Machine<E>) {
    Sized(m) && m.current <= m.read <= |prog|
  }

  function InitialBlocks(): (b: seq<Frame>)
    ensures |b| == STACK_SIZE && b[0].ok
  {
    seq(STACK_SIZE, i => Frame(0, i == 0, CmdNone))
  }

  function Initial<E>(e: E): Machine<E> {
    Machine(0, 0, InitialBlocks(), 0, e, false)
  }

  function DoDone<E>(m: Machine<E>): Status<E>
    requires Sized(m)
  {
    if m.cur == 0 then Died
    else if m.blocks[m.cur].ok && m.blocks[m.cur].cmd == CmdWhile then
      Running(m.(cur := m.cur - 1, current := m.blocks[m.cur - 1].line))
    else
      Running(m.(cur := m.cur - 1, current := m.current + 1))
  }

  function DoBlock<E>(eng: Engine<E>, m: Machine<E>, kind: BlockCmd, cond: string, negated: bool): Status<E>
    requires Sized(m)
  {
    if m.cur == STACK_SIZE - 1 then Died
    else
      var blocks := m.blocks[m.cur := m.blocks[m.cur].(line := m.current)];
      if !m.blocks[m.cur].ok then
        Running(m.(current := m.current + 1, cur := m.cur + 1,
                   blocks := blocks[m.cur + 1 := blocks[m.cur + 1].(cmd := kind, ok := false)]))
      else
        match eng.eval(cond, m.env)
        case None => Died
        case Some((v, e)) =>
          Running(m.(current := m.current + 1, cur := m.cur + 1, env := e,
                     blocks := blocks[m.cur + 1 := blocks[m.cur + 1].(cmd := kind, ok := v != negated)]))
  }

  /** read_command: from the cache if the line was read before, else from the file. */
  function ReadCommand<E>(prog: seq<Command>, m: Machine<E>): (Option<Command>, Machine<E>)
  {
    if m.current < m.read && m.current < |prog| then (Some(prog[m.current]), m)
    else if m.read >= |prog| then (None, m)
    else (Some(prog[m.read]), m.(read := m.read + 1))
  }

  /** One turn of the main loop. */
  function Step<E>(eng: Engine<E>, prog: seq<Command>, m: Machine<E>): (s: Status<E>)
    requires Sized(m)
    ensures s.Running? ==> Sized(s.m)
  {
    var (command, m) := ReadCommand(prog, m);
    if command.None? then
      if m.cur != 0 then Died else Finished(m.env, m.abort)      // Missing end of block
    else if m.abort then Finished(m.env, true)
    else
      match command.value
      case Act(text) =>
        if !m.blocks[m.cur].ok then Running(m.(current := m.current + 1))
        else (
          match eng.exec(text, m.env)
          case None => Died
          case Some(e) => Running(m.(current := m.current + 1, env := e))
        )
      case Exit =>
        Running(m.(current := m.current + 1, abort := m.blocks[m.cur].ok))
      case Open(kind, cond, negated) => DoBlock(eng, m, kind, cond, negated)
      case End => DoDone(m)
  }

  // --- what every turn keeps, for any command list ---

  /** Blocks opened minus blocks ended by the first k commands. */
  function Level(prog: seq<Command>, k: nat): int
    requires k <= |prog|
  {
    if k == 0 then 0
    else Level(prog, k - 1) + (if prog[k - 1].Open? then 1 else if prog[k - 1].End? then -1 else 0)
  }

  /** Frame i+1 was opened by the cached command at frame i's line. */
  ghost predicate OpenedBy<E>(prog: seq<Command>, m: Machine<E>, i: nat)
    requires Shape(prog, m) && i < m.cur
  {
    var line := m.blocks[i].line;
    && line < (if i + 1 < m.cur then m.blocks[i + 1].line else m.current)
    && line < m.read && Level(prog, line) == i
    && prog[line].Open? && prog[line].kind == m.blocks[i + 1].cmd
  }

  ghost predicate Nested<E>(prog: seq<Command>, m: Machine<E>) {
    && Shape(prog, m)
    && m.blocks[0].ok
    && m.cur == Level(prog, m.current)
    && (forall i :: 0 <= i < m.cur ==> OpenedBy(prog, m, i))
    && (forall i, j :: 0 <= i < j <= m.cur && m.blocks[j].ok ==> m.blocks[i].ok)
  }

  lemma InitialNested<E>(prog: seq<Command>, e: E)
    ensures Nested(prog, Initial(e))
  {
  }

  /** The current line of m' is a cached line that opens a while block. */
  ghost predicate AtCachedWhile<E>(prog: seq<Command>, m: Machine<E>, m': Machine<E>)
    requires m.read <= |prog|
  {
    m'.current < m.read && prog[m'.current].Open? && prog[m'.current].kind == CmdWhile
  }

  lemma DoDoneKeepsNesting<E>(prog: seq<Command>, m: Machine<E>)
    requires Nested(prog, m) && m.current < m.read && prog[m.current].End? && m.cur > 0
    ensures Nested(prog, DoDone(m).m)
    ensures DoDone(m).m.current <= m.current + 1
    ensures DoDone(m).m.current <= m.current ==> AtCachedWhile(prog, m, DoDone(m).m)
  {
    assert OpenedBy(prog, m, m.cur - 1);
    var m' := DoDone(m).m;
    forall i | 0 <= i < m'.cur
      ensures OpenedBy(prog, m', i)
    {
      assert OpenedBy(prog, m, i);
    }
  }

  lemma DoBlockKeepsNesting<E>(eng: Engine<E>, prog: seq<Command>, m: Machine<E>, c: Command)
    requires Nested(prog, m) && m.current < m.read && prog[m.current] == c && c.Open?
    requires DoBlock(eng, m, c.kind, c.cond, c.negated).Running?
    ensures Nested(prog, DoBlock(eng, m, c.kind, c.cond, c.negated).m)
    ensures DoBlock(eng, m, c.kind, c.cond, c.negated).m.current == m.current + 1
  {
    var m' := DoBlock(eng, m, c.kind, c.cond, c.negated).m;
    forall i | 0 <= i < m'.cur
      ensures OpenedBy(prog, m', i)
    {
      if i < m.cur {
        assert OpenedBy(prog, m, i);
      }
    }
  }

  lemma AdvanceKeepsNesting<E>(prog: seq<Command>, m: Machine<E>, e: E, abort: bool)
    requires Nested(prog, m) && m.current < m.read && !prog[m.current].Open? && !prog[m.current].End?
    ensures Nested(prog, m.(current := m.current + 1, env := e, abort := abort))
  {
    var m' := m.(current := m.current + 1, env := e, abort := abort);
    forall i | 0 <= i < m'.cur
      ensures OpenedBy(prog, m', i)
    {
      assert OpenedBy(prog, m, i);
    }
  }

  /** The state in which the command just read is carried out. */
  function Fetched<E>(prog: seq<Command>, m: Machine<E>): Machine<E>
    requires Shape(prog, m)
  {
    ReadCommand(prog, m).1
  }

  lemma FetchKeepsNesting<E>(prog: seq<Command>, m: Machine<E>)
    requires Nested(prog, m)
    ensures Nested(prog, Fetched(prog, m))
  {
    var m' := Fetched(prog, m);
    forall i | 0 <= i < m'.cur
      ensures OpenedBy(prog, m', i)
    {
      assert OpenedBy(prog, m, i);
    }
  }

  /**
   Every turn keeps the nesting: the stack height is the nesting level of the
   current line, a frame that is not ok has only such frames above it, and a
   jump goes back to the cached line that opened a while block.
   */
  lemma StepKeepsNesting<E>(eng: Engine<E>, prog: seq<Command>, m: Machine<E>)
    requires Nested(prog, m) && Step(eng, prog, m).Running?
    ensures Nested(prog, Step(eng, prog, m).m)
    ensures Step(eng, prog, m).m.current <= m.current + 1
    ensures Step(eng, prog, m).m.current <= m.current ==> AtCachedWhile(prog, m, Step(eng, prog, m).m)
  {
    FetchKeepsNesting(prog, m);
    var m1, m' := Fetched(prog, m), Step(eng, prog, m).m;
    match prog[m.current]
    case Act(_) => AdvanceKeepsNesting(prog, m1, m'.env, m1.abort);
    case Exit => AdvanceKeepsNesting(prog, m1, m1.env, m'.abort);
    case Open(kind, cond, negated) => DoBlockKeepsNesting(eng, prog, m1, prog[m.current]);
    case End =>
      DoDoneKeepsNesting(prog, m1);
      if m'.current <= m.current {
        assert OpenedBy(prog, m1, m1.cur - 1);
        assert OpenedBy(prog, m, m.cur - 1);
      }
  }

  // --- runs ---

  /** The state after n turns, or how the run ended before. */
  function Run<E>(eng: Engine<E>, prog: seq<Command>, m: Machine<E>, n: nat): (s: Status<E>)
    requires Sized(m)
    ensures s.Running? ==> Sized(s.m)
    decreases n
  {
    if n == 0 then Running(m)
    else
      match Step(eng, prog, m)
      case Running(m') => Run(eng, prog, m', n - 1)
      case s => s
  }

  lemma {:induction false} RunKeepsNesting<E>(eng: Engine<E>, prog: seq<Command>, m: Machine<E>, n: nat)
    requires Nested(prog, m) && Run(eng, prog, m, n).Running?
    ensures Nested(prog, Run(eng, prog, m, n).m)
    decreases n
  {
    if n > 0 {
      StepKeepsNesting(eng, prog, m);
      RunKeepsNesting(eng, prog, Step(eng, prog, m).m, n - 1);
    }
  }

  lemma {:induction false} RunAdd<E>(eng: Engine<E>, prog: seq<Command>, m: Machine<E>, a: nat, b: nat)
    requires Sized(m)
    ensures Run(eng, prog, m, a).Running? ==> Run(eng, prog, m, a + b) == Run(eng, prog, Run(eng, prog, m, a).m, b)
    ensures !Run(eng, prog, m, a).Running? ==> Run(eng, prog, m, a + b) == Run(eng, prog, m, a)
    decreases a
  {
    if a > 0 && Step(eng, prog, m).Running? {
      var m1 := Step(eng, prog, m).m;
      assert Run(eng, prog, m, a) == Run(eng, prog, m1, a - 1);
      assert Run(eng, prog, m, a + b) == Run(eng, prog, m1, a - 1 + b);
      RunAdd(eng, prog, m1, a - 1, b);
    }
  }
}
