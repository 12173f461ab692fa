/**
 The command loop as the program keeps it: a growing cache of commands read so
 far, a fixed array of block frames and the current line, all updated in place.
 */
module BlockLoop {
  import opened Wrappers
  import opened BlockMachine
  import opened BlockStructure

  datatype Turn = Continues | Ends | Dies

  class CommandLoop<E(!new)> {
    const engine: Engine<E>
    const input: seq<Command>            // what read_line delivers, in order
    var qLines: seq<Command>
    var currentLine: nat
    var readLines: nat
    const blockStack: array<Frame>
    var curBlock: nat
    var env: E
    var abortFlag: bool

    ghost function State(): Machine<E>
      reads this, blockStack
    {
      Machine(currentLine, readLines, blockStack[..], curBlock, env, abortFlag)
    }

    ghost predicate Valid()
      reads this, blockStack
    {
      && Nested(input, State())
      && qLines == input[..readLines]
    }

    constructor (engine: Engine<E>, input: seq<Command>, env: E)
      ensures Valid() && fresh(blockStack) && State() == Initial(env)
      ensures this.engine == engine && this.input == input
    {
      this.engine, this.input, this.env := engine, input, env;
      qLines, currentLine, readLines, curBlock, abortFlag := [], 0, 0, 0, false;
      blockStack := new Frame[STACK_SIZE](i => Frame(0, i == 0, CmdNone));
      new;
      assert blockStack[..] == InitialBlocks();
      InitialNested(input, env);
    }

    /** None at the end of the input. */
    method ReadNext() returns (command: Option<Command>)
      requires Valid()
      modifies this`qLines, this`readLines
      ensures Valid() && (command, State()) == ReadCommand(input, old(State()))
    {
      FetchKeepsNesting(input, State());
      if currentLine < readLines {
        return Some(qLines[currentLine]);
      }
      if readLines == |input| {
        return None;
      }
      qLines := qLines + [input[readLines]];
      readLines := readLines + 1;
      return Some(qLines[readLines - 1]);
    }

    method EndBlock() returns (alive: bool)
      requires Valid() && currentLine < readLines && input[currentLine] == End
      modifies this`curBlock, this`currentLine
      ensures Valid()
      ensures if alive then DoDone(old(State())) == Running(State())
              else DoDone(old(State())) == Died && State() == old(State())
    {
      if curBlock == 0 {
        return false;
      }
      DoDoneKeepsNesting(input, State());
      if blockStack[curBlock].ok && blockStack[curBlock].cmd == CmdWhile {
        curBlock := curBlock - 1;
        currentLine := blockStack[curBlock].line;
      } else {
        curBlock := curBlock - 1;
        currentLine := currentLine + 1;
      }
      return true;
    }

    method OpenBlock(kind: BlockCmd, cond: string, negated: bool) returns (alive: bool)
      requires Valid() && currentLine < readLines && input[currentLine] == Open(kind, cond, negated)
      modifies this`curBlock, this`currentLine, this`env, blockStack
      ensures alive ==> Valid()
      ensures var s := DoBlock(engine, old(State()), kind, cond, negated);
              if alive then s == Running(State()) else s == Died
    {
      ghost var m := State();
      if curBlock == STACK_SIZE - 1 {
        return false;
      }
      blockStack[curBlock] := blockStack[curBlock].(line := currentLine);
      if !blockStack[curBlock].ok {
        currentLine, curBlock := currentLine + 1, curBlock + 1;
        blockStack[curBlock] := blockStack[curBlock].(cmd := kind, ok := false);
      } else {
        var value := engine.eval(cond, env);
        if value.None? {
          return false;
        }
        var (v, e) := value.value;
        currentLine, curBlock, env := currentLine + 1, curBlock + 1, e;
        blockStack[curBlock] := blockStack[curBlock].(cmd := kind, ok := v);
        if negated {
          blockStack[curBlock] := blockStack[curBlock].(ok := !blockStack[curBlock].ok);
        }
      }
      assert State() == DoBlock(engine, m, kind, cond, negated).m;
      DoBlockKeepsNesting(engine, input, m, input[m.current]);
      return true;
    }

    /** One turn of the main loop. */
    method OneTurn() returns (t: Turn)
      requires Valid()
      modifies this, blockStack
      ensures t.Continues? ==> Valid()
      ensures match t
              case Continues => Step(engine, input, old(State())) == Running(State())
              case Ends => Step(engine, input, old(State())) == Finished(env, abortFlag)
              case Dies => Step(engine, input, old(State())) == Died
    {
      var command := ReadNext();
      if command.None? {
        return if curBlock != 0 then Dies else Ends;
      }
      if abortFlag {
        return Ends;
      }
      ghost var m := State();
      match command.value {
      case Act(text) =>
        if blockStack[curBlock].ok {
          var r := engine.exec(text, env);
          if r.None? {
            return Dies;
          }
          env := r.value;
        }
        AdvanceKeepsNesting(input, m, env, abortFlag);
        currentLine := currentLine + 1;
      case Exit =>
        if blockStack[curBlock].ok {
          abortFlag := true;
        }
        AdvanceKeepsNesting(input, m, env, abortFlag);
        currentLine := currentLine + 1;
      case Open(kind, cond, negated) =>
        var alive := OpenBlock(kind, cond, negated);
        if !alive {
          return Dies;
        }
      case End =>
        var alive := EndBlock();
        if !alive {
          return Dies;
        }
      }
      return Continues;
    }

    /** At most n turns of the loop. */
    method Turns(n: nat) returns (t: Turn)
      requires Valid()
      modifies this, blockStack
      ensures match t
              case Continues => Valid() && Run(engine, input, old(State()), n) == Running(State())
              case Ends => Run(engine, input, old(State()), n) == Finished(env, abortFlag)
              case Dies => Run(engine, input, old(State()), n) == Died
    {
      ghost var m0 := State();
      for i := 0 to n
        invariant Valid() && Run(engine, input, m0, i) == Running(State())
      {
        RunNext(engine, input, m0, i, State(), n);
        t := OneTurn();
        if !t.Continues? {
          return;
        }
      }
      return Continues;
    }
  }

  /** One more turn; if the run ends with it, further turns do not matter. */
  lemma RunNext<E>(eng: Engine<E>, prog: seq<Command>, m0: Machine<E>, i: nat, m: Machine<E>, n: nat)
    requires Sized(m0) && Sized(m) && Run(eng, prog, m0, i) == Running(m) && i < n
    ensures Run(eng, prog, m0, i + 1) == Step(eng, prog, m)
    ensures !Step(eng, prog, m).Running? ==> Run(eng, prog, m0, n) == Step(eng, prog, m)
  {
    RunAdd(eng, prog, m0, i, 1);
    BlockStructure.OneTurn(eng, prog, m);
    RunAdd(eng, prog, m0, i + 1, n - i - 1);
  }
}
