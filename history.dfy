/**
 * The editor's undo/redo history and command composition.
 *
 * A command is known here only by its identity, its name and whether it is
 * undoable: the history calls its `do`, `undo` and `clean` methods, and
 * those calls are appended, in order, to a shared `CallLog`. What each
 * concrete command does when called is modelled with that command.
 */
module History {
  import opened Augments

  datatype Cmd = Cmd(id: nat, name: string, undoable: bool)

  /** One call made on a command. */
  datatype Call = DoCall(cmd: Cmd) | UndoCall(cmd: Cmd) | CleanCall(cmd: Cmd)

  /** The calls made on commands so far, oldest first. */
  class CallLog {
    var calls: seq<Call>

    constructor ()
      ensures calls == []
    {
      calls := [];
    }
  }

  /** `clean` on each command, in index order. */
  function Cleans(cs: seq<Cmd>): seq<Call> {
    seq(|cs|, i requires 0 <= i < |cs| => CleanCall(cs[i]))
  }

  /** `do` on each command, in index order. */
  function Dos(cs: seq<Cmd>): seq<Call> {
    seq(|cs|, i requires 0 <= i < |cs| => DoCall(cs[i]))
  }

  /** The two stacks; the top of each is its last element. */
  datatype Histories = Histories(undo: seq<Cmd>, redo: seq<Cmd>)

  /** The stacks after running `cmd`: an undoable command is pushed and the redo stack emptied. */
  function Executed(h: Histories, cmd: Cmd): Histories {
    if cmd.undoable then Histories(h.undo + [cmd], []) else h
  }

  /** The calls `executeCommand` makes: `do`, then `clean` on every redo entry when the command is undoable. */
  function ExecuteCalls(h: Histories, cmd: Cmd): seq<Call> {
    [DoCall(cmd)] + (if cmd.undoable then Cleans(h.redo) else [])
  }

  /** The stacks after `undo`: the top of the undo stack moves to the redo stack. */
  function Undone(h: Histories): Histories {
    if h.undo == [] then h
    else Histories(h.undo[..|h.undo| - 1], h.redo + [h.undo[|h.undo| - 1]])
  }

  /** The stacks after `redo`: the top of the redo stack moves back to the undo stack. */
  function Redone(h: Histories): Histories {
    if h.redo == [] then h
    else Histories(h.undo + [h.redo[|h.redo| - 1]], h.redo[..|h.redo| - 1])
  }

  /** `k` undos in a row. */
  function Undos(h: Histories, k: nat): Histories
    decreases k
  {
    if k == 0 then h else Undos(Undone(h), k - 1)
  }

  /** `k` redos in a row. */
  function Redos(h: Histories, k: nat): Histories
    decreases k
  {
    if k == 0 then h else Redos(Redone(h), k - 1)
  }

  /** Undo then redo puts both stacks back, and so does redo then undo. */
  lemma RedoUndoes(h: Histories)
    ensures h.undo != [] ==> Redone(Undone(h)) == h
    ensures h.redo != [] ==> Undone(Redone(h)) == h
  {
    if h.undo != [] {
      var n := |h.undo|;
      assert h.undo[..n - 1] + [h.undo[n - 1]] == h.undo;
    }
    if h.redo != [] {
      var n := |h.redo|;
      assert h.redo[..n - 1] + [h.redo[n - 1]] == h.redo;
    }
  }

  /** Undo and redo move commands between the stacks: the total is unchanged, and nothing is lost. */
  lemma MovesBetweenStacks(h: Histories)
    ensures |Undone(h).undo| + |Undone(h).redo| == |h.undo| + |h.redo|
    ensures |Redone(h).undo| + |Redone(h).redo| == |h.undo| + |h.redo|
    ensures multiset(Undone(h).undo) + multiset(Undone(h).redo) == multiset(h.undo) + multiset(h.redo)
    ensures multiset(Redone(h).undo) + multiset(Redone(h).redo) == multiset(h.undo) + multiset(h.redo)
  {
    if h.undo != [] {
      var n := |h.undo|;
      assert h.undo == h.undo[..n - 1] + [h.undo[n - 1]];
    }
    if h.redo != [] {
      var n := |h.redo|;
      assert h.redo == h.redo[..n - 1] + [h.redo[n - 1]];
    }
  }

  /** After `k` undos, the `k` commands taken off the undo stack sit reversed on top of the redo stack. */
  lemma {:induction false} UndosMove(h: Histories, k: nat)
    requires k <= |h.undo|
    ensures Undos(h, k).undo == h.undo[..|h.undo| - k]
    ensures |Undos(h, k).redo| == |h.redo| + k
    ensures Undos(h, k).redo[..|h.redo|] == h.redo
    decreases k
  {
    if k > 0 {
      var n := |h.undo|;
      UndosMove(Undone(h), k - 1);
      assert Undone(h).undo == h.undo[..n - 1];
      assert h.undo[..n - 1][..n - 1 - (k - 1)] == h.undo[..n - k];
      var r := Undos(h, k).redo;
      assert r[..|h.redo| + 1] == h.redo + [h.undo[n - 1]];
      assert r[..|h.redo|] == (r[..|h.redo| + 1])[..|h.redo|];
    }
  }

  /** `k` undos followed by `k` redos restore both stacks. */
  lemma {:induction false} RedosUndoUndos(h: Histories, k: nat)
    requires k <= |h.undo|
    ensures Redos(Undos(h, k), k) == h
    decreases k
  {
    if k > 0 {
      var h1 := Undone(h);
      RedoUndoes(h);
      RedosUndoUndos(h1, k - 1);
      UndosMove(h1, k - 1);
      assert |h1.redo| == |h.redo| + 1;
      RedosLast(Undos(h1, k - 1), k - 1, h1);
    }
  }

  /**
   * Redoing `k` commands from `m` that were undone from `h1` reaches `h1`
   * again; one more redo then takes the next command off `h1`'s redo stack.
   */
  lemma RedosLast(m: Histories, k: nat, h1: Histories)
    requires Redos(m, k) == h1
    ensures Redos(m, k + 1) == Redone(h1)
  {
    RedosSnoc(m, k);
  }

  /** Redoing `k + 1` times is redoing `k` times, then once more. */
  lemma {:induction false} RedosSnoc(m: Histories, k: nat)
    ensures Redos(m, k + 1) == Redone(Redos(m, k))
    decreases k
  {
    if k > 0 {
      RedosSnoc(Redone(m), k - 1);
    }
  }

  /** `CommandManager`: the undo and redo stacks, and the log of calls made on commands. */
  class CommandManager {
    var undoHistory: seq<Cmd>
    var redoHistory: seq<Cmd>
    const log: CallLog

    constructor (log: CallLog)
      ensures undoHistory == [] && redoHistory == [] && this.log == log
    {
      undoHistory := [];
      redoHistory := [];
      this.log := log;
    }

    function Stacks(): Histories
      reads this
    {
      Histories(undoHistory, redoHistory)
    }

    /**
     * `executeCommand`: runs the command; an undoable command is pushed onto
     * the undo stack and every redo entry is cleaned and dropped.
     */
    method ExecuteCommand(cmd: Cmd)
      modifies this, log
      ensures Stacks() == Executed(old(Stacks()), cmd)
      ensures log.calls == old(log.calls) + ExecuteCalls(old(Stacks()), cmd)
    {
      log.calls := log.calls + [DoCall(cmd)];
      if cmd.undoable {
        undoHistory := undoHistory + [cmd];
        ClearRedoHistory();
      }
    }

    /** `undo`: nothing on an empty stack; otherwise the top is undone and pushed onto the redo stack. */
    method Undo()
      modifies this, log
      ensures Stacks() == Undone(old(Stacks()))
      ensures log.calls == old(log.calls) + (if old(undoHistory) == [] then [] else [UndoCall(old(undoHistory)[|old(undoHistory)| - 1])])
    {
      if undoHistory != [] {
        var cmd := undoHistory[|undoHistory| - 1];
        undoHistory := undoHistory[..|undoHistory| - 1];
        log.calls := log.calls + [UndoCall(cmd)];
        redoHistory := redoHistory + [cmd];
      }
    }

    /** `redo`: nothing on an empty stack; otherwise the top is done again and pushed onto the undo stack. */
    method Redo()
      modifies this, log
      ensures Stacks() == Redone(old(Stacks()))
      ensures log.calls == old(log.calls) + (if old(redoHistory) == [] then [] else [DoCall(old(redoHistory)[|old(redoHistory)| - 1])])
    {
      if redoHistory != [] {
        var cmd := redoHistory[|redoHistory| - 1];
        redoHistory := redoHistory[..|redoHistory| - 1];
        log.calls := log.calls + [DoCall(cmd)];
        undoHistory := undoHistory + [cmd];
      }
    }

    /** Cleans every redo entry, bottom first, then empties the stack. */
    method ClearRedoHistory()
      modifies this`redoHistory, log
      ensures redoHistory == [] && log.calls == old(log.calls) + Cleans(old(redoHistory))
    {
      var cs := redoHistory;
      var i := 0;
      while i < |cs|
        invariant 0 <= i <= |cs|
        invariant log.calls == old(log.calls) + Cleans(cs[..i])
      {
        assert Cleans(cs[..i + 1]) == Cleans(cs[..i]) + [CleanCall(cs[i])];
        log.calls := log.calls + [CleanCall(cs[i])];
        i := i + 1;
      }
      assert cs[..i] == cs;
      redoHistory := [];
    }

    /** Cleans every undo entry, bottom first, then empties the stack. */
    method ClearUndoHistory()
      modifies this`undoHistory, log
      ensures undoHistory == [] && log.calls == old(log.calls) + Cleans(old(undoHistory))
    {
      var cs := undoHistory;
      var i := 0;
      while i < |cs|
        invariant 0 <= i <= |cs|
        invariant log.calls == old(log.calls) + Cleans(cs[..i])
      {
        assert Cleans(cs[..i + 1]) == Cleans(cs[..i]) + [CleanCall(cs[i])];
        log.calls := log.calls + [CleanCall(cs[i])];
        i := i + 1;
      }
      assert cs[..i] == cs;
      undoHistory := [];
    }

    /** `clearHistory`: cleans the undo stack, then the redo stack, and leaves both empty. */
    method ClearHistory()
      modifies this, log
      ensures undoHistory == [] && redoHistory == []
      ensures log.calls == old(log.calls) + Cleans(old(undoHistory)) + Cleans(old(redoHistory))
    {
      ClearUndoHistory();
      ClearRedoHistory();
    }
  }

  /** Each command of a list is cleaned exactly when it is in the list. */
  lemma CleansExactly(cs: seq<Cmd>, c: Cmd)
    ensures CleanCall(c) in Cleans(cs) <==> c in cs
    ensures forall x :: x in Cleans(cs) ==> x.CleanCall?
  {
    if c in cs {
      var i :| 0 <= i < |cs| && cs[i] == c;
      assert Cleans(cs)[i] == CleanCall(c);
    }
  }

  /** An undoable command empties the redo stack after cleaning every entry; any other leaves the stacks alone. */
  lemma ExecuteCleansRedo(h: Histories, cmd: Cmd)
    ensures cmd.undoable ==> Executed(h, cmd).redo == [] && Executed(h, cmd).undo[|h.undo|] == cmd
    ensures cmd.undoable ==> forall c :: c in h.redo ==> CleanCall(c) in ExecuteCalls(h, cmd)
    ensures !cmd.undoable ==> Executed(h, cmd) == h && ExecuteCalls(h, cmd) == [DoCall(cmd)]
  {
    if cmd.undoable {
      forall c | c in h.redo
        ensures CleanCall(c) in ExecuteCalls(h, cmd)
      {
        CleansExactly(h.redo, c);
      }
    }
  }

  /**
   * `CommandGroup`: a composite command over a copy of the given list. Its
   * `do` runs the commands first to last; its `undo` runs them last to
   * second, so the first command is never undone; `clean` does nothing.
   */
  class CommandGroup {
    const commands: seq<Cmd>
    const log: CallLog

    constructor (log: CallLog, commands: JsArray<Cmd>)
      ensures this.commands == commands.elems && this.log == log
    {
      this.log := log;
      this.commands := commands.elems;
    }

    function Undoable(): bool {
      true
    }

    method Do()
      modifies log
      ensures log.calls == old(log.calls) + Dos(commands)
    {
      var i := 0;
      while i < |commands|
        invariant 0 <= i <= |commands|
        invariant log.calls == old(log.calls) + Dos(commands[..i])
      {
        assert Dos(commands[..i + 1]) == Dos(commands[..i]) + [DoCall(commands[i])];
        log.calls := log.calls + [DoCall(commands[i])];
        i := i + 1;
      }
      assert commands[..i] == commands;
    }

    method Undo()
      modifies log
      ensures log.calls == old(log.calls) + GroupUndoCalls(commands)
    {
      var i := |commands| - 1;
      while i > 0
        invariant 0 <= i || commands == []
        invariant i < |commands|
        invariant log.calls == old(log.calls) + UndosFrom(commands, if commands == [] then 0 else i + 1)
        decreases i
      {
        log.calls := log.calls + [UndoCall(commands[i])];
        i := i - 1;
      }
    }

    /**
     * The `undo` the group's comment describes: every command, last to
     * first.
     */
    method UndoAll()
      modifies log
      ensures log.calls == old(log.calls) + UndosFrom(commands, 0)
    {
      var i := |commands|;
      while i > 0
        invariant 0 <= i <= |commands|
        invariant log.calls == old(log.calls) + UndosFrom(commands, i)
      {
        i := i - 1;
        log.calls := log.calls + [UndoCall(commands[i])];
      }
    }

    method Clean()
      ensures unchanged(log)
    {
    }
  }

  /** `undo` on the commands at indices `|cs| - 1` down to `from`. */
  function UndosFrom(cs: seq<Cmd>, from: nat): seq<Call>
    requires from <= |cs|
    decreases |cs| - from
  {
    if from == |cs| then [] else UndosFrom(cs, from + 1) + [UndoCall(cs[from])]
  }

  /** The calls of the group's `undo`: indices `|cs| - 1` down to 1. */
  function GroupUndoCalls(cs: seq<Cmd>): seq<Call> {
    if cs == [] then [] else UndosFrom(cs, 1)
  }

  /** `UndosFrom` calls `undo` on the commands at indices `|cs| - 1` down to `from`, and on nothing else. */
  lemma {:induction false} UndosFromOrder(cs: seq<Cmd>, from: nat)
    requires from <= |cs|
    ensures |UndosFrom(cs, from)| == |cs| - from
    ensures forall j :: 0 <= j < |cs| - from ==> UndosFrom(cs, from)[j] == UndoCall(cs[|cs| - 1 - j])
    decreases |cs| - from
  {
    if from < |cs| {
      UndosFromOrder(cs, from + 1);
    }
  }

  /**
   * The group's `undo` calls `undo` on the commands last to second, each
   * once, and never on the first command unless it is repeated later.
   */
  lemma GroupUndoSkipsFirst(cs: seq<Cmd>)
    requires |cs| >= 1
    ensures |GroupUndoCalls(cs)| == |cs| - 1
    ensures forall j :: 0 <= j < |cs| - 1 ==> GroupUndoCalls(cs)[j] == UndoCall(cs[|cs| - 1 - j])
    ensures cs[0] !in cs[1..] ==> UndoCall(cs[0]) !in GroupUndoCalls(cs)
  {
    UndosFromOrder(cs, 1);
    if UndoCall(cs[0]) in GroupUndoCalls(cs) {
      var j :| 0 <= j < |cs| - 1 && GroupUndoCalls(cs)[j] == UndoCall(cs[0]);
      assert cs[|cs| - 1 - j] == cs[0];
      assert cs[1..][|cs| - 2 - j] == cs[0];
    }
  }

  /** `UndoAll` calls `undo` on every command exactly in reverse order, the first command last. */
  lemma GroupUndoAllReverses(cs: seq<Cmd>)
    ensures |UndosFrom(cs, 0)| == |cs|
    ensures forall j :: 0 <= j < |cs| ==> UndosFrom(cs, 0)[j] == UndoCall(cs[|cs| - 1 - j])
    ensures cs != [] ==> UndosFrom(cs, 0)[|cs| - 1] == UndoCall(cs[0])
  {
    UndosFromOrder(cs, 0);
  }

  /**
   * The group keeps its own copy: pushing onto the caller's array after
   * construction leaves the group's commands as they were.
   */
  method GroupCopies(log: CallLog, list: seq<Cmd>, extra: Cmd) returns (kept: seq<Cmd>, callerNow: seq<Cmd>)
    ensures kept == list && callerNow == list + [extra]
  {
    var a := new JsArray(list);
    var group := new CommandGroup(log, a);
    a.elems := a.elems + [extra];
    kept := group.commands;
    callerNow := a.elems;
  }
}
