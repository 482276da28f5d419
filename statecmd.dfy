/** The `chezmoi state` command: handlers that forward to the persistent
    state, the destructive `reset`, and the mode each subcommand declares. */
module StateCmd {
  import opened Wrappers
  import opened FileModes
  import opened Errors
  import opened Systems
  import opened PersistentStates

  // ---------------------------------------------------------------------
  // Flags and annotations

  datatype FormatFlags = FormatFlags(format: string)
  datatype KeyFlags = KeyFlags(bucket: Bytes, key: Bytes)
  datatype SetFlags = SetFlags(bucket: Bytes, key: Bytes, value: Bytes)

  /** Go's `stateCmdConfig`. Flag strings are Go strings, that is byte
      strings, so `[]byte(flag)` passes their bytes on unchanged. */
  datatype StateCmdConfig = StateCmdConfig(data: FormatFlags, delete: KeyFlags, dump: FormatFlags, get: KeyFlags, setFlags: SetFlags)

  datatype Subcommand = DataCmd | DeleteCmd | DumpCmd | GetCmd | ResetCmd | SetCmd

  datatype Annotation = PersistentStateMode(mode: AccessMode) | ModifiesDestinationDirectory

  /** The annotation `newStateCmd` puts on each subcommand. */
  function AnnotationOf(cmd: Subcommand): (a: Annotation)
    ensures a == ModifiesDestinationDirectory <==> cmd == ResetCmd
    ensures a == PersistentStateMode(ReadWrite) <==> cmd == SetCmd || cmd == DeleteCmd
    ensures a == PersistentStateMode(ReadOnly) <==> cmd == DataCmd || cmd == DumpCmd || cmd == GetCmd
  {
    match cmd
    case DataCmd => PersistentStateMode(ReadOnly)
    case DeleteCmd => PersistentStateMode(ReadWrite)
    case DumpCmd => PersistentStateMode(ReadOnly)
    case GetCmd => PersistentStateMode(ReadOnly)
    case ResetCmd => ModifiesDestinationDirectory
    case SetCmd => PersistentStateMode(ReadWrite)
  }

  // ---------------------------------------------------------------------
  // The decision procedure of `reset`

  datatype ResetStep = Return(err: Option<Error>) | RemoveStateFile

  /** Whether `reset` asks the user: only when the state file exists and
      the command is not forced. */
  predicate ResetPrompts(stat: Result<FileMode, Error>, force: bool) {
    stat.Success? && !force
  }

  /** What `reset` does after the stat, the force check and, when asked,
      the user's answer. A choice other than "yes" or "no" falls through to
      the removal, as the switch in the program does. */
  function ResetDecision(stat: Result<FileMode, Error>, force: bool, answer: Result<string, Error>): ResetStep {
    if stat.Failure? && IsNotExist(stat.error) then Return(None)
    else if stat.Failure? then Return(Some(stat.error))
    else if force then RemoveStateFile
    else
      match answer
      case Failure(e) => Return(Some(e))
      case Success(choice) =>
        if choice == "yes" then RemoveStateFile
        else if choice == "no" then Return(None)
        else RemoveStateFile
  }

  /** The state file is removed exactly when it exists and the command is
      forced or the user did not answer "no"; without a file nothing is
      asked and nothing fails. */
  lemma ResetRemovesOnlyWithConsent(stat: Result<FileMode, Error>, force: bool, answer: Result<string, Error>)
    ensures ResetDecision(stat, force, answer) == RemoveStateFile <==>
              stat.Success? && (force || (answer.Success? && answer.value != "no"))
    ensures stat.Failure? && IsNotExist(stat.error) ==>
              ResetDecision(stat, force, answer) == Return(None) && !ResetPrompts(stat, force)
  {
  }

  /** Every error `reset` returns without removing is the stat's or the
      prompt's, unchanged; declining is a success. */
  lemma ResetErrorsPassThrough(stat: Result<FileMode, Error>, force: bool, answer: Result<string, Error>)
    ensures ResetDecision(stat, force, answer).Return? && ResetDecision(stat, force, answer).err.Some? ==>
              ResetDecision(stat, force, answer).err == (if stat.Failure? then Some(stat.error) else answer.Err())
    ensures stat.Success? && !force && answer == Success("no") ==> ResetDecision(stat, force, answer) == Return(None)
  {
  }

  // ---------------------------------------------------------------------
  // The configuration the handlers run against

  /** What the handlers write to standard output. */
  datatype Output = Raw(bytes: Bytes) | Marshalled(format: string, data: Buckets)

  datatype Prompt = Prompt(message: string, choices: seq<string>)

  class Config {
    const persistentState: PersistentState
    const destSystem: System
    /** The already-resolved path of the persistent state file. */
    const persistentStateFile: AbsPath
    const force: bool
    const state: StateCmdConfig
    /** What the user answers when prompted (or the error prompting reports). */
    const answer: Result<string, Error>
    /** The error writing to standard output reports, if any. */
    const outputFault: Option<Error>

    var prompts: seq<Prompt>
    var output: seq<Output>

    constructor (persistentState: PersistentState, destSystem: System, persistentStateFile: AbsPath, force: bool,
                 state: StateCmdConfig, answer: Result<string, Error>, outputFault: Option<Error>)
      ensures this.persistentState == persistentState && this.destSystem == destSystem
      ensures this.persistentStateFile == persistentStateFile && this.force == force && this.state == state
      ensures this.answer == answer && this.outputFault == outputFault
      ensures prompts == [] && output == []
    {
      this.persistentState := persistentState;
      this.destSystem := destSystem;
      this.persistentStateFile := persistentStateFile;
      this.force := force;
      this.state := state;
      this.answer := answer;
      this.outputFault := outputFault;
      prompts := [];
      output := [];
    }

    method PromptChoice(message: string, choices: seq<string>) returns (r: Result<string, Error>)
      modifies this`prompts
      ensures prompts == old(prompts) + [Prompt(message, choices)]
      ensures r == answer
    {
      prompts := prompts + [Prompt(message, choices)];
      r := answer;
    }

    method WriteOutput(data: Bytes) returns (err: Option<Error>)
      modifies this`output
      ensures output == old(output) + [Raw(data)] && err == outputFault
    {
      output := output + [Raw(data)];
      err := outputFault;
    }

    /** Serialisation is not modelled: the output records the format and
        the data handed over. */
    method Marshal(format: string, data: Buckets) returns (err: Option<Error>)
      modifies this`output
      ensures output == old(output) + [Marshalled(format, data)] && err == outputFault
    {
      output := output + [Marshalled(format, data)];
      err := outputFault;
    }

    // -------------------------------------------------------------------
    // Handlers

    /** `state data`: a failing store is reported before anything is written. */
    method RunStateDataCmd() returns (err: Option<Error>)
      modifies this`output
      ensures persistentState.fault.Some? ==> err == persistentState.fault && output == old(output)
      ensures persistentState.fault.None? ==>
                output == old(output) + [Marshalled(state.data.format, persistentState.buckets)] && err == outputFault
    {
      var data := persistentState.Data();
      if data.Failure? {
        return Some(data.error);
      }
      err := Marshal(state.data.format, data.value);
    }

    /** `state delete`: the flags' bytes go to the store unchanged. */
    method RunStateDeleteCmd() returns (err: Option<Error>)
      modifies persistentState`buckets, persistentState`deleteCalls
      ensures err == persistentState.WriteError()
      ensures persistentState.buckets ==
                if err.Some? then old(persistentState.buckets)
                else Erase(old(persistentState.buckets), state.delete.bucket, state.delete.key)
      ensures persistentState.deleteCalls == old(persistentState.deleteCalls) + 1
    {
      err := persistentState.Delete(state.delete.bucket, state.delete.key);
    }

    /** `state dump`: as `state data`, with its own format flag. */
    method RunStateDumpCmd() returns (err: Option<Error>)
      modifies this`output
      ensures persistentState.fault.Some? ==> err == persistentState.fault && output == old(output)
      ensures persistentState.fault.None? ==>
                output == old(output) + [Marshalled(state.dump.format, persistentState.buckets)] && err == outputFault
    {
      var data := persistentState.Data();
      if data.Failure? {
        return Some(data.error);
      }
      err := Marshal(state.dump.format, data.value);
    }

    /** `state get`: the stored value, written unchanged; an absent key
        writes nothing (a nil slice); a failing store writes nothing at all. */
    method RunStateGetCmd() returns (err: Option<Error>)
      modifies this`output
      ensures persistentState.fault.Some? ==> err == persistentState.fault && output == old(output)
      ensures persistentState.fault.None? ==>
                && output == old(output) + [Raw(Lookup(persistentState.buckets, state.get.bucket, state.get.key).GetOr([]))]
                && err == outputFault
    {
      var value := persistentState.Get(state.get.bucket, state.get.key);
      if value.Failure? {
        return Some(value.error);
      }
      err := WriteOutput(value.value.GetOr([]));
    }

    /** `state reset`: stat the state file, then the force check, then the
        yes/no prompt, then `RemoveAll`, returning early as the decision says. */
    method RunStateResetCmd() returns (err: Option<Error>)
      modifies this`prompts, destSystem`statCalls, destSystem`fs, destSystem`removeAllCalls
      ensures destSystem.statCalls == old(destSystem.statCalls) + 1
      ensures var stat := old(destSystem.Inspection(StatOp, persistentStateFile));
              prompts == old(prompts) + if ResetPrompts(stat, force) then [Prompt("Remove " + persistentStateFile, ["yes", "no"])] else []
      ensures var step := ResetDecision(old(destSystem.Inspection(StatOp, persistentStateFile)), force, answer);
              && (step.Return? ==> && err == step.err
                                   && destSystem.fs == old(destSystem.fs)
                                   && destSystem.removeAllCalls == old(destSystem.removeAllCalls))
              && (step.RemoveStateFile? ==> && err == old(destSystem.RemoveAllResult(persistentStateFile))
                                            && destSystem.fs == old(destSystem.AfterRemoveAll(persistentStateFile))
                                            && destSystem.removeAllCalls == old(destSystem.removeAllCalls) + [persistentStateFile])
    {
      var path := persistentStateFile;
      var stat := destSystem.Stat(path);
      if stat.Failure? && IsNotExist(stat.error) {
        return None;
      } else if stat.Failure? {
        return Some(stat.error);
      }
      if !force {
        var choice := PromptChoice("Remove " + path, ["yes", "no"]);
        match choice {
          case Failure(e) => return Some(e);
          case Success(c) =>
            if c == "no" {
              return None;
            }
        }
      }
      err := destSystem.RemoveAll(path);
    }

    /** `state set`: the flags' bytes go to the store unchanged. */
    method RunStateSetCmd() returns (err: Option<Error>)
      modifies persistentState`buckets, persistentState`setCalls
      ensures err == persistentState.WriteError()
      ensures persistentState.buckets ==
                if err.Some? then old(persistentState.buckets)
                else Upsert(old(persistentState.buckets), state.setFlags.bucket, state.setFlags.key, state.setFlags.value)
      ensures persistentState.setCalls == old(persistentState.setCalls) + 1
    {
      err := persistentState.Set(state.setFlags.bucket, state.setFlags.key, state.setFlags.value);
    }

    /** Running a subcommand: those annotated read-only never write to the
        store, `reset` leaves the store alone and is the only one to touch
        the filesystem, and the store is written only by subcommands
        annotated read-write, which a store opened read-write and not
        failing never refuses. */
    method Run(cmd: Subcommand) returns (err: Option<Error>)
      modifies this`output, this`prompts, persistentState`buckets, persistentState`setCalls, persistentState`deleteCalls
      modifies destSystem`statCalls, destSystem`fs, destSystem`removeAllCalls
      ensures AnnotationOf(cmd) != PersistentStateMode(ReadWrite) ==>
                && persistentState.buckets == old(persistentState.buckets)
                && persistentState.setCalls == old(persistentState.setCalls)
                && persistentState.deleteCalls == old(persistentState.deleteCalls)
      ensures AnnotationOf(cmd) != ModifiesDestinationDirectory ==>
                destSystem.fs == old(destSystem.fs) && destSystem.removeAllCalls == old(destSystem.removeAllCalls)
      ensures AnnotationOf(cmd) == PersistentStateMode(ReadWrite) && persistentState.mode == ReadWrite && persistentState.fault.None? ==>
                err.None? && persistentState.setCalls + persistentState.deleteCalls == old(persistentState.setCalls + persistentState.deleteCalls) + 1
    {
      match cmd
      case DataCmd => err := RunStateDataCmd();
      case DeleteCmd => err := RunStateDeleteCmd();
      case DumpCmd => err := RunStateDumpCmd();
      case GetCmd => err := RunStateGetCmd();
      case ResetCmd => err := RunStateResetCmd();
      case SetCmd => err := RunStateSetCmd();
    }
  }
}
