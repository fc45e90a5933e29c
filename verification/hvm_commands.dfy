/**
  The command shape the VM translator's code writer and dispatch loop
  (`hvm/src/code.rs`, `hvm/src/translator.rs`) work with: segments are
  already classified and indices are unsigned integers.
 */
module HvmCommands {
  import opened RustInts

  /** The eight memory segments of the VM language. */
  datatype Segment = Argument | Local | Temp | That | This | Static | Constant | Pointer

  /**
    One VM command. `NewFile` marks the start of the commands of another
    `.vm` file; flow commands carry the enclosing function's name and the
    label.
   */
  datatype VmCommand =
    | NewFile(file: string)
    | Arithmetic(command: string)
    | Push(segment: Segment, index: U16)
    | Pop(segment: Segment, index: U16)
    | Call(callee: string, nargs: U8)
    | Function(name: string, nvars: U8)
    | Goto(owner: string, labelName: string)
    | If(owner: string, labelName: string)
    | Label(owner: string, labelName: string)
    | Return
}
