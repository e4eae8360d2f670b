/** Outcome types shared by every phase of the interpreter. */
module Faults {
  import opened Word32

  datatype Option<+T> = None | Some(value: T)

  /**
   * The ways in which a run of the interpreter stops with a Java exception
   * (or, for `NoProgress`, never returns) instead of finishing.  None of them
   * is caught by the interpreter: each one ends the whole run.
   */
  datatype Fault =
    | MalformedEquiv(line: string)         // `.equiv` line without a name or a value field
    | NoProgress                           // replacing an empty `.equiv` name never terminates
    | NoSuchLine(index: int)               // a line index outside the list, e.g. -1 for a missing `.data`
    | BadRegion(startIndex: int, endIndex: int) // the code region's bounds do not form a valid sub-list
    | MalformedData(line: string)          // `.word` without operand, number out of range, `.string` without quotes
    | MissingOperand(instr: string)        // an operand index past the end of the split instruction
    | BadNumber(text: string)              // `Integer.parseInt` rejects the text
    | BadAddressing(token: string)         // parentheses or sign of an `off(reg)` token out of place
    | UnknownRegister(name: Option<string>) // a register read whose value is null
    | UnknownLabel(name: Option<string>)   // a label lookup whose value is null
    | UnmappedWord(address: Option<i32>)   // a word read whose value is null (`None`: the null key)
    | MissingImmediate                     // the immediate field was never set
    | DivideByZero                         // `div` by zero
    | PcOutOfRange(pc: int)                // the instruction list has no entry at `pc / 4`
    | UnterminatedString(start: Option<i32>)   // an `ecall` 4 string that never reaches a zero byte

  /** A value, or the fault that stopped the run; `:-` passes the fault on. */
  datatype Result<+T> = Ok(value: T) | Err(fault: Fault) {
    predicate IsFailure() { Err? }

    function PropagateFailure<U>(): Result<U>
      requires Err?
    {
      Err(fault)
    }

    function Extract(): T
      requires Ok?
    {
      value
    }
  }

  /** The exception a phase leaves behind: its fault, or none when it finished. */
  function ErrorOf<T>(r: Result<T>): (e: Option<Fault>)
    ensures e.None? <==> r.Ok?
  {
    if r.Err? then Some(r.fault) else None
  }
}
