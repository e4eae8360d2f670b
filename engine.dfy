/**
 * `runProgram` and `ecall`: the fetch/decode/dispatch loop over the
 * instruction list, as functions of the machine state.  The `Interpreter`
 * class runs the same loop on its fields and is proved to agree with `Run`.
 */
module Engine {
  import opened Faults
  import opened Word32
  import opened Text
  import opened Loader
  import opened Decoder

  /** The watchdog: a run stops after this many dispatched instructions. */
  const CYCLE_LIMIT: int := 300000

  /** What `ecall` 9 puts in `a0`. */
  const HEAP_BASE: i32 := 0x1000_8000

  /** `HashMap<String, Integer>`: register names to values; `None` is `null`. */
  type Regs = map<Option<string>, Option<i32>>

  /** What loading produced and running only reads: the instruction list and the label table. */
  datatype Program = Program(instructions: seq<string>, labels: map<string, i32>)

  /**
   * Everything a run changes: the interpreter's registers, memory, output
   * buffer, flags and instruction-level fields, and `runProgram`'s local
   * `pc` and `cycles`.
   */
  datatype Machine = Machine(regs: Regs, memory: Memory, printer: string, active: bool,
                             badbadbad: bool, ops: Operands, pc: i32, cycles: int)

  /** `HashMap.get`: the value stored under `k`, or `null` when there is none. */
  function Get<K, V>(m: map<K, Option<V>>, k: K): Option<V>
  {
    if k in m then m[k] else None
  }

  /** `regs.get(r)` unboxed to an `int`: a `null` value is an exception. */
  function Reg(regs: Regs, r: Option<string>): (v: Result<i32>)
    ensures v.Ok? <==> Get(regs, r).Some?
    ensures v.Ok? ==> Get(regs, r) == Some(v.value)
  {
    match Get(regs, r)
    case None => Err(UnknownRegister(r))
    case Some(x) => Ok(x)
  }

  /** `imm` unboxed to an `int`. */
  function Imm(o: Operands): (v: Result<i32>)
    ensures v.Ok? <==> o.imm.Some?
  {
    match o.imm
    case None => Err(MissingImmediate)
    case Some(x) => Ok(x)
  }

  /** `labels.get(label)`: `null` for a missing label, or for a `null` name. */
  function LabelAddress(p: Program, l: Option<string>): Option<i32>
  {
    if l.Some? && l.value in p.labels then Some(p.labels[l.value]) else None
  }

  /** `labels.get(label) - 4`: the `pc` from which the next instruction is the label's. */
  function JumpTarget(p: Program, l: Option<string>): (r: Result<i32>)
    ensures r.Ok? <==> l.Some? && l.value in p.labels
  {
    match LabelAddress(p, l)
    case None => Err(UnknownLabel(l))
    case Some(a) => Ok(Wrap(a - 4))
  }

  // ---------------------------------------------------------------------
  // Mnemonics

  /** The mnemonics `runProgram`'s `switch` knows, by group. */
  datatype ArithOp = LUI | ADD | MV | ADDI | LI | LA | XOR | DIV | SLLI | SRLI | MUL | OR | AND | SUB | REM
  datatype BranchOp = BEQ | BNE | BLT | BGE | BLTU | BGEU | BEQZ | BNEZ | BGTZ | BGEZ | BLEZ | BLTZ
  datatype JumpOp = JAL | J | JR | JALR
  datatype MemoryOp = SW | LW | LB | SB

  /** A `switch` case, or the `default` branch for any other string. */
  datatype Op = Arith(a: ArithOp) | Branch(b: BranchOp) | Jump(j: JumpOp) | Access(mem: MemoryOp) | ECALL | Unknown(name: string)

  /** The `switch (instruction)`: which case a mnemonic reaches. */
  function Classify(mn: string): (op: Op)
  {
    if mn == "lui" then Arith(LUI) else if mn == "add" then Arith(ADD)
    else if mn == "jal" then Jump(JAL) else if mn == "mv" then Arith(MV)
    else if mn == "addi" then Arith(ADDI) else if mn == "sw" then Access(SW)
    else if mn == "li" then Arith(LI) else if mn == "lw" then Access(LW)
    else if mn == "ecall" then ECALL else if mn == "beq" then Branch(BEQ)
    else if mn == "bne" then Branch(BNE) else if mn == "blt" then Branch(BLT)
    else if mn == "bge" then Branch(BGE) else if mn == "bltu" then Branch(BLTU)
    else if mn == "bgeu" then Branch(BGEU) else if mn == "beqz" then Branch(BEQZ)
    else if mn == "bnez" then Branch(BNEZ) else if mn == "bgtz" then Branch(BGTZ)
    else if mn == "bgez" then Branch(BGEZ) else if mn == "blez" then Branch(BLEZ)
    else if mn == "bltz" then Branch(BLTZ) else if mn == "jr" then Jump(JR)
    else if mn == "la" then Arith(LA) else if mn == "j" then Jump(J)
    else if mn == "xor" then Arith(XOR) else if mn == "div" then Arith(DIV)
    else if mn == "slli" then Arith(SLLI) else if mn == "srli" then Arith(SRLI)
    else if mn == "jalr" then Jump(JALR) else if mn == "mul" then Arith(MUL)
    else if mn == "or" then Arith(OR) else if mn == "and" then Arith(AND)
    else if mn == "sub" then Arith(SUB) else if mn == "lb" then Access(LB)
    else if mn == "sb" then Access(SB) else if mn == "rem" then Arith(REM)
    else Unknown(mn)
  }

  // ---------------------------------------------------------------------
  // Register arithmetic

  /**
   * `rem`: both registers are read first; a zero divisor gives 0, and so does
   * `Integer.MIN_VALUE % -1`; otherwise Java's remainder.  A `null` divisor,
   * or a `null` dividend with a nonzero divisor, is an exception.
   */
  function RemValue(o: Operands, r1: Option<i32>, r2: Option<i32>): Result<i32>
  {
    if r2.None? then Err(UnknownRegister(o.reg2))
    else if r2.value == 0 then Ok(0)
    else if r1.None? then Err(UnknownRegister(o.reg1))
    else if r1.value == MIN_INT && r2.value == -1 then Ok(0)
    else Ok(Rem(r1.value, r2.value))
  }

  /** `regs.get(reg1) op regs.get(reg2)` on Java `int`s; `div` by zero is an exception. */
  function Binary(a: ArithOp, x: i32, y: i32): Result<i32>
  {
    match a
    case ADD => Ok(Wrap(x + y))
    case SUB => Ok(Wrap(x - y))
    case MUL => Ok(Wrap(x * y))
    case XOR => Ok(Xor(x, y))
    case OR => Ok(Or(x, y))
    case AND => Ok(And(x, y))
    case DIV => if y == 0 then Err(DivideByZero) else Ok(Wrap(Quot(x, y)))
    case _ => Ok(x)
  }

  /** The value `regs.put(regTo, ...)` stores for an arithmetic mnemonic; it may be `null`. */
  function Compute(p: Program, regs: Regs, o: Operands, a: ArithOp): Result<Option<i32>>
  {
    match a
    case LUI =>
      var i :- Imm(o);
      Ok(Some(ShiftLeft(i, 12)))
    case MV => Ok(Get(regs, o.reg1))
    case LI => Ok(o.imm)
    case LA => Ok(LabelAddress(p, o.labelName))
    case REM =>
      var v :- RemValue(o, Get(regs, o.reg1), Get(regs, o.reg2));
      Ok(Some(v))
    case ADDI | SLLI | SRLI =>
      var x :- Reg(regs, o.reg1);
      var i :- Imm(o);
      Ok(Some(if a == ADDI then Wrap(x + i) else if a == SLLI then ShiftLeft(x, i) else ShiftRight(x, i)))
    case _ =>
      var x :- Reg(regs, o.reg1);
      var y :- Reg(regs, o.reg2);
      var v :- Binary(a, x, y);
      Ok(Some(v))
  }

  /** An arithmetic instruction: the computed value is put under `regTo`. */
  function ArithStep(p: Program, m: Machine, a: ArithOp): Result<Machine>
  {
    var v :- Compute(p, m.regs, m.ops, a);
    Ok(m.(regs := m.regs[m.ops.regTo := v]))
  }

  // ---------------------------------------------------------------------
  // Branches and jumps

  /**
   * Whether a branch is taken.  `regTo` is unboxed first; `beq` and `bne`
   * compare with `Integer.equals`, so a `null` second register is simply
   * unequal, while the ordered comparisons unbox it too.
   */
  function Taken(regs: Regs, o: Operands, b: BranchOp): Result<bool>
  {
    var x :- Reg(regs, o.regTo);
    match b
    case BEQ => Ok(Get(regs, o.reg1) == Some(x))
    case BNE => Ok(Get(regs, o.reg1) != Some(x))
    case BLT | BGE | BLTU | BGEU =>
      var y :- Reg(regs, o.reg1);
      Ok(match b
         case BLT => x < y
         case BGE => x >= y
         case BLTU => Unsigned(x) < Unsigned(y)
         case _ => Unsigned(x) >= Unsigned(y))
    case BEQZ => Ok(x == 0)
    case BNEZ => Ok(x != 0)
    case BGTZ => Ok(x > 0)
    case BGEZ => Ok(x >= 0)
    case BLEZ => Ok(x <= 0)
    case BLTZ => Ok(x < 0)
  }

  /** A taken branch moves `pc` to four bytes before the label; the label is looked up only then. */
  function BranchStep(p: Program, m: Machine, b: BranchOp): Result<Machine>
  {
    var taken :- Taken(m.regs, m.ops, b);
    if !taken then Ok(m)
    else
      var t :- JumpTarget(p, m.ops.labelName);
      Ok(m.(pc := t))
  }

  /** `jal` and `jalr` first store `pc + 4` in `ra`; `jalr` then reads its register from the updated map. */
  function JumpStep(p: Program, m: Machine, j: JumpOp): Result<Machine>
  {
    var linked := m.regs[Some("ra") := Some(NextPc(m.pc))];
    match j
    case JAL =>
      var t :- JumpTarget(p, m.ops.labelName);
      Ok(m.(regs := linked, pc := t))
    case J =>
      var t :- JumpTarget(p, m.ops.labelName);
      Ok(m.(pc := t))
    case JR =>
      var x :- Reg(m.regs, m.ops.regTo);
      Ok(m.(pc := Wrap(x - 4)))
    case JALR =>
      var x :- Reg(linked, m.ops.regTo);
      Ok(m.(regs := linked, pc := Wrap(x - 4)))
  }

  // ---------------------------------------------------------------------
  // Memory access

  /** `regs.get(reg1) + imm`. */
  function Address(regs: Regs, o: Operands): Result<i32>
  {
    var x :- Reg(regs, o.reg1);
    var i :- Imm(o);
    Ok(Wrap(x + i))
  }

  /**
   * The memory key of `sw` and `lw`: the raw instruction is split again, and
   * a third field holding `(` means `off(reg)` addressing; otherwise the
   * label's address, which is `null` for an unknown label.
   */
  function WordKey(p: Program, regs: Regs, o: Operands, instr: string): Result<Option<i32>>
  {
    var f := Split(instr, ' ');
    if |f| < 3 then Err(MissingOperand(instr))
    else if '(' in f[2] then
      var x :- Address(regs, o);
      Ok(Some(x))
    else Ok(LabelAddress(p, o.labelName))
  }

  /** `lb`: the byte at `addr`, from its aligned word, sign-extended; an unwritten word is an exception. */
  function LoadByte(memory: Memory, addr: i32): Result<i32>
  {
    var key := Some(AlignDown(addr));
    match Get(memory, key)
    case None => Err(UnmappedWord(key))
    case Some(w) => Ok(SignExtend(Lane(w, LaneIndex(addr))))
  }

  /**
   * `sb`: the low byte of `x` replaces the byte at `addr` in its aligned
   * word; a word never written counts as 0, one holding `null` is an exception.
   */
  function StoreByte(memory: Memory, addr: i32, x: i32): Result<Memory>
  {
    var key := Some(AlignDown(addr));
    var w :- if key !in memory then Ok(0)
             else if memory[key].None? then Err(UnmappedWord(key))
             else Ok(memory[key].value);
    Ok(memory[key := Some(SetLane(w, LaneIndex(addr), LowByte(x)))])
  }

  /** A memory instruction; `sb` unboxes the stored register before it computes the address. */
  function AccessStep(p: Program, m: Machine, x: MemoryOp, instr: string): Result<Machine>
  {
    var o := m.ops;
    match x
    case SW =>
      var key :- WordKey(p, m.regs, o, instr);
      Ok(m.(memory := m.memory[key := Get(m.regs, o.regTo)]))
    case LW =>
      var key :- WordKey(p, m.regs, o, instr);
      Ok(m.(regs := m.regs[o.regTo := Get(m.memory, key)]))
    case LB =>
      var a :- Address(m.regs, o);
      var v :- LoadByte(m.memory, a);
      Ok(m.(regs := m.regs[o.regTo := Some(v)]))
    case SB =>
      var v :- Reg(m.regs, o.regTo);
      var a :- Address(m.regs, o);
      var mem :- StoreByte(m.memory, a, v);
      Ok(m.(memory := mem))
  }

  // ---------------------------------------------------------------------
  // ecall

  /** `StringBuilder.append(Object)` of a register value: its decimal form, or `null`. */
  function Shown(v: Option<i32>): string
  {
    if v.None? then "null" else Decimal(v.value)
  }

  /** Text appended before the rest of a string being printed, or the fault that stops it. */
  function Then(prefix: string, r: Result<string>): (t: Result<string>)
    ensures t.Ok? <==> r.Ok?
    ensures t.Ok? ==> t.value == prefix + r.value
  {
    match r
    case Err(f) => Err(f)
    case Ok(s) => Ok(prefix + s)
  }

  /** Nothing appended before the rest is the rest. */
  lemma ThenEmpty(r: Result<string>)
    ensures Then("", r) == r
  {
    if r.Ok? {
      assert "" + r.value == r.value;
    }
  }

  /** Appending one character, then the rest, is appending both. */
  lemma ThenPrepend(prefix: string, c: char, r: Result<string>)
    ensures Then(prefix, Then([c], r)) == Then(prefix + [c], r)
  {
    if r.Ok? {
      assert prefix + ([c] + r.value) == (prefix + [c]) + r.value;
    }
  }

  /**
   * The loop of `ecall` 4 once `counter` is `n` and `value` is the word in
   * hand (read from `key`): each step prints the low byte, then shifts the
   * word right by eight bits, or, after every fourth byte, reads the word at
   * `a1 + counter`.  It ends at a zero word or a zero byte.  Java's `counter`
   * is an `int`; once it has gone round all 2^32 values the loop is back
   * where it started and can never end, which is the fault
   * `UnterminatedString`.
   */
  function StringFrom(memory: Memory, base: Option<i32>, key: Option<i32>, value: Option<i32>, n: nat): Result<string>
    requires n <= TWO32
    decreases TWO32 - n
  {
    if value.None? then Err(UnmappedWord(key))
    else if value.value == 0 then Ok("")
    else if n == TWO32 then Err(UnterminatedString(base))
    else if Lane(value.value, 0) == 0 then Ok("")
    else
      var c := Lane(value.value, 0) as char;
      Then([c],
        if (n + 1) % 4 != 0 then StringFrom(memory, base, key, Some(value.value / 256), n + 1)
        else if base.None? then Err(UnknownRegister(Some("a1")))
        else
          var k := Some(Wrap(base.value + (n + 1)));
          StringFrom(memory, base, k, Get(memory, k), n + 1))
  }

  /** What `ecall` 4 prints: the string at the address in `a1`. */
  function PrintString(regs: Regs, memory: Memory): Result<string>
  {
    var base := Get(regs, Some("a1"));
    StringFrom(memory, base, base, Get(memory, base), 0)
  }

  /** `memory.get(a1 + 4 * (j / 4))`: the word that holds byte `j` of the text at `base`. */
  function WordAt(memory: Memory, base: i32, j: nat): Option<i32>
  {
    Get(memory, Some(Wrap(base + 4 * (j / 4))))
  }

  /** Byte `j` of the text at `base`: lane `j % 4` of its word, if that word holds a value. */
  function ByteAt(memory: Memory, base: i32, j: nat): Option<byte>
  {
    match WordAt(memory, base, j)
    case None => None
    case Some(w) => Some(Lane(w, j % 4))
  }

  /** `value` when `counter` is `j`: the word of byte `j`, shifted right past the bytes already printed. */
  function ValueAt(memory: Memory, base: i32, j: nat): Option<i32>
  {
    match WordAt(memory, base, j)
    case None => None
    case Some(w) => Some(Shifted(w, j % 4))
  }

  /** The characters of `s` from `n` on are nonzero bytes stored from `base`, and a zero byte follows them. */
  predicate HoldsFrom(memory: Memory, base: i32, s: string, n: nat)
  {
    (forall j :: n <= j < |s| ==> s[j] != 0 as char && ByteAt(memory, base, j).Some? && ByteAt(memory, base, j).value == s[j] as int) &&
    ByteAt(memory, base, |s|) == Some(0)
  }

  /** The loop of `ecall` 4 at byte `n` of the text at `base`. */
  function PrintFrom(memory: Memory, base: i32, n: nat): Result<string>
    requires n <= TWO32
  {
    StringFrom(memory, Some(base), Some(Wrap(base + 4 * (n / 4))), ValueAt(memory, base, n), n)
  }

  /** At a zero byte the loop stops and prints nothing more. */
  lemma PrintFromEnd(memory: Memory, base: i32, n: nat)
    requires n < TWO32 && ByteAt(memory, base, n) == Some(0)
    ensures PrintFrom(memory, base, n) == Ok("")
  {
    ShiftedLane(WordAt(memory, base, n).value, n % 4);
  }

  /** At a nonzero byte the loop prints it, then goes on with the next byte. */
  lemma PrintFromStep(memory: Memory, base: i32, n: nat)
    requires n < TWO32 && ByteAt(memory, base, n).Some? && ByteAt(memory, base, n).value != 0
    ensures PrintFrom(memory, base, n) == Then([ByteAt(memory, base, n).value as char], PrintFrom(memory, base, n + 1))
  {
    var w := WordAt(memory, base, n).value;
    ShiftedLane(w, n % 4);
    if (n + 1) % 4 == 0 {
      assert 4 * ((n + 1) / 4) == n + 1;
    } else {
      assert (n + 1) / 4 == n / 4 && (n + 1) % 4 == n % 4 + 1;
    }
  }

  /**
   * The loop from byte `n` prints `s[n..]` exactly when those characters are
   * nonzero bytes stored from `base` and a zero byte follows them.
   */
  lemma {:induction false} PrintFromHolds(memory: Memory, base: i32, s: string, n: nat)
    requires n <= |s| < TWO32
    ensures PrintFrom(memory, base, n) == Ok(s[n..]) <==> HoldsFrom(memory, base, s, n)
    decreases |s| - n
  {
    var b := ByteAt(memory, base, n);
    if b == Some(0) {
      PrintFromEnd(memory, base, n);
      if n < |s| {
        assert s[n..] != "";
        assert !HoldsFrom(memory, base, s, n);
      }
    } else if b.None? {
      assert !HoldsFrom(memory, base, s, n);
    } else {
      PrintFromStep(memory, base, n);
      var c := b.value as char;
      if n < |s| {
        PrintFromHolds(memory, base, s, n + 1);
        var r := PrintFrom(memory, base, n + 1);
        assert s[n..] == [s[n]] + s[n + 1..];
        if r.Ok? {
          var t := [c] + r.value;
          assert t[0] == c && t[1..] == r.value;
          assert (t == s[n..]) <==> c == s[n] && r.value == s[n + 1..];
        }
        assert (c == s[n]) <==> (b.value == s[n] as int);
        assert HoldsFrom(memory, base, s, n) <==> c == s[n] && HoldsFrom(memory, base, s, n + 1);
      } else {
        assert !HoldsFrom(memory, base, s, n);
      }
    }
  }

  /**
   * `ecall` 4 prints a string `s` exactly when the characters of `s` are
   * nonzero bytes stored from the address in `a1`, byte `j` in lane `j % 4`
   * of the word at `a1 + 4 * (j / 4)`, and a zero byte follows them.  (A
   * Java string is shorter than 2^31 characters.)
   */
  lemma PrintStringHolds(regs: Regs, memory: Memory, s: string)
    requires Get(regs, Some("a1")).Some? && |s| < TWO32
    ensures PrintString(regs, memory) == Ok(s) <==> HoldsFrom(memory, Get(regs, Some("a1")).value, s, 0)
  {
    var base := Get(regs, Some("a1")).value;
    assert Wrap(base + 4 * (0 / 4)) == base;
    assert PrintString(regs, memory) == PrintFrom(memory, base, 0);
    PrintFromHolds(memory, base, s, 0);
  }

  /**
   * The round trip of `.string` and `ecall` 4: a literal of nonzero ASCII
   * characters, stored by `data` at some address, is printed back exactly
   * when `a1` holds that address.
   */
  lemma PrintPackedString(regs: Regs, lay: Layout, literal: string)
    requires forall k :: 0 <= k < |literal| ==> 0 < literal[k] as int < 128
    requires |literal| < 0x8000_0000
    requires Get(regs, Some("a1")) == Some(lay.address)
    ensures PrintString(regs, StoreWords(lay, PackString(literal)).memory) == Ok(literal)
  {
    var words := PackString(literal);
    var memory := StoreWords(lay, words).memory;
    PackStringLayout(literal);
    StoreWordsPlaces(lay, words);
    forall j | 0 <= j <= |literal|
      ensures ByteAt(memory, lay.address, j) == Some(if j < |literal| then literal[j] as int else 0)
    {
      assert StoredAt(lay, words, j / 4);
    }
    PrintStringHolds(regs, memory, literal);
  }

  /** `ecall`: a system call chosen by `a0`. */
  function Ecall(m: Machine): Result<Machine>
  {
    var code :- Reg(m.regs, Some("a0"));
    if code == 1 then Ok(m.(printer := m.printer + Shown(Get(m.regs, Some("a1")))))
    else if code == 11 then Ok(m.(printer := m.printer + "\n"))
    else if code == 4 then
      var s :- PrintString(m.regs, m.memory);
      Ok(m.(printer := m.printer + s))
    else if code == 9 then Ok(m.(regs := m.regs[Some("a0") := Some(HEAP_BASE)]))
    else if code == 10 then Ok(m.(active := false))
    else if code == 17 then
      var a1 :- Reg(m.regs, Some("a1"));
      Ok(m.(active := false, printer := m.printer + "Exited with error code " + Decimal(a1) + "\n"))
    else Ok(m)
  }

  // ---------------------------------------------------------------------
  // The loop

  /** One pass through the `switch`, before `pc` and `cycles` are advanced. */
  function Execute(p: Program, m: Machine, op: Op, instr: string): (r: Result<Machine>)
  {
    match op
    case Arith(a) => ArithStep(p, m, a)
    case Branch(b) => BranchStep(p, m, b)
    case Jump(j) => JumpStep(p, m, j)
    case Access(x) => AccessStep(p, m, x, instr)
    case ECALL => Ecall(m)
    case Unknown(_) => Ok(m.(badbadbad := true, active := false))
  }

  /** `pc += 4` on the `Integer` program counter. */
  function NextPc(pc: i32): i32
  {
    Wrap(pc + 4)
  }

  /** The switch followed by `pc += 4; cycles += 1`. */
  function Dispatch(p: Program, m: Machine, op: Op, instr: string): (r: Result<Machine>)
  {
    var e :- Execute(p, m, op, instr);
    Ok(e.(pc := NextPc(e.pc), cycles := m.cycles + 1))
  }

  /** The instruction at `pc`, or the exception of `instructions.get(pc / 4)`. */
  function Fetch(p: Program, pc: i32): (r: Result<string>)
    ensures r.Ok? <==> 0 <= Quot(pc, 4) < |p.instructions|
  {
    var i := Quot(pc, 4);
    if 0 <= i < |p.instructions| then Ok(p.instructions[i]) else Err(PcOutOfRange(pc))
  }

  /** One iteration of `runProgram`'s loop: fetch, `processInstruction`, dispatch. */
  function Step(p: Program, m: Machine): (r: Result<Machine>)
    ensures r.Ok? ==> r.value.cycles == m.cycles + 1
  {
    var instr :- Fetch(p, m.pc);
    Decoded(p, m, instr)
  }

  /** `processInstruction` on a fetched instruction, then the dispatch. */
  function Decoded(p: Program, m: Machine, instr: string): (r: Result<Machine>)
    ensures r.Ok? ==> r.value.cycles == m.cycles + 1
  {
    var d :- Decode(m.regs.Keys, m.ops, instr);
    Dispatch(p, m.(ops := d.1), Classify(d.0), instr)
  }

  /** `runProgram`'s loop: step while `active` and fewer than `CYCLE_LIMIT` cycles have run. */
  function Run(p: Program, m: Machine): Result<Machine>
    decreases CYCLE_LIMIT - m.cycles, 2
  {
    if !m.active then Ok(m)
    else Active(p, m)
  }

  /** The loop on an active machine: it stops at the watchdog's `CYCLE_LIMIT`. */
  function Active(p: Program, m: Machine): Result<Machine>
    requires m.active
    decreases CYCLE_LIMIT - m.cycles, 1
  {
    if m.cycles >= CYCLE_LIMIT then Ok(m)
    else Continue(p, m)
  }

  /** One cycle from a machine that may go on, then the run from there. */
  function Continue(p: Program, m: Machine): Result<Machine>
    requires m.active && m.cycles < CYCLE_LIMIT
    decreases CYCLE_LIMIT - m.cycles, 0
  {
    var next :- Step(p, m);
    Run(p, next)
  }

  /** A run that may go on is one step followed by the run from there. */
  lemma RunUnfold(p: Program, m: Machine)
    requires m.active && m.cycles < CYCLE_LIMIT
    ensures Step(p, m).Err? ==> Run(p, m) == Err(Step(p, m).fault)
    ensures Step(p, m).Ok? ==> Run(p, m) == Run(p, Step(p, m).value)
  {
    assert Run(p, m) == Active(p, m) == Continue(p, m);
  }

  // ---------------------------------------------------------------------
  // Properties of single instructions

  /**
   * `rem` never traps when both registers hold values: a zero divisor gives
   * 0, and every other divisor, `-1` under `Integer.MIN_VALUE` included,
   * gives the remainder of truncated division.  A zero divisor gives 0 even
   * when the dividend is `null`.
   */
  lemma RemNeverTraps(o: Operands, a: i32, b: i32, r1: Option<i32>)
    ensures RemValue(o, Some(a), Some(b)).Ok?
    ensures b == 0 ==> RemValue(o, Some(a), Some(b)).value == 0
    ensures b != 0 ==> RemValue(o, Some(a), Some(b)).value == Rem(a, b)
    ensures RemValue(o, r1, Some(0)) == Ok(0)
  {
    if a == MIN_INT && b == -1 {
      assert Rem(a, b) == 0;
    }
  }

  /** `getUnsignedInt` orders two ints as the signed order does when their signs agree; otherwise the non-negative one is smaller. */
  lemma UnsignedOrder(a: i32, b: i32)
    ensures Unsigned(a) < Unsigned(b) <==> if (a < 0) == (b < 0) then a < b else a >= 0
  {
  }

  /** `sb` then `lb` at the same address reads back the stored low byte, sign-extended. */
  lemma StoreThenLoadByte(memory: Memory, addr: i32, x: i32)
    requires StoreByte(memory, addr, x).Ok?
    ensures LoadByte(StoreByte(memory, addr, x).value, addr) == Ok(SignExtend(LowByte(x)))
  {
    var key := Some(AlignDown(addr));
    var w := if key !in memory then 0 else memory[key].value;
    SetLaneLanes(w, LaneIndex(addr), LowByte(x));
  }

  /**
   * `sb` fails only on a word holding `null`.  Otherwise it changes only the
   * aligned word of the address, and in it only the byte lane `addr & 3`;
   * the other three lanes keep the old word's bytes, or 0 when no word was
   * there.
   */
  lemma StoreByteLane(memory: Memory, addr: i32, x: i32)
    ensures var key := Some(AlignDown(addr));
            StoreByte(memory, addr, x).Err? <==> key in memory && memory[key].None?
    ensures var key := Some(AlignDown(addr));
            StoreByte(memory, addr, x).Ok? ==>
              var m' := StoreByte(memory, addr, x).value;
              var before := if key in memory then memory[key].value else 0;
              m'.Keys == memory.Keys + {key} &&
              (forall k :: k in memory && k != key ==> m'[k] == memory[k]) &&
              m'[key].Some? && Lane(m'[key].value, LaneIndex(addr)) == LowByte(x) &&
              (forall j :: 0 <= j < 4 && j != LaneIndex(addr) ==> Lane(m'[key].value, j) == Lane(before, j))
  {
    var key := Some(AlignDown(addr));
    if StoreByte(memory, addr, x).Ok? {
      var before := if key in memory then memory[key].value else 0;
      SetLaneLanes(before, LaneIndex(addr), LowByte(x));
    }
  }

  /** `sb` of the byte `lb` just read at the same address leaves memory as it was. */
  lemma LoadThenStoreByte(memory: Memory, addr: i32)
    requires LoadByte(memory, addr).Ok?
    ensures StoreByte(memory, addr, LoadByte(memory, addr).value) == Ok(memory)
  {
    var key := Some(AlignDown(addr));
    var w := memory[key].value;
    var k := LaneIndex(addr);
    var b := Lane(w, k);
    assert LowByte(SignExtend(b)) == b by {
      SignExtendLowByte(b);
    }
    assert SetLane(w, k, b) == w by {
      SetLaneSame(w, k);
    }
    StoreByteInto(memory, addr, SignExtend(b));
    assert memory[key := Some(w)] == memory;
  }

  /**
   * `lb` at another address of the same word after `sb` reads the byte that
   * was there before, or 0 when the word had never been written.
   */
  lemma StoreByteKeepsNeighbours(memory: Memory, addr: i32, x: i32, other: i32)
    requires StoreByte(memory, addr, x).Ok?
    requires AlignDown(other) == AlignDown(addr) && other != addr
    ensures Some(AlignDown(addr)) in memory ==>
              LoadByte(StoreByte(memory, addr, x).value, other) == LoadByte(memory, other)
    ensures Some(AlignDown(addr)) !in memory ==>
              LoadByte(StoreByte(memory, addr, x).value, other) == Ok(0)
  {
    var key := Some(AlignDown(addr));
    var before := if key in memory then memory[key].value else 0;
    var k, j := LaneIndex(addr), LaneIndex(other);
    var w := SetLane(before, k, LowByte(x));
    assert Lane(w, j) == Lane(before, j) by {
      SameWordOtherLane(addr, other);
      SetLaneLanes(before, k, LowByte(x));
    }
    if key in memory {
      StoreByteInto(memory, addr, x);
    } else {
      StoreByteFresh(memory, addr, x);
      assert Lane(0, j) == 0 by {
        LaneDigits(0);
      }
    }
    LoadStored(memory, key, w, other);
  }

  /** `sb` into a word that holds a value rewrites that word's lane and nothing else. */
  lemma StoreByteInto(memory: Memory, addr: i32, x: i32)
    requires Get(memory, Some(AlignDown(addr))).Some?
    ensures var key := Some(AlignDown(addr));
            StoreByte(memory, addr, x) == Ok(memory[key := Some(SetLane(memory[key].value, LaneIndex(addr), LowByte(x)))])
  {
  }

  /** `sb` into a word never written rewrites a lane of 0. */
  lemma StoreByteFresh(memory: Memory, addr: i32, x: i32)
    requires Some(AlignDown(addr)) !in memory
    ensures StoreByte(memory, addr, x) == Ok(memory[Some(AlignDown(addr)) := Some(SetLane(0, LaneIndex(addr), LowByte(x)))])
  {
  }

  /** Reading a byte of a word just stored reads that word's lane. */
  lemma LoadStored(memory: Memory, key: Option<i32>, w: i32, other: i32)
    requires key == Some(AlignDown(other))
    ensures LoadByte(memory[key := Some(w)], other) == Ok(SignExtend(Lane(w, LaneIndex(other))))
  {
  }

  /** Two different bytes of one aligned word sit in different lanes. */
  lemma SameWordOtherLane(a: i32, b: i32)
    requires AlignDown(a) == AlignDown(b) && a != b
    ensures LaneIndex(a) != LaneIndex(b)
  {
  }


  /** `labels.get(label) - 4` followed by `pc += 4` is the label's address. */
  lemma TargetThenAdvance(p: Program, l: Option<string>)
    requires JumpTarget(p, l).Ok?
    ensures Wrap(JumpTarget(p, l).value + 4) == p.labels[l.value]
  {
    WrapAddWrap(p.labels[l.value] as int - 4, 4);
  }

  /** `j` and `jal` continue exactly at their label's address. */
  lemma JumpLandsOnLabel(p: Program, m: Machine, j: JumpOp, instr: string)
    requires (j == J || j == JAL) && Dispatch(p, m, Jump(j), instr).Ok?
    ensures m.ops.labelName.Some? && m.ops.labelName.value in p.labels
    ensures Dispatch(p, m, Jump(j), instr).value.pc == p.labels[m.ops.labelName.value]
  {
    TargetThenAdvance(p, m.ops.labelName);
  }

  /**
   * A branch continues at its label's address when taken and at the next
   * instruction otherwise; it changes nothing but `pc` and `cycles`.
   */
  lemma BranchLandsOnLabel(p: Program, m: Machine, b: BranchOp, instr: string)
    requires Dispatch(p, m, Branch(b), instr).Ok?
    ensures Taken(m.regs, m.ops, b).Ok?
    ensures var r := Dispatch(p, m, Branch(b), instr).value;
            r == m.(pc := r.pc, cycles := m.cycles + 1)
    ensures Taken(m.regs, m.ops, b).value ==>
              m.ops.labelName.Some? && m.ops.labelName.value in p.labels &&
              Dispatch(p, m, Branch(b), instr).value.pc == p.labels[m.ops.labelName.value]
    ensures !Taken(m.regs, m.ops, b).value ==> Dispatch(p, m, Branch(b), instr).value.pc == Wrap(m.pc + 4)
  {
    if Taken(m.regs, m.ops, b).value {
      TargetThenAdvance(p, m.ops.labelName);
    }
  }

  /** `jal` and `jalr` leave the address of the next instruction in `ra`. */
  lemma LinkRegister(p: Program, m: Machine, j: JumpOp, instr: string)
    requires (j == JAL || j == JALR) && Dispatch(p, m, Jump(j), instr).Ok?
    ensures Get(Dispatch(p, m, Jump(j), instr).value.regs, Some("ra")) == Some(Wrap(m.pc + 4))
    ensures Dispatch(p, m, Jump(j), instr).value.memory == m.memory
  {
  }

  /**
   * `jr` and `jalr` go to the address in their register.  `jalr` reads it
   * after writing `ra`, so `jalr ra` simply goes on to the next instruction.
   */
  lemma RegisterJump(p: Program, m: Machine, j: JumpOp, instr: string)
    requires (j == JR || j == JALR) && Dispatch(p, m, Jump(j), instr).Ok?
    ensures j == JALR && m.ops.regTo == Some("ra") ==> Dispatch(p, m, Jump(j), instr).value.pc == Wrap(m.pc + 4)
    ensures j == JR || m.ops.regTo != Some("ra") ==>
              Get(m.regs, m.ops.regTo).Some? &&
              Dispatch(p, m, Jump(j), instr).value.pc == Get(m.regs, m.ops.regTo).value
  {
    var linked := if j == JALR then m.regs[Some("ra") := Some(Wrap(m.pc + 4))] else m.regs;
    var x := Reg(linked, m.ops.regTo).value;
    WrapAddWrap(x as int - 4, 4);
  }

  /**
   * Arithmetic instructions fall through to the next instruction, touch
   * neither memory, the output nor the flags, and write only the register
   * `regTo`.
   */
  lemma StraightLine(p: Program, m: Machine, a: ArithOp, instr: string)
    requires Dispatch(p, m, Arith(a), instr).Ok?
    ensures var r := Dispatch(p, m, Arith(a), instr).value;
            r.pc == Wrap(m.pc + 4) && r.printer == m.printer && r.active == m.active &&
            r.badbadbad == m.badbadbad && r.memory == m.memory
    ensures var r := Dispatch(p, m, Arith(a), instr).value;
            r.regs.Keys == m.regs.Keys + {m.ops.regTo} &&
            forall k :: k in m.regs && k != m.ops.regTo ==> r.regs[k] == m.regs[k]
  {
  }

  /**
   * Memory instructions fall through to the next instruction and touch
   * neither the output nor the flags; a load writes only `regTo`, with the
   * word at its key or the byte at its address, and a store writes only the
   * memory, with `regTo`'s value at that key or its low byte at that address.
   */
  lemma AccessFallsThrough(p: Program, m: Machine, x: MemoryOp, instr: string)
    requires Dispatch(p, m, Access(x), instr).Ok?
    ensures var r := Dispatch(p, m, Access(x), instr).value;
            r.pc == Wrap(m.pc + 4) && r.printer == m.printer && r.active == m.active &&
            r.badbadbad == m.badbadbad
    ensures var r := Dispatch(p, m, Access(x), instr).value;
            (x == SW || x == SB) ==> r.regs == m.regs
    ensures var r := Dispatch(p, m, Access(x), instr).value;
            (x == LW || x == LB) ==> r.memory == m.memory && r.regs.Keys == m.regs.Keys + {m.ops.regTo} &&
                                     forall k :: k in m.regs && k != m.ops.regTo ==> r.regs[k] == m.regs[k]
    ensures var r := Dispatch(p, m, Access(x), instr).value;
            x == LW ==> WordKey(p, m.regs, m.ops, instr).Ok? &&
                        r.regs[m.ops.regTo] == Get(m.memory, WordKey(p, m.regs, m.ops, instr).value)
    ensures var r := Dispatch(p, m, Access(x), instr).value;
            x == SW ==> WordKey(p, m.regs, m.ops, instr).Ok? &&
                        r.memory == m.memory[WordKey(p, m.regs, m.ops, instr).value := Get(m.regs, m.ops.regTo)]
    ensures var r := Dispatch(p, m, Access(x), instr).value;
            x == LB ==> Address(m.regs, m.ops).Ok? && LoadByte(m.memory, Address(m.regs, m.ops).value).Ok? &&
                        r.regs[m.ops.regTo] == Some(LoadByte(m.memory, Address(m.regs, m.ops).value).value)
    ensures var r := Dispatch(p, m, Access(x), instr).value;
            x == SB ==> Reg(m.regs, m.ops.regTo).Ok? && Address(m.regs, m.ops).Ok? &&
                        StoreByte(m.memory, Address(m.regs, m.ops).value, Reg(m.regs, m.ops.regTo).value).Ok? &&
                        r.memory == StoreByte(m.memory, Address(m.regs, m.ops).value, Reg(m.regs, m.ops.regTo).value).value
  {
    assert Execute(p, m, Access(x), instr) == AccessStep(p, m, x, instr);
    AccessStepEffects(p, m, x, instr);
  }

  /** What each memory instruction changes, and with what, before `pc` and `cycles` move on. */
  lemma AccessStepEffects(p: Program, m: Machine, x: MemoryOp, instr: string)
    requires AccessStep(p, m, x, instr).Ok?
    ensures var r := AccessStep(p, m, x, instr).value;
            r.pc == m.pc && r.printer == m.printer && r.active == m.active && r.badbadbad == m.badbadbad
    ensures var r := AccessStep(p, m, x, instr).value;
            (x == SW || x == SB) ==> r.regs == m.regs
    ensures var r := AccessStep(p, m, x, instr).value;
            (x == LW || x == LB) ==> r.memory == m.memory && r.regs.Keys == m.regs.Keys + {m.ops.regTo} &&
                                     forall k :: k in m.regs && k != m.ops.regTo ==> r.regs[k] == m.regs[k]
    ensures var r := AccessStep(p, m, x, instr).value;
            x == LW ==> WordKey(p, m.regs, m.ops, instr).Ok? &&
                        r.regs[m.ops.regTo] == Get(m.memory, WordKey(p, m.regs, m.ops, instr).value)
    ensures var r := AccessStep(p, m, x, instr).value;
            x == SW ==> WordKey(p, m.regs, m.ops, instr).Ok? &&
                        r.memory == m.memory[WordKey(p, m.regs, m.ops, instr).value := Get(m.regs, m.ops.regTo)]
    ensures var r := AccessStep(p, m, x, instr).value;
            x == LB ==> Address(m.regs, m.ops).Ok? && LoadByte(m.memory, Address(m.regs, m.ops).value).Ok? &&
                        r.regs[m.ops.regTo] == Some(LoadByte(m.memory, Address(m.regs, m.ops).value).value)
    ensures var r := AccessStep(p, m, x, instr).value;
            x == SB ==> Reg(m.regs, m.ops.regTo).Ok? && Address(m.regs, m.ops).Ok? &&
                        StoreByte(m.memory, Address(m.regs, m.ops).value, Reg(m.regs, m.ops.regTo).value).Ok? &&
                        r.memory == StoreByte(m.memory, Address(m.regs, m.ops).value, Reg(m.regs, m.ops.regTo).value).value
  {
    match x
    case SW =>
    case LW =>
    case LB =>
    case SB =>
  }

  /**
   * `ecall` never writes memory and writes at most `a0` (with `HEAP_BASE`,
   * for code 9); it clears `active` exactly for codes 10 and 17.
   */
  lemma EcallEffects(m: Machine)
    requires Ecall(m).Ok?
    ensures Get(m.regs, Some("a0")).Some?
    ensures var r := Ecall(m).value;
            var code := Get(m.regs, Some("a0")).value;
            r.memory == m.memory &&
            r.regs == (if code == 9 then m.regs[Some("a0") := Some(HEAP_BASE)] else m.regs) &&
            r.active == (m.active && code != 10 && code != 17) &&
            r.badbadbad == m.badbadbad && r.ops == m.ops && r.pc == m.pc && r.cycles == m.cycles
  {
    var code := Get(m.regs, Some("a0")).value;
    if code == 4 {
      var s := PrintString(m.regs, m.memory).value;
      assert Ecall(m).value == m.(printer := m.printer + s);
    } else if code == 17 {
      var a1 := Get(m.regs, Some("a1")).value;
      assert Ecall(m).value == m.(active := false, printer := m.printer + "Exited with error code " + Decimal(a1) + "\n");
    }
  }

  /**
   * What `ecall` appends to the output: the value of `a1` for code 1, a
   * newline for code 11, the string at `a1` for code 4, the exit message
   * for code 17, and nothing for any other code.
   */
  lemma EcallOutput(m: Machine)
    requires Ecall(m).Ok?
    ensures Get(m.regs, Some("a0")).Some?
    ensures var r := Ecall(m).value;
            var code := Get(m.regs, Some("a0")).value;
            var a1 := Get(m.regs, Some("a1"));
            (code == 4 ==> PrintString(m.regs, m.memory).Ok?) && (code == 17 ==> a1.Some?) &&
            r.printer == m.printer +
              if code == 1 then Shown(a1)
              else if code == 11 then "\n"
              else if code == 4 then PrintString(m.regs, m.memory).value
              else if code == 17 then "Exited with error code " + Decimal(a1.value) + "\n"
              else ""
  {
  }

  /** `ecall` fails only on a `null` in `a0`, a string it cannot print, or a `null` exit code. */
  lemma EcallFails(m: Machine)
    ensures var code := Get(m.regs, Some("a0"));
            Ecall(m).Err? <==>
              code.None? ||
              (code == Some(4) && PrintString(m.regs, m.memory).Err?) ||
              (code == Some(17) && Get(m.regs, Some("a1")).None?)
  {
  }

  /** An unknown mnemonic sets `badbadbad`, clears `active` and changes nothing else but `pc` and `cycles`. */
  lemma UnknownMnemonicHalts(p: Program, m: Machine, mn: string, instr: string)
    requires Classify(mn).Unknown?
    ensures Dispatch(p, m, Classify(mn), instr).Ok?
    ensures var r := Dispatch(p, m, Classify(mn), instr).value;
            r.badbadbad && !r.active && r.regs == m.regs && r.memory == m.memory && r.printer == m.printer
    ensures Run(p, Dispatch(p, m, Classify(mn), instr).value) == Dispatch(p, m, Classify(mn), instr)
  {
  }

  // ---------------------------------------------------------------------
  // Properties of the loop

  /** The `switch` never sets `active` again, and sets `badbadbad` only together with clearing `active`. */
  lemma ExecuteMonotone(p: Program, m: Machine, op: Op, instr: string)
    requires Execute(p, m, op, instr).Ok?
    ensures Execute(p, m, op, instr).value.active ==> m.active
    ensures m.badbadbad ==> Execute(p, m, op, instr).value.badbadbad
    ensures !m.badbadbad && Execute(p, m, op, instr).value.badbadbad ==> !Execute(p, m, op, instr).value.active
  {
    if op == ECALL {
      EcallEffects(m);
    }
  }

  /** No instruction sets `active` again or clears `badbadbad`. */
  lemma StepMonotone(p: Program, m: Machine)
    requires Step(p, m).Ok?
    ensures Step(p, m).value.active ==> m.active
    ensures m.badbadbad ==> Step(p, m).value.badbadbad
    ensures !m.badbadbad && Step(p, m).value.badbadbad ==> !Step(p, m).value.active
  {
    var instr := Fetch(p, m.pc).value;
    var d := Decode(m.regs.Keys, m.ops, instr).value;
    var m1 := m.(ops := d.1);
    ExecuteMonotone(p, m1, Classify(d.0), instr);
  }

  /**
   * A finished run stopped because `active` was cleared or the watchdog
   * fired; it ran no more than `CYCLE_LIMIT` cycles; `active` was never set
   * again; and `badbadbad`, once set, stayed set with `active` clear.
   */
  lemma {:induction false} RunStops(p: Program, m: Machine)
    requires Run(p, m).Ok?
    ensures var r := Run(p, m).value;
            (!r.active || r.cycles >= CYCLE_LIMIT) && m.cycles <= r.cycles &&
            (m.cycles <= CYCLE_LIMIT ==> r.cycles <= CYCLE_LIMIT) &&
            (r.active ==> m.active) &&
            (m.badbadbad ==> r.badbadbad) &&
            ((m.badbadbad ==> !m.active) ==> (r.badbadbad ==> !r.active))
    decreases CYCLE_LIMIT - m.cycles
  {
    if m.active && m.cycles < CYCLE_LIMIT {
      RunUnfold(p, m);
      var next := Step(p, m).value;
      StepMonotone(p, m);
      RunStops(p, next);
    }
  }
}
