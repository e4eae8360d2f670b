/**
 * The `RiscVInterpreter` object itself: its fields, updated in place by the
 * constructor and the private phases it calls, each proved to agree with
 * the functions of `Preprocessor`, `Loader`, `Decoder` and `Engine`.
 */
module Interpreter {
  import opened Faults
  import opened Word32
  import opened Text
  import opened Preprocessor
  import opened Loader
  import opened Decoder
  import opened Engine

  // ---------------------------------------------------------------------
  // The register file `initRegs` creates

  /** A list of `regs.put(name, value)` calls. */
  type Puts = seq<(Option<string>, Option<i32>)>

  /** The map after the `put`s, in order: a later `put` of a name wins. */
  function PutAll(m: Regs, ps: Puts): Regs
  {
    if |ps| == 0 then m else PutAll(m, ps[..|ps| - 1])[ps[|ps| - 1].0 := ps[|ps| - 1].1]
  }

  /** The names after the `put`s are the names before and the names put. */
  lemma {:induction false} PutAllKeys(m: Regs, ps: Puts)
    ensures PutAll(m, ps).Keys == m.Keys + set i | 0 <= i < |ps| :: ps[i].0
  {
    if |ps| > 0 {
      var init := ps[..|ps| - 1];
      PutAllKeys(m, init);
      assert forall i :: 0 <= i < |init| ==> init[i] == ps[i];
      assert (set i | 0 <= i < |ps| :: ps[i].0) == (set i | 0 <= i < |init| :: init[i].0) + {ps[|ps| - 1].0};
    }
  }

  /** `for (int i = lo; i <= hi; i++) regs.put(prefix + i, 0)`. */
  function Family(prefix: string, lo: int, hi: int): (r: Puts)
    ensures forall k :: 0 <= k < |r| ==> r[k].1 == Some(0)
    decreases hi - lo
  {
    if hi < lo then [] else Family(prefix, lo, hi - 1) + [(Some(prefix + Decimal(hi)), Some(0))]
  }

  /** The numbered `put`s of `initRegs`: `a0`..`a7`, `t0`..`t6`, `s1`..`s11`. */
  function Families(): Puts
  {
    Family("a", 0, 7) + Family("t", 0, 6) + Family("s", 1, 11)
  }

  /** The named `put`s that follow. */
  function Fixed(): Puts
  {
    [(Some("fp"), Some(0)), (Some("sp"), Some(0x7fff_fff0)), (Some("gp"), Some(0x1000_0000)),
     (Some("ra"), Some(0)), (Some("zero"), Some(0)), (Some("x0"), Some(0))]
  }

  /** The `put`s of `initRegs`, in its order. */
  function InitialPuts(): Puts
  {
    Families() + Fixed()
  }

  lemma {:induction false} PutAllAppend(m: Regs, a: Puts, b: Puts)
    ensures PutAll(m, a + b) == PutAll(PutAll(m, a), b)
    decreases |b|
  {
    if |b| == 0 {
      assert a + b == a;
    } else {
      var init := b[..|b| - 1];
      PutAllAppend(m, a, init);
      assert (a + b)[..|a + b| - 1] == a + init;
      assert (a + b)[|a + b| - 1] == b[|b| - 1];
    }
  }

  /** The six named `put`s, one after the other. */
  lemma FixedPuts(m: Regs)
    ensures PutAll(m, Fixed()) ==
            m[Some("fp") := Some(0)][Some("sp") := Some(0x7fff_fff0)][Some("gp") := Some(0x1000_0000)]
             [Some("ra") := Some(0)][Some("zero") := Some(0)][Some("x0") := Some(0)]
  {
    var f := Fixed();
    assert f[..0] == [];
    assert f[..1][..0] == f[..0] && f[..2][..1] == f[..1] && f[..3][..2] == f[..2];
    assert f[..4][..3] == f[..3] && f[..5][..4] == f[..4] && f[..5] == f[..5];
    assert PutAll(m, f[..1]) == m[f[0].0 := f[0].1];
    assert PutAll(m, f[..2]) == PutAll(m, f[..1])[f[1].0 := f[1].1];
    assert PutAll(m, f[..3]) == PutAll(m, f[..2])[f[2].0 := f[2].1];
    assert PutAll(m, f[..4]) == PutAll(m, f[..3])[f[3].0 := f[3].1];
    assert PutAll(m, f[..5]) == PutAll(m, f[..4])[f[4].0 := f[4].1];
  }

  /** `put`s of 0 into a map of zeros leave a map of zeros. */
  lemma {:induction false} PutAllZeros(m: Regs, ps: Puts)
    requires forall k :: k in m ==> m[k] == Some(0)
    requires forall i :: 0 <= i < |ps| ==> ps[i].1 == Some(0)
    ensures forall k :: k in PutAll(m, ps) ==> PutAll(m, ps)[k] == Some(0)
  {
    if |ps| > 0 {
      PutAllZeros(m, ps[..|ps| - 1]);
    }
  }

  /** Putting one more member of a family is one more `put` after the others. */
  lemma PutFamilyNext(m: Regs, prefix: string, lo: int, i: int)
    requires lo <= i
    ensures PutAll(m, Family(prefix, lo, i)) == PutAll(m, Family(prefix, lo, i - 1))[Some(prefix + Decimal(i)) := Some(0)]
  {
    var f := Family(prefix, lo, i);
    assert f[..|f| - 1] == Family(prefix, lo, i - 1);
  }

  /** Each name of a numbered family is the prefix followed by the digits of a number in range. */
  lemma {:induction false} FamilyNames(prefix: string, lo: int, hi: int, k: int)
    requires 0 <= lo && 0 <= k < |Family(prefix, lo, hi)|
    ensures exists i :: lo <= i <= hi && Family(prefix, lo, hi)[k].0 == Some(prefix + NatDigits(i))
    decreases hi - lo
  {
    if k < |Family(prefix, lo, hi - 1)| {
      FamilyNames(prefix, lo, hi - 1, k);
      assert Family(prefix, lo, hi)[k] == Family(prefix, lo, hi - 1)[k];
    } else {
      assert Family(prefix, lo, hi)[k].0 == Some(prefix + NatDigits(hi));
    }
  }

  /** No numbered register is called `s0`: the `s` numbers start at 1. */
  lemma NotS0(prefix: string, lo: int, hi: int, k: int)
    requires (prefix == "s" && 0 < lo) || prefix == "a" || prefix == "t"
    requires 0 <= lo && 0 <= k < |Family(prefix, lo, hi)|
    ensures Family(prefix, lo, hi)[k].0 != Some("s0")
  {
    FamilyNames(prefix, lo, hi, k);
    var i :| lo <= i <= hi && Family(prefix, lo, hi)[k].0 == Some(prefix + NatDigits(i));
    var name := prefix + NatDigits(i);
    assert name[0] == prefix[0] && name[1] == NatDigits(i)[0];
  }

  /** The numbered registers all start at 0, and none is called `s0`. */
  lemma FamiliesShape()
    ensures forall i :: 0 <= i < |Families()| ==> Families()[i].1 == Some(0) && Families()[i].0 != Some("s0")
  {
    var fa, ft, fs := Family("a", 0, 7), Family("t", 0, 6), Family("s", 1, 11);
    forall i | 0 <= i < |Families()|
      ensures Families()[i].1 == Some(0) && Families()[i].0 != Some("s0")
    {
      if i < |fa| {
        NotS0("a", 0, 7, i);
        assert Families()[i] == fa[i];
      } else if i < |fa| + |ft| {
        NotS0("t", 0, 6, i - |fa|);
        assert Families()[i] == ft[i - |fa|];
      } else {
        NotS0("s", 1, 11, i - |fa| - |ft|);
        assert Families()[i] == fs[i - |fa| - |ft|];
      }
    }
  }

  /** The named `put`s on registers that all hold 0: only `sp` and `gp` end up nonzero. */
  lemma NamedPuts(f: Regs)
    requires forall k :: k in f ==> f[k] == Some(0)
    ensures var r := PutAll(f, Fixed());
            r.Keys == f.Keys + {Some("fp"), Some("sp"), Some("gp"), Some("ra"), Some("zero"), Some("x0")} &&
            r[Some("sp")] == Some(0x7fff_fff0) && r[Some("gp")] == Some(0x1000_0000) &&
            forall k :: k in r && k != Some("sp") && k != Some("gp") ==> r[k] == Some(0)
  {
    FixedPuts(f);
  }

  /** The registers of the numbered families, as `initRegs` leaves them before its named `put`s. */
  lemma NumberedRegs()
    ensures var f := PutAll(map[], Families());
            (forall k :: k in f ==> f[k] == Some(0)) && Some("s0") !in f && Some("a0") in f && Some("a1") in f
  {
    var ps := Families();
    FamiliesShape();
    PutAllZeros(map[], ps);
    PutAllKeys(map[], ps);
    var fa := Family("a", 0, 7);
    assert fa[0].0 == Some("a" + NatDigits(0)) && NatDigits(0) == "0" && "a" + "0" == "a0";
    assert fa[1].0 == Some("a" + NatDigits(1)) && NatDigits(1) == "1" && "a" + "1" == "a1";
    assert ps[0] == fa[0] && ps[1] == fa[1];
    assert ps[0].0 in (set i | 0 <= i < |ps| :: ps[i].0);
    assert ps[1].0 in (set i | 0 <= i < |ps| :: ps[i].0);
  }

  /**
   * After `initRegs` on an empty map, every register holds 0 except `sp`
   * and `gp`; `a0`, `a1` and `ra` exist.  There is no `s0`: the frame
   * pointer is only called `fp`.
   */
  lemma InitialRegsValues()
    ensures var r := PutAll(map[], InitialPuts());
            Get(r, Some("sp")) == Some(0x7fff_fff0) && Get(r, Some("gp")) == Some(0x1000_0000)
    ensures var r := PutAll(map[], InitialPuts());
            forall k :: k in r && k != Some("sp") && k != Some("gp") ==> r[k] == Some(0)
    ensures var r := PutAll(map[], InitialPuts());
            Some("a0") in r && Some("a1") in r && Some("ra") in r && Some("s0") !in r
  {
    var f := PutAll(map[], Families());
    NumberedRegs();
    NamedPuts(f);
    PutAllAppend(map[], Families(), Fixed());
  }

  // ---------------------------------------------------------------------
  // The whole construction

  /** `program.split("\n")` with every line trimmed. */
  function ProgramLines(program: string): seq<string>
  {
    TrimEach(Split(program, '\n'))
  }

  /** Every line trimmed. */
  function TrimEach(parts: seq<string>): (r: seq<string>)
    ensures |r| == |parts|
  {
    if |parts| == 0 then [] else TrimEach(parts[..|parts| - 1]) + [Trim(parts[|parts| - 1])]
  }

  /** Line `k` of `TrimEach` is line `k` trimmed. */
  lemma {:induction false} TrimEachAt(parts: seq<string>)
    ensures forall k :: 0 <= k < |parts| ==> TrimEach(parts)[k] == Trim(parts[k])
  {
    if |parts| > 0 {
      TrimEachAt(parts[..|parts| - 1]);
    }
  }

  /** The machine every run starts from: `initRegs`' registers, the loaded memory, an empty printer, `active`. */
  function Start(memory: Memory): Machine
  {
    Machine(PutAll(map[], InitialPuts()), memory, "", true, false, Unset, 0, 0)
  }

  /** The lines after `removeComments` and `makeEquivs`, which starts from an empty table. */
  function Prepared(program: string): Result<seq<string>>
  {
    var replaced :- ApplyEquivs(StripComments(ProgramLines(program)), []);
    Ok(replaced.0)
  }

  /** `makeData` then `makeInstructionList` on fresh tables: the layout and the instruction list. */
  function Loading(lines: seq<string>): Result<(Layout, seq<string>)>
  {
    var loaded :- LoadData(Layout(map[], map[], 0), lines);
    var instructions :- InstructionList(lines);
    Ok((loaded, instructions))
  }

  /**
   * What the constructor does with the cleaned lines: the data and code
   * labels laid out, the instruction list made, and the program run from
   * `pc` 0; or the exception that stops it.
   */
  function Finishing(lines: seq<string>): Result<(Program, Machine)>
  {
    var loaded :- Loading(lines);
    Running(loaded.0, loaded.1)
  }

  /** The program made of a layout and an instruction list, and its run from the layout's memory. */
  function Running(lay: Layout, instructions: seq<string>): Result<(Program, Machine)>
  {
    var p := Program(instructions, lay.labels);
    var m :- Run(p, Start(lay.memory));
    Ok((p, m))
  }

  /**
   * What the constructor computes for a program that does not read input:
   * the comments removed and the `.equiv` names replaced, then the rest of
   * `Finishing`; or the exception that stops it.
   */
  function Interpret(program: string): Result<(Program, Machine)>
  {
    var lines :- Prepared(program);
    Finishing(lines)
  }

  /** A cleaning fault is the constructor's exception. */
  lemma PreparedFails(program: string)
    requires Prepared(program).Err?
    ensures Interpret(program) == Err(Prepared(program).fault)
  {
  }

  /** Once cleaning succeeds, the constructor's outcome is that of the cleaned lines. */
  lemma PreparedFinishes(program: string, lines: seq<string>)
    requires Prepared(program) == Ok(lines)
    ensures Interpret(program) == Finishing(lines)
  {
  }

  // ---------------------------------------------------------------------
  // The object

  class RiscVInterpreter {
    /** Whether the program ran to its end without an unknown mnemonic. */
    var worked: bool
    var memory: Memory
    var regs: Regs
    /** The `.equiv` names and values, in the order the names were first put. */
    var equivs: Table
    var lines: seq<string>
    var labels: map<string, i32>
    var instructions: seq<string>
    var address: i32
    var printer: string
    var active: bool
    var badbadbad: bool
    // The instruction-level fields `processInstruction` sets.
    var regTo: Option<string>
    var reg1: Option<string>
    var reg2: Option<string>
    var imm: Option<i32>
    var labelName: Option<string>
    /** The exception that escapes the constructor, if one does. */
    var fault: Option<Fault>

    /** `thrown` is the exception cleaning `program` raises, and otherwise `lines` are the cleaned lines. */
    predicate Cleaned(program: string, thrown: Option<Fault>)
      reads this
    {
      var r := Prepared(program);
      thrown == ErrorOf(r) && (r.Ok? ==> lines == r.value)
    }

    /**
     * The object holds outcome `r`: the exception it records is `r`'s, and
     * after a normal end its code and machine state are `r`'s, with
     * `worked` set exactly when no unknown mnemonic stopped the run.
     */
    predicate Reports(r: Result<(Program, Machine)>)
      reads this
    {
      fault == ErrorOf(r) &&
      (r.Ok? ==> Code() == r.value.0 && Snapshot(r.value.1.pc, r.value.1.cycles) == r.value.1 &&
                 worked == !badbadbad)
    }

    /**
     * `new RiscVInterpreter(program)`: a program that reads input is left
     * alone; any other is cleaned, loaded and run, and `worked` records
     * that no unknown mnemonic stopped it.
     */
    constructor(program: string)
      ensures Contains(program, "jal $input") ==> !worked && fault.None? && !badbadbad
      ensures !Contains(program, "jal $input") ==> Reports(Interpret(program))
    {
      worked := false;
      memory := map[];
      regs := map[];
      equivs := [];
      lines := [];
      labels := map[];
      instructions := [];
      address := 0;
      printer := "";
      active := false;
      badbadbad := false;
      regTo, reg1, reg2, imm, labelName := None, None, None, None, None;
      fault := None;
      new;
      if Contains(program, "jal $input") {
        return;
      }
      Build(program);
    }

    /**
     * The constructor past its guard: `active` set, the lines cleaned, then
     * loaded and run; an exception is recorded in `fault`.
     */
    method Build(program: string)
      requires equivs == [] && !badbadbad && !worked && fault.None?
      modifies this`lines, this`equivs, this`labels, this`memory, this`address, this`instructions
      modifies this`regs, this`printer, this`active, this`badbadbad
      modifies this`regTo, this`reg1, this`reg2, this`imm, this`labelName, this`worked, this`fault
      ensures Reports(Interpret(program))
    {
      var thrown := Prepare(program);
      Settle(program, thrown);
    }

    /** The constructor once cleaning returned: its exception, or the loading and the run. */
    method Settle(ghost program: string, thrown: Option<Fault>)
      requires Cleaned(program, thrown) && !badbadbad && !worked && fault.None?
      modifies this`labels, this`memory, this`address, this`instructions
      modifies this`regs, this`printer, this`active, this`badbadbad
      modifies this`regTo, this`reg1, this`reg2, this`imm, this`labelName, this`worked, this`fault
      ensures Reports(Interpret(program))
    {
      active := true;
      if thrown.Some? {
        PreparedFails(program);
        fault := thrown;
        return;
      }
      Finish(program);
    }

    /** The constructor once `program` is cleaned into `lines`. */
    method Finish(ghost program: string)
      requires Prepared(program) == Ok(lines) && !badbadbad && !worked && fault.None?
      modifies this`labels, this`memory, this`address, this`instructions
      modifies this`regs, this`printer, this`active, this`badbadbad
      modifies this`regTo, this`reg1, this`reg2, this`imm, this`labelName, this`worked, this`fault
      ensures Reports(Interpret(program))
    {
      PreparedFinishes(program, lines);
      LoadAndRun();
    }

    /**
     * The constructor after cleaning: `makeData`, `makeInstructionList`,
     * `initRegs` and `runProgram`, then `worked` when no unknown mnemonic
     * stopped the run; an exception is recorded in `fault`.
     */
    method LoadAndRun()
      requires !badbadbad && !worked && fault.None?
      modifies this`labels, this`memory, this`address, this`instructions
      modifies this`regs, this`printer, this`active, this`badbadbad
      modifies this`regTo, this`reg1, this`reg2, this`imm, this`labelName, this`worked, this`fault
      ensures Reports(Finishing(old(lines)))
    {
      memory, labels, instructions, address := map[], map[], [], 0;
      var thrown := Load();
      if thrown.Some? {
        fault := thrown;
        return;
      }
      Conclude();
    }

    /** `runProgram` on the loaded program, then `worked` when no unknown mnemonic stopped it. */
    method Conclude()
      requires !badbadbad && !worked && fault.None?
      modifies this`regs, this`memory, this`printer, this`active, this`badbadbad
      modifies this`regTo, this`reg1, this`reg2, this`imm, this`labelName, this`worked, this`fault
      ensures Reports(Running(old(Loaded()), old(instructions)))
    {
      var thrown := Launch();
      if thrown.Some? {
        fault := thrown;
        return;
      }
      if !badbadbad {
        worked := true;
      }
    }

    /**
     * The constructor's last phases: `initRegs` on the empty register map,
     * then `runProgram`.  No phase before the run reads or writes a
     * register, so the registers are put here rather than first.
     */
    method Launch() returns (thrown: Option<Fault>)
      requires !badbadbad
      modifies this`regs, this`memory, this`printer, this`active, this`badbadbad
      modifies this`regTo, this`reg1, this`reg2, this`imm, this`labelName
      ensures var r := Run(Code(), Start(old(memory)));
              thrown == ErrorOf(r) && (r.Ok? ==> Snapshot(r.value.pc, r.value.cycles) == r.value)
    {
      regs, printer, active := map[], "", true;
      regTo, reg1, reg2, imm, labelName := None, None, None, None, None;
      InitRegs();
      assert Snapshot(0, 0) == Start(memory);
      thrown := RunProgram();
    }

    /** The constructor's cleaning phases: the lines split and trimmed, `removeComments`, `makeEquivs`. */
    method Prepare(program: string) returns (thrown: Option<Fault>)
      requires equivs == []
      modifies this`lines, this`equivs
      ensures Cleaned(program, thrown)
    {
      SplitLines(program);
      RemoveComments();
      thrown := MakeEquivs();
    }

    /** The constructor's loading phases: `makeData`, then `makeInstructionList`. */
    method Load() returns (thrown: Option<Fault>)
      requires Loaded() == Layout(map[], map[], 0) && instructions == []
      modifies this`labels, this`memory, this`address, this`instructions
      ensures var r := Loading(lines);
              thrown == ErrorOf(r) && (r.Ok? ==> Loaded() == r.value.0 && instructions == r.value.1)
    {
      thrown := MakeData();
      if thrown.Some? {
        return;
      }
      thrown := MakeInstructionList();
    }

    /** The lines of `program`, each trimmed in place in the array `split` returns. */
    method SplitLines(program: string)
      modifies this`lines
      ensures lines == ProgramLines(program)
    {
      var parts := Split(program, '\n');
      var strLines := new string[|parts|](k requires 0 <= k < |parts| => parts[k]);
      for i := 0 to strLines.Length
        invariant forall k :: 0 <= k < i ==> strLines[k] == Trim(parts[k])
        invariant forall k :: i <= k < strLines.Length ==> strLines[k] == parts[k]
      {
        strLines[i] := Trim(strLines[i]);
      }
      TrimEachAt(parts);
      lines := strLines[..];
    }

    /** `initRegs`: the `put`s of `InitialPuts`, in order. */
    method InitRegs()
      modifies this`regs
      ensures regs == PutAll(old(regs), InitialPuts())
    {
      ghost var r0 := regs;
      PutNumbered("a", 0, 7);
      PutNumbered("t", 0, 6);
      PutNumbered("s", 1, 11);
      PutAllAppend(r0, Family("a", 0, 7), Family("t", 0, 6));
      PutAllAppend(r0, Family("a", 0, 7) + Family("t", 0, 6), Family("s", 1, 11));
      ghost var numbered := regs;
      regs := regs[Some("fp") := Some(0)];
      regs := regs[Some("sp") := Some(0x7fff_fff0)];
      regs := regs[Some("gp") := Some(0x1000_0000)];
      regs := regs[Some("ra") := Some(0)];
      regs := regs[Some("zero") := Some(0)];
      regs := regs[Some("x0") := Some(0)];
      PutAllAppend(r0, Families(), Fixed());
      FixedPuts(numbered);
    }

    /** `for (int i = lo; i <= hi; i++) regs.put(prefix + i, 0)`. */
    method PutNumbered(prefix: string, lo: int, hi: int)
      modifies this`regs
      ensures regs == PutAll(old(regs), Family(prefix, lo, hi))
    {
      var i := lo;
      while i <= hi
        invariant lo <= i && (i <= hi + 1 || i == lo)
        invariant regs == PutAll(old(regs), Family(prefix, lo, i - 1))
        decreases hi - i
      {
        PutFamilyNext(old(regs), prefix, lo, i);
        regs := regs[Some(prefix + Decimal(i)) := Some(0)];
        i := i + 1;
      }
    }

    /**
     * `lines.remove` at each listed position, highest first, as `removeComments`
     * does after `Collections.reverse` of an ascending list.
     */
    method RemoveAt(removes: seq<int>)
      requires AscendingPositions(removes, |lines|)
      modifies this`lines
      ensures lines == Omit(old(lines), removes)
    {
      ghost var s := lines;
      OmitNone(s, []);
      assert removes[|removes|..] == [];
      var k := |removes|;
      while k > 0
        invariant 0 <= k <= |removes|
        invariant lines == Omit(s, removes[k..])
      {
        k := k - 1;
        var r := removes[k];
        OmitOneMore(s, removes[k + 1..], r);
        assert removes[k..] == [r] + removes[k + 1..];
        lines := lines[..r] + lines[r + 1..];
      }
    }

    /**
     * `makeEquivs`: the `.equiv` lines are collected into `equivs` and
     * removed, then every name is replaced by its value on every line but
     * the `.string` lines; or the fault that stops it.
     */
    method MakeEquivs() returns (thrown: Option<Fault>)
      requires DistinctKeys(equivs)
      modifies this`lines, this`equivs
      ensures var r := ApplyEquivs(old(lines), old(equivs));
              thrown == ErrorOf(r) &&
              (r.Ok? ==> lines == r.value.0 && equivs == r.value.1)
    {
      ghost var s := lines;
      var indices;
      indices, thrown := CollectEquivs();
      if thrown.Some? {
        return;
      }
      RemoveAt(indices);
      OmitWhere(s, IsEquivLine);
      thrown := ReplaceNames();
    }

    /** `makeEquivs`' first loop: the `.equiv` lines put into `equivs`, and their positions. */
    method CollectEquivs() returns (indices: seq<int>, thrown: Option<Fault>)
      requires DistinctKeys(equivs)
      modifies this`equivs
      ensures var r := EquivTable(lines, old(equivs));
              thrown == ErrorOf(r) &&
              (r.Ok? ==> equivs == r.value && indices == Where(lines, IsEquivLine))
    {
      ghost var s := lines;
      ghost var t0 := equivs;
      indices := [];
      var i := 0;
      while i < |lines|
        invariant 0 <= i <= |lines| && lines == s
        invariant DistinctKeys(equivs) && EquivTable(s[..i], t0) == Ok(equivs)
        invariant indices == Where(s[..i], IsEquivLine)
      {
        var line := lines[i];
        WhereNext(s, i, IsEquivLine);
        EquivTableNext(s, t0, i);
        ghost var step := EquivTable(s[..i + 1], t0);
        if ".equiv" <= line {
          var fields := Split(line, ' ');
          if |fields| < 3 || |fields[1]| == 0 {
            assert step == Err(MalformedEquiv(line));
            EquivTableStops(s, t0, i + 1);
            return indices, Some(MalformedEquiv(line));
          }
          var name := fields[1][..|fields[1]| - 1];
          assert EquivEntry(line) == Ok((name, fields[2]));
          equivs := Put(equivs, name, fields[2]);
          indices := indices + [i];
        }
        assert step == Ok(equivs);
        i := i + 1;
      }
      assert s[..i] == s;
      return indices, None;
    }

    /** `makeEquivs`' second loop: every name of `equivs`, in table order, replaced on every line but `.string` lines. */
    method ReplaceNames() returns (thrown: Option<Fault>)
      modifies this`lines
      ensures Diverges(old(lines), equivs) <==> thrown == Some(NoProgress)
      ensures thrown.None? ==> lines == if NonEmptyKeys(equivs) then ExpandAll(old(lines), equivs) else old(lines)
      ensures thrown.None? || thrown == Some(NoProgress)
    {
      ghost var kept := lines;
      var i := 0;
      while i < |lines|
        invariant 0 <= i <= |lines| == |kept|
        invariant forall k :: i <= k < |kept| ==> lines[k] == kept[k]
        invariant forall k :: 0 <= k < i ==> ReplacedLine(kept[k], lines[k], equivs)
      {
        var line := lines[i];
        if ".string" <= line {
          i := i + 1;
          continue;
        }
        var j := 0;
        while j < |equivs|
          invariant 0 <= j <= |equivs|
          invariant NonEmptyKeys(equivs[..j])
          invariant NonEmptyKeys(equivs) ==> Substitute(line, equivs[j..]) == Substitute(kept[i], equivs)
        {
          var key := equivs[j].0;
          if |key| == 0 {
            assert !NonEmptyKeys(equivs);
            assert !IsStringLine(kept[i]);
            return Some(NoProgress);
          }
          assert equivs[j..][1..] == equivs[j + 1..];
          line := ReplaceAll(line, key, equivs[j].1);
          assert equivs[..j + 1][..j] == equivs[..j];
          j := j + 1;
        }
        assert equivs[..j] == equivs && equivs[j..] == [];
        assert ReplacedLine(kept[i], line, equivs);
        lines := lines[i := line];
        i := i + 1;
      }
      if NonEmptyKeys(equivs) {
        assert forall k :: 0 <= k < |lines| ==> lines[k] == ExpandAll(kept, equivs)[k];
      } else {
        assert forall k :: 0 <= k < |lines| ==> lines[k] == kept[k] && IsStringLine(kept[k]);
      }
      return None;
    }

    /** The label table, the memory and `address`, as one value. */
    function Loaded(): Layout
      reads this
    {
      Layout(labels, memory, address)
    }

    /**
     * `data(i)`: a label line binds its label to `address`; a `.word` line
     * stores its number, or a known label's address, and moves on one word;
     * a `.string` line stores its packed literal word by word.
     */
    method Data(i: int) returns (thrown: Option<Fault>)
      modifies this`labels, this`memory, this`address
      ensures var r := StepAt(DataLine, old(Loaded()), lines, i);
              thrown == ErrorOf(r) && (r.Ok? ==> Loaded() == r.value)
    {
      if !(0 <= i < |lines|) {
        return Some(NoSuchLine(i));
      }
      var line := lines[i];
      if ':' in line {
        labels := labels[line[..IndexOf(line, ':')] := address];
        thrown := None;
      } else if Contains(line, ".word") {
        thrown := WordData(line);
      } else if Contains(line, ".string") {
        thrown := StringData(line);
      } else {
        thrown := None;
      }
    }

    /** The `.word` branch of `data`: the number or a known label's address stored at `address`, which moves on one word. */
    method WordData(line: string) returns (thrown: Option<Fault>)
      modifies this`memory, this`address
      ensures var r := WordLine(old(Loaded()), line);
              thrown == ErrorOf(r) && (r.Ok? ==> Loaded() == r.value)
    {
      var word := Split(line, ' ');
      if |word| < 2 {
        return Some(MalformedData(line));
      }
      if IsDecimalLiteral(word[1]) {
        var v := ParseInt(word[1]);
        if v.None? {
          return Some(BadNumber(word[1]));
        }
        memory := memory[Some(address) := Some(v.value)];
      } else if word[1] in labels {
        memory := memory[Some(address) := Some(labels[word[1]])];
      }
      address := Wrap(address + 4);
      return None;
    }

    /** The `.string` branch of `data`: the text between the first and the last double quote, stored. */
    method StringData(line: string) returns (thrown: Option<Fault>)
      modifies this`memory, this`address
      ensures var r := StringLine(old(Loaded()), line);
              thrown == ErrorOf(r) && (r.Ok? ==> Loaded() == r.value)
    {
      var startInd := IndexOf(line, '"');
      var endInd := LastIndexOf(line, '"');
      if !(startInd < endInd) {
        return Some(MalformedData(line));
      }
      thrown := StoreString(line[startInd + 1..endInd]);
    }

    /** The `.string` loop: the packed words of `literal` stored at consecutive words from `address`. */
    method StoreString(literal: string) returns (thrown: Option<Fault>)
      modifies this`memory, this`address
      ensures thrown.None? && Loaded() == StoreWords(old(Loaded()), PackString(literal))
    {
      var words := PackString(literal);
      var lengthLeft := 4 * |words|;
      var k := 0;
      while lengthLeft > 0
        invariant 0 <= k <= |words| && lengthLeft == 4 * (|words| - k)
        invariant StoreWords(Loaded(), words[k..]) == StoreWords(old(Loaded()), words)
      {
        StoreWordsNext(Loaded(), words, k);
        StoreWord(words[k]);
        lengthLeft := lengthLeft - 4;
        k := k + 1;
      }
      return None;
    }

    /** `memory.put(address, w)`, then `address += 4`. */
    method StoreWord(w: i32)
      modifies this`memory, this`address
      ensures Loaded() == Store(old(Loaded()), w)
    {
      memory := memory[Some(address) := Some(w)];
      address := Wrap(address + 4);
    }

    /** `for (int i = lo; i < hi; i++) data(i)`. */
    method DataRange(lo: int, hi: int) returns (thrown: Option<Fault>)
      modifies this`labels, this`memory, this`address
      ensures Outcome(DataLine, old(Loaded()), lines, lo, hi, thrown, Loaded())
    {
      ghost var lay0 := Loaded();
      var i := lo;
      while i < hi
        invariant lo <= i && (i <= hi || i == lo)
        invariant Reaches(DataLine, lay0, lines, lo, i, Loaded())
        decreases hi - i
      {
        thrown := DataNext(lay0, lo, i);
        if thrown.Some? {
          PassStops(DataLine, lay0, lines, lo, i + 1, hi);
          return;
        }
        i := i + 1;
      }
      return None;
    }

    /** One more turn of the data loop: line `i`, after lines `lo` to `i - 1`. */
    method DataNext(ghost lay0: Layout, lo: int, i: int) returns (thrown: Option<Fault>)
      requires lo <= i && Reaches(DataLine, lay0, lines, lo, i, Loaded())
      modifies this`labels, this`memory, this`address
      ensures Outcome(DataLine, lay0, lines, lo, i + 1, thrown, Loaded())
    {
      ghost var before := Loaded();
      thrown := Data(i);
      PassNext(DataLine, lay0, lines, lo, i, before);
    }

    /**
     * `setMainGlobals`: from address 0, each code label is bound to the
     * current address, and each line that is not a directive, a comment or
     * shorter than four characters moves it on one word.
     */
    method SetMainGlobals() returns (thrown: Option<Fault>)
      modifies this`labels, this`address
      ensures var r := CodeLabels(old(Loaded()), lines);
              thrown == ErrorOf(r) && (r.Ok? ==> Loaded() == r.value)
    {
      address := 0;
      var startInd := IndexOf(lines, ".globl main");
      var endInd := LastIndexOf(lines, ".data");
      thrown := CodeRange(startInd, endInd);
    }

    /** `setMainGlobals`' loop: `for (int i = lo; i < hi; i++)` over the code lines. */
    method CodeRange(lo: int, hi: int) returns (thrown: Option<Fault>)
      modifies this`labels, this`address
      ensures Outcome(CodeLine, old(Loaded()), lines, lo, hi, thrown, Loaded())
    {
      ghost var lay0 := Loaded();
      var i := lo;
      while i < hi
        invariant lo <= i && (i <= hi || i == lo)
        invariant Reaches(CodeLine, lay0, lines, lo, i, Loaded())
        decreases hi - i
      {
        ghost var before := Loaded();
        thrown := CodeAt(i);
        PassNext(CodeLine, lay0, lines, lo, i, before);
        if thrown.Some? {
          PassStops(CodeLine, lay0, lines, lo, i + 1, hi);
          return;
        }
        i := i + 1;
      }
      return None;
    }

    /** The body of `setMainGlobals`' loop on line `i`. */
    method CodeAt(i: int) returns (thrown: Option<Fault>)
      modifies this`labels, this`address
      ensures var r := StepAt(CodeLine, old(Loaded()), lines, i);
              thrown == ErrorOf(r) && (r.Ok? ==> Loaded() == r.value)
    {
      if !(0 <= i < |lines|) {
        return Some(NoSuchLine(i));
      }
      thrown := None;
      var line := lines[i];
      if ':' in line {
        labels := labels[line[..IndexOf(line, ':')] := address];
      } else if "." <= line || "#" <= line || |line| < 4 {
      } else {
        address := Wrap(address + 4);
      }
    }

    /**
     * `makeData`: both data regions from `DATA_BASE`, the code labels, then
     * both data regions again from `DATA_BASE`, so that a `.word` naming a
     * label defined later finds it.
     */
    method MakeData() returns (thrown: Option<Fault>)
      modifies this`labels, this`memory, this`address
      ensures var r := LoadData(old(Loaded()), lines);
              thrown == ErrorOf(r) && (r.Ok? ==> Loaded() == r.value)
    {
      var startInd := IndexOf(lines, ".data");
      var endInd := IndexOf(lines, ".text");
      address := DATA_BASE;
      thrown := DataRange(startInd, endInd);
      if thrown.Some? {
        return;
      }
      var startLast := LastIndexOf(lines, ".data");
      thrown := DataRange(startLast, |lines|);
      if thrown.Some? {
        return;
      }
      thrown := SetMainGlobals();
      if thrown.Some? {
        return;
      }
      address := DATA_BASE;
      thrown := DataRange(startInd, endInd);
      if thrown.Some? {
        return;
      }
      thrown := DataRange(startLast, |lines|);
    }

    /** `makeInstructionList`: the listed lines of the code region appended to `instructions`. */
    method MakeInstructionList() returns (thrown: Option<Fault>)
      modifies this`instructions
      ensures var r := InstructionList(lines);
              thrown == ErrorOf(r) &&
              (r.Ok? ==> instructions == old(instructions) + r.value)
    {
      var startInd := IndexOf(lines, ".globl main");
      var endInd := LastIndexOf(lines, ".data");
      if !(0 <= startInd <= endInd) {
        return Some(BadRegion(startInd, endInd));
      }
      var i := startInd;
      while i < endInd
        invariant startInd <= i <= endInd
        invariant instructions == old(instructions) + ListedIn(lines, startInd, i)
      {
        var line := lines[i];
        assert ListedIn(lines, startInd, i + 1) == ListedIn(lines, startInd, i) + (if Listed(line) then [line] else []);
        if "." <= line {
        } else if ':' in line {
        } else {
          instructions := instructions + [line];
        }
        i := i + 1;
      }
      return None;
    }

    /** `removeComments`: every line cut at its first `#` and trimmed, then the empty lines removed. */
    method RemoveComments()
      modifies this`lines
      ensures lines == StripComments(old(lines))
    {
      ghost var s := lines;
      var removes := CleanLines();
      RemoveAt(removes);
      OmitWhere(StripEach(s), IsEmptyLine);
    }

    /** One line of `removeComments`: cut at its first `#` and trimmed, if it has one. */
    static method CleanLine(line: string) returns (cleaned: string)
      ensures cleaned == StripComment(line)
    {
      cleaned := line;
      var commentInd := IndexOf(line, '#');
      if commentInd >= 0 {
        cleaned := Trim(line[..commentInd]);
      }
    }

    /** `removeComments`' first loop: each line stripped in place, and the positions of those left empty. */
    method CleanLines() returns (removes: seq<int>)
      modifies this`lines
      ensures lines == StripEach(old(lines)) && removes == Where(lines, IsEmptyLine)
    {
      ghost var s := lines;
      ghost var cleaned := StripEach(s);
      StripEachAt(s);
      removes := [];
      var i := 0;
      while i < |lines|
        invariant 0 <= i <= |lines| == |s|
        invariant forall k :: 0 <= k < i ==> lines[k] == cleaned[k]
        invariant forall k :: i <= k < |s| ==> lines[k] == s[k]
        invariant removes == Where(cleaned[..i], IsEmptyLine)
      {
        var line := CleanLine(lines[i]);
        assert line == cleaned[i];
        WhereNext(cleaned, i, IsEmptyLine);
        assert IsEmptyLine(line) <==> |line| == 0;
        if |line| == 0 {
          removes := removes + [i];
        }
        lines := lines[i := line];
        i := i + 1;
      }
      assert lines == cleaned;
      assert cleaned[..i] == cleaned;
    }

    // -------------------------------------------------------------------
    // Running

    /** The five instruction-level fields as one value. */
    function Ops(): Operands
      reads this
    {
      Operands(regTo, reg1, reg2, imm, labelName)
    }

    /** What loading produced, as `runProgram` reads it. */
    function Code(): Program
      reads this
    {
      Program(instructions, labels)
    }

    /** The fields a run changes, with `runProgram`'s locals `pc` and `cycles`. */
    function Snapshot(pc: i32, cycles: int): Machine
      reads this
    {
      Machine(regs, memory, printer, active, badbadbad, Ops(), pc, cycles)
    }

    /**
     * `processInstruction(instr)`: the mnemonic, with the operand fields
     * set from the tokens that follow it.
     */
    method ProcessInstruction(instr: string) returns (mn: string, thrown: Option<Fault>)
      modifies this`regTo, this`reg1, this`reg2, this`imm, this`labelName
      ensures var r := Decode(regs.Keys, old(Ops()), instr);
              thrown == ErrorOf(r) && (r.Ok? ==> mn == r.value.0 && Ops() == r.value.1)
    {
      var splitInstr := Split(instr, ' ');
      if |splitInstr| == 0 {
        return "", Some(MissingOperand(instr));
      }
      mn := splitInstr[0];
      if mn == "ecall" {
        return mn, None;
      }
      if |splitInstr| < 2 {
        return mn, Some(MissingOperand(instr));
      }
      var first := RemoveCommas(splitInstr[1]);
      var second := "";
      if |splitInstr| > 2 {
        second := RemoveCommas(splitInstr[2]);
        thrown := SecondOperand(second);
        if thrown.Some? {
          return;
        }
      }
      if |splitInstr| > 3 {
        thrown := ThirdOperand(RemoveCommas(splitInstr[3]));
        if thrown.Some? {
          return;
        }
      }
      if mn == "jal" {
        if Some(first) in regs {
          if |splitInstr| < 3 {
            return mn, Some(MissingOperand(instr));
          }
          labelName := Some(second);
        } else {
          labelName := Some(first);
        }
      }
      if mn == "j" {
        labelName := Some(first);
      }
      regTo := Some(first);
      return mn, None;
    }

    /** The second operand: a literal, then a register or a label, then `off(reg)` addressing. */
    method SecondOperand(t: string) returns (thrown: Option<Fault>)
      modifies this`reg1, this`imm, this`labelName
      ensures var r := Operand2(regs.Keys, old(Ops()), t);
              thrown == ErrorOf(r) && (r.Ok? ==> Ops() == r.value)
    {
      if IsDecimalLiteral(t) {
        var v := ParseInt(t);
        if v.None? {
          return Some(BadNumber(t));
        }
        imm := v;
      }
      if Some(t) in regs {
        reg1 := Some(t);
      } else {
        labelName := Some(t);
      }
      if '(' in t {
        var firstParen := IndexOf(t, '(');
        var lastParen := IndexOf(t, ')');
        if lastParen < firstParen + 1 {
          return Some(BadAddressing(t));
        }
        reg1 := Some(t[firstParen + 1..lastParen]);
        var offset := Offset(t[..firstParen]);
        if offset.Err? {
          return Some(offset.fault);
        }
        imm := Some(offset.value);
      }
      return None;
    }

    /** The third operand: a literal, then a register or a label. */
    method ThirdOperand(t: string) returns (thrown: Option<Fault>)
      modifies this`reg2, this`imm, this`labelName
      ensures var r := Operand3(regs.Keys, old(Ops()), t);
              thrown == ErrorOf(r) && (r.Ok? ==> Ops() == r.value)
    {
      if IsDecimalLiteral(t) {
        var v := ParseInt(t);
        if v.None? {
          return Some(BadNumber(t));
        }
        imm := v;
      }
      if Some(t) in regs {
        reg2 := Some(t);
      } else {
        labelName := Some(t);
      }
      return None;
    }

    /** The arithmetic cases of the `switch`: `regs.put(regTo, value)`. */
    method Arithmetic(a: ArithOp, ghost pc: i32, ghost cycles: int) returns (thrown: Option<Fault>)
      modifies this`regs
      ensures var r := ArithStep(Code(), old(Snapshot(pc, cycles)), a);
              thrown == ErrorOf(r) && (r.Ok? ==> Snapshot(pc, cycles) == r.value)
    {
      var value := Compute(Code(), regs, Ops(), a);
      if value.Err? {
        return Some(value.fault);
      }
      regs := regs[regTo := value.value];
      return None;
    }

    /** The branch cases: `pc = labels.get(label) - 4` when the condition holds. */
    method BranchTo(b: BranchOp, pc: i32, ghost cycles: int) returns (newPc: i32, thrown: Option<Fault>)
      ensures var r := BranchStep(Code(), Snapshot(pc, cycles), b);
              thrown == ErrorOf(r) && (r.Ok? ==> Snapshot(newPc, cycles) == r.value)
    {
      var taken := Taken(regs, Ops(), b);
      if taken.Err? {
        return pc, Some(taken.fault);
      }
      if !taken.value {
        return pc, None;
      }
      var target := JumpTarget(Code(), labelName);
      if target.Err? {
        return pc, Some(target.fault);
      }
      return target.value, None;
    }

    /** `jal`, `j`, `jr` and `jalr`; the linking ones first put `pc + 4` in `ra`. */
    method JumpFrom(j: JumpOp, pc: i32, ghost cycles: int) returns (newPc: i32, thrown: Option<Fault>)
      modifies this`regs
      ensures var r := JumpStep(Code(), old(Snapshot(pc, cycles)), j);
              thrown == ErrorOf(r) && (r.Ok? ==> Snapshot(newPc, cycles) == r.value)
    {
      newPc := pc;
      if j == JAL || j == JALR {
        regs := regs[Some("ra") := Some(NextPc(pc))];
      }
      if j == JAL || j == J {
        var target := JumpTarget(Code(), labelName);
        if target.Err? {
          return pc, Some(target.fault);
        }
        newPc := target.value;
      } else {
        var x := Reg(regs, regTo);
        if x.Err? {
          return pc, Some(x.fault);
        }
        newPc := Wrap(x.value as int - 4);
      }
      return newPc, None;
    }

    /** `sw`, `lw`, `lb` and `sb`. */
    method Transfer(x: MemoryOp, instr: string, ghost pc: i32, ghost cycles: int) returns (thrown: Option<Fault>)
      modifies this`regs, this`memory
      ensures var r := AccessStep(Code(), old(Snapshot(pc, cycles)), x, instr);
              thrown == ErrorOf(r) && (r.Ok? ==> Snapshot(pc, cycles) == r.value)
    {
      match x {
      case SW =>
        var key := WordKey(Code(), regs, Ops(), instr);
        if key.Err? {
          return Some(key.fault);
        }
        memory := memory[key.value := Get(regs, regTo)];
      case LW =>
        var key := WordKey(Code(), regs, Ops(), instr);
        if key.Err? {
          return Some(key.fault);
        }
        regs := regs[regTo := Get(memory, key.value)];
      case LB =>
        var address := Address(regs, Ops());
        if address.Err? {
          return Some(address.fault);
        }
        var value := LoadByte(memory, address.value);
        if value.Err? {
          return Some(value.fault);
        }
        regs := regs[regTo := Some(value.value)];
      case SB =>
        var store := Reg(regs, regTo);
        if store.Err? {
          return Some(store.fault);
        }
        var address := Address(regs, Ops());
        if address.Err? {
          return Some(address.fault);
        }
        var updated := StoreByte(memory, address.value, store.value);
        if updated.Err? {
          return Some(updated.fault);
        }
        memory := updated.value;
      }
      return None;
    }

    /** `ecall`: the system call `a0` names. */
    method SystemCall(ghost pc: i32, ghost cycles: int) returns (thrown: Option<Fault>)
      modifies this`regs, this`printer, this`active
      ensures var r := Ecall(old(Snapshot(pc, cycles)));
              thrown == ErrorOf(r) && (r.Ok? ==> Snapshot(pc, cycles) == r.value)
    {
      var code := Reg(regs, Some("a0"));
      if code.Err? {
        return Some(code.fault);
      }
      if code.value == 1 {
        printer := printer + Shown(Get(regs, Some("a1")));
      } else if code.value == 11 {
        printer := printer + "\n";
      } else if code.value == 4 {
        thrown := AppendString();
        if thrown.Some? {
          return;
        }
      } else if code.value == 9 {
        regs := regs[Some("a0") := Some(HEAP_BASE)];
      } else if code.value == 10 {
        active := false;
      } else if code.value == 17 {
        active := false;
        var errorCode := Reg(regs, Some("a1"));
        if errorCode.Err? {
          return Some(errorCode.fault);
        }
        printer := printer + "Exited with error code " + Decimal(errorCode.value) + "\n";
      }
      return None;
    }

    /**
     * `ecall` 4: the bytes of the words from the address in `a1` appended
     * one by one up to the first zero byte or zero word.
     */
    method AppendString() returns (thrown: Option<Fault>)
      modifies this`printer
      ensures var r := PrintString(regs, memory);
              thrown == ErrorOf(r) && (r.Ok? ==> printer == old(printer) + r.value)
    {
      var text;
      text, thrown := ReadString(regs, memory);
      if thrown.None? {
        printer := printer + text;
      }
    }

    /**
     * The loop of `ecall` 4: the characters it appends, gathered in `text`
     * in the order they are appended, or the exception that stops it.
     */
    static method ReadString(regs: Regs, memory: Memory) returns (text: string, thrown: Option<Fault>)
      ensures var r := PrintString(regs, memory);
              thrown == ErrorOf(r) && (r.Ok? ==> text == r.value)
    {
      var base := Get(regs, Some("a1"));
      var key := base;
      var value: Option<i32> := Get(memory, key);
      var counter: i32 := 0;
      text := "";
      // The exact number of passes; once `counter` has gone all the way round, the loop never ends.
      var n: nat := 0;
      ThenEmpty(PrintString(regs, memory));
      while true
        invariant n <= TWO32 && counter == Wrap(n)
        invariant Then(text, StringFrom(memory, base, key, value, n)) == PrintString(regs, memory)
        decreases TWO32 - n
      {
        if value.None? {
          return text, Some(UnmappedWord(key));
        }
        if value.value == 0 {
          return text, None;
        }
        if n == TWO32 {
          return text, Some(UnterminatedString(base));
        }
        ghost var before := StringFrom(memory, base, key, value, n);
        CounterStep(n, if base.Some? then base.value else 0);
        counter := Wrap(counter as int + 1);
        n := n + 1;
        var character := Lane(value.value, 0);
        if character == 0 {
          return text, None;
        }
        ghost var printed := text;
        text := text + [character as char];
        if counter % 4 == 0 {
          if base.None? {
            return text, Some(UnknownRegister(Some("a1")));
          }
          var next: i32 := Wrap(base.value as int + counter as int);
          key := Some(next);
          value := Get(memory, key);
        } else {
          value := Some(value.value / 256);
        }
        assert before == Then([character as char], StringFrom(memory, base, key, value, n));
        ThenPrepend(printed, character as char, StringFrom(memory, base, key, value, n));
      }
    }

    /**
     * One pass through `runProgram`'s `switch`: the `pc` after it (before
     * the `pc += 4` that follows), or the exception it raised.
     */
    method Perform(op: Op, instr: string, pc: i32, ghost cycles: int) returns (newPc: i32, thrown: Option<Fault>)
      modifies this`regs, this`memory, this`printer, this`active, this`badbadbad
      ensures var r := Execute(Code(), old(Snapshot(pc, cycles)), op, instr);
              thrown == ErrorOf(r) && (r.Ok? ==> Snapshot(newPc, cycles) == r.value)
    {
      newPc := pc;
      match op
      case Arith(a) => thrown := Arithmetic(a, pc, cycles);
      case Branch(b) => newPc, thrown := BranchTo(b, pc, cycles);
      case Jump(j) => newPc, thrown := JumpFrom(j, pc, cycles);
      case Access(x) => thrown := Transfer(x, instr, pc, cycles);
      case ECALL => thrown := SystemCall(pc, cycles);
      case Unknown(_) =>
        badbadbad := true;
        active := false;
        thrown := None;
    }

    /**
     * `runProgram`: from `pc` 0, fetch the instruction at `pc / 4`, decode
     * it, run its case and advance `pc` by 4, while `active` and fewer than
     * `CYCLE_LIMIT` instructions have run.
     */
    method RunProgram() returns (thrown: Option<Fault>)
      modifies this`regs, this`memory, this`printer, this`active, this`badbadbad
      modifies this`regTo, this`reg1, this`reg2, this`imm, this`labelName
      ensures var r := Run(Code(), old(Snapshot(0, 0)));
              thrown == ErrorOf(r) && (r.Ok? ==> Snapshot(r.value.pc, r.value.cycles) == r.value)
    {
      var pc: i32 := 0;
      var cycles := 0;
      while active && cycles < CYCLE_LIMIT
        invariant Run(Code(), Snapshot(pc, cycles)) == Run(Code(), old(Snapshot(0, 0)))
        decreases CYCLE_LIMIT - cycles
      {
        pc, thrown := Advance(pc, cycles);
        if thrown.Some? {
          return;
        }
        cycles := cycles + 1;
      }
      return None;
    }

    /** One cycle of a run that may go on: the run from the new state is the run from the old one. */
    method Advance(pc: i32, ghost cycles: int) returns (newPc: i32, thrown: Option<Fault>)
      requires active && cycles < CYCLE_LIMIT
      modifies this`regs, this`memory, this`printer, this`active, this`badbadbad
      modifies this`regTo, this`reg1, this`reg2, this`imm, this`labelName
      ensures var r := Run(Code(), old(Snapshot(pc, cycles)));
              if thrown.Some? then thrown == ErrorOf(r) else Run(Code(), Snapshot(newPc, cycles + 1)) == r
    {
      RunUnfold(Code(), Snapshot(pc, cycles));
      newPc, thrown := Cycle(pc, cycles);
    }

    /** One iteration of `runProgram`'s loop: fetch, decode, the `switch`, then `pc += 4`. */
    method Cycle(pc: i32, ghost cycles: int) returns (newPc: i32, thrown: Option<Fault>)
      modifies this`regs, this`memory, this`printer, this`active, this`badbadbad
      modifies this`regTo, this`reg1, this`reg2, this`imm, this`labelName
      ensures var r := Step(Code(), old(Snapshot(pc, cycles)));
              thrown == ErrorOf(r) && (r.Ok? ==> Snapshot(newPc, cycles + 1) == r.value)
    {
      var index := Quot(pc, 4);
      if !(0 <= index < |instructions|) {
        return pc, Some(PcOutOfRange(pc));
      }
      var instr := instructions[index];
      newPc, thrown := Proceed(instr, pc, cycles);
    }

    /** A fetched instruction: `processInstruction`, then the `switch` and `pc += 4`. */
    method Proceed(instr: string, pc: i32, ghost cycles: int) returns (newPc: i32, thrown: Option<Fault>)
      modifies this`regs, this`memory, this`printer, this`active, this`badbadbad
      modifies this`regTo, this`reg1, this`reg2, this`imm, this`labelName
      ensures var r := Decoded(Code(), old(Snapshot(pc, cycles)), instr);
              thrown == ErrorOf(r) && (r.Ok? ==> Snapshot(newPc, cycles + 1) == r.value)
    {
      var mn, decodeFault := ProcessInstruction(instr);
      if decodeFault.Some? {
        return pc, decodeFault;
      }
      newPc, thrown := Complete(mn, instr, pc, cycles);
    }

    /** The `switch` on a decoded mnemonic, then `pc += 4`. */
    method Complete(mn: string, instr: string, pc: i32, ghost cycles: int) returns (newPc: i32, thrown: Option<Fault>)
      modifies this`regs, this`memory, this`printer, this`active, this`badbadbad
      ensures var r := Dispatch(Code(), old(Snapshot(pc, cycles)), Classify(mn), instr);
              thrown == ErrorOf(r) && (r.Ok? ==> Snapshot(newPc, cycles + 1) == r.value)
    {
      newPc, thrown := Perform(Classify(mn), instr, pc, cycles);
      if thrown.Some? {
        return;
      }
      newPc := NextPc(newPc);
    }
  }

  /** `after` is `before` with the names of `t` replaced, or `before` itself when it is a `.string` line. */
  predicate ReplacedLine(before: string, after: string, t: Table)
  {
    if IsStringLine(before) then after == before
    else NonEmptyKeys(t) && after == Substitute(before, t)
  }

  /** The table after one more line is the table so far with that line recorded. */
  lemma EquivTableNext(s: seq<string>, t0: Table, i: int)
    requires DistinctKeys(t0) && 0 <= i < |s|
    ensures EquivTable(s[..i + 1], t0) ==
              match EquivTable(s[..i], t0)
              case Err(f) => Err(f)
              case Ok(t) =>
                if !IsEquivLine(s[i]) then Ok(t)
                else
                  match EquivEntry(s[i])
                  case Err(f) => Err(f)
                  case Ok(e) => Ok(Put(t, e.0, e.1))
  {
    assert s[..i + 1][..i] == s[..i];
  }

  lemma WhereNext(s: seq<string>, i: int, p: string -> bool)
    requires 0 <= i < |s|
    ensures Where(s[..i + 1], p) == Where(s[..i], p) + (if p(s[i]) then [i] else [])
  {
    assert s[..i + 1][..i] == s[..i];
  }
}
